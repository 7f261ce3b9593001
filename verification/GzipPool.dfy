/** The pool of gzip writers shared by all requests (internal/monserv/middlewares/middlewares.go): `sync.Pool` may
    hand out any pooled writer or a new one and may drop what it holds.  Every interleaving of the requests is a run
    of `Step`. */
module GzipPool {
  import opened Wrappers

  /** How a request uses its writer: `Got` it still pointing at the discard sink, `Serving`, `Ended` after
      `gzip.Writer.Close`, `Cleared` after the reset to the discard sink. */
  datatype Use = Got | Serving | Ended | Cleared

  datatype Request = Arrived | Using(w: nat, use: Use) | Gone

  /** A gzip writer: the response it points at, if any, and the requests whose bytes went in since its reset. */
  datatype Writer = Writer(target: Option<nat>, holds: seq<nat>)

  /** `responses[r]` lists whose bytes came out on the response of request `r`. */
  datatype State = State(writers: seq<Writer>, pool: multiset<nat>, requests: seq<Request>, responses: seq<seq<nat>>)

  datatype Action =
    | Arrive | TakePooled(r: nat, w: nat) | TakeNew(r: nat) | Reset(r: nat)
    | Write(r: nat, emits: bool) | Close(r: nat) | Clear(r: nat) | Put(r: nat) | Drop(w: nat)

  predicate Holds(s: State, r: nat, w: nat) {
    r < |s.requests| && s.requests[r].Using? && s.requests[r].w == w
  }

  predicate At(s: State, r: nat, use: Use) {
    r < |s.requests| && s.requests[r].Using? && s.requests[r].use == use && s.requests[r].w < |s.writers|
  }

  predicate Enabled(s: State, a: Action) {
    match a
    case Arrive => true
    case TakePooled(r, w) => r < |s.requests| && s.requests[r] == Arrived && w in s.pool
    case TakeNew(r) => r < |s.requests| && s.requests[r] == Arrived
    case Reset(r) => At(s, r, Got)
    case Write(r, _) => At(s, r, Serving)
    case Close(r) => At(s, r, Serving)
    case Clear(r) => At(s, r, Ended)
    case Put(r) => At(s, r, Cleared)
    case Drop(w) => w in s.pool
  }

  /** What the writer holds comes out wherever it points. */
  function Emit(s: State, w: nat): State
    requires w < |s.writers|
  {
    match s.writers[w].target
    case None => s
    case Some(r) =>
      if r < |s.responses| then s.(responses := s.responses[r := s.responses[r] + s.writers[w].holds]) else s
  }

  function Step(s: State, a: Action): State
    requires Enabled(s, a)
  {
    match a
    case Arrive => s.(requests := s.requests + [Arrived], responses := s.responses + [[]])
    case TakePooled(r, w) => s.(requests := s.requests[r := Using(w, Got)], pool := s.pool - multiset{w})
    case TakeNew(r) => s.(requests := s.requests[r := Using(|s.writers|, Got)], writers := s.writers + [Writer(None, [])])
    case Reset(r) =>
      var w := s.requests[r].w;
      s.(requests := s.requests[r := Using(w, Serving)], writers := s.writers[w := Writer(Some(r), [])])
    case Write(r, emits) =>
      var w := s.requests[r].w;
      var s' := s.(writers := s.writers[w := s.writers[w].(holds := s.writers[w].holds + [r])]);
      if emits then Emit(s', w) else s'
    case Close(r) =>
      var w := s.requests[r].w;
      Emit(s.(requests := s.requests[r := Using(w, Ended)]), w)
    case Clear(r) =>
      var w := s.requests[r].w;
      s.(requests := s.requests[r := Using(w, Cleared)], writers := s.writers[w := Writer(None, [])])
    case Put(r) => s.(requests := s.requests[r := Gone], pool := s.pool + multiset{s.requests[r].w})
    case Drop(w) => s.(pool := s.pool - multiset{w})
  }

  const START := State([], multiset{}, [], [])

  ghost predicate Runs(s: State, actions: seq<Action>)
    decreases |actions|
  {
    actions == [] || (Enabled(s, actions[0]) && Runs(Step(s, actions[0]), actions[1..]))
  }

  ghost function After(s: State, actions: seq<Action>): State
    requires Runs(s, actions)
    decreases |actions|
  {
    if actions == [] then s else After(Step(s, actions[0]), actions[1..])
  }

  // ----- the invariant

  ghost predicate Only(r: nat, from: seq<nat>) {
    forall i | 0 <= i < |from| :: from[i] == r
  }

  ghost predicate Idle(s: State, w: nat) {
    w < |s.writers| && s.writers[w] == Writer(None, [])
  }

  /** A pooled writer is pooled once, points nowhere and has no user. */
  ghost predicate PoolOk(s: State) {
    && (forall w: nat | w in s.pool :: s.pool[w] == 1 && Idle(s, w))
    && (forall r: nat, w: nat | Holds(s, r, w) :: w !in s.pool)
  }

  /** While a request serves, its writer points at its own response only. */
  ghost predicate UserOk(s: State, r: nat, w: nat) {
    w < |s.writers| && r < |s.requests| && s.requests[r].Using?
    && if s.requests[r].use == Serving || s.requests[r].use == Ended
       then s.writers[w].target == Some(r) && Only(r, s.writers[w].holds)
       else Idle(s, w)
  }

  /** A writer has at most one user. */
  ghost predicate UsersOk(s: State) {
    && |s.responses| == |s.requests|
    && (forall q: nat, r: nat, w: nat | Holds(s, q, w) && Holds(s, r, w) :: q == r)
    && (forall r: nat, w: nat | Holds(s, r, w) :: UserOk(s, r, w))
  }

  ghost predicate ResponsesOk(s: State) {
    forall r | 0 <= r < |s.responses| :: Only(r, s.responses[r])
  }

  ghost predicate Inv(s: State) {
    PoolOk(s) && UsersOk(s) && ResponsesOk(s)
  }

  /** The user of a writer moves on: nobody else notices. */
  lemma UserMoves(s: State, s': State, r: nat)
    requires UsersOk(s) && r < |s.requests| && s.requests[r].Using? && |s'.writers| == |s.writers|
    requires |s'.responses| == |s.responses| && |s'.requests| == |s.requests| && s'.requests == s.requests[r := s'.requests[r]]
    requires s'.requests[r] == Gone || (s'.requests[r].Using? && s'.requests[r].w == s.requests[r].w)
    requires forall w: nat | w < |s.writers| && w != s.requests[r].w :: s'.writers[w] == s.writers[w]
    requires s'.requests[r] != Gone ==> UserOk(s', r, s.requests[r].w)
    ensures UsersOk(s')
  {
    forall q: nat, w: nat | Holds(s', q, w)
      ensures UserOk(s', q, w)
    {
      assert Holds(s, r, s.requests[r].w) && Holds(s, q, w);
      assert UserOk(s, q, w);
    }
    forall p: nat, q: nat, w: nat | Holds(s', p, w) && Holds(s', q, w)
      ensures p == q
    {
      assert Holds(s, p, w) && Holds(s, q, w);
    }
  }

  /** A request takes a writer that nobody uses. */
  lemma UserComes(s: State, s': State, r: nat)
    requires UsersOk(s) && r < |s.requests| && s.requests[r] == Arrived && |s.writers| <= |s'.writers|
    requires |s'.responses| == |s.responses| && |s'.requests| == |s.requests| && s'.requests == s.requests[r := s'.requests[r]]
    requires s'.requests[r].Using? && s'.requests[r].use == Got && Idle(s', s'.requests[r].w)
    requires forall q: nat :: !Holds(s, q, s'.requests[r].w)
    requires forall w: nat | w < |s.writers| :: s'.writers[w] == s.writers[w]
    ensures UsersOk(s')
  {
    forall q: nat, w: nat | Holds(s', q, w)
      ensures UserOk(s', q, w)
    {
      if q != r {
        assert Holds(s, q, w);
        assert UserOk(s, q, w);
      }
    }
    forall p: nat, q: nat, w: nat | Holds(s', p, w) && Holds(s', q, w)
      ensures p == q
    {
      assert p != r ==> Holds(s, p, w);
      assert q != r ==> Holds(s, q, w);
    }
  }

  lemma UsersKept(s: State, a: Action)
    requires PoolOk(s) && UsersOk(s) && Enabled(s, a)
    ensures UsersOk(Step(s, a))
  {
    hide UserOk;
    if a.Arrive? {
      ArriveKeeps(s);
    } else if a.Drop? {
      DropKeeps(s, a.w);
    } else if a.TakePooled? {
      UserComes(s, Step(s, a), a.r);
    } else if a.TakeNew? {
      FreshUnused(s);
      UserComes(s, Step(s, a), a.r);
    } else {
      MoverOk(s, a);
      UserMoves(s, Step(s, a), a.r);
    }
  }

  lemma MoverOk(s: State, a: Action)
    requires UsersOk(s) && Enabled(s, a) && (a.Reset? || a.Write? || a.Close? || a.Clear? || a.Put?)
    ensures var s' := Step(s, a);
            s'.requests[a.r] != Gone ==> UserOk(s', a.r, s.requests[a.r].w)
  {
    assert Holds(s, a.r, s.requests[a.r].w) && UserOk(s, a.r, s.requests[a.r].w);
  }

  lemma FreshUnused(s: State)
    requires UsersOk(s)
    ensures forall r: nat :: !Holds(s, r, |s.writers|)
  {
    forall r: nat
      ensures !Holds(s, r, |s.writers|)
    {
      assert Holds(s, r, |s.writers|) ==> UserOk(s, r, |s.writers|);
    }
  }

  lemma ArriveKeeps(s: State)
    requires UsersOk(s)
    ensures UsersOk(Step(s, Arrive))
  {
    var s' := Step(s, Arrive);
    forall r: nat, w: nat | Holds(s', r, w)
      ensures Holds(s, r, w) && UserOk(s', r, w)
    {
      assert UserOk(s, r, w);
    }
  }

  lemma DropKeeps(s: State, w: nat)
    requires UsersOk(s) && Enabled(s, Drop(w))
    ensures UsersOk(Step(s, Drop(w)))
  {
    var s' := Step(s, Drop(w));
    forall r: nat, v: nat | Holds(s', r, v)
      ensures Holds(s, r, v) && UserOk(s', r, v)
    {
      assert UserOk(s, r, v);
    }
  }

  lemma PutIdle(s: State, r: nat)
    requires UsersOk(s) && Enabled(s, Put(r))
    ensures Idle(s, s.requests[r].w)
  {
    assert Holds(s, r, s.requests[r].w);
    assert UserOk(s, r, s.requests[r].w);
  }

  lemma PooledIdle(s: State, a: Action)
    requires PoolOk(s) && UsersOk(s) && Enabled(s, a)
    ensures forall w: nat | w in Step(s, a).pool :: Step(s, a).pool[w] == 1 && Idle(Step(s, a), w)
  {
    hide UserOk;
    if a.Reset? || a.Write? || a.Close? || a.Clear? {
      assert Holds(s, a.r, s.requests[a.r].w);
    } else if a.Put? {
      assert Holds(s, a.r, s.requests[a.r].w);
      PutIdle(s, a.r);
    }
  }

  lemma PooledUnused(s: State, a: Action)
    requires PoolOk(s) && UsersOk(s) && Enabled(s, a)
    ensures forall r: nat, w: nat | Holds(Step(s, a), r, w) :: w !in Step(s, a).pool
  {
    var s' := Step(s, a);
    if a.Put? {
      assert Holds(s, a.r, s.requests[a.r].w);
    }
    forall r: nat, w: nat | Holds(s', r, w)
      ensures w !in s'.pool
    {
      assert Holds(s, r, w) || (a.TakePooled? && w == a.w) || (a.TakeNew? && w == |s.writers|);
    }
  }

  lemma PoolKept(s: State, a: Action)
    requires PoolOk(s) && UsersOk(s) && Enabled(s, a)
    ensures PoolOk(Step(s, a))
  {
    hide UsersOk;
    PooledIdle(s, a);
    PooledUnused(s, a);
  }

  lemma ResponsesKept(s: State, a: Action)
    requires UsersOk(s) && ResponsesOk(s) && Enabled(s, a)
    ensures ResponsesOk(Step(s, a))
  {
    if a.Write? || a.Close? {
      assert Holds(s, a.r, s.requests[a.r].w) && UserOk(s, a.r, s.requests[a.r].w);
    }
  }

  lemma {:induction false} RunKeeps(s: State, actions: seq<Action>)
    requires Inv(s) && Runs(s, actions)
    ensures Inv(After(s, actions))
    decreases |actions|
  {
    hide PoolOk, UsersOk, ResponsesOk;
    if actions != [] {
      PoolKept(s, actions[0]);
      UsersKept(s, actions[0]);
      ResponsesKept(s, actions[0]);
      RunKeeps(Step(s, actions[0]), actions[1..]);
    }
  }

  /** However the requests interleave: a pooled writer points at the discard sink and has no user, no two requests
      use one writer, and no response ever carries the bytes of another request. */
  lemma RequestsAreIsolated(actions: seq<Action>, q: nat, r: nat, w: nat)
    requires Runs(START, actions)
    ensures var s := After(START, actions);
            && (w in s.pool ==> s.pool[w] == 1 && w < |s.writers| && s.writers[w].target == None && !Holds(s, r, w))
            && (Holds(s, q, w) && Holds(s, r, w) ==> q == r)
            && (r < |s.responses| && q in s.responses[r] ==> q == r)
  {
    RunKeeps(START, actions);
  }

  // ----- nothing is lost, and nobody waits

  /** Request `r` has written, and its bytes are still in its writer. */
  ghost predicate Pending(s: State, r: nat) {
    At(s, r, Serving) && r in s.writers[s.requests[r].w].holds
  }

  ghost predicate CameOut(s: State, r: nat) {
    r < |s.responses| && r in s.responses[r]
  }

  lemma StaysOut(s: State, a: Action, r: nat)
    requires Enabled(s, a) && CameOut(s, r)
    ensures CameOut(Step(s, a), r)
  {
  }

  lemma WritePends(s: State, r: nat, emits: bool)
    requires Enabled(s, Write(r, emits))
    ensures Pending(Step(s, Write(r, emits)), r)
  {
  }

  lemma CloseEmits(s: State, r: nat)
    requires UsersOk(s) && Pending(s, r)
    ensures CameOut(Step(s, Close(r)), r)
  {
    assert Holds(s, r, s.requests[r].w) && UserOk(s, r, s.requests[r].w);
  }

  lemma OthersLeave(s: State, a: Action, r: nat)
    requires PoolOk(s) && UsersOk(s) && Pending(s, r) && Enabled(s, a) && a != Close(r)
    ensures Pending(Step(s, a), r)
  {
    var w := s.requests[r].w;
    assert Holds(s, r, w);
    if a.Reset? || a.Write? || a.Close? || a.Clear? || a.Put? {
      assert Holds(s, a.r, s.requests[a.r].w);
      assert a.r != r ==> s.requests[a.r].w != w;
    }
  }

  lemma {:induction false} ComesOut(s: State, actions: seq<Action>, r: nat)
    requires Inv(s) && Runs(s, actions) && (CameOut(s, r) || (Pending(s, r) && Close(r) in actions))
    ensures CameOut(After(s, actions), r)
    decreases |actions|
  {
    hide PoolOk, UsersOk, ResponsesOk, Pending, CameOut, Step, Enabled;
    if actions != [] {
      var a := actions[0];
      assert actions == [a] + actions[1..];
      PoolKept(s, a);
      UsersKept(s, a);
      ResponsesKept(s, a);
      if CameOut(s, r) {
        StaysOut(s, a, r);
      } else if a == Close(r) {
        CloseEmits(s, r);
      } else {
        OthersLeave(s, a, r);
      }
      ComesOut(Step(s, a), actions[1..], r);
    }
  }

  lemma {:induction false} WrittenComesOut(s: State, actions: seq<Action>, i: nat, r: nat)
    requires Inv(s) && Runs(s, actions) && i < |actions| && actions[i].Write? && actions[i].r == r
    requires Close(r) in actions[i..]
    ensures CameOut(After(s, actions), r)
    decreases i
  {
    hide PoolOk, UsersOk, ResponsesOk, Pending, CameOut, Step;
    var a := actions[0];
    PoolKept(s, a);
    UsersKept(s, a);
    ResponsesKept(s, a);
    if i == 0 {
      WritePends(s, r, a.emits);
      assert actions[0..] == [a] + actions[1..];
      ComesOut(Step(s, a), actions[1..], r);
    } else {
      assert actions[1..][i - 1..] == actions[i..];
      WrittenComesOut(Step(s, a), actions[1..], i - 1, r);
    }
  }

  /** What a request writes before it closes its writer comes out on its response, whatever the others do. */
  lemma WritesComeOut(actions: seq<Action>, i: nat, r: nat)
    requires Runs(START, actions) && i < |actions| && actions[i].Write? && actions[i].r == r && Close(r) in actions[i..]
    ensures CameOut(After(START, actions), r)
  {
    hide Runs, After, Inv, CameOut;
    StartOk();
    WrittenComesOut(START, actions, i, r);
  }

  lemma StartOk()
    ensures Inv(START)
  {
  }

  function OwnStep(r: nat, use: Use): Action {
    match use
    case Got => Reset(r)
    case Serving => Close(r)
    case Ended => Clear(r)
    case Cleared => Put(r)
  }

  /** No request ever waits for another. */
  lemma NobodyWaits(actions: seq<Action>, r: nat)
    requires Runs(START, actions)
    requires var s := After(START, actions); r < |s.requests| && s.requests[r] != Gone
    ensures var s := After(START, actions);
            Enabled(s, Arrive)
            && match s.requests[r]
               case Arrived => Enabled(s, TakeNew(r)) && forall w | w in s.pool :: Enabled(s, TakePooled(r, w))
               case Using(_, use) =>
                 Enabled(s, OwnStep(r, use)) && (use == Serving ==> Enabled(s, Write(r, true)))
  {
    RunKeeps(START, actions);
    var s := After(START, actions);
    if s.requests[r].Using? {
      assert Holds(s, r, s.requests[r].w) && UserOk(s, r, s.requests[r].w);
    }
  }
}
