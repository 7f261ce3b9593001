/** Any number of threads running transactions on one repository (internal/repo/safe/safe.go).  The callbacks
    of `Read` and `Update` are split into steps of one name each; an RWMutex admits one writer or any number
    of readers. */
module Linearizability {
  import opened Wrappers
  import opened Int64
  import opened Mondata
  import opened Conservation
  import Safe

  /** One `Update` callback: a batch that is set (`SetAll`) or accumulated (`SetAccumAll`). */
  datatype Op<V> = Op(accum: bool, batch: map<string, V>)

  datatype Thread<V> =
    | Idle
    | Writing(op: Op<V>, todo: set<string>)  // holds the write lock; `todo` is what its loop has not reached
    | Reading(names: seq<string>, got: seq<Option<V>>)  // holds the read lock; `got` answers the first names

  /** A finished read transaction: what it asked, what it got, and how many updates had committed. */
  datatype ReadRecord<V> = ReadRecord(names: seq<string>, got: seq<Option<V>>, at: nat)

  /** `log` lists the updates in the order of their unlocking. */
  datatype State<V> = State(
    data: map<string, V>, writer: Option<nat>, readers: set<nat>,
    threads: seq<Thread<V>>, log: seq<Op<V>>, finished: seq<ReadRecord<V>>)

  datatype Action<V> =
    | BeginWrite(t: nat, op: Op<V>) | WriteKey(t: nat, k: string) | EndWrite(t: nat)
    | BeginRead(t: nat, names: seq<string>) | ReadName(t: nat) | EndRead(t: nat)

  predicate Enabled<V(==)>(s: State<V>, a: Action<V>) {
    a.t < |s.threads| &&
    var thread := s.threads[a.t];
    match a
    case BeginWrite(_, _) => thread.Idle? && s.writer == None && s.readers == {}
    case WriteKey(_, k) => thread.Writing? && k in thread.todo && k in thread.op.batch
    case EndWrite(_) => thread.Writing? && thread.todo == {}
    case BeginRead(_, _) => thread.Idle? && s.writer == None
    case ReadName(_) => thread.Reading? && |thread.got| < |thread.names|
    case EndRead(_) => thread.Reading? && |thread.got| == |thread.names|
  }

  /** The write of one name inside a callback. */
  function Put<V>(plus: (V, V) -> V, accum: bool, data: map<string, V>, k: string, v: V): map<string, V> {
    data[k := if accum && k in data then plus(data[k], v) else v]
  }

  function Step<V(==)>(plus: (V, V) -> V, s: State<V>, a: Action<V>): State<V>
    requires Enabled(s, a)
  {
    var thread := s.threads[a.t];
    match a
    case BeginWrite(t, op) => s.(writer := Some(t), threads := s.threads[t := Writing(op, op.batch.Keys)])
    case WriteKey(t, k) =>
      s.(data := Put(plus, thread.op.accum, s.data, k, thread.op.batch[k]),
      threads := s.threads[t := thread.(todo := thread.todo - {k})])
    case EndWrite(t) => s.(writer := None, threads := s.threads[t := Idle], log := s.log + [thread.op])
    case BeginRead(t, names) => s.(readers := s.readers + {t}, threads := s.threads[t := Reading(names, [])])
    case ReadName(t) =>
      s.(threads := s.threads[t := thread.(got := thread.got + [Find(s.data, thread.names[|thread.got|])])])
    case EndRead(t) =>
      s.(readers := s.readers - {t}, threads := s.threads[t := Idle],
      finished := s.finished + [ReadRecord(thread.names, thread.got, |s.log|)])
  }

  ghost predicate Init<V>(s: State<V>) {
    && s.data == map[] && s.writer == None && s.readers == {} && s.log == [] && s.finished == []
    && forall t | 0 <= t < |s.threads| :: s.threads[t].Idle?
  }

  ghost predicate Runs<V>(plus: (V, V) -> V, s: State<V>, actions: seq<Action<V>>)
    decreases |actions|
  {
    actions == [] || (Enabled(s, actions[0]) && Runs(plus, Step(plus, s, actions[0]), actions[1..]))
  }

  ghost function After<V>(plus: (V, V) -> V, s: State<V>, actions: seq<Action<V>>): State<V>
    requires Runs(plus, s, actions)
    decreases |actions|
  {
    if actions == [] then s else After(plus, Step(plus, s, actions[0]), actions[1..])
  }

  // ----- the atomic repository

  /** What one update does when nothing interferes. */
  ghost function Effect<V>(plus: (V, V) -> V, data: map<string, V>, op: Op<V>): map<string, V> {
    if op.accum then Safe.Merged(plus, data, op.batch) else data + op.batch
  }

  /** The updates of `log` one after the other, each at once, on `data`. */
  ghost function Fold<V>(plus: (V, V) -> V, data: map<string, V>, log: seq<Op<V>>): map<string, V> {
    if log == [] then data else Effect(plus, Fold(plus, data, log[..|log| - 1]), log[|log| - 1])
  }

  ghost function Atomic<V>(plus: (V, V) -> V, log: seq<Op<V>>): map<string, V> {
    Fold(plus, map[], log)
  }

  /** The part of an update that its loop has performed when `todo` is still to do. */
  ghost function Done<V>(op: Op<V>, todo: set<string>): Op<V> {
    op.(batch := Safe.Only(op.batch, op.batch.Keys - todo))
  }

  lemma PutExtends<V>(plus: (V, V) -> V, data: map<string, V>, op: Op<V>, todo: set<string>, k: string)
    requires k in todo && todo <= op.batch.Keys
    ensures Put(plus, op.accum, Effect(plus, data, Done(op, todo)), k, op.batch[k])
         == Effect(plus, data, Done(op, todo - {k}))
  {
    var before, after := Done(op, todo).batch, Done(op, todo - {k}).batch;
    assert after == before[k := op.batch[k]] && k !in before;
  }

  lemma DoneEnds<V>(plus: (V, V) -> V, data: map<string, V>, op: Op<V>)
    ensures Effect(plus, data, Done(op, op.batch.Keys)) == data
    ensures Effect(plus, data, Done(op, {})) == Effect(plus, data, op)
  {
    assert Done(op, {}).batch == op.batch;
    assert Done(op, op.batch.Keys).batch == map[];
  }

  // ----- the invariant

  /** The lock is held by exactly the threads inside a transaction: one writer or only readers. */
  ghost predicate LockOk<V>(s: State<V>) {
    && (forall t: nat :: s.writer == Some(t) <==> t < |s.threads| && s.threads[t].Writing?)
    && (forall t: nat :: t in s.readers <==> t < |s.threads| && s.threads[t].Reading?)
    && (s.writer.Some? ==> s.readers == {})
  }

  /** The map is the fold of the committed updates, plus what the one writer has done so far. */
  ghost predicate DataOk<V>(plus: (V, V) -> V, s: State<V>) {
    match s.writer
    case None => s.data == Atomic(plus, s.log)
    case Some(t) =>
      t < |s.threads| && s.threads[t].Writing? && s.threads[t].todo <= s.threads[t].op.batch.Keys
      && s.data == Effect(plus, Atomic(plus, s.log), Done(s.threads[t].op, s.threads[t].todo))
  }

  ghost predicate Answers<V>(data: map<string, V>, names: seq<string>, got: seq<Option<V>>) {
    |got| <= |names| && forall i | 0 <= i < |got| :: got[i] == Find(data, names[i])
  }

  /** Running readers have seen one committed state so far; finished ones saw the state of their commit point. */
  ghost predicate ReadsOk<V>(plus: (V, V) -> V, s: State<V>) {
    && (forall t | 0 <= t < |s.threads| && s.threads[t].Reading? ::
          Answers(Atomic(plus, s.log), s.threads[t].names, s.threads[t].got))
    && (forall r | r in s.finished :: Consistent(plus, s.log, r))
  }

  ghost predicate Consistent<V>(plus: (V, V) -> V, log: seq<Op<V>>, r: ReadRecord<V>) {
    r.at <= |log| && |r.got| == |r.names| && Answers(Atomic(plus, log[..r.at]), r.names, r.got)
  }

  ghost predicate Inv<V>(plus: (V, V) -> V, s: State<V>) {
    LockOk(s) && DataOk(plus, s) && ReadsOk(plus, s)
  }

  lemma InitEstablishes<V>(plus: (V, V) -> V, s: State<V>)
    requires Init(s)
    ensures Inv(plus, s)
  {
  }

  lemma LockKept<V>(plus: (V, V) -> V, s: State<V>, a: Action<V>)
    requires LockOk(s) && Enabled(s, a)
    ensures LockOk(Step(plus, s, a))
  {
    hide Put, Find;
  }

  lemma DataKept<V>(plus: (V, V) -> V, s: State<V>, a: Action<V>)
    requires LockOk(s) && DataOk(plus, s) && Enabled(s, a)
    ensures DataOk(plus, Step(plus, s, a))
  {
    hide Put, Find, Effect, Done;
    match a
    case BeginWrite(t, op) => DoneEnds(plus, s.data, op);
    case WriteKey(t, k) =>
      assert s.writer == Some(t);
      PutExtends(plus, Atomic(plus, s.log), s.threads[t].op, s.threads[t].todo, k);
    case EndWrite(t) =>
      assert s.writer == Some(t);
      var op := s.threads[t].op;
      DoneEnds(plus, Atomic(plus, s.log), op);
      AtomicAppend(plus, s.log, op);
    case BeginRead(t, _) => assert s.writer != Some(t);
    case ReadName(t) => assert s.writer != Some(t);
    case EndRead(t) => assert s.writer != Some(t);
  }

  lemma AtomicAppend<V>(plus: (V, V) -> V, log: seq<Op<V>>, op: Op<V>)
    ensures Atomic(plus, log + [op]) == Effect(plus, Atomic(plus, log), op)
  {
    assert (log + [op])[..|log|] == log;
  }

  lemma ConsistentLater<V>(plus: (V, V) -> V, log: seq<Op<V>>, op: Op<V>, r: ReadRecord<V>)
    requires Consistent(plus, log, r)
    ensures Consistent(plus, log + [op], r)
  {
    assert (log + [op])[..r.at] == log[..r.at];
  }

  lemma ReadsKept<V>(plus: (V, V) -> V, s: State<V>, a: Action<V>)
    requires LockOk(s) && DataOk(plus, s) && ReadsOk(plus, s) && Enabled(s, a)
    ensures ReadsOk(plus, Step(plus, s, a))
  {
    hide Put, Effect, Done, Atomic, Consistent;
    var s' := Step(plus, s, a);
    match a
    case EndWrite(t) =>
      assert s.writer == Some(t);
      forall u: nat | u < |s'.threads| ensures !s'.threads[u].Reading? {
        assert u !in s.readers;
      }
      forall r | r in s'.finished ensures Consistent(plus, s'.log, r) {
        ConsistentLater(plus, s.log, s.threads[t].op, r);
      }
    case ReadName(t) =>
      assert t in s.readers;
      assert s.writer == None;
    case EndRead(t) =>
      RecordConsistent(plus, s, t);
    case _ =>
  }

  lemma RecordConsistent<V>(plus: (V, V) -> V, s: State<V>, t: nat)
    requires t < |s.threads| && s.threads[t].Reading? && |s.threads[t].got| == |s.threads[t].names|
    requires Answers(Atomic(plus, s.log), s.threads[t].names, s.threads[t].got)
    ensures Consistent(plus, s.log, ReadRecord(s.threads[t].names, s.threads[t].got, |s.log|))
  {
    assert s.log[..|s.log|] == s.log;
  }

  lemma {:induction false} RunKeeps<V>(plus: (V, V) -> V, s: State<V>, actions: seq<Action<V>>)
    requires Inv(plus, s) && Runs(plus, s, actions)
    ensures Inv(plus, After(plus, s, actions))
    decreases |actions|
  {
    if actions != [] {
      LockKept(plus, s, actions[0]);
      DataKept(plus, s, actions[0]);
      ReadsKept(plus, s, actions[0]);
      RunKeeps(plus, Step(plus, s, actions[0]), actions[1..]);
    }
  }

  // ----- the theorems

  /** Whatever the interleaving: a writer excludes every other transaction; with no writer the map is the fold
      of all updates that the threads began, in the order of their locking; and every finished read saw the state after exactly the first
      `at` of them, all of each batch or none. */
  lemma EveryRunLinearizes<V>(plus: (V, V) -> V, s0: State<V>, actions: seq<Action<V>>)
    requires Init(s0) && Runs(plus, s0, actions)
    ensures var s := After(plus, s0, actions);
            (forall t: nat, u: nat | t < |s.threads| && u < |s.threads| && s.threads[t].Writing? && t != u ::
               s.threads[u].Idle?)
            && (s.writer == None ==> s.log == Begun(actions) && s.data == Atomic(plus, s.log))
            && (forall r | r in s.finished :: Consistent(plus, s.log, r))
  {
    RunKeeps(plus, s0, actions);
    var s := After(plus, s0, actions);
    if s.writer == None {
      LogIsRun(plus, s0, actions);
    }
    forall t: nat, u: nat | t < |s.threads| && u < |s.threads| && s.threads[t].Writing? && t != u
      ensures s.threads[u].Idle?
    {
      assert s.writer == Some(t) && s.writer != Some(u) && u !in s.readers;
    }
  }

  lemma {:induction false} AtomicThenFold<V>(plus: (V, V) -> V, log: seq<Op<V>>, more: seq<Op<V>>)
    ensures Atomic(plus, log + more) == Fold(plus, Atomic(plus, log), more)
  {
    hide Effect;
    if more == [] {
      assert log + more == log;
    } else {
      var init, op := more[..|more| - 1], more[|more| - 1];
      AtomicThenFold(plus, log, init);
      assert log + more == (log + init) + [op];
      AtomicAppend(plus, log + init, op);
    }
  }

  lemma {:induction false} LogGrows<V>(plus: (V, V) -> V, s: State<V>, actions: seq<Action<V>>)
    requires Runs(plus, s, actions)
    ensures s.log <= After(plus, s, actions).log
    decreases |actions|
  {
    hide Put, Find;
    if actions != [] {
      assert s.log <= Step(plus, s, actions[0]).log;
      LogGrows(plus, Step(plus, s, actions[0]), actions[1..]);
    }
  }

  /** Between two moments at which nobody holds the write lock, whatever threads do in single-name steps, the map
      that everybody sees changes by exactly the updates that were unlocked in between, each at once, in that order. */
  lemma RunRefines<V>(plus: (V, V) -> V, s0: State<V>, before: seq<Action<V>>, actions: seq<Action<V>>)
    requires Init(s0) && Runs(plus, s0, before) && Runs(plus, After(plus, s0, before), actions)
    requires After(plus, s0, before).writer == None
    requires After(plus, After(plus, s0, before), actions).writer == None
    ensures var s := After(plus, s0, before);
            var s' := After(plus, s, actions);
            s.log <= s'.log && s'.data == Fold(plus, s.data, s'.log[|s.log|..])
  {
    hide Fold, Atomic, LockOk, ReadsOk, Runs, After;
    var s := After(plus, s0, before);
    var s' := After(plus, s, actions);
    InitEstablishes(plus, s0);
    RunKeeps(plus, s0, before);
    RunKeeps(plus, s, actions);
    LogGrows(plus, s, actions);
    assert s'.log == s.log + s'.log[|s.log|..];
    AtomicThenFold(plus, s.log, s'.log[|s.log|..]);
  }

  /** From the moment a reader has the lock until it unlocks, nothing commits and the map does not change, so
      all the reads of one transaction, and its place in the log, belong to one state. */
  lemma {:induction false} ReaderFreezes<V>(plus: (V, V) -> V, s: State<V>, actions: seq<Action<V>>, t: nat)
    requires LockOk(s) && Runs(plus, s, actions)
    requires t < |s.threads| && s.threads[t].Reading? && forall a | a in actions :: a != EndRead(t)
    ensures After(plus, s, actions).log == s.log && After(plus, s, actions).data == s.data
    decreases |actions|
  {
    if actions != [] {
      var a := actions[0];
      assert t in s.readers && a in actions;
      assert forall b | b in actions[1..] :: b in actions;
      LockKept(plus, s, a);
      ReaderFreezes(plus, Step(plus, s, a), actions[1..], t);
    }
  }

  // ----- what the transactions were

  /** The updates that a run begins, in the order of their locking. */
  ghost function Begun<V>(actions: seq<Action<V>>): seq<Op<V>>
    decreases |actions|
  {
    if actions == [] then []
    else (if actions[0].BeginWrite? then [actions[0].op] else []) + Begun(actions[1..])
  }

  /** The update under way, if any. */
  ghost function UnderWay<V>(s: State<V>): seq<Op<V>> {
    if s.writer.Some? && s.writer.value < |s.threads| && s.threads[s.writer.value].Writing? then
      [s.threads[s.writer.value].op]
    else []
  }

  /** The log is what the threads asked for: every update that was begun, in the order of locking, is committed or is the
      one under way. */
  lemma {:induction false} LogIsBegun<V>(plus: (V, V) -> V, s: State<V>, actions: seq<Action<V>>)
    requires LockOk(s) && Runs(plus, s, actions)
    ensures var s' := After(plus, s, actions);
            s'.log + UnderWay(s') == s.log + UnderWay(s) + Begun(actions)
    decreases |actions|
  {
    hide Put, Find;
    if actions != [] {
      var next := Step(plus, s, actions[0]);
      LockKept(plus, s, actions[0]);
      BeginsOne(plus, s, actions[0]);
      LogIsBegun(plus, next, actions[1..]);
      var now := if actions[0].BeginWrite? then [actions[0].op] else [];
      assert s.log + UnderWay(s) + now + Begun(actions[1..]) == s.log + UnderWay(s) + (now + Begun(actions[1..]));
    }
  }

  lemma BeginsOne<V>(plus: (V, V) -> V, s: State<V>, a: Action<V>)
    requires LockOk(s) && Enabled(s, a)
    ensures var s' := Step(plus, s, a);
            s'.log + UnderWay(s') == s.log + UnderWay(s) + if a.BeginWrite? then [a.op] else []
  {
    hide Put, Find;
    assert s.writer == Some(a.t) <==> s.threads[a.t].Writing?;
    assert a.t in s.readers <==> s.threads[a.t].Reading?;
    if s.writer.Some? {
      assert s.threads[s.writer.value].Writing?;
    }
  }

  function AnswersOf<V>(data: map<string, V>, names: seq<string>): seq<Option<V>> {
    seq(|names|, i requires 0 <= i < |names| => Find(data, names[i]))
  }

  /** While its transaction lasts a reader keeps its names and gathers answers from one state. */
  lemma {:induction false} ReaderGathers<V>(plus: (V, V) -> V, s: State<V>, actions: seq<Action<V>>, t: nat,
                                            names: seq<string>)
    requires LockOk(s) && Runs(plus, s, actions) && forall a | a in actions :: a != EndRead(t)
    requires t < |s.threads| && s.threads[t].Reading? && s.threads[t].names == names
    requires Answers(s.data, names, s.threads[t].got)
    ensures var s' := After(plus, s, actions);
            t < |s'.threads| && s'.threads[t].Reading? && s'.threads[t].names == names
            && Answers(s.data, names, s'.threads[t].got)
    decreases |actions|
  {
    hide Put, Find;
    if actions != [] {
      var a := actions[0];
      assert t in s.readers && a in actions;
      assert forall b | b in actions[1..] :: b in actions;
      LockKept(plus, s, a);
      assert Step(plus, s, a).data == s.data;
      ReaderGathers(plus, Step(plus, s, a), actions[1..], t, names);
    }
  }

  lemma {:induction false} RunsOn<V>(plus: (V, V) -> V, s: State<V>, first: seq<Action<V>>, second: seq<Action<V>>)
    ensures Runs(plus, s, first + second) <==> Runs(plus, s, first) && Runs(plus, After(plus, s, first), second)
    ensures Runs(plus, s, first + second) ==>
              After(plus, s, first + second) == After(plus, After(plus, s, first), second)
    decreases |first|
  {
    hide Step, Enabled;
    if first == [] {
      assert first + second == second;
    } else {
      assert (first + second)[1..] == first[1..] + second;
      if Enabled(s, first[0]) {
        RunsOn(plus, Step(plus, s, first[0]), first[1..], second);
      }
    }
  }

  /** A read transaction, whatever goes on beside it, is recorded with the names that it asked for and with what the map
      held for each of them when it got its lock. */
  lemma ReadTransaction<V>(plus: (V, V) -> V, s: State<V>, t: nat, names: seq<string>, between: seq<Action<V>>)
    requires LockOk(s) && Enabled(s, BeginRead(t, names))
    requires Runs(plus, Step(plus, s, BeginRead(t, names)), between) && forall a | a in between :: a != EndRead(t)
    requires Enabled(After(plus, Step(plus, s, BeginRead(t, names)), between), EndRead(t))
    ensures var s1 := After(plus, Step(plus, s, BeginRead(t, names)), between);
            Step(plus, s1, EndRead(t)).finished
            == s1.finished + [ReadRecord(names, AnswersOf(s.data, names), |s.log|)]
  {
    hide Put, Find, Runs, After;
    var begun := Step(plus, s, BeginRead(t, names));
    LockKept(plus, s, BeginRead(t, names));
    ReaderGathers(plus, begun, between, t, names);
    ReaderFreezes(plus, begun, between, t);
    var s1 := After(plus, begun, between);
    assert s1.threads[t].got == AnswersOf(s.data, names);
  }

  // ----- such runs exist

  /** A transaction under way can always go on, and if there is none any thread can begin any. */
  lemma AlwaysMoves<V>(plus: (V, V) -> V, s: State<V>, t: nat, op: Op<V>, names: seq<string>)
    requires Inv(plus, s) && t < |s.threads|
    ensures s.threads[t].Writing? ==>
              Enabled(s, EndWrite(t)) || exists k :: Enabled(s, WriteKey(t, k))
    ensures s.threads[t].Reading? ==> Enabled(s, ReadName(t)) || Enabled(s, EndRead(t))
    ensures (forall u | 0 <= u < |s.threads| :: s.threads[u].Idle?) ==>
              Enabled(s, BeginWrite(t, op)) && Enabled(s, BeginRead(t, names))
  {
    if s.threads[t].Writing? {
      assert s.writer == Some(t);
      if s.threads[t].todo != {} {
        var k :| k in s.threads[t].todo;
        assert Enabled(s, WriteKey(t, k));
      }
    }
    if forall u | 0 <= u < |s.threads| :: s.threads[u].Idle? {
      assert forall u: nat :: s.writer != Some(u) && u !in s.readers;
      assert s.readers == {};
    }
  }

  lemma {:induction false} WriteOut<V>(plus: (V, V) -> V, s: State<V>, t: nat) returns (actions: seq<Action<V>>)
    requires Inv(plus, s) && t < |s.threads| && s.threads[t].Writing?
    ensures Runs(plus, s, actions) && Begun(actions) == [] && Inv(plus, After(plus, s, actions))
    ensures After(plus, s, actions).writer == None && After(plus, s, actions).threads == s.threads[t := Idle]
    decreases |s.threads[t].todo|
  {
    hide Put, Find, Inv;
    WriterIs(plus, s, t);
    var a: Action<V>;
    if s.threads[t].todo == {} {
      a := EndWrite(t);
      StepKeeps(plus, s, a);
      actions := [a];
      assert actions[1..] == [];
    } else {
      var k :| k in s.threads[t].todo;
      a := WriteKey(t, k);
      StepKeeps(plus, s, a);
      var rest := WriteOut(plus, Step(plus, s, a), t);
      actions := [a] + rest;
      assert actions[1..] == rest;
    }
  }

  lemma WriterIs<V>(plus: (V, V) -> V, s: State<V>, t: nat)
    requires Inv(plus, s) && t < |s.threads| && s.threads[t].Writing?
    ensures s.writer == Some(t) && s.threads[t].todo <= s.threads[t].op.batch.Keys
  {
  }

  lemma StepKeeps<V>(plus: (V, V) -> V, s: State<V>, a: Action<V>)
    requires Inv(plus, s) && Enabled(s, a)
    ensures Inv(plus, Step(plus, s, a))
  {
    hide LockOk, DataOk, ReadsOk;
    LockKept(plus, s, a);
    DataKept(plus, s, a);
    ReadsKept(plus, s, a);
  }

  /** Any list of updates can be what the threads commit. */
  lemma {:induction false} AnyLogIsPossible<V>(plus: (V, V) -> V, s0: State<V>, ops: seq<Op<V>>)
    returns (actions: seq<Action<V>>)
    requires Init(s0) && s0.threads != []
    ensures Runs(plus, s0, actions) && After(plus, s0, actions).log == Begun(actions) == ops
    ensures After(plus, s0, actions).writer == None && After(plus, s0, actions).threads == s0.threads
    decreases |ops|
  {
    hide Inv, Put, Find, Enabled, Step, Runs, After;
    actions := [];
    InitEstablishes(plus, s0);
    if ops == [] {
      NothingRun(plus, s0);
    } else {
      var init, op := ops[..|ops| - 1], ops[|ops| - 1];
      var first := AnyLogIsPossible(plus, s0, init);
      RunKeeps(plus, s0, first);
      var last := WriteOnce(plus, After(plus, s0, first), op);
      RunsOn(plus, s0, first, last);
      BegunConcat(first, last);
      actions := first + last;
      RunKeeps(plus, s0, actions);
      LogIsRun(plus, s0, actions);
    }
  }

  lemma NothingRun<V>(plus: (V, V) -> V, s: State<V>)
    requires Init(s)
    ensures Runs(plus, s, []) && After(plus, s, []) == s && s.log == Begun<V>([]) == [] && s.writer == None
  {
  }

  lemma {:induction false} BegunConcat<V>(a: seq<Action<V>>, b: seq<Action<V>>)
    ensures Begun(a + b) == Begun(a) + Begun(b)
    decreases |a|
  {
    if a == [] {
      assert a + b == b;
    } else {
      assert (a + b)[1..] == a[1..] + b;
      BegunConcat(a[1..], b);
    }
  }

  lemma LogIsRun<V>(plus: (V, V) -> V, s0: State<V>, actions: seq<Action<V>>)
    requires Init(s0) && Runs(plus, s0, actions) && After(plus, s0, actions).writer == None
    ensures After(plus, s0, actions).log == Begun(actions)
  {
    hide Runs, After, Begun, DataOk, ReadsOk, LockOk;
    InitEstablishes(plus, s0);
    LogIsBegun(plus, s0, actions);
    var log := After(plus, s0, actions).log;
    assert log + [] == log && s0.log + UnderWay(s0) + Begun(actions) == Begun(actions);
  }

  /** The first thread carries out one update. */
  lemma WriteOnce<V>(plus: (V, V) -> V, s: State<V>, op: Op<V>) returns (actions: seq<Action<V>>)
    requires Inv(plus, s) && s.threads != [] && forall u | 0 <= u < |s.threads| :: s.threads[u].Idle?
    ensures Runs(plus, s, actions) && Begun(actions) == [op]
    ensures After(plus, s, actions).writer == None && After(plus, s, actions).threads == s.threads
  {
    hide Inv, Put, Find;
    AlwaysMoves(plus, s, 0, op, []);
    var a := BeginWrite(0, op);
    StepKeeps(plus, s, a);
    var rest := WriteOut(plus, Step(plus, s, a), 0);
    actions := [a] + rest;
    assert actions[1..] == rest;
  }

  function CallsOf(log: seq<Op<int64>>): seq<Call> {
    if log == [] then [] else CallsOf(log[..|log| - 1]) + [AddCounters(log[|log| - 1].batch)]
  }

  lemma {:induction false} AtomicIsReplay(log: seq<Op<int64>>)
    requires forall op | op in log :: op.accum
    ensures Atomic(Safe.PLUS, log) == Replay(EMPTY_STORE, CallsOf(log)).counter
  {
    if log != [] {
      var init, op := log[..|log| - 1], log[|log| - 1];
      assert op in log;
      AtomicIsReplay(init);
      Safe.MergedIsAccumAll(Atomic(Safe.PLUS, init), op.batch);
      ReplayOne(EMPTY_STORE, CallsOf(init), AddCounters(op.batch));
    }
  }

  /** Counters conserve: at rest each one is the sum, modulo 2^64, of the deltas of all updates that were begun. */
  lemma CountersConserve(s0: State<int64>, actions: seq<Action<int64>>, k: string)
    requires Init(s0) && Runs(Safe.PLUS, s0, actions)
    requires forall op | op in Begun(actions) :: op.accum
    requires After(Safe.PLUS, s0, actions).writer == None
    ensures var (data, calls) := (After(Safe.PLUS, s0, actions).data, CallsOf(Begun(actions)));
            (k in data <==> Counts(calls, k)) && (k in data ==> data[k] == Wrap(DeltaSum(calls, k)))
  {
    hide Runs, After;
    EveryRunLinearizes(Safe.PLUS, s0, actions);
    AtomicIsReplay(Begun(actions));
    UpdatesConserve(CallsOf(Begun(actions)), k);
  }
}
