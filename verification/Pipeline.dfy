/** The agent's report pipeline (internal/monclient/monclient.go): a ticker spawns readers, each sends one
    report into a bounded channel, a fixed pool of workers drains it, and shutdown runs in phases.
    Every interleaving of the goroutines is a run of `Step`. */
module Pipeline {
  import opened Counting

  /** Where a `readStats` goroutine stands; `Leaving` is between its send and its `wg.Done`. */
  datatype Reader = ReadingGauges | ReadingCounters | Sending | Leaving | Finished

  /** Where a `PollWorker` goroutine stands; `Exiting` has seen the channel closed but not called `wg.Done`. */
  datatype Worker = Receiving | Holding(id: nat) | Exiting | Gone

  /** Where `PollStatsBatch` itself stands. */
  datatype Phase = Polling | AwaitReaders | AwaitWorkers | Returned

  /** Reports are named by the position of their reader in `readers`; `sent`, `received` and `completed`
      record history.  `crashed` is the panic of a send on a closed channel. */
  datatype State = State(
    capacity: nat, phase: Phase,
    readers: seq<Reader>, tickerWG: int,
    queue: seq<nat>, closed: bool,
    workers: seq<Worker>, poolWG: int,
    sent: seq<nat>, received: seq<nat>, completed: seq<nat>,
    crashed: bool)

  datatype Action =
    | Tick | Cancel | Close | Return
    | ReadGauges(r: nat) | ReadCounters(r: nat) | Send(r: nat) | SendClosed(r: nat) | LeaveReader(r: nat)
    | Handoff(r: nat, w: nat)  // a send that meets a waiting worker; the only kind when the capacity is 0
    | Receive(w: nat) | Complete(w: nat) | SeeClosed(w: nat) | LeaveWorker(w: nat)

  predicate ReaderAt(s: State, r: nat, stage: Reader) {
    r < |s.readers| && s.readers[r] == stage
  }

  predicate WorkerAt(s: State, w: nat, stage: Worker) {
    w < |s.workers| && s.workers[w] == stage
  }

  predicate Enabled(s: State, a: Action) {
    !s.crashed &&
    match a
    case Tick => s.phase == Polling
    case Cancel => s.phase == Polling
    case Close => s.phase == AwaitReaders && s.tickerWG == 0
    case Return => s.phase == AwaitWorkers && s.poolWG == 0
    case ReadGauges(r) => ReaderAt(s, r, ReadingGauges)
    case ReadCounters(r) => ReaderAt(s, r, ReadingCounters)
    case Send(r) => ReaderAt(s, r, Sending) && !s.closed && |s.queue| < s.capacity
    case SendClosed(r) => ReaderAt(s, r, Sending) && s.closed
    case LeaveReader(r) => ReaderAt(s, r, Leaving)
    case Handoff(r, w) => ReaderAt(s, r, Sending) && !s.closed && s.queue == [] && WorkerAt(s, w, Receiving)
    case Receive(w) => WorkerAt(s, w, Receiving) && s.queue != []
    case Complete(w) => w < |s.workers| && s.workers[w].Holding?
    case SeeClosed(w) => WorkerAt(s, w, Receiving) && s.closed && s.queue == []
    case LeaveWorker(w) => WorkerAt(s, w, Exiting)
  }

  function Step(s: State, a: Action): State
    requires Enabled(s, a)
  {
    match a
    case Tick => s.(tickerWG := s.tickerWG + 1, readers := s.readers + [ReadingGauges])
    case Cancel => s.(phase := AwaitReaders)
    case Close => s.(phase := AwaitWorkers, closed := true)
    case Return => s.(phase := Returned)
    case ReadGauges(r) => s.(readers := s.readers[r := ReadingCounters])
    case ReadCounters(r) => s.(readers := s.readers[r := Sending])
    case Send(r) => s.(readers := s.readers[r := Leaving], queue := s.queue + [r], sent := s.sent + [r])
    case SendClosed(r) => s.(crashed := true)
    case LeaveReader(r) => s.(readers := s.readers[r := Finished], tickerWG := s.tickerWG - 1)
    case Handoff(r, w) =>
      s.(readers := s.readers[r := Leaving], workers := s.workers[w := Holding(r)],
      sent := s.sent + [r], received := s.received + [r])
    case Receive(w) =>
      s.(workers := s.workers[w := Holding(s.queue[0])], queue := s.queue[1..],
      received := s.received + [s.queue[0]])
    case Complete(w) =>
      s.(workers := s.workers[w := Receiving], completed := s.completed + [s.workers[w].id])
    case SeeClosed(w) => s.(workers := s.workers[w := Exiting])
    case LeaveWorker(w) => s.(workers := s.workers[w := Gone], poolWG := s.poolWG - 1)
  }

  ghost predicate Init(s: State) {
    && s.phase == Polling && !s.closed && !s.crashed
    && s.readers == [] && s.tickerWG == 0
    && s.queue == s.sent == s.received == s.completed == []
    && s.poolWG == |s.workers| && (forall w | 0 <= w < |s.workers| :: s.workers[w] == Receiving)
  }

  /** Each of the actions is enabled when its turn comes. */
  ghost predicate Runs(s: State, actions: seq<Action>)
    decreases |actions|
  {
    actions == [] || (Enabled(s, actions[0]) && Runs(Step(s, actions[0]), actions[1..]))
  }

  ghost function After(s: State, actions: seq<Action>): State
    requires Runs(s, actions)
    decreases |actions|
  {
    if actions == [] then s else After(Step(s, actions[0]), actions[1..])
  }

  ghost predicate Reachable(s: State) {
    exists s0, actions :: Init(s0) && Runs(s0, actions) && After(s0, actions) == s
  }

  // ----- what a run asks for

  function Times(actions: seq<Action>, a: Action): nat {
    if actions == [] then 0 else Times(actions[1..], a) + Bit(actions[0] == a)
  }

  function Ticks(actions: seq<Action>): nat {
    Times(actions, Tick)
  }

  function Bit(b: bool): nat {
    if b then 1 else 0
  }

  /** Every tick spawns one reader, and nothing else does. */
  lemma {:induction false} TicksSpawn(s: State, actions: seq<Action>)
    requires Runs(s, actions)
    ensures |After(s, actions).readers| == |s.readers| + Ticks(actions)
    decreases |actions|
  {
    if actions != [] {
      TicksSpawn(Step(s, actions[0]), actions[1..]);
    }
  }

  /** Polling goes on until the context is cancelled. */
  lemma {:induction false} PollingUntilCancel(s: State, actions: seq<Action>)
    requires Runs(s, actions)
    ensures After(s, actions).phase == Polling <==> s.phase == Polling && Cancel !in actions
    decreases |actions|
  {
    if actions != [] {
      assert actions == [actions[0]] + actions[1..];
      PollingUntilCancel(Step(s, actions[0]), actions[1..]);
    }
  }

  /** Reader `r` has not copied the gauges, or not the counters; readers to come have copied neither. */
  predicate GaugesDue(s: State, r: nat) {
    r < |s.readers| ==> s.readers[r] == ReadingGauges
  }

  predicate CountersDue(s: State, r: nat) {
    r < |s.readers| ==> s.readers[r] == ReadingGauges || s.readers[r] == ReadingCounters
  }

  /** Each of the two maps is read once by each reader that gets so far. */
  lemma {:induction false} ReadsCount(s: State, actions: seq<Action>, r: nat)
    requires Runs(s, actions)
    ensures Times(actions, ReadGauges(r)) + Bit(GaugesDue(After(s, actions), r)) == Bit(GaugesDue(s, r))
    ensures Times(actions, ReadCounters(r)) + Bit(CountersDue(After(s, actions), r)) == Bit(CountersDue(s, r))
    decreases |actions|
  {
    if actions != [] {
      ReadsCount(Step(s, actions[0]), actions[1..], r);
    }
  }

  // ----- the invariant

  function Live(r: Reader): nat {
    if r.Finished? then 0 else 1
  }

  function Alive(w: Worker): nat {
    if w.Gone? then 0 else 1
  }

  ghost predicate Sent(s: State, id: nat) {
    id < |s.readers| && (s.readers[id].Leaving? || s.readers[id].Finished?)
  }

  ghost predicate Held(s: State, id: nat) {
    exists w :: WorkerAt(s, w, Holding(id))
  }

  /** Wait groups count the goroutines that have not called `Done`. */
  ghost predicate CountsLive(s: State) {
    && s.tickerWG == Total(Live, s.readers)
    && s.poolWG == Total(Alive, s.workers)
  }

  /** The channel is first-in first-out, bounded, and each reader sends its own report once. */
  ghost predicate ChannelOk(s: State) {
    && |s.queue| <= s.capacity
    && s.sent == s.received + s.queue
    && NoDuplicates(s.sent)
    && (forall id: nat :: id in s.sent <==> Sent(s, id))
  }

  /** Whatever was received is in exactly one hand or completed once. */
  ghost predicate HandsOk(s: State) {
    && NoDuplicates(s.completed)
    && (forall id: nat :: id in s.received <==> (id in s.completed || Held(s, id)))
    && (forall id: nat :: !(id in s.completed && Held(s, id)))
    && HandsDistinct(s)
  }

  /** Shutdown closes the channel after the last reader and returns after the last worker. */
  ghost predicate PhasesOk(s: State) {
    && !s.crashed
    && (s.closed <==> s.phase == AwaitWorkers || s.phase == Returned)
    && (s.closed ==> s.tickerWG == 0)
    && (s.phase == Returned ==> s.poolWG == 0)
    && (forall w | 0 <= w < |s.workers| && (s.workers[w].Exiting? || s.workers[w].Gone?) :: s.closed && s.queue == [])
  }

  ghost predicate Inv(s: State) {
    CountsLive(s) && ChannelOk(s) && HandsOk(s) && PhasesOk(s)
  }

  lemma InitEstablishes(s: State)
    requires Init(s)
    ensures Inv(s)
  {
    AllReceiving(s.workers);
  }

  lemma {:induction false} AllReceiving(ws: seq<Worker>)
    requires forall w | 0 <= w < |ws| :: ws[w] == Receiving
    ensures Total(Alive, ws) == |ws|
  {
    if ws != [] {
      AllReceiving(ws[1..]);
    }
  }

  lemma CountsKept(s: State, a: Action)
    requires CountsLive(s) && Enabled(s, a)
    ensures CountsLive(Step(s, a))
  {
    match a
    case Tick => TotalAppend(Live, s.readers, ReadingGauges);
    case ReadGauges(r) => TotalUpdate(Live, s.readers, r, ReadingCounters);
    case ReadCounters(r) => TotalUpdate(Live, s.readers, r, Sending);
    case Send(r) => TotalUpdate(Live, s.readers, r, Leaving);
    case LeaveReader(r) => TotalUpdate(Live, s.readers, r, Finished);
    case Handoff(r, w) =>
      TotalUpdate(Live, s.readers, r, Leaving);
      TotalUpdate(Alive, s.workers, w, Holding(r));
    case Receive(w) => TotalUpdate(Alive, s.workers, w, Holding(s.queue[0]));
    case Complete(w) => TotalUpdate(Alive, s.workers, w, Receiving);
    case SeeClosed(w) => TotalUpdate(Alive, s.workers, w, Exiting);
    case LeaveWorker(w) => TotalUpdate(Alive, s.workers, w, Gone);
    case _ =>
  }

  lemma ChannelKept(s: State, a: Action)
    requires ChannelOk(s) && Enabled(s, a)
    ensures ChannelOk(Step(s, a))
  {
    var s' := Step(s, a);
    match a
    case Send(r) => assert r !in s.sent; assert s'.sent == s'.received + s'.queue;
    case Handoff(r, w) => assert r !in s.sent; assert s.queue == [];
    case Receive(w) => assert s'.sent == s'.received + s'.queue;
    case _ =>
      assert forall id: nat :: Sent(s', id) <==> Sent(s, id);
  }

  lemma ClosedMeansAllFinished(s: State)
    requires CountsLive(s) && PhasesOk(s) && s.closed
    ensures forall r | 0 <= r < |s.readers| :: s.readers[r] == Finished
  {
    TotalZero(Live, s.readers);
    forall r | 0 <= r < |s.readers| ensures s.readers[r] == Finished {
      assert Live(s.readers[r]) == 0;
    }
  }

  lemma PhasesKept(s: State, a: Action)
    requires CountsLive(s) && PhasesOk(s) && Enabled(s, a)
    ensures PhasesOk(Step(s, a))
  {
    if s.closed {
      ClosedMeansAllFinished(s);
    }
    if s.phase == Returned {
      TotalZero(Alive, s.workers);
    }
  }

  lemma HandsKept(s: State, a: Action)
    requires ChannelOk(s) && HandsOk(s) && Enabled(s, a)
    ensures HandsOk(Step(s, a))
  {
    var s' := Step(s, a);
    match a
    case Handoff(r, w) =>
      assert r !in s.sent && r !in s.received;
      Placed(s, s', w, r);
    case Receive(w) =>
      PartsDisjoint(s.received, s.queue);
      Placed(s, s', w, s.queue[0]);
    case Complete(w) => Removed(s, s', w);
    case _ => SameHands(s, s');
  }

  lemma SameHands(s: State, s': State)
    requires |s.workers| == |s'.workers|
    requires forall w | 0 <= w < |s.workers| :: s.workers[w] == s'.workers[w] || !(s.workers[w].Holding? || s'.workers[w].Holding?)
    ensures forall id: nat :: Held(s', id) <==> Held(s, id)
  {
    forall id: nat ensures Held(s', id) <==> Held(s, id) {
      if w :| WorkerAt(s, w, Holding(id)) { assert WorkerAt(s', w, Holding(id)); }
      if w :| WorkerAt(s', w, Holding(id)) { assert WorkerAt(s, w, Holding(id)); }
    }
  }

  ghost predicate HandsDistinct(s: State) {
    forall v, w | 0 <= v < w < |s.workers| && s.workers[v].Holding? :: s.workers[v] != s.workers[w]
  }

  lemma Placed(s: State, s': State, w: nat, id: nat)
    requires WorkerAt(s, w, Receiving) && s'.workers == s.workers[w := Holding(id)]
    requires HandsDistinct(s) && !Held(s, id)
    ensures forall i: nat :: Held(s', i) <==> Held(s, i) || i == id
    ensures HandsDistinct(s')
  {
    assert WorkerAt(s', w, Holding(id));
    forall v: nat | v < |s.workers| ensures s.workers[v] != Holding(id) {
      assert !WorkerAt(s, v, Holding(id));
    }
    forall i: nat ensures Held(s', i) <==> Held(s, i) || i == id {
      if v :| WorkerAt(s, v, Holding(i)) { assert WorkerAt(s', v, Holding(i)); }
      if v :| WorkerAt(s', v, Holding(i)) && v != w { assert WorkerAt(s, v, Holding(i)); }
    }
  }

  lemma Removed(s: State, s': State, w: nat)
    requires HandsDistinct(s)
    requires w < |s.workers| && s.workers[w].Holding? && s'.workers == s.workers[w := Receiving]
    ensures Held(s, s.workers[w].id)
    ensures forall i: nat :: Held(s', i) <==> Held(s, i) && i != s.workers[w].id
  {
    assert WorkerAt(s, w, Holding(s.workers[w].id));
    forall i: nat ensures Held(s', i) <==> Held(s, i) && i != s.workers[w].id {
      if v :| WorkerAt(s, v, Holding(i)) && v != w { assert WorkerAt(s', v, Holding(i)); }
      if v :| WorkerAt(s', v, Holding(i)) { assert WorkerAt(s, v, Holding(i)); }
    }
  }

  lemma StepKeeps(s: State, a: Action)
    requires Inv(s) && Enabled(s, a)
    ensures Inv(Step(s, a))
  {
    CountsKept(s, a);
    ChannelKept(s, a);
    HandsKept(s, a);
    PhasesKept(s, a);
  }

  lemma {:induction false} RunKeeps(s: State, actions: seq<Action>)
    requires Inv(s) && Runs(s, actions)
    ensures Inv(After(s, actions))
    decreases |actions|
  {
    if actions != [] {
      StepKeeps(s, actions[0]);
      RunKeeps(Step(s, actions[0]), actions[1..]);
    }
  }

  lemma ReachableInv(s: State)
    requires Reachable(s)
    ensures Inv(s)
  {
    var s0, actions :| Init(s0) && Runs(s0, actions) && After(s0, actions) == s;
    InitEstablishes(s0);
    RunKeeps(s0, actions);
  }

  // ----- exactly-once delivery

  /** In every reachable state each spawned report is in exactly one place, and in that place once; the
      channel keeps its bound and its order; nothing is ever sent on the closed channel. */
  lemma ExactlyOnePlace(s: State, id: nat)
    requires Reachable(s) && id < |s.readers|
    ensures Bit(!Sent(s, id)) + Bit(id in s.queue) + Bit(Held(s, id)) + Bit(id in s.completed) == 1
    ensures NoDuplicates(s.queue) && NoDuplicates(s.completed)
    ensures forall v, w :: WorkerAt(s, v, Holding(id)) && WorkerAt(s, w, Holding(id)) ==> v == w
    ensures |s.queue| <= s.capacity && s.received <= s.sent
    ensures !s.crashed && !Enabled(s, SendClosed(id))
  {
    ReachableInv(s);
    assert forall i | 0 <= i < |s.queue| :: s.queue[i] == s.sent[|s.received| + i];
    if s.closed {
      ClosedMeansAllFinished(s);
    }
    PartsDisjoint(s.received, s.queue);
  }

  /** A completed report holds both maps, each read once. */
  lemma CompletedWasRead(s0: State, actions: seq<Action>, id: nat)
    requires Init(s0) && Runs(s0, actions) && id in After(s0, actions).completed
    ensures id < Ticks(actions)
    ensures Times(actions, ReadGauges(id)) == 1 && Times(actions, ReadCounters(id)) == 1
  {
    var s := After(s0, actions);
    assert Reachable(s);
    ReachableInv(s);
    assert id in s.received && id in s.sent && Sent(s, id);
    TicksSpawn(s0, actions);
    ReadsCount(s0, actions, id);
  }

  /** When `PollStatsBatch` returns, there are as many completed reports as there were ticks, one for each, provided
      there is a worker; without one nothing was ever received, so only an agent that never ticked loses nothing. */
  lemma DeliveredAtReturn(s0: State, actions: seq<Action>)
    requires Init(s0) && Runs(s0, actions) && After(s0, actions).phase == Returned
    ensures var (done, n) := (After(s0, actions).completed, Ticks(actions));
            && NoDuplicates(done)
            && ((forall id: nat :: id in done <==> id < n) <==> |s0.workers| > 0 || n == 0)
            && |done| == (if |s0.workers| > 0 then n else 0)
  {
    TicksSpawn(s0, actions);
    PoolSizeFixed(s0, actions);
    SpawnedDelivered(After(s0, actions));
  }

  /** The same for the readers that were spawned. */
  lemma SpawnedDelivered(s: State)
    requires Reachable(s) && s.phase == Returned
    ensures NoDuplicates(s.completed)
    ensures (forall id: nat :: id in s.completed <==> id < |s.readers|) <==> |s.workers| > 0 || s.readers == []
    ensures |s.workers| > 0 ==> |s.completed| == |s.readers| && s.queue == []
    ensures |s.workers| == 0 ==> s.completed == [] && |s.queue| == |s.readers|
  {
    ReachableInv(s);
    ClosedMeansAllFinished(s);
    TotalZero(Alive, s.workers);
    forall w | 0 <= w < |s.workers| ensures s.workers[w] == Gone {
      assert Alive(s.workers[w]) == 0;
    }
    forall id: nat ensures !Held(s, id) {
    }
    if |s.workers| > 0 {
      assert s.workers[0] == Gone;
      assert s.sent == s.received;
      DistinctBelow(s.completed, |s.readers|);
    } else {
      NothingReceived(s);
      SentCount(s);
      assert s.sent == s.queue;
      if s.readers != [] {
        assert 0 !in s.completed;
      }
    }
  }

  lemma NothingReceived(s: State)
    requires Reachable(s) && s.workers == []
    ensures s.received == s.completed == []
  {
    var s0, actions :| Init(s0) && Runs(s0, actions) && After(s0, actions) == s;
    PoolSizeFixed(s0, actions);
    NeverReceives(s0, actions);
  }

  lemma {:induction false} PoolSizeFixed(s: State, actions: seq<Action>)
    requires Runs(s, actions)
    ensures |After(s, actions).workers| == |s.workers| && After(s, actions).capacity == s.capacity
    decreases |actions|
  {
    if actions != [] {
      PoolSizeFixed(Step(s, actions[0]), actions[1..]);
    }
  }

  lemma {:induction false} NeverReceives(s: State, actions: seq<Action>)
    requires Runs(s, actions) && s.workers == []
    ensures After(s, actions).received == s.received && After(s, actions).completed == s.completed
    decreases |actions|
  {
    if actions != [] {
      NeverReceives(Step(s, actions[0]), actions[1..]);
    }
  }

  // ----- shutdown terminates

  function ReaderWeight(r: Reader): nat {
    match r
    case ReadingGauges => 7
    case ReadingCounters => 6
    case Sending => 5
    case Leaving => 1
    case Finished => 0
  }

  function WorkerWeight(w: Worker): nat {
    match w
    case Receiving => 2
    case Holding(_) => 4
    case Exiting => 1
    case Gone => 0
  }

  function PhaseWeight(p: Phase): nat {
    match p
    case Polling => 3
    case AwaitReaders => 2
    case AwaitWorkers => 1
    case Returned => 0
  }

  /** What is left to do: an upper bound on the steps that shutdown can still take. */
  function Measure(s: State): nat {
    Total(ReaderWeight, s.readers) + 3 * |s.queue| + Total(WorkerWeight, s.workers) + PhaseWeight(s.phase)
  }

  /** Every step but a tick brings the end nearer, and after cancellation there is no tick. */
  lemma EveryStepDecreases(s: State, a: Action)
    requires Inv(s) && Enabled(s, a)
    ensures if a == Tick then Measure(Step(s, a)) == Measure(s) + 7 else Measure(Step(s, a)) < Measure(s)
    ensures s.phase != Polling ==> a != Tick && Step(s, a).phase != Polling
  {
    hide ChannelOk, HandsOk, CountsLive, PhasesOk, Total;
    match a
    case Tick => TotalAppend(ReaderWeight, s.readers, ReadingGauges);
    case ReadGauges(r) => TotalUpdate(ReaderWeight, s.readers, r, ReadingCounters);
    case ReadCounters(r) => TotalUpdate(ReaderWeight, s.readers, r, Sending);
    case Send(r) => TotalUpdate(ReaderWeight, s.readers, r, Leaving);
    case SendClosed(r) => ClosedMeansAllFinished(s);
    case LeaveReader(r) => TotalUpdate(ReaderWeight, s.readers, r, Finished);
    case Handoff(r, w) =>
      TotalUpdate(ReaderWeight, s.readers, r, Leaving);
      TotalUpdate(WorkerWeight, s.workers, w, Holding(r));
    case Receive(w) => TotalUpdate(WorkerWeight, s.workers, w, Holding(s.queue[0]));
    case Complete(w) => TotalUpdate(WorkerWeight, s.workers, w, Receiving);
    case SeeClosed(w) => TotalUpdate(WorkerWeight, s.workers, w, Exiting);
    case LeaveWorker(w) => TotalUpdate(WorkerWeight, s.workers, w, Gone);
    case _ =>
  }

  ghost predicate Terminal(s: State) {
    forall a :: !Enabled(s, a)
  }

  /** A state of the shutdown in which nothing can move has returned, unless there are no workers and more
      reports than the channel holds: then `tickerWG.Wait` never ends. */
  lemma StuckIff(s0: State, actions: seq<Action>)
    requires Init(s0) && Runs(s0, actions) && Cancel in actions && Terminal(After(s0, actions))
    ensures After(s0, actions).phase == Returned <==> |s0.workers| > 0 || Ticks(actions) <= s0.capacity
  {
    hide Terminal;
    PollingUntilCancel(s0, actions);
    PoolSizeFixed(s0, actions);
    TicksSpawn(s0, actions);
    assert Reachable(After(s0, actions));
    StuckStateIff(After(s0, actions));
  }

  lemma StuckStateIff(s: State)
    requires Reachable(s) && s.phase != Polling && Terminal(s)
    ensures s.phase == Returned <==> |s.workers| > 0 || |s.readers| <= s.capacity
  {
    ReachableInv(s);
    assert forall w: nat :: !Enabled(s, Complete(w)) && !Enabled(s, LeaveWorker(w)) && !Enabled(s, Receive(w));
    if s.closed {
      ClosedMeansAllFinished(s);
    }
    if s.phase == AwaitReaders {
      StuckReaders(s);
    } else if s.phase == AwaitWorkers {
      forall w | 0 <= w < |s.workers| ensures s.workers[w] == Gone {
        if s.workers[w] != Gone { WorkerMovesUnlessGone(s, w); }
      }
      TotalZero(Alive, s.workers);
      assert s.poolWG == 0;
      assert Enabled(s, Return);
      assert false;
    } else if |s.workers| == 0 {
      NothingReceived(s);
      SentCount(s);
    }
  }

  /** The sent reports are at most as many as the readers, and as many only when every reader has sent. */
  lemma SentCount(s: State)
    requires ChannelOk(s)
    ensures |s.sent| <= |s.readers|
    ensures |s.sent| == |s.readers| <==> forall r: nat | r < |s.readers| :: Sent(s, r)
  {
    DistinctBelow(s.sent, |s.readers|);
  }

  lemma WorkerMovesUnlessGone(s: State, w: nat)
    requires PhasesOk(s) && s.closed && w < |s.workers| && s.workers[w] != Gone
    ensures Enabled(s, Receive(w)) || Enabled(s, Complete(w)) || Enabled(s, SeeClosed(w)) || Enabled(s, LeaveWorker(w))
  {
    assert WorkerAt(s, w, s.workers[w]);
  }

  lemma FirstWorkerMoves(s: State, r: nat)
    requires PhasesOk(s) && !s.closed && |s.workers| > 0 && ReaderAt(s, r, Sending)
    ensures Enabled(s, Receive(0)) || Enabled(s, Handoff(r, 0)) || Enabled(s, Complete(0))
  {
    assert WorkerAt(s, 0, s.workers[0]);
  }

  /** Stuck while waiting for readers: all of them sent or block on a full channel that nobody drains. */
  lemma StuckReaders(s: State)
    requires Reachable(s) && Inv(s) && s.phase == AwaitReaders && Terminal(s)
    ensures |s.workers| == 0 && |s.readers| > s.capacity
  {
    assert !Enabled(s, Close);
    if forall r | 0 <= r < |s.readers| :: s.readers[r] == Finished {
      TotalZero(Live, s.readers);
      assert false;
    }
    var r :| 0 <= r < |s.readers| && s.readers[r] != Finished;
    assert !Enabled(s, ReadGauges(r)) && !Enabled(s, ReadCounters(r)) && !Enabled(s, LeaveReader(r));
    assert s.readers[r] == Sending;
    assert !Enabled(s, Send(r));
    assert |s.queue| == s.capacity;
    if |s.workers| > 0 {
      FirstWorkerMoves(s, r);
      assert false;
    }
    NothingReceived(s);
    assert s.sent == s.queue;
    SentCount(s);
    assert !Sent(s, r);
  }

  /** With a worker, a shutdown that has not returned can always move. */
  lemma NoDeadlock(s: State)
    requires Reachable(s) && s.phase != Polling && s.phase != Returned && |s.workers| > 0
    ensures exists a :: Enabled(s, a)
  {
    if Terminal(s) {
      StuckStateIff(s);
    }
  }

  /** Every run of the shutdown is finite: it takes at most `Measure(s)` steps. */
  lemma {:induction false} ShutdownBounded(s: State, actions: seq<Action>)
    requires Inv(s) && s.phase != Polling && Runs(s, actions)
    ensures |actions| + Measure(After(s, actions)) <= Measure(s)
    decreases |actions|
  {
    if actions != [] {
      EveryStepDecreases(s, actions[0]);
      StepKeeps(s, actions[0]);
      ShutdownBounded(Step(s, actions[0]), actions[1..]);
    }
  }

  /** And so is every run: eight steps for each tick, two for each worker, and three. */
  lemma {:induction false} StepsBounded(s: State, actions: seq<Action>)
    requires Inv(s) && Runs(s, actions)
    ensures |actions| + Measure(After(s, actions)) <= Measure(s) + 8 * Ticks(actions)
    decreases |actions|
  {
    hide Inv, Measure;
    if actions != [] {
      EveryStepDecreases(s, actions[0]);
      StepKeeps(s, actions[0]);
      StepsBounded(Step(s, actions[0]), actions[1..]);
    }
  }

  lemma {:induction false} WorkersWeigh(ws: seq<Worker>)
    requires forall w | 0 <= w < |ws| :: ws[w] == Receiving
    ensures Total(WorkerWeight, ws) == 2 * |ws|
  {
    if ws != [] {
      WorkersWeigh(ws[1..]);
    }
  }

  lemma RunBounded(s0: State, actions: seq<Action>)
    requires Init(s0) && Runs(s0, actions)
    ensures |actions| <= 8 * Ticks(actions) + 2 * |s0.workers| + 3
  {
    InitEstablishes(s0);
    WorkersWeigh(s0.workers);
    StepsBounded(s0, actions);
  }

  lemma {:induction false} RunsOn(s: State, first: seq<Action>, second: seq<Action>)
    requires Runs(s, first) && Runs(After(s, first), second)
    ensures Runs(s, first + second) && After(s, first + second) == After(After(s, first), second)
    decreases |first|
  {
    if first == [] {
      assert first + second == second;
    } else {
      assert (first + second)[1..] == first[1..] + second;
      RunsOn(Step(s, first[0]), first[1..], second);
    }
  }

  /** Whatever the scheduler does, once the context was cancelled and nothing can move any more, `PollStatsBatch` has
      returned, and as many reports were completed as there were ticks, each once. */
  lemma ShutdownDelivers(s0: State, actions: seq<Action>)
    requires Init(s0) && Runs(s0, actions) && |s0.workers| > 0
    requires Cancel in actions && Terminal(After(s0, actions))
    ensures var s := After(s0, actions);
            && s.phase == Returned && |actions| <= 8 * Ticks(actions) + 2 * |s0.workers| + 3
            && |s.completed| == Ticks(actions) && NoDuplicates(s.completed)
            && forall id: nat :: id in s.completed <==> id < Ticks(actions)
  {
    hide Init, Terminal;
    RunBounded(s0, actions);
    StuckIff(s0, actions);
    DeliveredAtReturn(s0, actions);
  }

  // ----- such runs exist

  lemma {:induction false} TimesConcat(a: seq<Action>, b: seq<Action>, x: Action)
    ensures Times(a + b, x) == Times(a, x) + Times(b, x)
    decreases |a|
  {
    if a == [] {
      assert a + b == b;
    } else {
      assert (a + b)[1..] == a[1..] + b;
      TimesConcat(a[1..], b, x);
    }
  }

  lemma {:induction false} TickAway(s: State, n: nat) returns (actions: seq<Action>)
    requires Inv(s) && s.phase == Polling
    ensures Runs(s, actions) && Ticks(actions) == |actions| == n && After(s, actions).phase == Polling
    decreases n
  {
    hide Inv;
    actions := [];
    if n > 0 {
      PhaseOf(s);
      StepKeeps(s, Tick);
      var rest := TickAway(Step(s, Tick), n - 1);
      actions := [Tick] + rest;
      assert actions[1..] == rest;
    }
  }

  lemma PhaseOf(s: State)
    requires Inv(s)
    ensures !s.crashed
  {
  }

  lemma {:induction false} RunOut(s: State) returns (actions: seq<Action>)
    requires Inv(s) && s.phase != Polling
    ensures Runs(s, actions) && Ticks(actions) == 0 && Terminal(After(s, actions))
    decreases Measure(s)
  {
    hide Inv, Measure, Enabled;
    actions := [];
    if a :| Enabled(s, a) {
      EveryStepDecreases(s, a);
      StepKeeps(s, a);
      var rest := RunOut(Step(s, a));
      actions := [a] + rest;
      assert actions[1..] == rest;
    }
  }

  /** However many ticks come, they can all be served: there is such a run. */
  lemma AnyTicksCanBeServed(s0: State, n: nat) returns (actions: seq<Action>)
    requires Init(s0) && |s0.workers| > 0
    ensures Runs(s0, actions) && Ticks(actions) == n && Cancel in actions && Terminal(After(s0, actions))
    ensures After(s0, actions).phase == Returned && |After(s0, actions).completed| == n
  {
    hide Terminal, Enabled, Step;
    InitEstablishes(s0);
    var first := TickAway(s0, n);
    RunKeeps(s0, first);
    var s := After(s0, first);
    CancelStops(s);
    StepKeeps(s, Cancel);
    var last := RunOut(Step(s, Cancel));
    assert ([Cancel] + last)[1..] == last;
    RunsOn(s0, first, [Cancel] + last);
    TimesConcat(first, [Cancel] + last, Tick);
    actions := first + ([Cancel] + last);
    ShutdownDelivers(s0, actions);
  }

  lemma CancelStops(s: State)
    requires Inv(s) && s.phase == Polling
    ensures Enabled(s, Cancel) && Step(s, Cancel).phase != Polling
  {
  }
}
