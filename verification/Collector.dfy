/** The agent's collector (internal/collector/collector.go): a ticker spawns `Stats` goroutines, each of which forks
    three jobs that write under the lock of one of the two maps, and shutdown waits for all of them.  The agent's
    report readers take the same locks for reading.  Every interleaving is a run of `Step`. */
module Collector {
  import opened Counting
  import opened DecimalText
  import opened Mondata
  import opened Wrappers

  datatype Stage = Unborn | Gathering | Writing(left: seq<string>) | Leaving | Finished

  /** A job sets the metrics `names`, one after the other, in the gauge or in the counter map. */
  datatype Job = Job(onGauge: bool, names: seq<string>, stage: Stage)

  datatype RoundStage = Fresh | Joining | Ended

  /** A round of collection: one `Stats` goroutine with its own wait group. */
  datatype Round = Round(stage: RoundStage, wg: int, jobs: seq<Job>)

  /** A `sync.RWMutex`: held by one writing job, given by its round and its place there, or by readers. */
  datatype Lock = Lock(writer: Option<(nat, nat)>, readers: nat)

  datatype Phase = Monitoring | AwaitRounds | Returned

  datatype State = State(
    cores: nat, phase: Phase, rounds: seq<Round>, tickerWG: int,
    gaugeLock: Lock, counterLock: Lock, gauge: GaugeMap, counter: CounterMap)

  datatype Action =
    | Tick | Cancel | Return
    | Fork(t: nat) | Join(t: nat)
    | Acquire(t: nat, j: nat) | SetNext(t: nat, j: nat, v: Float64) | Release(t: nat, j: nat) | Done(t: nat, j: nat)
    | ReadLock(onGauge: bool) | ReadUnlock(onGauge: bool)

  const POLL_COUNT := "PollCount"

  function CoreNames(n: nat): seq<string> {
    if n == 0 then [] else CoreNames(n - 1) + ["CPUutilization" + Digits(n)]
  }

  function GopsNames(cores: nat): seq<string> {
    ["TotalMemory", "FreeMemory"] + CoreNames(cores)
  }

  const RUNTIME_NAMES := ["TotalAlloc", "Sys", "Lookups", "Mallocs", "Frees", "Alloc", "BuckHashSys",
                          "HeapAlloc", "HeapIdle", "HeapInuse", "HeapObjects", "HeapReleased", "HeapSys",
                          "StackInuse", "StackSys", "MSpanInuse", "MSpanSys", "MCacheInuse", "MCacheSys",
                          "GCCPUFraction", "GCSys", "LastGC", "NextGC", "NumForcedGC", "NumGC", "PauseTotalNs",
                          "OtherSys", "RandomValue"]

  /** 27 figures of the Go runtime and a random value. */
  lemma RuntimeNamesAre()
    ensures |RUNTIME_NAMES| == 28 && RUNTIME_NAMES[27] == "RandomValue" && RUNTIME_NAMES[5] == "Alloc"
  {
  }

  function Jobs(cores: nat, stage: Stage): seq<Job> {
    [Job(true, GopsNames(cores), stage), Job(true, RUNTIME_NAMES, stage), Job(false, [POLL_COUNT], stage)]
  }

  function LockOf(s: State, onGauge: bool): Lock {
    if onGauge then s.gaugeLock else s.counterLock
  }

  function WithLock(s: State, onGauge: bool, lock: Lock): State {
    if onGauge then s.(gaugeLock := lock) else s.(counterLock := lock)
  }

  predicate Has(s: State, t: nat, j: nat) {
    t < |s.rounds| && j < |s.rounds[t].jobs|
  }

  function At(s: State, t: nat, j: nat): Job
    requires Has(s, t, j)
  {
    s.rounds[t].jobs[j]
  }

  predicate Enabled(s: State, a: Action) {
    match a
    case Tick => s.phase == Monitoring
    case Cancel => s.phase == Monitoring
    case Return => s.phase == AwaitRounds && s.tickerWG == 0
    case Fork(t) => t < |s.rounds| && s.rounds[t].stage == Fresh
    case Join(t) => t < |s.rounds| && s.rounds[t].stage == Joining && s.rounds[t].wg == 0
    case Acquire(t, j) =>
      Has(s, t, j) && At(s, t, j).stage == Gathering && LockOf(s, At(s, t, j).onGauge) == Lock(None, 0)
    case SetNext(t, j, v) => Has(s, t, j) && At(s, t, j).stage.Writing? && At(s, t, j).stage.left != []
    case Release(t, j) => Has(s, t, j) && At(s, t, j).stage == Writing([])
    case Done(t, j) => Has(s, t, j) && At(s, t, j).stage == Leaving
    case ReadLock(g) => LockOf(s, g).writer == None
    case ReadUnlock(g) => LockOf(s, g).readers > 0
  }

  function MoveRound(round: Round, j: nat, stage: Stage): Round
    requires j < |round.jobs|
  {
    round.(jobs := round.jobs[j := round.jobs[j].(stage := stage)])
  }

  function Move(s: State, t: nat, j: nat, stage: Stage): State
    requires Has(s, t, j)
  {
    s.(rounds := s.rounds[t := MoveRound(s.rounds[t], j, stage)])
  }

  /** Gauges get the measured value, the one counter is set to 1. */
  function Put(s: State, onGauge: bool, k: string, v: Float64): State {
    if onGauge then s.(gauge := s.gauge[k := v]) else s.(counter := s.counter[k := 1])
  }

  function Step(s: State, a: Action): State
    requires Enabled(s, a)
  {
    match a
    case Tick => s.(tickerWG := s.tickerWG + 1, rounds := s.rounds + [Round(Fresh, 0, Jobs(s.cores, Unborn))])
    case Cancel => s.(phase := AwaitRounds)
    case Return => s.(phase := Returned)
    case Fork(t) => s.(rounds := s.rounds[t := Round(Joining, 3, Jobs(s.cores, Gathering))])
    case Join(t) => s.(rounds := s.rounds[t := s.rounds[t].(stage := Ended)], tickerWG := s.tickerWG - 1)
    case Acquire(t, j) =>
      var job := At(s, t, j);
      WithLock(Move(s, t, j, Writing(job.names)), job.onGauge, Lock(Some((t, j)), 0))
    case SetNext(t, j, v) =>
      var job := At(s, t, j);
      Put(Move(s, t, j, Writing(job.stage.left[1..])), job.onGauge, job.stage.left[0], v)
    case Release(t, j) =>
      WithLock(Move(s, t, j, Leaving), At(s, t, j).onGauge, Lock(None, 0))
    case Done(t, j) =>
      var s' := Move(s, t, j, Finished);
      s'.(rounds := s'.rounds[t := s'.rounds[t].(wg := s.rounds[t].wg - 1)])
    case ReadLock(g) => WithLock(s, g, LockOf(s, g).(readers := LockOf(s, g).readers + 1))
    case ReadUnlock(g) => WithLock(s, g, LockOf(s, g).(readers := LockOf(s, g).readers - 1))
  }

  ghost predicate Init(s: State) {
    && s.phase == Monitoring && s.rounds == [] && s.tickerWG == 0
    && s.gaugeLock == s.counterLock == Lock(None, 0)
    && s.gauge == map[] && s.counter == map[]
  }

  ghost predicate Runs(s: State, actions: seq<Action>)
    decreases |actions|
  {
    actions == [] || (Enabled(s, actions[0]) && Runs(Step(s, actions[0]), actions[1..]))
  }

  ghost function After(s: State, actions: seq<Action>): State
    requires Runs(s, actions)
    decreases |actions|
  {
    if actions == [] then s else After(Step(s, actions[0]), actions[1..])
  }

  ghost predicate Reachable(s: State) {
    exists s0, actions :: Init(s0) && Runs(s0, actions) && After(s0, actions) == s
  }

  // ----- what a run asks for

  function Ticks(actions: seq<Action>): nat {
    if actions == [] then 0 else Ticks(actions[1..]) + if actions[0] == Tick then 1 else 0
  }

  /** Every tick starts one round, and nothing else does. */
  lemma {:induction false} TicksStart(s: State, actions: seq<Action>)
    requires Runs(s, actions)
    ensures |After(s, actions).rounds| == |s.rounds| + Ticks(actions) && After(s, actions).cores == s.cores
    decreases |actions|
  {
    hide Jobs;
    if actions != [] {
      TicksStart(Step(s, actions[0]), actions[1..]);
    }
  }

  lemma {:induction false} MonitoringUntilCancel(s: State, actions: seq<Action>)
    requires Runs(s, actions)
    ensures After(s, actions).phase == Monitoring <==> s.phase == Monitoring && Cancel !in actions
    decreases |actions|
  {
    hide Jobs;
    if actions != [] {
      assert actions == [actions[0]] + actions[1..];
      MonitoringUntilCancel(Step(s, actions[0]), actions[1..]);
    }
  }

  function Times(actions: seq<Action>, a: Action): nat {
    if actions == [] then 0 else Times(actions[1..], a) + if actions[0] == a then 1 else 0
  }

  /** A lock is held for reading by as many report readers as have locked it and not unlocked it. */
  lemma {:induction false} ReadersAreCounted(s: State, actions: seq<Action>, g: bool)
    requires LocksOk(s) && RoundsOk(s.rounds) && CountsLive(s) && Runs(s, actions)
    ensures LockOf(After(s, actions), g).readers + Times(actions, ReadUnlock(g))
         == LockOf(s, g).readers + Times(actions, ReadLock(g))
    decreases |actions|
  {
    hide LocksOk, RoundsOk, CountsLive, Jobs;
    if actions != [] {
      CountsRounds(s);
      CountsKept(s, actions[0]);
      CountsRounds(Step(s, actions[0]));
      LocksKept(s, actions[0]);
      ReaderStep(s, actions[0], g);
      ReadersAreCounted(Step(s, actions[0]), actions[1..], g);
    }
  }

  /** In every run, then, and nobody writes while there is one. */
  lemma ReadersCounted(s0: State, actions: seq<Action>, g: bool)
    requires Init(s0) && Runs(s0, actions)
    ensures var s := After(s0, actions);
            LockOf(s, g).readers + Times(actions, ReadUnlock(g)) == Times(actions, ReadLock(g))
            && (Times(actions, ReadUnlock(g)) < Times(actions, ReadLock(g)) ==> LockOf(s, g).writer == None)
  {
    hide Total, Jobs;
    InitEstablishes(s0);
    ReadersAreCounted(s0, actions, g);
    RunKeeps(s0, actions);
    LocksMean(After(s0, actions), g);
  }

  /** A report reader is kept out only while a job writes the map. */
  lemma ReadersAdmitted(s: State, g: bool)
    requires Reachable(s) && forall t: nat, j: nat | Has(s, t, j) && At(s, t, j).onGauge == g :: !At(s, t, j).stage.Writing?
    ensures Enabled(s, ReadLock(g))
  {
    hide CountsLive, ShapeOk, JobsOk, MapsOk, NamesOk;
    ReachableInv(s);
    if LockOf(s, g).writer.Some? {
      HolderWrites(s, g);
      assert false;
    }
  }

  lemma LocksMean(s: State, g: bool)
    requires Inv(s)
    ensures LockOf(s, g).writer.Some? ==> LockOf(s, g).readers == 0
  {
  }

  lemma ReaderStep(s: State, a: Action, g: bool)
    requires LocksOk(s) && Enabled(s, a)
    ensures LockOf(Step(s, a), g).readers + (if a == ReadUnlock(g) then 1 else 0)
         == LockOf(s, g).readers + if a == ReadLock(g) then 1 else 0
  {
    hide Jobs;
    if a.Release? {
      assert Writes(s, At(s, a.t, a.j).onGauge, a.t, a.j);
    }
  }

  /** The last measurement of gauge `k` in a run. */
  ghost function LastMeasured(s: State, actions: seq<Action>, k: string): Option<Float64>
    requires Runs(s, actions)
    decreases |actions|
  {
    if actions == [] then None
    else
      var a, later := actions[0], LastMeasured(Step(s, actions[0]), actions[1..], k);
      if later.Some? then later
      else Measured(s, a, k)
  }

  /** The value that a step measures for gauge `k`. */
  function Measured(s: State, a: Action, k: string): Option<Float64>
    requires Enabled(s, a)
  {
    if a.SetNext? && At(s, a.t, a.j).onGauge && At(s, a.t, a.j).stage.left[0] == k then Some(a.v) else None
  }

  lemma GaugeStep(s: State, a: Action, k: string)
    requires Enabled(s, a)
    ensures Find(Step(s, a).gauge, k) == Measured(s, a, k).Or(Find(s.gauge, k))
  {
    hide Jobs;
  }

  /** Whatever runs at the same time, each gauge holds its last measurement. */
  lemma {:induction false} GaugesHoldLast(s: State, actions: seq<Action>, k: string)
    requires Runs(s, actions)
    ensures Find(After(s, actions).gauge, k) == LastMeasured(s, actions, k).Or(Find(s.gauge, k))
    decreases |actions|
  {
    hide Step, Measured;
    if actions != [] {
      GaugeStep(s, actions[0], k);
      GaugesHoldLast(Step(s, actions[0]), actions[1..], k);
    }
  }

  // ----- the invariant

  function LiveRound(round: Round): nat {
    if round.stage == Ended then 0 else 1
  }

  function LiveJob(job: Job): nat {
    if job.stage == Unborn || job.stage == Finished then 0 else 1
  }

  ghost predicate RoundOk(round: Round) {
    && |round.jobs| == 3
    && round.wg == Total(LiveJob, round.jobs)
    && (forall j | 0 <= j < 3 :: round.jobs[j].stage == Unborn <==> round.stage == Fresh)
    && (round.stage == Ended ==> round.wg == 0)
  }

  ghost predicate RoundsOk(rounds: seq<Round>) {
    forall t | 0 <= t < |rounds| :: RoundOk(rounds[t])
  }

  /** Both levels of wait groups count the goroutines that have not called `Done`. */
  ghost predicate CountsLive(s: State) {
    s.tickerWG == Total(LiveRound, s.rounds) && RoundsOk(s.rounds) && (s.phase == Returned ==> s.tickerWG == 0)
  }

  ghost predicate Writes(s: State, g: bool, t: nat, j: nat) {
    Has(s, t, j) && At(s, t, j).stage.Writing? && At(s, t, j).onGauge == g
  }

  /** A job is between its lock and its unlock exactly while it holds the lock, and then nobody reads. */
  ghost predicate LocksOk(s: State) {
    && (forall g, t: nat, j: nat :: Writes(s, g, t, j) <==> LockOf(s, g).writer == Some((t, j)))
    && (forall g :: LockOf(s, g).writer.Some? ==> LockOf(s, g).readers == 0)
  }

  ghost predicate Knows(s: State, onGauge: bool, k: string) {
    if onGauge then k in s.gauge else k in s.counter
  }

  /** A job that has set a metric finds it in its map. */
  ghost predicate JobOk(s: State, job: Job) {
    && (if job.onGauge then "" !in job.names else job.names == [POLL_COUNT])
    && match job.stage
       case Unborn => true
       case Gathering => true
       case Writing(left) => Within(left, job.names) && KnowsBut(s, job, left)
       case _ => KnowsBut(s, job, [])
  }

  ghost predicate Within(left: seq<string>, names: seq<string>) {
    forall k | k in left :: k in names
  }

  ghost predicate KnowsBut(s: State, job: Job, left: seq<string>) {
    forall k | k in job.names :: k in left || Knows(s, job.onGauge, k)
  }

  ghost predicate JobsOk(s: State) {
    forall t: nat, j: nat | Has(s, t, j) :: JobOk(s, At(s, t, j))
  }

  function OneOf(cores: nat, j: nat): Job
    requires j < 3
  {
    Jobs(cores, Unborn)[j]
  }

  /** Every round runs the three jobs of the source. */
  ghost predicate ShapeOk(s: State) {
    forall t: nat, j: nat | Has(s, t, j) :: j < 3 && At(s, t, j).(stage := Unborn) == OneOf(s.cores, j)
  }

  /** `PollCount` is absent or 1, and there is no other counter. */
  ghost predicate MapsOk(s: State) {
    (s.counter == map[] || s.counter == map[POLL_COUNT := 1]) && "" !in s.gauge
  }

  /** There are no gauges but those of the two jobs. */
  ghost predicate NamesOk(s: State) {
    forall k | k in s.gauge :: k in GopsNames(s.cores) + RUNTIME_NAMES
  }

  ghost predicate Inv(s: State) {
    CountsLive(s) && LocksOk(s) && ShapeOk(s) && JobsOk(s) && MapsOk(s) && NamesOk(s)
  }

  /** The gauges of the host: memory, and the load of each core by its number from 1. */
  lemma {:induction false} GopsNamesAre(cores: nat, k: string)
    ensures k in GopsNames(cores) <==>
            k == "TotalMemory" || k == "FreeMemory"
            || exists i: nat :: 1 <= i <= cores && k == "CPUutilization" + FormatCounter(i)
    decreases cores
  {
    CoreNamesAre(cores, k);
  }

  lemma {:induction false} CoreNamesAre(cores: nat, k: string)
    ensures k in CoreNames(cores) <==> exists i: nat :: 1 <= i <= cores && k == "CPUutilization" + FormatCounter(i)
    decreases cores
  {
    if cores > 0 {
      CoreNamesAre(cores - 1, k);
      assert FormatCounter(cores) == Digits(cores);
    }
  }

  lemma {:induction false} NamesNotEmpty(cores: nat)
    ensures "" !in CoreNames(cores) && "" !in GopsNames(cores)
  {
    if cores > 0 {
      NamesNotEmpty(cores - 1);
    }
  }

  lemma TotalOfThree<T>(f: T -> nat, s: seq<T>)
    requires |s| == 3
    ensures Total(f, s) == f(s[0]) + f(s[1]) + f(s[2])
  {
    assert Total(f, s[1..]) == f(s[1]) + Total(f, s[1..][1..]);
    assert Total(f, s[1..][1..]) == f(s[2]) + Total(f, s[1..][1..][1..]);
    assert s[1..][1..][1..] == [];
  }

  lemma NewRoundOk(cores: nat)
    ensures RoundOk(Round(Fresh, 0, Jobs(cores, Unborn))) && RoundOk(Round(Joining, 3, Jobs(cores, Gathering)))
  {
    TotalOfThree(LiveJob, Jobs(cores, Unborn));
    TotalOfThree(LiveJob, Jobs(cores, Gathering));
  }

  lemma CountsKept(s: State, a: Action)
    requires CountsLive(s) && Enabled(s, a)
    ensures CountsLive(Step(s, a))
  {
    hide Total, Jobs, RoundOk;
    match a
    case Tick =>
      NewRoundOk(s.cores);
      TotalAppend(LiveRound, s.rounds, Round(Fresh, 0, Jobs(s.cores, Unborn)));
    case Fork(t) =>
      NewRoundOk(s.cores);
      RoundReplaced(s, t, Round(Joining, 3, Jobs(s.cores, Gathering)));
    case Join(t) =>
      JoinOk(s.rounds[t]);
      RoundReplaced(s, t, s.rounds[t].(stage := Ended));
    case Acquire(t, j) => MoveCounts(s, t, j, Writing(At(s, t, j).names));
    case SetNext(t, j, v) => MoveCounts(s, t, j, Writing(At(s, t, j).stage.left[1..]));
    case Release(t, j) => MoveCounts(s, t, j, Leaving);
    case Done(t, j) => DoneCounts(s, t, j);
    case _ =>
  }

  lemma JoinOk(round: Round)
    requires RoundOk(round) && round.stage == Joining && round.wg == 0
    ensures RoundOk(round.(stage := Ended))
  {
  }

  lemma RoundReplaced(s: State, t: nat, round: Round)
    requires RoundsOk(s.rounds) && t < |s.rounds| && RoundOk(round)
    ensures RoundsOk(s.rounds[t := round])
    ensures Total(LiveRound, s.rounds[t := round]) + LiveRound(s.rounds[t]) == Total(LiveRound, s.rounds) + LiveRound(round)
  {
    TotalUpdate(LiveRound, s.rounds, t, round);
  }

  lemma MoveCounts(s: State, t: nat, j: nat, stage: Stage)
    requires CountsLive(s) && Has(s, t, j)
    requires LiveJob(At(s, t, j)) == 1 && stage != Unborn && stage != Finished
    ensures CountsLive(Move(s, t, j, stage))
  {
    var round := s.rounds[t];
    TotalUpdate(LiveJob, round.jobs, j, round.jobs[j].(stage := stage));
    RoundReplaced(s, t, MoveRound(round, j, stage));
  }

  lemma DoneCounts(s: State, t: nat, j: nat)
    requires CountsLive(s) && Enabled(s, Done(t, j))
    ensures CountsLive(Step(s, Done(t, j)))
  {
    hide Total;
    var round := s.rounds[t];
    var round' := MoveRound(round, j, Finished).(wg := round.wg - 1);
    TotalUpdate(LiveJob, round.jobs, j, round.jobs[j].(stage := Finished));
    RoundReplaced(s, t, round');
    assert Step(s, Done(t, j)).rounds == s.rounds[t := round'];
  }

  ghost predicate SameWriters(s: State, s': State) {
    forall g, t: nat, j: nat :: Writes(s', g, t, j) <==> Writes(s, g, t, j)
  }

  lemma TickWriters(s: State)
    requires Enabled(s, Tick)
    ensures SameWriters(s, Step(s, Tick))
  {
  }

  lemma ForkWriters(s: State, t: nat)
    requires RoundsOk(s.rounds) && Enabled(s, Fork(t))
    ensures SameWriters(s, Step(s, Fork(t)))
  {
    hide Total;
    assert RoundOk(s.rounds[t]);
  }

  lemma JoinWriters(s: State, t: nat)
    requires Enabled(s, Join(t))
    ensures SameWriters(s, Step(s, Join(t)))
  {
  }

  /** The steps that jobs take themselves. */
  predicate OnJob(a: Action) {
    a.Acquire? || a.SetNext? || a.Release? || a.Done?
  }

  lemma LocksKept(s: State, a: Action)
    requires RoundsOk(s.rounds) && LocksOk(s) && Enabled(s, a)
    ensures LocksOk(Step(s, a))
  {
    hide RoundsOk, Jobs, LocksOk;
    if OnJob(a) {
      LocksKeptByJob(s, a);
    } else {
      WritersKept(s, a);
      ReadersKept(s, a);
      LocksSame(s, Step(s, a));
    }
  }

  lemma LocksKeptByJob(s: State, a: Action)
    requires LocksOk(s) && OnJob(a) && Enabled(s, a)
    ensures LocksOk(Step(s, a))
  {
    hide LocksOk;
    if !a.Acquire? {
      WritesWhileHeld(s, a.t, a.j);
    }
    LocksMoved(s, Step(s, a), a.t, a.j);
  }

  lemma WritesWhileHeld(s: State, t: nat, j: nat)
    requires LocksOk(s) && Has(s, t, j)
    ensures At(s, t, j).stage.Writing? ==> LockOf(s, At(s, t, j).onGauge) == Lock(Some((t, j)), 0)
  {
    assert Writes(s, At(s, t, j).onGauge, t, j) <==> At(s, t, j).stage.Writing?;
  }

  lemma WritersKept(s: State, a: Action)
    requires RoundsOk(s.rounds) && !OnJob(a) && Enabled(s, a)
    ensures SameWriters(s, Step(s, a))
  {
    hide RoundsOk, Jobs;
    match a
    case Tick => TickWriters(s);
    case Fork(t) => ForkWriters(s, t);
    case Join(t) => JoinWriters(s, t);
    case _ =>
  }

  lemma ReadersKept(s: State, a: Action)
    requires !OnJob(a) && Enabled(s, a)
    ensures forall g :: LockOf(Step(s, a), g).writer == LockOf(s, g).writer
    ensures forall g :: LockOf(s, g).writer.Some? && LockOf(s, g).readers == 0 ==> LockOf(Step(s, a), g).readers == 0
  {
    hide Jobs;
  }

  lemma LocksSame(s: State, s': State)
    requires LocksOk(s) && SameWriters(s, s')
    requires forall g :: LockOf(s', g).writer == LockOf(s, g).writer
    requires forall g :: LockOf(s, g).writer.Some? && LockOf(s, g).readers == 0 ==> LockOf(s', g).readers == 0
    ensures LocksOk(s')
  {
    forall g, t: nat, j: nat
      ensures Writes(s', g, t, j) <==> LockOf(s', g).writer == Some((t, j))
    {
      assert Writes(s, g, t, j) <==> LockOf(s, g).writer == Some((t, j));
    }
  }

  /** A job that moves keeps the lock while it writes and has it at no other time. */
  lemma LocksMoved(s: State, s': State, t: nat, j: nat)
    requires LocksOk(s) && Has(s, t, j) && Has(s', t, j)
    requires s'.rounds == s.rounds[t := s'.rounds[t]] && s'.rounds[t].jobs == s.rounds[t].jobs[j := At(s', t, j)]
    requires At(s', t, j).onGauge == At(s, t, j).onGauge
    requires var (g, lock) := (At(s, t, j).onGauge, LockOf(s, At(s, t, j).onGauge));
             && LockOf(s', !g) == LockOf(s, !g)
             && (At(s, t, j).stage.Writing? || At(s', t, j).stage.Writing? ==> lock.writer.None? || lock.writer == Some((t, j)))
             && LockOf(s', g) == if At(s', t, j).stage.Writing? then Lock(Some((t, j)), 0)
                                 else if At(s, t, j).stage.Writing? then Lock(None, 0) else lock
    ensures LocksOk(s')
  {
    var g := At(s, t, j).onGauge;
    forall h, u: nat, i: nat
      ensures Writes(s', h, u, i) <==> LockOf(s', h).writer == Some((u, i))
    {
      assert Writes(s, h, u, i) <==> LockOf(s, h).writer == Some((u, i));
      if (u, i) == (t, j) {
      } else {
        assert Writes(s', h, u, i) <==> Writes(s, h, u, i);
      }
    }
  }

  /** The jobs of the other rounds stay what they were, and the round `t` has the three jobs in one stage. */
  ghost predicate Started(s: State, s': State, t: nat, stage: Stage) {
    && t <= |s.rounds| && t < |s'.rounds| && s'.cores == s.cores && s'.rounds[t].jobs == Jobs(s.cores, stage)
    && forall u: nat, j: nat | Has(s', u, j) && u != t :: Has(s, u, j) && At(s', u, j) == At(s, u, j)
  }

  lemma ShapeKept(s: State, a: Action)
    requires ShapeOk(s) && Enabled(s, a)
    ensures ShapeOk(Step(s, a))
  {
    hide ShapeOk, Jobs;
    match a
    case Tick => ShapeStarted(s, Step(s, a), |s.rounds|, Unborn);
    case Fork(t) => ShapeStarted(s, Step(s, a), t, Gathering);
    case Join(t) => ShapeSame(s, Step(s, a));
    case Acquire(t, j) => ShapeMoved(s, Step(s, a), t, j);
    case SetNext(t, j, v) => ShapeMoved(s, Step(s, a), t, j);
    case Release(t, j) => ShapeMoved(s, Step(s, a), t, j);
    case Done(t, j) => ShapeMoved(s, Step(s, a), t, j);
    case _ => ShapeSame(s, Step(s, a));
  }

  lemma ShapeStarted(s: State, s': State, t: nat, stage: Stage)
    requires ShapeOk(s) && Started(s, s', t, stage)
    ensures ShapeOk(s')
  {
  }

  lemma ShapeSame(s: State, s': State)
    requires ShapeOk(s) && s'.cores == s.cores && |s'.rounds| == |s.rounds|
    requires forall t | 0 <= t < |s.rounds| :: s'.rounds[t].jobs == s.rounds[t].jobs
    ensures ShapeOk(s')
  {
    hide Jobs;
    forall u: nat, i: nat | Has(s', u, i)
      ensures i < 3 && At(s', u, i).(stage := Unborn) == OneOf(s.cores, i)
    {
      assert Has(s, u, i);
    }
  }

  lemma ShapeMoved(s: State, s': State, t: nat, j: nat)
    requires ShapeOk(s) && Has(s, t, j) && Has(s', t, j) && s'.cores == s.cores
    requires s'.rounds == s.rounds[t := s'.rounds[t]] && s'.rounds[t].jobs == s.rounds[t].jobs[j := At(s', t, j)]
    requires At(s', t, j).(stage := Unborn) == At(s, t, j).(stage := Unborn)
    ensures ShapeOk(s')
  {
    hide Jobs;
    forall u: nat, i: nat | Has(s', u, i)
      ensures i < 3 && At(s', u, i).(stage := Unborn) == OneOf(s.cores, i)
    {
      assert Has(s, u, i);
    }
  }

  lemma {:induction false} RunKeeps(s: State, actions: seq<Action>)
    requires Inv(s) && Runs(s, actions)
    ensures Inv(After(s, actions))
    decreases |actions|
  {
    hide Inv;
    if actions != [] {
      StepKeeps(s, actions[0]);
      RunKeeps(Step(s, actions[0]), actions[1..]);
    }
  }

  lemma JobsKept(s: State, a: Action)
    requires JobsOk(s) && Enabled(s, a)
    ensures JobsOk(Step(s, a))
  {
    hide JobsOk, Jobs, JobOk;
    if a.Tick? {
      JobsStarted(s, Step(s, a), |s.rounds|, Unborn);
    } else if a.Fork? {
      JobsStarted(s, Step(s, a), a.t, Gathering);
    } else if a.SetNext? {
      JobSets(s, a.t, a.j, a.v);
    } else if OnJob(a) {
      JobsKeptByJob(s, a);
    } else {
      JobsSame(s, Step(s, a));
    }
  }

  lemma JobsKeptByJob(s: State, a: Action)
    requires JobsOk(s) && OnJob(a) && !a.SetNext? && Enabled(s, a)
    ensures JobsOk(Step(s, a))
  {
    hide JobsOk, JobOk;
    JobAdvances(s, Step(s, a), a.t, a.j);
    JobMoved(s, Step(s, a), a.t, a.j);
  }

  /** Locking starts with all names to set, unlocking ends with none. */
  lemma JobAdvances(s: State, s': State, t: nat, j: nat)
    requires JobsOk(s) && Has(s, t, j) && Has(s', t, j) && s'.gauge == s.gauge && s'.counter == s.counter
    requires var (job, next) := (At(s, t, j), At(s', t, j).stage);
             && At(s', t, j) == job.(stage := next)
             && ((job.stage == Gathering && next == Writing(job.names))
                 || (job.stage == Writing([]) && next == Leaving)
                 || (job.stage == Leaving && next == Finished))
    ensures JobOk(s', At(s', t, j))
  {
    assert JobOk(s, At(s, t, j));
  }

  lemma StartsOk(s: State, j: nat, stage: Stage)
    requires j < 3 && (stage == Unborn || stage == Gathering)
    ensures JobOk(s, Jobs(s.cores, stage)[j])
  {
    NamesNotEmpty(s.cores);
  }

  lemma JobsStarted(s: State, s': State, t: nat, stage: Stage)
    requires JobsOk(s) && Started(s, s', t, stage) && (stage == Unborn || stage == Gathering)
    requires s.gauge.Keys <= s'.gauge.Keys && s.counter.Keys <= s'.counter.Keys
    ensures JobsOk(s')
  {
    forall u: nat, i: nat | Has(s', u, i)
      ensures JobOk(s', At(s', u, i))
    {
      if u != t {
        JobGrows(s, s', At(s, u, i));
      } else {
        StartsOk(s', i, stage);
      }
    }
  }

  lemma JobsSame(s: State, s': State)
    requires JobsOk(s) && |s'.rounds| == |s.rounds| && s'.gauge == s.gauge && s'.counter == s.counter
    requires forall t | 0 <= t < |s.rounds| :: s'.rounds[t].jobs == s.rounds[t].jobs
    ensures JobsOk(s')
  {
    forall u: nat, i: nat | Has(s', u, i)
      ensures JobOk(s', At(s', u, i))
    {
      assert Has(s, u, i);
      JobGrows(s, s', At(s, u, i));
    }
  }


  /** The maps only grow, so what the other jobs know stays known. */
  lemma JobMoved(s: State, s': State, t: nat, j: nat)
    requires JobsOk(s) && Has(s, t, j) && Has(s', t, j)
    requires s'.rounds == s.rounds[t := s'.rounds[t]] && s'.rounds[t].jobs == s.rounds[t].jobs[j := At(s', t, j)]
    requires s.gauge.Keys <= s'.gauge.Keys && s.counter.Keys <= s'.counter.Keys
    requires JobOk(s', At(s', t, j))
    ensures JobsOk(s')
  {
    forall u: nat, i: nat | Has(s', u, i)
      ensures JobOk(s', At(s', u, i))
    {
      if (u, i) != (t, j) {
        assert Has(s, u, i) && At(s', u, i) == At(s, u, i);
        JobGrows(s, s', At(s, u, i));
      }
    }
  }

  lemma JobGrows(s: State, s': State, job: Job)
    requires s.gauge.Keys <= s'.gauge.Keys && s.counter.Keys <= s'.counter.Keys && JobOk(s, job)
    ensures JobOk(s', job)
  {
  }

  lemma JobSets(s: State, t: nat, j: nat, v: Float64)
    requires JobsOk(s) && Enabled(s, SetNext(t, j, v))
    ensures JobsOk(Step(s, SetNext(t, j, v)))
  {
    var s' := Step(s, SetNext(t, j, v));
    var job := At(s, t, j);
    assert JobOk(s, job);
    JobGrows(s, s', job);
    assert forall k | k in job.stage.left :: k == job.stage.left[0] || k in job.stage.left[1..];
    JobMoved(s, s', t, j);
  }

  lemma MapsKept(s: State, a: Action)
    requires JobsOk(s) && MapsOk(s) && Enabled(s, a)
    ensures MapsOk(Step(s, a))
  {
    if a.SetNext? {
      var job := At(s, a.t, a.j);
      assert JobOk(s, job);
      assert job.stage.left[0] in job.stage.left;
      assert job.stage.left[0] in job.names;
    }
  }

  lemma NamesKept(s: State, a: Action)
    requires ShapeOk(s) && JobsOk(s) && NamesOk(s) && Enabled(s, a)
    ensures NamesOk(Step(s, a))
  {
    hide GopsNames, CoreNames, JobsOk, ShapeOk;
    if a.SetNext? {
      SetsOwnName(s, a.t, a.j);
    }
  }

  lemma SetsOwnName(s: State, t: nat, j: nat)
    requires ShapeOk(s) && JobsOk(s) && Has(s, t, j) && At(s, t, j).stage.Writing? && At(s, t, j).stage.left != []
    ensures At(s, t, j).onGauge ==> At(s, t, j).stage.left[0] in GopsNames(s.cores) + RUNTIME_NAMES
  {
    hide GopsNames;
    var job := At(s, t, j);
    assert JobOk(s, job) && job.(stage := Unborn) == OneOf(s.cores, j);
    assert job.stage.left[0] in job.stage.left;
    assert job.stage.left[0] in job.names;
  }

  lemma StepKeeps(s: State, a: Action)
    requires Inv(s) && Enabled(s, a)
    ensures Inv(Step(s, a))
  {
    hide CountsLive, LocksOk, ShapeOk, JobsOk, MapsOk, NamesOk, Step, Enabled;
    CountsRounds(s);
    CountsKept(s, a);
    LocksKept(s, a);
    ShapeKept(s, a);
    JobsKept(s, a);
    MapsKept(s, a);
    NamesKept(s, a);
  }

  lemma CountsRounds(s: State)
    requires CountsLive(s)
    ensures RoundsOk(s.rounds)
  {
  }

  lemma InitEstablishes(s: State)
    requires Init(s)
    ensures Inv(s)
  {
    assert forall g, t: nat, j: nat :: !Writes(s, g, t, j);
  }

  lemma ReachableInv(s: State)
    requires Reachable(s)
    ensures Inv(s)
  {
    hide Inv, Init;
    var s0, actions :| Init(s0) && Runs(s0, actions) && After(s0, actions) == s;
    InitEstablishes(s0);
    RunKeeps(s0, actions);
  }

  // ----- what a run guarantees

  /** Two jobs never write the same map at once, nor one while it is read. */
  lemma WritersExcludeEachOther(s: State, t: nat, j: nat, u: nat, i: nat)
    requires Reachable(s) && Has(s, t, j) && At(s, t, j).stage.Writing?
    ensures LockOf(s, At(s, t, j).onGauge).readers == 0
    ensures Has(s, u, i) && At(s, u, i).stage.Writing? && At(s, u, i).onGauge == At(s, t, j).onGauge ==> (u, i) == (t, j)
  {
    hide CountsLive, ShapeOk, JobsOk, MapsOk;
    ReachableInv(s);
    assert Writes(s, At(s, t, j).onGauge, t, j);
    if Has(s, u, i) && At(s, u, i).stage.Writing? && At(s, u, i).onGauge == At(s, t, j).onGauge {
      assert Writes(s, At(s, u, i).onGauge, u, i);
    }
  }

  ghost predicate AllFinished(s: State, t: nat) {
    t < |s.rounds| && forall j: nat | Has(s, t, j) :: At(s, t, j).stage == Finished
  }

  lemma EndedFinished(s: State, t: nat)
    requires CountsLive(s) && t < |s.rounds| && s.rounds[t].stage == Ended
    ensures AllFinished(s, t)
  {
    assert RoundOk(s.rounds[t]);
    TotalZero(LiveJob, s.rounds[t].jobs);
    forall j: nat | Has(s, t, j)
      ensures At(s, t, j).stage == Finished
    {
      assert LiveJob(s.rounds[t].jobs[j]) == 0;
    }
  }

  /** When `Monitor` returns, none of the goroutines it caused is alive and none of them holds a lock. */
  lemma NothingLeftAtReturn(s: State)
    requires Reachable(s) && s.phase == Returned
    ensures forall t | 0 <= t < |s.rounds| :: s.rounds[t].stage == Ended && AllFinished(s, t)
    ensures forall g :: LockOf(s, g).writer == None
  {
    hide ShapeOk, JobsOk, MapsOk, RoundOk, Total;
    ReachableInv(s);
    TotalZero(LiveRound, s.rounds);
    forall t | 0 <= t < |s.rounds|
      ensures s.rounds[t].stage == Ended && AllFinished(s, t)
    {
      assert LiveRound(s.rounds[t]) == 0;
      EndedFinished(s, t);
    }
    forall g
      ensures LockOf(s, g).writer == None
    {
      if LockOf(s, g).writer.Some? {
        HolderWrites(s, g);
        assert false;
      }
    }
  }

  lemma HolderWrites(s: State, g: bool)
    requires LocksOk(s) && LockOf(s, g).writer.Some?
    ensures Writes(s, g, LockOf(s, g).writer.value.0, LockOf(s, g).writer.value.1)
  {
  }

  /** `PollCount` is absent or 1, there are no other metrics than those of the three jobs, and from the end of the first
      `Stats` on all of them are there to report. */
  lemma ReportsAreComplete(s: State)
    requires Reachable(s)
    ensures s.counter == map[] || s.counter == map[POLL_COUNT := 1]
    ensures "" !in s.gauge && forall k | k in s.gauge :: k in GopsNames(s.cores) + RUNTIME_NAMES
    ensures (exists t: nat :: t < |s.rounds| && s.rounds[t].stage == Ended) ==>
              POLL_COUNT in s.counter && forall k | k in GopsNames(s.cores) + RUNTIME_NAMES :: k in s.gauge
  {
    ReachableInv(s);
    if t: nat :| t < |s.rounds| && s.rounds[t].stage == Ended {
      EndedFinished(s, t);
      EndedKnows(s, t);
    }
  }

  lemma EndedKnows(s: State, t: nat)
    requires RoundsOk(s.rounds) && ShapeOk(s) && JobsOk(s) && AllFinished(s, t)
    ensures POLL_COUNT in s.counter && forall k | k in GopsNames(s.cores) + RUNTIME_NAMES :: k in s.gauge
  {
    hide Total, GopsNames;
    assert RoundOk(s.rounds[t]);
    assert Has(s, t, 0) && Has(s, t, 1) && Has(s, t, 2);
    var names0, names1, names2 := At(s, t, 0).names, At(s, t, 1).names, At(s, t, 2).names;
    assert OneOf(s.cores, 0).names == names0 && OneOf(s.cores, 1).names == names1 && OneOf(s.cores, 2).names == names2;
    assert JobOk(s, At(s, t, 0)) && JobOk(s, At(s, t, 1)) && JobOk(s, At(s, t, 2));
    assert POLL_COUNT in names2;
  }

  // ----- shutdown terminates

  function JobWeight(job: Job): nat {
    match job.stage
    case Unborn => |job.names| + 4
    case Gathering => |job.names| + 4
    case Writing(left) => |left| + 3
    case Leaving => 2
    case Finished => 0
  }

  function RoundWeight(round: Round): nat {
    Total(JobWeight, round.jobs) + match round.stage case Fresh => 2 case Joining => 1 case Ended => 0
  }

  function Measure(s: State): nat {
    Total(RoundWeight, s.rounds) + s.gaugeLock.readers + s.counterLock.readers
    + match s.phase case Monitoring => 2 case AwaitRounds => 1 case Returned => 0
  }

  lemma MoveLowers(s: State, s': State, t: nat, j: nat)
    requires Has(s, t, j) && Has(s', t, j) && s'.rounds == s.rounds[t := s'.rounds[t]]
    requires s'.rounds[t].stage == s.rounds[t].stage && s'.rounds[t].jobs == s.rounds[t].jobs[j := At(s', t, j)]
    requires JobWeight(At(s', t, j)) < JobWeight(At(s, t, j))
    ensures Total(RoundWeight, s'.rounds) < Total(RoundWeight, s.rounds)
  {
    TotalUpdate(JobWeight, s.rounds[t].jobs, j, At(s', t, j));
    TotalUpdate(RoundWeight, s.rounds, t, s'.rounds[t]);
  }

  lemma ForkLowers(s: State, t: nat)
    requires RoundsOk(s.rounds) && ShapeOk(s) && Enabled(s, Fork(t))
    ensures Total(RoundWeight, Step(s, Fork(t)).rounds) < Total(RoundWeight, s.rounds)
  {
    hide GopsNames;
    assert RoundOk(s.rounds[t]);
    assert Has(s, t, 0) && Has(s, t, 1) && Has(s, t, 2);
    assert At(s, t, 0) == OneOf(s.cores, 0) && At(s, t, 1) == OneOf(s.cores, 1) && At(s, t, 2) == OneOf(s.cores, 2);
    var forked := Round(Joining, 3, Jobs(s.cores, Gathering));
    TotalOfThree(JobWeight, s.rounds[t].jobs);
    TotalOfThree(JobWeight, forked.jobs);
    TotalUpdate(RoundWeight, s.rounds, t, forked);
  }

  lemma JobLowers(s: State, a: Action)
    requires LocksOk(s) && OnJob(a) && Enabled(s, a)
    ensures Measure(Step(s, a)) < Measure(s)
  {
    hide Total, LocksOk, RoundWeight;
    WritesWhileHeld(s, a.t, a.j);
    MoveLowers(s, Step(s, a), a.t, a.j);
  }

  /** After cancellation every step brings the end nearer, except that a report reader may still come. */
  lemma EveryStepDecreases(s: State, a: Action)
    requires Inv(s) && s.phase != Monitoring && Enabled(s, a)
    ensures Step(s, a).phase != Monitoring
    ensures if a.ReadLock? then Measure(Step(s, a)) == Measure(s) + 1 else Measure(Step(s, a)) < Measure(s)
  {
    hide Total, LocksOk, JobsOk, MapsOk, ShapeOk, Jobs, RoundsOk, RoundWeight;
    if OnJob(a) {
      hide Measure;
      JobLowers(s, a);
    } else if a.Fork? {
      ForkLowers(s, a.t);
    } else if a.Join? {
      JoinLowers(s, a.t);
    }
  }

  lemma JoinLowers(s: State, t: nat)
    requires Enabled(s, Join(t))
    ensures Total(RoundWeight, Step(s, Join(t)).rounds) < Total(RoundWeight, s.rounds)
  {
    TotalUpdate(RoundWeight, s.rounds, t, s.rounds[t].(stage := Ended));
  }

  ghost predicate Moves(s: State, a: Action) {
    Enabled(s, a) && !a.ReadLock?
  }

  lemma LiveJobMoves(s: State, t: nat, j: nat)
    requires LocksOk(s) && Has(s, t, j) && LiveJob(At(s, t, j)) == 1
    ensures exists a :: Moves(s, a)
  {
    var job := At(s, t, j);
    var lock := LockOf(s, job.onGauge);
    if job.stage == Leaving {
      assert Moves(s, Done(t, j));
    } else if job.stage.Writing? {
      WritingMoves(s, t, j);
    } else if lock.readers > 0 {
      assert Moves(s, ReadUnlock(job.onGauge));
    } else if lock.writer == None {
      assert Moves(s, Acquire(t, j));
    } else {
      var (u, i) := lock.writer.value;
      assert Writes(s, job.onGauge, u, i);
      WritingMoves(s, u, i);
    }
  }

  /** A writing job can always go on, with whatever it measured. */
  lemma WritingMoves(s: State, t: nat, j: nat)
    requires Has(s, t, j) && At(s, t, j).stage.Writing?
    ensures exists a :: Moves(s, a)
    ensures At(s, t, j).stage.left != [] ==> forall v :: Moves(s, SetNext(t, j, v))
  {
    if At(s, t, j).stage.left == [] {
      assert Moves(s, Release(t, j));
    } else {
      assert Moves(s, SetNext(t, j, 0));
    }
  }

  /** Until `Monitor` has returned, something other than a new reader can move. */
  lemma NoDeadlock(s: State)
    requires Reachable(s) && s.phase == AwaitRounds
    ensures exists a :: Moves(s, a)
  {
    ReachableInv(s);
    InvMoves(s);
  }

  lemma InvMoves(s: State)
    requires Inv(s) && s.phase == AwaitRounds
    ensures exists a :: Moves(s, a)
  {
    hide ShapeOk, JobsOk, MapsOk, NamesOk;
    TotalZero(LiveRound, s.rounds);
    if s.tickerWG == 0 {
      assert Moves(s, Return);
    } else {
      var t: nat :| t < |s.rounds| && LiveRound(s.rounds[t]) != 0;
      RoundMoves(s, t);
    }
  }

  lemma RoundMoves(s: State, t: nat)
    requires RoundsOk(s.rounds) && LocksOk(s) && t < |s.rounds| && s.rounds[t].stage != Ended
    ensures exists a :: Moves(s, a)
  {
    assert RoundOk(s.rounds[t]);
    TotalZero(LiveJob, s.rounds[t].jobs);
    if s.rounds[t].stage == Fresh {
      assert Moves(s, Fork(t));
    } else if s.rounds[t].wg == 0 {
      assert Moves(s, Join(t));
    } else {
      var j: nat :| j < |s.rounds[t].jobs| && LiveJob(s.rounds[t].jobs[j]) != 0;
      LiveJobMoves(s, t, j);
    }
  }

  function Arrivals(actions: seq<Action>): nat {
    if actions == [] then 0 else Arrivals(actions[1..]) + if actions[0].ReadLock? then 1 else 0
  }

  /** A shutdown with finitely many readers is finite. */
  lemma {:induction false} ShutdownBounded(s: State, actions: seq<Action>)
    requires Inv(s) && s.phase != Monitoring && Runs(s, actions)
    ensures |actions| + Measure(After(s, actions)) <= Measure(s) + 2 * Arrivals(actions)
    decreases |actions|
  {
    hide Inv, Measure;
    if actions != [] {
      EveryStepDecreases(s, actions[0]);
      StepKeeps(s, actions[0]);
      ShutdownBounded(Step(s, actions[0]), actions[1..]);
    }
  }

  /** Once the context was cancelled and nothing but a new reader can move, `Monitor` has returned, and as many rounds
      as there were ticks have run to their end. */
  lemma ShutdownCompletes(s0: State, actions: seq<Action>)
    requires Init(s0) && Runs(s0, actions) && Cancel in actions
    requires forall a :: !Moves(After(s0, actions), a)
    ensures var s := After(s0, actions);
            s.phase == Returned && |s.rounds| == Ticks(actions)
            && (forall t | 0 <= t < |s.rounds| :: s.rounds[t].stage == Ended && AllFinished(s, t))
            && (Ticks(actions) > 0 ==>
                  POLL_COUNT in s.counter && forall k | k in GopsNames(s.cores) + RUNTIME_NAMES :: k in s.gauge)
  {
    hide Moves, Inv, GopsNames;
    var s := After(s0, actions);
    assert Reachable(s);
    TicksStart(s0, actions);
    MonitoringUntilCancel(s0, actions);
    if s.phase == AwaitRounds {
      NoDeadlock(s);
    }
    NothingLeftAtReturn(s);
    ReportsAreComplete(s);
    if |s.rounds| > 0 {
      assert s.rounds[0].stage == Ended;
    }
  }

  // ----- such runs exist

  lemma {:induction false} RunsOn(s: State, first: seq<Action>, second: seq<Action>)
    requires Runs(s, first) && Runs(After(s, first), second)
    ensures Runs(s, first + second) && After(s, first + second) == After(After(s, first), second)
    ensures Ticks(first + second) == Ticks(first) + Ticks(second)
    decreases |first|
  {
    hide Step, Enabled;
    if first == [] {
      assert first + second == second;
    } else {
      assert (first + second)[1..] == first[1..] + second;
      RunsOn(Step(s, first[0]), first[1..], second);
    }
  }

  lemma {:induction false} TickAway(s: State, n: nat) returns (actions: seq<Action>)
    requires s.phase == Monitoring
    ensures Runs(s, actions) && Ticks(actions) == n && After(s, actions).phase == Monitoring
    decreases n
  {
    hide Jobs;
    actions := [];
    if n > 0 {
      var rest := TickAway(Step(s, Tick), n - 1);
      actions := [Tick] + rest;
      assert actions[1..] == rest;
    }
  }

  lemma {:induction false} RunOut(s: State) returns (actions: seq<Action>)
    requires Inv(s) && s.phase != Monitoring
    ensures Runs(s, actions) && Ticks(actions) == 0 && forall a :: !Moves(After(s, actions), a)
    decreases Measure(s)
  {
    hide Inv, Measure, Step;
    actions := [];
    if a :| Moves(s, a) {
      EveryStepDecreases(s, a);
      StepKeeps(s, a);
      var rest := RunOut(Step(s, a));
      actions := [a] + rest;
      assert actions[1..] == rest;
    }
  }

  /** However many ticks come, their rounds can all run to the end. */
  lemma AnyTicksCanBeCollected(s0: State, n: nat) returns (actions: seq<Action>)
    requires Init(s0)
    ensures Runs(s0, actions) && Ticks(actions) == n && Cancel in actions
    ensures forall a :: !Moves(After(s0, actions), a)
  {
    hide Moves, Inv, Jobs, Init;
    InitEstablishes(s0);
    InitMonitors(s0);
    var first := TickAway(s0, n);
    RunKeeps(s0, first);
    var s := After(s0, first);
    StepKeeps(s, Cancel);
    var last := RunOut(Step(s, Cancel));
    assert ([Cancel] + last)[1..] == last;
    RunsOn(s0, first, [Cancel] + last);
    actions := first + ([Cancel] + last);
  }

  lemma InitMonitors(s: State)
    requires Init(s)
    ensures s.phase == Monitoring
  {
  }
}
