/** Histories of the PostgreSQL back end, with other operations between the attempts of each, and how they refine the
    in-memory store (internal/repo/pgsql/pgsql.go, internal/repo/memory/memory.go). */
module PgHistory {
  import opened Wrappers
  import opened Int64
  import opened Mondata
  import opened Pgsql

  datatype Op = Write(call: Call) | GetGauge(name: string) | GetCounter(name: string) | AllGauges | AllCounters

  datatype Reply =
    | Done | Failed
    | GaugeIs(gauge: Option<Float64>) | CounterIs(counter: Option<int64>)
    | GaugesAre(gauges: GaugeMap) | CountersAre(counters: CounterMap)

  /** One attempt at an operation: how many steps of the history came before it, its faults, the order of the rows
      of a write, and the rows that a bulk read is delivered before its iteration ends, early or not. */
  datatype Try = Try(at: nat, faults: Faults, order: seq<string>, rows: set<string>)

  /** One operation: its attempts, its reply and the tables after it.  It has its place in the history where its last
      attempt is; other operations may come between its attempts. */
  datatype Step = Step(op: Op, tries: seq<Try>, reply: Reply, tables: Store)

  ghost predicate TryOk(store: Store, op: Op, t: Try) {
    match op
    case Write(call) => ListsCall(t.order, call) && Ranges(t.order, call)
    case GetGauge(_) => Foreign(t.faults)
    case GetCounter(_) => Foreign(t.faults)
    case AllGauges => t.rows <= store.gauge.Keys
    case AllCounters => t.rows <= store.counter.Keys
  }

  /** The error of one attempt at a bulk read; an early end of the iteration is none. */
  function ReadRows(f: Faults): Option<Error> {
    if f.begin.Some? then Some(Wrapped(f.begin.value))
    else if f.exec.Some? then Some(f.exec.value.1)
    else if f.commit.Some? then Some(Wrapped(f.commit.value))
    else None
  }

  ghost function TryError(store: Store, op: Op, t: Try): Option<Error>
    requires TryOk(store, op, t)
  {
    match op
    case Write(call) => ErrorOf(TryOnce(store, call, t.order, t.faults))
    case GetGauge(name) => ReadRow(store.gauge, name, t.faults)
    case GetCounter(name) => ReadRow(store.counter, name, t.faults)
    case AllGauges => ReadRows(t.faults)
    case AllCounters => ReadRows(t.faults)
  }

  /** `past` lists the tables at every point of the history so far; the attempts meet them in this order, the last
      one the present. */
  ghost predicate TriesOk(past: seq<Store>, op: Op, tries: seq<Try>) {
    && past != [] && tries != [] && tries[|tries| - 1].at == |past| - 1
    && (forall i, j | 0 <= i < j < |tries| :: tries[i].at <= tries[j].at)
    && forall i | 0 <= i < |tries| :: tries[i].at < |past| && TryOk(past[tries[i].at], op, tries[i])
  }

  ghost function TryOutcomes(past: seq<Store>, op: Op, tries: seq<Try>): seq<Outcome>
    requires TriesOk(past, op, tries)
  {
    seq(|tries|, i requires 0 <= i < |tries| =>
      Outcome(TryError(past[tries[i].at], op, tries[i]), tries[i].faults.cut))
  }

  ghost function GaugesOf(past: seq<Store>): seq<GaugeMap> {
    seq(|past|, i requires 0 <= i < |past| => past[i].gauge)
  }

  ghost function CountersOf(past: seq<Store>): seq<CounterMap> {
    seq(|past|, i requires 0 <= i < |past| => past[i].counter)
  }

  ghost function AttemptsOf<V>(tables: seq<map<string, V>>, tries: seq<Try>): seq<ReadAttempt<V>>
    requires forall i | 0 <= i < |tries| :: tries[i].at < |tables|
  {
    seq(|tries|, i requires 0 <= i < |tries| =>
      ReadAttempt(tables[tries[i].at], tries[i].rows, ReadRows(tries[i].faults), tries[i].faults.cut))
  }

  /** What the caller of a row getter makes of the row in the table and the final error. */
  function RowReply<V>(table: map<string, V>, name: string, err: Option<Error>): Option<Option<V>> {
    if err.None? && name in table then Some(Some(table[name]))
    else if err.Some? && IsNoRows(err.value) then Some(None)
    else None
  }

  ghost function ReplyOf(past: seq<Store>, op: Op, tries: seq<Try>, err: Option<Error>): Reply
    requires TriesOk(past, op, tries)
  {
    var now := past[|past| - 1];
    match op
    case Write(_) => if err.None? then Done else Failed
    case GetGauge(name) => (match RowReply(now.gauge, name, err) case None => Failed case Some(v) => GaugeIs(v))
    case GetCounter(name) => (match RowReply(now.counter, name, err) case None => Failed case Some(v) => CounterIs(v))
    case AllGauges => if err.None? then GaugesAre(Gathered(AttemptsOf(GaugesOf(past), tries))) else Failed
    case AllCounters => if err.None? then CountersAre(Gathered(AttemptsOf(CountersOf(past), tries))) else Failed
  }

  /** The step is an execution of its operation under the retry policy. */
  ghost predicate StepOf(past: seq<Store>, s: Step) {
    && TriesOk(past, s.op, s.tries)
    && var run := Execute(TryOutcomes(past, s.op, s.tries), 0, 0, MAX_RETRIES);
    && var now, last := past[|past| - 1], s.tries[|s.tries| - 1];
    && run.attempts == |s.tries|
    && s.reply == ReplyOf(past, s.op, s.tries, run.err)
    && s.tables == if s.op.Write? && run.err.None?
                   then (match TryOnce(now, s.op.call, last.order, last.faults) case Ok(t) => t case Err(_) => now)
                   else now
  }

  /** The tables after the first `n` steps. */
  function TablesAt(start: Store, steps: seq<Step>, n: nat): Store
    requires n <= |steps|
  {
    if n == 0 then start else steps[n - 1].tables
  }

  ghost function Past(start: Store, steps: seq<Step>, n: nat): (past: seq<Store>)
    requires n <= |steps|
    ensures |past| == n + 1 && past[n] == TablesAt(start, steps, n)
  {
    seq(n + 1, i requires 0 <= i <= n => TablesAt(start, steps, i))
  }

  ghost predicate History(start: Store, steps: seq<Step>) {
    forall i | 0 <= i < |steps| :: StepOf(Past(start, steps, i), steps[i])
  }

  lemma HistoryAt(start: Store, steps: seq<Step>, i: nat)
    requires History(start, steps) && i < |steps|
    ensures StepOf(Past(start, steps, i), steps[i])
  {
  }

  /** An execution ends as its last attempt did, but for the error of a wait that was cut short. */
  lemma FinalError(past: seq<Store>, s: Step)
    requires StepOf(past, s)
    ensures var run := Execute(TryOutcomes(past, s.op, s.tries), 0, 0, MAX_RETRIES);
            var err := TryError(past[|past| - 1], s.op, s.tries[|s.tries| - 1]);
            run.err == err || (run.err == Some(Canceled) && err.Some? && IsRetryable(err))
  {
    hide TryError, IsRetryable;
    NoneFinal();
    var outcomes := TryOutcomes(past, s.op, s.tries);
    ExecuteMeetsPolicy(outcomes, 0, 0, MAX_RETRIES);
    assert OutcomeAt(outcomes, |s.tries| - 1).err == TryError(past[|past| - 1], s.op, s.tries[|s.tries| - 1]);
  }

  /** An operation fails exactly if its last attempt does: a write if the batch cannot be stored or a fault met it, a row
      getter if a fault met it before the row was found missing, a bulk read if any fault met it. */
  lemma StepFailsIff(past: seq<Store>, s: Step)
    requires StepOf(past, s)
    ensures TriesOk(past, s.op, s.tries)
    ensures s.reply == Failed <==>
            var (now, f) := (past[|past| - 1], s.tries[|s.tries| - 1].faults);
            match s.op
            case Write(call) =>
              !Storable(now, call) || f.begin.Some? || f.commit.Some? || (f.exec.Some? && f.exec.value.0 < |RowNames(call)|)
            case GetGauge(name) => f.begin.Some? || f.exec.Some? || (name in now.gauge && f.commit.Some?)
            case GetCounter(name) => f.begin.Some? || f.exec.Some? || (name in now.counter && f.commit.Some?)
            case _ => !FaultFree(f)
  {
    hide TryOutcomes, Execute, TryOnce, Storable, Gathered, AttemptsOf, Perform, IsRetryable;
    FinalError(past, s);
    var last := s.tries[|s.tries| - 1];
    if s.op.Write? {
      TryOnceIs(past[|past| - 1], s.op.call, last.order, last.faults);
    } else {
      NotRetryable(TryError(past[|past| - 1], s.op, last));
    }
  }

  // ----- both back ends side by side

  function Answer(store: Store, op: Op): Reply {
    match op
    case Write(_) => Done
    case GetGauge(name) => GaugeIs(Find(store.gauge, name))
    case GetCounter(name) => CounterIs(Find(store.counter, name))
    case AllGauges => GaugesAre(store.gauge)
    case AllCounters => CountersAre(store.counter)
  }

  /** A write that reports success has performed the call of the memory store, once; any other has changed nothing. */
  lemma WriteStep(past: seq<Store>, s: Step)
    requires StepOf(past, s) && s.op.Write?
    ensures var now := past[|past| - 1];
            (s.reply == Failed && s.tables == now)
            || (s.reply == Done && Storable(now, s.op.call) && s.tables == Perform(now, s.op.call))
  {
    hide TryOnce, Storable, Perform, TryOutcomes, Execute;
    FinalError(past, s);
    var last := s.tries[|s.tries| - 1];
    TryOnceIs(past[|past| - 1], s.op.call, last.order, last.faults);
  }

  /** A row getter answers with the row as it is where its last attempt is, or fails. */
  lemma RowStep(past: seq<Store>, s: Step)
    requires StepOf(past, s) && (s.op.GetGauge? || s.op.GetCounter?)
    ensures s.tables == past[|past| - 1]
    ensures s.reply == Failed || s.reply == Answer(past[|past| - 1], s.op)
  {
    hide TryOutcomes, Execute, TryOnce;
    FinalError(past, s);
    var now, last := past[|past| - 1], s.tries[|s.tries| - 1];
    if s.op.GetGauge? {
      RowAnswer(now.gauge, s.op.name, last.faults, Execute(TryOutcomes(past, s.op, s.tries), 0, 0, MAX_RETRIES).err);
    } else {
      RowAnswer(now.counter, s.op.name, last.faults, Execute(TryOutcomes(past, s.op, s.tries), 0, 0, MAX_RETRIES).err);
    }
  }

  lemma RowAnswer<V>(table: map<string, V>, name: string, f: Faults, err: Option<Error>)
    requires Foreign(f)
    requires err == ReadRow(table, name, f) || (err == Some(Canceled) && ReadRow(table, name, f).Some?)
    ensures RowReply(table, name, err).Some? ==> RowReply(table, name, err) == Some(Find(table, name))
  {
  }

  lemma BulkStep(past: seq<Store>, s: Step)
    requires StepOf(past, s) && (s.op.AllGauges? || s.op.AllCounters?)
    ensures s.tables == past[|past| - 1]
    ensures s.reply == Failed
            || s.reply == (if s.op.AllGauges? then GaugesAre(Gathered(AttemptsOf(GaugesOf(past), s.tries)))
                           else CountersAre(Gathered(AttemptsOf(CountersOf(past), s.tries))))
  {
    hide Execute, Gathered, TryOutcomes, AttemptsOf;
  }

  lemma PerformKeepsNames(store: Store, call: Call)
    ensures store.gauge.Keys <= Perform(store, call).gauge.Keys
    ensures store.counter.Keys <= Perform(store, call).counter.Keys
  {
  }

  /** No step loses a name. */
  lemma StepKeepsNames(past: seq<Store>, s: Step)
    requires StepOf(past, s)
    ensures past[|past| - 1].gauge.Keys <= s.tables.gauge.Keys
    ensures past[|past| - 1].counter.Keys <= s.tables.counter.Keys
  {
    hide StepOf, Perform;
    match s.op
    case Write(call) =>
      WriteStep(past, s);
      StepTries(past, s);
      PerformKeepsNames(past[|past| - 1], call);
    case GetGauge(_) => RowStep(past, s);
    case GetCounter(_) => RowStep(past, s);
    case AllGauges => BulkStep(past, s);
    case AllCounters => BulkStep(past, s);
  }

  lemma {:induction false} NamesOnlyGrow(start: Store, steps: seq<Step>, i: nat, j: nat)
    requires History(start, steps) && i <= j <= |steps|
    ensures TablesAt(start, steps, i).gauge.Keys <= TablesAt(start, steps, j).gauge.Keys
    ensures TablesAt(start, steps, i).counter.Keys <= TablesAt(start, steps, j).counter.Keys
    decreases j
  {
    hide StepOf, History, Past;
    if i < j {
      NamesOnlyGrow(start, steps, i, j - 1);
      HistoryAt(start, steps, j - 1);
      StepKeepsNames(Past(start, steps, j - 1), steps[j - 1]);
    }
  }

  /** The bulk reads, on either table, whose result is complete in the sense of `Complete`; other operations are. */
  ghost predicate CompleteStep(past: seq<Store>, s: Step)
    requires TriesOk(past, s.op, s.tries)
  {
    match s.op
    case AllGauges => Complete(AttemptsOf(GaugesOf(past), s.tries))
    case AllCounters => Complete(AttemptsOf(CountersOf(past), s.tries))
    case _ => true
  }

  ghost predicate TablesGain<V>(tables: seq<map<string, V>>) {
    forall i, j | 0 <= i <= j < |tables| :: tables[i].Keys <= tables[j].Keys
  }

  lemma BulkReadIff<V>(tables: seq<map<string, V>>, tries: seq<Try>)
    requires tables != [] && tries != [] && TablesGain(tables) && tries[|tries| - 1].at == |tables| - 1
    requires forall i, j | 0 <= i < j < |tries| :: tries[i].at <= tries[j].at
    requires forall i | 0 <= i < |tries| :: tries[i].at < |tables| && tries[i].rows <= tables[tries[i].at].Keys
    ensures Gathered(AttemptsOf(tables, tries)) == tables[|tables| - 1] <==> Complete(AttemptsOf(tables, tries))
    ensures tries[|tries| - 1].rows == tables[|tables| - 1].Keys ==> Complete(AttemptsOf(tables, tries))
  {
    hide Gathered, Complete;
    var attempts := AttemptsOf(tables, tries);
    assert attempts[|attempts| - 1].table == tables[|tables| - 1];
    RetriedReadIff(attempts);
  }

  /** Whatever other operations commit between its attempts, a bulk read of either table that succeeds returns the
      table if and only if it is complete - in particular if its last attempt was delivered every row, although the
      rows of the failed attempts were kept. */
  lemma RetriedReadAmongCommits(start: Store, steps: seq<Step>, i: nat)
    requires History(start, steps) && i < |steps| && steps[i].reply != Failed
    requires steps[i].op.AllGauges? || steps[i].op.AllCounters?
    ensures StepOf(Past(start, steps, i), steps[i])
    ensures steps[i].reply == Answer(TablesAt(start, steps, i), steps[i].op)
            <==> CompleteStep(Past(start, steps, i), steps[i])
    ensures var now, rows := TablesAt(start, steps, i), steps[i].tries[|steps[i].tries| - 1].rows;
            rows == (if steps[i].op.AllGauges? then now.gauge.Keys else now.counter.Keys) ==>
              steps[i].reply == Answer(now, steps[i].op)
  {
    hide History, Past, StepOf, Gathered, Complete, AttemptsOf;
    var past, s := Past(start, steps, i), steps[i];
    HistoryAt(start, steps, i);
    PastGains(start, steps, i);
    BulkStep(past, s);
    BulkTries(past, s);
    if s.op.AllGauges? {
      BulkReadIff(GaugesOf(past), s.tries);
    } else {
      BulkReadIff(CountersOf(past), s.tries);
    }
  }

  lemma PastGains(start: Store, steps: seq<Step>, i: nat)
    requires History(start, steps) && i < |steps|
    ensures TablesGain(GaugesOf(Past(start, steps, i))) && TablesGain(CountersOf(Past(start, steps, i)))
  {
    hide History, StepOf, TablesAt;
    var past := Past(start, steps, i);
    forall a, b | 0 <= a <= b < |past|
      ensures past[a].gauge.Keys <= past[b].gauge.Keys && past[a].counter.Keys <= past[b].counter.Keys
    {
      NamesOnlyGrow(start, steps, a, b);
    }
  }

  lemma BulkTries(past: seq<Store>, s: Step)
    requires StepOf(past, s) && (s.op.AllGauges? || s.op.AllCounters?)
    ensures TriesOk(past, s.op, s.tries)
    ensures forall i | 0 <= i < |s.tries| ::
              s.tries[i].rows <= if s.op.AllGauges? then past[s.tries[i].at].gauge.Keys else past[s.tries[i].at].counter.Keys
  {
    hide Execute, TryOutcomes, Gathered, AttemptsOf;
  }

  /** A memory store that is given the first `n` operations, except those that failed. */
  function MemoryAt(start: Store, steps: seq<Step>, n: nat): Store
    requires n <= |steps|
  {
    if n == 0 then start
    else if steps[n - 1].op.Write? && steps[n - 1].reply != Failed then
      Perform(MemoryAt(start, steps, n - 1), steps[n - 1].op.call)
    else MemoryAt(start, steps, n - 1)
  }

  /** Whatever happens to the transactions, at every point of a history the tables are the maps of a memory store that
      was given exactly the operations that reported success. */
  lemma {:induction false} TablesAgree(start: Store, steps: seq<Step>, n: nat)
    requires History(start, steps) && n <= |steps|
    ensures MemoryAt(start, steps, n) == TablesAt(start, steps, n)
    decreases n
  {
    hide StepOf, Perform, Storable, History, Past;
    if n > 0 {
      TablesAgree(start, steps, n - 1);
      HistoryAt(start, steps, n - 1);
      var past, s := Past(start, steps, n - 1), steps[n - 1];
      match s.op
      case Write(_) => WriteStep(past, s);
      case GetGauge(_) => RowStep(past, s);
      case GetCounter(_) => RowStep(past, s);
      case AllGauges => BulkStep(past, s);
      case AllCounters => BulkStep(past, s);
    }
  }

  lemma StepTries(past: seq<Store>, s: Step)
    requires StepOf(past, s)
    ensures TriesOk(past, s.op, s.tries)
  {
    hide Execute, TryOutcomes;
  }

  /** The replies agree too, with one exception: an operation that did not fail answers as the memory store would if
      and only if it is not a bulk read that ended early without completing its result. */
  lemma BackendsAgree(start: Store, steps: seq<Step>, i: nat)
    requires History(start, steps) && i < |steps|
    ensures MemoryAt(start, steps, i) == TablesAt(start, steps, i)
    ensures StepOf(Past(start, steps, i), steps[i])
    ensures steps[i].reply != Failed ==>
              (steps[i].reply == Answer(MemoryAt(start, steps, i), steps[i].op)
               <==> CompleteStep(Past(start, steps, i), steps[i]))
  {
    hide Perform, Storable, Complete, StepOf, History, Past;
    TablesAgree(start, steps, i);
    HistoryAt(start, steps, i);
    StepTries(Past(start, steps, i), steps[i]);
    var past, s := Past(start, steps, i), steps[i];
    match s.op
    case Write(_) => WriteStep(past, s);
    case GetGauge(_) => RowStep(past, s);
    case GetCounter(_) => RowStep(past, s);
    case AllGauges => if s.reply != Failed { RetriedReadAmongCommits(start, steps, i); }
    case AllCounters => if s.reply != Failed { RetriedReadAmongCommits(start, steps, i); }
  }

  /** A law of the driver, which the code leans on: when the rows of a bulk read end early, something in that attempt
      reports an error - at the latest its commit, which the server or the lost connection refuses. */
  ghost predicate EarlyEndFails(past: seq<Store>, s: Step) {
    forall i | 0 <= i < |s.tries| && s.tries[i].at < |past| ::
      var t, table := s.tries[i], past[s.tries[i].at];
      match s.op
      case AllGauges => t.rows == table.gauge.Keys || !FaultFree(t.faults)
      case AllCounters => t.rows == table.counter.Keys || !FaultFree(t.faults)
      case _ => true
  }

  /** A bulk read that succeeds was then delivered every row by its last attempt. */
  lemma SucceedsComplete(past: seq<Store>, s: Step)
    requires StepOf(past, s) && EarlyEndFails(past, s) && s.reply != Failed
    requires s.op.AllGauges? || s.op.AllCounters?
    ensures TriesOk(past, s.op, s.tries)
    ensures s.tries[|s.tries| - 1].rows
            == if s.op.AllGauges? then past[|past| - 1].gauge.Keys else past[|past| - 1].counter.Keys
  {
    hide Gathered, AttemptsOf, TryOutcomes, Execute;
    FinalError(past, s);
  }

  /** With a driver that keeps this law the two back ends agree without exception: over every history, every operation
      that did not fail answers as the memory store does. */
  lemma BackendsAgreeAlways(start: Store, steps: seq<Step>, i: nat)
    requires History(start, steps) && i < |steps| && steps[i].reply != Failed
    requires forall j | 0 <= j < |steps| :: EarlyEndFails(Past(start, steps, j), steps[j])
    ensures steps[i].reply == Answer(MemoryAt(start, steps, i), steps[i].op)
  {
    hide StepOf, History, Past, Complete, EarlyEndFails, TryOutcomes;
    BackendsAgree(start, steps, i);
    HistoryAt(start, steps, i);
    StepTries(Past(start, steps, i), steps[i]);
    if steps[i].op.AllGauges? || steps[i].op.AllCounters? {
      RetriedReadAmongCommits(start, steps, i);
      SucceedsComplete(Past(start, steps, i), steps[i]);
    }
  }

  /** Without the law one attempt that is delivered no row succeeds with an empty map. */
  lemma SilentTruncation(store: Store)
    requires store.gauge != map[]
    ensures var s := Step(AllGauges, [Try(0, NO_FAULTS, [], {})], GaugesAre(map[]), store);
            History(store, [s]) && s.reply != Answer(store, AllGauges)
  {
    var t := Try(0, NO_FAULTS, [], {});
    var s := Step(AllGauges, [t], GaugesAre(map[]), store);
    var past := Past(store, [s], 0);
    assert past == [store];
    assert TriesOk(past, AllGauges, [t]);
    assert OutcomeAt(TryOutcomes(past, AllGauges, [t]), 0) == Outcome(None, false);
    var attempts := AttemptsOf(GaugesOf(past), [t]);
    assert attempts == [ReadAttempt(store.gauge, {}, None, false)];
    assert attempts[..0] == [];
    assert Gathered(attempts) == map[];
  }

  ghost predicate CanWrite(past: seq<Store>, call: Call, reply: Reply, tables: Store) {
    exists s: Step :: s.op == Write(call) && s.reply == reply && s.tables == tables && StepOf(past, s)
  }

  /** The outcomes that a write can have, whatever went before: failed with the tables as they were, or storable and
      performed. */
  lemma WriteStepIff(past: seq<Store>, call: Call, reply: Reply, tables: Store)
    requires past != []
    ensures CanWrite(past, call, reply, tables) <==>
            var now := past[|past| - 1];
            (reply == Failed && tables == now)
            || (reply == Done && Storable(now, call) && tables == Perform(now, call))
  {
    var now := past[|past| - 1];
    hide StepOf, Storable, Perform;
    if s: Step :| s.op == Write(call) && s.reply == reply && s.tables == tables && StepOf(past, s) {
      WriteStep(past, s);
    }
    if reply == Failed && tables == now {
      FailedWrite(past, call);
    } else if reply == Done && Storable(now, call) && tables == Perform(now, call) {
      CommittedWrite(past, call);
    }
  }

  lemma FailedWrite(past: seq<Store>, call: Call)
    requires past != []
    ensures CanWrite(past, call, Failed, past[|past| - 1])
  {
    hide Statements;
    var order := AnyOrder(call);
    var t := Try(|past| - 1, NO_FAULTS.(begin := Some(Other)), order, {});
    assert TriesOk(past, Write(call), [t]);
    assert OutcomeAt(TryOutcomes(past, Write(call), [t]), 0) == Outcome(Some(Wrapped(Other)), false);
    assert StepOf(past, Step(Write(call), [t], Failed, past[|past| - 1]));
  }

  lemma CommittedWrite(past: seq<Store>, call: Call)
    requires past != [] && Storable(past[|past| - 1], call)
    ensures CanWrite(past, call, Done, Perform(past[|past| - 1], call))
  {
    hide TryOnce, Perform, Storable, IsRetryable;
    var now := past[|past| - 1];
    var order := AnyOrder(call);
    var t := Try(|past| - 1, NO_FAULTS, order, {});
    TryOnceIs(now, call, order, NO_FAULTS);
    NoneFinal();
    assert TriesOk(past, Write(call), [t]);
    assert OutcomeAt(TryOutcomes(past, Write(call), [t]), 0) == Outcome(None, false);
    assert StepOf(past, Step(Write(call), [t], Done, Perform(now, call)));
  }
}
