/** The PostgreSQL back end (internal/repo/pgsql/pgsql.go): the retry policy, upserts in transactions that can
    fail anywhere, and reads that start over.  What this adds up to over time is in `PgHistory`. */
module Pgsql {
  import opened Wrappers
  import opened Int64
  import opened Mondata
  import opened Counting
  import Json
  import Safe

  // ----- errors

  /** An error value: a context error, a server error with its SQLSTATE, pgx.ErrNoRows, anything else, or one
      of these wrapped by fmt.Errorf. */
  datatype Error = Canceled | DeadlineExceeded | Server(code: string) | NoRows | Other | Wrapped(inner: Error)

  /** errors.As looking for a server error. */
  function ServerCode(err: Error): Option<string> {
    match err
    case Server(code) => Some(code)
    case Wrapped(inner) => ServerCode(inner)
    case _ => None
  }

  predicate IsConnectionException(code: string) {
    code in {"08000", "08003", "08006", "08001", "08004", "08007", "08P01"}
  }

  predicate IsRetryable(err: Option<Error>) {
    match err
    case None => false
    case Some(e) =>
      e == DeadlineExceeded || e == Canceled ||
      match ServerCode(e)
      case None => false
      case Some(code) => code == "40001" || code == "40P01" || IsConnectionException(code)
  }

  /** Context errors are compared by identity, so wrapping one makes it final; a server error is found through
      any wrapping. */
  lemma WrappingAndRetry(e: Error)
    ensures IsRetryable(Some(Wrapped(e))) <==> ServerCode(e).Some? && IsRetryable(Some(e))
  {
  }

  function WrappedTimes(n: nat, e: Error): Error {
    if n == 0 then e else Wrapped(WrappedTimes(n - 1, e))
  }

  /** A serialization failure, a deadlock or one of the connection exceptions of PostgreSQL. */
  ghost predicate WorthARetry(code: string) {
    || code == "40001" || code == "40P01"
    || code == "08000" || code == "08001" || code == "08003" || code == "08004" || code == "08006" || code == "08007"
    || code == "08P01"
  }

  /** The error holds such a code, under any number of wrappings. */
  ghost predicate HoldsRetryableCode(e: Error) {
    exists n: nat, code: string :: WorthARetry(code) && e == WrappedTimes(n, Server(code))
  }

  lemma {:induction false} CodeUnderWrappings(e: Error)
    ensures HoldsRetryableCode(e) <==> ServerCode(e).Some? && WorthARetry(ServerCode(e).value)
    decreases e
  {
    if n: nat, code: string :| WorthARetry(code) && e == WrappedTimes(n, Server(code)) {
      WrappingKeepsCode(n, code);
    }
    if e.Server? && WorthARetry(e.code) {
      assert e == WrappedTimes(0, Server(e.code));
    }
    if e.Wrapped? && ServerCode(e).Some? && WorthARetry(ServerCode(e).value) {
      CodeUnderWrappings(e.inner);
      var n: nat, code: string :| WorthARetry(code) && e.inner == WrappedTimes(n, Server(code));
      assert e == WrappedTimes(n + 1, Server(code));
    }
  }

  lemma {:induction false} WrappingKeepsCode(n: nat, code: string)
    ensures ServerCode(WrappedTimes(n, Server(code))) == Some(code)
  {
    if n > 0 {
      WrappingKeepsCode(n - 1, code);
    }
  }

  /** An error is tried again exactly if it is one of the two context errors themselves or holds one of these codes. */
  lemma RetryableIff(err: Option<Error>)
    ensures IsRetryable(err) <==>
            err == Some(Canceled) || err == Some(DeadlineExceeded) || (err.Some? && HoldsRetryableCode(err.value))
  {
    hide HoldsRetryableCode;
    if err.Some? {
      CodeUnderWrappings(err.value);
    }
  }

  // ----- the retry policy

  const MAX_RETRIES: nat := 3

  /** What one attempt returned, and whether the context ended during the wait after it. */
  datatype Outcome = Outcome(err: Option<Error>, cut: bool)

  /** How an execution ended: the attempts made, the final error and the seconds waited in between. */
  datatype Run = Run(attempts: nat, err: Option<Error>, waited: nat)

  /** Attempts beyond the end of a list succeed. */
  function OutcomeAt(outcomes: seq<Outcome>, i: nat): Outcome {
    if i < |outcomes| then outcomes[i] else Outcome(None, false)
  }

  /** Goes on from the attempt with number `made`, counted from 0. */
  function Execute(outcomes: seq<Outcome>, made: nat, waited: nat, maxRetries: nat): Run
    requires made <= maxRetries
    decreases maxRetries - made
  {
    var o := OutcomeAt(outcomes, made);
    if !IsRetryable(o.err) || made == maxRetries then Run(made + 1, o.err, waited)
    else if o.cut then Run(made + 1, Some(Canceled), waited)
    else Execute(outcomes, made + 1, waited + 1 + made * 2, maxRetries)
  }

  /** With retry bound N there are at most N + 1 attempts; all but the last failed retryably; the result is that
      of the last attempt unless the context cut the wait after it; a retryable final error means the bound was
      reached; and n retries waited n * n seconds. */
  ghost predicate MeetsPolicy(outcomes: seq<Outcome>, made: nat, maxRetries: nat, run: Run) {
    && made < run.attempts <= maxRetries + 1
    && (forall i: nat | made <= i < run.attempts - 1 :: IsRetryable(OutcomeAt(outcomes, i).err))
    && var last := OutcomeAt(outcomes, run.attempts - 1);
    && (run.err == last.err || (run.err == Some(Canceled) && last.cut && IsRetryable(last.err)))
    && (run.err.None? <==> last.err.None?)
    && (!last.cut && IsRetryable(run.err) ==> run.attempts == maxRetries + 1)
    && run.waited == (run.attempts - 1) * (run.attempts - 1)
  }

  lemma NoneFinal()
    ensures !IsRetryable(None)
  {
  }

  lemma NextSquare(n: nat)
    ensures (n + 1) * (n + 1) == n * n + 1 + n * 2
  {
  }

  lemma {:induction false} ExecuteMeetsPolicy(outcomes: seq<Outcome>, made: nat, waited: nat, maxRetries: nat)
    requires made <= maxRetries && waited == made * made
    ensures MeetsPolicy(outcomes, made, maxRetries, Execute(outcomes, made, waited, maxRetries))
    decreases maxRetries - made
  {
    hide IsRetryable;
    NoneFinal();
    var o := OutcomeAt(outcomes, made);
    var run := Execute(outcomes, made, waited, maxRetries);
    if IsRetryable(o.err) && made != maxRetries && !o.cut {
      NextSquare(made);
      ExecuteMeetsPolicy(outcomes, made + 1, waited + 1 + made * 2, maxRetries);
      assert run == Execute(outcomes, made + 1, waited + 1 + made * 2, maxRetries);
    } else {
      assert run.attempts == made + 1 && run.waited == made * made;
    }
  }

  /** Attempt `k` succeeds after retryable failures only, none of whose waits was cut short. */
  ghost predicate Through(outcomes: seq<Outcome>, made: nat, k: nat) {
    && OutcomeAt(outcomes, k).err.None?
    && forall i | made <= i < k :: IsRetryable(OutcomeAt(outcomes, i).err) && !OutcomeAt(outcomes, i).cut
  }

  /** The execution then stops there, having waited k * k seconds. */
  lemma {:induction false} ThroughRuns(outcomes: seq<Outcome>, made: nat, waited: nat, k: nat, maxRetries: nat)
    requires made <= k <= maxRetries && waited == made * made && Through(outcomes, made, k)
    ensures Execute(outcomes, made, waited, maxRetries) == Run(k + 1, None, k * k)
    decreases k - made
  {
    assert !IsRetryable(None);
    if made < k {
      NextSquare(made);
      ThroughRuns(outcomes, made + 1, waited + 1 + made * 2, k, maxRetries);
    }
  }

  /** An execution succeeds if and only if some attempt within the bound gets through. */
  lemma {:induction false} SucceedsIff(outcomes: seq<Outcome>, made: nat, waited: nat, maxRetries: nat)
    requires made <= maxRetries
    ensures Execute(outcomes, made, waited, maxRetries).err.None? <==>
            exists k: nat :: made <= k <= maxRetries && Through(outcomes, made, k)
    decreases maxRetries - made
  {
    hide IsRetryable;
    NoneFinal();
    var o := OutcomeAt(outcomes, made);
    if o.err.None? {
      assert Through(outcomes, made, made);
    } else if IsRetryable(o.err) && made < maxRetries && !o.cut {
      SucceedsIff(outcomes, made + 1, waited + 1 + made * 2, maxRetries);
      var next := made + 1;
      if k: nat :| made <= k <= maxRetries && Through(outcomes, made, k) {
        assert Through(outcomes, next, k);
      }
      if k: nat :| next <= k <= maxRetries && Through(outcomes, next, k) {
        assert Through(outcomes, made, k);
      }
    }
  }

  /** Only the attempts made matter. */
  lemma {:induction false} SameAttempts(a: seq<Outcome>, b: seq<Outcome>, made: nat, waited: nat, maxRetries: nat)
    requires made <= maxRetries
    requires forall i | made <= i < Execute(a, made, waited, maxRetries).attempts :: OutcomeAt(a, i) == OutcomeAt(b, i)
    ensures Execute(b, made, waited, maxRetries) == Execute(a, made, waited, maxRetries)
    decreases maxRetries - made
  {
    hide IsRetryable;
    AtLeastOne(a, made, waited, maxRetries);
    var o := OutcomeAt(a, made);
    if IsRetryable(o.err) && made < maxRetries && !o.cut {
      SameAttempts(a, b, made + 1, waited + 1 + made * 2, maxRetries);
    }
  }

  lemma {:induction false} AtLeastOne(a: seq<Outcome>, made: nat, waited: nat, maxRetries: nat)
    requires made <= maxRetries
    ensures made < Execute(a, made, waited, maxRetries).attempts <= maxRetries + 1
    decreases maxRetries - made
  {
    hide IsRetryable;
    var o := OutcomeAt(a, made);
    if IsRetryable(o.err) && made < maxRetries && !o.cut {
      AtLeastOne(a, made + 1, waited + 1 + made * 2, maxRetries);
    }
  }

  // ----- rows

  const MAX_NAME: nat := 64

  const TOO_LONG := Server("22001")
  const OUT_OF_RANGE := Server("22003")

  /** One upsert of the gauge table: VARCHAR(64) bounds the name. */
  function UpsertGauge(table: GaugeMap, k: string, v: Float64): Result<GaugeMap, Error> {
    if |k| > MAX_NAME then Err(TOO_LONG) else Ok(table[k := v])
  }

  /** One upsert of the counter table: a BIGINT sum out of range is an error, not a wrap-around. */
  function UpsertCounter(table: CounterMap, k: string, d: int64): Result<CounterMap, Error> {
    if |k| > MAX_NAME then Err(TOO_LONG)
    else if k in table then
      var sum: int := table[k] + d;
      if InRange(sum) then Ok(table[k := sum]) else Err(OUT_OF_RANGE)
    else Ok(table[k := d])
  }

  function UpsertGauges(table: GaugeMap, gm: GaugeMap, ks: seq<string>): Result<GaugeMap, Error>
    requires forall k | k in ks :: k in gm
  {
    if ks == [] then Ok(table)
    else
      match UpsertGauges(table, gm, ks[..|ks| - 1])
      case Err(e) => Err(e)
      case Ok(t) => UpsertGauge(t, ks[|ks| - 1], gm[ks[|ks| - 1]])
  }

  function UpsertCounters(table: CounterMap, cm: CounterMap, ks: seq<string>): Result<CounterMap, Error>
    requires forall k | k in ks :: k in cm
  {
    if ks == [] then Ok(table)
    else
      match UpsertCounters(table, cm, ks[..|ks| - 1])
      case Err(e) => Err(e)
      case Ok(t) => UpsertCounter(t, ks[|ks| - 1], cm[ks[|ks| - 1]])
  }

  predicate Fits(table: CounterMap, cm: CounterMap, k: string)
    requires k in cm
  {
    |k| <= MAX_NAME && (k in table ==> InRange(table[k] as int + cm[k] as int))
  }

  /** What the tables can take: names of at most 64 characters and sums inside int64. */
  predicate Storable(store: Store, call: Call) {
    match call
    case SetGauges(gm) => forall k | k in gm :: |k| <= MAX_NAME
    case AddCounters(cm) => forall k | k in cm :: Fits(store.counter, cm, k)
  }

  ghost function Names(ks: seq<string>): set<string> {
    set k | k in ks
  }

  lemma OnlyOneMore<V>(m: map<string, V>, ks: seq<string>, k: string)
    requires k in m
    ensures Safe.Only(m, Names([])) == map[]
    ensures Names(ks + [k]) == Names(ks) + {k}
    ensures Safe.Only(m, Names(ks + [k])) == Safe.Only(m, Names(ks))[k := m[k]]
  {
    assert Names(ks + [k]) == Names(ks) + {k};
  }

  lemma {:induction false} GaugeRows(table: GaugeMap, gm: GaugeMap, ks: seq<string>)
    requires forall k | k in ks :: k in gm
    ensures var r := UpsertGauges(table, gm, ks);
            if forall k | k in ks :: |k| <= MAX_NAME
            then r == Ok(SetAll(table, Safe.Only(gm, Names(ks))))
            else r == Err(TOO_LONG)
  {
    if ks == [] {
      assert Safe.Only(gm, Names(ks)) == map[];
      assert SetAll(table, map[]) == table;
    } else {
      var init, last := ks[..|ks| - 1], ks[|ks| - 1];
      GaugeRows(table, gm, init);
      assert ks == init + [last];
      OnlyOneMore(gm, init, last);
      assert SetAll(table, Safe.Only(gm, Names(ks))) == SetAll(table, Safe.Only(gm, Names(init)))[last := gm[last]];
    }
  }

  lemma {:induction false} CounterRows(table: CounterMap, cm: CounterMap, ks: seq<string>)
    requires NoDuplicates(ks) && forall k | k in ks :: k in cm
    ensures var r := UpsertCounters(table, cm, ks);
            if forall k | k in ks :: Fits(table, cm, k)
            then r == Ok(AccumAll(table, Safe.Only(cm, Names(ks))))
            else r == Err(TOO_LONG) || r == Err(OUT_OF_RANGE)
  {
    if ks == [] {
      assert Safe.Only(cm, Names(ks)) == map[];
      assert AccumAll(table, map[]) == table;
    } else {
      var init, last := ks[..|ks| - 1], ks[|ks| - 1];
      assert last !in init;
      assert ks == init + [last];
      CounterRows(table, cm, init);
      OnlyOneMore(cm, init, last);
      CounterRowStep(table, cm, Names(init), last);
    }
  }

  lemma CounterRowStep(table: CounterMap, cm: CounterMap, done: set<string>, k: string)
    requires k in cm && k !in done
    ensures var t := AccumAll(table, Safe.Only(cm, done));
            UpsertCounter(t, k, cm[k]) ==
            if |k| > MAX_NAME then Err(TOO_LONG)
            else if !Fits(table, cm, k) then Err(OUT_OF_RANGE)
            else Ok(AccumAll(table, Safe.Only(cm, done + {k})))
  {
    var t := AccumAll(table, Safe.Only(cm, done));
    var u := AccumAll(table, Safe.Only(cm, done + {k}));
    if Fits(table, cm, k) {
      assert u == t[k := if k in table then table[k] + cm[k] else cm[k]];
    }
  }

  function RowNames(call: Call): set<string> {
    match call
    case SetGauges(gm) => gm.Keys
    case AddCounters(cm) => cm.Keys
  }

  predicate Ranges(ks: seq<string>, call: Call) {
    forall k | k in ks :: k in RowNames(call)
  }

  /** A transaction body without injected failures, its rows taken in the order `ks`. */
  function Transaction(store: Store, call: Call, ks: seq<string>): Result<Store, Error>
    requires Ranges(ks, call)
  {
    match call
    case SetGauges(gm) =>
      (match UpsertGauges(store.gauge, gm, ks) case Err(e) => Err(e) case Ok(t) => Ok(store.(gauge := t)))
    case AddCounters(cm) =>
      (match UpsertCounters(store.counter, cm, ks) case Err(e) => Err(e) case Ok(t) => Ok(store.(counter := t)))
  }

  ghost predicate ListsCall(ks: seq<string>, call: Call) {
    match call
    case SetGauges(gm) => Json.Lists(ks, gm)
    case AddCounters(cm) => Json.Lists(ks, cm)
  }

  lemma OnlyListed<V>(m: map<string, V>, ks: seq<string>)
    requires Json.Lists(ks, m)
    ensures Safe.Only(m, Names(ks)) == m
  {
  }

  /** In any order of the rows, the transaction does to the tables what the memory store does to its maps if
      every row can be stored, and fails for good otherwise. */
  lemma TransactionMatchesMemory(store: Store, call: Call, ks: seq<string>)
    requires ListsCall(ks, call)
    ensures Transaction(store, call, ks).Ok? <==> Storable(store, call)
    ensures Storable(store, call) ==> Transaction(store, call, ks) == Ok(Perform(store, call))
    ensures !Storable(store, call) ==> !IsRetryable(Some(Transaction(store, call, ks).error))
  {
    assert ServerCode(TOO_LONG) == Some("22001") && ServerCode(OUT_OF_RANGE) == Some("22003");
    match call
    case SetGauges(gm) =>
      GaugeRows(store.gauge, gm, ks);
      OnlyListed(gm, ks);
    case AddCounters(cm) =>
      CounterRows(store.counter, cm, ks);
      OnlyListed(cm, ks);
  }

  lemma ListedSize(ks: seq<string>, call: Call)
    requires ListsCall(ks, call)
    ensures Ranges(ks, call) && |ks| == |RowNames(call)|
  {
    DistinctSize(ks);
    assert (set k | k in ks) == RowNames(call);
  }

  /** The first rows of a batch that can be stored can be stored; the rows of one that cannot never fail with an
      error that is worth a retry. */
  lemma FirstRows(store: Store, call: Call, ks: seq<string>, n: nat)
    requires ListsCall(ks, call) && n <= |ks|
    ensures Ranges(ks[..n], call)
    ensures Storable(store, call) ==> Transaction(store, call, ks[..n]).Ok?
    ensures var r := Transaction(store, call, ks[..n]);
            r.Err? ==> !Storable(store, call) && (r.error == TOO_LONG || r.error == OUT_OF_RANGE)
  {
    ListedSize(ks, call);
    match call
    case SetGauges(gm) => GaugeRows(store.gauge, gm, ks[..n]);
    case AddCounters(cm) => CounterRows(store.counter, cm, ks[..n]);
  }

  /** Once a row has failed, the rows behind it do not matter. */
  lemma {:induction false} FailedRowFinal(store: Store, call: Call, ks: seq<string>, n: nat, m: nat)
    requires n <= m <= |ks| && Ranges(ks, call) && Ranges(ks[..n], call) && Transaction(store, call, ks[..n]).Err?
    ensures Ranges(ks[..m], call) && Transaction(store, call, ks[..m]) == Transaction(store, call, ks[..n])
    decreases m - n
  {
    hide UpsertGauge, UpsertCounter;
    if n < m {
      FailedRowFinal(store, call, ks, n, m - 1);
      assert ks[..m][..m - 1] == ks[..m - 1];
    }
  }

  // ----- one attempt

  /** What goes wrong in one attempt: at begin, at the statement with a given number, or at commit; `cut` is the end
      of the context during the wait that follows.  A failed commit is taken to have had no effect. */
  datatype Faults = Faults(begin: Option<Error>, exec: Option<(nat, Error)>, commit: Option<Error>, cut: bool)

  const NO_FAULTS := Faults(None, None, None, false)

  predicate FaultFree(f: Faults) {
    f.begin.None? && f.exec.None? && f.commit.None?
  }

  /** Attempts beyond the end of a script meet no faults. */
  function FaultsAt(script: seq<Faults>, i: nat): Faults {
    if i < |script| then script[i] else NO_FAULTS
  }

  /** The statements of one attempt, its rows taken in the order `ks`. */
  function Statements(store: Store, call: Call, ks: seq<string>, exec: Option<(nat, Error)>): Result<Store, Error>
    requires Ranges(ks, call)
  {
    if exec.Some? && exec.value.0 < |ks| then
      assert Ranges(ks[..exec.value.0], call);
      match Transaction(store, call, ks[..exec.value.0]) case Err(e) => Err(e) case Ok(_) => Err(exec.value.1)
    else Transaction(store, call, ks)
  }

  /** One attempt from begin to commit: the tables it commits or the error it ends in. */
  function TryOnce(store: Store, call: Call, ks: seq<string>, f: Faults): Result<Store, Error>
    requires Ranges(ks, call)
  {
    if f.begin.Some? then Err(Wrapped(f.begin.value))
    else
      match Statements(store, call, ks, f.exec)
      case Err(e) => Err(e)
      case Ok(t) => if f.commit.Some? then Err(Wrapped(f.commit.value)) else Ok(t)
  }

  function ErrorOf(r: Result<Store, Error>): Option<Error> {
    match r case Ok(_) => None case Err(e) => Some(e)
  }

  /** The error of an attempt at a batch that can be stored: that of the first fault it meets. */
  function FaultError(call: Call, f: Faults): Option<Error> {
    if f.begin.Some? then Some(Wrapped(f.begin.value))
    else if f.exec.Some? && f.exec.value.0 < |RowNames(call)| then Some(f.exec.value.1)
    else if f.commit.Some? then Some(Wrapped(f.commit.value))
    else None
  }

  /** Whatever the order of the rows, an attempt at a storable batch performs it if it meets no fault and ends in
      the error of its first fault otherwise; an attempt at any other batch fails. */
  lemma TryOnceIs(store: Store, call: Call, ks: seq<string>, f: Faults)
    requires ListsCall(ks, call)
    ensures Ranges(ks, call)
    ensures Storable(store, call) ==>
              TryOnce(store, call, ks, f)
              == match FaultError(call, f) case None => Ok(Perform(store, call)) case Some(e) => Err(e)
    ensures !Storable(store, call) ==> TryOnce(store, call, ks, f).Err?
    ensures !Storable(store, call) && FaultFree(f) ==>
              !IsRetryable(ErrorOf(TryOnce(store, call, ks, f)))
  {
    hide Storable, Perform, Transaction, IsRetryable;
    ListedSize(ks, call);
    TransactionMatchesMemory(store, call, ks);
    if f.exec.Some? && f.exec.value.0 < |ks| {
      FirstRows(store, call, ks, f.exec.value.0);
    }
  }

  /** Without a fault the statements succeed exactly if every row can be stored, and fail for good otherwise. */
  lemma StatementsMean(store: Store, call: Call, ks: seq<string>, exec: Option<(nat, Error)>)
    requires ListsCall(ks, call) && Ranges(ks, call)
    ensures var r := Statements(store, call, ks, exec);
            && (r.Ok? ==> Storable(store, call) && r.value == Perform(store, call))
            && (exec.None? ==> (r.Ok? <==> Storable(store, call)))
            && (exec.None? && r.Err? ==> !IsRetryable(Some(r.error)))
  {
    hide Storable, Perform, Transaction, IsRetryable;
    TransactionMatchesMemory(store, call, ks);
  }

  /** `err` is how an attempt may end, for some order of its rows. */
  ghost predicate CanEnd(store: Store, call: Call, f: Faults, err: Option<Error>) {
    exists ks :: ListsCall(ks, call) && Ranges(ks, call) && err == ErrorOf(TryOnce(store, call, ks, f))
  }

  lemma CanEndIs(store: Store, call: Call, f: Faults, err: Option<Error>)
    requires CanEnd(store, call, f, err)
    ensures Storable(store, call) ==> err == FaultError(call, f)
    ensures !Storable(store, call) ==> err.Some?
  {
    hide Storable, TryOnce, FaultError;
    var ks :| ListsCall(ks, call) && Ranges(ks, call) && err == ErrorOf(TryOnce(store, call, ks, f));
    TryOnceIs(store, call, ks, f);
  }

  // ----- the executor

  /** The attempts at a storable batch under a script. */
  ghost function FaultOutcomes(call: Call, script: seq<Faults>): seq<Outcome> {
    seq(MAX_RETRIES + 1, i requires 0 <= i => Outcome(FaultError(call, FaultsAt(script, i)), FaultsAt(script, i).cut))
  }

  /** Within the bound, attempt `k` meets no fault, and each one before it failed retryably and was not cut. */
  ghost predicate ComesThrough(call: Call, script: seq<Faults>, k: nat) {
    && k <= MAX_RETRIES && FaultError(call, FaultsAt(script, k)).None?
    && forall i: nat | i < k :: IsRetryable(FaultError(call, FaultsAt(script, i))) && !FaultsAt(script, i).cut
  }

  lemma ComesThroughIs(call: Call, script: seq<Faults>, k: nat)
    requires k <= MAX_RETRIES
    ensures ComesThrough(call, script, k) <==> Through(FaultOutcomes(call, script), 0, k)
  {
    hide FaultError, IsRetryable, FaultsAt;
    var outcomes := FaultOutcomes(call, script);
    assert forall i: nat | i <= k ::
        OutcomeAt(outcomes, i) == Outcome(FaultError(call, FaultsAt(script, i)), FaultsAt(script, i).cut);
  }

  /** The executor over a script: it succeeds if and only if some attempt comes through, and then after as many
      attempts and k * k seconds. */
  lemma ScriptSucceedsIff(call: Call, script: seq<Faults>)
    ensures Execute(FaultOutcomes(call, script), 0, 0, MAX_RETRIES).err.None? <==>
            exists k: nat :: ComesThrough(call, script, k)
    ensures forall k: nat | ComesThrough(call, script, k) ::
              Execute(FaultOutcomes(call, script), 0, 0, MAX_RETRIES) == Run(k + 1, None, k * k)
  {
    hide Execute, FaultOutcomes, Through, ComesThrough;
    var outcomes := FaultOutcomes(call, script);
    SucceedsIff(outcomes, 0, 0, MAX_RETRIES);
    forall k: nat
      ensures ComesThrough(call, script, k) <==> k <= MAX_RETRIES && Through(outcomes, 0, k)
    {
      WithinBound(call, script, k);
      if k <= MAX_RETRIES {
        ComesThroughIs(call, script, k);
      }
    }
    forall k: nat | ComesThrough(call, script, k)
      ensures Execute(outcomes, 0, 0, MAX_RETRIES) == Run(k + 1, None, k * k)
    {
      ThroughRuns(outcomes, 0, 0, k, MAX_RETRIES);
    }
  }

  lemma WithinBound(call: Call, script: seq<Faults>, k: nat)
    ensures ComesThrough(call, script, k) ==> k <= MAX_RETRIES
  {
  }

  class PgSQL {
    var tables: Store
    var commits: nat  // transactions that took effect

    constructor ()
      ensures tables == EMPTY_STORE && commits == 0
    {
      tables := EMPTY_STORE;
      commits := 0;
    }

    method GaugeStatements(gm: GaugeMap, exec: Option<(nat, Error)>)
      returns (r: Result<Store, Error>, ghost order: seq<string>)
      ensures ListsCall(order, SetGauges(gm)) && Ranges(order, SetGauges(gm))
      ensures r == Statements(tables, SetGauges(gm), order, exec)
      ensures r.Ok? ==> Storable(tables, SetGauges(gm)) && r.value == Perform(tables, SetGauges(gm))
      ensures exec.None? ==> (r.Ok? <==> Storable(tables, SetGauges(gm)))
      ensures exec.None? && r.Err? ==> !IsRetryable(Some(r.error))
    {
      hide UpsertGauge, Storable, Perform, IsRetryable;
      ghost var call := SetGauges(gm);
      var t, rest, n := tables.gauge, gm.Keys, 0;
      ghost var ks: seq<string> := [];
      while rest != {}
        invariant rest <= gm.Keys && NoDuplicates(ks)
        invariant forall k :: k in ks <==> k in gm.Keys - rest
        invariant |ks| == n && (exec.Some? ==> n <= exec.value.0)
        invariant Transaction(tables, call, ks) == Ok(tables.(gauge := t))
        decreases |rest|
      {
        var k :| k in rest;
        if exec.Some? && exec.value.0 == n {
          order := Completed(call, ks, rest);
          return Err(exec.value.1), order;
        }
        var row := UpsertGauge(t, k, gm[k]);
        OneMoreRow(tables, call, ks, k);
        if row.Err? {
          order := CompletedFailure(tables, call, ks, k, rest, exec);
          StatementsMean(tables, call, order, exec);
          return Err(row.error), order;
        }
        assert k !in ks;
        t, ks, rest, n := row.value, ks + [k], rest - {k}, n + 1;
      }
      order := ks;
      StatementsDone(tables, call, order, exec);
      StatementsMean(tables, call, order, exec);
      return Ok(tables.(gauge := t)), order;
    }

    method CounterStatements(cm: CounterMap, exec: Option<(nat, Error)>)
      returns (r: Result<Store, Error>, ghost order: seq<string>)
      ensures ListsCall(order, AddCounters(cm)) && Ranges(order, AddCounters(cm))
      ensures r == Statements(tables, AddCounters(cm), order, exec)
      ensures r.Ok? ==> Storable(tables, AddCounters(cm)) && r.value == Perform(tables, AddCounters(cm))
      ensures exec.None? ==> (r.Ok? <==> Storable(tables, AddCounters(cm)))
      ensures exec.None? && r.Err? ==> !IsRetryable(Some(r.error))
    {
      hide UpsertCounter, Storable, Perform, IsRetryable;
      ghost var call := AddCounters(cm);
      var t, rest, n := tables.counter, cm.Keys, 0;
      ghost var ks: seq<string> := [];
      while rest != {}
        invariant rest <= cm.Keys && NoDuplicates(ks)
        invariant forall k :: k in ks <==> k in cm.Keys - rest
        invariant |ks| == n && (exec.Some? ==> n <= exec.value.0)
        invariant Transaction(tables, call, ks) == Ok(tables.(counter := t))
        decreases |rest|
      {
        var k :| k in rest;
        if exec.Some? && exec.value.0 == n {
          order := Completed(call, ks, rest);
          return Err(exec.value.1), order;
        }
        var row := UpsertCounter(t, k, cm[k]);
        OneMoreRow(tables, call, ks, k);
        if row.Err? {
          order := CompletedFailure(tables, call, ks, k, rest, exec);
          StatementsMean(tables, call, order, exec);
          return Err(row.error), order;
        }
        assert k !in ks;
        t, ks, rest, n := row.value, ks + [k], rest - {k}, n + 1;
      }
      order := ks;
      StatementsDone(tables, call, order, exec);
      StatementsMean(tables, call, order, exec);
      return Ok(tables.(counter := t)), order;
    }

    /** Begin, statements, commit; everything is rolled back unless the commit succeeds. */
    method Attempt(call: Call, f: Faults) returns (err: Option<Error>, ghost order: seq<string>)
      modifies this
      ensures ListsCall(order, call) && Ranges(order, call)
      ensures var r := TryOnce(old(tables), call, order, f);
              err == ErrorOf(r) && tables == (if r.Ok? then r.value else old(tables))
      ensures err.None? ==> Storable(old(tables), call) && tables == Perform(old(tables), call)
      ensures commits == old(commits) + if err.None? then 1 else 0
    {
      hide Statements, Storable, Perform;
      if f.begin.Some? {
        order := AnyOrder(call);
        return Some(Wrapped(f.begin.value)), order;
      }
      var r: Result<Store, Error>;
      match call {
        case SetGauges(gm) => r, order := GaugeStatements(gm, f.exec);
        case AddCounters(cm) => r, order := CounterStatements(cm, f.exec);
      }
      if r.Err? {
        return Some(r.error), order;
      }
      if f.commit.Some? {
        return Some(Wrapped(f.commit.value)), order;
      }
      tables, commits := r.value, commits + 1;
      return None, order;
    }

    /** Success exactly when the batch can be stored and some attempt within the bound comes through; the batch is
        then committed once, at that attempt, and otherwise the tables are as before. */
    method ExecuteTx(call: Call, script: seq<Faults>) returns (run: Run, ghost outcomes: seq<Outcome>)
      modifies this
      ensures |outcomes| == run.attempts && run == Execute(outcomes, 0, 0, MAX_RETRIES)
      ensures forall i | 0 <= i < |outcomes| ::
                CanEnd(old(tables), call, FaultsAt(script, i), outcomes[i].err)
                && outcomes[i].cut == FaultsAt(script, i).cut
      ensures run.err.None? <==> Storable(old(tables), call) && exists k: nat :: ComesThrough(call, script, k)
      ensures forall k: nat | Storable(old(tables), call) && ComesThrough(call, script, k) :: run == Run(k + 1, None, k * k)
      ensures Storable(old(tables), call) ==> run == Execute(FaultOutcomes(call, script), 0, 0, MAX_RETRIES)
      ensures Storable(old(tables), call) && MeetsCodes(call, script) ==>
                run == Run(|script| + 1, None, |script| * |script|) && tables == Perform(old(tables), call)
      ensures tables == if run.err.None? then Perform(old(tables), call) else old(tables)
      ensures commits == old(commits) + if run.err.None? then 1 else 0
    {
      hide IsRetryable, Storable, Perform, FaultsAt, CanEnd, ComesThrough, MeetsCodes;
      if MeetsCodes(call, script) {
        CodesAreRetried(call, script);
      }
      var made: nat, waited: nat := 0, 0;
      outcomes := [];
      while true
        invariant |outcomes| == made <= MAX_RETRIES
        invariant tables == old(tables) && commits == old(commits)
        invariant forall i | 0 <= i < made ::
            CanEnd(old(tables), call, FaultsAt(script, i), outcomes[i].err)
            && outcomes[i].cut == FaultsAt(script, i).cut
        invariant forall later :: Execute(outcomes + later, 0, 0, MAX_RETRIES)
                               == Execute(outcomes + later, made, waited, MAX_RETRIES)
        decreases MAX_RETRIES - made
      {
        var f := FaultsAt(script, made);
        var err, order := Attempt(call, f);
        AttemptEnds(old(tables), call, order, f);
        ghost var o := Outcome(err, f.cut);
        ghost var before := outcomes;
        outcomes := outcomes + [o];
        assert outcomes == before + [o] && OutcomeAt(outcomes, made) == o;
        assert Execute(outcomes, 0, 0, MAX_RETRIES) == Execute(outcomes, made, waited, MAX_RETRIES);
        NoneFinal();
        if !IsRetryable(err) || made == MAX_RETRIES {
          run := Run(made + 1, err, waited);
          RunOfScript(old(tables), call, script, outcomes, run);
          return;
        }
        if f.cut {
          run := Run(made + 1, Some(Canceled), waited);
          RunOfScript(old(tables), call, script, outcomes, run);
          return;
        }
        forall later
          ensures Execute(outcomes + later, 0, 0, MAX_RETRIES)
               == Execute(outcomes + later, made + 1, waited + 1 + made * 2, MAX_RETRIES)
        {
          assert outcomes + later == before + ([o] + later);
          assert OutcomeAt(outcomes + later, made) == o;
        }
        waited := waited + 1 + made * 2;
        made := made + 1;
      }
    }
  }

  lemma AnyOrder(call: Call) returns (ks: seq<string>)
    ensures ListsCall(ks, call) && Ranges(ks, call)
  {
    match call {
      case SetGauges(gm) => ks := Json.SomeListing(gm);
      case AddCounters(cm) => ks := Json.SomeListing(cm);
    }
  }

  /** The rows so far and then the rest in some order. */
  lemma Completed(call: Call, ks: seq<string>, rest: set<string>) returns (order: seq<string>)
    requires NoDuplicates(ks) && rest <= RowNames(call) && forall k :: k in ks <==> k in RowNames(call) - rest
    ensures ListsCall(order, call) && Ranges(order, call)
    ensures |order| == |ks| + |rest| && order[..|ks|] == ks
  {
    var more := Json.SomeListing(map k | k in rest :: true);
    DistinctSize(more);
    assert (set k | k in more) == rest;
    order := ks + more;
    forall i, j | 0 <= i < j < |order|
      ensures order[i] != order[j]
    {
      assert order[i] in if i < |ks| then ks else more;
      assert order[j] in if j < |ks| then ks else more;
    }
    assert forall k :: k in order <==> k in RowNames(call);
  }

  lemma OneMoreRow(store: Store, call: Call, ks: seq<string>, k: string)
    requires Ranges(ks, call) && k in RowNames(call) && Transaction(store, call, ks).Ok?
    ensures Ranges(ks + [k], call)
    ensures match call
            case SetGauges(gm) =>
              (match UpsertGauge(Transaction(store, call, ks).value.gauge, k, gm[k])
               case Err(e) => Transaction(store, call, ks + [k]) == Err(e)
               case Ok(t) => Transaction(store, call, ks + [k]) == Ok(store.(gauge := t)))
            case AddCounters(cm) =>
              (match UpsertCounter(Transaction(store, call, ks).value.counter, k, cm[k])
               case Err(e) => Transaction(store, call, ks + [k]) == Err(e)
               case Ok(t) => Transaction(store, call, ks + [k]) == Ok(store.(counter := t)))
  {
    hide UpsertGauge, UpsertCounter;
    assert (ks + [k])[..|ks|] == ks;
  }

  /** A row that failed before any injected fault is how the statements end. */
  lemma CompletedFailure(store: Store, call: Call, ks: seq<string>, k: string, rest: set<string>,
                         exec: Option<(nat, Error)>)
    returns (order: seq<string>)
    requires NoDuplicates(ks) && rest <= RowNames(call) && (forall x :: x in ks <==> x in RowNames(call) - rest)
    requires k in rest && (exec.Some? ==> |ks| < exec.value.0)
    requires Ranges(ks + [k], call) && Transaction(store, call, ks + [k]).Err?
    ensures ListsCall(order, call) && Ranges(order, call)
    ensures Statements(store, call, order, exec) == Transaction(store, call, ks + [k])
  {
    hide Transaction;
    assert k !in ks;
    order := Completed(call, ks + [k], rest - {k});
    var n := |ks| + 1;
    assert order[..n] == ks + [k] && order[..|order|] == order;
    FailedRowFinal(store, call, order, n, |order|);
    if exec.Some? && exec.value.0 < |order| {
      FailedRowFinal(store, call, order, n, exec.value.0);
    }
  }

  lemma StatementsDone(store: Store, call: Call, ks: seq<string>, exec: Option<(nat, Error)>)
    requires Ranges(ks, call) && (exec.Some? ==> |ks| <= exec.value.0)
    ensures Statements(store, call, ks, exec) == Transaction(store, call, ks)
  {
  }

  lemma AttemptEnds(store: Store, call: Call, order: seq<string>, f: Faults)
    requires ListsCall(order, call) && Ranges(order, call)
    ensures CanEnd(store, call, f, ErrorOf(TryOnce(store, call, order, f)))
    ensures TryOnce(store, call, order, f).Ok? ==>
              TryOnce(store, call, order, f) == Ok(Perform(store, call))
  {
    hide TryOnce, Storable, Perform;
    TryOnceIs(store, call, order, f);
  }

  /** A finished execution is the one that its script determines, unless the batch cannot be stored: then it fails. */
  lemma RunOfScript(store: Store, call: Call, script: seq<Faults>, outcomes: seq<Outcome>, run: Run)
    requires |outcomes| == run.attempts && run == Execute(outcomes, 0, 0, MAX_RETRIES)
    requires forall i | 0 <= i < |outcomes| ::
               CanEnd(store, call, FaultsAt(script, i), outcomes[i].err) && outcomes[i].cut == FaultsAt(script, i).cut
    ensures run.err.None? <==> Storable(store, call) && exists k: nat :: ComesThrough(call, script, k)
    ensures forall k: nat | Storable(store, call) && ComesThrough(call, script, k) :: run == Run(k + 1, None, k * k)
    ensures Storable(store, call) ==> run == Execute(FaultOutcomes(call, script), 0, 0, MAX_RETRIES)
  {
    hide CanEnd, Storable, ComesThrough, FaultError, FaultsAt, IsRetryable;
    forall i | 0 <= i < |outcomes|
      ensures Storable(store, call) ==> outcomes[i].err == FaultError(call, FaultsAt(script, i))
      ensures !Storable(store, call) ==> outcomes[i].err.Some?
    {
      CanEndIs(store, call, FaultsAt(script, i), outcomes[i].err);
    }
    AtLeastOne(outcomes, 0, 0, MAX_RETRIES);
    if Storable(store, call) {
      SameAttempts(outcomes, FaultOutcomes(call, script), 0, 0, MAX_RETRIES);
      ScriptSucceedsIff(call, script);
    } else {
      NeverThrough(outcomes, run);
    }
  }

  lemma NeverThrough(outcomes: seq<Outcome>, run: Run)
    requires |outcomes| == run.attempts && run == Execute(outcomes, 0, 0, MAX_RETRIES)
    requires forall i | 0 <= i < |outcomes| :: outcomes[i].err.Some?
    ensures run.err.Some?
  {
    AtLeastOne(outcomes, 0, 0, MAX_RETRIES);
    ExecuteMeetsPolicy(outcomes, 0, 0, MAX_RETRIES);
  }

  /** In particular: retryable failures within the bound and then a fault-free attempt at a storable batch. */
  lemma RetriesThenSuccess(call: Call, script: seq<Faults>, k: nat)
    requires k <= MAX_RETRIES
    requires forall i: nat | i < k :: IsRetryable(FaultError(call, FaultsAt(script, i))) && !FaultsAt(script, i).cut
    requires FaultFree(FaultsAt(script, k))
    ensures ComesThrough(call, script, k)
    ensures Execute(FaultOutcomes(call, script), 0, 0, MAX_RETRIES) == Run(k + 1, None, k * k)
  {
    hide Execute, FaultOutcomes, IsRetryable;
    ScriptSucceedsIff(call, script);
  }

  /** An attempt at a storable batch is followed by another exactly if its first fault is, at a statement, an error that
      is tried again, or, at begin or commit, where errors are wrapped, one that holds a code worth it. */
  lemma FaultRetriedIff(call: Call, f: Faults)
    ensures IsRetryable(FaultError(call, f)) <==>
            if f.begin.Some? then HoldsRetryableCode(f.begin.value)
            else if f.exec.Some? && f.exec.value.0 < |RowNames(call)| then
              f.exec.value.1 == Canceled || f.exec.value.1 == DeadlineExceeded || HoldsRetryableCode(f.exec.value.1)
            else f.commit.Some? && HoldsRetryableCode(f.commit.value)
  {
    hide HoldsRetryableCode, IsRetryable;
    RetryableIff(FaultError(call, f));
    if f.begin.Some? {
      WrappedHolds(f.begin.value);
    } else if f.commit.Some? {
      WrappedHolds(f.commit.value);
    }
  }

  lemma WrappedHolds(e: Error)
    ensures HoldsRetryableCode(Wrapped(e)) <==> HoldsRetryableCode(e)
  {
    CodeUnderWrappings(e);
    CodeUnderWrappings(Wrapped(e));
  }

  /** Each attempt of the script, at most three, meets such a code at one of its statements and nothing else. */
  ghost predicate MeetsCodes(call: Call, script: seq<Faults>) {
    |script| <= 3 && forall i | 0 <= i < |script| :: MeetsCode(call, script[i])
  }

  ghost predicate MeetsCode(call: Call, f: Faults) {
    && f.begin.None? && f.commit.None? && !f.cut
    && f.exec.Some? && f.exec.value.0 < |RowNames(call)| && f.exec.value.1.Server? && WorthARetry(f.exec.value.1.code)
  }

  /** They are all made up for: one more attempt and two more seconds of waiting for each. */
  lemma CodesAreRetried(call: Call, script: seq<Faults>)
    requires MeetsCodes(call, script)
    ensures Execute(FaultOutcomes(call, script), 0, 0, MAX_RETRIES) == Run(|script| + 1, None, |script| * |script|)
  {
    hide Execute, FaultOutcomes, WorthARetry, IsRetryable, HoldsRetryableCode;
    forall i: nat | i < |script|
      ensures IsRetryable(FaultError(call, FaultsAt(script, i))) && !FaultsAt(script, i).cut
    {
      CodeHeld(script[i].exec.value.1.code);
      FaultRetriedIff(call, script[i]);
    }
    RetriesThenSuccess(call, script, |script|);
  }

  lemma CodeHeld(code: string)
    ensures WorthARetry(code) ==> HoldsRetryableCode(Server(code))
  {
    assert Server(code) == WrappedTimes(0, Server(code));
  }

  /** Four failures of that kind are too many: the last one is the result, after nine seconds. */
  lemma GivesUpAfterFour(outcomes: seq<Outcome>)
    requires forall i: nat | i < 4 :: IsRetryable(OutcomeAt(outcomes, i).err) && !OutcomeAt(outcomes, i).cut
    ensures Execute(outcomes, 0, 0, MAX_RETRIES) == Run(4, OutcomeAt(outcomes, 3).err, 9)
  {
    hide IsRetryable;
    assert Execute(outcomes, 0, 0, MAX_RETRIES) == Execute(outcomes, 1, 1, MAX_RETRIES);
    assert Execute(outcomes, 1, 1, MAX_RETRIES) == Execute(outcomes, 2, 4, MAX_RETRIES);
    assert Execute(outcomes, 2, 4, MAX_RETRIES) == Execute(outcomes, 3, 9, MAX_RETRIES);
  }

  /** Anything else ends the execution at once. */
  lemma OthersAreFinal(outcomes: seq<Outcome>)
    requires var err := OutcomeAt(outcomes, 0).err;
             err != Some(Canceled) && err != Some(DeadlineExceeded) && (err.Some? ==> !HoldsRetryableCode(err.value))
    ensures Execute(outcomes, 0, 0, MAX_RETRIES) == Run(1, OutcomeAt(outcomes, 0).err, 0)
  {
    hide IsRetryable, HoldsRetryableCode;
    RetryableIff(OutcomeAt(outcomes, 0).err);
  }

  /** A name of 64 characters can be stored, a longer one cannot. */
  lemma NameBound(store: Store, k: string, v: Float64, d: int64)
    ensures Storable(store, SetGauges(map[k := v])) <==> |k| <= 64
    ensures Storable(store, AddCounters(map[k := d])) <==>
            |k| <= 64 && (k in store.counter ==>
                            -0x8000_0000_0000_0000 <= store.counter[k] as int + d as int < 0x8000_0000_0000_0000)
  {
    var gm, cm := map[k := v], map[k := d];
    assert k in gm && k in cm;
  }

  // ----- reading one row

  /** errors.Is looking for pgx.ErrNoRows. */
  predicate IsNoRows(err: Error) {
    match err
    case NoRows => true
    case Wrapped(inner) => IsNoRows(inner)
    case _ => false
  }

  /** The faults of the connection and the server are never themselves ErrNoRows. */
  ghost predicate Foreign(f: Faults) {
    && (f.begin.Some? ==> !IsNoRows(f.begin.value))
    && (f.exec.Some? ==> !IsNoRows(f.exec.value.1))
    && (f.commit.Some? ==> !IsNoRows(f.commit.value))
  }

  /** The error of one attempt at reading the row of `name`. */
  function ReadRow<V>(table: map<string, V>, name: string, f: Faults): Option<Error> {
    if f.begin.Some? then Some(Wrapped(f.begin.value))
    else if f.exec.Some? then Some(f.exec.value.1)
    else if name !in table then Some(NoRows)
    else if f.commit.Some? then Some(Wrapped(f.commit.value))
    else None
  }

  /** The attempts at reading a row when attempt `i` meets the table `met[i]`. */
  ghost function RowOutcomes<V>(met: seq<map<string, V>>, name: string, script: seq<Faults>): seq<Outcome> {
    seq(|met|, i requires 0 <= i < |met| =>
      Outcome(ReadRow(met[i], name, FaultsAt(script, i)), FaultsAt(script, i).cut))
  }

  /** Whatever commits between the attempts: a row that is not there is an error to the transaction but an answer to
      the caller; every other answer is the row as the last attempt met it, and an error is the one that ended the
      retries. */
  method GetOne<V>(met: seq<map<string, V>>, name: string, script: seq<Faults>)
    returns (r: Result<Option<V>, Error>, run: Run)
    requires |met| == MAX_RETRIES + 1 && forall f | f in script :: Foreign(f)
    ensures run == Execute(RowOutcomes(met, name, script), 0, 0, MAX_RETRIES) && 0 < run.attempts <= |met|
    ensures r.Ok? ==> r.value == Find(met[run.attempts - 1], name)
    ensures r.Ok? <==> run.err.None? || IsNoRows(run.err.value)
    ensures r.Err? ==> run.err == Some(r.error) && exists f :: f in script && !FaultFree(f)
  {
    hide IsRetryable;
    var made: nat, waited: nat := 0, 0;
    ghost var outcomes := RowOutcomes(met, name, script);
    while true
      invariant made <= MAX_RETRIES
      invariant Execute(outcomes, 0, 0, MAX_RETRIES) == Execute(outcomes, made, waited, MAX_RETRIES)
      decreases MAX_RETRIES - made
    {
      var f := FaultsAt(script, made);
      assert made < |script| ==> f in script;
      var err := ReadRow(met[made], name, f);
      assert OutcomeAt(outcomes, made) == Outcome(err, f.cut);
      NotRetryable(err);
      if !IsRetryable(err) || made == MAX_RETRIES || f.cut {
        run := Run(made + 1, if IsRetryable(err) && made < MAX_RETRIES then Some(Canceled) else err, waited);
        if err.None? {
          return Ok(Some(met[made][name])), run;
        }
        if IsNoRows(err.value) {
          return Ok(None), run;
        }
        return Err(if IsRetryable(err) && made < MAX_RETRIES then Canceled else err.value), run;
      }
      waited := waited + 1 + made * 2;
      made := made + 1;
    }
  }

  /** Neither success nor a missing row is tried again. */
  lemma NotRetryable(err: Option<Error>)
    ensures err.None? || IsNoRows(err.value) ==> !IsRetryable(err)
  {
    if err.Some? && err.value.Wrapped? && IsNoRows(err.value) {
      NoCode(err.value.inner);
    }
  }

  lemma {:induction false} NoCode(e: Error)
    requires IsNoRows(e)
    ensures ServerCode(e) == None
  {
    if e.Wrapped? {
      NoCode(e.inner);
    }
  }

  // ----- reads that start over

  /** One attempt at reading a whole table: the table as it was then, the rows delivered before the iteration
      ended, and how the attempt ended.  pgx ends the iteration early on an error of the connection or the server; the
      code does not ask for that error, so by itself it would let an attempt succeed with rows missing.  Whether the
      commit that follows lets it is up to the driver. */
  datatype ReadAttempt<V> = ReadAttempt(table: map<string, V>, rows: set<string>, err: Option<Error>, cut: bool)

  ghost predicate Real<V>(a: ReadAttempt<V>) {
    a.rows <= a.table.Keys
  }

  /** The result map keeps the rows of every attempt so far, later ones over earlier ones. */
  ghost function Gathered<V>(attempts: seq<ReadAttempt<V>>): map<string, V> {
    if attempts == [] then map[]
    else Gathered(attempts[..|attempts| - 1]) + Safe.Only(attempts[|attempts| - 1].table, attempts[|attempts| - 1].rows)
  }

  ghost function OutcomesOf<V>(attempts: seq<ReadAttempt<V>>): seq<Outcome> {
    seq(|attempts|, i requires 0 <= i < |attempts| => Outcome(attempts[i].err, attempts[i].cut))
  }

  /** Stores the delivered rows over what is there. */
  method ScanRows<V>(gathered: map<string, V>, a: ReadAttempt<V>) returns (m: map<string, V>)
    requires Real(a)
    ensures m == gathered + Safe.Only(a.table, a.rows)
  {
    m := gathered;
    var rest := a.rows;
    while rest != {}
      invariant rest <= a.rows
      invariant m == gathered + Safe.Only(a.table, a.rows - rest)
      decreases |rest|
    {
      var k :| k in rest;
      m := m[k := a.table[k]];
      rest := rest - {k};
    }
    assert a.rows - {} == a.rows;
  }

  method GetAll<V>(script: seq<ReadAttempt<V>>) returns (m: map<string, V>, run: Run)
    requires |script| > MAX_RETRIES && forall a | a in script :: Real(a)
    ensures run == Execute(OutcomesOf(script), 0, 0, MAX_RETRIES)
    ensures run.attempts <= |script| && m == Gathered(script[..run.attempts])
  {
    hide IsRetryable, Real;
    m := map[];
    ghost var outcomes := OutcomesOf(script);
    var made: nat, waited: nat := 0, 0;
    while true
      invariant made <= MAX_RETRIES
      invariant m == Gathered(script[..made])
      invariant Execute(outcomes, 0, 0, MAX_RETRIES) == Execute(outcomes, made, waited, MAX_RETRIES)
      decreases MAX_RETRIES - made
    {
      var a := script[made];
      assert a in script;
      m := ScanRows(m, a);
      assert script[..made + 1][..made] == script[..made];
      assert OutcomeAt(outcomes, made) == Outcome(a.err, a.cut);
      if !IsRetryable(a.err) || made == MAX_RETRIES {
        return m, Run(made + 1, a.err, waited);
      }
      if a.cut {
        return m, Run(made + 1, Some(Canceled), waited);
      }
      waited := waited + 1 + made * 2;
      made := made + 1;
    }
  }

  /** No statement deletes or renames a row, so between attempts a table only gains names. */
  ghost predicate NamesGrow<V>(attempts: seq<ReadAttempt<V>>) {
    forall i, j | 0 <= i < j < |attempts| :: attempts[i].table.Keys <= attempts[j].table.Keys
  }

  lemma {:induction false} GatheredNames<V>(attempts: seq<ReadAttempt<V>>, last: ReadAttempt<V>)
    requires forall a | a in attempts :: a.table.Keys <= last.table.Keys
    ensures Gathered(attempts).Keys <= last.table.Keys
  {
    if attempts != [] {
      var init := attempts[..|attempts| - 1];
      assert forall a | a in init :: a in attempts;
      GatheredNames(init, last);
      assert attempts[|attempts| - 1] in attempts;
    }
  }

  /** Every row that the last attempt did not deliver had been gathered before with its present value. */
  ghost predicate Complete<V>(attempts: seq<ReadAttempt<V>>)
    requires attempts != []
  {
    var last, before := attempts[|attempts| - 1], Gathered(attempts[..|attempts| - 1]);
    forall k | k in last.table.Keys - last.rows :: k in before && before[k] == last.table[k]
  }

  /** The result equals the table of the last attempt exactly when it is complete; in particular when the last
      attempt delivered every row. */
  lemma RetriedReadIff<V>(attempts: seq<ReadAttempt<V>>)
    requires attempts != [] && NamesGrow(attempts) && forall a | a in attempts :: Real(a)
    ensures Gathered(attempts) == attempts[|attempts| - 1].table <==> Complete(attempts)
    ensures attempts[|attempts| - 1].rows == attempts[|attempts| - 1].table.Keys ==> Complete(attempts)
  {
    var init, last := attempts[..|attempts| - 1], attempts[|attempts| - 1];
    assert last in attempts;
    forall a | a in init ensures a.table.Keys <= last.table.Keys {
      var i :| 0 <= i < |init| && init[i] == a;
      assert attempts[i] == a;
    }
    GatheredNames(init, last);
    var before, all := Gathered(init), Gathered(attempts);
    assert all == before + Safe.Only(last.table, last.rows);
    assert all.Keys <= last.table.Keys;
    if all == last.table {
      forall k | k in last.table.Keys - last.rows ensures k in before && before[k] == last.table[k] {
        assert k in all;
      }
    }
  }
}
