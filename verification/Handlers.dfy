/** Batch ingestion: the server's update handlers and the agent's batch builder
    (internal/monserv/handlers/handlers.go, internal/monclient/monclient.go). */
module Handlers {
  import opened Wrappers
  import opened Int64
  import opened Mondata
  import opened Counting
  import Json
  import DecimalText

  // ----- the store behind the handlers

  /** Any store whose calls either take effect as a whole or fail without effect: `failures` says in advance
      which of the coming calls fail, `calls` remembers those that took effect. */
  class Db {
    var failures: seq<bool>
    var calls: seq<Call>

    constructor (failures: seq<bool>)
      ensures this.failures == failures && calls == []
    {
      this.failures := failures;
      calls := [];
    }

    method Try(call: Call) returns (ok: bool)
      modifies this
      ensures ok == !Fails(old(failures), 0)
      ensures failures == Later(old(failures))
      ensures calls == if ok then old(calls) + [call] else old(calls)
    {
      ok := failures == [] || !failures[0];
      if failures != [] {
        failures := failures[1..];
      }
      if ok {
        calls := calls + [call];
      }
    }
  }

  function Fails(failures: seq<bool>, i: nat): bool {
    i < |failures| && failures[i]
  }

  function Later(failures: seq<bool>): seq<bool> {
    if failures == [] then [] else failures[1..]
  }

  // ----- answers

  /** How a request ends; `Panicked` is a nil dereference, which net/http turns into an aborted connection. */
  datatype Outcome = Status(code: int) | Panicked

  const OK := Status(200)
  const BAD_REQUEST := Status(400)
  const NOT_FOUND := Status(404)
  const SERVER_ERROR := Status(500)

  // ----- one record

  /** What one update asks of the store: an answer at once, or a call whose failure is a 500. */
  datatype Request = Refuse(outcome: Outcome) | Ask(call: Call)

  /** `svalue` is the value taken from the URL, "" for a JSON record; `parseGauge` is strconv.ParseFloat. */
  function RequestOf(m: Metrics, svalue: string, parseGauge: string -> Option<Float64>): Request {
    if m.id == "" then Refuse(NOT_FOUND)
    else if m.mtype == GAUGE_TYPE then
      if svalue != "" then
        match parseGauge(svalue) case None => Refuse(BAD_REQUEST) case Some(v) => Ask(SetGauges(map[m.id := v]))
      else
        match m.value case None => Refuse(Panicked) case Some(v) => Ask(SetGauges(map[m.id := v]))
    else if m.mtype == COUNTER_TYPE then
      if svalue != "" then
        match DecimalText.ParseCounter(svalue)
        case None => Refuse(BAD_REQUEST) case Some(d) => Ask(AddCounters(map[m.id := d]))
      else
        match m.delta case None => Refuse(Panicked) case Some(d) => Ask(AddCounters(map[m.id := d]))
    else Refuse(BAD_REQUEST)
  }

  /** The store after one update; a refused one changes nothing. */
  ghost function Updated(store: Store, r: Request): Store {
    match r
    case Refuse(_) => store
    case Ask(call) => Perform(store, call)
  }

  /** The value that an update of a gauge or counter carries: that of the text, if there is one. */
  function NewGauge(m: Metrics, svalue: string, parseGauge: string -> Option<Float64>): Option<Float64> {
    if svalue == "" then m.value else parseGauge(svalue)
  }

  function NewDelta(m: Metrics, svalue: string): Option<int64> {
    if svalue == "" then m.delta else DecimalText.ParseCounter(svalue)
  }

  /** What one update does, for every record and every text: which are refused, with which answer, and the store that the
      others leave - one name of one of the two maps changed, the gauge set, the counter added to with wrap-around. */
  lemma UpdateIs(m: Metrics, svalue: string, parseGauge: string -> Option<Float64>, store: Store)
    ensures var r, s := RequestOf(m, svalue, parseGauge), Updated(store, RequestOf(m, svalue, parseGauge));
            if m.id == "" then r == Refuse(Status(404))
            else if m.mtype == "gauge" then
              match NewGauge(m, svalue, parseGauge)
              case None => r == Refuse(if svalue == "" then Panicked else Status(400))
              case Some(v) => r.Ask? && s == Store(store.gauge[m.id := v], store.counter)
            else if m.mtype == "counter" then
              match NewDelta(m, svalue)
              case None => r == Refuse(if svalue == "" then Panicked else Status(400))
              case Some(d) =>
                var sum: int := (if m.id in store.counter then store.counter[m.id] else 0) + d;
                r.Ask? && s == Store(store.gauge, store.counter[m.id := Wrap(sum)])
            else r == Refuse(Status(400))
  {
    hide AccumAll, DecimalText.ParseCounter, Wrap;
    if NewDelta(m, svalue).Some? {
      AccumOne(store.counter, m.id, NewDelta(m, svalue).value);
    }
  }

  lemma AccumOne(c: CounterMap, k: string, d: int64)
    ensures var sum: int := (if k in c then c[k] else 0) + d;
            AccumAll(c, map[k := d]) == c[k := Wrap(sum)]
  {
  }

  /** In particular an update of a counter by the text of a number adds that number, and the text of any integer outside
      int64 is refused. */
  lemma UrlCounter(name: string, n: int, parseGauge: string -> Option<Float64>, store: Store)
    requires name != ""
    ensures var m := Metrics(name, "counter", None, None);
            var r := RequestOf(m, DecimalText.FormatCounter(n), parseGauge);
            if InRange(n) then
              Updated(store, r).gauge == store.gauge
              && Updated(store, r).counter
                 == store.counter[name := Wrap((if name in store.counter then store.counter[name] else 0) + n)]
            else r == Refuse(Status(400))
  {
    hide DecimalText.ParseCounter, DecimalText.FormatCounter, RequestOf, Updated;
    DecimalText.ParseCounterOfFormat(n);
    FormatNotEmpty(n);
    UpdateIs(Metrics(name, "counter", None, None), DecimalText.FormatCounter(n), parseGauge, store);
  }

  lemma FormatNotEmpty(n: int)
    ensures DecimalText.FormatCounter(n) != ""
  {
  }

  method UpdateMetrics(m: Metrics, svalue: string, parseGauge: string -> Option<Float64>, db: Db)
    returns (outcome: Outcome)
    modifies db
    ensures match RequestOf(m, svalue, parseGauge)
            case Refuse(o) => outcome == o && db.calls == old(db.calls)
            case Ask(call) =>
              var ok := !Fails(old(db.failures), 0);
              outcome == (if ok then OK else SERVER_ERROR) && db.calls == old(db.calls) + (if ok then [call] else [])
  {
    if m.id == "" {
      return NOT_FOUND;
    }
    var rec := m;
    if m.mtype == GAUGE_TYPE {
      if svalue != "" {
        var v := parseGauge(svalue);
        if v.None? {
          return BAD_REQUEST;
        }
        rec := rec.(value := v);
      }
      if rec.value.None? {
        return Panicked;
      }
      var ok := db.Try(SetGauges(map[rec.id := rec.value.value]));
      return if ok then OK else SERVER_ERROR;
    } else if m.mtype == COUNTER_TYPE {
      if svalue != "" {
        var d := DecimalText.ParseCounter(svalue);
        if d.None? {
          return BAD_REQUEST;
        }
        rec := rec.(delta := d);
      }
      if rec.delta.None? {
        return Panicked;
      }
      var ok := db.Try(AddCounters(map[rec.id := rec.delta.value]));
      return if ok then OK else SERVER_ERROR;
    }
    return BAD_REQUEST;
  }

  // ----- the batch

  /** A record whose pointer the fold would dereference although it is nil. */
  predicate Malformed(r: Metrics) {
    r.id != "" && ((r.mtype == GAUGE_TYPE && r.value.None?) || (r.mtype == COUNTER_TYPE && r.delta.None?))
  }

  ghost predicate WellFormed(recs: seq<Metrics>) {
    forall r | r in recs :: !Malformed(r)
  }

  datatype Maps = Maps(gm: GaugeMap, cm: CounterMap)

  function FoldOne(maps: Maps, r: Metrics): Maps
    requires !Malformed(r)
  {
    if r.id == "" then maps
    else if r.mtype == GAUGE_TYPE then maps.(gm := maps.gm[r.id := r.value.value])
    else if r.mtype == COUNTER_TYPE then maps.(cm := maps.cm[r.id := Accumulate(maps.cm, r.id, r.delta.value)])
    else maps
  }

  /** The two maps that a batch amounts to; None when a nil pointer is met. */
  function Fold(recs: seq<Metrics>): Option<Maps> {
    if recs == [] then Some(Maps(map[], map[]))
    else
      match Fold(recs[..|recs| - 1])
      case None => None
      case Some(maps) => if Malformed(recs[|recs| - 1]) then None else Some(FoldOne(maps, recs[|recs| - 1]))
  }

  lemma {:induction false} FoldNoneIff(recs: seq<Metrics>)
    ensures Fold(recs).None? <==> !WellFormed(recs)
  {
    if recs != [] {
      var init, last := recs[..|recs| - 1], recs[|recs| - 1];
      FoldNoneIff(init);
      assert recs == init + [last];
    }
  }

  method FoldRecords(recs: seq<Metrics>) returns (r: Option<Maps>)
    ensures r == Fold(recs)
  {
    var gm: GaugeMap, cm: CounterMap := map[], map[];
    for i := 0 to |recs|
      invariant Fold(recs[..i]) == Some(Maps(gm, cm))
    {
      var rec := recs[i];
      assert recs[..i + 1][..i] == recs[..i];
      if rec.id == "" {
        continue;
      }
      if rec.mtype == GAUGE_TYPE {
        if rec.value.None? {
          FoldNoneIff(recs);
          assert Malformed(rec) && rec in recs;
          return None;
        }
        gm := gm[rec.id := rec.value.value];
      } else if rec.mtype == COUNTER_TYPE {
        if rec.delta.None? {
          FoldNoneIff(recs);
          assert Malformed(rec) && rec in recs;
          return None;
        }
        if rec.id in cm {
          cm := cm[rec.id := Add(cm[rec.id], rec.delta.value)];
          continue;
        }
        cm := cm[rec.id := rec.delta.value];
      }
    }
    assert recs[..|recs|] == recs;
    return Some(Maps(gm, cm));
  }

  /** The request as far as the handler gets with it before it looks at the records. */
  datatype Body = NotJSON | Unreadable | Unparsable | Records(recs: seq<Metrics>)

  /** The calls that a fold wants made, gauges first. */
  function Wanted(maps: Maps): seq<Call> {
    (if maps.gm != map[] then [SetGauges(maps.gm)] else [])
    + (if maps.cm != map[] then [AddCounters(maps.cm)] else [])
  }

  /** How many of `n` calls in a row succeed before the first failure. */
  function Succeeding(failures: seq<bool>, n: nat): (k: nat)
    ensures k <= n
  {
    if n == 0 || Fails(failures, 0) then 0 else 1 + Succeeding(Later(failures), n - 1)
  }

  function BatchAnswer(body: Body, failures: seq<bool>): (Outcome, seq<Call>) {
    match body
    case NotJSON => (BAD_REQUEST, [])
    case Unreadable => (SERVER_ERROR, [])
    case Unparsable => (BAD_REQUEST, [])
    case Records(recs) =>
      match Fold(recs)
      case None => (Panicked, [])
      case Some(maps) =>
        var wanted := Wanted(maps);
        var k := Succeeding(failures, |wanted|);
        (if wanted == [] then BAD_REQUEST else if wanted[..k] == wanted then OK else SERVER_ERROR, wanted[..k])
  }

  method UpdateBatchHandler(body: Body, db: Db) returns (outcome: Outcome)
    modifies db
    ensures outcome == BatchAnswer(body, old(db.failures)).0
    ensures db.calls == old(db.calls) + BatchAnswer(body, old(db.failures)).1
  {
    hide Fold;
    match body {
      case NotJSON => return BAD_REQUEST;
      case Unreadable => return SERVER_ERROR;
      case Unparsable => return BAD_REQUEST;
      case Records(recs) =>
        var folded := FoldRecords(recs);
        if folded.None? {
          return Panicked;
        }
        var Maps(gm, cm) := folded.value;
        if |gm| == 0 && |cm| == 0 {
          return BAD_REQUEST;
        }
        AnswerCases(folded.value, db.failures);
        if |gm| > 0 {
          var ok := db.Try(SetGauges(gm));
          if !ok {
            return SERVER_ERROR;
          }
        }
        if |cm| > 0 {
          var ok := db.Try(AddCounters(cm));
          if !ok {
            return SERVER_ERROR;
          }
        }
        return OK;
    }
  }

  /** The outcomes of the one or two calls of a batch, spelled out. */
  lemma AnswerCases(maps: Maps, failures: seq<bool>)
    ensures var wanted := Wanted(maps);
            var done := wanted[..Succeeding(failures, |wanted|)];
            var first, second := Fails(failures, 0), Fails(Later(failures), 0);
            done ==
              if maps.gm == map[] then (if maps.cm == map[] || first then [] else [AddCounters(maps.cm)])
              else if first then []
              else if maps.cm == map[] || second then [SetGauges(maps.gm)]
              else [SetGauges(maps.gm), AddCounters(maps.cm)]
  {
    assert Succeeding(failures, 1) == if Fails(failures, 0) then 0 else 1;
    assert Succeeding(Later(failures), 1) == if Fails(Later(failures), 0) then 0 else 1;
  }

  /** A record that is worth something to the store. */
  ghost predicate Counted(r: Metrics) {
    r.id != "" && (r.mtype == "gauge" || r.mtype == "counter")
  }

  lemma {:induction false} NothingWantedIff(recs: seq<Metrics>)
    requires Fold(recs).Some?
    ensures Wanted(Fold(recs).value) == [] <==> forall r | r in recs :: !Counted(r)
  {
    if recs != [] {
      var init, last := recs[..|recs| - 1], recs[|recs| - 1];
      assert forall r :: r in recs <==> r in init || r == last by {
        assert recs == init + [last];
      }
      NothingWantedIff(init);
      FoldOneEmpty(Fold(init).value, last);
    }
  }

  lemma FoldOneEmpty(maps: Maps, r: Metrics)
    requires !Malformed(r)
    ensures Wanted(FoldOne(maps, r)) == [] <==> Wanted(maps) == [] && !Counted(r)
  {
    if r.id != "" && r.mtype == GAUGE_TYPE {
      assert r.id in FoldOne(maps, r).gm;
    } else if r.id != "" && r.mtype == COUNTER_TYPE {
      assert r.id in FoldOne(maps, r).cm;
    }
  }

  /** The first of `n` calls that fails, or `n`. */
  lemma {:induction false} SucceedingIs(failures: seq<bool>, n: nat)
    ensures var k := Succeeding(failures, n);
            (forall i: nat | i < k :: !Fails(failures, i)) && (k < n ==> Fails(failures, k))
  {
    if n > 0 && !Fails(failures, 0) {
      SucceedingIs(Later(failures), n - 1);
      assert forall i: nat :: Fails(Later(failures), i) <==> Fails(failures, i + 1);
      forall i: nat | i < Succeeding(failures, n)
        ensures !Fails(failures, i)
      {
        assert i > 0 ==> !Fails(Later(failures), i - 1);
      }
    }
  }

  ghost predicate SomeFails(failures: seq<bool>, n: nat) {
    exists i: nat :: i < n && Fails(failures, i)
  }

  /** The answer tells what happened to the store, whichever of its calls failed.  A panic exactly for a record that lacks
      its value; 400 exactly for a body that is no JSON or does not parse, or if no record has both a name and a known
      type; 500 exactly for a body that cannot be read or if a call fails; and 200 otherwise.  With 200 each non-empty map
      was applied once, with 400 and a panic nothing, with 500 nothing or exactly the gauges while the counters were
      still due. */
  lemma StatusAgreesWithState(body: Body, failures: seq<bool>)
    ensures var (outcome, calls) := BatchAnswer(body, failures);
            var maps := if body.Records? then Fold(body.recs) else None;
            && (outcome == Panicked <==> body.Records? && !WellFormed(body.recs))
            && (outcome == Status(400) <==>
                  body.NotJSON? || body.Unparsable?
                  || (body.Records? && WellFormed(body.recs) && forall r | r in body.recs :: !Counted(r)))
            && (outcome == Status(500) <==>
                  body.Unreadable? || (maps.Some? && SomeFails(failures, |Wanted(maps.value)|)))
            && outcome in {Status(200), Status(400), Status(500), Panicked}
            && (outcome == OK <==> maps.Some? && calls != [] && calls == Wanted(maps.value))
            && (outcome == BAD_REQUEST || outcome == Panicked ==> calls == [])
            && (outcome == SERVER_ERROR ==>
                  calls == [] || (maps.Some? && calls == [SetGauges(maps.value.gm)] && maps.value.cm != map[]))
  {
    if body.Records? {
      FoldNoneIff(body.recs);
      if Fold(body.recs).Some? {
        NothingWantedIff(body.recs);
        SucceedingIs(failures, |Wanted(Fold(body.recs).value)|);
        AnswerIs(body.recs, failures);
      }
    }
  }

  lemma AnswerIs(recs: seq<Metrics>, failures: seq<bool>)
    requires Fold(recs).Some?
    ensures var (outcome, calls) := BatchAnswer(Records(recs), failures);
            var wanted := Wanted(Fold(recs).value);
            var k := Succeeding(failures, |wanted|);
            outcome == (if wanted == [] then BAD_REQUEST else if k == |wanted| then OK else SERVER_ERROR)
            && calls == wanted[..k] && |calls| == k
  {
    var wanted := Wanted(Fold(recs).value);
    assert wanted[..|wanted|] == wanted;
  }

  // ----- a batch means its records one after the other

  ghost function NoFloatText(s: string): Option<Float64> {
    None
  }

  /** The store after one JSON record. */
  ghost function ApplyOne(store: Store, r: Metrics): Store {
    Updated(store, RequestOf(r, "", NoFloatText))
  }

  ghost function ApplyEach(store: Store, recs: seq<Metrics>): Store {
    if recs == [] then store else ApplyOne(ApplyEach(store, recs[..|recs| - 1]), recs[|recs| - 1])
  }

  ghost function ApplyBatch(store: Store, recs: seq<Metrics>): Store {
    Replay(store, BatchAnswer(Records(recs), []).1)
  }

  ghost function Merge(store: Store, maps: Maps): Store {
    Store(SetAll(store.gauge, maps.gm), AccumAll(store.counter, maps.cm))
  }

  lemma AccumOneMore(c: CounterMap, cm: CounterMap, k: string, d: int64)
    ensures AccumAll(c, cm[k := Accumulate(cm, k, d)]) == AccumAll(AccumAll(c, cm), map[k := d])
  {
    if k in c && k in cm {
      AddAssociative(c[k], cm[k], d);
    }
  }

  lemma SetOneMore(g: GaugeMap, gm: GaugeMap, k: string, v: Float64)
    ensures SetAll(g, gm[k := v]) == SetAll(SetAll(g, gm), map[k := v])
  {
    assert g + gm[k := v] == g + gm + map[k := v];
  }

  lemma MergeOneMore(store: Store, maps: Maps, r: Metrics)
    requires !Malformed(r)
    ensures Merge(store, FoldOne(maps, r)) == ApplyOne(Merge(store, maps), r)
  {
    hide AccumAll, Accumulate;
    if r.id != "" && r.mtype == GAUGE_TYPE {
      SetOneMore(store.gauge, maps.gm, r.id, r.value.value);
    } else if r.id != "" && r.mtype == COUNTER_TYPE {
      AccumOneMore(store.counter, maps.cm, r.id, r.delta.value);
    }
  }

  lemma MergeEmpty(store: Store)
    ensures Merge(store, Maps(map[], map[])) == store
  {
    assert SetAll(store.gauge, map[]) == store.gauge;
    assert AccumAll(store.counter, map[]) == store.counter;
  }

  lemma {:induction false} MergeIsApplyEach(store: Store, recs: seq<Metrics>)
    requires WellFormed(recs)
    ensures Fold(recs).Some? && Merge(store, Fold(recs).value) == ApplyEach(store, recs)
  {
    FoldNoneIff(recs);
    if recs == [] {
      MergeEmpty(store);
    } else {
      var init, last := recs[..|recs| - 1], recs[|recs| - 1];
      assert forall r | r in init :: r in recs;
      MergeIsApplyEach(store, init);
      MergeOneMore(store, Fold(init).value, last);
    }
  }

  lemma ReplayWanted(store: Store, maps: Maps)
    ensures Replay(store, Wanted(maps)) == Merge(store, maps)
  {
    MergeEmpty(store);
    var first := if maps.gm != map[] then [SetGauges(maps.gm)] else [];
    ReplayOne(store, [], SetGauges(maps.gm));
    assert [] + [SetGauges(maps.gm)] == [SetGauges(maps.gm)];
    ReplayOne(store, first, AddCounters(maps.cm));
    if maps.cm == map[] {
      assert Wanted(maps) == first;
    }
  }

  lemma {:induction false} AllSucceed(n: nat)
    ensures Succeeding([], n) == n
  {
    if n > 0 {
      AllSucceed(n - 1);
    }
  }

  /** Applying a batch at once gives the store that applying its records in order gives. */
  lemma BatchEqualsSequence(store: Store, recs: seq<Metrics>)
    requires WellFormed(recs)
    ensures ApplyBatch(store, recs) == ApplyEach(store, recs)
  {
    MergeIsApplyEach(store, recs);
    var maps := Fold(recs).value;
    AllSucceed(|Wanted(maps)|);
    assert Wanted(maps)[..|Wanted(maps)|] == Wanted(maps);
    ReplayWanted(store, maps);
  }

  lemma {:induction false} EachConcat(store: Store, a: seq<Metrics>, b: seq<Metrics>)
    ensures ApplyEach(store, a + b) == ApplyEach(ApplyEach(store, a), b)
  {
    if b == [] {
      assert a + b == a;
    } else {
      assert (a + b)[..|a + b| - 1] == a + b[..|b| - 1];
      EachConcat(store, a, b[..|b| - 1]);
    }
  }

  /** One batch of two lists is the two batches in a row. */
  lemma BatchConcat(store: Store, a: seq<Metrics>, b: seq<Metrics>)
    requires WellFormed(a) && WellFormed(b)
    ensures ApplyBatch(store, a + b) == ApplyBatch(ApplyBatch(store, a), b)
  {
    BatchEqualsSequence(store, a);
    BatchEqualsSequence(ApplyEach(store, a), b);
    BatchEqualsSequence(store, a + b);
    EachConcat(store, a, b);
  }

  // ----- what a batch does to one name

  ghost predicate IsGauge(r: Metrics, k: string) {
    k != "" && r.id == k && r.mtype == GAUGE_TYPE && r.value.Some?
  }

  ghost predicate IsCounter(r: Metrics, k: string) {
    k != "" && r.id == k && r.mtype == COUNTER_TYPE && r.delta.Some?
  }

  /** The values that the list writes to gauge `k`, in order. */
  ghost function GaugeWrites(recs: seq<Metrics>, k: string): seq<Float64> {
    if recs == [] then []
    else
      var r := recs[|recs| - 1];
      GaugeWrites(recs[..|recs| - 1], k) + (if IsGauge(r, k) then [r.value.value] else [])
  }

  ghost function DeltaOf(r: Metrics, k: string): int {
    if IsCounter(r, k) then r.delta.value else 0
  }

  ghost function DeltaSum(recs: seq<Metrics>, k: string): int {
    if recs == [] then 0 else DeltaSum(recs[..|recs| - 1], k) + DeltaOf(recs[|recs| - 1], k)
  }

  ghost predicate Counts(recs: seq<Metrics>, k: string) {
    exists r :: r in recs && IsCounter(r, k)
  }

  lemma GaugeByName(store: Store, r: Metrics, k: string)
    ensures var s := ApplyOne(store, r);
            (k in s.gauge <==> k in store.gauge || IsGauge(r, k))
            && (k in s.gauge ==> s.gauge[k] == if IsGauge(r, k) then r.value.value else store.gauge[k])
  {
  }

  lemma CounterByName(store: Store, r: Metrics, k: string)
    ensures var s := ApplyOne(store, r);
            (k in s.counter <==> k in store.counter || IsCounter(r, k))
            && (k in s.counter ==>
                  s.counter[k] == if IsCounter(r, k) then Accumulate(store.counter, k, r.delta.value)
                                  else store.counter[k])
  {
  }

  /** A gauge ends as the last value written to it. */
  lemma {:induction false} EachGauge(store: Store, recs: seq<Metrics>, k: string)
    ensures var s, writes := ApplyEach(store, recs), GaugeWrites(recs, k);
            (k in s.gauge <==> k in store.gauge || writes != [])
            && (k in s.gauge ==> s.gauge[k] == if writes != [] then writes[|writes| - 1] else store.gauge[k])
  {
    hide ApplyOne;
    if recs != [] {
      var init, r := recs[..|recs| - 1], recs[|recs| - 1];
      EachGauge(store, init, k);
      GaugeByName(ApplyEach(store, init), r, k);
    }
  }

  ghost function Base(store: Store, k: string): int {
    if k in store.counter then store.counter[k] else 0
  }

  lemma CountsStep(recs: seq<Metrics>, k: string)
    requires recs != []
    ensures Counts(recs, k) <==> Counts(recs[..|recs| - 1], k) || IsCounter(recs[|recs| - 1], k)
  {
    var init, r := recs[..|recs| - 1], recs[|recs| - 1];
    assert recs == init + [r];
    assert forall x :: x in recs <==> x in init || x == r;
  }

  /** A counter ends as the wrapped sum of where it was and its deltas. */
  lemma {:induction false} EachCounter(store: Store, recs: seq<Metrics>, k: string)
    ensures var s := ApplyEach(store, recs);
            (k in s.counter <==> k in store.counter || Counts(recs, k))
            && (k in s.counter ==> s.counter[k] == Wrap(Base(store, k) + DeltaSum(recs, k)))
            && (!Counts(recs, k) ==> DeltaSum(recs, k) == 0)
  {
    hide ApplyOne, Counts, Wrap;
    if recs == [] {
      NothingCounts(k);
      WrapInRange(Base(store, k));
    } else {
      var init, r := recs[..|recs| - 1], recs[|recs| - 1];
      EachCounter(store, init, k);
      CounterByName(ApplyEach(store, init), r, k);
      CountsStep(recs, k);
      if IsCounter(r, k) {
        WrapOperand(Base(store, k) + DeltaSum(init, k), r.delta.value);
        WrapInRange(r.delta.value);
      }
    }
  }

  lemma NothingCounts(k: string)
    ensures !Counts([], k)
  {
  }

  lemma WrapInRange(x: int)
    requires InRange(x)
    ensures Wrap(x) == x
  {
  }

  lemma {:induction false} DeltaSumTakeOut(recs: seq<Metrics>, i: nat, k: string)
    requires i < |recs|
    ensures DeltaSum(recs, k) == DeltaSum(recs[..i] + recs[i + 1..], k) + DeltaOf(recs[i], k)
  {
    var init := recs[..|recs| - 1];
    if i == |recs| - 1 {
      assert recs[..i] + recs[i + 1..] == init;
    } else {
      DeltaSumTakeOut(init, i, k);
      var rest := recs[..i] + recs[i + 1..];
      assert rest[..|rest| - 1] == init[..i] + init[i + 1..];
    }
  }

  lemma {:induction false} DeltaSumOfPermutation(a: seq<Metrics>, b: seq<Metrics>, k: string)
    requires multiset(a) == multiset(b)
    ensures DeltaSum(a, k) == DeltaSum(b, k)
    decreases |a|
  {
    if a == [] {
      assert |b| == |multiset(b)| == 0;
    } else {
      var init, r := a[..|a| - 1], a[|a| - 1];
      assert a == init + [r];
      assert r in multiset(a);
      assert r in b;
      var i :| 0 <= i < |b| && b[i] == r;
      assert b == b[..i] + [r] + b[i + 1..];
      assert multiset(b[..i] + b[i + 1..]) == multiset(b) - multiset{r};
      DeltaSumTakeOut(b, i, k);
      DeltaSumOfPermutation(init, b[..i] + b[i + 1..], k);
    }
  }

  /** Reordering a batch without reordering the writes to any one gauge changes nothing. */
  lemma PermutationKeeps(store: Store, a: seq<Metrics>, b: seq<Metrics>)
    requires WellFormed(a) && multiset(a) == multiset(b)
    requires forall k :: GaugeWrites(a, k) == GaugeWrites(b, k)
    ensures ApplyBatch(store, a) == ApplyBatch(store, b)
  {
    assert forall r :: r in a <==> r in multiset(a);
    assert forall r :: r in b <==> r in multiset(b);
    BatchEqualsSequence(store, a);
    BatchEqualsSequence(store, b);
    hide ApplyEach, ApplyBatch, WellFormed, GaugeWrites;
    var s, t := ApplyEach(store, a), ApplyEach(store, b);
    forall k
      ensures (k in s.gauge <==> k in t.gauge) && (k in s.gauge ==> s.gauge[k] == t.gauge[k])
      ensures (k in s.counter <==> k in t.counter) && (k in s.counter ==> s.counter[k] == t.counter[k])
    {
      assert GaugeWrites(a, k) == GaugeWrites(b, k);
      SameByName(store, a, b, k);
    }
    assert s.gauge == t.gauge && s.counter == t.counter;
  }

  lemma SameByName(store: Store, a: seq<Metrics>, b: seq<Metrics>, k: string)
    requires multiset(a) == multiset(b) && GaugeWrites(a, k) == GaugeWrites(b, k)
    ensures var s, t := ApplyEach(store, a), ApplyEach(store, b);
            (k in s.gauge <==> k in t.gauge) && (k in s.gauge ==> s.gauge[k] == t.gauge[k])
            && (k in s.counter <==> k in t.counter) && (k in s.counter ==> s.counter[k] == t.counter[k])
  {
    hide ApplyEach, GaugeWrites, DeltaSum, Wrap;
    EachGauge(store, a, k);
    EachGauge(store, b, k);
    EachCounter(store, a, k);
    EachCounter(store, b, k);
    DeltaSumOfPermutation(a, b, k);
    assert forall r :: r in a <==> r in multiset(a);
    assert forall r :: r in b <==> r in multiset(b);
  }

  // ----- the agent's side

  function GaugeRecord(k: string, v: Float64): Metrics {
    Metrics(k, GAUGE_TYPE, None, Some(v))
  }

  function CounterRecord(k: string, d: int64): Metrics {
    Metrics(k, COUNTER_TYPE, Some(d), None)
  }

  ghost function GaugeRecords(gm: GaugeMap, ks: seq<string>): seq<Metrics>
    requires forall k | k in ks :: k in gm
  {
    if ks == [] then [] else GaugeRecords(gm, ks[..|ks| - 1]) + [GaugeRecord(ks[|ks| - 1], gm[ks[|ks| - 1]])]
  }

  ghost function CounterRecords(cm: CounterMap, ks: seq<string>): seq<Metrics>
    requires forall k | k in ks :: k in cm
  {
    if ks == [] then [] else CounterRecords(cm, ks[..|ks| - 1]) + [CounterRecord(ks[|ks| - 1], cm[ks[|ks| - 1]])]
  }

  /** The records of both maps, gauges first, each map in some order. */
  ghost predicate Batches(recs: seq<Metrics>, gm: GaugeMap, cm: CounterMap) {
    exists gks, cks :: Json.Lists(gks, gm) && Json.Lists(cks, cm)
                       && recs == GaugeRecords(gm, gks) + CounterRecords(cm, cks)
  }

  method BuildReqBatch(gm: GaugeMap, cm: CounterMap) returns (recs: seq<Metrics>)
    ensures Batches(recs, gm, cm)
  {
    recs := [];
    ghost var gks, cks: seq<string> := [], [];
    var rest := gm.Keys;
    while rest != {}
      invariant rest <= gm.Keys
      invariant NoDuplicates(gks) && forall k :: k in gks <==> k in gm.Keys - rest
      invariant recs == GaugeRecords(gm, gks)
      decreases |rest|
    {
      var k :| k in rest;
      recs := recs + [GaugeRecord(k, gm[k])];
      assert (gks + [k])[..|gks|] == gks && k !in gks;
      gks := gks + [k];
      rest := rest - {k};
    }
    var rest' := cm.Keys;
    while rest' != {}
      invariant rest' <= cm.Keys
      invariant NoDuplicates(cks) && forall k :: k in cks <==> k in cm.Keys - rest'
      invariant recs == GaugeRecords(gm, gks) + CounterRecords(cm, cks)
      decreases |rest'|
    {
      var k :| k in rest';
      recs := recs + [CounterRecord(k, cm[k])];
      assert (cks + [k])[..|cks|] == cks && k !in cks;
      cks := cks + [k];
      rest' := rest' - {k};
    }
    assert Json.Lists(gks, gm) && Json.Lists(cks, cm);
  }

  ghost function Named<V>(m: map<string, V>, ks: seq<string>): map<string, V> {
    map k | k in m && k in ks && k != "" :: m[k]
  }

  lemma NamedStep<V>(m: map<string, V>, init: seq<string>, k: string)
    requires k in m
    ensures Named(m, init + [k]) == if k == "" then Named(m, init) else Named(m, init)[k := m[k]]
    ensures k !in init ==> k !in Named(m, init)
  {
  }

  lemma FoldStep(recs: seq<Metrics>, r: Metrics)
    requires Fold(recs).Some? && !Malformed(r)
    ensures Fold(recs + [r]) == Some(FoldOne(Fold(recs).value, r))
  {
    assert (recs + [r])[..|recs|] == recs;
  }

  lemma {:induction false} FoldGauges(gm: GaugeMap, ks: seq<string>)
    requires forall k | k in ks :: k in gm
    ensures Fold(GaugeRecords(gm, ks)) == Some(Maps(Named(gm, ks), map[]))
  {
    if ks == [] {
      assert Named(gm, ks) == map[];
    } else {
      var init, k := ks[..|ks| - 1], ks[|ks| - 1];
      FoldGauges(gm, init);
      FoldStep(GaugeRecords(gm, init), GaugeRecord(k, gm[k]));
      NamedStep(gm, init, k);
      assert ks == init + [k];
    }
  }

  lemma {:induction false} FoldCounters(first: seq<Metrics>, gm: GaugeMap, cm: CounterMap, ks: seq<string>)
    requires Fold(first) == Some(Maps(gm, map[]))
    requires NoDuplicates(ks) && forall k | k in ks :: k in cm
    ensures Fold(first + CounterRecords(cm, ks)) == Some(Maps(gm, Named(cm, ks)))
    decreases ks
  {
    hide Fold, Named;
    if ks == [] {
      assert first + CounterRecords(cm, ks) == first;
      NothingNamed(cm);
    } else {
      var init, k := ks[..|ks| - 1], ks[|ks| - 1];
      FoldCounters(first, gm, cm, init);
      FoldStep(first + CounterRecords(cm, init), CounterRecord(k, cm[k]));
      assert first + CounterRecords(cm, ks) == first + CounterRecords(cm, init) + [CounterRecord(k, cm[k])];
      assert k !in init;
      NamedStep(cm, init, k);
      assert ks == init + [k];
    }
  }

  lemma NothingNamed<V>(m: map<string, V>)
    ensures Named(m, []) == map[]
  {
  }

  /** One record for each metric, and nothing in it but its type, its name and its value. */
  ghost predicate RecordOf(r: Metrics, gm: GaugeMap, cm: CounterMap) {
    || (r.id in gm && r == Metrics(r.id, "gauge", None, Some(gm[r.id])))
    || (r.id in cm && r == Metrics(r.id, "counter", Some(cm[r.id]), None))
  }

  lemma {:induction false} GaugeRecordsOf(gm: GaugeMap, cm: CounterMap, ks: seq<string>)
    requires forall k | k in ks :: k in gm
    ensures |GaugeRecords(gm, ks)| == |ks| && forall r | r in GaugeRecords(gm, ks) :: RecordOf(r, gm, cm)
  {
    if ks != [] {
      GaugeRecordsOf(gm, cm, ks[..|ks| - 1]);
    }
  }

  lemma {:induction false} CounterRecordsOf(gm: GaugeMap, cm: CounterMap, ks: seq<string>)
    requires forall k | k in ks :: k in cm
    ensures |CounterRecords(cm, ks)| == |ks| && forall r | r in CounterRecords(cm, ks) :: RecordOf(r, gm, cm)
  {
    if ks != [] {
      CounterRecordsOf(gm, cm, ks[..|ks| - 1]);
    }
  }

  lemma BatchShape(recs: seq<Metrics>, gm: GaugeMap, cm: CounterMap)
    requires Batches(recs, gm, cm)
    ensures |recs| == |gm| + |cm| && forall r | r in recs :: RecordOf(r, gm, cm)
  {
    var gks, cks :| Json.Lists(gks, gm) && Json.Lists(cks, cm)
                    && recs == GaugeRecords(gm, gks) + CounterRecords(cm, cks);
    GaugeRecordsOf(gm, cm, gks);
    CounterRecordsOf(gm, cm, cks);
    DistinctSize(gks);
    DistinctSize(cks);
    assert (set k | k in gks) == gm.Keys && (set k | k in cks) == cm.Keys;
    assert |gm| == |gm.Keys| && |cm| == |cm.Keys|;
  }

  /** The server's fold undoes the agent's batch, whatever the order in which the agent ranged over its maps;
      only a metric with an empty name would be dropped. */
  lemma EncodeDecode(recs: seq<Metrics>, gm: GaugeMap, cm: CounterMap)
    requires Batches(recs, gm, cm)
    ensures Fold(recs) == Some(Maps(gm - {""}, cm - {""}))
    ensures Fold(recs) == Some(Maps(gm, cm)) <==> "" !in gm && "" !in cm
  {
    var gks, cks :| Json.Lists(gks, gm) && Json.Lists(cks, cm)
                    && recs == GaugeRecords(gm, gks) + CounterRecords(cm, cks);
    hide Fold, GaugeRecords, CounterRecords;
    NamedAll(gm, gks);
    NamedAll(cm, cks);
    FoldGauges(gm, gks);
    FoldCounters(GaugeRecords(gm, gks), Named(gm, gks), cm, cks);
  }

  lemma NamedAll<V>(m: map<string, V>, ks: seq<string>)
    requires Json.Lists(ks, m)
    ensures Named(m, ks) == m - {""}
    ensures m - {""} == m <==> "" !in m
  {
    assert "" !in m - {""};
  }

  /** Hence a report posted by the agent merges into the store as the two maps it was built from. */
  lemma ReportMerges(recs: seq<Metrics>, gm: GaugeMap, cm: CounterMap, store: Store)
    requires Batches(recs, gm, cm) && "" !in gm && "" !in cm
    ensures ApplyBatch(store, recs) == Store(SetAll(store.gauge, gm), AccumAll(store.counter, cm))
  {
    EncodeDecode(recs, gm, cm);
    FoldNoneIff(recs);
    BatchEqualsSequence(store, recs);
    MergeIsApplyEach(store, recs);
  }
}
