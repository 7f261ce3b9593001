/** The metric values and records that agent and server exchange (internal/mondata/mondata.go). */
module Mondata {
  import opened Wrappers
  import opened Int64

  /** A float64 as its IEEE 754 bit pattern: gauges are stored, copied and compared, never computed with. */
  type Float64 = b: int | 0 <= b < TWO_64

  const TWO_52: int := 0x10_0000_0000_0000

  /** Neither an infinity nor a NaN: the eleven exponent bits are not all ones. */
  predicate IsFinite(f: Float64) {
    (f / TWO_52) % 2048 != 2047
  }

  /** Without its sign bit an infinity or a NaN is at least the pattern of the infinity. */
  lemma FiniteIff(f: Float64)
    ensures IsFinite(f) <==> f % 0x8000_0000_0000_0000 < 0x7FF0_0000_0000_0000
  {
    var high := f / TWO_52;
    assert f == high * TWO_52 + f % TWO_52;
    assert high == (high / 2048) * 2048 + high % 2048;
    assert f == (high / 2048) * TWO_63 + ((high % 2048) * TWO_52 + f % TWO_52);
  }

  type GaugeMap = map<string, Float64>
  type CounterMap = map<string, int64>

  const GAUGE_TYPE := "gauge"
  const COUNTER_TYPE := "counter"

  /** One record of a JSON batch; `delta` and `value` are the source's pointers, nil when the field is absent. */
  datatype Metrics = Metrics(id: string, mtype: string, delta: Option<int64>, value: Option<Float64>)

  /** What either back end holds: one map per metric type. */
  datatype Store = Store(gauge: GaugeMap, counter: CounterMap)

  const EMPTY_STORE := Store(map[], map[])

  /** Go's two-valued map index. */
  function Find<V>(m: map<string, V>, k: string): Option<V> {
    if k in m then Some(m[k]) else None
  }

  // ----- what the writing operations of a store mean

  /** Every key of `batch` takes its new value. */
  function SetAll<T>(data: map<string, T>, batch: map<string, T>): map<string, T> {
    data + batch
  }

  /** A key already present grows by its delta (wrapping); a new key starts at its delta. */
  function Accumulate(data: CounterMap, k: string, d: int64): int64 {
    if k in data then Add(data[k], d) else d
  }

  function AccumAll(data: CounterMap, batch: CounterMap): CounterMap {
    map k | k in data.Keys + batch.Keys ::
      if k in batch then Accumulate(data, k, batch[k]) else data[k]
  }

  /** A call that the store carried out; the one-name setters are batches of one. */
  datatype Call = SetGauges(gm: GaugeMap) | AddCounters(cm: CounterMap)

  function Perform(store: Store, call: Call): Store {
    match call
    case SetGauges(gm) => store.(gauge := SetAll(store.gauge, gm))
    case AddCounters(cm) => store.(counter := AccumAll(store.counter, cm))
  }

  function Replay(store: Store, calls: seq<Call>): Store {
    if calls == [] then store else Perform(Replay(store, calls[..|calls| - 1]), calls[|calls| - 1])
  }

  lemma ReplayOne(store: Store, calls: seq<Call>, call: Call)
    ensures Replay(store, calls + [call]) == Perform(Replay(store, calls), call)
    ensures Replay(store, []) == store
  {
    assert (calls + [call])[..|calls|] == calls;
  }
}
