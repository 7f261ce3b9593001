/** The in-memory repository and its transactions, one caller at a time (internal/repo/safe/safe.go,
    internal/repo/memory/memory.go).  What the RWMutex adds is in `Linearizability`. */
module Safe {
  import opened Wrappers
  import opened Int64
  import opened Mondata

  /** `m` cut down to the keys in `ks`: the part of a batch that a loop has merged so far. */
  ghost function Only<T>(m: map<string, T>, ks: set<string>): map<string, T> {
    map k | k in m.Keys * ks :: m[k]
  }

  lemma SetStep<T>(data: map<string, T>, batch: map<string, T>, rest: set<string>, k: string)
    requires k in rest && rest <= batch.Keys
    ensures (data + Only(batch, batch.Keys - rest))[k := batch[k]] == data + Only(batch, batch.Keys - (rest - {k}))
  {
  }

  lemma SetEnds<T>(data: map<string, T>, batch: map<string, T>)
    ensures data + Only(batch, batch.Keys - batch.Keys) == data
    ensures Only(batch, batch.Keys - {}) == batch
  {
  }

  /** Present keys grow by their delta, new keys start at it. */
  ghost function Merged<T>(plus: (T, T) -> T, data: map<string, T>, batch: map<string, T>): map<string, T> {
    map k | k in data.Keys + batch.Keys ::
      if k !in batch then data[k] else if k in data then plus(data[k], batch[k]) else batch[k]
  }

  /** `now` is `data` with every key of `batch` merged in except those in `rest`. */
  ghost predicate MergedBut<T>(plus: (T, T) -> T, data: map<string, T>, batch: map<string, T>,
                               rest: set<string>, now: map<string, T>)
  {
    && now.Keys == data.Keys + (batch.Keys - rest)
    && forall k | k in now ::
         now[k] == if k !in batch || k in rest then data[k]
                   else if k in data then plus(data[k], batch[k]) else batch[k]
  }

  lemma MergedStep<T>(plus: (T, T) -> T, data: map<string, T>, batch: map<string, T>,
                      rest: set<string>, now: map<string, T>, k: string, v: T)
    requires k in rest && rest <= batch.Keys && MergedBut(plus, data, batch, rest, now)
    requires v == if k in now then plus(now[k], batch[k]) else batch[k]
    ensures MergedBut(plus, data, batch, rest - {k}, now[k := v])
  {
  }

  lemma MergedAll<T>(plus: (T, T) -> T, data: map<string, T>, batch: map<string, T>, now: map<string, T>)
    requires MergedBut(plus, data, batch, {}, now)
    ensures now == Merged(plus, data, batch)
  {
  }

  /** The int64 operator `+`. */
  const PLUS: (int64, int64) -> int64 := (a: int64, b: int64) => Add(a, b)

  lemma MergedIsAccumAll(data: CounterMap, batch: CounterMap)
    ensures Merged(PLUS, data, batch) == AccumAll(data, batch)
  {
  }

  /** `plus` stands for the operator that Go picks for the type parameter. */
  class MRepo<T> {
    var data: map<string, T>

    constructor ()
      ensures data == map[]
    {
      data := map[];
    }

    method Get(name: string) returns (v: Option<T>)
      ensures v == if name in data then Some(data[name]) else None
    {
      v := if name in data then Some(data[name]) else None;
    }

    method Set(name: string, v: T)
      modifies this
      ensures data == old(data) + map[name := v]
    {
      data := data[name := v];
    }

    method SetAccum(name: string, v: T, plus: (T, T) -> T)
      modifies this
      ensures data == Merged(plus, old(data), map[name := v])
    {
      if name in data {
        data := data[name := plus(data[name], v)];
        return;
      }
      data := data[name := v];
    }

    /** Ranges over the batch in whatever order the runtime picks. */
    method SetAll(batch: map<string, T>)
      modifies this
      ensures data == old(data) + batch
    {
      hide Only;
      ghost var was := data;
      var rest := batch.Keys;
      SetEnds(was, batch);
      while rest != {}
        invariant rest <= batch.Keys
        invariant data == was + Only(batch, batch.Keys - rest)
        decreases |rest|
      {
        var k :| k in rest;
        SetStep(was, batch, rest, k);
        data := data[k := batch[k]];
        rest := rest - {k};
      }
    }

    method SetAccumAll(batch: map<string, T>, plus: (T, T) -> T)
      modifies this
      ensures data == Merged(plus, old(data), batch)
    {
      ghost var was := data;
      var rest := batch.Keys;
      while rest != {}
        invariant rest <= batch.Keys
        invariant MergedBut(plus, was, batch, rest, data)
        decreases |rest|
      {
        var k :| k in rest;
        var v := if k in data then plus(data[k], batch[k]) else batch[k];
        MergedStep(plus, was, batch, rest, data, k, v);
        data := data[k := v];
        rest := rest - {k};
      }
      MergedAll(plus, was, batch, data);
    }
  }

  /** The two repositories of one server; its methods never return an error. */
  class MemorySt {
    const gauge: MRepo<Float64>
    const counter: MRepo<int64>

    constructor ()
      ensures fresh(gauge) && fresh(counter)
      ensures Contents() == EMPTY_STORE
    {
      gauge := new MRepo<Float64>();
      counter := new MRepo<int64>();
    }

    ghost function Contents(): Store
      reads gauge, counter
    {
      Store(gauge.data, counter.data)
    }

    method GetGauge(name: string) returns (v: Option<Float64>)
      ensures v == if name in Contents().gauge then Some(Contents().gauge[name]) else None
    {
      v := gauge.Get(name);
    }

    method GetCounter(name: string) returns (v: Option<int64>)
      ensures v == if name in Contents().counter then Some(Contents().counter[name]) else None
    {
      v := counter.Get(name);
    }

    method SetGauge(name: string, value: Float64)
      modifies gauge
      ensures Contents() == old(Contents()).(gauge := SetAll(old(Contents()).gauge, map[name := value]))
    {
      gauge.Set(name, value);
    }

    method SetGaugeAll(metrics: GaugeMap)
      modifies gauge
      ensures Contents() == old(Contents()).(gauge := SetAll(old(Contents()).gauge, metrics))
    {
      gauge.SetAll(metrics);
    }

    method SetCounter(name: string, value: int64)
      modifies counter
      ensures Contents() == old(Contents()).(counter := AccumAll(old(Contents()).counter, map[name := value]))
    {
      counter.SetAccum(name, value, PLUS);
      MergedIsAccumAll(old(counter.data), map[name := value]);
    }

    method SetCounterAll(values: CounterMap)
      modifies counter
      ensures Contents() == old(Contents()).(counter := AccumAll(old(Contents()).counter, values))
    {
      counter.SetAccumAll(values, PLUS);
      MergedIsAccumAll(old(counter.data), values);
    }
  }
}
