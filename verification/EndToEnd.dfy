/** From the collector's ticks to the server's store: the composition of the agent's two goroutine systems, the batch
    built for each report, and the server's accumulation. */
module EndToEnd {
  import opened Counting
  import opened Int64
  import opened Mondata
  import Collector
  import Handlers
  import Pipeline

  /** A report as a worker finds it: the collector's state when the worker ranges over the (live) maps, and the
      records it builds from them. */
  datatype Report = Report(agent: Collector.State, recs: seq<Metrics>)

  ghost predicate Genuine(r: Report) {
    Collector.Reachable(r.agent) && Handlers.Batches(r.recs, r.agent.gauge, r.agent.counter)
  }

  predicate Carries(r: Report) {
    Collector.POLL_COUNT in r.agent.counter
  }

  /** The worker posts no empty body, the server applies every batch it gets. */
  ghost function Delivered(store: Store, r: Report): Store {
    if r.agent.gauge == map[] && r.agent.counter == map[] then store else Handlers.ApplyBatch(store, r.recs)
  }

  ghost function AllDelivered(store: Store, reports: seq<Report>): Store {
    if reports == [] then store
    else Delivered(AllDelivered(store, reports[..|reports| - 1]), reports[|reports| - 1])
  }

  function Carrying(reports: seq<Report>): nat {
    if reports == [] then 0
    else Carrying(reports[..|reports| - 1]) + if Carries(reports[|reports| - 1]) then 1 else 0
  }

  lemma DeliveredCounter(store: Store, r: Report)
    requires Genuine(r)
    ensures Delivered(store, r).counter ==
            if Carries(r) then AccumAll(store.counter, map[Collector.POLL_COUNT := 1]) else store.counter
  {
    hide Handlers.ApplyBatch, Handlers.Batches;
    Collector.ReportsAreComplete(r.agent);
    Handlers.ReportMerges(r.recs, r.agent.gauge, r.agent.counter, store);
  }

  /** Whatever the order in which the reports arrive, the server's `PollCount` grows by exactly the number of
      reports that carry it, modulo 2^64, and no other counter changes. */
  lemma {:induction false} PollCountGrows(store: Store, reports: seq<Report>)
    requires forall r | r in reports :: Genuine(r)
    ensures var s := AllDelivered(store, reports);
            && (Collector.POLL_COUNT in s.counter <==> Collector.POLL_COUNT in store.counter || Carrying(reports) > 0)
            && Handlers.Base(s, Collector.POLL_COUNT) == Wrap(Handlers.Base(store, Collector.POLL_COUNT) + Carrying(reports))
            && s.counter - {Collector.POLL_COUNT} == store.counter - {Collector.POLL_COUNT}
    decreases |reports|
  {
    hide Delivered, Genuine;
    if reports != [] {
      var init, r := reports[..|reports| - 1], reports[|reports| - 1];
      PollCountGrows(store, init);
      DeliveredCounter(AllDelivered(store, init), r);
      WrapOperand(Handlers.Base(store, Collector.POLL_COUNT) + Carrying(init), 1);
    }
  }

  ghost function InOrder(order: seq<nat>, report: nat -> Report): seq<Report> {
    if order == [] then [] else InOrder(order[..|order| - 1], report) + [report(order[|order| - 1])]
  }

  ghost function CarryingIds(order: seq<nat>, report: nat -> Report): set<nat> {
    set id | id in order && Carries(report(id))
  }

  lemma {:induction false} CarryingInOrder(order: seq<nat>, report: nat -> Report)
    requires NoDuplicates(order) && forall id | id in order :: Genuine(report(id))
    ensures Carrying(InOrder(order, report)) == |CarryingIds(order, report)|
    ensures forall r | r in InOrder(order, report) :: Genuine(r)
    decreases |order|
  {
    hide Genuine, Carries;
    if order != [] {
      var init, id := order[..|order| - 1], order[|order| - 1];
      assert order == init + [id];
      assert id in order && id !in init;
      CarryingInOrder(init, report);
      CarryingOne(InOrder(init, report), report(id));
      assert CarryingIds(order, report) == CarryingIds(init, report) + if Carries(report(id)) then {id} else {};
    }
  }

  lemma CarryingOne(reports: seq<Report>, r: Report)
    ensures Carrying(reports + [r]) == Carrying(reports) + if Carries(r) then 1 else 0
  {
    assert (reports + [r])[..|reports|] == reports;
  }

  ghost function CarriedTicks(n: nat, report: nat -> Report): set<nat> {
    set id: nat | id < n && Carries(report(id))
  }

  /** Once the agent has shut down, the report of each of its ticks has reached the server exactly once, so that the
      server has counted each tick whose report carried `PollCount` once - in whatever order the posts arrived. */
  lemma EveryTickCounts(s0: Pipeline.State, actions: seq<Pipeline.Action>, report: nat -> Report, order: seq<nat>,
                        store: Store)
    requires Pipeline.Init(s0) && Pipeline.Runs(s0, actions) && |s0.workers| > 0
    requires Pipeline.After(s0, actions).phase == Pipeline.Returned
    requires forall id | 0 <= id < Pipeline.Ticks(actions) :: Genuine(report(id))
    requires multiset(order) == multiset(Pipeline.After(s0, actions).completed)
    ensures Handlers.Base(AllDelivered(store, InOrder(order, report)), Collector.POLL_COUNT)
            == Wrap(Handlers.Base(store, Collector.POLL_COUNT) + |CarriedTicks(Pipeline.Ticks(actions), report)|)
    ensures (forall id | 0 <= id < Pipeline.Ticks(actions) :: Carries(report(id))) ==>
              |CarriedTicks(Pipeline.Ticks(actions), report)| == Pipeline.Ticks(actions)
  {
    hide Genuine, AllDelivered, InOrder, Carrying, Carries, Pipeline.Runs, Pipeline.After, Pipeline.Init, Pipeline.Ticks,
      Handlers.Base, Wrap;
    var n := Pipeline.Ticks(actions);
    Pipeline.DeliveredAtReturn(s0, actions);
    SameMembers(order, Pipeline.After(s0, actions).completed);
    CarryingInOrder(order, report);
    assert CarryingIds(order, report) == CarriedTicks(n, report);
    PollCountGrows(store, InOrder(order, report));
    if forall id | 0 <= id < n :: Carries(report(id)) {
      assert CarriedTicks(n, report) == Below(n);
    }
  }

  lemma SameMembers(a: seq<nat>, b: seq<nat>)
    requires multiset(a) == multiset(b) && NoDuplicates(b)
    ensures NoDuplicates(a) && forall id: nat :: id in a <==> id in b
  {
    forall id: nat
      ensures id in a <==> id in b
    {
      assert id in a <==> id in multiset(a);
      assert id in b <==> id in multiset(b);
    }
    forall i, j | 0 <= i < j < |a|
      ensures a[i] != a[j]
    {
      if a[i] == a[j] {
        Twice(a, i, j);
        OnceEach(b, a[i]);
      }
    }
  }

  lemma Twice(a: seq<nat>, i: nat, j: nat)
    requires i < j < |a| && a[i] == a[j]
    ensures multiset(a)[a[i]] >= 2
  {
    assert a == a[..j] + [a[j]] + a[j + 1..];
    assert a[i] in a[..j];
  }

  lemma {:induction false} OnceEach(b: seq<nat>, x: nat)
    requires NoDuplicates(b)
    ensures multiset(b)[x] <= 1
  {
    if b != [] {
      var init, y := b[..|b| - 1], b[|b| - 1];
      OnceEach(init, x);
      assert b == init + [y];
      assert y !in init;
    }
  }
}
