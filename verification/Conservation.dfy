/** What a list of performed calls leaves behind, name by name. */
module Conservation {
  import opened Wrappers
  import opened Int64
  import opened Mondata

  ghost predicate Counts(us: seq<Call>, k: string) {
    exists i :: 0 <= i < |us| && us[i].AddCounters? && k in us[i].cm
  }

  function DeltaSum(us: seq<Call>, k: string): int {
    if us == [] then 0
    else
      var u := us[|us| - 1];
      DeltaSum(us[..|us| - 1], k) + (if u.AddCounters? && k in u.cm then u.cm[k] else 0)
  }

  function LastWrite(us: seq<Call>, k: string): Option<Float64> {
    if us == [] then None
    else
      var u := us[|us| - 1];
      if u.SetGauges? && k in u.gm then Some(u.gm[k]) else LastWrite(us[..|us| - 1], k)
  }

  /** Every counter is the wrapped sum of its deltas, every gauge its last write, and nothing else is there. */
  lemma {:induction false} UpdatesConserve(us: seq<Call>, k: string)
    ensures var s := Replay(EMPTY_STORE, us);
            (k in s.counter <==> Counts(us, k))
            && (k in s.counter ==> s.counter[k] == Wrap(DeltaSum(us, k)))
            && (k !in s.counter ==> DeltaSum(us, k) == 0)
            && (k in s.gauge <==> LastWrite(us, k).Some?)
            && (k in s.gauge ==> Some(s.gauge[k]) == LastWrite(us, k))
  {
    if us != [] {
      var init, u := us[..|us| - 1], us[|us| - 1];
      var s := Replay(EMPTY_STORE, init);
      UpdatesConserve(init, k);
      if u.AddCounters? && k in u.cm {
        assert us[|us| - 1].AddCounters?;
        WrapOperand(DeltaSum(init, k), u.cm[k]);
      }
      assert Counts(us, k) <==> Counts(init, k) || (u.AddCounters? && k in u.cm) by {
        if i :| 0 <= i < |init| && init[i].AddCounters? && k in init[i].cm {
          assert us[i] == init[i];
        }
      }
    }
  }
}
