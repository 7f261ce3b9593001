/** What backups add up to over any number of lives of a server (internal/monserv/fw/fw.go, internal/repo/repo.go). */
module Restarts {
  import opened Wrappers
  import opened Int64
  import opened Mondata
  import opened Json
  import opened Fw
  import opened RoundTrip
  import opened Conservation

  // ----- any number of lives

  /** One life of the server: empty start, restore from a file that is read as `wants` says, updates, shutdown backup. */
  datatype Life = Life(before: string, wants: seq<nat>, updates: seq<Call>, store: Store, after: string)

  ghost predicate Lived(l: Life, floats: NumberText<Float64>) {
    && l.store == Replay(StoreAfter(l.before, l.wants, EMPTY_STORE, floats), l.updates)
    && ShutdownLeaves(l.store, l.after, floats)
  }

  /** Consecutive lives over one backup file that starts out empty. */
  ghost predicate Lives(ls: seq<Life>, floats: NumberText<Float64>) {
    ls == [] ||
    var init, last := ls[..|ls| - 1], ls[|ls| - 1];
    && Lives(init, floats)
    && Lived(last, floats)
    && last.before == if init == [] then "" else init[|init| - 1].after
  }

  function AllUpdates(ls: seq<Life>): seq<Call> {
    if ls == [] then [] else AllUpdates(ls[..|ls| - 1]) + ls[|ls| - 1].updates
  }

  lemma {:induction false} ApplyConcat(store: Store, a: seq<Call>, b: seq<Call>)
    ensures Replay(store, a + b) == Replay(Replay(store, a), b)
  {
    if b == [] {
      assert a + b == a;
    } else {
      ApplyConcat(store, a, b[..|b| - 1]);
      assert (a + b)[..|a + b| - 1] == a + b[..|b| - 1];
    }
  }

  /** Every life but the last ends with a store that the next one reads back. */
  ghost predicate Carried(ls: seq<Life>) {
    |ls| <= 1 ||
    var init, last := ls[..|ls| - 1], ls[|ls| - 1];
    Carried(init) && Carries(last.before, last.wants, init[|init| - 1].store)
  }

  /** Restarts are then invisible: over any number of lives the store is what one uninterrupted life with all the
      updates would hold. */
  lemma {:induction false} RestartsTransparent(ls: seq<Life>, floats: NumberText<Float64>)
    requires ReadsFinite(floats) && Lives(ls, floats) && ls != [] && Carried(ls)
    ensures ls[|ls| - 1].store == Replay(EMPTY_STORE, AllUpdates(ls))
  {
    hide StoreAfter, ShutdownLeaves, ReadsFinite, Carries;
    var init, last := ls[..|ls| - 1], ls[|ls| - 1];
    if init == [] {
      EmptyFile(last.wants, floats);
    } else {
      var prev := init[|init| - 1];
      assert Lived(prev, floats);
      RestartsTransparent(init, floats);
      ShutdownStartIff(prev.after, last.wants, prev.store, floats);
    }
    assert StoreAfter(last.before, last.wants, EMPTY_STORE, floats) == Replay(EMPTY_STORE, AllUpdates(init));
    ApplyConcat(EMPTY_STORE, AllUpdates(init), last.updates);
  }

  ghost predicate Clean(u: Call) {
    match u
    case SetGauges(gm) => AllFinite(gm) && CleanKeys(gm)
    case AddCounters(cm) => CleanKeys(cm)
  }

  ghost predicate CleanFinite(store: Store) {
    AllFinite(store.gauge) && CleanStore(store)
  }

  lemma {:induction false} CleanUpdatesStay(store: Store, us: seq<Call>)
    requires CleanFinite(store) && forall u | u in us :: Clean(u)
    ensures CleanFinite(Replay(store, us))
  {
    if us != [] {
      var last := us[|us| - 1];
      CleanUpdatesStay(store, us[..|us| - 1]);
      assert last in us && Clean(last);
    }
  }

  lemma EmptyIsClean()
    ensures CleanFinite(EMPTY_STORE)
  {
  }

  /** No read of this file stops behind a comma, and its encodings fit. */
  ghost predicate Readable(file: string, wants: seq<nat>, store: Store) {
    Fits(file, store) && !CommaStop(file, wants)
  }

  /** It is enough that the updates of all lives but the last are finite and clean and that every backup is readable. */
  lemma {:induction false} CleanUpdatesCarry(ls: seq<Life>, floats: NumberText<Float64>)
    requires ReadsFinite(floats) && Lives(ls, floats) && ls != []
    requires forall u | u in AllUpdates(ls[..|ls| - 1]) :: Clean(u)
    requires forall i | 0 < i < |ls| :: Readable(ls[i].before, ls[i].wants, ls[i - 1].store)
    ensures Carried(ls)
  {
    hide StoreAfter, ShutdownLeaves, ReadsFinite, CleanFinite, Readable, Carries, Clean;
    var init, last := ls[..|ls| - 1], ls[|ls| - 1];
    if init != [] {
      assert forall u | u in AllUpdates(init[..|init| - 1]) :: u in AllUpdates(init);
      CleanUpdatesCarry(init, floats);
      RestartsTransparent(init, floats);
      EmptyIsClean();
      CleanUpdatesStay(EMPTY_STORE, AllUpdates(init));
      assert ls[|ls| - 2] == init[|init| - 1];
      CleanCarries(last.before, last.wants, init[|init| - 1].store);
    }
  }

  lemma CleanCarries(file: string, wants: seq<nat>, store: Store)
    requires CleanFinite(store) && Readable(file, wants, store)
    ensures Carries(file, wants, store)
  {
  }

  /** Some backup file is possible for every store. */
  lemma SomeFile(store: Store, floats: NumberText<Float64>) returns (file: string)
    ensures ShutdownLeaves(store, file, floats)
  {
    if AllFinite(store.gauge) && store != EMPTY_STORE {
      var gks := SomeListing(store.gauge);
      var cks := SomeListing(store.counter);
      var g, c := PrintObject(store.gauge, gks, floats), PrintObject(store.counter, cks, COUNTER_TEXT);
      FramedBacks(g, c, store, floats);
      file := Frame(g, c);
    } else {
      file := "";
    }
  }

  /** Every list of updates, life by life, can be lived, however the files are read. */
  lemma {:induction false} AnyLives(updates: seq<seq<Call>>, wants: seq<seq<nat>>, floats: NumberText<Float64>)
    returns (ls: seq<Life>)
    requires |wants| == |updates|
    ensures Lives(ls, floats) && |ls| == |updates|
    ensures forall i | 0 <= i < |ls| :: ls[i].updates == updates[i] && ls[i].wants == wants[i]
    decreases |updates|
  {
    hide StoreAfter, ShutdownLeaves, Replay;
    if updates == [] {
      ls := [];
    } else {
      var k := |updates| - 1;
      var init := AnyLives(updates[..k], wants[..k], floats);
      var before := if init == [] then "" else init[|init| - 1].after;
      var store := Replay(StoreAfter(before, wants[k], EMPTY_STORE, floats), updates[k]);
      var after := SomeFile(store, floats);
      ls := init + [Life(before, wants[k], updates[k], store, after)];
      assert ls[..|ls| - 1] == init;
    }
  }

  // ----- conservation

  /** Conservation across restarts: whatever the number of lives, a counter holds the wrapped sum of every
      delta ever applied and a gauge its last write ever. */
  lemma ConservedAcrossRestarts(ls: seq<Life>, k: string, floats: NumberText<Float64>)
    requires ReadsFinite(floats) && Lives(ls, floats) && ls != [] && Carried(ls)
    ensures var s, us := ls[|ls| - 1].store, AllUpdates(ls);
            (k in s.counter <==> Counts(us, k))
            && (k in s.counter ==> s.counter[k] == Wrap(DeltaSum(us, k)))
            && (k in s.gauge <==> LastWrite(us, k).Some?)
            && (k in s.gauge ==> Some(s.gauge[k]) == LastWrite(us, k))
  {
    RestartsTransparent(ls, floats);
    UpdatesConserve(AllUpdates(ls), k);
  }
}
