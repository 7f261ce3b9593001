/** The backup file of the in-memory server: writing it and restoring from it (internal/monserv/fw/fw.go).
    A file is its text; `wants` says how much the successive reads of it would like to return, as far as the buffer of
    the scanner has room. */
module Fw {
  import opened Wrappers
  import opened Int64
  import opened Mondata
  import opened Text
  import opened Json
  import opened Bufio
  import opened Counting
  import DecimalText
  import Safe

  // ----- number spellings

  const COUNTER_TEXT: NumberText<int64> :=
    NumberText((n: int64) => DecimalText.FormatCounter(n), (s: string) => DecimalText.ParseCounter(s))

  /** The float spelling of encoding/json is only known to read back every finite value. */
  ghost predicate ReadsFinite(floats: NumberText<Float64>) {
    forall f: Float64 | IsFinite(f) :: Reads(floats, f)
  }

  lemma {:induction false} DigitsAreNumberChars(n: nat)
    ensures forall c | c in DecimalText.Digits(n) :: NumberChar(c)
  {
    if n >= 10 {
      DigitsAreNumberChars(n / 10);
    }
  }

  lemma CounterReads(n: int64)
    ensures Reads(COUNTER_TEXT, n)
  {
    var i: int := n;
    FormatIsNumber(i);
    DecimalText.ParseCounterOfFormat(i);
    var t := DecimalText.FormatCounter(i);
    assert COUNTER_TEXT.spell(n) == t && COUNTER_TEXT.parse(t) == DecimalText.ParseCounter(t);
  }

  lemma FormatIsNumber(n: int)
    ensures var t := DecimalText.FormatCounter(n); t != [] && forall i | 0 <= i < |t| :: NumberChar(t[i])
  {
    var a: nat := if n < 0 then -n else n;
    var d := DecimalText.Digits(a);
    DigitsAreNumberChars(a);
    assert forall i | 0 <= i < |d| :: d[i] in d;
  }

  // ----- the framing

  /** The text of a backup made of the two encodings, `counters` left out when empty. */
  function Frame(gauges: string, counters: string): string {
    "[" + (gauges + (if |counters| >= 3 then "," + counters else "")) + "]"
  }

  /** `text` is what a backup of `store` can look like, for some order of the keys. */
  ghost predicate Backs(text: string, store: Store, floats: NumberText<Float64>) {
    exists g, c :: Encodes(g, store.gauge, floats) && Encodes(c, store.counter, COUNTER_TEXT) && text == Frame(g, c)
  }

  predicate AllFinite(gm: GaugeMap) {
    forall k | k in gm :: IsFinite(gm[k])
  }

  datatype WriteError = MarshalFailed | NothingToWrite

  /** Writing at offset 0 of a file keeps what lies beyond. */
  function Overwrite(file: string, data: string): (r: string)
    ensures |r| == if |data| <= |file| then |file| else |data|
    ensures forall i | 0 <= i < |r| :: r[i] == if i < |data| then data[i] else file[i]
  {
    if |data| <= |file| then data + file[|data|..] else data
  }

  // ----- restoring

  datatype RestoreResult = Restored(store: Store) | Failed(store: Store) | Panicked

  /** bytes.Trim: a shorter slice of the same bytes. */
  function Trimmed(s: Scanner, slice: Slice): Slice {
    var b := TrimBounds(Value(s, slice), "[,]");
    Slice(slice.buffer, slice.lo + b.0, slice.lo + b.1)
  }

  /** The two trimmed tokens as they read after both calls of Scan, "" where there is none; None if the splitter
      panics.  The first is a slice of a buffer that the second call goes on using. */
  function TokensFrom(file: string, wants: seq<nat>, s: Scanner): Option<(string, string)>
    requires Valid(file, s)
  {
    var (s1, f1) := ScanCall(file, wants, s);
    if f1.Panic? then None
    else
      var (s2, f2) := ScanCall(file, wants, s1);
      if f2.Panic? then None
      else
        Some((if f1.Got? then Value(s2, Trimmed(s1, f1.slice)) else "",
              if f2.Got? then Value(s2, Trimmed(s2, f2.slice)) else ""))
  }

  function TwoTokens(file: string, wants: seq<nat>): Option<(string, string)> {
    NewOk(file, NewScanner());
    TokensFrom(file, wants, NewScanner())
  }

  /** Where the reads stop that these calls make. */
  function StopsFrom(file: string, wants: seq<nat>, s: Scanner): seq<nat>
    requires Valid(file, s)
  {
    var (s1, f1) := ScanCall(file, wants, s);
    if f1.Panic? then s1.stops else ScanCall(file, wants, s1).0.stops
  }

  function RestoreFrom(gj: string, cj: string, store: Store, floats: NumberText<Float64>): RestoreResult {
    var gauges := if |gj| > 2 then ParseObject(gj, floats) else None;
    var gaugesUnparsed := |gj| > 2 && gauges == None;
    var store1 := if gauges.Some? then store.(gauge := SetAll(store.gauge, gauges.value)) else store;
    if |cj| > 2 then
      match ParseObject(cj, COUNTER_TEXT)
      case Some(cm) => Restored(store1.(counter := AccumAll(store1.counter, cm)))
      case None => if gaugesUnparsed then Failed(store1) else Restored(store1)
    else if |gj| <= 2 then Failed(store1)
    else Restored(store1)
  }

  /** What a token decodes to; the two characters of an empty object are not looked at. */
  function Decoded<V>(text: string, nt: NumberText<V>): Option<map<string, V>> {
    if |text| > 2 then ParseObject(text, nt) else None
  }

  /** Each token that decodes is taken over, whatever the other is.  An error is reported exactly if neither decodes and
      both are there or both are missing: one that is there and does not decode goes unnoticed beside a missing one. */
  lemma RestoreFromMeans(gj: string, cj: string, store: Store, floats: NumberText<Float64>)
    ensures var r := RestoreFrom(gj, cj, store, floats);
            var (gm, cm) := (Decoded(gj, floats), Decoded(cj, COUNTER_TEXT));
            && (r.Failed? <==> gm.None? && cm.None? && (|gj| > 2 <==> |cj| > 2))
            && (r.Failed? || r.Restored?)
            && r.store.gauge == (if gm.Some? then SetAll(store.gauge, gm.value) else store.gauge)
            && r.store.counter == if cm.Some? then AccumAll(store.counter, cm.value) else store.counter
  {
    hide ParseObject;
  }

  function Restore(file: string, wants: seq<nat>, store: Store, floats: NumberText<Float64>): RestoreResult {
    match TwoTokens(file, wants)
    case None => Panicked
    case Some((gj, cj)) => RestoreFrom(gj, cj, store, floats)
  }

  /** The store after a restore, whether or not it reported an error. */
  function StoreAfter(file: string, wants: seq<nat>, store: Store, floats: NumberText<Float64>): Store {
    match Restore(file, wants, store, floats)
    case Panicked => store
    case Restored(s) => s
    case Failed(s) => s
  }

  /** A read stops right behind a comma. */
  ghost predicate CommaStop(file: string, wants: seq<nat>) {
    NewOk(file, NewScanner());
    exists p :: p in StopsFrom(file, wants, NewScanner()) && 0 < p <= |file| && file[p - 1] == ','
  }

  /** What a truncating write leaves: a backup of the store, or an empty file after any error. */
  ghost predicate ShutdownLeaves(store: Store, file: string, floats: NumberText<Float64>) {
    if AllFinite(store.gauge) && store != EMPTY_STORE then Backs(file, store, floats) else file == ""
  }

  // ----- the backup object

  /** The two encodings and their framing. */
  method Compose(gVals: GaugeMap, cVals: CounterMap, floats: NumberText<Float64>) returns (r: Result<string, WriteError>)
    ensures r.Ok? <==> AllFinite(gVals) && Store(gVals, cVals) != EMPTY_STORE
    ensures r.Ok? ==> Backs(r.value, Store(gVals, cVals), floats)
    ensures r == Err(NothingToWrite) <==> Store(gVals, cVals) == EMPTY_STORE
  {
    hide Encodes, Backs;
    var pt1 := "{}";
    if |gVals| > 0 {
      if k :| k in gVals && !IsFinite(gVals[k]) {
        return Err(MarshalFailed);
      }
      pt1 := Marshal(gVals, floats);
    } else {
      EmptyEncodes(gVals, floats);
    }
    var pt2 := "";
    ghost var c := "{}";
    if |cVals| > 0 {
      pt2 := Marshal(cVals, COUNTER_TEXT);
      c := pt2;
    } else {
      EmptyEncodes(cVals, COUNTER_TEXT);
    }
    EncodedShape(pt1, gVals, floats);
    EncodedShape(c, cVals, COUNTER_TEXT);
    FramedBacks(pt1, c, Store(gVals, cVals), floats);
    if |pt1| < 3 && |pt2| < 3 {
      return Err(NothingToWrite);
    }
    var data, slb := "[", pt1;
    if |pt2| >= 3 {
      slb := slb + ("," + pt2);
    }
    data := data + slb;
    data := data + "]";
    assert data == Frame(pt1, c);
    return Ok(data);
  }

  lemma FramedBacks(g: string, c: string, store: Store, floats: NumberText<Float64>)
    requires Encodes(g, store.gauge, floats) && Encodes(c, store.counter, COUNTER_TEXT)
    ensures Backs(Frame(g, c), store, floats)
  {
  }

  /** The tokens are trimmed when they are found and read when both calls are over. */
  method ScanFrom(file: string, wants: seq<nat>, s: Scanner) returns (r: Option<(string, string)>)
    requires Valid(file, s)
    ensures r == TokensFrom(file, wants, s)
  {
    hide ScanCall, Valid;
    var gj, cj: Option<Slice> := None, None;
    var s1, f1 := Scan(file, wants, s);
    if f1.Panic? {
      return None;
    }
    if f1.Got? {
      gj := Some(Trimmed(s1, f1.slice));
    }
    var s2, f2 := Scan(file, wants, s1);
    if f2.Panic? {
      return None;
    }
    if f2.Got? {
      cj := Some(Trimmed(s2, f2.slice));
    }
    return Some((if gj.Some? then Value(s2, gj.value) else "", if cj.Some? then Value(s2, cj.value) else ""));
  }

  method ScanTwice(file: string, wants: seq<nat>) returns (r: Option<(string, string)>)
    ensures r == TwoTokens(file, wants)
  {
    hide TokensFrom, NewScanner;
    NewOk(file, NewScanner());
    r := ScanFrom(file, wants, NewScanner());
  }

  class Backup {
    var file: string
    const restoreFlag: bool

    constructor (file: string, restoreFlag: bool)
      ensures this.file == file && this.restoreFlag == restoreFlag
    {
      this.file := file;
      this.restoreFlag := restoreFlag;
    }

    /** Writes both maps; an error leaves the file as the truncation left it. */
    method Write(db: Safe.MemorySt, truncateFlag: bool, floats: NumberText<Float64>)
      returns (err: Option<WriteError>)
      modifies this
      ensures err.None? <==> AllFinite(db.gauge.data) && db.Contents() != EMPTY_STORE
      ensures err == Some(NothingToWrite) <==> db.Contents() == EMPTY_STORE
      ensures var was := if truncateFlag then "" else old(file);
              if err.Some? then file == was
              else exists text :: Backs(text, db.Contents(), floats) && file == Overwrite(was, text)
    {
      if truncateFlag {
        file := "";
      }
      var data := Compose(db.gauge.data, db.counter.data, floats);
      if data.Err? {
        return Some(data.error);
      }
      file := Overwrite(file, data.value);
      return None;
    }

    /** The backup at shutdown, the only one that `Schedule` still performs. */
    method ShutdownBackup(db: Safe.MemorySt, floats: NumberText<Float64>) returns (err: Option<WriteError>)
      modifies this
      ensures ShutdownLeaves(db.Contents(), file, floats)
      ensures err.None? <==> AllFinite(db.gauge.data) && db.Contents() != EMPTY_STORE
    {
      err := Write(db, true, floats);
    }

    /** Reads the file back into a store, in whatever pieces. */
    method RestorePrev(db: Safe.MemorySt, wants: seq<nat>, floats: NumberText<Float64>) returns (result: RestoreResult)
      modifies db.gauge, db.counter
      ensures !restoreFlag ==> result == Restored(old(db.Contents()))
      ensures restoreFlag ==> result == Restore(file, wants, old(db.Contents()), floats)
      ensures db.Contents() == if result.Panicked? then old(db.Contents()) else result.store
    {
      hide ParseObject, TwoTokens;
      if !restoreFlag {
        return Restored(Store(db.gauge.data, db.counter.data));
      }
      var tokens := ScanTwice(file, wants);
      if tokens.None? {
        return Panicked;
      }
      var (gj, cj) := tokens.value;
      var gaugesUnparsed := false;
      if |gj| > 2 {
        var gaugeData := ParseObject(gj, floats);
        gaugesUnparsed := gaugeData.None?;
        if gaugeData.Some? {
          db.SetGaugeAll(gaugeData.value);
        }
      }
      if |cj| > 2 {
        var counterData := ParseObject(cj, COUNTER_TEXT);
        if counterData.None? && gaugesUnparsed {
          return Failed(Store(db.gauge.data, db.counter.data));
        }
        if counterData.Some? {
          db.SetCounterAll(counterData.value);
        }
      } else if |gj| <= 2 {
        return Failed(Store(db.gauge.data, db.counter.data));
      }
      return Restored(Store(db.gauge.data, db.counter.data));
    }
  }

  lemma EmptyEncodes<V>(m: map<string, V>, nt: NumberText<V>)
    requires m == map[]
    ensures Encodes("{}", m, nt)
  {
    assert Lists([], m) && PrintObject(m, [], nt) == "{}";
  }
}
