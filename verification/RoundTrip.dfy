/** What the restorer makes of a written backup: exactly when the store comes back, and what is lost otherwise
    (internal/monserv/fw/fw.go). */
module RoundTrip {
  import opened Wrappers
  import opened Int64
  import opened Mondata
  import opened Text
  import opened Json
  import opened Bufio
  import opened Counting
  import opened Fw
  import opened ReadBack
  import opened Overwritten
  import DecimalText

  /** No key of the map contains `,{`. */
  ghost predicate CleanKeys<V>(m: map<string, V>) {
    forall k | k in m :: !HasSep(k)
  }

  // ----- trimming

  lemma TrimBefore(before: string, s: string)
    requires s != [] && s[0] !in "[,]"
    requires before == "" || before == "["
    ensures Trim(before + s, "[,]") == Trim(s, "[,]")
  {
    if before == "[" {
      assert ("[" + s)[1..] == s;
    } else {
      assert before + s == s;
    }
  }

  lemma TrimCore(core: string, before: string, after: string)
    requires core != [] && core[0] !in "[,]" && core[|core| - 1] !in "[,]"
    requires before == "" || before == "["
    requires after == "" || after == "," || after == "]"
    ensures Trim(before + core + after, "[,]") == core
  {
    assert before + core + after == before + (core + after);
    TrimBefore(before, core + after);
    if after == "" {
      assert core + after == core;
    } else {
      assert (core + after)[..|core|] == core && (core + after)[|core|] == after[0];
    }
  }

  /** Trimming a token that was cut inside `whole` leaves a proper prefix of `whole`. */
  lemma TrimCut(whole: string, j: nat, before: string)
    requires |whole| > 0 && whole[0] == '{' && j + 1 < |whole|
    requires before == "" || before == "["
    ensures Trim(before + whole[..j + 1], "[,]") < whole
  {
    TrimBefore(before, whole[..j + 1]);
  }

  lemma TrimFirst(s: string)
    requires |s| >= 2 && s[0] == '[' && s[1] == '{'
    ensures TrimBounds(s, "[,]").0 == 1
  {
    assert s[1..][0] == '{';
    BraceStays(s[1..]);
  }

  lemma {:induction false} BraceStays(s: string)
    requires s != "" && s[0] == '{'
    ensures TrimBounds(s, "[,]").0 == 0
    decreases |s|
  {
    if s[|s| - 1] in "[,]" {
      BraceStays(s[..|s| - 1]);
    }
  }

  // ----- where the splitter cuts

  ghost predicate FirstSepAt(s: string, j: int) {
    SepAt(s, j) && forall i | 0 <= i < j :: !SepAt(s, i)
  }

  /** Text with its first `,{` at position `j` is cut right after that comma. */
  lemma CutsAt(s: string, j: nat)
    requires FirstSepAt(s, j)
    ensures HasSep(s) && TokenOf(s) == s[..j + 1] && Room(s) == j + 2 && Behind(s) == s[j + 1..]
  {
    TokenMeaning(s);
    assert SepAt(s, |TokenOf(s)| - 1);
  }

  lemma FirstSepInside(before: string, whole: string, after: string, j: nat)
    requires FirstSepAt(whole, j) && (before == "" || before == "[")
    ensures FirstSepAt(before + whole + after, |before| + j)
  {
    var s := before + whole + after;
    assert SepAt(s, |before| + j);
    forall i | 0 <= i < |before| + j
      ensures !SepAt(s, i)
    {
      if i < |before| {
        assert s[i] == '[';
      } else {
        assert !SepAt(whole, i - |before|);
      }
    }
  }

  /** Text with a separator is cut at its first one. */
  lemma CutsSomewhere(before: string, whole: string, after: string) returns (j: nat)
    requires HasSep(whole) && (before == "" || before == "[")
    ensures j + 1 < |whole|
    ensures var s := before + whole + after;
            HasSep(s) && TokenOf(s) == before + whole[..j + 1] && Behind(s) == whole[j + 1..] + after
  {
    TokenMeaning(whole);
    j := |TokenOf(whole)| - 1;
    hide TokenOf, HasSep;
    FirstSepInside(before, whole, after, j);
    hide SepAt, FirstSepAt;
    CutsAt(before + whole + after, |before| + j);
    Regroup(before, whole[..j + 1], whole[j + 1..], after);
    HalvesOf(before + whole[..j + 1], whole[j + 1..] + after);
  }

  lemma Regroup(a: string, b: string, c: string, d: string)
    ensures a + (b + c) + d == (a + b) + (c + d)
  {
  }

  lemma HalvesOf(a: string, b: string)
    ensures (a + b)[..|a|] == a && (a + b)[|a|..] == b
  {
  }

  ghost predicate Braced(s: string) {
    |s| >= 2 && s[0] == '{' && s[|s| - 1] == '}'
  }

  lemma NoSeparator(s: string)
    requires |s| == 1
    ensures !HasSep(s)
  {
  }

  /** A clean encoding of the gauges is the first token, and the counters are what is left. */
  lemma GaugesAreFirst(g: string, c: string)
    requires Braced(g) && !HasSep(g) && Braced(c) && |c| >= 3
    ensures var file := Frame(g, c);
            HasSep(file) && TokenOf(file) == "[" + g + "," && Behind(file) == c + "]" && First(file) == g
            && Room(file) == |g| + 3 && TrimBounds(TokenOf(file), "[,]").0 == 1
  {
    hide HasSep, Trim, TrimBounds;
    var file, first := Frame(g, c), "[" + g + ",";
    assert file == first + (c + "]");
    NoSeparator("[");
    NoSeparator(",");
    SepOfConcat("[", g);
    SepOfConcat("[" + g, ",");
    assert SepAt(file, |first| - 1);
    forall i | 0 <= i < |first| - 1
      ensures !SepAt(file, i)
    {
      NoSepIn(first, i);
    }
    CutsAt(file, |first| - 1);
    assert file[..|first|] == first && file[|first|..] == c + "]";
    TrimCore(g, "[", ",");
    TrimFirst(first);
  }

  lemma NoSepIn(s: string, i: int)
    requires !HasSep(s)
    ensures !SepAt(s, i)
  {
  }

  /** Without counters a clean encoding of the gauges is the only token. */
  lemma GaugesAreAll(g: string, c: string)
    requires Braced(g) && !HasSep(g) && |c| < 3
    ensures var file := Frame(g, c);
            !HasSep(file) && First(file) == g && Room(file) == |g| + 3 && Behind(file) == ""
  {
    hide HasSep, Trim;
    assert Frame(g, c) == "[" + g + "]";
    NoSeparator("[");
    NoSeparator("]");
    SepOfConcat("[", g);
    SepOfConcat("[" + g, "]");
    TokenMeaning(Frame(g, c));
    TrimCore(g, "[", "]");
  }

  /** A clean encoding of the counters is the second token. */
  lemma CountersAreSecond(c: string)
    requires Braced(c) && !HasSep(c)
    ensures !HasSep(c + "]") && Trim(TokenOf(c + "]"), "[,]") == c && Room(c + "]") == |c| + 2
  {
    hide HasSep, Trim;
    NoSeparator("]");
    SepOfConcat(c, "]");
    TokenMeaning(c + "]");
    TrimCore(c, "", "]");
    assert "" + c + "]" == c + "]";
  }

  /** A separator inside the gauges cuts them short. */
  lemma GaugesCut(g: string, c: string)
    requires Braced(g) && HasSep(g)
    ensures var file := Frame(g, c);
            HasSep(file) && First(file) != "" && First(file) < g && |TokenOf(file)| >= 2 && |Behind(file)| >= 2
            && TrimBounds(TokenOf(file), "[,]").0 == 1
  {
    hide Trim, TrimBounds, HasSep;
    var after := (if |c| >= 3 then "," + c else "") + "]";
    assert Frame(g, c) == "[" + g + after;
    var j := CutsSomewhere("[", g, after);
    var token := "[" + g[..j + 1];
    TrimCut(g, j, "[");
    TrimFirst(token);
    TrimBefore("[", g[..j + 1]);
    BraceTrims(g[..j + 1]);
  }

  lemma {:induction false} BraceTrims(s: string)
    requires s != "" && s[0] == '{'
    ensures var t := Trim(s, "[,]");
            t <= s && t != "" && (forall i | |t| <= i < |s| :: s[i] in "[,]") && t[|t| - 1] !in "[,]"
    decreases |s|
  {
    if s[|s| - 1] in "[,]" {
      BraceTrims(s[..|s| - 1]);
    }
  }

  /** A separator inside the counters cuts those short. */
  lemma CountersCut(c: string)
    requires Braced(c) && HasSep(c)
    ensures Trim(TokenOf(c + "]"), "[,]") < c
  {
    hide HasSep;
    assert "" + c + "]" == c + "]";
    var j := CutsSomewhere("", c, "]");
    TrimCut(c, j, "");
  }

  // ----- what a restore makes of two tokens

  /** What one token adds to an empty map. */
  function Recovered<V>(text: string, nt: NumberText<V>): map<string, V> {
    if |text| > 2 && ParseObject(text, nt).Some? then ParseObject(text, nt).value else map[]
  }

  lemma StoreAfterIs(file: string, wants: seq<nat>, floats: NumberText<Float64>)
    ensures StoreAfter(file, wants, EMPTY_STORE, floats)
         == match TwoTokens(file, wants)
            case None => EMPTY_STORE
            case Some((gj, cj)) => Store(Recovered(gj, floats), Recovered(cj, COUNTER_TEXT))
  {
    hide TwoTokens, ParseObject;
    if TwoTokens(file, wants).Some? {
      var (gj, cj) := TwoTokens(file, wants).value;
      var gm, cm := Recovered(gj, floats), Recovered(cj, COUNTER_TEXT);
      assert SetAll(map[], gm) == gm;
      assert AccumAll(map[], cm) == cm;
    }
  }

  lemma EncodingRecovers<V>(text: string, m: map<string, V>, nt: NumberText<V>)
    requires Encodes(text, m, nt) && forall k | k in m :: Reads(nt, m[k])
    ensures Recovered(text, nt) == m
  {
    hide Encodes, Reads, ParseObject;
    ParseEncoded(text, m, nt);
    EncodedShape(text, m, nt);
  }

  lemma PrefixLost<V>(text: string, m: map<string, V>, nt: NumberText<V>, p: string)
    requires Encodes(text, m, nt) && (forall k | k in m :: Reads(nt, m[k])) && p < text
    ensures Recovered(p, nt) == map[]
  {
    hide Encodes, Reads, ParseObject;
    TruncatedRefused(text, m, nt, p);
  }

  lemma OtherTextLost<V>(s: string, nt: NumberText<V>)
    requires |s| > 2 ==> s[0] != '{' || s[1] != '"'
    ensures Recovered(s, nt) == map[]
  {
    hide Unquote, NumberLength;
    if |s| > 2 && s[0] == '{' {
      assert s[1..][0] == s[1];
    }
  }

  // ----- the round trip

  ghost predicate CleanStore(store: Store) {
    CleanKeys(store.gauge) && CleanKeys(store.counter)
  }

  /** The buffer can hold what has to be in it: the only token if there is one kind of metric; both tokens, without
      anything being moved, if there are two. */
  predicate Fits(file: string, store: Store) {
    if store.counter == map[] then |file| < MAX_SIZE
    else if store.gauge == map[] then |file| < MAX_SIZE + 4
    else Small(file)
  }

  /** Finite values read back, and the shape of the two encodings. */
  ghost predicate Framed(g: string, c: string, file: string, store: Store, floats: NumberText<Float64>) {
    && Encodes(g, store.gauge, floats) && Encodes(c, store.counter, COUNTER_TEXT) && file == Frame(g, c)
    && (forall k | k in store.gauge :: Reads(floats, store.gauge[k]))
    && (forall k | k in store.counter :: Reads(COUNTER_TEXT, store.counter[k]))
    && Braced(g) && (store.gauge == map[] <==> |g| == 2) && (HasSep(g) <==> !CleanKeys(store.gauge))
    && Braced(c) && (store.counter == map[] <==> |c| == 2) && (HasSep(c) <==> !CleanKeys(store.counter))
    && (|c| > 2 ==> c[1] == '"')
  }

  lemma FramedIs(g: string, c: string, store: Store, floats: NumberText<Float64>)
    requires ReadsFinite(floats) && AllFinite(store.gauge)
    requires Encodes(g, store.gauge, floats) && Encodes(c, store.counter, COUNTER_TEXT)
    ensures Framed(g, c, Frame(g, c), store, floats)
  {
    hide Encodes, Reads, HasSep, Frame;
    forall k | k in store.counter ensures Reads(COUNTER_TEXT, store.counter[k]) {
      CounterReads(store.counter[k]);
    }
    EncodedShape(g, store.gauge, floats);
    EncodedShape(c, store.counter, COUNTER_TEXT);
    EncodedSep(g, store.gauge, floats);
    EncodedSep(c, store.counter, COUNTER_TEXT);
    EncodedQuote(c, store.counter, COUNTER_TEXT);
  }

  /** The text of a map with names goes on with a quote. */
  lemma EncodedQuote<V>(text: string, m: map<string, V>, nt: NumberText<V>)
    requires Encodes(text, m, nt)
    ensures |text| > 2 ==> text[1] == '"'
  {
    var ks :| Lists(ks, m) && text == PrintObject(m, ks, nt);
    if ks != [] {
      assert PrintMembers(m, ks, nt)[0] == '"';
    }
  }

  /** The two tokens are the two encodings, as far as these hold anything. */
  predicate ReadsBack(tokens: Option<(string, string)>, g: string, c: string) {
    && tokens.Some?
    && (if |g| > 2 then tokens.value.0 == g else |tokens.value.0| <= 2)
    && tokens.value.1 == if |c| > 2 then c else ""
  }

  /** If the gauges are cut short, something is not restored, whatever comes over what is left of them. */
  lemma UncleanGauges(g: string, c: string, file: string, wants: seq<nat>, store: Store, floats: NumberText<Float64>)
    requires Framed(g, c, file, store, floats) && HasSep(g) && TwoTokens(file, wants).Some?
    ensures !ReadsBack(TwoTokens(file, wants), g, c) && StoreAfter(file, wants, EMPTY_STORE, floats) != store
  {
    hide Encodes, Reads, HasSep, Frame, TokensFrom, TokenOf, Room, Small, Trim;
    hide TrimBounds, First, StoreAfter, Recovered, IsNew, Valid, NewScanner, Behind, CleanKeys;
    var s := NewScanner();
    NewOk(file, s);
    TwoCharacters(g);
    GaugesCut(g, c);
    StoreAfterIs(file, wants, floats);
    var (gj, cj) := TwoTokens(file, wants).value;
    if Room(file) > MAX_SIZE {
      NoRoom(file, wants, s);
      OtherTextLost(gj, floats);
    } else {
      TwoTokensRead(file, wants, s);
      if gj == First(file) {
        PrefixLost(g, store.gauge, floats, gj);
      } else if Behind(file)[1] != '{' {
        OtherTextLost(gj, floats);
      } else {
        BehindIs(file);
        DoubledLost(Behind(file), cj);
        if |c| == 2 {
          CutLost(g, c, file, wants, store, floats);
        }
      }
    }
  }

  /** Without counters the rest of the gauges comes over their start. */
  lemma CutLost(g: string, c: string, file: string, wants: seq<nat>, store: Store, floats: NumberText<Float64>)
    requires Framed(g, c, file, store, floats) && HasSep(g) && TwoTokens(file, wants).Some? && |c| == 2
    requires Room(file) <= MAX_SIZE && |Behind(file)| >= 2 && Behind(file)[1] == '{'
    ensures Recovered(TwoTokens(file, wants).value.0, floats) != store.gauge
  {
    hide Encodes, Reads, HasSep, TokensFrom, TokenOf, Room, Trim, TrimBounds;
    hide First, IsNew, Valid, NewScanner, Behind, CleanKeys, ParseObject, LaidOver;
    var s := NewScanner();
    NewOk(file, s);
    GaugesCut(g, c);
    var n := OverwrittenFirst(file, wants, s);
    assert file == "[" + g + "]";
    var j := CutsSomewhere("[", g, "]");
    CutShape(g, j, file);
    LaidOverLost(g, store.gauge, floats, j, First(file), TwoTokens(file, wants).value.0, n);
    TwoCharacters(g);
  }

  lemma CutShape(g: string, j: nat, file: string)
    requires g != "" && g[0] == '{' && j + 1 < |g| && HasSep(file) && TokenOf(file) == "[" + g[..j + 1]
    requires Behind(file) == g[j + 1..] + "]" && |Behind(file)| >= 2 && Behind(file)[1] == '{'
    ensures 0 < j && j + 2 < |g| && g[j] == ',' && g[j + 1] == g[j + 2] == '{'
    ensures var first := First(file);
            first != "" && |first| <= j && first <= g && forall i | |first| <= i < j :: g[i] in "[,]"
  {
    hide HasSep, Trim, TokenOf, Behind;
    TokenMeaning(file);
    BehindIs(file);
    assert g[j] == TokenOf(file)[j + 1];
    assert g[j + 1] == Behind(file)[0];
    TrimBefore("[", g[..j + 1]);
    BraceTrims(g[..j + 1]);
  }

  lemma DoubledLost(rest: string, cj: string)
    requires |rest| >= 2 && rest[0] == rest[1] == '{' && (cj == "" || cj == Trim(TokenOf(rest), "[,]"))
    ensures "{{" <= rest && Recovered(cj, COUNTER_TEXT) == map[]
  {
    hide Recovered;
    if cj != "" {
      assert cj <= TokenOf(rest) <= rest;
    }
    OtherTextLost(cj, COUNTER_TEXT);
  }

  /** If the counters are cut short, something is not restored. */
  lemma UncleanCounters(g: string, c: string, file: string, wants: seq<nat>, store: Store, floats: NumberText<Float64>)
    requires Framed(g, c, file, store, floats) && !HasSep(g) && HasSep(c) && TwoTokens(file, wants).Some?
    ensures !ReadsBack(TwoTokens(file, wants), g, c) && StoreAfter(file, wants, EMPTY_STORE, floats) != store
  {
    hide Encodes, Reads, HasSep, Frame, TokensFrom, TokenOf, Room, Small, Trim;
    hide TrimBounds, First, StoreAfter, Recovered, IsNew, Valid, NewScanner, Behind, CleanKeys;
    var s := NewScanner();
    NewOk(file, s);
    TwoCharacters(c);
    GaugesAreFirst(g, c);
    CountersCut(c);
    StoreAfterIs(file, wants, floats);
    var (gj, cj) := TwoTokens(file, wants).value;
    if Room(file) > MAX_SIZE {
      NoRoom(file, wants, s);
      OtherTextLost(gj, floats);
    } else {
      TwoTokensRead(file, wants, s);
      PrefixLost(c, store.counter, COUNTER_TEXT, cj);
    }
  }

  lemma TwoCharacters(s: string)
    requires Braced(s) && HasSep(s)
    ensures |s| >= 3
  {
  }

  /** Two clean encodings are both restored exactly if they fit. */
  lemma CleanBoth(g: string, c: string, file: string, wants: seq<nat>, store: Store, floats: NumberText<Float64>)
    requires Framed(g, c, file, store, floats) && !HasSep(g) && !HasSep(c) && |c| > 2 && TwoTokens(file, wants).Some?
    ensures ReadsBack(TwoTokens(file, wants), g, c) <==> Fits(file, store)
    ensures StoreAfter(file, wants, EMPTY_STORE, floats) == store <==> Fits(file, store)
  {
    hide Encodes, Reads, HasSep, Frame, TokensFrom, TokenOf, Room, Trim;
    hide TrimBounds, First, StoreAfter, Recovered, IsNew, Valid, NewScanner, Behind, CleanKeys;
    var s := NewScanner();
    NewOk(file, s);
    GaugesAreFirst(g, c);
    CountersAreSecond(c);
    FrameLength(g, c);
    StoreAfterIs(file, wants, floats);
    var (gj, cj) := TwoTokens(file, wants).value;
    if Room(file) > MAX_SIZE {
      NoRoom(file, wants, s);
      OtherTextLost(gj, floats);
    } else {
      TwoTokensRead(file, wants, s);
      EncodingRecovers(g, store.gauge, floats);
      EncodingRecovers(c, store.counter, COUNTER_TEXT);
      if cj == "" {
        OtherTextLost(cj, COUNTER_TEXT);
      }
      if |g| == 2 || gj != g {
        OtherTextLost(gj, floats);
      }
    }
  }

  lemma FrameLength(g: string, c: string)
    ensures |Frame(g, c)| == |g| + 2 + if |c| >= 3 then |c| + 1 else 0
  {
  }

  /** A clean encoding of the gauges alone is restored exactly if it fits. */
  lemma CleanGauges(g: string, c: string, file: string, wants: seq<nat>, store: Store, floats: NumberText<Float64>)
    requires Framed(g, c, file, store, floats) && !HasSep(g) && |c| == 2 && TwoTokens(file, wants).Some?
    ensures ReadsBack(TwoTokens(file, wants), g, c) <==> Fits(file, store)
    ensures StoreAfter(file, wants, EMPTY_STORE, floats) == store <==> Fits(file, store)
  {
    hide Encodes, Reads, HasSep, Frame, TokensFrom, TokenOf, Room, Small, Trim;
    hide TrimBounds, First, StoreAfter, Recovered, IsNew, Valid, NewScanner, Behind, CleanKeys;
    var s := NewScanner();
    NewOk(file, s);
    GaugesAreAll(g, c);
    FrameLength(g, c);
    StoreAfterIs(file, wants, floats);
    var (gj, cj) := TwoTokens(file, wants).value;
    if Room(file) > MAX_SIZE {
      NoRoom(file, wants, s);
      OtherTextLost(gj, floats);
    } else {
      OneToken(file, wants, s);
      EncodingRecovers(g, store.gauge, floats);
      OtherTextLost("", COUNTER_TEXT);
    }
  }

  /** The restore of clean encodings that fit panics exactly if a read stops behind a comma. */
  lemma CleanPanics(g: string, c: string, file: string, wants: seq<nat>, store: Store, floats: NumberText<Float64>)
    requires Framed(g, c, file, store, floats) && !HasSep(g) && !HasSep(c) && Fits(file, store)
    ensures TwoTokens(file, wants) == None <==> CommaStop(file, wants)
  {
    hide Encodes, Reads, HasSep, Frame, TokensFrom, StopsFrom, TokenOf, Room;
    hide Trim, TrimBounds, First, IsNew, Valid, NewScanner, Behind, CleanKeys;
    var s := NewScanner();
    NewOk(file, s);
    FrameLength(g, c);
    if |c| > 2 {
      GaugesAreFirst(g, c);
      CountersAreSecond(c);
      TwoTokensPanic(file, wants, s);
    } else {
      GaugesAreAll(g, c);
      OneTokenPanics(file, wants, s);
    }
  }

  /** The store comes back: its names are clean, its backup fits, and no read stops behind a comma. */
  ghost predicate Recoverable(file: string, wants: seq<nat>, store: Store) {
    CleanStore(store) && Fits(file, store) && !CommaStop(file, wants)
  }

  /** The two encodings are read back exactly if the store is recoverable. */
  lemma ReadsBackIff(g: string, c: string, file: string, wants: seq<nat>, store: Store, floats: NumberText<Float64>)
    requires Framed(g, c, file, store, floats)
    ensures var tokens, after := TwoTokens(file, wants), StoreAfter(file, wants, EMPTY_STORE, floats);
            && (ReadsBack(tokens, g, c) <==> Recoverable(file, wants, store))
            && (Recoverable(file, wants, store) ==> after == store)
            && (tokens.Some? && after == store ==> Recoverable(file, wants, store))
  {
    hide StoreAfter, Frame, TwoTokens, CommaStop, CleanKeys, Encodes, Reads, Fits, HasSep;
    if !HasSep(g) && !HasSep(c) && Fits(file, store) {
      CleanPanics(g, c, file, wants, store, floats);
    }
    if TwoTokens(file, wants).Some? {
      if HasSep(g) {
        UncleanGauges(g, c, file, wants, store, floats);
      } else if HasSep(c) {
        UncleanCounters(g, c, file, wants, store, floats);
      } else if |c| > 2 {
        CleanBoth(g, c, file, wants, store, floats);
      } else {
        CleanGauges(g, c, file, wants, store, floats);
      }
    }
  }

  /** Restoring a written backup of finite gauges into an empty store gives the store back exactly if it is
      recoverable. */
  lemma RoundTripIff(file: string, wants: seq<nat>, store: Store, floats: NumberText<Float64>)
    requires ReadsFinite(floats) && AllFinite(store.gauge) && Backs(file, store, floats)
    ensures StoreAfter(file, wants, EMPTY_STORE, floats) == store <==> Recoverable(file, wants, store)
  {
    hide StoreAfter, Frame, TwoTokens, CommaStop, CleanKeys, Encodes, ReadsFinite, Recoverable;
    var g, c :| Encodes(g, store.gauge, floats) && Encodes(c, store.counter, COUNTER_TEXT) && file == Frame(g, c);
    FramedIs(g, c, store, floats);
    StoreAfterIs(file, wants, floats);
    ReadsBackIff(g, c, file, wants, store, floats);
    if store == EMPTY_STORE {
      EmptyRecoverable(g, c, file, wants);
    }
  }

  /** And the restore then says so: exactly the backups of recoverable stores that hold anything are answered without
      an error and with the store; that of the empty store is answered with an error. */
  lemma RestoreSucceedsIff(file: string, wants: seq<nat>, store: Store, floats: NumberText<Float64>)
    requires ReadsFinite(floats) && AllFinite(store.gauge) && Backs(file, store, floats)
    ensures store != EMPTY_STORE ==>
              (Restore(file, wants, EMPTY_STORE, floats) == Restored(store) <==> Recoverable(file, wants, store))
    ensures store == EMPTY_STORE ==> Restore(file, wants, EMPTY_STORE, floats) == Failed(EMPTY_STORE)
  {
    hide Frame, TwoTokens, CommaStop, CleanKeys, Encodes, ReadsFinite, Recoverable, RestoreFrom;
    var g, c :| Encodes(g, store.gauge, floats) && Encodes(c, store.counter, COUNTER_TEXT) && file == Frame(g, c);
    FramedIs(g, c, store, floats);
    RoundTripIff(file, wants, store, floats);
    ReadsBackIff(g, c, file, wants, store, floats);
    if store == EMPTY_STORE {
      EmptyRecoverable(g, c, file, wants);
    }
    if Recoverable(file, wants, store) {
      var (gj, cj) := TwoTokens(file, wants).value;
      ReadBackResult(g, c, gj, cj, store, floats);
    }
  }

  lemma ReadBackResult(g: string, c: string, gj: string, cj: string, store: Store, floats: NumberText<Float64>)
    requires Framed(g, c, Frame(g, c), store, floats) && ReadsBack(Some((gj, cj)), g, c)
    ensures RestoreFrom(gj, cj, EMPTY_STORE, floats)
            == if store == EMPTY_STORE then Failed(EMPTY_STORE) else Restored(store)
  {
    hide Encodes, Reads, HasSep, Frame, ParseObject, CleanKeys, RestoreFrom;
    RestoreFromMeans(gj, cj, EMPTY_STORE, floats);
    ParseEncoded(g, store.gauge, floats);
    ParseEncoded(c, store.counter, COUNTER_TEXT);
    assert SetAll(map[], store.gauge) == store.gauge;
    assert AccumAll(map[], store.counter) == store.counter;
  }

  lemma EmptyRecoverable(g: string, c: string, file: string, wants: seq<nat>)
    requires Braced(g) && Braced(c) && |g| == |c| == 2 && file == Frame(g, c)
    ensures Recoverable(file, wants, EMPTY_STORE)
  {
    hide StopsFrom;
    assert file == "[{}]";
  }

  /** What a start reads back of a store: always an empty one, otherwise one with finite gauges that is recoverable. */
  ghost predicate Carries(file: string, wants: seq<nat>, store: Store) {
    store == EMPTY_STORE || (AllFinite(store.gauge) && Recoverable(file, wants, store))
  }

  /** One shutdown and one start.  (A non-finite gauge makes the encoder fail after the file was already truncated.) */
  lemma ShutdownStartIff(file: string, wants: seq<nat>, store: Store, floats: NumberText<Float64>)
    requires ReadsFinite(floats) && ShutdownLeaves(store, file, floats)
    ensures StoreAfter(file, wants, EMPTY_STORE, floats) == store <==> Carries(file, wants, store)
  {
    hide StoreAfter, Recoverable, Backs, ReadsFinite;
    if AllFinite(store.gauge) && store != EMPTY_STORE {
      RoundTripIff(file, wants, store, floats);
    } else {
      EmptyFile(wants, floats);
    }
  }

  lemma EmptyFile(wants: seq<nat>, floats: NumberText<Float64>)
    ensures Restore("", wants, EMPTY_STORE, floats) == Failed(EMPTY_STORE)
    ensures StoreAfter("", wants, EMPTY_STORE, floats) == EMPTY_STORE
  {
    hide TokensFrom, TokenOf, Room, Recovered, IsNew, Valid, NewScanner;
    var s := NewScanner();
    NewOk("", s);
    StoreAfterIs("", wants, floats);
    NothingRead(wants, s);
    OtherTextLost("", floats);
    OtherTextLost("", COUNTER_TEXT);
  }

  /** A backup of at most 2048 characters of clean names is read back if each read returns what there is. */
  lemma SmallRecoverable(file: string, store: Store, floats: NumberText<Float64>)
    requires ShutdownLeaves(store, file, floats) && CleanStore(store) && |file| <= START_SIZE / 2
    ensures Recoverable(file, [], store)
  {
    hide StopsFrom, NewScanner, IsNew, Valid, CleanStore, Backs, Small;
    FileSmall(file);
    if AllFinite(store.gauge) && store != EMPTY_STORE {
      ReadInOnePiece(file, store, floats);
    } else {
      NewOk(file, NewScanner());
      ReadAtOnce(file, NewScanner());
    }
  }

  lemma FileSmall(file: string)
    requires |file| <= START_SIZE / 2
    ensures Small(file)
  {
  }

  lemma ReadInOnePiece(file: string, store: Store, floats: NumberText<Float64>)
    requires Backs(file, store, floats) && |file| <= START_SIZE
    ensures !CommaStop(file, [])
  {
    hide StopsFrom, NewScanner, IsNew, Valid, Frame, Encodes;
    NewOk(file, NewScanner());
    ReadAtOnce(file, NewScanner());
    var g, c :| Encodes(g, store.gauge, floats) && Encodes(c, store.counter, COUNTER_TEXT) && file == Frame(g, c);
    FrameEnds(g, c);
  }

  lemma FrameEnds(g: string, c: string)
    ensures var file := Frame(g, c); file != "" && file[|file| - 1] == ']'
  {
  }

  // ----- what gets lost

  const INFINITY: Float64 := 2047 * TWO_52

  /** A metric name with `,{` is lost at the next start, however the file is read. */
  lemma SeparatorInNameLost(file: string, wants: seq<nat>, floats: NumberText<Float64>)
    requires ReadsFinite(floats)
    requires ShutdownLeaves(Store(map[], map[",{" := 1]), file, floats)
    ensures StoreAfter(file, wants, EMPTY_STORE, floats) != Store(map[], map[",{" := 1])
  {
    hide StoreAfter, ShutdownLeaves, Fits, CommaStop, ReadsFinite;
    ShutdownStartIff(file, wants, Store(map[], map[",{" := 1]), floats);
    var cm: CounterMap := map[",{" := 1];
    assert SepAt(",{", 0);
    assert ",{" in cm && HasSep(",{");
  }

  /** An infinite gauge costs all the metrics that are stored with it. */
  lemma InfiniteGaugeLosesAll(file: string, wants: seq<nat>, floats: NumberText<Float64>)
    requires ShutdownLeaves(Store(map["g" := INFINITY], map["c" := 1]), file, floats)
    ensures file == "" && StoreAfter(file, wants, EMPTY_STORE, floats) == EMPTY_STORE
  {
    hide StoreAfter;
    var gm: GaugeMap := map["g" := INFINITY];
    assert "g" in gm && !IsFinite(gm["g"]);
    EmptyFile(wants, floats);
  }

  /** Gauges whose encoding is too long to stay in the buffer are overwritten by the counters and lost, and the restore
      reports no error. */
  lemma LongGaugesLost(file: string, wants: seq<nat>, store: Store, floats: NumberText<Float64>)
    requires ReadsFinite(floats) && AllFinite(store.gauge) && Backs(file, store, floats) && CleanStore(store)
    requires store.gauge != map[] && store.counter != map[] && !CommaStop(file, wants)
    requires |file| < MAX_SIZE && !Small(file)
    ensures Restore(file, wants, EMPTY_STORE, floats) == Restored(Store(map[], store.counter))
  {
    hide TwoTokens, Encodes, Frame, Small, CleanKeys, ReadsFinite, AllFinite;
    var g, c :| Encodes(g, store.gauge, floats) && Encodes(c, store.counter, COUNTER_TEXT) && file == Frame(g, c);
    FramedIs(g, c, store, floats);
    OverwrittenTokens(g, c, file, wants, store, floats);
  }

  lemma OverwrittenTokens(g: string, c: string, file: string, wants: seq<nat>, store: Store, floats: NumberText<Float64>)
    requires Framed(g, c, file, store, floats) && CleanStore(store) && !CommaStop(file, wants)
    requires store.gauge != map[] && store.counter != map[] && |file| < MAX_SIZE && !Small(file)
    ensures Restore(file, wants, EMPTY_STORE, floats) == Restored(Store(map[], store.counter))
  {
    hide Encodes, Reads, HasSep, Frame, TokensFrom, StopsFrom, TokenOf, Room, Small;
    hide Trim, TrimBounds, First, IsNew, Valid, NewScanner, Behind, CleanKeys, ParseObject;
    var s := NewScanner();
    NewOk(file, s);
    GaugesAreFirst(g, c);
    CountersAreSecond(c);
    FrameLength(g, c);
    TwoTokensPanic(file, wants, s);
    TwoTokensRead(file, wants, s);
    ParseEncoded(c, store.counter, COUNTER_TEXT);
    OtherTextRefused(TwoTokens(file, wants).value.0, floats);
    assert AccumAll(map[], store.counter) == store.counter;
  }

  lemma OtherTextRefused<V>(s: string, nt: NumberText<V>)
    requires |s| > 2 && s[0] != '{'
    ensures ParseObject(s, nt) == None
  {
  }

  function Repeat(c: char, n: nat): string {
    seq(n, i => c)
  }

  lemma {:induction false} PlainEscapes(s: string)
    requires forall i | 0 <= i < |s| :: Escape(s[i]) == [s[i]]
    ensures EscapeAll(s) == s
  {
    if s != [] {
      PlainEscapes(s[1..]);
    }
  }

  lemma OnlyListing<V>(ks: seq<string>, name: string, v: V)
    requires Lists(ks, map[name := v])
    ensures ks == [name]
  {
    var m := map[name := v];
    DistinctSize(ks);
    assert (set k | k in ks) == {name};
  }

  lemma OneNameEncoding<V>(text: string, name: string, v: V, nt: NumberText<V>)
    requires Encodes(text, map[name := v], nt)
    ensures text == "{" + (Name(name) + (":" + nt.spell(v) + "}"))
  {
    hide Name;
    var m := map[name := v];
    var ks :| Lists(ks, m) && text == PrintObject(m, ks, nt);
    OnlyListing(ks, name, v);
    assert PrintRest(m, [name], nt) == "}";
  }

  lemma ObjectStart(name: string, rest: string)
    requires EscapeAll(name) == name
    ensures "{\"" + name + "\"" <= "{" + (Name(name) + rest)
  {
  }

  lemma StartsFrame(g: string, c: string, start: string)
    requires start <= g
    ensures "[" + start <= Frame(g, c)
  {
    assert g == start + g[|start|..];
  }

  lemma Bracket(name: string)
    ensures "[" + ("{\"" + name + "\"") == "[{\"" + name + "\""
  {
  }

  /** How a backup with a single gauge starts. */
  lemma FileStart(file: string, name: string, v: Float64, cm: CounterMap, floats: NumberText<Float64>)
    requires Backs(file, Store(map[name := v], cm), floats) && forall i | 0 <= i < |name| :: Escape(name[i]) == [name[i]]
    ensures "[{\"" + name + "\"" <= file
  {
    hide Encodes, Escape, EscapeAll, Name, Frame;
    var gm := map[name := v];
    var g, c :| Encodes(g, gm, floats) && Encodes(c, cm, COUNTER_TEXT) && file == Frame(g, c);
    OneNameEncoding(g, name, v, floats);
    PlainEscapes(name);
    ObjectStart(name, ":" + floats.spell(v) + "}");
    StartsFrame(g, c, "{\"" + name + "\"");
    Bracket(name);
  }

  /** A gauge name of 5000 commas, with any counters: the first read fills the buffer up to a comma, and the restore
      panics. */
  lemma CommaNameCrashes(file: string, v: Float64, cm: CounterMap, floats: NumberText<Float64>)
    requires Backs(file, Store(map[Repeat(',', 5000) := v], cm), floats)
    ensures Restore(file, [], EMPTY_STORE, floats) == Panicked
  {
    hide Backs, TokensFrom, Valid, IsNew, NewScanner;
    var name := Repeat(',', 5000);
    FileStart(file, name, v, cm, floats);
    assert file[..5003] == "[{\"" + name;
    CommasOnly(file);
    var s := NewScanner();
    NewOk(file, s);
    CommaAtFirstStop(file, s);
  }

  lemma CommasOnly(file: string)
    requires |file| >= 5003 && file[..5003] == "[{\"" + Repeat(',', 5000)
    ensures Loud(file, 0, START_SIZE)
  {
    forall i | 0 <= i < 5003
      ensures file[i] == if i == 0 then '[' else if i == 1 then '{' else if i == 2 then '"' else ','
    {
      assert file[..5003][i] == file[i];
    }
  }

  /** A gauge name of 3000 letters and one counter: the restore succeeds without the gauge. */
  lemma LongNameLosesGauge(file: string, v: Float64, floats: NumberText<Float64>)
    requires ReadsFinite(floats) && IsFinite(v) && |file| < START_SIZE
    requires Backs(file, Store(map[Repeat('a', 3000) := v], map["c" := 1]), floats)
    ensures Restore(file, [], EMPTY_STORE, floats) == Restored(Store(map[], map["c" := 1]))
  {
    hide Backs, Restore, CommaStop, Small, HasSep, ReadsFinite;
    var name := Repeat('a', 3000);
    FileStart(file, name, v, map["c" := 1], floats);
    LongFirst(file, name);
    NoSeparatorIn(name, "c");
    var gm: GaugeMap, cm: CounterMap := map[name := v], map["c" := 1];
    assert name in gm && "c" in cm;
    ReadInOnePiece(file, Store(map[name := v], map["c" := 1]), floats);
    LongGaugesLost(file, [], Store(map[name := v], map["c" := 1]), floats);
  }

  lemma LongFirst(file: string, name: string)
    requires name == Repeat('a', 3000) && "[{\"" + name + "\"" <= file
    ensures !Small(file)
  {
    assert file[..3003] == "[{\"" + name;
    forall i | 0 <= i < 3003
      ensures file[i] != ','
    {
      assert file[..3003][i] == file[i];
    }
    TokenMeaning(file);
  }

  lemma NoSeparatorIn(a: string, b: string)
    requires (forall i | 0 <= i < |a| :: a[i] != ',') && (forall i | 0 <= i < |b| :: b[i] != ',')
    ensures !HasSep(a) && !HasSep(b)
  {
  }

  lemma NoCommas(file: string, stops: seq<nat>)
    requires file != "" && file[|file| - 1] != ',' && forall p | p in stops :: p == |file|
    ensures !Commas(file, stops)
  {
  }

  /** What a short text without a separator is read as. */
  lemma ShortText(file: string)
    requires 0 < |file| < START_SIZE && !HasSep(file) && file[|file| - 1] != ','
    ensures TwoTokens(file, []) == Some((Trim(file, "[,]"), ""))
  {
    hide TokensFrom, StopsFrom, IsNew, Valid, NewScanner, HasSep, Trim, TokenOf, Room, Commas;
    var s := NewScanner();
    NewOk(file, s);
    TokenMeaning(file);
    ReadAtOnce(file, s);
    NoCommas(file, StopsFrom(file, [], s));
    OneToken(file, [], s);
    OneTokenPanics(file, [], s);
  }

  /** A file that holds no backup at all is taken for a successful restore of nothing. */
  lemma GarbageIsAccepted(store: Store, floats: NumberText<Float64>)
    ensures Restore("garbage", [], store, floats) == Restored(store)
  {
    hide TwoTokens, ParseObject, RestoreFrom, HasSep;
    NoSeparatorIn("garbage", "");
    ShortText("garbage");
    OtherTextRefused("garbage", floats);
    RestoreFromMeans("garbage", "", store, floats);
  }

  function ReadBits(s: string): Option<Float64> {
    match DecimalText.ReadDigits(0, s)
    case None => None
    case Some(n) => if s != "" && n < TWO_64 then Some(n) else None
  }

  /** Spellings that read back exist: the decimal of the bit pattern is one. */
  lemma SpellingsExist() returns (floats: NumberText<Float64>)
    ensures ReadsFinite(floats)
  {
    floats := NumberText((f: Float64) => DecimalText.Digits(f), (s: string) => ReadBits(s));
    forall f: Float64 | IsFinite(f)
      ensures Reads(floats, f)
    {
      var n: nat := f;
      var t := DecimalText.Digits(n);
      DecimalText.ReadOfDigits(n);
      DigitsAreNumberChars(n);
      assert floats.spell(f) == t && floats.parse(t) == ReadBits(t);
      assert forall i | 0 <= i < |t| :: t[i] in t;
    }
  }
}
