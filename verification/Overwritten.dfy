/** What a restore can make of gauges that the second call of Scan overwrote in part with what follows them in the file:
    never the gauges that were written (internal/monserv/fw/fw.go). */
module Overwritten {
  import opened Wrappers
  import opened Text
  import opened Json
  import opened Splitter
  import opened Bufio
  import opened Fw
  import opened ReadBack

  // ----- memory

  /** The first `a` bytes of the buffer are those of the rest of the file up to `n`, and what they were beyond. */
  ghost predicate Mixed(was: string, bytes: string, rest: string, a: nat, n: nat) {
    && a <= |was| && a <= |bytes| && n <= |rest|
    && forall i | 0 <= i < a :: bytes[i] == if i < n then rest[i] else was[i]
  }

  lemma {:induction false} FrozenStays(content: string, wants: seq<nat>, s: Scanner, b: nat)
    requires Valid(content, s) && b < |s.buffers| - 1
    ensures var t := ScanCall(content, wants, s).0;
            b < |t.buffers| && t.buffers[b] == s.buffers[b]
    decreases |content| - s.pos, if s.err == NoErr then 1 else 0
  {
    hide SplitAt, Holds, Next, Offered, Full;
    if s.err == NoErr && Offered(s) == NeedMore && !Full(s) {
      NextOk(content, wants, s);
      NextBuffers(content, wants, s, b);
      FrozenStays(content, wants, Next(content, wants, s), b);
    } else if s.err == NoErr && Offered(s) == NeedMore {
      FullSame(content, s);
    }
  }

  lemma FullSame(content: string, s: Scanner)
    requires Valid(content, s) && Full(s)
    ensures Shifted(s) == s
  {
    ShiftedOk(content, s);
  }

  /** Everything behind the window is as it was. */
  ghost predicate SameBehind(s: Scanner, t: Scanner) {
    && |t.buffers| == |s.buffers| && t.start == 0 && Size(t) == Size(s)
    && forall i | t.end <= i < Size(s) :: Current(t)[i] == Current(s)[i]
  }

  lemma ShiftedBytes(s: Scanner)
    requires Bounded(s) && s.buffers != [] && (Moves(s) || s.start == 0)
    ensures Bounded(Shifted(s)) && SameBehind(s, Shifted(s))
    ensures Moves(s) || s.end < Size(s) ==> Shifted(s).end < Size(s)
    ensures !Moves(s) ==> Shifted(s) == s
  {
    var moved := Current(s)[s.start..s.end] + Current(s)[s.end - s.start..];
    assert forall i | s.end - s.start <= i < Size(s) :: moved[i] == Current(s)[i];
  }

  lemma ReadBytes(content: string, wants: seq<nat>, s: Scanner)
    requires s.start == 0 && s.end < Size(s) && s.pos <= |content|
    ensures SameBehind(s, ReadMore(content, wants, s)) && ReadMore(content, wants, s).end >= s.end
  {
  }

  lemma GrownKeeps(content: string, wants: seq<nat>, s: Scanner, b: nat)
    requires Bounded(s) && s.start == 0 && b == |s.buffers| - 1 && s.pos <= |content|
    requires s.end == Size(s) && Grown(s).end < Size(Grown(s))
    ensures var t := ReadMore(content, wants, Grown(s));
            b < |t.buffers| - 1 && t.buffers[b] == s.buffers[b] && t.start == 0
  {
  }

  /** A read into a window at the front, or one that is moved there. */
  lemma NextBytes(content: string, wants: seq<nat>, s: Scanner, b: nat)
    requires Valid(content, s) && s.err == NoErr && !Full(s) && b == |s.buffers| - 1
    requires Moves(s) || s.start == 0
    ensures var t := Next(content, wants, s);
            if Moves(s) || s.end < Size(s) then SameBehind(s, t)
            else b < |t.buffers| - 1 && t.buffers[b] == s.buffers[b] && t.start == 0
  {
    hide Holds, Shifted, ReadMore, Moves;
    ShiftedOk(content, s);
    ShiftedBytes(s);
    var t := Shifted(s);
    GrownOk(content, t);
    if t.end < Size(t) {
      assert Grown(t) == t;
      ReadBytes(content, wants, t);
    } else {
      GrownKeeps(content, wants, t, b);
    }
  }

  lemma WindowIs(content: string, s: Scanner, was: string, a: nat)
    requires Valid(content, s) && s.buffers != [] && s.start == 0 && a <= |was| && a <= Size(s)
    requires forall i | s.end <= i < a :: Current(s)[i] == was[i]
    ensures Mixed(was, Current(s), content[Consumed(s)..], a, s.end)
  {
    var window, rest := content[Consumed(s)..s.pos], content[Consumed(s)..];
    assert Current(s)[0..s.end] == window;
    forall i | 0 <= i < a && i < s.end
      ensures Current(s)[i] == rest[i]
    {
      assert Current(s)[0..s.end][i] == window[i];
    }
  }

  /** After the window was moved to the front. */
  lemma {:induction false} MovedMixed(content: string, wants: seq<nat>, s: Scanner, b: nat, was: string, a: nat)
    returns (n: nat)
    requires Valid(content, s) && b == |s.buffers| - 1 && s.start == 0 && a <= |was| && a <= Size(s)
    requires forall i | s.end <= i < a :: s.buffers[b][i] == was[i]
    ensures var t := ScanCall(content, wants, s).0;
            b < |t.buffers| && Mixed(was, t.buffers[b], content[Consumed(s)..], a, n)
    decreases |content| - s.pos, if s.err == NoErr then 1 else 0
  {
    hide SplitAt, Holds, Next, Full, Shifted, Mixed, Offered, ScanCall;
    n := s.end;
    WindowIs(content, s, was, a);
    if s.err != NoErr {
      EndsAfterError(content, wants, s);
    } else if Offered(s) != NeedMore {
      EndsAtOnce(content, wants, s);
    } else if Full(s) {
      FullEnds(content, wants, s);
    } else {
      NextOk(content, wants, s);
      NextBytes(content, wants, s, b);
      var next := Next(content, wants, s);
      StepsOn(content, wants, s, next);
      if s.end < Size(s) {
        n := MovedMixed(content, wants, next, b, was, a);
      } else {
        FrozenStays(content, wants, next, b);
      }
    }
  }

  lemma FullEnds(content: string, wants: seq<nat>, s: Scanner)
    requires Valid(content, s) && s.err == NoErr && Offered(s) == NeedMore && Full(s)
    ensures ScanCall(content, wants, s).0.buffers == s.buffers
  {
    FullSame(content, s);
  }

  /** A call behind a token of `a` bytes leaves them as they are, or puts the rest of the file over their front. */
  lemma {:induction false} MixedMemory(content: string, wants: seq<nat>, s: Scanner, b: nat, a: nat) returns (n: nat)
    requires Valid(content, s) && s.err == NoErr && b == |s.buffers| - 1 && 0 < a == s.start
    ensures var t := ScanCall(content, wants, s).0;
            b < |t.buffers| && Mixed(s.buffers[b], t.buffers[b], content[Consumed(s)..], a, n)
    decreases |content| - s.pos
  {
    hide SplitAt, Holds, Next, Full, Shifted, Offered, ScanCall;
    if Offered(s) != NeedMore {
      EndsAtOnce(content, wants, s);
      n := 0;
    } else {
      NotFull(content, s);
      NextOk(content, wants, s);
      var next := Next(content, wants, s);
      StepsOn(content, wants, s, next);
      if Moves(s) {
        NextBytes(content, wants, s, b);
        n := MovedMixed(content, wants, next, b, s.buffers[b], a);
      } else {
        NextBuffers(content, wants, s, b);
        assert next.buffers[b][..s.end][..a] == s.buffers[b][..s.end][..a];
        if next.err == NoErr {
          n := MixedMemory(content, wants, next, b, a);
        } else {
          EndsAfterError(content, wants, next);
          n := 0;
        }
      }
    }
  }

  // ----- inside and outside of strings

  /** Where a reader of JSON stands: between strings, in one, or behind a backslash in one. */
  datatype Mode = Out | In | Esc

  function After(m: Mode, c: char): Mode {
    match m
    case Out => if c == '"' then In else Out
    case In => if c == '"' then Out else if c == '\\' then Esc else In
    case Esc => In
  }

  function Over(m: Mode, s: string): Mode
    decreases |s|
  {
    if s == [] then m else Over(After(m, s[0]), s[1..])
  }

  /** No backslash between strings. */
  predicate NoSlash(m: Mode, s: string)
    decreases |s|
  {
    s == [] || ((m == Out ==> s[0] != '\\') && NoSlash(After(m, s[0]), s[1..]))
  }

  /** No brace in a string, and no digit that its escape needs. */
  predicate NoBrace(m: Mode, s: string)
    decreases |s|
  {
    s == [] || ((m != Out ==> s[0] !in "{bB") && NoBrace(After(m, s[0]), s[1..]))
  }

  /** What an encoder prints behind the first brace, in any part: no such character between strings, and no comma or
      bracket escaped. */
  predicate Printed(m: Mode, s: string)
    decreases |s|
  {
    s == [] ||
    ((After(m, s[0]) == Out ==> s[0] !in "{bB\\") && (m == Esc ==> s[0] !in "[,]") && Printed(After(m, s[0]), s[1..]))
  }

  lemma {:induction false} OverConcat(m: Mode, a: string, b: string)
    ensures Over(m, a + b) == Over(Over(m, a), b)
    ensures NoSlash(m, a + b) <==> NoSlash(m, a) && NoSlash(Over(m, a), b)
    ensures NoBrace(m, a + b) <==> NoBrace(m, a) && NoBrace(Over(m, a), b)
    ensures Printed(m, a + b) <==> Printed(m, a) && Printed(Over(m, a), b)
    decreases |a|
  {
    if a == [] {
      assert a + b == b;
    } else {
      assert (a + b)[1..] == a[1..] + b;
      OverConcat(After(m, a[0]), a[1..], b);
    }
  }

  // ----- what the parser accepts

  /** `s` goes on like `after`, which is read in another mode. */
  predicate GoesOn(m: Mode, s: string, m': Mode, after: string) {
    && Over(m, s) == Over(m', after)
    && (NoSlash(m', after) ==> NoSlash(m, s))
    && (NoBrace(m, s) ==> NoBrace(m', after))
  }

  lemma OneCharacter(m: Mode, s: string)
    requires s != [] && (m == Out ==> s[0] != '\\')
    ensures GoesOn(m, s, After(m, s[0]), s[1..])
  {
  }

  lemma HexStep(s: string)
    requires s != [] && HexValue(s[0]).Some?
    ensures GoesOn(In, s, In, s[1..])
  {
  }

  lemma UnescapeGoesOn(s: string)
    requires Unescape(s).Some?
    ensures GoesOn(Esc, s, In, Unescape(s).value.1)
    ensures NoBrace(Esc, s) ==> Unescape(s).value.0 != '{'
  {
    OneCharacter(Esc, s);
    if s[0] !in "\"\\/bfnrt" {
      var s1, s2, s3, s4 := s[1..], s[2..], s[3..], s[4..];
      assert s1[1..] == s2 && s2[1..] == s3 && s3[1..] == s4 && s4[1..] == s[5..];
      HexStep(s1);
      HexStep(s2);
      HexStep(s3);
      HexStep(s4);
      if NoBrace(Esc, s) {
        assert s4[0] !in "{bB";
        NoBraceValue(s[1], s[2], s[3], s[4]);
      }
    }
  }

  lemma NoBraceValue(a: char, b: char, c: char, d: char)
    requires HexValue(a).Some? && HexValue(b).Some? && HexValue(c).Some? && HexValue(d).Some? && d !in "bB"
    ensures ((HexValue(a).value * 16 + HexValue(b).value) * 16 + HexValue(c).value) * 16 + HexValue(d).value != '{' as int
  {
  }

  lemma {:induction false} UnquoteGoesOn(s: string)
    requires Unquote(s).Some?
    ensures GoesOn(In, s, Out, Unquote(s).value.1)
    ensures NoBrace(In, s) ==> '{' !in Unquote(s).value.0
    decreases |s|
  {
    hide Unescape;
    OneCharacter(In, s);
    if s[0] == '\\' {
      UnescapeGoesOn(s[1..]);
      UnquoteGoesOn(Unescape(s[1..]).value.1);
    } else if s[0] != '"' {
      UnquoteGoesOn(s[1..]);
    }
  }

  lemma {:induction false} NumberGoesOn(s: string)
    ensures GoesOn(Out, s, Out, s[NumberLength(s)..])
  {
    if s != [] && NumberChar(s[0]) {
      OneCharacter(Out, s);
      NumberGoesOn(s[1..]);
      assert s[1..][NumberLength(s[1..])..] == s[NumberLength(s)..];
    } else {
      assert s[0..] == s;
    }
  }

  lemma MemberGoesOn<V>(s: string, nt: NumberText<V>)
    requires ParseMember(s, nt).Some?
    ensures GoesOn(Out, s, Out, ParseMember(s, nt).value.2)
    ensures NoBrace(Out, s) ==> '{' !in ParseMember(s, nt).value.0
  {
    hide Unquote, NumberLength;
    OneCharacter(Out, s);
    UnquoteGoesOn(s[1..]);
    var after := Unquote(s[1..]).value.1;
    OneCharacter(Out, after);
    NumberGoesOn(after[1..]);
  }

  /** A text that parses ends between strings and has no backslash there; without a brace in its strings there is none
      in its names. */
  lemma {:induction false} ParsedText<V>(s: string, nt: NumberText<V>)
    requires ParseMembers(s, nt).Some?
    ensures Over(Out, s) == Out && NoSlash(Out, s)
    ensures NoBrace(Out, s) ==> forall k | k in ParseMembers(s, nt).value :: '{' !in k
    decreases |s|
  {
    hide ParseMember;
    MemberGoesOn(s, nt);
    var rest := ParseMember(s, nt).value.2;
    OneCharacter(Out, rest);
    if rest == "}" {
      assert rest[1..] == "";
    } else {
      ParsedText(rest[1..], nt);
    }
  }

  // ----- what the encoder prints

  lemma {:induction false} InStays(s: string)
    requires forall i | 0 <= i < |s| :: s[i] != '"' && s[i] != '\\'
    ensures Over(In, s) == In && Printed(In, s)
  {
    if s != [] {
      InStays(s[1..]);
    }
  }

  lemma EscapePrinted(c: char)
    ensures Over(In, Escape(c)) == In && Printed(In, Escape(c))
  {
    var e := Escape(c);
    if e == [c] {
      InStays(e);
    } else {
      EscapeShape(c);
      EscapeLetters(c);
      InStays(e[2..]);
      assert e[1..][1..] == e[2..];
    }
  }

  lemma EscapeLetters(c: char)
    requires Escape(c) != [c]
    ensures var e := Escape(c);
            |e| >= 2 && e[1] !in "[,]" && forall i | 2 <= i < |e| :: e[i] != '"' && e[i] != '\\'
  {
  }

  lemma {:induction false} EscapeAllPrinted(k: string)
    ensures Over(In, EscapeAll(k)) == In && Printed(In, EscapeAll(k))
  {
    if k != [] {
      EscapePrinted(k[0]);
      EscapeAllPrinted(k[1..]);
      OverConcat(In, Escape(k[0]), EscapeAll(k[1..]));
    }
  }

  lemma NamePrinted(k: string)
    ensures Over(Out, Name(k)) == Out && Printed(Out, Name(k))
  {
    EscapeAllPrinted(k);
    OverConcat(In, EscapeAll(k), "\"");
    assert Name(k)[1..] == EscapeAll(k) + "\"";
    assert "\""[1..] == "";
  }

  lemma {:induction false} NumberPrinted(t: string)
    requires forall i | 0 <= i < |t| :: NumberChar(t[i])
    ensures Over(Out, t) == Out && Printed(Out, t)
  {
    if t != [] {
      NumberPrinted(t[1..]);
    }
  }

  lemma Single(c: char)
    requires c in ":,}]"
    ensures Over(Out, [c]) == Out && Printed(Out, [c])
  {
    assert [c][1..] == [];
  }

  lemma {:induction false} MembersPrinted<V>(m: map<string, V>, ks: seq<string>, nt: NumberText<V>)
    requires forall k | k in ks :: k in m && Reads(nt, m[k])
    ensures var s := PrintMembers(m, ks, nt); Over(Out, s) == Out && Printed(Out, s)
    decreases |ks|
  {
    hide Name, Over, Printed;
    Single('}');
    if ks != [] {
      var k, rest := ks[0], PrintRest(m, ks, nt);
      var number := nt.spell(m[k]);
      NamePrinted(k);
      Single(':');
      NumberPrinted(number);
      if |ks| > 1 {
        MembersPrinted(m, ks[1..], nt);
        Single(',');
        OverConcat(Out, ",", PrintMembers(m, ks[1..], nt));
      }
      OverConcat(Out, ":", number);
      OverConcat(Out, ":" + number, rest);
      OverConcat(Out, Name(k), ":" + number + rest);
    }
  }

  // ----- two readers of one text, in different modes

  lemma {:induction false} Swapped(truth: Mode, m: Mode, s: string)
    requires (truth == In && m == Out) || (truth == Out && m == In)
    requires Printed(truth, s) && NoSlash(m, s)
    ensures NoBrace(m, s) && Over(m, s) != Esc
    decreases |s|
  {
    if s != [] {
      Swapped(After(truth, s[0]), After(m, s[0]), s[1..]);
    }
  }

  /** Once in the same mode two readers stay so; before that no brace is read in a string. */
  lemma {:induction false} NeverSame(truth: Mode, m: Mode, s: string)
    requires !(truth == Out && m == Esc)
    requires Printed(truth, s) && NoSlash(m, s) && Over(truth, s) == In && Over(m, s) == Out
    ensures NoBrace(m, s)
    decreases |s|
  {
    if s != [] {
      assert truth != m;
      assert After(truth, s[0]) != After(m, s[0]);
      NeverSame(After(truth, s[0]), After(m, s[0]), s[1..]);
    }
  }

  lemma Part(s: string, i: nat, k: nat)
    requires i <= k <= |s| && Printed(Out, s)
    ensures var m := Over(Out, s[..i]);
            Printed(m, s[i..k]) && Over(m, s[i..k]) == Over(Out, s[..k])
  {
    assert s == s[..k] + s[k..];
    assert s[..k] == s[..i] + s[i..k];
    OverConcat(Out, s[..k], s[k..]);
    OverConcat(Out, s[..i], s[i..k]);
  }

  /** A separator lies in a string. */
  lemma SeparatorInside(s: string, p: nat)
    requires Printed(Out, s) && p + 3 <= |s| && s[p] == ',' && s[p + 1] == s[p + 2] == '{'
    ensures Over(Out, s[..p]) == In && Over(Out, s[..p + 3]) == In
  {
    var m := Over(Out, s[..p]);
    Part(s, p, p + 3);
    assert s[p..p + 3] == [',', '{', '{'];
    assert s[p..p + 3][1..] == ['{', '{'] && ['{', '{'][1..] == ['{'] && ['{'][1..] == [];
  }

  lemma {:induction false} Trimmings(m: Mode, s: string)
    requires (forall i | 0 <= i < |s| :: s[i] in "[,]") && Printed(m, s) && Over(m, s) == In
    ensures m == In
    decreases |s|
  {
    if s != [] {
      Trimmings(After(m, s[0]), s[1..]);
    }
  }

  /** The rest behind a separator, laid over the front of the text before it, has no name with a brace. */
  lemma NoBraceNames<V>(s: string, p: nat, l: nat, k: nat, nt: NumberText<V>)
    requires Printed(Out, s) && p + 3 <= |s| && s[p] == ',' && s[p + 1] == s[p + 2] == '{'
    requires l <= p && (forall i | l <= i < p :: s[i] in "[,]") && k <= l && p + 3 + k <= |s|
    requires ParseMembers(s[p + 3..p + 3 + k] + s[k..l], nt).Some?
    ensures forall name | name in ParseMembers(s[p + 3..p + 3 + k] + s[k..l], nt).value :: '{' !in name
  {
    hide Over, Printed, NoSlash, NoBrace, ParseMembers;
    var over, under := s[p + 3..p + 3 + k], s[k..l];
    ParsedText(over + under, nt);
    OverConcat(Out, over, under);
    SeparatorInside(s, p);
    Part(s, p + 3, p + 3 + k);
    Swapped(In, Out, over);
    Part(s, l, p);
    Trimmings(Over(Out, s[..l]), s[l..p]);
    Part(s, k, l);
    NeverSame(Over(Out, s[..k]), Over(Out, over), under);
  }

  // ----- the first token after the second call

  /** `gj` is the first token with the front of the rest of the file laid over it. */
  ghost predicate LaidOver(gj: string, first: string, rest: string, n: nat) {
    && |gj| == |first| && n <= |rest|
    && forall i | 0 <= i < |gj| :: gj[i] == if i + 1 < n then rest[i + 1] else first[i]
  }

  lemma OverwrittenFirst(file: string, wants: seq<nat>, s: Scanner) returns (n: nat)
    requires IsNew(s) && Valid(file, s) && HasSep(file) && Room(file) <= MAX_SIZE
    requires TrimBounds(TokenOf(file), "[,]").0 == 1 && TokensFrom(file, wants, s).Some?
    ensures LaidOver(TokensFrom(file, wants, s).value.0, First(file), Behind(file), n)
  {
    hide ScanCall, TokenOf, Room, HasSep, Early, Quiet, Before;
    hide TrimBounds, Trim, Value, Trimmed, Valid, IsNew, Mixed, LaidOver;
    FirstCall(file, wants, s);
    BehindIs(file);
    var (t, f) := ScanCall(file, wants, s);
    assert f.Got?;
    assert file[Consumed(t)..] == Behind(file);
    var a := |TokenOf(file)|;
    n := MixedMemory(file, wants, t, f.slice.buffer, a);
    var u := ScanCall(file, wants, t).0;
    MixedSlice(file, t, u, f.slice, n);
  }

  lemma MixedSlice(file: string, t: Scanner, u: Scanner, slice: Slice, n: nat)
    requires t.buffers != [] && slice == Slice(|t.buffers| - 1, 0, |TokenOf(file)|) && |TokenOf(file)| <= Size(t)
    requires Value(t, slice) == TokenOf(file) && slice.buffer < |u.buffers| && TrimBounds(TokenOf(file), "[,]").0 == 1
    requires Mixed(t.buffers[slice.buffer], u.buffers[slice.buffer], Behind(file), slice.hi, n)
    ensures LaidOver(Value(u, Trimmed(t, slice)), First(file), Behind(file), n)
  {
    hide TokenOf, TrimBounds, Trim, Behind;
    var b := TrimBounds(TokenOf(file), "[,]");
    var bytes, was := u.buffers[slice.buffer], t.buffers[slice.buffer];
    assert Value(u, Trimmed(t, slice)) == bytes[b.0..b.1];
    assert TokenOf(file) == was[0..slice.hi];
    assert First(file) == TokenOf(file)[b.0..b.1];
    forall i | 0 <= i < b.1 - b.0
      ensures bytes[b.0..b.1][i] == if i + 1 < n then Behind(file)[i + 1] else First(file)[i]
    {
      assert TokenOf(file)[i + 1] == was[i + 1];
    }
  }

  /** Gauges that were cut in a name with `,{{` and laid over are never those that were written. */
  lemma LaidOverLost<V>(g: string, gm: map<string, V>, nt: NumberText<V>, j: nat, first: string, gj: string, n: nat)
    requires Encodes(g, gm, nt) && (forall k | k in gm :: Reads(nt, gm[k]))
    requires HasSep(g) && 0 < j && j + 2 < |g| && g[j] == ',' && g[j + 1] == g[j + 2] == '{'
    requires first != "" && |first| <= j && first <= g && forall i | |first| <= i < j :: g[i] in "[,]"
    requires LaidOver(gj, first, g[j + 1..] + "]", n)
    ensures ParseObject(gj, nt) != Some(gm)
  {
    hide Encodes, Reads, ParseMembers, HasSep, LaidOver, Over, Printed;
    if ParseObject(gj, nt) == Some(gm) {
      EncodingPrinted(g, gm, nt);
      EncodedSep(g, gm, nt);
      var name :| name in gm && HasSep(name);
      SepHasBrace(name);
      var body, l := g[1..] + "]", |first| - 1;
      var k := if n < 2 then 0 else if n - 2 < l then n - 2 else l;
      LaidOverIs(g, j, first, gj, n, k);
      assert gj != "{}";
      NoBraceNames(body, j - 1, l, k, nt);
    }
  }

  lemma SepHasBrace(s: string)
    requires HasSep(s)
    ensures '{' in s
  {
    var i :| SepAt(s, i);
    assert s[i + 1] == '{';
  }

  lemma EncodingPrinted<V>(g: string, gm: map<string, V>, nt: NumberText<V>)
    requires Encodes(g, gm, nt) && forall k | k in gm :: Reads(nt, gm[k])
    ensures g != "" && Printed(Out, g[1..] + "]")
  {
    hide Reads;
    var ks :| Lists(ks, gm) && g == PrintObject(gm, ks, nt);
    MembersPrinted(gm, ks, nt);
    Single(']');
    OverConcat(Out, PrintMembers(gm, ks, nt), "]");
    assert g[1..] == PrintMembers(gm, ks, nt);
  }

  lemma LaidOverIs(g: string, j: nat, first: string, gj: string, n: nat, k: nat)
    requires 0 < j && j + 2 < |g| && first != "" && |first| <= j && first <= g
    requires LaidOver(gj, first, g[j + 1..] + "]", n)
    requires k == if n < 2 then 0 else if n - 2 < |first| - 1 then n - 2 else |first| - 1
    ensures var body := g[1..] + "]";
            j + 2 + k <= |body| && gj[1..] == body[j + 2..j + 2 + k] + body[k..|first| - 1]
  {
    var body, rest := g[1..] + "]", g[j + 1..] + "]";
    assert forall i | 0 <= i < |rest| :: rest[i] == body[j + i];
    assert forall i | 0 <= i < |g| - 1 :: body[i] == g[i + 1];
  }
}
