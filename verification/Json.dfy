/** Flat JSON objects from names to numbers, as encoding/json writes and reads them (RFC 8259, sections 4
    and 7).  Go prints the keys in sorted order; everything here holds for every order. */
module Json {
  import opened Wrappers
  import opened Text
  import opened Counting

  /** How values of one number type are spelled.  Floats keep theirs abstract. */
  datatype NumberText<!V> = NumberText(spell: V -> string, parse: string -> Option<V>)

  predicate NumberChar(c: char) {
    '0' <= c <= '9' || c == '-' || c == '+' || c == '.' || c == 'e' || c == 'E'
  }

  /** The value is spelled with number characters only and its spelling reads back as itself. */
  ghost predicate Reads<V>(nt: NumberText<V>, v: V) {
    var t := nt.spell(v);
    t != [] && (forall i | 0 <= i < |t| :: NumberChar(t[i])) && nt.parse(t) == Some(v)
  }

  // ----- strings

  function HexChar(d: nat): char
    requires d < 16
  {
    "0123456789abcdef"[d]
  }

  function HexValue(c: char): Option<nat> {
    if '0' <= c <= '9' then Some(c as int - '0' as int)
    else if 'a' <= c <= 'f' then Some(c as int - 'a' as int + 10)
    else if 'A' <= c <= 'F' then Some(c as int - 'A' as int + 10)
    else None
  }

  function Escape(c: char): string {
    if c == '"' || c == '\\' then ['\\', c]
    else if c == 8 as char then "\\b"
    else if c == 12 as char then "\\f"
    else if c == '\n' then "\\n"
    else if c == '\r' then "\\r"
    else if c == '\t' then "\\t"
    else if c < ' ' || c == '<' || c == '>' || c == '&' then
      "\\u00" + [HexChar(c as int / 16), HexChar(c as int % 16)]
    else if c == '\U{2028}' then "\\u2028"
    else if c == '\U{2029}' then "\\u2029"
    else [c]
  }

  function EscapeAll(s: string): string {
    if s == [] then [] else Escape(s[0]) + EscapeAll(s[1..])
  }

  /** The character that the text after a backslash stands for, and the text after it. */
  function Unescape(s: string): (r: Option<(char, string)>)
    ensures r.Some? ==> |r.value.1| < |s|
  {
    if s == [] then None
    else if s[0] in "\"\\/" then Some((s[0], s[1..]))
    else if s[0] == 'b' then Some((8 as char, s[1..]))
    else if s[0] == 'f' then Some((12 as char, s[1..]))
    else if s[0] == 'n' then Some(('\n', s[1..]))
    else if s[0] == 'r' then Some(('\r', s[1..]))
    else if s[0] == 't' then Some(('\t', s[1..]))
    else if s[0] == 'u' && |s| >= 5 then
      match (HexValue(s[1]), HexValue(s[2]), HexValue(s[3]), HexValue(s[4]))
      case (Some(a), Some(b), Some(c), Some(d)) =>
        var n := ((a * 16 + b) * 16 + c) * 16 + d;
        if n < 0xD800 || 0xE000 <= n < 0x10000 then Some((n as char, s[5..])) else None
      case _ => None
    else None
  }

  /** The string that ends at the first bare quote of the text, and the text after that quote. */
  function Unquote(s: string): (r: Option<(string, string)>)
    ensures r.Some? ==> |r.value.1| < |s|
  {
    if s == [] then None
    else if s[0] == '"' then Some(("", s[1..]))
    else if s[0] == '\\' then
      match Unescape(s[1..])
      case None => None
      case Some((c, rest)) =>
        (match Unquote(rest) case None => None case Some((t, after)) => Some(([c] + t, after)))
    else if s[0] < ' ' then None
    else match Unquote(s[1..]) case None => None case Some((t, after)) => Some(([s[0]] + t, after))
  }

  // ----- objects

  function NumberLength(s: string): (n: nat)
    ensures n <= |s|
  {
    if s != [] && NumberChar(s[0]) then 1 + NumberLength(s[1..]) else 0
  }

  /** Reads one member `"name":number`: its name, its value and the text after it. */
  function ParseMember<V>(s: string, nt: NumberText<V>): (r: Option<(string, V, string)>)
    ensures r.Some? ==> |r.value.2| < |s|
  {
    if s == [] || s[0] != '"' then None
    else
      match Unquote(s[1..])
      case None => None
      case Some((k, after)) =>
        if after == [] || after[0] != ':' then None
        else
          var n := NumberLength(after[1..]);
          match nt.parse(after[1..][..n])
          case None => None
          case Some(v) => Some((k, v, after[1..][n..]))
  }

  /** Reads members up to the closing brace, which must end the text; a repeated name keeps its last value. */
  function ParseMembers<V>(s: string, nt: NumberText<V>): Option<map<string, V>>
    decreases |s|
  {
    match ParseMember(s, nt)
    case None => None
    case Some((k, v, rest)) =>
      if rest == "}" then Some(map[k := v])
      else if rest == [] || rest[0] != ',' then None
      else
        match ParseMembers(rest[1..], nt)
        case None => None
        case Some(m) => Some(map[k := v] + m)
  }

  function ParseObject<V>(s: string, nt: NumberText<V>): Option<map<string, V>> {
    if s == "{}" then Some(map[])
    else if s == [] || s[0] != '{' then None
    else ParseMembers(s[1..], nt)
  }

  function Name(k: string): string {
    "\"" + EscapeAll(k) + "\""
  }

  /** The members named in `ks` and the closing brace. */
  function PrintMembers<V>(m: map<string, V>, ks: seq<string>, nt: NumberText<V>): string
    requires forall k | k in ks :: k in m
    decreases |ks|, 1
  {
    if ks == [] then "}" else Name(ks[0]) + (":" + nt.spell(m[ks[0]]) + PrintRest(m, ks, nt))
  }

  /** What follows the value of the first member. */
  function PrintRest<V>(m: map<string, V>, ks: seq<string>, nt: NumberText<V>): string
    requires ks != [] && forall k | k in ks :: k in m
    decreases |ks|, 0
  {
    if |ks| == 1 then "}" else "," + PrintMembers(m, ks[1..], nt)
  }

  function PrintObject<V>(m: map<string, V>, ks: seq<string>, nt: NumberText<V>): string
    requires forall k | k in ks :: k in m
  {
    "{" + PrintMembers(m, ks, nt)
  }

  /** `ks` names every key of `m` once. */
  ghost predicate Lists<V>(ks: seq<string>, m: map<string, V>) {
    NoDuplicates(ks) && forall k :: k in ks <==> k in m
  }

  lemma {:induction false} SomeListing<V>(m: map<string, V>) returns (ks: seq<string>)
    ensures Lists(ks, m)
    decreases |m|
  {
    if m == map[] {
      ks := [];
    } else {
      var k :| k in m;
      var init := SomeListing(m - {k});
      ks := init + [k];
      assert m.Keys == (m - {k}).Keys + {k};
    }
  }

  /** `text` is an encoding of `m` with its keys in some order. */
  ghost predicate Encodes<V>(text: string, m: map<string, V>, nt: NumberText<V>) {
    exists ks :: Lists(ks, m) && text == PrintObject(m, ks, nt)
  }

  /** Encodes a map, taking its keys in any order. */
  method Marshal<V>(m: map<string, V>, nt: NumberText<V>) returns (text: string)
    ensures Encodes(text, m, nt)
  {
    var ks, rest := [], m.Keys;
    while rest != {}
      invariant rest <= m.Keys
      invariant NoDuplicates(ks)
      invariant forall k :: k in ks <==> k in m.Keys - rest
      decreases |rest|
    {
      var k :| k in rest;
      assert k !in ks;
      ks := ks + [k];
      rest := rest - {k};
    }
    text := PrintObject(m, ks, nt);
  }

  // ----- reading back

  /** An escape is a backslash and one of eight letters, or `u` and four hexadecimal digits. */
  lemma EscapeShape(c: char)
    requires Escape(c) != [c]
    ensures var e := Escape(c); e[0] == '\\' && (|e| == 2 || (|e| == 6 && e[1] == 'u'))
  {
  }

  lemma ShortEscape(c: char, t: string)
    requires |Escape(c)| == 2 && t != [] && t[0] == Escape(c)[1]
    ensures Unescape(t) == Some((c, t[1..]))
  {
  }

  lemma HexDigits(d: nat)
    requires d < 16
    ensures HexValue(HexChar(d)) == Some(d)
    ensures HexValue('0') == Some(0) && HexValue('2') == Some(2) && HexValue('8') == Some(8) && HexValue('9') == Some(9)
  {
  }

  lemma UnescapeHex(t: string, a: nat, b: nat, c: nat, d: nat)
    requires |t| >= 5 && t[0] == 'u'
    requires HexValue(t[1]) == Some(a) && HexValue(t[2]) == Some(b) && HexValue(t[3]) == Some(c) && HexValue(t[4]) == Some(d)
    requires ((a * 16 + b) * 16 + c) * 16 + d < 0xD800
    ensures Unescape(t) == Some(((((a * 16 + b) * 16 + c) * 16 + d) as char, t[5..]))
  {
  }

  lemma LongEscape(c: char, t: string)
    requires |Escape(c)| == 6 && |t| >= 5 && t[..5] == Escape(c)[1..]
    ensures Unescape(t) == Some((c, t[5..]))
  {
    hide HexValue, HexChar, Unescape;
    var e := Escape(c);
    assert t[..5][0] == t[0] && t[..5][1] == t[1] && t[..5][2] == t[2] && t[..5][3] == t[3] && t[..5][4] == t[4];
    assert t[0] == e[1] && t[1] == e[2] && t[2] == e[3] && t[3] == e[4] && t[4] == e[5];
    HexDigits(c as int % 16);
    if c == '\U{2028}' {
      UnescapeHex(t, 2, 0, 2, 8);
    } else if c == '\U{2029}' {
      UnescapeHex(t, 2, 0, 2, 9);
    } else {
      HexDigits(c as int / 16);
      UnescapeHex(t, 0, 0, c as int / 16, c as int % 16);
    }
  }

  lemma UnescapeEscape(c: char, rest: string)
    requires Escape(c) != [c]
    ensures Escape(c)[0] == '\\' && Unescape(Escape(c)[1..] + rest) == Some((c, rest))
  {
    EscapeShape(c);
    var t := Escape(c)[1..] + rest;
    if |Escape(c)| == 2 {
      ShortEscape(c, t);
      assert t[1..] == rest;
    } else {
      assert t[..5] == Escape(c)[1..] && t[5..] == rest;
      LongEscape(c, t);
    }
  }

  lemma UnquoteStep(c: char, tail: string, t: string, after: string)
    requires Unquote(tail) == Some((t, after))
    ensures Unquote(Escape(c) + tail) == Some(([c] + t, after))
  {
    var s := Escape(c) + tail;
    assert s[0] == Escape(c)[0];
    if Escape(c) == [c] {
      assert c != '"' && c != '\\' && c >= ' ';
      assert s[1..] == tail;
    } else {
      UnescapeEscape(c, tail);
      assert s[1..] == Escape(c)[1..] + tail;
    }
  }

  lemma EscapeAllStep(k: string, rest: string)
    requires k != []
    ensures EscapeAll(k) + rest == Escape(k[0]) + (EscapeAll(k[1..]) + rest)
  {
  }

  lemma UnquoteEnd(rest: string)
    ensures EscapeAll("") + ("\"" + rest) == "\"" + rest && Unquote("\"" + rest) == Some(("", rest))
  {
    assert ("\"" + rest)[1..] == rest;
  }

  lemma {:induction false} UnquoteName(k: string, rest: string)
    ensures Unquote(EscapeAll(k) + ("\"" + rest)) == Some((k, rest))
  {
    hide Escape, Unquote, EscapeAll;
    var quoted := "\"" + rest;
    if k == [] {
      UnquoteEnd(rest);
    } else {
      UnquoteName(k[1..], rest);
      EscapeAllStep(k, quoted);
      UnquoteStep(k[0], EscapeAll(k[1..]) + quoted, k[1..], rest);
      assert k == [k[0]] + k[1..];
    }
  }

  lemma {:induction false} NumberThenOther(t: string, rest: string)
    requires forall i | 0 <= i < |t| :: NumberChar(t[i])
    requires rest == [] || !NumberChar(rest[0])
    ensures NumberLength(t + rest) == |t|
  {
    if t == [] {
      assert t + rest == rest;
    } else {
      assert (t + rest)[1..] == t[1..] + rest;
      NumberThenOther(t[1..], rest);
    }
  }

  ghost function Picked<V>(m: map<string, V>, ks: seq<string>): map<string, V> {
    map k | k in ks && k in m :: m[k]
  }

  /** A printed member followed by anything that cannot continue its number is read as that member. */
  lemma OneMember<V>(k: string, v: V, rest: string, nt: NumberText<V>)
    requires Reads(nt, v) && (rest == [] || !NumberChar(rest[0]))
    ensures ParseMember(Name(k) + (":" + nt.spell(v) + rest), nt) == Some((k, v, rest))
  {
    hide Unquote, EscapeAll, NumberLength, NumberChar;
    var number := nt.spell(v);
    var after := ":" + number + rest;
    var s := Name(k) + after;
    assert s[1..] == EscapeAll(k) + ("\"" + after);
    UnquoteName(k, after);
    assert after[1..] == number + rest;
    NumberThenOther(number, rest);
    assert (number + rest)[..|number|] == number;
    assert (number + rest)[|number|..] == rest;
  }

  lemma PickedStep<V>(m: map<string, V>, ks: seq<string>)
    requires ks != [] && forall k | k in ks :: k in m
    ensures Picked(m, ks) == map[ks[0] := m[ks[0]]] + Picked(m, ks[1..])
    ensures |ks| == 1 ==> Picked(m, ks) == map[ks[0] := m[ks[0]]]
  {
    assert forall k :: k in ks <==> k == ks[0] || k in ks[1..];
  }

  lemma {:induction false} ParsePrintedMembers<V>(m: map<string, V>, ks: seq<string>, nt: NumberText<V>)
    requires ks != [] && forall k | k in ks :: k in m && Reads(nt, m[k])
    ensures ParseMembers(PrintMembers(m, ks, nt), nt) == Some(Picked(m, ks))
  {
    var k, rest := ks[0], PrintRest(m, ks, nt);
    PickedStep(m, ks);
    OneMember(k, m[k], rest, nt);
    if |ks| > 1 {
      assert rest[0] == ',' && rest[1..] == PrintMembers(m, ks[1..], nt);
      ParsePrintedMembers(m, ks[1..], nt);
    }
  }

  /** Decoding undoes encoding, whatever the order of the keys. */
  lemma ParseEncoded<V>(text: string, m: map<string, V>, nt: NumberText<V>)
    requires Encodes(text, m, nt) && forall k | k in m :: Reads(nt, m[k])
    ensures ParseObject(text, nt) == Some(m)
  {
    var ks :| Lists(ks, m) && text == PrintObject(m, ks, nt);
    if ks == [] {
      assert m == map[];
    } else {
      var members := PrintMembers(m, ks, nt);
      assert members[0] == '"';
      assert text[1..] == members && text[1] == '"';
      ParsePrintedMembers(m, ks, nt);
      assert Picked(m, ks) == m;
    }
  }

  /** Of two members of one name the later one counts. */
  lemma RepeatedName<V>(k: string, v1: V, v2: V, nt: NumberText<V>)
    requires Reads(nt, v1) && Reads(nt, v2)
    ensures ParseMembers(Name(k) + (":" + nt.spell(v1) + ("," + (Name(k) + (":" + nt.spell(v2) + "}")))), nt)
         == Some(map[k := v2])
  {
    hide Reads, Name, ParseMember;
    var second := Name(k) + (":" + nt.spell(v2) + "}");
    OneMember(k, v2, "}", nt);
    OneMember(k, v1, "," + second, nt);
    assert ("," + second)[1..] == second;
    assert ParseMembers(second, nt) == Some(map[k := v2]);
    assert map[k := v1] + map[k := v2] == map[k := v2];
  }

  // ----- truncated texts are refused

  lemma UnescapePrefix(c: char, p: string)
    requires Escape(c) != [c] && p < Escape(c)[1..]
    ensures Unescape(p) == None
  {
  }

  lemma {:induction false} UnquotePrefix(k: string, p: string)
    requires p <= EscapeAll(k)
    ensures Unquote(p) == None
  {
    if p != [] {
      var e := Escape(k[0]);
      assert EscapeAll(k) == e + EscapeAll(k[1..]);
      assert p[0] == e[0];
      if |p| < |e| {
        assert p < e;
        CutEscape(k[0], p);
      } else {
        var q := p[|e|..];
        assert p == e + q && q <= EscapeAll(k[1..]);
        UnquotePrefix(k[1..], q);
        UnquoteFails(k[0], q);
      }
    }
  }

  lemma CutEscape(c: char, p: string)
    requires p != [] && p < Escape(c)
    ensures Unquote(p) == None
  {
    EscapeShape(c);
    assert p[1..] < Escape(c)[1..];
    UnescapePrefix(c, p[1..]);
  }

  lemma UnquoteFails(c: char, tail: string)
    requires Unquote(tail) == None
    ensures Unquote(Escape(c) + tail) == None
  {
    var s := Escape(c) + tail;
    if Escape(c) == [c] {
      assert c != '"' && c != '\\' && c >= ' ';
      assert s[1..] == tail;
    } else {
      UnescapeEscape(c, tail);
      assert s[0] == '\\' && s[1..] == Escape(c)[1..] + tail;
    }
  }

  lemma {:induction false} MembersPrefix<V>(m: map<string, V>, ks: seq<string>, nt: NumberText<V>, p: string)
    requires ks != [] && forall k | k in ks :: k in m && Reads(nt, m[k])
    requires p < PrintMembers(m, ks, nt)
    ensures ParseMembers(p, nt) == None
    decreases |ks|
  {
    var k, rest := ks[0], PrintRest(m, ks, nt);
    var number := nt.spell(m[k]);
    var tail := ":" + number + rest;
    if |p| < |Name(k)| {
      NamePrefix(k, p, nt);
    } else {
      var q := p[|Name(k)|..];
      assert p == Name(k) + q && q < tail;
      if |q| <= 1 + |number| {
        CutInNumber(k, m[k], q, nt);
      } else {
        var r := q[1 + |number|..];
        assert q == ":" + number + r && r < rest && r[0] == rest[0];
        OneMember(k, m[k], r, nt);
        assert r[1..] < PrintMembers(m, ks[1..], nt);
        MembersPrefix(m, ks[1..], nt, r[1..]);
      }
    }
  }

  lemma CutInNumber<V>(k: string, v: V, q: string, nt: NumberText<V>)
    requires Reads(nt, v) && q <= ":" + nt.spell(v)
    ensures var r := ParseMember(Name(k) + q, nt); r == None || r.value.2 == ""
  {
    var s := Name(k) + q;
    assert s[1..] == EscapeAll(k) + ("\"" + q);
    UnquoteName(k, q);
    if q != [] {
      var number := q[1..];
      NumberThenOther(number, []);
      assert number + [] == number;
    }
  }

  lemma NamePrefix<V>(k: string, p: string, nt: NumberText<V>)
    requires p < Name(k)
    ensures ParseMember(p, nt) == None
  {
    if p != [] {
      assert p[1..] <= EscapeAll(k);
      UnquotePrefix(k, p[1..]);
    }
  }

  /** No proper prefix of an encoding decodes to anything. */
  lemma TruncatedRefused<V>(text: string, m: map<string, V>, nt: NumberText<V>, p: string)
    requires Encodes(text, m, nt) && (forall k | k in m :: Reads(nt, m[k])) && p < text
    ensures ParseObject(p, nt) == None
  {
    var ks :| Lists(ks, m) && text == PrintObject(m, ks, nt);
    if ks == [] {
      assert p == [] || p == "{";
    } else if p != [] {
      assert text[0] == '{' && PrintMembers(m, ks, nt)[0] == '"';
      assert p[1..] < PrintMembers(m, ks, nt);
      MembersPrefix(m, ks, nt, p[1..]);
    }
  }

  // ----- where `,{` can occur

  lemma EscapeHasNoSep(c: char)
    ensures var e := Escape(c); !HasSep(e) && (e[|e| - 1] == ',' <==> c == ',') && (e[0] == '{' <==> c == '{')
  {
    if Escape(c) != [c] {
      EscapeShape(c);
    }
  }

  lemma {:induction false} EscapeKeepsSep(k: string)
    ensures HasSep(EscapeAll(k)) <==> HasSep(k)
    ensures k != [] ==> EscapeAll(k) != [] && (EscapeAll(k)[0] == '{' <==> k[0] == '{')
  {
    if k != [] {
      EscapeKeepsSep(k[1..]);
      assert k == [k[0]] + k[1..];
      SepOfConcat([k[0]], k[1..]);
      EscapeHasNoSep(k[0]);
      SepOfConcat(Escape(k[0]), EscapeAll(k[1..]));
    }
  }

  lemma NameSep(k: string)
    ensures HasSep(Name(k)) <==> HasSep(k)
  {
    EscapeKeepsSep(k);
    SepOfConcat("\"", EscapeAll(k));
    SepOfConcat("\"" + EscapeAll(k), "\"");
  }

  lemma NumberHasNoSep<V>(nt: NumberText<V>, v: V)
    requires Reads(nt, v)
    ensures var t := nt.spell(v); !HasSep(t) && t[|t| - 1] != ',' && t[0] != '{'
  {
  }

  lemma {:induction false} MembersSep<V>(m: map<string, V>, ks: seq<string>, nt: NumberText<V>)
    requires forall k | k in ks :: k in m && Reads(nt, m[k])
    ensures HasSep(PrintMembers(m, ks, nt)) <==> exists k :: k in ks && HasSep(k)
  {
    if ks != [] {
      var k, rest := ks[0], PrintRest(m, ks, nt);
      var number := nt.spell(m[k]);
      NameSep(k);
      NumberHasNoSep(nt, m[k]);
      SepOfConcat(":", number);
      SepOfConcat(":" + number, rest);
      SepOfConcat(Name(k), ":" + number + rest);
      if |ks| > 1 {
        MembersSep(m, ks[1..], nt);
        SepOfConcat(",", PrintMembers(m, ks[1..], nt));
      }
      assert forall x :: x in ks <==> x == k || x in ks[1..];
    }
  }

  /** An encoding contains the separator exactly when one of its keys does. */
  lemma EncodedSep<V>(text: string, m: map<string, V>, nt: NumberText<V>)
    requires Encodes(text, m, nt) && forall k | k in m :: Reads(nt, m[k])
    ensures HasSep(text) <==> exists k :: k in m && HasSep(k)
  {
    var ks :| Lists(ks, m) && text == PrintObject(m, ks, nt);
    MembersSep(m, ks, nt);
    SepOfConcat("{", PrintMembers(m, ks, nt));
  }

  /** An encoding is braced, and longer than two characters unless the map is empty. */
  lemma EncodedShape<V>(text: string, m: map<string, V>, nt: NumberText<V>)
    requires Encodes(text, m, nt)
    ensures |text| >= 2 && text[0] == '{' && text[|text| - 1] == '}'
    ensures |text| > 2 <==> m != map[]
  {
    var ks :| Lists(ks, m) && text == PrintObject(m, ks, nt);
    MembersEnd(m, ks, nt);
    if ks != [] {
      assert ks[0] in m;
    }
  }

  lemma {:induction false} MembersEnd<V>(m: map<string, V>, ks: seq<string>, nt: NumberText<V>)
    requires forall k | k in ks :: k in m
    ensures var s := PrintMembers(m, ks, nt); s != [] && s[|s| - 1] == '}' && (|s| == 1 <==> ks == [])
  {
    if |ks| > 1 {
      MembersEnd(m, ks[1..], nt);
    }
  }

  // ----- what can occur in a text

  /** The characters that Go escapes although the grammar would let them stand, and the ones that it must not contain. */
  predicate Unsafe(c: char) {
    c < ' ' || c in "<>&" || c == '\U{2028}' || c == '\U{2029}'
  }

  ghost predicate Safe(s: string) {
    forall i | 0 <= i < |s| :: !Unsafe(s[i])
  }

  lemma EscapeSafe(c: char)
    ensures Safe(Escape(c))
  {
    hide Unsafe;
    SafeLetters();
    if c < ' ' || c == '<' || c == '>' || c == '&' {
      HexSafe(c as int / 16);
      HexSafe(c as int % 16);
    } else if Escape(c) == [c] {
      PlainSafe(c);
    }
  }

  lemma SafeLetters()
    ensures forall c | c in "\\\"bfnrtu0289" :: !Unsafe(c)
  {
  }

  lemma PlainSafe(c: char)
    requires Escape(c) == [c]
    ensures !Unsafe(c)
  {
  }

  lemma HexSafe(d: nat)
    requires d < 16
    ensures !Unsafe(HexChar(d))
  {
  }

  lemma {:induction false} EscapeAllSafe(k: string)
    ensures Safe(EscapeAll(k))
  {
    hide Escape, Unsafe;
    if k != [] {
      EscapeSafe(k[0]);
      EscapeAllSafe(k[1..]);
    }
  }

  lemma SafeConcat(a: string, b: string)
    ensures Safe(a + b) <==> Safe(a) && Safe(b)
  {
    assert forall i | 0 <= i < |a| :: (a + b)[i] == a[i];
    assert forall i | 0 <= i < |b| :: (a + b)[|a| + i] == b[i];
  }

  lemma NameSafe(k: string)
    ensures Safe(Name(k))
  {
    EscapeAllSafe(k);
    SafeConcat("\"", EscapeAll(k));
    SafeConcat("\"" + EscapeAll(k), "\"");
  }

  lemma NumberSafe<V>(nt: NumberText<V>, v: V)
    requires Reads(nt, v)
    ensures Safe(nt.spell(v))
  {
  }

  lemma {:induction false} MembersSafe<V>(m: map<string, V>, ks: seq<string>, nt: NumberText<V>)
    requires forall k | k in ks :: k in m && Reads(nt, m[k])
    ensures Safe(PrintMembers(m, ks, nt))
    decreases |ks|
  {
    hide Reads, Name, Safe;
    PunctuationSafe();
    if ks != [] {
      var k, rest := ks[0], PrintRest(m, ks, nt);
      var number := nt.spell(m[k]);
      NameSafe(k);
      NumberSafe(nt, m[k]);
      if |ks| > 1 {
        MembersSafe(m, ks[1..], nt);
        SafeConcat(",", PrintMembers(m, ks[1..], nt));
      }
      SafeConcat(":", number);
      SafeConcat(":" + number, rest);
      SafeConcat(Name(k), ":" + number + rest);
    }
  }

  lemma PunctuationSafe()
    ensures Safe("{") && Safe("}") && Safe(",") && Safe(":")
  {
  }

  /** No encoding, whatever the names, holds a control character, a line separator or a character special to HTML. */
  lemma EncodedSafe<V>(text: string, m: map<string, V>, nt: NumberText<V>)
    requires Encodes(text, m, nt) && forall k | k in m :: Reads(nt, m[k])
    ensures forall i | 0 <= i < |text| ::
              text[i] >= ' ' && text[i] !in "<>&" && text[i] != '\U{2028}' && text[i] != '\U{2029}'
  {
    var ks :| Lists(ks, m) && text == PrintObject(m, ks, nt);
    MembersSafe(m, ks, nt);
    PunctuationSafe();
    SafeConcat("{", PrintMembers(m, ks, nt));
    assert Safe(text);
    assert forall i | 0 <= i < |text| :: !Unsafe(text[i]);
  }

  // ----- what can occur in a text that is accepted

  predicate NoControl(s: string) {
    s == [] || (s[0] >= ' ' && NoControl(s[1..]))
  }

  lemma UnescapeNoControl(s: string)
    requires Unescape(s).Some?
    ensures NoControl(s) <==> NoControl(Unescape(s).value.1)
  {
    if s[0] !in "\"\\/bfnrt" {
      HexNotControl(s[1]);
      HexNotControl(s[2]);
      HexNotControl(s[3]);
      HexNotControl(s[4]);
      assert s[1..][1..] == s[2..] && s[2..][1..] == s[3..] && s[3..][1..] == s[4..] && s[4..][1..] == s[5..];
      assert NoControl(s[1..]) == NoControl(s[2..]);
      assert NoControl(s[2..]) == NoControl(s[3..]);
      assert NoControl(s[3..]) == NoControl(s[4..]);
      assert NoControl(s[4..]) == NoControl(s[5..]);
    }
  }

  lemma HexNotControl(c: char)
    requires HexValue(c).Some?
    ensures c >= ' '
  {
  }

  lemma {:induction false} UnquoteNoControl(s: string)
    requires Unquote(s).Some?
    ensures NoControl(s) <==> NoControl(Unquote(s).value.1)
    decreases |s|
  {
    hide Unescape;
    if s[0] == '\\' {
      UnescapeNoControl(s[1..]);
      UnquoteNoControl(Unescape(s[1..]).value.1);
    } else if s[0] != '"' {
      UnquoteNoControl(s[1..]);
    }
  }

  lemma {:induction false} NumberNoControl(s: string)
    ensures NoControl(s) <==> NoControl(s[NumberLength(s)..])
  {
    if s != [] && NumberChar(s[0]) {
      NumberNoControl(s[1..]);
      assert s[1..][NumberLength(s[1..])..] == s[NumberLength(s)..];
    } else {
      assert s[0..] == s;
    }
  }

  lemma {:induction false} ParsedNoControl<V>(s: string, nt: NumberText<V>)
    requires ParseMembers(s, nt).Some?
    ensures NoControl(s)
    decreases |s|
  {
    hide Unquote, NumberLength;
    UnquoteNoControl(s[1..]);
    var after := Unquote(s[1..]).value.1;
    NumberNoControl(after[1..]);
    var rest := ParseMember(s, nt).value.2;
    if rest == "}" {
      assert rest[1..] == "";
    } else {
      ParsedNoControl(rest[1..], nt);
    }
  }

  lemma {:induction false} NoControlMeans(s: string)
    ensures NoControl(s) <==> forall c | c in s :: c >= ' '
  {
    if s != [] {
      assert forall c :: c in s <==> c == s[0] || c in s[1..];
      assert s[0] in s;
      NoControlMeans(s[1..]);
    }
  }

  /** A text with a control character anywhere is refused. */
  lemma ControlRefused<V>(text: string, nt: NumberText<V>)
    requires exists c :: c in text && c < ' '
    ensures ParseObject(text, nt) == None
  {
    hide ParseMembers;
    NoControlMeans(text);
    if ParseObject(text, nt).Some? && text != "{}" {
      ParsedNoControl(text[1..], nt);
    }
  }
}
