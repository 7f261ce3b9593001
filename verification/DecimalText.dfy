/** Decimal text of counters and gauges (internal/mondata/mondata.go). */
module DecimalText {
  import opened Wrappers
  import opened Int64
  import opened Text

  predicate IsDigit(c: char) {
    '0' <= c <= '9'
  }

  function DigitChar(d: nat): (c: char)
    requires d < 10
    ensures IsDigit(c)
  {
    ('0' as int + d) as char
  }

  function DigitValue(c: char): nat
    requires IsDigit(c)
  {
    c as int - '0' as int
  }

  /** The digits of `n`, most significant first, without leading zeros. */
  function Digits(n: nat): (s: string)
    ensures |s| > 0 && IsDigit(s[0])
    ensures s[0] == '0' <==> n == 0
    ensures n == 0 ==> s == "0"
  {
    if n < 10 then [DigitChar(n)] else Digits(n / 10) + [DigitChar(n % 10)]
  }

  /** Appends the digits of `s` to the number `n`, left to right; None at the first other character. */
  function ReadDigits(n: nat, s: string): Option<nat>
    decreases s
  {
    if s == [] then Some(n)
    else if IsDigit(s[0]) then ReadDigits(n * 10 + DigitValue(s[0]), s[1..])
    else None
  }

  lemma {:induction false} ReadConcat(n: nat, a: string, b: string)
    ensures ReadDigits(n, a + b) ==
            match ReadDigits(n, a) case None => None case Some(k) => ReadDigits(k, b)
    decreases a
  {
    if a == [] {
      assert a + b == b;
    } else if IsDigit(a[0]) {
      assert (a + b)[1..] == a[1..] + b;
      ReadConcat(n * 10 + DigitValue(a[0]), a[1..], b);
    }
  }

  lemma ReadOne(n: nat, c: char)
    requires IsDigit(c)
    ensures ReadDigits(n, [c]) == Some(n * 10 + DigitValue(c))
  {
    assert [c][1..] == [];
  }

  lemma {:induction false} ReadOfDigits(n: nat)
    ensures ReadDigits(0, Digits(n)) == Some(n)
  {
    if n < 10 {
      ReadOne(0, DigitChar(n));
    } else {
      ReadOfDigits(n / 10);
      ReadConcat(0, Digits(n / 10), [DigitChar(n % 10)]);
      ReadOne(n / 10, DigitChar(n % 10));
    }
  }

  /** Without leading zeros the digit string of a number is unique. */
  lemma {:induction false} DigitsOfRead(s: string)
    requires s != [] && ReadDigits(0, s).Some? && (s[0] != '0' || |s| == 1)
    ensures Digits(ReadDigits(0, s).value) == s
  {
    var init, last := s[..|s| - 1], s[|s| - 1];
    assert s == init + [last];
    ReadConcat(0, init, [last]);
    if init == [] {
      ReadOne(0, last);
    } else {
      var n := ReadDigits(0, init).value;
      DigitsOfRead(init);
      assert IsDigit(last);
      ReadOne(n, last);
      assert (n * 10 + DigitValue(last)) / 10 == n;
    }
  }

  // ----- counters

  function FormatCounter(n: int): string {
    if n < 0 then "-" + Digits(-n) else Digits(n)
  }

  predicate HasSign(s: string) {
    s != [] && (s[0] == '+' || s[0] == '-')
  }

  /** The text without its sign. */
  function Body(s: string): string {
    if HasSign(s) then s[1..] else s
  }

  /** Base 10, 64 bits: an error both for malformed text and for values outside int64. */
  function ParseCounter(s: string): Option<int64> {
    if Body(s) == [] then None
    else
      match ReadDigits(0, Body(s))
      case None => None
      case Some(n) =>
        var v := if s[0] == '-' then 0 - n else n;
        if InRange(v) then Some(v) else None
  }

  ghost predicate AllDigits(s: string) {
    s != [] && forall c | c in s :: IsDigit(c)
  }

  lemma {:induction false} ReadsIffDigits(n: nat, s: string)
    ensures ReadDigits(n, s).Some? <==> forall c | c in s :: IsDigit(c)
    decreases s
  {
    if s != [] {
      assert forall c :: c in s <==> c == s[0] || c in s[1..];
      if IsDigit(s[0]) {
        ReadsIffDigits(n * 10 + DigitValue(s[0]), s[1..]);
      }
    }
  }

  function ValueOf(digits: string): int {
    ReadDigits(0, digits).GetOrElse(0)
  }

  /** What is accepted: digits, alone or after one plus or minus, whose value is an int64; nothing else.  A plus sign
      changes nothing, a minus sign negates. */
  lemma ParseCounterIff(s: string)
    ensures var signed := s != "" && (s[0] == '+' || s[0] == '-');
            var digits := if signed then s[1..] else s;
            var value: int := if signed && s[0] == '-' then 0 - ValueOf(digits) else ValueOf(digits);
            ParseCounter(s) == if AllDigits(digits) && InRange(value) then Some(value) else None
  {
    ReadsIffDigits(0, Body(s));
  }

  /** Parsing undoes formatting for every int64 (the minimum too) and refuses every integer beyond. */
  lemma ParseCounterOfFormat(n: int)
    ensures ParseCounter(FormatCounter(n)) == if InRange(n) then Some(n) else None
  {
    ReadOfDigits(if n < 0 then -n else n);
    if n < 0 {
      assert Body(FormatCounter(n)) == Digits(-n);
    }
  }

  function DropZeros(s: string): string {
    if |s| > 1 && s[0] == '0' then DropZeros(s[1..]) else s
  }

  lemma {:induction false} DropZerosKeepsValue(s: string)
    requires s != []
    ensures var t := DropZeros(s); t != [] && (t[0] != '0' || |t| == 1) && ReadDigits(0, t) == ReadDigits(0, s)
  {
    if |s| > 1 && s[0] == '0' {
      DropZerosKeepsValue(s[1..]);
    }
  }

  /** Conversely a parsed value formats back to the text it came from, less its plus sign and leading zeros. */
  lemma FormatCounterOfParse(s: string)
    requires ParseCounter(s).Some?
    ensures var n := ParseCounter(s).value;
            var digits := DropZeros(Body(s));
            FormatCounter(n) == if s[0] == '-' && digits != "0" then "-" + digits else digits
  {
    DropZerosKeepsValue(Body(s));
    DigitsOfRead(DropZeros(Body(s)));
  }

  // ----- gauges

  function Pow10(k: nat): nat
    ensures Pow10(k) > 0
  {
    if k == 0 then 1 else 10 * Pow10(k - 1)
  }

  /** The number n * 10^-scale, negated if `neg`. */
  datatype Decimal = Decimal(neg: bool, n: nat, scale: nat)

  ghost predicate SameValue(a: Decimal, b: Decimal) {
    a.neg == b.neg && a.n * Pow10(b.scale) == b.n * Pow10(a.scale)
  }

  /** A finite gauge by its shortest decimal: m * 10^e where m does not end in 0 (and zero is 0 * 10^0). */
  datatype Shortest = Shortest(neg: bool, m: nat, e: int) {
    ghost predicate Valid() {
      if m == 0 then e == 0 else m % 10 != 0
    }

    function Exact(): Decimal {
      if e >= 0 then Decimal(neg, m * Pow10(e), 0) else Decimal(neg, m, -e)
    }
  }

  function Zeros(k: nat): (s: string)
    ensures |s| == k
  {
    if k == 0 then "" else "0" + Zeros(k - 1)
  }

  function Sign(neg: bool): string {
    if neg then "-" else ""
  }

  /** A point before the last `k` digits, after at least one digit. */
  function WithPoint(digits: string, k: nat): string {
    if |digits| > k then digits[..|digits| - k] + ("." + digits[|digits| - k..])
    else "0" + ("." + (Zeros(k - |digits|) + digits))
  }

  /** m * 10^e in strconv's format 'f' with the fewest digits. */
  function Magnitude(m: nat, e: int): string {
    if e >= 0 then Digits(m) + Zeros(e) else WithPoint(Digits(m), -e)
  }

  function Plain(d: Shortest): string {
    Sign(d.neg) + Magnitude(d.m, d.e)
  }

  function FormatGauge(d: Shortest): string {
    TrimRight(Plain(d), "0.")
  }

  /** Reads digits with at most one point, left to right: `n` is the number read so far without the point,
      `scale` the count of digits after the point once there was one, `any` whether any digit was read. */
  function Scan(s: string, n: nat, scale: Option<nat>, any: bool): Option<(nat, nat)> {
    if s == [] then
      if any then Some((n, if scale.Some? then scale.value else 0)) else None
    else if s[0] == '.' then
      if scale.Some? then None else Scan(s[1..], n, Some(0), any)
    else if IsDigit(s[0]) then
      Scan(s[1..], n * 10 + DigitValue(s[0]), Advance(scale, 1), true)
    else None
  }

  function Advance(scale: Option<nat>, more: nat): Option<nat> {
    match scale case None => None case Some(k) => Some(k + more)
  }

  /** Reads an optional sign and digits with a point: the only texts that `Plain` and its trimmed forms can be. */
  function ParseGauge(s: string): Option<Decimal> {
    match Scan(Body(s), 0, None, false)
    case None => None
    case Some((n, scale)) => Some(Decimal(HasSign(s) && s[0] == '-', n, scale))
  }

  lemma {:induction false} ScanDigits(a: string, rest: string, n: nat, scale: Option<nat>, any: bool)
    requires ReadDigits(n, a).Some?
    ensures Scan(a + rest, n, scale, any)
         == Scan(rest, ReadDigits(n, a).value, Advance(scale, |a|), any || a != [])
  {
    if a == [] {
      assert a + rest == rest;
    } else {
      assert (a + rest)[1..] == a[1..] + rest;
      ScanDigits(a[1..], rest, n * 10 + DigitValue(a[0]), Advance(scale, 1), true);
    }
  }

  lemma {:induction false} ReadZeros(n: nat, k: nat)
    ensures ReadDigits(n, Zeros(k)) == Some(n * Pow10(k))
    decreases k
  {
    if k > 0 {
      assert Zeros(k)[1..] == Zeros(k - 1);
      ReadZeros(n * 10, k - 1);
      assert n * 10 * Pow10(k - 1) == n * Pow10(k);
    }
  }

  lemma Whole(s: string)
    requires s != [] && ReadDigits(0, s).Some?
    ensures Scan(s, 0, None, false) == Some((ReadDigits(0, s).value, 0))
  {
    ScanDigits(s, [], 0, None, false);
    assert s + [] == s;
  }

  lemma Pointed(a: string, b: string)
    requires a != [] && ReadDigits(0, a + b).Some?
    ensures Scan(a + ("." + b), 0, None, false) == Some((ReadDigits(0, a + b).value, |b|))
  {
    ReadConcat(0, a, b);
    var n := ReadDigits(0, a).value;
    ScanDigits(a, "." + b, 0, None, false);
    assert ("." + b)[1..] == b;
    ScanDigits(b, [], n, Some(0), true);
    assert b + [] == b;
  }

  lemma WithPointIsExact(digits: string, k: nat)
    requires ReadDigits(0, digits).Some?
    ensures Scan(WithPoint(digits, k), 0, None, false) == Some((ReadDigits(0, digits).value, k))
  {
    if |digits| > k {
      var a, b := digits[..|digits| - k], digits[|digits| - k..];
      assert a + b == digits;
      Pointed(a, b);
    } else {
      var pad := Zeros(k - |digits|);
      ReadZeros(0, k - |digits|);
      ReadConcat(0, pad, digits);
      ReadZeros(0, 1);
      assert Zeros(1) == "0" by { assert Zeros(0) == ""; }
      ReadConcat(0, "0", pad + digits);
      Pointed("0", pad + digits);
    }
  }

  lemma IntegerIsExact(m: nat, e: nat)
    ensures Scan(Magnitude(m, e), 0, None, false) == Some((m * Pow10(e), 0))
  {
    ReadOfDigits(m);
    ReadZeros(m, e);
    ReadConcat(0, Digits(m), Zeros(e));
    Whole(Digits(m) + Zeros(e));
  }

  lemma SignedBody(neg: bool, body: string)
    requires !HasSign(body)
    ensures Body(Sign(neg) + body) == body
    ensures HasSign(Sign(neg) + body) && (Sign(neg) + body)[0] == '-' <==> neg
  {
    var s := Sign(neg) + body;
    if neg {
      assert s[1..] == body;
    } else {
      assert s == body;
    }
  }

  lemma MagnitudeUnsigned(m: nat, e: int)
    ensures !HasSign(Magnitude(m, e))
  {
    var c := Magnitude(m, e)[0];
    assert c == Digits(m)[0] || c == '0';
  }

  /** The untrimmed text denotes exactly the gauge. */
  lemma PlainIsExact(d: Shortest)
    ensures ParseGauge(Plain(d)) == Some(d.Exact())
  {
    MagnitudeUnsigned(d.m, d.e);
    SignedBody(d.neg, Magnitude(d.m, d.e));
    if d.e >= 0 {
      IntegerIsExact(d.m, d.e);
    } else {
      ReadOfDigits(d.m);
      WithPointIsExact(Digits(d.m), -d.e);
    }
  }

  lemma LastDigit(n: nat)
    ensures var s := Digits(n); s[|s| - 1] == DigitChar(n % 10)
  {
  }

  lemma LastOfMagnitude(m: nat, e: int)
    requires e <= 0
    ensures var s := Magnitude(m, e); s != [] && s[|s| - 1] == DigitChar(m % 10)
  {
    LastDigit(m);
    var s := Magnitude(m, e);
    assert s[|s| - 1] == Digits(m)[|Digits(m)| - 1];
  }

  lemma {:induction false} TrimZeros(s: string, k: nat)
    ensures TrimRight(s + Zeros(k), "0.") == TrimRight(s, "0.")
    decreases k
  {
    if k == 0 {
      assert s + Zeros(k) == s;
    } else {
      assert s + Zeros(k) == (s + "0") + Zeros(k - 1);
      TrimZeros(s + "0", k - 1);
      assert (s + "0")[..|s|] == s;
    }
  }

  lemma NothingTrims(sign: string, m: nat, e: int)
    requires e <= 0 && m % 10 != 0
    ensures TrimRight(sign + Magnitude(m, e), "0.") == sign + Magnitude(m, e)
  {
    var body := Magnitude(m, e);
    LastOfMagnitude(m, e);
    assert (sign + body)[|sign + body| - 1] == body[|body| - 1];
  }

  lemma ZeroTrims(sign: string)
    requires sign == "" || sign == "-"
    ensures TrimRight(sign + Magnitude(0, 0), "0.") == sign
  {
    assert Zeros(0) == "" && Zeros(1) == "0";
    assert sign + Magnitude(0, 0) == sign + Zeros(1);
    TrimZeros(sign, 1);
  }

  lemma IntegerTrims(sign: string, m: nat, e: nat)
    requires m % 10 != 0
    ensures TrimRight(sign + Magnitude(m, e), "0.") == sign + Digits(m)
  {
    hide TrimRight, Zeros, Digits, Magnitude;
    var s := sign + Digits(m);
    LastDigit(m);
    assert s[|s| - 1] == DigitChar(m % 10);
    TrimKeeps(s, e);
    IntegerText(sign, m, e);
  }

  lemma IntegerText(sign: string, m: nat, e: nat)
    ensures sign + Magnitude(m, e) == sign + Digits(m) + Zeros(e)
  {
  }

  lemma TrimKeeps(s: string, k: nat)
    requires s != [] && s[|s| - 1] !in "0."
    ensures TrimRight(s + Zeros(k), "0.") == s
  {
    TrimZeros(s, k);
  }

  /** What is printed: the right text for a gauge with a non-zero last digit before any padding, only m for
      m * 10^e with e > 0, and no digit at all for zero. */
  lemma FormatGaugeIs(d: Shortest)
    requires d.Valid()
    ensures FormatGauge(d) ==
            if d.m == 0 then Sign(d.neg) else if d.e > 0 then Sign(d.neg) + Digits(d.m) else Plain(d)
  {
    if d.m == 0 {
      ZeroTrims(Sign(d.neg));
    } else if d.e > 0 {
      IntegerTrims(Sign(d.neg), d.m, d.e);
    } else {
      NothingTrims(Sign(d.neg), d.m, d.e);
    }
  }

  ghost predicate EndsInZero(s: string) {
    s != [] && s[|s| - 1] == '0'
  }

  ghost predicate ReadsBack(d: Shortest) {
    match ParseGauge(FormatGauge(d))
    case None => false
    case Some(v) => SameValue(v, d.Exact())
  }

  lemma PowerGrows(m: nat, k: nat)
    requires m > 0 && k > 0
    ensures m * Pow10(k) > m
  {
    assert Pow10(k) > 1;
  }

  lemma ZeroPrintsNoDigit(neg: bool)
    ensures ParseGauge(Sign(neg)) == None
  {
    SignedBody(neg, "");
    assert Sign(neg) + "" == Sign(neg);
  }

  lemma LastZero(m: nat, e: nat)
    requires e > 0
    ensures EndsInZero(Magnitude(m, e))
  {
    ZerosEnd(e);
  }

  lemma {:induction false} ZerosEnd(k: nat)
    requires k > 0
    ensures Zeros(k)[k - 1] == '0'
  {
    if k > 1 {
      ZerosEnd(k - 1);
    }
  }

  lemma EndOfPlain(d: Shortest)
    requires Magnitude(d.m, d.e) != []
    ensures EndsInZero(Plain(d)) <==> EndsInZero(Magnitude(d.m, d.e))
  {
  }

  /** The printed gauge reads back as the same value exactly when its shortest text does not end in 0. */
  lemma GaugeRoundTripIff(d: Shortest)
    requires d.Valid()
    ensures ReadsBack(d) <==> !EndsInZero(Plain(d))
  {
    FormatGaugeIs(d);
    if d.e > 0 {
      LastZero(d.m, d.e);
      EndOfPlain(d);
      var cut := d.(e := 0);
      PlainIsExact(cut);
      assert Plain(cut) == Sign(d.neg) + Digits(d.m) by { assert Zeros(0) == ""; }
      PowerGrows(d.m, d.e);
    } else {
      LastOfMagnitude(d.m, d.e);
      EndOfPlain(d);
      if d.m == 0 {
        ZeroPrintsNoDigit(d.neg);
      } else {
        PlainIsExact(d);
      }
    }
  }

  /** For instance the gauge 100 is printed as 1. */
  lemma HundredPrintsOne()
    ensures var hundred := Shortest(false, 1, 2);
            FormatGauge(hundred) == "1" && ParseGauge("1") == Some(Decimal(false, 1, 0))
            && !SameValue(Decimal(false, 1, 0), hundred.Exact())
  {
    assert Digits(1) == "1";
    FormatGaugeIs(Shortest(false, 1, 2));
    ReadOfDigits(1);
    Whole("1");
    assert Pow10(2) == 100;
  }
}
