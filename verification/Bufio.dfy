/** bufio.Scanner over a file with the split function of the restorer: its buffers, how they grow, and how unread bytes
    are shifted to the front of a buffer into which an earlier token still points (internal/monserv/fw/fw.go). */
module Bufio {
  import opened Text
  import opened Splitter

  const START_SIZE: nat := 4096
  const MAX_SIZE: nat := 65536

  datatype Err = NoErr | EOF | TooLong

  /** `buffers` lists every buffer allocated so far; the last one is in use between `start` and `end`.  `pos` is how
      far the file was read, `stops` where each read stopped. */
  datatype Scanner = Scanner(buffers: seq<string>, start: nat, end: nat, pos: nat, err: Err, stops: seq<nat>)

  predicate IsNew(s: Scanner) {
    s.buffers == [] && s.start == s.end == s.pos == 0 && s.err == NoErr && s.stops == []
  }

  function NewScanner(): (s: Scanner)
    ensures IsNew(s)
  {
    Scanner([], 0, 0, 0, NoErr, [])
  }

  /** A Go slice into one of the buffers. */
  datatype Slice = Slice(buffer: nat, lo: nat, hi: nat)

  datatype Found = Panic | NoToken | Got(slice: Slice)

  function Current(s: Scanner): string {
    if s.buffers == [] then "" else s.buffers[|s.buffers| - 1]
  }

  function Size(s: Scanner): nat {
    |Current(s)|
  }

  /** How much of the file earlier calls have consumed. */
  function Consumed(s: Scanner): int {
    s.pos - (s.end - s.start)
  }

  predicate IsSize(n: nat) {
    n == 0 || n == 4096 || n == 8192 || n == 16384 || n == 32768 || n == 65536
  }

  predicate Bounded(s: Scanner) {
    s.start <= s.end <= Size(s)
  }

  /** The window of the current buffer holds what was read of the file and not consumed. */
  predicate Holds(content: string, s: Scanner)
    requires Bounded(s) && s.end - s.start <= s.pos <= |content|
  {
    Current(s)[s.start..s.end] == content[Consumed(s)..s.pos]
  }

  predicate Valid(content: string, s: Scanner) {
    && Bounded(s) && IsSize(Size(s)) && s.end - s.start <= s.pos <= |content|
    && Holds(content, s)
    && (s.stops == [] ==> s.pos == 0)
  }

  /** What a slice reads now; every slice of a scanner lies in its buffer. */
  function Value(s: Scanner, slice: Slice): string {
    if slice.buffer < |s.buffers| && slice.lo <= slice.hi <= |s.buffers[slice.buffer]| then
      s.buffers[slice.buffer][slice.lo..slice.hi]
    else ""
  }

  function Write(s: Scanner, buffer: string): Scanner
    requires s.buffers != []
  {
    s.(buffers := s.buffers[|s.buffers| - 1 := buffer])
  }

  /** Moves the window to the front if there is much room before it or none behind. */
  function Shifted(s: Scanner): Scanner
    requires Bounded(s)
  {
    if s.start > 0 && (s.end == Size(s) || s.start > Size(s) / 2) then
      var n := s.end - s.start;
      Write(s, Current(s)[s.start..s.end] + Current(s)[n..]).(start := 0, end := n)
    else s
  }

  function Blank(n: nat): string {
    seq(n, i => 0 as char)
  }

  /** A new buffer of twice the size for a window that fills its buffer. */
  function Grown(s: Scanner): Scanner
    requires Bounded(s)
  {
    if s.end < Size(s) then s
    else
      var size := if Size(s) == 0 then START_SIZE else if Size(s) * 2 < MAX_SIZE then Size(s) * 2 else MAX_SIZE;
      var window := Current(s)[s.start..s.end];
      s.(buffers := s.buffers + [window + Blank(if |window| < size then size - |window| else 0)],
      start := 0, end := |window|)
  }

  /** How much the read with number `i` returns: what the file system likes, within the room and what is left. */
  function ReadSize(wants: seq<nat>, i: nat, room: nat, left: nat): (n: nat)
    requires room > 0 && left > 0
    ensures 1 <= n <= room && n <= left
  {
    var most := if room < left then room else left;
    if i < |wants| && 0 < wants[i] < most then wants[i] else most
  }

  function ReadMore(content: string, wants: seq<nat>, s: Scanner): Scanner
    requires s.end < Size(s) && s.pos <= |content|
  {
    if s.pos == |content| then s.(err := EOF)
    else
      var n := ReadSize(wants, |s.stops|, Size(s) - s.end, |content| - s.pos);
      Write(s, Current(s)[..s.end] + content[s.pos..s.pos + n] + Current(s)[s.end + n..])
        .(end := s.end + n, pos := s.pos + n, stops := s.stops + [s.pos + n])
  }

  predicate Full(s: Scanner)
    requires Bounded(s)
  {
    Shifted(s).end == Size(Shifted(s)) >= MAX_SIZE
  }

  lemma MovedFront(buffer: string, start: nat, end: nat)
    requires start <= end <= |buffer|
    ensures var moved := buffer[start..end] + buffer[end - start..];
            |moved| == |buffer| && moved[0..end - start] == buffer[start..end]
  {
  }

  lemma ShiftedOk(content: string, s: Scanner)
    requires Valid(content, s)
    ensures var t := Shifted(s);
            Valid(content, t) && Consumed(t) == Consumed(s) && Size(t) == Size(s)
            && t.pos == s.pos && t.stops == s.stops && t.err == s.err
            && (t.end == Size(t) ==> t.start == 0)
  {
    MovedFront(Current(s), s.start, s.end);
    var t := Shifted(s);
    assert Current(t)[t.start..t.end] == Current(s)[s.start..s.end];
  }

  lemma GrownOk(content: string, s: Scanner)
    requires Valid(content, s) && (s.end == Size(s) ==> s.start == 0 && Size(s) < MAX_SIZE)
    ensures var t := Grown(s);
            Valid(content, t) && Consumed(t) == Consumed(s) && t.end < Size(t)
            && t.pos == s.pos && t.stops == s.stops && t.err == s.err
  {
    var t := Grown(s);
    assert Current(t)[t.start..t.end] == Current(s)[s.start..s.end];
  }

  lemma ReadOk(content: string, wants: seq<nat>, s: Scanner)
    requires Valid(content, s) && s.end < Size(s)
    ensures var t := ReadMore(content, wants, s);
            Valid(content, t) && Consumed(t) == Consumed(s) && t.start == s.start && |t.buffers| == |s.buffers|
            && if s.pos < |content| then s.pos < t.pos && t.stops == s.stops + [t.pos] && t.err == s.err
               else t == s.(err := EOF)
  {
    var t := ReadMore(content, wants, s);
    if s.pos < |content| {
      var n := t.pos - s.pos;
      assert Current(t)[s.start..s.end + n] == Current(s)[s.start..s.end] + content[s.pos..s.pos + n];
      assert content[Consumed(s)..t.pos] == content[Consumed(s)..s.pos] + content[s.pos..t.pos];
    }
  }

  /** What happens between two offers to the split function. */
  function Next(content: string, wants: seq<nat>, s: Scanner): Scanner
    requires Valid(content, s) && s.err == NoErr && !Full(s)
  {
    ShiftedOk(content, s);
    GrownOk(content, Shifted(s));
    ReadMore(content, wants, Grown(Shifted(s)))
  }

  lemma NextOk(content: string, wants: seq<nat>, s: Scanner)
    requires Valid(content, s) && s.err == NoErr && !Full(s)
    ensures var t := Next(content, wants, s);
            Valid(content, t) && Consumed(t) == Consumed(s)
            && if t.err == NoErr then s.pos < t.pos && t.stops == s.stops + [t.pos]
               else t.err == EOF && t.pos == s.pos == |content| && t.stops == s.stops && t.end < Size(t)
  {
    hide Shifted, Grown, ReadMore, Holds;
    ShiftedOk(content, s);
    GrownOk(content, Shifted(s));
    ReadOk(content, wants, Grown(Shifted(s)));
  }

  /** One call of Scan. */
  function ScanCall(content: string, wants: seq<nat>, s: Scanner): (r: (Scanner, Found))
    requires Valid(content, s)
    ensures Valid(content, r.0)
    decreases |content| - s.pos, if s.err == NoErr then 1 else 0
  {
    match Offered(s)
    case IndexPanic => (s, Panic)
    case Token(advance, _) =>
      TokenFits(s);
      AdvanceOk(content, s, advance);
      (s.(start := s.start + advance), Got(Slice(|s.buffers| - 1, s.start, s.start + advance)))
    case NeedMore =>
      if s.err != NoErr then (s.(start := 0, end := 0), NoToken)
      else if Full(s) then
        ShiftedOk(content, s);
        (Shifted(s).(err := TooLong), NoToken)
      else
        NextOk(content, wants, s);
        ScanCall(content, wants, Next(content, wants, s))
  }

  function Offered(s: Scanner): SplitResult
    requires Bounded(s)
  {
    if s.start < s.end || s.err != NoErr then SplitAt(Current(s)[s.start..s.end], s.err != NoErr) else NeedMore
  }

  lemma TokenFits(s: Scanner)
    requires Bounded(s) && Offered(s).Token?
    ensures 0 < Offered(s).advance <= s.end - s.start && s.buffers != []
    ensures Offered(s).token == Current(s)[s.start..s.start + Offered(s).advance]
  {
    var window := Current(s)[s.start..s.end];
    SplitMeaning(window, s.err != NoErr);
    assert window[..Offered(s).advance] == Current(s)[s.start..s.start + Offered(s).advance];
  }

  lemma AdvanceOk(content: string, s: Scanner, n: nat)
    requires Valid(content, s) && n <= s.end - s.start
    ensures Valid(content, s.(start := s.start + n)) && Consumed(s.(start := s.start + n)) == Consumed(s) + n
  {
    var t := s.(start := s.start + n);
    assert Current(t)[t.start..t.end] == Current(s)[s.start..s.end][n..];
    assert content[Consumed(t)..t.pos] == content[Consumed(s)..s.pos][n..];
  }

  method Scan(content: string, wants: seq<nat>, s: Scanner) returns (t: Scanner, f: Found)
    requires Valid(content, s)
    ensures (t, f) == ScanCall(content, wants, s)
  {
    hide Shifted, Grown, ReadMore, SplitAt;
    t := s;
    while true
      invariant Valid(content, t) && ScanCall(content, wants, s) == ScanCall(content, wants, t)
      decreases |content| - t.pos, if t.err == NoErr then 1 else 0
    {
      if t.start < t.end || t.err != NoErr {
        var r := Split(Current(t)[t.start..t.end], t.err != NoErr);
        if r.IndexPanic? {
          return t, Panic;
        }
        if r.Token? {
          var slice := Slice(|t.buffers| - 1, t.start, t.start + r.advance);
          return t.(start := t.start + r.advance), Got(slice);
        }
      }
      if t.err != NoErr {
        return t.(start := 0, end := 0), NoToken;
      }
      if Full(t) {
        return Shifted(t).(err := TooLong), NoToken;
      }
      NextOk(content, wants, t);
      t := Next(content, wants, t);
    }
  }

  // ----- what a call finds

  /** The token at the front of the rest of a file: up to the comma of its first separator, or all of it. */
  function TokenOf(rest: string): (token: string)
    ensures token <= rest && (rest != "" ==> token != "")
  {
    var i := FirstStop(rest, 0);
    if i + 1 < |rest| then rest[..i + 1] else rest
  }

  /** What a buffer must have room for so that this token is found: the brace behind the comma, or one byte more than
      the rest, so that the end of the file can be met. */
  function Room(rest: string): nat {
    var i := FirstStop(rest, 0);
    if i + 1 < |rest| then i + 2 else |rest| + 1
  }

  lemma TokenMeaning(rest: string)
    ensures if HasSep(rest)
            then TokenOf(rest) < rest && TokenOf(rest)[|TokenOf(rest)| - 1] == ',' && Room(rest) == |TokenOf(rest)| + 1
                 && SepAt(rest, |TokenOf(rest)| - 1) && forall i | 0 <= i < |TokenOf(rest)| - 1 :: !SepAt(rest, i)
            else TokenOf(rest) == rest && Room(rest) == |rest| + 1
  {
    SplitMeaning(rest, true);
    assert FirstStop(rest, 0) + 1 < |rest| ==> SepAt(rest, FirstStop(rest, 0));
  }

  /** A window of the file, from `from` to `to`, on which the split function panics. */
  ghost predicate Loud(content: string, from: int, to: int) {
    0 <= from < to <= |content| && content[to - 1] == ',' && !HasSep(content[from..to])
  }

  /** The start of a text has the separator as soon as it has the first one of the text. */
  lemma StartOf(rest: string, n: nat)
    requires n <= |rest|
    ensures var window := rest[..n];
            && (HasSep(window) <==> HasSep(rest) && Room(rest) <= n)
            && (HasSep(window) ==> TokenOf(window) == TokenOf(rest))
  {
    var window := rest[..n];
    TokenMeaning(rest);
    TokenMeaning(window);
    forall i
      ensures SepAt(window, i) <==> i + 1 < n && SepAt(rest, i)
    {
    }
    var j := |TokenOf(rest)| - 1;
    if HasSep(rest) && j + 2 <= n {
      assert SepAt(window, j);
    }
    if HasSep(window) {
      assert SepAt(window, |TokenOf(window)| - 1);
    }
  }

  lemma SplitIs(data: string, atEOF: bool)
    ensures HasSep(data) ==> SplitAt(data, atEOF) == Token(|TokenOf(data)|, TokenOf(data))
  {
    SplitMeaning(data, atEOF);
    TokenMeaning(data);
  }

  /** An offer before the end of the file finds the token of the rest as soon as its separator is in the window. */
  lemma OfferedMeaning(content: string, s: Scanner)
    requires Valid(content, s) && s.err == NoErr
    ensures var rest, n := content[Consumed(s)..], s.pos - Consumed(s);
            && (Offered(s).IndexPanic? <==> Loud(content, Consumed(s), s.pos))
            && (Offered(s).Token? <==> HasSep(rest) && Room(rest) <= n)
            && (Offered(s).Token? ==> Offered(s).token == TokenOf(rest) && Offered(s).advance == |TokenOf(rest)|)
  {
    hide HasSep, Room, TokenOf, SplitAt;
    var window, rest := content[Consumed(s)..s.pos], content[Consumed(s)..];
    assert window == rest[..|window|];
    SplitMeaning(window, false);
    SplitIs(window, false);
    StartOf(rest, |window|);
    EmptyHasNone();
  }

  lemma EmptyHasNone()
    ensures !HasSep("")
  {
  }

  lemma OfferedAtEnd(content: string, s: Scanner)
    requires Valid(content, s) && s.err == EOF && s.pos == |content|
    requires !HasSep(content[Consumed(s)..]) && !Loud(content, Consumed(s), s.pos)
    ensures var rest := content[Consumed(s)..];
            if rest == "" then Offered(s) == NeedMore
            else Offered(s) == Token(|rest|, rest) && TokenOf(rest) == rest
  {
    var rest := content[Consumed(s)..];
    assert content[Consumed(s)..s.pos] == rest;
    SplitMeaning(rest, true);
    TokenMeaning(rest);
  }

  ghost predicate Before(content: string, s: Scanner, t: Scanner) {
    && s.stops <= t.stops && s.pos <= t.pos
    && forall i | |s.stops| <= i < |t.stops| :: s.pos < t.stops[i] <= t.pos
  }

  predicate Roomy(content: string, from: int, to: int) {
    0 <= from <= to <= |content| && Room(content[from..]) <= to - from
  }

  /** Whatever was read before the last read was too little to find a token of two parts. */
  ghost predicate Early(content: string, s: Scanner, t: Scanner)
    requires Valid(content, s)
  {
    HasSep(content[Consumed(s)..]) ==>
      && (|s.stops| < |t.stops| ==> !Roomy(content, Consumed(s), s.pos))
      && forall i | |s.stops| <= i < |t.stops| - 1 :: !Roomy(content, Consumed(s), t.stops[i])
  }

  /** None of the windows that a call offered makes the split function panic. */
  ghost predicate Quiet(content: string, s: Scanner, t: Scanner) {
    && !Loud(content, Consumed(s), s.pos)
    && forall i | |s.stops| <= i < |t.stops| :: !Loud(content, Consumed(s), t.stops[i])
  }

  ghost predicate GotToken(content: string, s: Scanner, t: Scanner, slice: Slice)
    requires Valid(content, s) && Valid(content, t)
  {
    var rest := content[Consumed(s)..];
    && rest != "" && Room(rest) <= MAX_SIZE
    && slice.buffer == |t.buffers| - 1 && slice.lo <= slice.hi <= Size(t)
    && Current(t)[slice.lo..slice.hi] == TokenOf(rest) && slice.hi == t.start
    && Consumed(t) == Consumed(s) + |TokenOf(rest)|
    && if HasSep(rest) then t.err == NoErr && t.start < t.end else t.err == EOF && t.pos == |content|
  }

  ghost predicate CallOk(content: string, s: Scanner, t: Scanner, f: Found)
    requires Valid(content, s) && Valid(content, t)
  {
    var rest := content[Consumed(s)..];
    && Before(content, s, t) && Early(content, s, t)
    && match f
       case Panic => Loud(content, Consumed(s), t.pos) && (t.pos == s.pos || t.pos in t.stops)
       case NoToken =>
         Quiet(content, s, t) && if rest == "" then t.err == EOF else Room(rest) > MAX_SIZE && t.err == TooLong
       case Got(slice) => Quiet(content, s, t) && GotToken(content, s, t, slice)
  }

  lemma ReadThenCall(content: string, s: Scanner, n: Scanner, t: Scanner, f: Found)
    requires Valid(content, s) && Valid(content, n) && Valid(content, t) && Consumed(n) == Consumed(s)
    requires s.pos < n.pos && n.stops == s.stops + [n.pos] && !Loud(content, Consumed(s), s.pos)
    requires HasSep(content[Consumed(s)..]) ==> !Roomy(content, Consumed(s), s.pos)
    requires CallOk(content, n, t, f)
    ensures CallOk(content, s, t, f)
  {
    hide Loud, TokenOf, Room, HasSep, Valid, Roomy;
    assert t.stops[|s.stops|] == n.pos;
    assert n.pos in t.stops;
  }

  lemma FullMeans(content: string, s: Scanner)
    requires Valid(content, s) && s.err == NoErr && Full(s) && Offered(s) == NeedMore
    ensures Room(content[Consumed(s)..]) > MAX_SIZE
    ensures Shifted(s) == s
  {
    OfferedMeaning(content, s);
    ShiftedOk(content, s);
    TokenMeaning(content[Consumed(s)..]);
  }

  /** When the end of the file was met, one last offer follows. */
  lemma LastOffer(content: string, wants: seq<nat>, s: Scanner)
    requires Valid(content, s) && s.err == EOF && s.pos == |content|
    requires !HasSep(content[Consumed(s)..]) && !Loud(content, Consumed(s), s.pos)
    ensures var rest := content[Consumed(s)..];
            |rest| == s.end - s.start
            && if rest == "" then ScanCall(content, wants, s) == (s.(start := 0, end := 0), NoToken)
               else s.buffers != [] && Current(s)[s.start..s.end] == rest
                    && ScanCall(content, wants, s)
                       == (s.(start := s.end), Got(Slice(|s.buffers| - 1, s.start, s.end)))
  {
    hide Shifted, Grown, ReadMore, SplitAt, TokenOf, Next, Full;
    OfferedAtEnd(content, s);
    var rest := content[Consumed(s)..];
    assert content[Consumed(s)..s.pos] == rest;
    if rest != "" {
      TokenFits(s);
      AdvanceOk(content, s, |rest|);
    }
  }

  lemma CallAtToken(content: string, wants: seq<nat>, s: Scanner)
    requires Valid(content, s) && s.err == NoErr && Offered(s).Token?
    ensures CallOk(content, s, ScanCall(content, wants, s).0, ScanCall(content, wants, s).1)
  {
    hide Shifted, Grown, ReadMore, SplitAt, TokenOf, Room, Loud, HasSep, Full, Next, Offered, Holds;
    OfferedMeaning(content, s);
    TokenMeaning(content[Consumed(s)..]);
    TokenFits(s);
    AdvanceOk(content, s, Offered(s).advance);
  }

  lemma CallAtOnce(content: string, wants: seq<nat>, s: Scanner)
    requires Valid(content, s) && s.err == NoErr && (Offered(s) != NeedMore || Full(s))
    ensures CallOk(content, s, ScanCall(content, wants, s).0, ScanCall(content, wants, s).1)
  {
    hide Shifted, Grown, ReadMore, SplitAt, TokenOf, Room, Loud, HasSep, Next;
    if Offered(s).Token? {
      CallAtToken(content, wants, s);
    } else {
      OfferedMeaning(content, s);
      TokenMeaning(content[Consumed(s)..]);
      if Offered(s) == NeedMore {
        FullMeans(content, s);
      }
    }
  }

  lemma CallAtEnd(content: string, wants: seq<nat>, s: Scanner, n: Scanner)
    requires Valid(content, s) && s.err == NoErr && Offered(s) == NeedMore
    requires Valid(content, n) && Consumed(n) == Consumed(s) && n.err == EOF
    requires n.pos == s.pos == |content| && n.stops == s.stops && n.end < Size(n)
    ensures CallOk(content, s, ScanCall(content, wants, n).0, ScanCall(content, wants, n).1)
  {
    hide ScanCall, SplitAt, TokenOf, Room, Loud, HasSep, Offered, Holds;
    OfferedMeaning(content, s);
    TokenMeaning(content[Consumed(s)..]);
    LastOffer(content, wants, n);
  }

  /** A call before the end of the file was met: it panics exactly on a window that ends in a comma with no separator
      inside; otherwise it finds the token of the rest of the file, however the file is read, exactly if the largest
      buffer has room for it. */
  lemma {:induction false} CallMeaning(content: string, wants: seq<nat>, s: Scanner)
    requires Valid(content, s) && s.err == NoErr
    ensures CallOk(content, s, ScanCall(content, wants, s).0, ScanCall(content, wants, s).1)
    decreases |content| - s.pos
  {
    hide Full, Offered, CallOk, Loud, Holds, Next;
    if Offered(s) != NeedMore || Full(s) {
      CallAtOnce(content, wants, s);
    } else {
      NextOk(content, wants, s);
      var n := Next(content, wants, s);
      if n.err == NoErr {
        CallMeaning(content, wants, n);
        OfferedMeaning(content, s);
        ReadThenCall(content, s, n, ScanCall(content, wants, n).0, ScanCall(content, wants, n).1);
      } else {
        CallAtEnd(content, wants, s, n);
      }
    }
  }

  // ----- what becomes of an earlier token

  /** The next read moves the window over the bytes before it. */
  predicate Moves(s: Scanner) {
    s.start > 0 && (s.end == Size(s) || s.start > Size(s) / 2)
  }

  /** Only the buffer in use is written to, behind the window or, if the window moves, from the front. */
  lemma NextBuffers(content: string, wants: seq<nat>, s: Scanner, b: nat)
    requires Valid(content, s) && s.err == NoErr && !Full(s) && b < |s.buffers|
    ensures var t := Next(content, wants, s);
            && |s.buffers| <= |t.buffers| && |t.buffers[b]| == |s.buffers[b]|
            && (b < |s.buffers| - 1 ==> t.buffers[b] == s.buffers[b])
            && (b == |s.buffers| - 1 && Moves(s) ==> b == |t.buffers| - 1 && t.start == 0)
            && (b == |s.buffers| - 1 && !Moves(s) ==>
                  t.buffers[b][..s.end] == s.buffers[b][..s.end]
                  && (s.end < Size(s) ==> b == |t.buffers| - 1 && t.start == s.start)
                  && (s.end == Size(s) ==> b < |t.buffers| - 1))
  {
    hide Holds;
    ShiftedOk(content, s);
    GrownOk(content, Shifted(s));
  }

  /** Bytes at the front of the buffer in use, or of one that is no longer in use, stay. */
  lemma {:induction false} FrontStays(content: string, wants: seq<nat>, s: Scanner, b: nat)
    requires Valid(content, s) && b < |s.buffers| && |s.buffers[b]| >= 2
    requires b == |s.buffers| - 1 ==> s.start == 0 && s.end >= 2
    ensures var t := ScanCall(content, wants, s).0;
            b < |t.buffers| && |t.buffers[b]| == |s.buffers[b]| && t.buffers[b][1] == s.buffers[b][1]
    decreases |content| - s.pos, if s.err == NoErr then 1 else 0
  {
    hide Grown, ReadMore, SplitAt, Holds, Next;
    if Offered(s) == NeedMore && s.err == NoErr {
      if Full(s) {
        FullMeans(content, s);
      } else {
        NextOk(content, wants, s);
        NextBuffers(content, wants, s, b);
        var n := Next(content, wants, s);
        if b == |s.buffers| - 1 {
          EndGrows(content, wants, s, b);
        }
        assert b == |s.buffers| - 1 ==> n.buffers[b][..s.end][1] == s.buffers[b][..s.end][1];
        FrontStays(content, wants, n, b);
      }
    }
  }

  lemma EndGrows(content: string, wants: seq<nat>, s: Scanner, b: nat)
    requires Valid(content, s) && s.err == NoErr && !Full(s) && b == |s.buffers| - 1
    ensures var t := Next(content, wants, s);
            b == |t.buffers| - 1 ==> t.end - t.start >= s.end - s.start
  {
    hide Shifted, Grown, ReadMore, Holds, Next;
    NextOk(content, wants, s);
  }

  /** The call leaves the first `a` bytes of the buffer alone. */
  predicate Stays(a: nat, size: nat, rest: string) {
    a <= size / 2 && a + |rest| < size
  }

  ghost predicate Kept(s: Scanner, t: Scanner, b: nat, a: nat) {
    b < |s.buffers| && b < |t.buffers| && a <= |s.buffers[b]| && a <= |t.buffers[b]|
    && t.buffers[b][..a] == s.buffers[b][..a]
  }

  /** The second byte of the rest of the file came over the second byte of the buffer. */
  ghost predicate Covered(content: string, s: Scanner, t: Scanner, b: nat) {
    b < |t.buffers| && |t.buffers[b]| >= 2 && 0 <= Consumed(s) < |content| - 1
    && t.buffers[b][1] == content[Consumed(s) + 1]
  }

  lemma MovedCovers(content: string, wants: seq<nat>, s: Scanner, n: Scanner, b: nat)
    requires Valid(content, s) && s.err == NoErr && !Full(s) && b == |s.buffers| - 1 && Moves(s)
    requires s.start < s.end && Consumed(s) + 2 <= |content| && Size(s) >= 2
    requires n == Next(content, wants, s) && Valid(content, n)
    ensures var t := ScanCall(content, wants, n).0;
            Covered(content, s, t, b) && b < |t.buffers| && |t.buffers[b]| == Size(s)
  {
    hide Shifted, Grown, ReadMore, SplitAt, Next, ScanCall;
    NextOk(content, wants, s);
    NextBuffers(content, wants, s, b);
    assert n.end >= 2;
    assert Current(n)[n.start..n.end][1] == content[Consumed(n)..n.pos][1];
    FrontStays(content, wants, n, b);
  }

  /** During a call that starts behind a token of `a` bytes, that token is kept or its second byte is covered; which of
      the two follows from the sizes, except that a separator may end the call before anything is moved. */
  lemma {:induction false} TokenMemory(content: string, wants: seq<nat>, s: Scanner, b: nat, a: nat)
    requires Valid(content, s) && s.err == NoErr && b == |s.buffers| - 1 && 2 <= a == s.start < s.end
    requires Consumed(s) + 2 <= |content|
    ensures var (t, f) := ScanCall(content, wants, s);
            var rest := content[Consumed(s)..];
            && b < |t.buffers| && |t.buffers[b]| == Size(s)
            && (Kept(s, t, b, a) || Covered(content, s, t, b))
            && (Stays(a, Size(s), rest) ==> Kept(s, t, b, a))
            && (f.Got? && !HasSep(rest) && !Stays(a, Size(s), rest) ==> Covered(content, s, t, b))
    decreases |content| - s.pos
  {
    hide Grown, ReadMore, SplitAt, Holds, Next, HasSep, ScanCall, Covered;
    OfferedMeaning(content, s);
    if Offered(s) != NeedMore {
      EndsAtOnce(content, wants, s);
    } else {
      NotFull(content, s);
      NextOk(content, wants, s);
      NextBuffers(content, wants, s, b);
      var n := Next(content, wants, s);
      StepsOn(content, wants, s, n);
      if Moves(s) {
        MovedCovers(content, wants, s, n, b);
      } else {
        assert n.buffers[b][..a] == n.buffers[b][..s.end][..a];
        if n.err == NoErr {
          TokenMemory(content, wants, n, b, a);
          CoveredAlike(content, s, n, ScanCall(content, wants, n).0, b);
        } else {
          EndsAfterError(content, wants, n);
        }
      }
    }
  }

  lemma EndsAtOnce(content: string, wants: seq<nat>, s: Scanner)
    requires Valid(content, s) && s.err == NoErr && Offered(s) != NeedMore
    ensures ScanCall(content, wants, s).0.buffers == s.buffers
    ensures ScanCall(content, wants, s).1.Got? ==> Offered(s).Token?
  {
  }

  lemma EndsAfterError(content: string, wants: seq<nat>, s: Scanner)
    requires Valid(content, s) && s.err != NoErr
    ensures ScanCall(content, wants, s).0.buffers == s.buffers
  {
  }

  lemma NotFull(content: string, s: Scanner)
    requires Valid(content, s) && s.start > 0
    ensures !Full(s)
  {
    ShiftedOk(content, s);
  }

  lemma StepsOn(content: string, wants: seq<nat>, s: Scanner, n: Scanner)
    requires Valid(content, s) && s.err == NoErr && Offered(s) == NeedMore && !Full(s)
    requires n == Next(content, wants, s) && Valid(content, n)
    ensures ScanCall(content, wants, s) == ScanCall(content, wants, n)
  {
    hide Next, Full, Offered;
  }

  lemma CoveredAlike(content: string, s: Scanner, n: Scanner, t: Scanner, b: nat)
    requires Consumed(n) == Consumed(s)
    ensures Covered(content, n, t, b) <==> Covered(content, s, t, b)
  {
  }

  // ----- how large the buffer is

  /** A buffer beyond the first size replaced one that was offered in full, without a token or a panic. */
  ghost predicate GrewInNeed(content: string, s: Scanner) {
    Size(s) > START_SIZE ==>
      var half := Size(s) / 2;
      half <= s.pos && !Loud(content, 0, half) && (HasSep(content) ==> !Roomy(content, 0, half))
  }

  lemma SizeStep(content: string, wants: seq<nat>, s: Scanner)
    requires Valid(content, s) && s.err == NoErr && s.start == 0 && Consumed(s) == 0 && GrewInNeed(content, s)
    requires Offered(s) == NeedMore && !Full(s)
    ensures var t := Next(content, wants, s);
            t.start == 0 && GrewInNeed(content, t)
  {
    hide SplitAt, Holds, Roomy, Loud, HasSep, Room, Next, Shifted;
    WholeRest(content);
    NextOk(content, wants, s);
    NextSize(content, wants, s);
    NeedMeans(content, s);
  }

  lemma {:induction false} SizeHistory(content: string, wants: seq<nat>, s: Scanner)
    requires Valid(content, s) && s.start == 0 && Consumed(s) == 0 && GrewInNeed(content, s)
    ensures GrewInNeed(content, ScanCall(content, wants, s).0)
    decreases |content| - s.pos, if s.err == NoErr then 1 else 0
  {
    hide SplitAt, Holds, GrewInNeed, Next, Full;
    if s.err == NoErr && Offered(s) == NeedMore {
      if Full(s) {
        FullMeans(content, s);
        TooLongAlike(content, s);
      } else {
        NextOk(content, wants, s);
        SizeStep(content, wants, s);
        SizeHistory(content, wants, Next(content, wants, s));
      }
    } else {
      CallEnds(content, wants, s);
      SameSize(content, s, ScanCall(content, wants, s).0);
    }
  }

  lemma CallEnds(content: string, wants: seq<nat>, s: Scanner)
    requires Valid(content, s) && (s.err != NoErr || Offered(s) != NeedMore)
    ensures ScanCall(content, wants, s).0.buffers == s.buffers && ScanCall(content, wants, s).0.pos == s.pos
  {
  }

  lemma SameSize(content: string, s: Scanner, t: Scanner)
    requires GrewInNeed(content, s) && t.buffers == s.buffers && t.pos == s.pos
    ensures GrewInNeed(content, t)
  {
  }

  lemma TooLongAlike(content: string, s: Scanner)
    requires GrewInNeed(content, s)
    ensures GrewInNeed(content, s.(err := TooLong))
  {
  }

  lemma WholeRest(content: string)
    ensures content[0..] == content
  {
  }

  lemma NeedMeans(content: string, s: Scanner)
    requires Valid(content, s) && s.err == NoErr && Offered(s) == NeedMore
    ensures !Loud(content, Consumed(s), s.pos)
    ensures HasSep(content[Consumed(s)..]) ==> !Roomy(content, Consumed(s), s.pos)
  {
    hide SplitAt, Loud, HasSep, Room;
    OfferedMeaning(content, s);
  }

  lemma NextSize(content: string, wants: seq<nat>, s: Scanner)
    requires Valid(content, s) && s.err == NoErr && s.start == 0 && !Full(s)
    ensures var t := Next(content, wants, s);
            t.start == 0
            && Size(t) == if s.end < Size(s) then Size(s) else if Size(s) == 0 then START_SIZE else 2 * s.end
  {
    hide Holds;
    ShiftedOk(content, s);
    GrownOk(content, Shifted(s));
  }

  lemma NewOk(content: string, s: Scanner)
    requires IsNew(s)
    ensures Valid(content, s) && Consumed(s) == 0 && content[Consumed(s)..] == content && GrewInNeed(content, s)
  {
    WholeRest(content);
  }

  /** A first token that ends in a separator stays where it is during the second call exactly if it takes at most half
      of the first buffer and that buffer has room for the whole file and its end. */
  lemma FirstTokenStays(content: string, wants: seq<nat>, s: Scanner)
    requires IsNew(s) && Valid(content, s) && HasSep(content) && ScanCall(content, wants, s).1.Got?
    ensures var t := ScanCall(content, wants, s).0;
            var a := |TokenOf(content)|;
            Stays(a, Size(t), content[a..]) <==> a <= START_SIZE / 2 && |content| < START_SIZE
  {
    hide ScanCall, HasSep, TokenOf, GrewInNeed, Valid, Stays, IsNew;
    var t := ScanCall(content, wants, s).0;
    FirstGot(content, wants, s);
    if Size(t) > START_SIZE {
      TokenBeyondHalf(content, t);
    }
    StaysIff(|TokenOf(content)|, Size(t), content);
  }

  lemma FirstGot(content: string, wants: seq<nat>, s: Scanner)
    requires IsNew(s) && HasSep(content) && Valid(content, s) && ScanCall(content, wants, s).1.Got?
    ensures var t := ScanCall(content, wants, s).0;
            Valid(content, t) && IsSize(Size(t)) && Size(t) > 0 && GrewInNeed(content, t)
  {
    hide ScanCall, HasSep, TokenOf, Room, GrewInNeed, Early, Quiet, Before;
    CallMeaning(content, wants, s);
    NewOk(content, s);
    TokenMeaning(content);
    SizeHistory(content, wants, s);
  }

  lemma StaysIff(a: nat, size: nat, content: string)
    requires IsSize(size) && size > 0 && (size > START_SIZE ==> a > size / 2) && a <= |content|
    ensures Stays(a, size, content[a..]) <==> a <= START_SIZE / 2 && |content| < START_SIZE
  {
  }

  lemma TokenBeyondHalf(content: string, s: Scanner)
    requires HasSep(content) && Valid(content, s) && GrewInNeed(content, s) && Size(s) > START_SIZE
    ensures |TokenOf(content)| > Size(s) / 2
  {
    hide HasSep, Holds, Loud;
    TokenMeaning(content);
    WholeRest(content);
    assert |TokenOf(content)| >= Size(s) / 2;
    if |TokenOf(content)| == Size(s) / 2 {
      TokenLoud(content);
    }
  }

  /** A window that ends with the first token, the brace still missing, makes the split function panic. */
  lemma TokenLoud(content: string)
    requires HasSep(content)
    ensures Loud(content, 0, |TokenOf(content)|)
  {
    TokenMeaning(content);
    var token := TokenOf(content);
    assert content[0..|token|] == token;
    forall i
      ensures !SepAt(token, i)
    {
      assert SepAt(token, i) ==> SepAt(content, i);
    }
  }

  // ----- two calls

  lemma {:induction false} FrontToken(content: string, wants: seq<nat>, s: Scanner)
    requires Valid(content, s) && s.start == 0
    ensures var f := ScanCall(content, wants, s).1;
            f.Got? ==> f.slice.lo == 0
    decreases |content| - s.pos, if s.err == NoErr then 1 else 0
  {
    hide SplitAt, Holds, Next, Grown, ReadMore;
    if s.err == NoErr && Offered(s) == NeedMore && !Full(s) {
      NextOk(content, wants, s);
      NextSize(content, wants, s);
      FrontToken(content, wants, Next(content, wants, s));
    }
  }

  /** After the end of the file there is no further token. */
  lemma NothingAfterEnd(content: string, wants: seq<nat>, s: Scanner)
    requires Valid(content, s) && s.err == EOF && s.start == s.end
    ensures ScanCall(content, wants, s) == (s.(start := 0, end := 0), NoToken)
  {
    SplitMeaning("", true);
  }
}
