/** All calls of Scan over a file: bufio.Scanner with its buffers refines the scan of the file in pieces
    (internal/monserv/fw/fw.go). */
module Scanning {
  import opened Text
  import opened Splitter
  import opened Bufio
  import opened ReadBack

  lemma {:induction false} GotMoves(content: string, wants: seq<nat>, s: Scanner)
    requires Valid(content, s)
    ensures var (t, f) := ScanCall(content, wants, s);
            f.Got? ==> Consumed(t) > Consumed(s)
    decreases |content| - s.pos, if s.err == NoErr then 1 else 0
  {
    hide SplitAt, Holds, Next, Full;
    match Offered(s)
    case IndexPanic =>
    case Token(advance, _) =>
      TokenFits(s);
      AdvanceOk(content, s, advance);
    case NeedMore =>
      if s.err == NoErr && !Full(s) {
        NextOk(content, wants, s);
        GotMoves(content, wants, Next(content, wants, s));
      }
  }

  /** Calls of Scan until one finds nothing: their tokens, and where the reads stopped. */
  function Calls(content: string, wants: seq<nat>, s: Scanner): (Scan, seq<nat>)
    requires Valid(content, s)
    decreases |content| - Consumed(s)
  {
    GotMoves(content, wants, s);
    var (t, f) := ScanCall(content, wants, s);
    match f
    case Panic => (Crashed, t.stops)
    case NoToken => (Tokens([]), t.stops)
    case Got(slice) => var (scan, stops) := Calls(content, wants, t); (Prepend(Value(t, slice), scan), stops)
  }

  ghost predicate Ordered(s: seq<nat>) {
    forall i, j | 0 <= i <= j < |s| :: s[i] <= s[j]
  }

  /** The scanner stands at piece number `k` of the file cut at `stops`. */
  ghost predicate AtPiece(content: string, s: Scanner, stops: seq<nat>, k: nat) {
    && s.stops <= stops && Ordered(s.stops) && StopsAtPos(s)
    && if s.err == NoErr then k == |s.stops| - 1 else s.err == EOF && k == |stops| && stops == s.stops && s.pos == |content|
  }

  lemma OfferIs(content: string, s: Scanner, eof: bool)
    requires Valid(content, s) && eof == (s.err != NoErr)
    ensures Consumed(s) >= 0 && Offered(s) == Offer(content, Consumed(s), s.pos, eof)
  {
  }

  lemma NeverFull(content: string, s: Scanner)
    requires Valid(content, s) && |content| < MAX_SIZE
    ensures !Full(s)
  {
    ShiftedOk(content, s);
  }

  lemma SameCalls(content: string, wants: seq<nat>, s: Scanner, n: Scanner)
    requires Valid(content, s) && Valid(content, n) && ScanCall(content, wants, s) == ScanCall(content, wants, n)
    ensures Calls(content, wants, s) == Calls(content, wants, n)
  {
    hide ScanCall, Valid;
  }

  /** The calls stop where they stop. */
  lemma {:induction false} CallsGrow(content: string, wants: seq<nat>, s: Scanner)
    requires Valid(content, s)
    ensures s.stops <= Calls(content, wants, s).1
    ensures s.pos == |content| ==> Calls(content, wants, s).1 == s.stops
    decreases |content| - Consumed(s)
  {
    hide ScanCall, Holds;
    StopsGrow(content, wants, s);
    GotMoves(content, wants, s);
    if s.pos == |content| {
      NothingMore(content, wants, s);
    }
    var (t, f) := ScanCall(content, wants, s);
    if f.Got? {
      CallsGrow(content, wants, t);
    }
  }

  lemma {:induction false} CallsOrdered(content: string, wants: seq<nat>, s: Scanner)
    requires Valid(content, s) && Ordered(s.stops) && StopsAtPos(s)
    ensures var stops := Calls(content, wants, s).1;
            Ordered(stops) && (stops == [] || stops[|stops| - 1] <= |content|)
    decreases |content| - Consumed(s)
  {
    hide ScanCall, Holds;
    GotMoves(content, wants, s);
    CallOrdered(content, wants, s);
    var (t, f) := ScanCall(content, wants, s);
    if f.Got? {
      CallsOrdered(content, wants, t);
    }
  }

  lemma {:induction false} CallOrdered(content: string, wants: seq<nat>, s: Scanner)
    requires Valid(content, s) && Ordered(s.stops) && StopsAtPos(s)
    ensures var t := ScanCall(content, wants, s).0;
            Ordered(t.stops) && StopsAtPos(t)
    decreases |content| - s.pos, if s.err == NoErr then 1 else 0
  {
    hide SplitAt, Holds, Next, Full, Offered;
    if s.err == NoErr && Offered(s) == NeedMore && !Full(s) {
      NextOk(content, wants, s);
      CallOrdered(content, wants, Next(content, wants, s));
    } else {
      PosAlike(content, wants, s);
    }
  }

  lemma Pieces(content: string, stops: seq<nat>)
    requires Ordered(stops) && (stops == [] || stops[|stops| - 1] <= |content|)
    ensures Ascending(stops + [|content|], |content|)
  {
  }

  /** A call that needs more goes on at the next piece. */
  lemma MoreStep(content: string, wants: seq<nat>, s: Scanner, stops: seq<nat>, k: nat)
    requires Valid(content, s) && |content| < MAX_SIZE && stops == Calls(content, wants, s).1
    requires AtPiece(content, s, stops, k) && Offered(s) == NeedMore && s.err == NoErr
    ensures !Full(s) && Valid(content, Next(content, wants, s))
    ensures var n := Next(content, wants, s);
            Calls(content, wants, s) == Calls(content, wants, n) && AtPiece(content, n, stops, k + 1)
            && Consumed(n) == Consumed(s) && (n.err == NoErr ==> n.pos > s.pos) && n.pos >= s.pos
  {
    hide SplitAt, Holds, Next, Full, Offered, Calls;
    NeverFull(content, s);
    NextOk(content, wants, s);
    var n := Next(content, wants, s);
    StepsOn(content, wants, s, n);
    SameCalls(content, wants, s, n);
    CallsGrow(content, wants, n);
  }

  lemma TokenCall(content: string, wants: seq<nat>, s: Scanner)
    requires Valid(content, s) && Offered(s).Token?
    ensures var n := s.(start := s.start + Offered(s).advance);
            var (t, f) := ScanCall(content, wants, s);
            t == n && f.Got? && Value(n, f.slice) == Offered(s).token
  {
    hide SplitAt, Holds, Offered;
    TokenFits(s);
  }

  /** A call that finds a token at once leaves the others to the following calls. */
  lemma TokenStep(content: string, wants: seq<nat>, s: Scanner)
    requires Valid(content, s) && Offered(s).Token?
    ensures var n := s.(start := s.start + Offered(s).advance);
            Valid(content, n) && Consumed(n) == Consumed(s) + Offered(s).advance > Consumed(s)
            && Calls(content, wants, s).0 == Prepend(Offered(s).token, Calls(content, wants, n).0)
            && Calls(content, wants, s).1 == Calls(content, wants, n).1
  {
    hide SplitAt, Holds, Offered, ScanCall, Value;
    TokenFits(s);
    AdvanceOk(content, s, Offered(s).advance);
    TokenCall(content, wants, s);
  }

  lemma OtherStep(content: string, wants: seq<nat>, s: Scanner)
    requires Valid(content, s) && (Offered(s).IndexPanic? || (Offered(s).NeedMore? && s.err != NoErr))
    ensures Calls(content, wants, s).0 == if Offered(s).IndexPanic? then Crashed else Tokens([])
  {
    hide SplitAt, Holds, Offered;
  }

  lemma {:induction false} CallsAreRun(content: string, wants: seq<nat>, s: Scanner, stops: seq<nat>, k: nat)
    requires Valid(content, s) && |content| < MAX_SIZE && stops == Calls(content, wants, s).1
    requires Ascending(stops + [|content|], |content|) && AtPiece(content, s, stops, k)
    ensures Consumed(s) >= 0 && Calls(content, wants, s).0 == Run(content, Consumed(s), stops + [|content|], k)
    decreases |content| - Consumed(s), |content| - s.pos, if s.err == NoErr then 1 else 0
  {
    hide Holds, Next, Full, Offered, Offer, Calls, Ascending;
    OfferIs(content, s, s.err != NoErr);
    match Offered(s)
    case IndexPanic => OtherStep(content, wants, s);
    case Token(advance, token) =>
      TokenStep(content, wants, s);
      CallsAreRun(content, wants, s.(start := s.start + advance), stops, k);
    case NeedMore =>
      if s.err == NoErr {
        MoreStep(content, wants, s, stops, k);
        CallsAreRun(content, wants, Next(content, wants, s), stops, k + 1);
      } else {
        OtherStep(content, wants, s);
      }
  }

  /** The scan of the file cut at these places. */
  ghost predicate IsRun(content: string, scan: Scan, stops: seq<nat>) {
    var ends := stops + [|content|];
    Ascending(ends, |content|) && scan == Run(content, 0, ends, 0)
  }

  /** The calls of Scan on a file shorter than the largest buffer do what the scan of its pieces does. */
  lemma CallsRefineRun(content: string, wants: seq<nat>, s: Scanner)
    requires IsNew(s) && Valid(content, s) && |content| < MAX_SIZE
    ensures var (scan, stops) := Calls(content, wants, s);
            IsRun(content, scan, stops)
  {
    hide Calls, Next, Full, Offered, Run, Valid, Holds;
    var stops := Calls(content, wants, s).1;
    CallsOrdered(content, wants, s);
    Pieces(content, stops);
    NewStarts(content, s);
    NeverFull(content, s);
    NextOk(content, wants, s);
    var n := Next(content, wants, s);
    StepsOn(content, wants, s, n);
    SameCalls(content, wants, s, n);
    CallsGrow(content, wants, n);
    CallsAreRun(content, wants, n, stops, 0);
  }

  lemma NewStarts(content: string, s: Scanner)
    requires IsNew(s) && Valid(content, s)
    ensures s.err == NoErr && Offered(s) == NeedMore && Consumed(s) == 0 && s.stops == [] && s.pos == 0
  {
    hide SplitAt;
  }

  /** The scan panics exactly if a read, or the file, ends behind a comma; otherwise its tokens do not depend on the
      reads, and together they are the file. */
  ghost predicate MeansWhole(content: string, scan: Scan, stops: seq<nat>) {
    && (scan == Crashed <==> exists p :: p in stops + [|content|] && EndsInComma(content, p))
    && (scan != Crashed ==> scan == Whole(content, 0) && Concat(scan.tokens) == content)
  }

  lemma CallsMeaning(content: string, wants: seq<nat>, s: Scanner)
    requires IsNew(s) && Valid(content, s) && |content| < MAX_SIZE
    ensures MeansWhole(content, Calls(content, wants, s).0, Calls(content, wants, s).1)
  {
    hide Calls, Valid, MeansWhole;
    CallsRefineRun(content, wants, s);
    RunMeaning(content, Calls(content, wants, s).0, Calls(content, wants, s).1);
  }

  lemma RunMeaning(content: string, scan: Scan, stops: seq<nat>)
    requires IsRun(content, scan, stops)
    ensures MeansWhole(content, scan, stops)
  {
    hide Run, Whole, Concat;
    var ends := stops + [|content|];
    ScanOfChunks(content, ends);
    if i :| 0 <= i < |ends| && 0 < ends[i] <= |content| && content[ends[i] - 1] == ',' {
      assert ends[i] in ends && EndsInComma(content, ends[i]);
    }
  }
}
