/** What the two calls of Scan in the restorer read back from any file, and when they panic (internal/monserv/fw/fw.go). */
module ReadBack {
  import opened Wrappers
  import opened Text
  import opened Splitter
  import opened Bufio
  import opened Fw

  /** What is left of a file behind its first token. */
  function Behind(file: string): string {
    file[|TokenOf(file)|..]
  }

  /** The first token takes at most half of the first buffer, and that buffer has room for the whole file. */
  predicate Small(file: string) {
    |TokenOf(file)| <= START_SIZE / 2 && |file| < START_SIZE
  }

  /** The first token, trimmed, as it was when it was found. */
  function First(file: string): string {
    Trim(TokenOf(file), "[,]")
  }

  lemma FirstCall(file: string, wants: seq<nat>, s: Scanner)
    requires IsNew(s) && Valid(file, s)
    ensures var (t, f) := ScanCall(file, wants, s);
            CallOk(file, s, t, f) && Consumed(s) == 0 && file[Consumed(s)..] == file
            && (f.Got? ==> f.slice.lo == 0 && f.slice.hi == t.start == |TokenOf(file)| && f.slice.buffer == |t.buffers| - 1
                           && Value(t, f.slice) == TokenOf(file) && t.start <= Size(t))
  {
    hide ScanCall, TokenOf, Room, HasSep, Early, Quiet, Before;
    NewOk(file, s);
    CallMeaning(file, wants, s);
    FrontToken(file, wants, s);
    var (t, f) := ScanCall(file, wants, s);
    if f.Got? {
      assert |Current(t)[f.slice.lo..f.slice.hi]| == |TokenOf(file)|;
    }
  }

  /** The slice of the first token after the second call: unchanged, or its first byte is the second byte of the rest. */
  lemma FirstSlice(file: string, t: Scanner, u: Scanner, slice: Slice)
    requires t.buffers != [] && slice == Slice(|t.buffers| - 1, 0, |TokenOf(file)|) && |TokenOf(file)| <= Size(t)
    requires Value(t, slice) == TokenOf(file) && slice.buffer < |u.buffers| && |u.buffers[slice.buffer]| == Size(t)
    ensures |Value(u, Trimmed(t, slice))| == |First(file)|
    ensures Kept(t, u, slice.buffer, slice.hi) ==> Value(u, Trimmed(t, slice)) == First(file)
    ensures TrimBounds(TokenOf(file), "[,]").0 == 1 && First(file) != "" ==>
              Value(u, Trimmed(t, slice))[0] == u.buffers[slice.buffer][1]
  {
    hide TokenOf, TrimBounds, Trim;
    var b := TrimBounds(TokenOf(file), "[,]");
    var bytes := u.buffers[slice.buffer];
    assert Value(u, Trimmed(t, slice)) == bytes[b.0..b.1];
    if Kept(t, u, slice.buffer, slice.hi) {
      SubSlice(bytes, 0, slice.hi, b.0, b.1);
      assert bytes[0..slice.hi] == bytes[..slice.hi];
      assert Current(t)[0..slice.hi] == Current(t)[..slice.hi];
    }
  }

  lemma BehindIs(file: string)
    ensures |Behind(file)| == |file| - |TokenOf(file)| && file == TokenOf(file) + Behind(file)
    ensures !HasSep(file) ==> Behind(file) == ""
    ensures HasSep(file) ==> Behind(file) != "" && Behind(file)[0] == '{' && TokenOf(file) != ""
  {
    TokenMeaning(file);
  }

  /** A file without separator has one token. */
  lemma OneToken(file: string, wants: seq<nat>, s: Scanner)
    requires IsNew(s) && Valid(file, s) && file != "" && !HasSep(file) && Room(file) <= MAX_SIZE
    ensures TokensFrom(file, wants, s).Some? ==> TokensFrom(file, wants, s) == Some((First(file), ""))
    ensures TokensFrom(file, wants, s) == None <==> ScanCall(file, wants, s).1.Panic?
    ensures StopsFrom(file, wants, s) == ScanCall(file, wants, s).0.stops
  {
    hide ScanCall, TokenOf, Room, HasSep, Early, Quiet, Before, TrimBounds, Trim, Value, Trimmed, Valid, IsNew;
    FirstCall(file, wants, s);
    var (t, f) := ScanCall(file, wants, s);
    TokenMeaning(file);
    if f.Got? {
      assert t.start == t.end;
      NothingAfterEnd(file, wants, t);
      FirstSlice(file, t, ScanCall(file, wants, t).0, f.slice);
    }
  }

  /** A file whose first token no buffer has room for gives no gauges. */
  lemma NoRoom(file: string, wants: seq<nat>, s: Scanner)
    requires IsNew(s) && Valid(file, s) && file != "" && Room(file) > MAX_SIZE
    ensures TokensFrom(file, wants, s).Some? ==> TokensFrom(file, wants, s).value.0 == ""
  {
    hide ScanCall, TokenOf, Room, HasSep, Early, Quiet, Before;
    FirstCall(file, wants, s);
  }

  /** A file with a separator: the first token is kept or covered, the second is that of what is left. */
  lemma TwoTokensRead(file: string, wants: seq<nat>, s: Scanner)
    requires IsNew(s) && Valid(file, s) && HasSep(file) && Room(file) <= MAX_SIZE && |TokenOf(file)| >= 2
    requires |Behind(file)| >= 2 && TrimBounds(TokenOf(file), "[,]").0 == 1 && First(file) != ""
    requires TokensFrom(file, wants, s).Some?
    ensures var (gj, cj) := TokensFrom(file, wants, s).value;
            var rest := Behind(file);
            && |gj| == |First(file)|
            && (gj == First(file) || gj[0] == rest[1])
            && (Small(file) ==> gj == First(file))
            && (!Small(file) && !HasSep(rest) && Room(rest) <= MAX_SIZE ==> gj[0] == rest[1])
            && cj == if Room(rest) <= MAX_SIZE then Trim(TokenOf(rest), "[,]") else ""
  {
    hide ScanCall, TokenOf, Room, HasSep, Early, Quiet, Before, TrimBounds;
    hide Trim, Value, Trimmed, Stays, Kept, Covered, Valid, IsNew;
    FirstCall(file, wants, s);
    var (t, f) := ScanCall(file, wants, s);
    assert f.Got?;
    assert file[Consumed(t)..] == Behind(file);
    CallMeaning(file, wants, t);
    var (u, g) := ScanCall(file, wants, t);
    TokenMemory(file, wants, t, f.slice.buffer, f.slice.hi);
    FirstTokenStays(file, wants, s);
    MemoryRange(file, t, u, f.slice.buffer, f.slice.hi);
    FirstSlice(file, t, u, f.slice);
    if g.Got? {
      TrimmedValue(u, g.slice);
    }
  }

  lemma MemoryRange(file: string, t: Scanner, u: Scanner, b: nat, a: nat)
    ensures Kept(t, u, b, a) || Covered(file, t, u, b) ==> b < |u.buffers|
    ensures Covered(file, t, u, b) ==> 0 <= Consumed(t) < |file| - 1 && |u.buffers[b]| >= 2
                                       && u.buffers[b][1] == file[Consumed(t)..][1]
  {
  }

  lemma SubSlice(bytes: string, lo: nat, hi: nat, i: nat, j: nat)
    requires lo <= hi <= |bytes| && i <= j <= hi - lo
    ensures bytes[lo..hi][i..j] == bytes[lo + i..lo + j]
  {
    var part := bytes[lo..hi];
    assert forall k | 0 <= k < |part| :: part[k] == bytes[lo + k];
    assert part[i..j] == bytes[lo + i..lo + j];
  }

  lemma TrimmedValue(s: Scanner, slice: Slice)
    requires slice.buffer < |s.buffers| && slice.lo <= slice.hi <= |s.buffers[slice.buffer]|
    ensures Value(s, Trimmed(s, slice)) == Trim(s.buffers[slice.buffer][slice.lo..slice.hi], "[,]")
  {
    hide Trim, TrimBounds;
    var bytes := s.buffers[slice.buffer];
    assert Value(s, slice) == bytes[slice.lo..slice.hi];
    var b := TrimBounds(Value(s, slice), "[,]");
    SubSlice(bytes, slice.lo, slice.hi, b.0, b.1);
  }

  // ----- when the calls panic

  ghost predicate EndsInComma(file: string, p: int) {
    0 < p <= |file| && file[p - 1] == ','
  }

  /** Behind a separator-free stretch a comma at the end is loud. */
  lemma LoudIff(file: string, from: nat, p: nat)
    requires from < p <= |file|
    ensures Loud(file, from, p) <==> EndsInComma(file, p) && !HasSep(file[from..p])
  {
  }

  lemma StretchHasNone(s: string, from: nat, to: nat)
    requires from <= to <= |s| && !HasSep(s)
    ensures !HasSep(s[from..to])
  {
    forall i
      ensures !SepAt(s[from..to], i)
    {
      assert SepAt(s[from..to], i) ==> SepAt(s, from + i);
    }
  }

  /** Before there is room for the first token its part of the file has no separator. */
  lemma EarlyHasNone(file: string, p: nat)
    requires p <= |file| && HasSep(file) && !Roomy(file, 0, p)
    ensures !HasSep(file[0..p])
  {
    TokenMeaning(file);
    assert file[0..] == file;
    forall i
      ensures !SepAt(file[0..p], i)
    {
      assert SepAt(file[0..p], i) ==> SepAt(file, i);
    }
  }

  ghost predicate Commas(file: string, stops: seq<nat>) {
    exists p :: p in stops && EndsInComma(file, p)
  }

  /** Where the last read stopped is how far the file was read. */
  ghost predicate StopsAtPos(s: Scanner) {
    if s.stops == [] then s.pos == 0 else s.pos == s.stops[|s.stops| - 1]
  }

  lemma {:induction false} PosStops(file: string, wants: seq<nat>, s: Scanner)
    requires Valid(file, s) && StopsAtPos(s)
    ensures StopsAtPos(ScanCall(file, wants, s).0)
    decreases |file| - s.pos, if s.err == NoErr then 1 else 0
  {
    hide SplitAt, Holds, Next, Full, Offered;
    if s.err == NoErr && Offered(s) == NeedMore && !Full(s) {
      NextOk(file, wants, s);
      PosStops(file, wants, Next(file, wants, s));
    } else {
      PosAlike(file, wants, s);
    }
  }

  lemma PosAlike(file: string, wants: seq<nat>, s: Scanner)
    requires Valid(file, s) && (s.err != NoErr || Offered(s) != NeedMore || Full(s))
    ensures var t := ScanCall(file, wants, s).0;
            t.pos == s.pos && t.stops == s.stops
  {
    ShiftedOk(file, s);
  }

  /** A call that panics has stopped behind a comma. */
  lemma PanicStops(file: string, s: Scanner, t: Scanner)
    requires Loud(file, Consumed(s), t.pos) && StopsAtPos(t)
    ensures Commas(file, t.stops)
  {
    assert EndsInComma(file, t.pos);
    assert t.stops[|t.stops| - 1] in t.stops;
  }

  /** In a file without separator every stop behind a comma is met with a panic. */
  lemma OneTokenPanics(file: string, wants: seq<nat>, s: Scanner)
    requires IsNew(s) && Valid(file, s) && file != "" && !HasSep(file) && Room(file) <= MAX_SIZE
    ensures TokensFrom(file, wants, s) == None <==> Commas(file, StopsFrom(file, wants, s))
  {
    hide ScanCall, TokenOf, Room, HasSep, TokensFrom, StopsFrom, Valid, IsNew, CallOk, Commas, Consumed;
    OneToken(file, wants, s);
    CallStops(file, wants, s);
  }

  /** The first call panics exactly if one of its reads stops behind a comma. */
  lemma CallStops(file: string, wants: seq<nat>, s: Scanner)
    requires IsNew(s) && Valid(file, s) && !HasSep(file)
    ensures var (t, f) := ScanCall(file, wants, s);
            f.Panic? <==> Commas(file, t.stops)
  {
    hide ScanCall, TokenOf, Room, HasSep, Valid, Early, Quiet, Before, Commas;
    FirstCall(file, wants, s);
    PosStops(file, wants, s);
    var (t, f) := ScanCall(file, wants, s);
    if f.Panic? {
      PanicStops(file, s, t);
    } else {
      QuietStops(file, s, t);
    }
  }

  lemma QuietStops(file: string, s: Scanner, t: Scanner)
    requires IsNew(s) && Before(file, s, t) && !HasSep(file) && Quiet(file, s, t)
    ensures !Commas(file, t.stops)
  {
    hide HasSep;
    forall i | 0 <= i < |t.stops|
      ensures !EndsInComma(file, t.stops[i])
    {
      var p := t.stops[i];
      if p <= |file| {
        StretchHasNone(file, 0, p);
        LoudIff(file, 0, p);
      }
    }
  }

  /** If all is clean behind the first token, every stop behind a comma is met with a panic by one of the two calls. */
  lemma TwoTokensPanic(file: string, wants: seq<nat>, s: Scanner)
    requires IsNew(s) && Valid(file, s) && HasSep(file) && !HasSep(Behind(file)) && Room(file) <= MAX_SIZE
    ensures TokensFrom(file, wants, s) == None <==> Commas(file, StopsFrom(file, wants, s))
  {
    hide ScanCall, TokenOf, Room, HasSep, Valid, Early, Quiet, Before, Commas, Loud, Value, Trimmed;
    FirstCall(file, wants, s);
    PosStops(file, wants, s);
    var (t, f) := ScanCall(file, wants, s);
    if f.Panic? {
      PanicStops(file, s, t);
    } else {
      BehindIs(file);
      assert f.Got?;
      SecondStops(file, wants, s, t);
    }
  }

  lemma SecondStops(file: string, wants: seq<nat>, s: Scanner, t: Scanner)
    requires IsNew(s) && Valid(file, s) && Valid(file, t) && HasSep(file) && !HasSep(Behind(file))
    requires Before(file, s, t) && Early(file, s, t) && Quiet(file, s, t) && StopsAtPos(t)
    requires t.err == NoErr && t.start < t.end && Consumed(t) == |TokenOf(file)|
    ensures var (u, g) := ScanCall(file, wants, t);
            g.Panic? <==> Commas(file, u.stops)
  {
    hide ScanCall, TokenOf, Room, HasSep, Early, Quiet, Before, Commas, IsNew, Valid;
    CallMeaning(file, wants, t);
    PosStops(file, wants, t);
    var (u, g) := ScanCall(file, wants, t);
    if g.Panic? {
      PanicStops(file, t, u);
    } else {
      QuietBoth(file, s, t, u);
    }
  }

  lemma QuietBoth(file: string, s: Scanner, t: Scanner, u: Scanner)
    requires IsNew(s) && Valid(file, s) && Valid(file, t) && HasSep(file) && !HasSep(Behind(file))
    requires Before(file, s, t) && Early(file, s, t) && Quiet(file, s, t) && StopsAtPos(t)
    requires t.start < t.end && Consumed(t) == |TokenOf(file)|
    requires Before(file, t, u) && Quiet(file, t, u)
    ensures !Commas(file, u.stops)
  {
    hide HasSep, TokenOf, Roomy, Loud, Holds;
    var c := |TokenOf(file)|;
    forall i | 0 <= i < |u.stops|
      ensures !EndsInComma(file, u.stops[i])
    {
      var p := u.stops[i];
      if i < |t.stops| - 1 {
        assert p == t.stops[i];
        assert file[Consumed(s)..] == file;
        EarlyStop(file, p);
      } else {
        assert i == |t.stops| - 1 ==> p == t.pos;
        LateStop(file, p);
      }
    }
  }

  lemma EarlyStop(file: string, p: nat)
    requires HasSep(file) && !Roomy(file, 0, p) && !Loud(file, 0, p)
    ensures !EndsInComma(file, p)
  {
    hide HasSep, Roomy;
    if 0 < p <= |file| {
      EarlyHasNone(file, p);
    }
  }

  lemma LateStop(file: string, p: nat)
    requires !HasSep(Behind(file)) && p > |TokenOf(file)| && !Loud(file, |TokenOf(file)|, p)
    ensures !EndsInComma(file, p)
  {
    hide HasSep, TokenOf;
    var c := |TokenOf(file)|;
    if p <= |file| {
      StretchHasNone(Behind(file), 0, p - c);
      assert Behind(file)[0..p - c] == file[c..p];
    }
  }

  // ----- reads that return as much as the buffer has room for

  lemma GrownNew(s: Scanner)
    requires IsNew(s)
    ensures Bounded(s) && s.err == NoErr && Shifted(s) == s && !Full(s) && Offered(s) == NeedMore
    ensures var t := Grown(s);
            Size(t) == START_SIZE && t.start == t.end == t.pos == 0 && t.err == NoErr && t.stops == []
  {
    hide SplitAt;
  }

  lemma ReadAll(file: string, s: Scanner)
    requires file != "" && Size(s) == START_SIZE && s.start == s.end == s.pos == 0 && s.err == NoErr && s.stops == []
    ensures var t := ReadMore(file, [], s);
            t.err == NoErr && t.pos == (if |file| < START_SIZE then |file| else START_SIZE) && t.stops == [t.pos]
  {
  }

  lemma FirstRead(file: string, s: Scanner)
    requires IsNew(s) && Valid(file, s) && file != ""
    ensures Offered(s) == NeedMore && !Full(s)
    ensures var n := Next(file, [], s);
            Valid(file, n)
            && n.pos == (if |file| < START_SIZE then |file| else START_SIZE) && n.stops == [n.pos]
  {
    hide Offered, Full, Shifted, Grown, ReadMore, Holds, IsNew;
    GrownNew(s);
    ReadAll(file, Grown(s));
    NextOk(file, [], s);
  }

  lemma {:induction false} NothingMore(file: string, wants: seq<nat>, s: Scanner)
    requires Valid(file, s) && s.pos == |file|
    ensures var t := ScanCall(file, wants, s).0;
            t.pos == |file| && t.stops == s.stops
    decreases if s.err == NoErr then 1 else 0
  {
    hide SplitAt, Holds, Next, Full, Offered;
    if s.err == NoErr && Offered(s) == NeedMore && !Full(s) {
      NextOk(file, wants, s);
      NothingMore(file, wants, Next(file, wants, s));
    } else {
      PosAlike(file, wants, s);
    }
  }

  /** A file that fits into the first buffer is read in one piece. */
  lemma ReadAtOnce(file: string, s: Scanner)
    requires IsNew(s) && Valid(file, s) && |file| <= START_SIZE
    ensures forall p | p in StopsFrom(file, [], s) :: p == |file|
  {
    hide ScanCall, Valid, Offered, Full, Next;
    if file == "" {
      EmptyStart(file, s);
      NothingMore(file, [], s);
    } else {
      FirstRead(file, s);
      StepsOn(file, [], s, Next(file, [], s));
      NothingMore(file, [], Next(file, [], s));
    }
    NothingMore(file, [], ScanCall(file, [], s).0);
  }

  /** An empty file has no tokens. */
  lemma NothingRead(wants: seq<nat>, s: Scanner)
    requires IsNew(s) && Valid("", s)
    ensures TokensFrom("", wants, s) == Some(("", ""))
  {
    hide ScanCall, TokenOf, Room, HasSep, Early, Quiet, Before, Value, Trimmed, Valid, IsNew;
    FirstCall("", wants, s);
    var (t, f) := ScanCall("", wants, s);
    EmptyWindow(t);
    NothingAfterEnd("", wants, t);
  }

  lemma EmptyWindow(t: Scanner)
    requires Valid("", t)
    ensures t.start == t.end && forall n :: !Loud("", 0, n)
  {
  }

  lemma EmptyStart(file: string, s: Scanner)
    requires IsNew(s) && file == ""
    ensures s.pos == |file| && s.stops == []
  {
  }

  /** A longer one is first read up to its character 4096. */
  lemma FirstStopIs(file: string, s: Scanner)
    requires IsNew(s) && Valid(file, s) && |file| >= START_SIZE
    ensures START_SIZE in ScanCall(file, [], s).0.stops && START_SIZE in StopsFrom(file, [], s)
  {
    hide ScanCall, Valid, Offered, Full, Next;
    FirstRead(file, s);
    var n := Next(file, [], s);
    StepsOn(file, [], s, n);
    StopsGrow(file, [], n);
    assert n.stops[0] == START_SIZE;
    var t := ScanCall(file, [], s).0;
    assert t.stops[0] == START_SIZE;
    StopsGrow(file, [], t);
  }

  lemma {:induction false} StopsGrow(file: string, wants: seq<nat>, s: Scanner)
    requires Valid(file, s)
    ensures s.stops <= ScanCall(file, wants, s).0.stops
    decreases |file| - s.pos, if s.err == NoErr then 1 else 0
  {
    hide SplitAt, Holds, Next, Full, Offered;
    if s.err == NoErr && Offered(s) == NeedMore && !Full(s) {
      NextOk(file, wants, s);
      StopsGrow(file, wants, Next(file, wants, s));
    } else {
      PosAlike(file, wants, s);
    }
  }

  /** A comma as its character 4096, with no separator before it, makes such a restore panic. */
  lemma CommaAtFirstStop(file: string, s: Scanner)
    requires IsNew(s) && Valid(file, s) && |file| >= START_SIZE && Loud(file, 0, START_SIZE)
    ensures TokensFrom(file, [], s) == None
  {
    hide ScanCall, TokenOf, Room, HasSep, Valid, Early, Before, Loud, Quiet, IsNew, TokensFrom;
    FirstCall(file, [], s);
    FirstStopIs(file, s);
    var (t, f) := ScanCall(file, [], s);
    if !f.Panic? {
      QuietMeans(file, s, t, START_SIZE);
    }
    PanicAtOnce(file, [], s);
  }

  lemma QuietMeans(file: string, s: Scanner, t: Scanner, p: nat)
    requires IsNew(s) && Quiet(file, s, t) && p in t.stops
    ensures !Loud(file, 0, p)
  {
    hide Loud;
  }

  lemma PanicAtOnce(file: string, wants: seq<nat>, s: Scanner)
    requires Valid(file, s)
    ensures ScanCall(file, wants, s).1.Panic? ==> TokensFrom(file, wants, s) == None
  {
    hide ScanCall;
  }
}
