/** The split function of the backup restorer and the bufio.Scanner that drives it
    (internal/monserv/fw/fw.go). */
module Splitter {
  import opened Text

  /** `IndexPanic` is the read of `data[i+1]` past the end of the buffer. */
  datatype SplitResult = Token(advance: nat, token: string) | NeedMore | IndexPanic

  /** Where the search loop leaves: at `,{`, or at a comma that ends the data. */
  predicate StopAt(data: string, i: int) {
    0 <= i < |data| && data[i] == ',' && (i + 1 == |data| || data[i + 1] == '{')
  }

  function FirstStop(data: string, from: nat): (i: nat)
    requires from <= |data|
    ensures from <= i <= |data|
    ensures i < |data| ==> StopAt(data, i)
    ensures forall j | from <= j < i :: !StopAt(data, j)
    decreases |data| - from
  {
    if from == |data| || StopAt(data, from) then from else FirstStop(data, from + 1)
  }

  function SplitAt(data: string, atEOF: bool): SplitResult {
    var i := FirstStop(data, 0);
    if i + 1 < |data| then Token(i + 1, data[..i + 1])
    else if i < |data| then IndexPanic
    else if atEOF && |data| > 0 then Token(|data|, data)
    else NeedMore
  }

  method Split(data: string, atEOF: bool) returns (r: SplitResult)
    ensures r == SplitAt(data, atEOF)
  {
    for i := 0 to |data|
      invariant forall j | 0 <= j < i :: !StopAt(data, j)
    {
      if data[i] == ',' {
        assert StopAt(data, i) <==> i + 1 == |data| || data[i + 1] == '{';
        if i + 1 == |data| {
          return IndexPanic;
        }
        if data[i + 1] == '{' {
          return Token(i + 1, data[..i + 1]);
        }
      }
    }
    if atEOF && |data| > 0 {
      return Token(|data|, data);
    }
    return NeedMore;
  }

  /** What the split function does, in terms of the separators of its data. */
  lemma SplitMeaning(data: string, atEOF: bool)
    ensures var r := SplitAt(data, atEOF);
            if HasSep(data) then
              r.Token? && r.advance < |data| && r.token == data[..r.advance] && SepAt(data, r.advance - 1)
              && forall i | 0 <= i < r.advance - 1 :: !SepAt(data, i)
            else if data != [] && data[|data| - 1] == ',' then r == IndexPanic
            else r == if atEOF && data != [] then Token(|data|, data) else NeedMore
  {
    var i := FirstStop(data, 0);
    assert forall j :: SepAt(data, j) ==> StopAt(data, j);
    if k :| SepAt(data, k) {
      assert StopAt(data, k) && i <= k;
    }
    if data != [] && data[|data| - 1] == ',' {
      assert StopAt(data, |data| - 1);
    }
    assert i + 1 < |data| ==> SepAt(data, i);
  }

  /** The tokens that the scanner delivers, unless the split function panics on the way. */
  datatype Scan = Tokens(tokens: seq<string>) | Crashed

  /** How far the successive reads of a file get; the last one finds its end. */
  ghost predicate Ascending(ends: seq<nat>, high: nat) {
    ends != [] && ends[|ends| - 1] == high && forall i, j | 0 <= i <= j < |ends| :: ends[i] <= ends[j]
  }

  ghost function Offer(content: string, start: nat, end: nat, eof: bool): SplitResult
    requires start <= end <= |content|
  {
    if start < end || eof then SplitAt(content[start..end], eof) else NeedMore
  }

  function Prepend(token: string, scan: Scan): Scan {
    match scan case Crashed => Crashed case Tokens(ts) => Tokens([token] + ts)
  }

  /** After read number `k` the scanner holds `content[start..ends[k]]`, offers that to the split function, and
      reads on when asked to; the last end is offered as the end of the file. */
  ghost function Run(content: string, start: nat, ends: seq<nat>, k: nat): Scan
    requires Ascending(ends, |content|) && k < |ends| && start <= ends[k]
    decreases |content| - start, |ends| - k
  {
    var eof := k == |ends| - 1;
    match Offer(content, start, ends[k], eof)
    case IndexPanic => Crashed
    case Token(advance, token) => Prepend(token, Run(content, start + advance, ends, k))
    case NeedMore => if eof then Tokens([]) else Run(content, start, ends, k + 1)
  }

  /** The rest of the file offered at once. */
  ghost function Whole(content: string, start: nat): Scan
    requires start <= |content|
  {
    Run(content, start, [|content|], 0)
  }

  lemma OfferMeaning(content: string, start: nat, end: nat, eof: bool)
    requires start <= end <= |content|
    ensures match Offer(content, start, end, eof)
            case IndexPanic => start < end && content[end - 1] == ','
            case NeedMore => (start < end ==> content[end - 1] != ',') && (eof ==> start == end)
            case Token(advance, token) =>
              0 < advance <= end - start && token == content[start..start + advance]
              && (advance == end - start ==> eof && content[end - 1] != ',')
  {
    SplitMeaning(content[start..end], eof);
  }

  lemma SameToken(content: string, start: nat, end: nat, eof: bool)
    requires start < end <= |content|
    requires Offer(content, start, end, eof).Token? && Offer(content, start, end, eof).advance < end - start
    ensures Offer(content, start, |content|, true) == Offer(content, start, end, eof)
  {
    var part, all := content[start..end], content[start..|content|];
    var i := FirstStop(part, 0);
    assert forall j | 0 <= j <= i :: StopAt(all, j) <==> StopAt(part, j);
    assert FirstStop(all, 0) == i;
    assert all[..i + 1] == part[..i + 1];
  }

  /** Some read beyond `start` gets exactly past a comma. */
  ghost predicate CommaCut(content: string, start: nat, ends: seq<nat>, k: nat) {
    exists i :: k <= i < |ends| && start < ends[i] <= |content| && content[ends[i] - 1] == ','
  }

  /** The scan panics exactly when some window of bytes that it is given ends in a comma. */
  lemma {:induction false} CrashIff(content: string, start: nat, ends: seq<nat>, k: nat)
    requires Ascending(ends, |content|) && k < |ends| && start <= ends[k]
    ensures Run(content, start, ends, k) == Crashed <==> CommaCut(content, start, ends, k)
    decreases |content| - start, |ends| - k
  {
    hide Offer;
    var eof := k == |ends| - 1;
    OfferMeaning(content, start, ends[k], eof);
    match Offer(content, start, ends[k], eof)
    case IndexPanic =>
    case Token(advance, token) => CrashIff(content, start + advance, ends, k);
    case NeedMore => if !eof { CrashIff(content, start, ends, k + 1); }
  }

  /** A scan that does not panic delivers the same tokens however the file was cut. */
  lemma {:induction false} ChunkInsensitive(content: string, start: nat, ends: seq<nat>, k: nat)
    requires Ascending(ends, |content|) && k < |ends| && start <= ends[k]
    requires Run(content, start, ends, k) != Crashed
    ensures Run(content, start, ends, k) == Whole(content, start)
    decreases |content| - start, |ends| - k
  {
    hide Offer;
    var eof := k == |ends| - 1;
    OfferMeaning(content, start, ends[k], eof);
    match Offer(content, start, ends[k], eof)
    case IndexPanic =>
    case Token(advance, token) =>
      ChunkInsensitive(content, start + advance, ends, k);
      if !eof {
        SameToken(content, start, ends[k], eof);
      }
    case NeedMore => if !eof { ChunkInsensitive(content, start, ends, k + 1); }
  }

  ghost function Concat(tokens: seq<string>): string {
    if tokens == [] then "" else tokens[0] + Concat(tokens[1..])
  }

  lemma {:induction false} TokensConcat(content: string, start: nat, ends: seq<nat>, k: nat)
    requires Ascending(ends, |content|) && k < |ends| && start <= ends[k]
    requires Run(content, start, ends, k) != Crashed
    ensures Concat(Run(content, start, ends, k).tokens) == content[start..]
    decreases |content| - start, |ends| - k
  {
    hide Offer;
    var eof := k == |ends| - 1;
    OfferMeaning(content, start, ends[k], eof);
    match Offer(content, start, ends[k], eof)
    case IndexPanic =>
    case Token(advance, token) =>
      TokensConcat(content, start + advance, ends, k);
      var rest := Run(content, start + advance, ends, k).tokens;
      assert ([token] + rest)[1..] == rest;
      assert content[start..] == token + content[start + advance..];
    case NeedMore => if !eof { TokensConcat(content, start, ends, k + 1); }
  }

  /** For any file and any way of reading it piece by piece: the scan panics if and only if a piece, or the
      file itself, ends right after a comma; otherwise its tokens are those of the file read at once, and
      together they are the file. */
  lemma ScanOfChunks(content: string, ends: seq<nat>)
    requires Ascending(ends, |content|)
    ensures var scan := Run(content, 0, ends, 0);
            (scan == Crashed <==> exists i :: 0 <= i < |ends| && 0 < ends[i] <= |content| && content[ends[i] - 1] == ',')
            && (scan != Crashed ==> scan == Whole(content, 0) && Concat(scan.tokens) == content)
  {
    CrashIff(content, 0, ends, 0);
    if Run(content, 0, ends, 0) != Crashed {
      ChunkInsensitive(content, 0, ends, 0);
      TokensConcat(content, 0, ends, 0);
    }
  }

  /** The condition is needed: a well-formed file of which a short read ends right after its separating comma makes the
      scan panic, although the same file in one piece is scanned. */
  lemma CutAtSeparatorCrashes()
    ensures Run("[{},{}]", 0, [4, 7], 0) == Crashed && Whole("[{},{}]", 0) != Crashed
  {
    var file := "[{},{}]";
    CrashIff(file, 0, [4, 7], 0);
    CrashIff(file, 0, [7], 0);
    assert [4, 7][0] == 4 && file[3] == ',';
  }
}
