/** Trimming and searching of text, as Go's strings and bytes packages do it. */
module Text {
  function TrimRight(s: string, cut: string): (r: string)
    ensures r <= s
    ensures r == [] || r[|r| - 1] !in cut
  {
    if s != [] && s[|s| - 1] in cut then TrimRight(s[..|s| - 1], cut) else s
  }

  function Trim(s: string, cut: string): (r: string)
    ensures s != [] && s[0] !in cut ==> r <= s
  {
    if s != [] && s[0] in cut then Trim(s[1..], cut)
    else if s != [] && s[|s| - 1] in cut then Trim(s[..|s| - 1], cut)
    else s
  }

  /** Where the trimmed text lies in the text. */
  function TrimBounds(s: string, cut: string): (b: (nat, nat))
    ensures b.0 <= b.1 <= |s| && s[b.0..b.1] == Trim(s, cut)
  {
    if s != [] && s[0] in cut then
      var b := TrimBounds(s[1..], cut);
      assert s[1..][b.0..b.1] == s[b.0 + 1..b.1 + 1];
      (b.0 + 1, b.1 + 1)
    else if s != [] && s[|s| - 1] in cut then
      var b := TrimBounds(s[..|s| - 1], cut);
      assert s[..|s| - 1][b.0..b.1] == s[b.0..b.1];
      b
    else (0, |s|)
  }

  /** `,{` starts at position `i`: what the splitter of the backup file looks for. */
  predicate SepAt(s: string, i: int) {
    0 <= i < |s| - 1 && s[i] == ',' && s[i + 1] == '{'
  }

  ghost predicate HasSep(s: string) {
    exists i :: SepAt(s, i)
  }

  /** A separator in a concatenation lies in one part or across the seam. */
  lemma SepOfConcat(a: string, b: string)
    ensures HasSep(a + b) <==>
            HasSep(a) || HasSep(b) || (a != [] && b != [] && a[|a| - 1] == ',' && b[0] == '{')
  {
    var s := a + b;
    if i :| SepAt(s, i) {
      if i + 1 < |a| {
        assert SepAt(a, i);
      } else if i >= |a| {
        assert SepAt(b, i - |a|);
      }
    }
    if i :| SepAt(a, i) {
      assert SepAt(s, i);
    }
    if i :| SepAt(b, i) {
      assert SepAt(s, |a| + i);
    }
    if a != [] && b != [] && a[|a| - 1] == ',' && b[0] == '{' {
      assert SepAt(s, |a| - 1);
    }
  }
}
