/** `decorate_source` and `generate_source_excerpt`: numbering the lines of the
    scanned file and cutting the excerpt shown around a marker. */
module Source {
  import opened PyText

  /** `decorate_source`: each line prefixed with its 1-based number and a colon. */
  method Decorate(lines: seq<string>) returns (decorated: seq<string>)
    ensures |decorated| == |lines|
    ensures forall i :: 0 <= i < |lines| ==> decorated[i] == NatToString(i + 1) + ":" + lines[i]
  {
    decorated := [];
    var lineCounter := 1;
    var i := 0;
    while i < |lines|
      invariant 0 <= i <= |lines| && lineCounter == i + 1
      invariant |decorated| == i
      invariant forall k :: 0 <= k < i ==> decorated[k] == NatToString(k + 1) + ":" + lines[k]
    {
      decorated := decorated + [NatToString(lineCounter) + ":" + lines[i]];
      lineCounter := lineCounter + 1;
      i := i + 1;
    }
  }

  /** The index of the first ':' in s, or |s| when there is none. */
  function ColonIndex(s: string): (k: nat)
    ensures k <= |s|
    ensures forall i :: 0 <= i < k ==> s[i] != ':'
    ensures k < |s| ==> s[k] == ':'
  {
    if s == [] then 0 else if s[0] == ':' then 0 else 1 + ColonIndex(s[1..])
  }

  /** The number a decorated line starts with. */
  function LineNumber(decorated: string): nat
  {
    ParseNat(decorated[..ColonIndex(decorated)])
  }

  /** The text after the number and its colon. */
  function LineText(decorated: string): string
  {
    var k := ColonIndex(decorated);
    if k < |decorated| then decorated[k + 1..] else []
  }

  /** Decoration loses nothing: a decorated line gives back its number and its
      original text, whatever the text contains, since a number has no ':'. */
  lemma UndecorateLine(n: nat, line: string)
    ensures LineNumber(NatToString(n) + ":" + line) == n
    ensures LineText(NatToString(n) + ":" + line) == line
  {
    var digits := NatToString(n);
    var d := digits + ":" + line;
    var k := ColonIndex(d);
    NatToStringDigits(n);
    assert d[|digits|] == ':';
    assert k == |digits|;
    assert d[..k] == digits;
    assert d[k + 1..] == line;
    ParseNatToString(n);
  }

  function Max(a: int, b: int): int { if a < b then b else a }

  function Min(a: int, b: int): int { if a < b then a else b }

  /** The slice bounds `generate_source_excerpt` ends up using on n decorated
      lines: `Row_Start - 5` raised to 0, `Row_End + 5` lowered to n, then
      resolved as Python resolves `sourcecode[TheStart:TheEnd]`. */
  function ExcerptWindow(rowStart: int, rowEnd: int, n: nat): (w: (nat, nat))
    ensures w.0 <= w.1 <= n
    ensures 0 <= rowEnd + 5 && Max(0, rowStart - 5) <= Min(n, rowEnd + 5) ==>
              w == (Max(0, rowStart - 5), Min(n, rowEnd + 5))
    ensures 0 <= rowEnd + 5 ==> w.1 - w.0 <= Max(0, rowEnd - rowStart + 10)
    ensures 1 <= rowStart <= rowEnd <= n ==> w.0 < rowStart && rowEnd <= w.1
  {
    var theStart := if rowStart - 5 < 0 then 0 else rowStart - 5;
    var theEnd := if rowEnd + 5 > n then n else rowEnd + 5;
    var lo, hi := SliceIndex(theStart, n), SliceIndex(theEnd, n);
    if lo < hi then (lo, hi) else (lo, lo)
  }

  /** `generate_source_excerpt`: the lines of the window, joined unchanged.
      Unless `rowEnd + 5` is negative (a slice end counted from the back), that
      is the lines from index `max(0, rowStart - 5)` up to `min(n, rowEnd + 5)`,
      and nothing when those bounds cross. */
  function Excerpt(rowStart: int, rowEnd: int, lines: seq<string>): (r: string)
    ensures 0 <= rowEnd + 5 && Max(0, rowStart - 5) <= Min(|lines|, rowEnd + 5) ==>
              r == Join(lines[Max(0, rowStart - 5)..Min(|lines|, rowEnd + 5)])
    ensures 0 <= rowEnd + 5 && Min(|lines|, rowEnd + 5) < Max(0, rowStart - 5) ==> r == []
  {
    var w := ExcerptWindow(rowStart, rowEnd, |lines|);
    Join(lines[w.0..w.1])
  }

  /** Rows (10, 10) of a 20-line decorated file show the lines numbered 6 to 15. */
  lemma ExcerptAroundRowTen(source: seq<string>, decorated: seq<string>)
    requires |source| == 20 && |decorated| == 20
    requires forall i :: 0 <= i < 20 ==> decorated[i] == NatToString(i + 1) + ":" + source[i]
    ensures Excerpt(10, 10, decorated)
            == Join(seq(10, k requires 0 <= k < 10 => NatToString(k + 6) + ":" + source[k + 5]))
  {
    assert decorated[5..15] == seq(10, k requires 0 <= k < 10 => NatToString(k + 6) + ":" + source[k + 5]);
  }
}
