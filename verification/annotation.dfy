/** `generate_Suggestion_Text`: the finding's message with every marker's span
    wrapped in an inline reference to its code block. */
module Annotation {
  import opened PyText
  import opened Report
  import opened Markers

  /** The reference written around a highlighted span: `(<id>) [<highlight>|#Msg<id>]`. */
  function Tag(id: nat, highlight: string): string
  {
    "(" + NatToString(id) + ") [" + highlight + "|#Msg" + NatToString(id) + "]"
  }

  /** One pass of the loop at lines 131-132 on the current text, with Python's
      slicing: `text[:s]`, `text[s:e+1]` and `text[e+1:]` for the span (s, e). */
  function Annotate(text: string, m: Marker): (r: string)
    ensures 0 <= m.msg.first <= |text| ==> |r| > |text| && r[..m.msg.first] == text[..m.msg.first]
    ensures 0 <= m.msg.first <= m.msg.last < |text| ==>
              r == text[..m.msg.first] + Tag(m.id, text[m.msg.first..m.msg.last + 1]) + text[m.msg.last + 1..]
  {
    var s, e := m.msg.first, m.msg.last;
    var head, tail := Slice(text, 0, s), Slice(text, e + 1, |text|);
    assert |head| == SliceIndex(s, |text|) && tail == text[SliceIndex(e + 1, |text|)..];
    head + Tag(m.id, Slice(text, s, e + 1)) + tail
  }

  /** The loop at lines 131-132: markers applied one after another, in list order. */
  function AnnotateAll(text: string, ms: seq<Marker>): (r: string)
    ensures (forall k :: 0 <= k < |ms| ==> 0 <= ms[k].msg.first <= |text|) ==> |r| >= |text| + |ms|
    decreases |ms|
  {
    if ms == [] then text
    else
      assert forall k :: 0 <= k < |ms| - 1 ==> ms[1..][k] == ms[k + 1];
      AnnotateAll(Annotate(text, ms[0]), ms[1..])
  }

  /** Text before every marker's start is left as it was, provided each start
      lies within the original message. */
  lemma {:induction false} PrefixUnchanged(text: string, ms: seq<Marker>, bound: nat)
    requires bound <= |text|
    requires forall k :: 0 <= k < |ms| ==> bound <= ms[k].msg.first <= |text|
    ensures |AnnotateAll(text, ms)| >= |text|
    ensures AnnotateAll(text, ms)[..bound] == text[..bound]
    decreases |ms|
  {
    if ms != [] {
      var next := Annotate(text, ms[0]);
      assert next[..bound] == next[..ms[0].msg.first][..bound];
      PrefixUnchanged(next, ms[1..], bound);
    }
  }

  predicate InBounds(text: string, m: Marker)
  {
    0 <= m.msg.first <= m.msg.last < |text|
  }

  predicate AllInBounds(text: string, ms: seq<Marker>)
  {
    forall k :: 0 <= k < |ms| ==> InBounds(text, ms[k])
  }

  /** Each span lies wholly before every span listed ahead of it. */
  predicate RightToLeft(ms: seq<Marker>)
  {
    forall i, j :: 0 <= i < j < |ms| ==> ms[j].msg.last < ms[i].msg.first
  }

  /** Spans within the text, listed from the rightmost to the leftmost, not overlapping. */
  predicate Chained(text: string, ms: seq<Marker>)
  {
    AllInBounds(text, ms) && RightToLeft(ms)
  }

  /** What is left after the first (rightmost) span is still chained, within
      the text before that span. */
  lemma ChainedTail(text: string, ms: seq<Marker>)
    requires Chained(text, ms) && ms != []
    ensures Chained(text[..ms[0].msg.first], ms[1..])
  {
    var tail, s := ms[1..], ms[0].msg.first;
    forall i, j | 0 <= i < j < |tail| ensures tail[j].msg.last < tail[i].msg.first {
      assert tail[i] == ms[i + 1] && tail[j] == ms[j + 1];
    }
    forall k | 0 <= k < |tail| ensures InBounds(text[..s], tail[k]) {
      assert tail[k] == ms[k + 1];
    }
  }

  /** The annotated message written out directly: the untouched pieces of the
      original message, in order, with each highlighted span wrapped in its tag. */
  function Interleaved(text: string, ms: seq<Marker>): string
    requires Chained(text, ms)
    decreases |ms|
  {
    if ms == [] then text
    else
      var s, e := ms[0].msg.first, ms[0].msg.last;
      ChainedTail(text, ms);
      Interleaved(text[..s], ms[1..]) + Tag(ms[0].id, text[s..e + 1]) + text[e + 1..]
  }

  lemma InterleavedStep(text: string, ms: seq<Marker>)
    requires Chained(text, ms) && ms != []
    ensures Interleaved(text, ms)
            == Interleaved(text[..ms[0].msg.first], ms[1..])
               + Tag(ms[0].id, text[ms[0].msg.first..ms[0].msg.last + 1]) + text[ms[0].msg.last + 1..]
  {
  }

  /** Text appended after all spans is carried along untouched. */
  lemma {:induction false} AnnotateIgnoresSuffix(p: string, x: string, ms: seq<Marker>)
    requires forall k :: 0 <= k < |ms| ==> InBounds(p, ms[k])
    ensures AnnotateAll(p + x, ms) == AnnotateAll(p, ms) + x
    decreases |ms|
  {
    if ms != [] {
      var next := Annotate(p, ms[0]);
      AnnotateOneIgnoresSuffix(p, x, ms[0]);
      assert forall k :: 0 <= k < |ms| - 1 ==> ms[1..][k] == ms[k + 1];
      AnnotateIgnoresSuffix(next, x, ms[1..]);
    }
  }

  /** One rewrite of an in-bounds span does not look past the text it covers. */
  lemma AnnotateOneIgnoresSuffix(p: string, x: string, m: Marker)
    requires InBounds(p, m)
    ensures Annotate(p + x, m) == Annotate(p, m) + x
  {
    var s, e := m.msg.first, m.msg.last;
    var q := p + x;
    var head, tail := Slice(p, 0, s), Slice(p, e + 1, |p|);
    var tag := Tag(m.id, Slice(p, s, e + 1));
    assert Slice(q, 0, s) == head && Slice(q, s, e + 1) == Slice(p, s, e + 1);
    assert Slice(q, e + 1, |q|) == tail + x;
    ConcatAssociates(head + tag, tail, x);
  }

  /** Processing spans from the rightmost leftwards keeps every offset valid:
      the rewritten text is exactly the direct interleaving. */
  lemma {:induction false} AnnotateAllIsInterleaved(text: string, ms: seq<Marker>)
    requires Chained(text, ms)
    ensures AnnotateAll(text, ms) == Interleaved(text, ms)
    decreases |ms|
  {
    if ms != [] {
      var m := ms[0];
      var s, e := m.msg.first, m.msg.last;
      var prefix, tag, after := text[..s], Tag(m.id, text[s..e + 1]), text[e + 1..];
      assert InBounds(text, m);
      var rest := tag + after;
      ConcatAssociates(prefix, tag, after);
      assert AnnotateAll(text, ms) == AnnotateAll(prefix + rest, ms[1..]);
      ChainedTail(text, ms);
      AnnotateIgnoresSuffix(prefix, rest, ms[1..]);
      AnnotateAllIsInterleaved(prefix, ms[1..]);
      var inner := Interleaved(prefix, ms[1..]);
      InterleavedStep(text, ms);
      ConcatAssociates(inner, tag, after);
    }
  }

  /** No two spans overlap. */
  predicate Disjoint(ms: seq<Marker>)
  {
    forall i, j :: 0 <= i < |ms| && 0 <= j < |ms| && i != j ==>
      ms[i].msg.last < ms[j].msg.first || ms[j].msg.last < ms[i].msg.first
  }

  lemma {:induction false} InsertRightToLeft(x: Marker, s: seq<Marker>)
    requires RightToLeft(s) && x.msg.first <= x.msg.last
    requires forall k :: 0 <= k < |s| ==> s[k].msg.first <= s[k].msg.last
    requires forall y :: y in s ==> y.msg.last < x.msg.first || x.msg.last < y.msg.first
    ensures RightToLeft(Insert(x, s, Descending))
    decreases |s|
  {
    if s == [] || !Precedes(s[0], x, Descending) {
      BeforeNewSpan(x, s);
      RightToLeftCons(x, s);
    } else {
      var t := s[1..];
      assert s == [s[0]] + t;
      RightToLeftTail(s[0], t);
      InsertRightToLeft(x, t);
      InsertMembers(x, t, Descending);
      BeforeHead(x, s);
      RightToLeftCons(s[0], Insert(x, t, Descending));
    }
  }

  /** When x starts at or after the first span of a right-to-left list and
      overlaps none, every span of the list lies before x. */
  lemma BeforeNewSpan(x: Marker, s: seq<Marker>)
    requires RightToLeft(s) && x.msg.first <= x.msg.last
    requires s != [] ==> s[0].msg.first <= x.msg.first
    requires forall y :: y in s ==> y.msg.last < x.msg.first || x.msg.last < y.msg.first
    ensures forall y :: y in s ==> y.msg.last < x.msg.first
  {
    forall y | y in s ensures y.msg.last < x.msg.first {
      var k :| 0 <= k < |s| && s[k] == y;
      assert k > 0 ==> s[k].msg.last < s[0].msg.first;
    }
  }

  /** When x starts before the first span of a right-to-left list and overlaps
      none, x and the rest of the list lie before that first span. */
  lemma BeforeHead(x: Marker, s: seq<Marker>)
    requires RightToLeft(s) && s != [] && x.msg.first < s[0].msg.first
    requires s[0].msg.first <= s[0].msg.last
    requires s[0].msg.last < x.msg.first || x.msg.last < s[0].msg.first
    ensures forall y :: y in [x] + s[1..] ==> y.msg.last < s[0].msg.first
  {
    forall y | y in [x] + s[1..] ensures y.msg.last < s[0].msg.first {
      if y != x {
        var k :| 0 <= k < |s| - 1 && s[1..][k] == y;
        assert s[k + 1] == y;
      }
    }
  }

  /** A span put in front keeps the list right to left when it lies after every later span. */
  lemma RightToLeftCons(x: Marker, s: seq<Marker>)
    requires RightToLeft(s)
    requires forall y :: y in s ==> y.msg.last < x.msg.first
    ensures RightToLeft([x] + s)
  {
    var r := [x] + s;
    forall i, j | 0 <= i < j < |r| ensures r[j].msg.last < r[i].msg.first {
      assert r[j] == s[j - 1];
      if i > 0 {
        assert r[i] == s[i - 1];
      } else {
        assert r[j] in s;
      }
    }
  }

  lemma RightToLeftTail(x: Marker, t: seq<Marker>)
    requires RightToLeft([x] + t)
    ensures RightToLeft(t)
  {
    forall i, j | 0 <= i < j < |t| ensures t[j].msg.last < t[i].msg.first {
      assert t[i] == ([x] + t)[i + 1] && t[j] == ([x] + t)[j + 1];
    }
  }


  /** Sorting disjoint in-bounds spans by descending start chains them. */
  lemma {:induction false} SortDescendingChains(text: string, ms: seq<Marker>)
    requires forall k :: 0 <= k < |ms| ==> InBounds(text, ms[k])
    requires Disjoint(ms)
    ensures Chained(text, Sort(ms, Descending))
    decreases |ms|
  {
    if ms != [] {
      var t := ms[1..];
      DisjointTail(ms);
      assert forall k :: 0 <= k < |t| ==> t[k] == ms[k + 1];
      SortDescendingChains(text, t);
      var st := Sort(t, Descending);
      SortedTailBesideHead(text, ms);
      InsertRightToLeft(ms[0], st);
      InsertMembers(ms[0], st, Descending);
      var r := Sort(ms, Descending);
      forall k | 0 <= k < |r| ensures InBounds(text, r[k]) {
        assert r[k] in r;
      }
    }
  }

  lemma DisjointTail(ms: seq<Marker>)
    requires Disjoint(ms) && ms != []
    ensures Disjoint(ms[1..])
  {
    var t := ms[1..];
    forall i, j | 0 <= i < |t| && 0 <= j < |t| && i != j
      ensures t[i].msg.last < t[j].msg.first || t[j].msg.last < t[i].msg.first
    {
      assert t[i] == ms[i + 1] && t[j] == ms[j + 1];
    }
  }

  /** Every marker of the sorted tail lies in the text and does not overlap the head. */
  lemma SortedTailBesideHead(text: string, ms: seq<Marker>)
    requires forall k :: 0 <= k < |ms| ==> InBounds(text, ms[k])
    requires Disjoint(ms) && ms != []
    ensures forall y :: y in Sort(ms[1..], Descending) ==>
              InBounds(text, y) && (y.msg.last < ms[0].msg.first || ms[0].msg.last < y.msg.first)
  {
    var t := ms[1..];
    var st := Sort(t, Descending);
    forall y | y in st
      ensures InBounds(text, y)
      ensures y.msg.last < ms[0].msg.first || ms[0].msg.last < y.msg.first
    {
      assert y in multiset(st);
      var k :| 0 <= k < |t| && t[k] == y;
      assert ms[k + 1] == y;
    }
  }


  /** For markers whose spans lie within the message and do not overlap, in any
      order, sorting by descending start and then rewriting yields the direct
      interleaving: the unhighlighted text survives unchanged and in order. */
  lemma AnnotationOfDisjointSpans(text: string, ms: seq<Marker>)
    requires forall k :: 0 <= k < |ms| ==> InBounds(text, ms[k])
    requires Disjoint(ms)
    ensures Chained(text, Sort(ms, Descending))
    ensures AnnotateAll(text, Sort(ms, Descending)) == Interleaved(text, Sort(ms, Descending))
  {
    SortDescendingChains(text, ms);
    AnnotateAllIsInterleaved(text, Sort(ms, Descending));
  }

  /** The example of a message "Unsafe call at X" with one marker on "X". */
  lemma AnnotationExample(text: string, m: Marker)
    requires text == "Unsafe call at X" && m == Marker(0, Span(15, 15), Span(15, 15), Span(10, 10))
    ensures AnnotateAll(text, [m]) == "Unsafe call at (0) [X|#Msg0]"
  {
    var r := Annotate(text, m);
    assert r == text[..15] + Tag(0, text[15..16]) + text[16..];
    assert text[..15] == "Unsafe call at " && text[15..16] == "X" && text[16..] == "";
    assert NatToString(0) == "0";
    assert AnnotateAll(text, [m]) == AnnotateAll(r, []);
  }

  /** `generate_Suggestion_Text` (lines 128-133): sorts the caller's list in place
      by descending span start, then rewrites the message once per marker. */
  method SuggestionText(finding: Finding, markers: array<Marker>) returns (text: string)
    modifies markers
    ensures markers[..] == Sort(old(markers[..]), Descending)
    ensures text == AnnotateAll(finding.suggestion.message, markers[..])
  {
    text := finding.suggestion.message;
    SortInPlace(markers, Descending);
    var i := 0;
    while i < markers.Length
      invariant 0 <= i <= markers.Length
      invariant AnnotateAll(text, markers[i..]) == AnnotateAll(finding.suggestion.message, markers[..])
    {
      assert markers[i..][0] == markers[i] && markers[i..][1..] == markers[i + 1..];
      text := Annotate(text, markers[i]);
      i := i + 1;
    }
  }
}
