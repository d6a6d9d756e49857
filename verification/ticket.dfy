/** `generate_Code_Text`, `generate_Jira_Text` and the ticket description
    built around them. */
module Ticket {
  import opened Base
  import opened PyText
  import opened Report
  import opened Markers
  import opened Source
  import opened Annotation

  /** The first line of a marker's code block: its anchor, its number and its rows. */
  function CodeHeader(m: Marker): string
  {
    "{anchor:Msg" + NatToString(m.id) + "}(" + NatToString(m.id) + ") Code - refer to line "
      + IntToString(m.rows.first) + " to " + IntToString(m.rows.last) + " \n"
  }

  /** `generate_Code_Text`: the anchor line, then the excerpt around the
      marker's rows between `{code}` fences. */
  function CodeText(m: Marker, lines: seq<string>): (r: string)
    ensures CodeHeader(m) + "{code}\n" <= r
    ensures 0 <= m.rows.last + 5 && Max(0, m.rows.first - 5) <= Min(|lines|, m.rows.last + 5) ==>
              r == CodeHeader(m) + "{code}\n" + Join(lines[Max(0, m.rows.first - 5)..Min(|lines|, m.rows.last + 5)])
                   + "\n{code}\n\n"
  {
    CodeHeader(m) + "{code}\n" + Excerpt(m.rows.first, m.rows.last, lines) + "\n{code}\n\n"
  }

  /** When a marker's rows name lines of the file, its code block quotes the
      lines from four above the first row (five above in 0-based indices) to
      five below the last, cut at the ends of the file, so every row is shown. */
  lemma CodeTextQuotesRows(m: Marker, lines: seq<string>)
    requires 1 <= m.rows.first <= m.rows.last <= |lines|
    ensures var lo, hi := Max(0, m.rows.first - 5), Min(|lines|, m.rows.last + 5);
      && lo < m.rows.first && m.rows.last <= hi
      && CodeText(m, lines) == CodeHeader(m) + "{code}\n" + Join(lines[lo..hi]) + "\n{code}\n\n"
  {
  }

  /** One code block per marker, in list order. */
  function CodeBlocks(ms: seq<Marker>, lines: seq<string>): string
  {
    if ms == [] then [] else CodeBlocks(ms[..|ms| - 1], lines) + CodeText(ms[|ms| - 1], lines)
  }

  /** Appending the block of marker i extends the blocks of the markers before it. */
  lemma CodeBlocksStep(head: string, ms: seq<Marker>, i: nat, lines: seq<string>)
    requires i < |ms|
    ensures head + CodeBlocks(ms[..i + 1], lines) == (head + CodeBlocks(ms[..i], lines)) + CodeText(ms[i], lines)
  {
    assert ms[..i + 1][..i] == ms[..i];
    ConcatAssociates(head, CodeBlocks(ms[..i], lines), CodeText(ms[i], lines));
  }

  /** The repository and file lines and the label of the suggestion line. */
  function HeadingPrefix(repo: string, file: string): string
  {
    "*Repository:* " + repo + "\n" + "*File:* " + file + "\n\n" + "*Suggestion:* "
  }

  /** The repository, file and annotated-message lines at the top of the text. */
  function Heading(repo: string, file: string, suggestion: string): string
  {
    HeadingPrefix(repo, file) + suggestion + "\n\n"
  }

  /** What `generate_Jira_Text` returns, stated without its in-place sorts: the
      message annotated in descending order of span start, and the code blocks
      in ascending order of span start with ties in marker order. */
  function JiraTextOf(finding: Finding, lines: seq<string>, repo: string): (r: Result<string>)
    ensures r.Success? <==> forall k :: 0 <= k < |finding.occurrence.markers| ==> WellFormed(finding.occurrence.markers[k])
    ensures r.Failure? ==> r.error == MalformedMarker
    ensures r.Success? ==> HeadingPrefix(repo, finding.file) <= r.value
  {
    var raws := finding.occurrence.markers;
    if forall k :: 0 <= k < |raws| ==> WellFormed(raws[k]) then
      var ms := MarkersOf(raws);
      var prefix := HeadingPrefix(repo, finding.file);
      var annotated := AnnotateAll(finding.suggestion.message, Sort(ms, Descending));
      var blocks := CodeBlocks(Sort(ms, Ascending), lines);
      ConcatAssociates(prefix, annotated, "\n\n");
      ConcatAssociates(prefix, annotated + "\n\n", blocks);
      PrefixOfConcat(prefix, (annotated + "\n\n") + blocks);
      Success(Heading(repo, finding.file, annotated) + blocks)
    else
      Failure(MalformedMarker)
  }

  /** `generate_Jira_Text` (lines 140-148). The repository URL, a global
      setting in the script, is a parameter. */
  method JiraText(finding: Finding, lines: seq<string>, repo: string) returns (r: Result<string>)
    ensures r == JiraTextOf(finding, lines, repo)
  {
    var output := "*Repository:* " + repo + "\n";
    output := output + "*File:* " + finding.file + "\n\n";
    var extracted := ExtractMarkers(finding.occurrence.markers);
    if extracted.Failure? {
      return Failure(MalformedMarker);
    }
    var ms := extracted.value;
    assert ms == MarkersOf(finding.occurrence.markers);
    var markers := new Marker[|ms|](k requires 0 <= k < |ms| => ms[k]);
    assert markers[..] == ms;
    var suggestion := SuggestionText(finding, markers);
    output := output + "*Suggestion:* " + suggestion + "\n\n";
    assert output == Heading(repo, finding.file, suggestion);
    SortInPlace(markers, Ascending);
    ResortForgetsFirstSort(ms, Descending, Ascending);
    output := AppendCodeBlocks(output, markers[..], lines);
    return Success(output);
  }

  /** The loop at lines 145-147: one code block appended per marker, in list order. */
  method AppendCodeBlocks(head: string, blocks: seq<Marker>, lines: seq<string>) returns (output: string)
    ensures output == head + CodeBlocks(blocks, lines)
  {
    output := head;
    var i := 0;
    while i < |blocks|
      invariant 0 <= i <= |blocks|
      invariant output == head + CodeBlocks(blocks[..i], lines)
    {
      CodeBlocksStep(head, blocks, i, lines);
      output := output + CodeText(blocks[i], lines);
      i := i + 1;
    }
    assert blocks[..i] == blocks;
  }

  /** When generate_Markers numbers the markers, code blocks come out as an
      ordered permutation of them: ascending span start, ties by marker id. */
  lemma CodeBlockOrder(raws: seq<RawMarker>)
    requires forall k :: 0 <= k < |raws| ==> WellFormed(raws[k])
    ensures var blocks := Sort(MarkersOf(raws), Ascending);
      && multiset(blocks) == multiset(MarkersOf(raws))
      && (forall i, j :: 0 <= i < j < |blocks| ==> blocks[i].msg.first <= blocks[j].msg.first)
      && (forall i, j :: 0 <= i < j < |blocks| && blocks[i].msg.first == blocks[j].msg.first ==> blocks[i].id < blocks[j].id)
  {
    var ms := MarkersOf(raws);
    SortFacts(ms, Ascending);
    SortTiesById(ms, Ascending);
  }

  /** The fixed heading of the ticket description (line 188). */
  const Title := "h1. DeepCode Scan - Automatically Generated Ticket\n\n"

  /** The ticket description: the title followed by `generate_Jira_Text`. */
  method TicketDescription(finding: Finding, lines: seq<string>, repo: string) returns (r: Result<string>)
    ensures r.Success? <==> JiraTextOf(finding, lines, repo).Success?
    ensures r.Failure? ==> r.error == MalformedMarker
    ensures r.Success? ==> r.value == Title + JiraTextOf(finding, lines, repo).value
  {
    var text := JiraText(finding, lines, repo);
    if text.Failure? {
      return text;
    }
    return Success(Title + text.value);
  }
}
