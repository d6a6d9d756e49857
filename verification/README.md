# suggestion_to_jira: the report-to-ticket text pipeline

This project models how `suggestion_to_jira.py` turns a DeepCode scan report
into the description of a JIRA ticket. The model has four parts.

- **Selecting the finding.** `results.files` maps each file to its finding-type
  keys, and each key to a list of occurrences. This is flattened into one
  record per (file, key) pair. Each record holds the pair's first occurrence,
  the key's entry from `results.suggestions` and the file path. One record is
  then picked by severity.
- **The source file.** Its lines are numbered `n:`. An excerpt is cut around
  the rows a marker points at.
- **Markers.** Each marker of the chosen occurrence becomes a numbered
  `[id, msg, cols, rows]` entry.
- **The ticket text.** The message is annotated with an inline reference per
  marker, with markers taken by descending span start. Then one `{code}` block
  follows per marker, by ascending span start. The fixed title
  `h1. DeepCode Scan - Automatically Generated Ticket` goes in front.

Decoded JSON objects are sequences of (key, value) pairs, so dictionary
iteration order is explicit. The script exits on malformed input, either
through its `except` clause or through an uncaught `KeyError`/`IndexError`.
The model returns a `Failure` result on these paths:
- `results.files` is missing;
- a key under a file has an empty occurrence list, or `results.suggestions`
  is missing or has no entry for that key;
- a flattened record has no `severity`;
- a marker's `msg`, `cols` or `rows` has fewer than two entries, or its `pos`
  list is empty.
Missing keys that the typed records cannot express are listed under
"Left out".

Modules:
- `Base`: Option, Result and error kinds.
- `PyText`: Python's `str(int)`, slicing and `"".join`.
- `Report`: flattening and selection.
- `Source`: decoration and excerpts.
- `Markers`: marker extraction and the stable list sort.
- `Annotation`: message annotation.
- `Ticket`: code blocks, the ticket text and the title.

Facts about the code that the model reflects:
- The excerpt window starts five indices, so four lines, above the first row. Rows (10, 10) of a 20-line file give the lines numbered 6 to 15, because the slice `[5:15]` covers indices 5 to 14.
- Code blocks are ordered by the start of each marker's message span (line 145), with ties kept in marker order. Marker numbers themselves play no part in that order.
- In the message "Unsafe call at X" the character `X` is at offset 15, so `Annotation.AnnotationExample` uses the span (15, 15).
- The severity scan returns the last record rated above zero, not the most severe one (see Findings). `Report.RetrieveTopSuggestion` models that; `Report.RetrieveMostSevere` is the corrected function.

## Model

| member | source | states |
|---|---|---|
| Report.Find | suggestion_to_jira.py:82 | dictionary lookup: None exactly when no entry has the key, otherwise the value of the last entry with that key, as a decoded JSON object keeps it |
| Report.FlattenedIsOnePerSlot | suggestion_to_jira.py:78-84 | flattening succeeds exactly when `results.files` exists and every (file, key) pair has an occurrence and metadata; it then yields one record per pair, in iteration order: the first occurrence, the key's metadata and the path |
| Report.EntryFindingsPerSlot | suggestion_to_jira.py:80-84 | the same, for the keys of one file |
| Report.FilesFindingsPerSlot | suggestion_to_jira.py:78-84 | the same, for a list of files, records of earlier files first |
| Report.Flatten | suggestion_to_jira.py:77-84 | the nested loops compute exactly the flattened list or its error |
| Report.EntryRecords | suggestion_to_jira.py:80-84 | the inner loop computes one file's records, failing with a malformed-report error on an empty occurrence list or unknown key |
| Report.LastPositive | suggestion_to_jira.py:86-90 | the index found holds a record with severity above 0 and no later record has one; None exactly when no record has one |
| Report.SelectTop | suggestion_to_jira.py:86-93 | the scan as written fails exactly when some record has no severity, and otherwise returns the last record with severity above 0, or nothing |
| Report.SelectionIsNotMaximum | suggestion_to_jira.py:87-90 | for records of severity 5 then 1, the scan as written returns the second, which is not the most severe |
| Report.SelectHighest | suggestion_to_jira.py:86-90 | the corrected scan returns nothing when no severity is positive, otherwise the first record of maximal positive severity; it fails exactly when some record has no severity |
| Report.RetrieveTopSuggestion | suggestion_to_jira.py:74-94 | as written: fails exactly when flattening fails or a flattened record lacks a severity; otherwise returns the last flattened record with severity above 0, or nothing |
| Report.RetrieveMostSevere | suggestion_to_jira.py:74-94 | corrected: the same failure cases; otherwise returns the first flattened record of maximal positive severity, or nothing when no severity is positive |
| PyText.ParseNatToString | suggestion_to_jira.py:101 | reading back the digits of a line number gives the number |
| PyText.NatToStringDigits | suggestion_to_jira.py:101 | a line number is written as one or more decimal digits |
| PyText.NatToStringNoLeadingZero | suggestion_to_jira.py:101 | `str(n)` of a positive number does not start with `0`, so each number has one spelling |
| PyText.IntToStringSpelling | suggestion_to_jira.py:136 | `str(i)` of a row number is a minus sign exactly when i is negative, then the digits of its magnitude, which read back as that magnitude |
| PyText.JoinAppend | suggestion_to_jira.py:113 | `"".join` of two runs of parts is the join of each, concatenated |
| PyText.JoinPart | suggestion_to_jira.py:113 | in `"".join(parts)` every part appears whole, after the join of the parts before it and before the join of the parts after it |
| PyText.SliceIndex | suggestion_to_jira.py:132 | a slice bound resolves into [0, n]: in-range bounds are kept, negative ones count from the end, bounds above n clamp to n and bounds below -n clamp to 0 |
| PyText.Slice | suggestion_to_jira.py:132 | a slice never fails and is never longer than its sequence; for in-range bounds it is the plain subsequence, an end past the length gives the rest of the sequence, and crossed bounds give the empty sequence |
| Source.Decorate | suggestion_to_jira.py:96-104 | line count is preserved and line i becomes `str(i+1) + ":" + line` |
| Source.UndecorateLine | suggestion_to_jira.py:101 | a decorated line gives back its number and its original text, whatever the text holds |
| Source.ExcerptWindow | suggestion_to_jira.py:106-112 | the window lies within the file, is `[max(0, start-5), min(n, end+5))` when that is non-empty, spans at most `end-start+10` lines, and covers rows start..end when they are lines of the file |
| Source.Excerpt | suggestion_to_jira.py:106-113 | the excerpt is the concatenation of the lines from index `max(0, start-5)` up to `min(n, end+5)`, and empty when those bounds cross (for `end+5 >= 0`) |
| Source.ExcerptAroundRowTen | suggestion_to_jira.py:106-113 | rows (10, 10) of a 20-line decorated file give the lines numbered 6 to 15 |
| Markers.ExtractMarkers | suggestion_to_jira.py:115-126 | fails exactly when a marker lacks a pair; otherwise one entry per marker in order, entry k numbered k with spans copied from `msg`, `pos[0].cols`, `pos[0].rows` |
| Markers.Sort | suggestion_to_jira.py:130 | `list.sort` by span start, ascending or with `reverse=True`: the result is ordered and a permutation of the input |
| Markers.SortFacts | suggestion_to_jira.py:130 | the sort returns an ordered permutation that keeps markers with equal span starts in their original order |
| Markers.OrderedUnique | suggestion_to_jira.py:130 | two ordered lists holding the same markers per span start, in the same relative order, are equal |
| Markers.ResortForgetsFirstSort | suggestion_to_jira.py:145 | re-sorting the already sorted list gives what sorting the original list gives |
| Markers.SortTiesById | suggestion_to_jira.py:145 | sorting markers numbered in list order keeps ties in id order |
| Markers.SortInPlace | suggestion_to_jira.py:130 | the caller's array afterwards holds the sorted list |
| Annotation.Annotate | suggestion_to_jira.py:132 | for an in-bounds span, the result is `msg[:s] + "(id) [" + msg[s..e] + "\|#Msg" + id + "]" + msg[e+1:]`; for any start within the text, the text before it is kept and the result grows |
| Annotation.AnnotateAll | suggestion_to_jira.py:131-132 | the rewrite loop: when every start lies within the message, every marker adds text, so the result is at least as long as the message plus one character per marker (what is kept is stated by PrefixUnchanged and AnnotateAllIsInterleaved) |
| Annotation.PrefixUnchanged | suggestion_to_jira.py:131-132 | text before every marker's start survives all rewrites unchanged |
| Annotation.AnnotateAllIsInterleaved | suggestion_to_jira.py:131-132 | rewriting non-overlapping spans from right to left gives the direct interleaving of the untouched pieces and the tags |
| Annotation.SortDescendingChains | suggestion_to_jira.py:130 | sorting in-bounds, non-overlapping spans by descending start lists them from right to left |
| Annotation.AnnotationOfDisjointSpans | suggestion_to_jira.py:128-133 | for in-bounds, non-overlapping spans given in any order, the annotated message is the direct interleaving |
| Annotation.AnnotationExample | suggestion_to_jira.py:132 | "Unsafe call at X" with marker 0 on "X" becomes "Unsafe call at (0) [X\|#Msg0]" |
| Annotation.SuggestionText | suggestion_to_jira.py:128-133 | the caller's markers end up sorted by descending start, and the text is the message rewritten once per marker in that order |
| Ticket.CodeText | suggestion_to_jira.py:135-138 | a code block starts with the `{anchor:Msg<id>}` line and the opening `{code}` fence, and holds the lines from index `max(0, r0-5)` up to `min(n, r1+5)` before the closing fence |
| Ticket.CodeTextQuotesRows | suggestion_to_jira.py:135-138 | when the marker's rows are lines of the file, the block quotes exactly the lines from index `max(0, r0-5)` to `min(n, r1+5)`, which include every row |
| Ticket.AppendCodeBlocks | suggestion_to_jira.py:146-147 | the loop appends one code block per marker, in list order |
| Ticket.JiraTextOf | suggestion_to_jira.py:140-148 | the ticket text exists exactly when every marker is well formed, and then starts with the repository line, the file line and the suggestion label |
| Ticket.JiraText | suggestion_to_jira.py:140-148 | fails exactly when a marker is malformed; otherwise the repository, file and annotated-message lines, then one block per marker by ascending span start |
| Ticket.CodeBlockOrder | suggestion_to_jira.py:145-147 | the code blocks are a permutation of the markers, ordered by ascending span start, with ties by marker number |
| Ticket.TicketDescription | suggestion_to_jira.py:188 | the ticket description is the fixed title followed by the ticket text, and fails when it fails |

## Left out

- The JIRA connection and `create_issue` (lines 161-166, 199-201) are left out: they are network I/O.
- Cloning the repository and `read_file` (lines 69-72, 183-184) are left out: the numbered source lines are a parameter.
- `load_json` and `load_demo_json` (lines 53-67) are left out: the model starts from a decoded report.
- A missing `markers` key (line 119) is not modelled: an `Occurrence` always holds a marker list, and `Occurrence([])` yields no markers where the script raises `KeyError`.
- A missing `msg` or `pos` key on a marker (lines 120-122) is not modelled: `RawMarker` always holds both. The same holds for `cols` and `rows` in `Position`.
- A missing `message` key (line 129) is not modelled: `Metadata` always holds a message.
- JSON values of other types than the typed fields (a string where a list is expected, say) are not modelled.
- Report.Find: a repeated key in `results.suggestions` resolves to its last entry as in Python, but a file or key repeated in `results.files` is visited once per entry, where a decoded dictionary would visit it once.
- The `rd /s /Q` cleanup (lines 171-173) is left out: it is a shell side effect.
- `urllib.parse.unquote` in the ticket summary (line 193) is left out: it is library code that is not shown.
- Logging, `sys.exit` and `os._exit` are not modelled; each fatal path is a `Failure` result.
- The global configuration is not modelled; the repository URL is a parameter.
- The crash at line 184 when no finding is selected (`{}` has no `file`) is not modelled: the rendering starts from a chosen finding.
- Severities that are not integers are not modelled. A missing severity is the `KeyError` caught at line 91.
- Python's sort algorithm is not modelled; `list.sort` is specified by a stable insertion sort, which gives the same result.
- Markers.SortInPlace: copies the sorted list into the array rather than permuting it step by step.
- The column pair of a marker is extracted but never used by the script, so no property is stated about it.
- Source.ExcerptWindow: the line-count bound is stated only for `rowEnd + 5 >= 0`. Below that, Python's negative slice end counts from the end of the file.

## Findings

| source | as written | input that shows it | evidently intended | confidence | as-written member | corrected member |
|---|---|---|---|---|---|---|
| suggestion_to_jira.py:87-90 | `highest_severity` stays 0, so every record with positive severity replaces the previous choice, and the last one wins | two records with severities 5 then 1: the record with severity 1 is selected | select the record of highest severity | not executed | Report.SelectionIsNotMaximum | Report.SelectHighest |
