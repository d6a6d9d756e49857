/** `retrieve_top_suggestion`: flatten the decoded scan report into one record
    per (file, finding type) and pick the finding to file a ticket for. */
module Report {
  import opened Base

  /** The first entry of a marker's `pos` list: column and row pairs in the scanned file. */
  datatype Position = Position(cols: seq<int>, rows: seq<int>)

  /** A marker as decoded: `msg` is the character span it highlights in the message. */
  datatype RawMarker = RawMarker(msg: seq<int>, pos: seq<Position>)

  /** One occurrence of a finding type in a file; only `markers` is read downstream. */
  datatype Occurrence = Occurrence(markers: seq<RawMarker>)

  /** An entry of `results.suggestions`; a record without `severity` has `None`. */
  datatype Metadata = Metadata(message: string, severity: Option<int>, id: string)

  /** A decoded JSON object: its (key, value) pairs in document order. */
  type Table<V> = seq<(string, V)>

  /** The decoded report. `files` is `results.files`, None when it or `results`
      is absent; `suggestions` is `results.suggestions`, None when absent. */
  datatype ScanReport = ScanReport(
    files: Option<Table<Table<seq<Occurrence>>>>,
    suggestions: Option<Table<Metadata>>)

  /** A flattened record: a copy of an occurrence with its `suggestion` and `file` keys set. */
  datatype Finding = Finding(occurrence: Occurrence, suggestion: Metadata, file: string)

  /** Dictionary lookup: the value stored under key, if any. When a key is
      repeated the last entry wins, as it does when a JSON object is decoded. */
  function Find<V>(table: Table<V>, key: string): (r: Option<V>)
    ensures r.None? <==> forall k :: 0 <= k < |table| ==> table[k].0 != key
    ensures r.Some? ==> exists k :: 0 <= k < |table| && table[k] == (key, r.value)
                                    && forall j :: k < j < |table| ==> table[j].0 != key
    decreases |table|, 1
  {
    if table == [] then None
    else if table[|table| - 1].0 == key then Some(table[|table| - 1].1)
    else
      var init := table[..|table| - 1];
      FindInInit(table, key);
      Find(init, key)
  }

  /** A key missing from the last entry is found where it is found in the others. */
  lemma FindInInit<V>(table: Table<V>, key: string)
    requires table != [] && table[|table| - 1].0 != key
    ensures var init, r := table[..|table| - 1], Find(table[..|table| - 1], key);
      && ((forall k :: 0 <= k < |init| ==> init[k].0 != key) ==> forall k :: 0 <= k < |table| ==> table[k].0 != key)
      && (r.Some? ==> exists k :: 0 <= k < |table| && table[k] == (key, r.value)
                                  && forall j :: k < j < |table| ==> table[j].0 != key)
    decreases |table|, 0
  {
    var init, r := table[..|table| - 1], Find(table[..|table| - 1], key);
    if r.Some? {
      var k :| 0 <= k < |init| && init[k] == (key, r.value) && forall j :: k < j < |init| ==> init[j].0 != key;
      assert table[k] == init[k];
      forall j | k < j < |table| ensures table[j].0 != key {
        if j < |init| {
          assert table[j] == init[j];
        }
      }
    }
    forall k | 0 <= k < |init| ensures table[k] == init[k] { }
  }

  // ---------------------------------------------------------------------
  // Flattening (lines 77-84)

  /** The records one file contributes: for each finding-type key in order,
      its first occurrence with the key's metadata and the file path. */
  function EntryFindings(path: string, entry: Table<seq<Occurrence>>, suggestions: Option<Table<Metadata>>): Result<seq<Finding>>
  {
    if entry == [] then Success([])
    else
      var init :- EntryFindings(path, entry[..|entry| - 1], suggestions);
      var key, occurrences := entry[|entry| - 1].0, entry[|entry| - 1].1;
      if occurrences == [] || suggestions.None? then Failure(MalformedReport)
      else match Find(suggestions.value, key)
        case None => Failure(MalformedReport)
        case Some(metadata) => Success(init + [Finding(occurrences[0], metadata, path)])
  }

  function FilesFindings(files: Table<Table<seq<Occurrence>>>, suggestions: Option<Table<Metadata>>): Result<seq<Finding>>
  {
    if files == [] then Success([])
    else
      var init :- FilesFindings(files[..|files| - 1], suggestions);
      var last :- EntryFindings(files[|files| - 1].0, files[|files| - 1].1, suggestions);
      Success(init + last)
  }

  /** The flattened list the loops at lines 78-84 build, or the error they raise. */
  function Flattened(report: ScanReport): Result<seq<Finding>>
  {
    if report.files.None? then Failure(MalformedReport)
    else FilesFindings(report.files.value, report.suggestions)
  }

  /** One (file, finding-type key) pair of `results.files` with its occurrence list. */
  datatype Slot = Slot(file: string, key: string, occurrences: seq<Occurrence>)

  function FileSlots(path: string, entry: Table<seq<Occurrence>>): seq<Slot>
  {
    seq(|entry|, k requires 0 <= k < |entry| => Slot(path, entry[k].0, entry[k].1))
  }

  /** Every (file, key) pair, files in order and keys in order within a file. */
  function Slots(files: Table<Table<seq<Occurrence>>>): seq<Slot>
  {
    if files == [] then []
    else Slots(files[..|files| - 1]) + FileSlots(files[|files| - 1].0, files[|files| - 1].1)
  }

  /** A pair can be flattened: it has an occurrence and its key has metadata. */
  predicate Usable(slot: Slot, suggestions: Option<Table<Metadata>>)
  {
    |slot.occurrences| > 0 && suggestions.Some? && Find(suggestions.value, slot.key).Some?
  }

  function FindingOf(slot: Slot, suggestions: Option<Table<Metadata>>): Finding
    requires Usable(slot, suggestions)
  {
    Finding(slot.occurrences[0], Find(suggestions.value, slot.key).value, slot.file)
  }

  lemma {:induction false} EntryFindingsPerSlot(path: string, entry: Table<seq<Occurrence>>, suggestions: Option<Table<Metadata>>)
    ensures EntryFindings(path, entry, suggestions).Success? <==>
              (forall k :: 0 <= k < |entry| ==> Usable(FileSlots(path, entry)[k], suggestions))
    ensures EntryFindings(path, entry, suggestions).Success? ==>
              |EntryFindings(path, entry, suggestions).value| == |entry|
    ensures EntryFindings(path, entry, suggestions).Success? ==>
              forall k :: 0 <= k < |entry| ==>
                EntryFindings(path, entry, suggestions).value[k] == FindingOf(FileSlots(path, entry)[k], suggestions)
    decreases |entry|
  {
    if entry != [] {
      var n := |entry| - 1;
      var init := entry[..n];
      EntryFindingsPerSlot(path, init, suggestions);
      var slots, initSlots := FileSlots(path, entry), FileSlots(path, init);
      assert forall k :: 0 <= k < n ==> slots[k] == initSlots[k];
      assert slots[n] == Slot(path, entry[n].0, entry[n].1);
      var r, before := EntryFindings(path, entry, suggestions), EntryFindings(path, init, suggestions);
      if before.Failure? {
        var j :| 0 <= j < n && !Usable(initSlots[j], suggestions);
        assert !Usable(slots[j], suggestions);
      } else if r.Success? {
        assert r.value == before.value + [FindingOf(slots[n], suggestions)];
      }
    }
  }

  /** Flattening yields exactly one record per (file, key) pair, in iteration
      order: the pair's first occurrence, the key's metadata and the path. It
      fails exactly when `results.files` is missing, or some pair has no
      occurrence or a key without metadata. */
  lemma {:induction false} FlattenedIsOnePerSlot(report: ScanReport)
    ensures Flattened(report).Success? <==>
              report.files.Some?
              && forall k :: 0 <= k < |Slots(report.files.value)| ==> Usable(Slots(report.files.value)[k], report.suggestions)
    ensures Flattened(report).Success? ==> |Flattened(report).value| == |Slots(report.files.value)|
    ensures Flattened(report).Success? ==>
              forall k :: 0 <= k < |Flattened(report).value| ==>
                Flattened(report).value[k] == FindingOf(Slots(report.files.value)[k], report.suggestions)
  {
    if report.files.Some? {
      FilesFindingsPerSlot(report.files.value, report.suggestions);
    }
  }

  lemma {:induction false} FilesFindingsPerSlot(files: Table<Table<seq<Occurrence>>>, suggestions: Option<Table<Metadata>>)
    ensures FilesFindings(files, suggestions).Success? <==>
              (forall k :: 0 <= k < |Slots(files)| ==> Usable(Slots(files)[k], suggestions))
    ensures FilesFindings(files, suggestions).Success? ==> |FilesFindings(files, suggestions).value| == |Slots(files)|
    ensures FilesFindings(files, suggestions).Success? ==>
              forall k :: 0 <= k < |Slots(files)| ==>
                FilesFindings(files, suggestions).value[k] == FindingOf(Slots(files)[k], suggestions)
    decreases |files|
  {
    if files != [] {
      var n := |files| - 1;
      var init, path, entry := files[..n], files[n].0, files[n].1;
      FilesFindingsPerSlot(init, suggestions);
      EntryFindingsPerSlot(path, entry, suggestions);
      var before, here := Slots(init), FileSlots(path, entry);
      assert Slots(files) == before + here;
      assert forall k :: 0 <= k < |here| ==> Slots(files)[|before| + k] == here[k];
      var r := FilesFindings(files, suggestions);
      if r.Success? {
        var ri, rl := FilesFindings(init, suggestions).value, EntryFindings(path, entry, suggestions).value;
        assert r.value == ri + rl;
        forall k | 0 <= k < |r.value|
          ensures r.value[k] == FindingOf(Slots(files)[k], suggestions)
        {
          if k >= |ri| {
            assert r.value[k] == rl[k - |ri|];
            assert Slots(files)[k] == here[k - |before|];
          }
        }
      } else if FilesFindings(init, suggestions).Success? {
        var j :| 0 <= j < |here| && !Usable(here[j], suggestions);
        assert !Usable(Slots(files)[|before| + j], suggestions);
      } else {
        var j :| 0 <= j < |before| && !Usable(before[j], suggestions);
        assert Slots(files)[j] == before[j];
      }
    }
  }

  lemma {:induction false} EntryFailurePersists(path: string, entry: Table<seq<Occurrence>>, n: nat, suggestions: Option<Table<Metadata>>)
    requires n <= |entry| && EntryFindings(path, entry[..n], suggestions) == Failure(MalformedReport)
    ensures EntryFindings(path, entry, suggestions) == Failure(MalformedReport)
    decreases |entry|
  {
    if n < |entry| {
      assert entry[..|entry| - 1][..n] == entry[..n];
      EntryFailurePersists(path, entry[..|entry| - 1], n, suggestions);
    } else {
      assert entry[..n] == entry;
    }
  }

  lemma {:induction false} FilesFailurePersists(files: Table<Table<seq<Occurrence>>>, n: nat, suggestions: Option<Table<Metadata>>)
    requires n <= |files| && FilesFindings(files[..n], suggestions) == Failure(MalformedReport)
    ensures FilesFindings(files, suggestions) == Failure(MalformedReport)
    decreases |files|
  {
    if n < |files| {
      assert files[..|files| - 1][..n] == files[..n];
      FilesFailurePersists(files[..|files| - 1], n, suggestions);
    } else {
      assert files[..n] == files;
    }
  }

  /** The nested loops at lines 78-84. */
  method Flatten(report: ScanReport) returns (r: Result<seq<Finding>>)
    ensures r == Flattened(report)
  {
    if report.files.None? {
      return Failure(MalformedReport);
    }
    var files := report.files.value;
    var records: seq<Finding> := [];
    var i := 0;
    while i < |files|
      invariant 0 <= i <= |files|
      invariant FilesFindings(files[..i], report.suggestions) == Success(records)
    {
      assert files[..i + 1][..i] == files[..i] && files[..i + 1][i] == files[i];
      var found := EntryRecords(files[i].0, files[i].1, report.suggestions);
      if found.Failure? {
        assert FilesFindings(files[..i + 1], report.suggestions) == Failure(MalformedReport);
        FilesFailurePersists(files, i + 1, report.suggestions);
        return Failure(MalformedReport);
      }
      records := records + found.value;
      i := i + 1;
    }
    assert files[..i] == files;
    return Success(records);
  }

  /** The inner loop of lines 79-84: the findings of one file, key by key. */
  method EntryRecords(path: string, entry: Table<seq<Occurrence>>, suggestions: Option<Table<Metadata>>)
    returns (r: Result<seq<Finding>>)
    ensures r == EntryFindings(path, entry, suggestions)
    ensures r.Failure? ==> r.error == MalformedReport
  {
    var records: seq<Finding> := [];
    var j := 0;
    while j < |entry|
      invariant 0 <= j <= |entry|
      invariant EntryFindings(path, entry[..j], suggestions) == Success(records)
    {
      var key, occurrences := entry[j].0, entry[j].1;
      assert entry[..j + 1][..j] == entry[..j] && entry[..j + 1][j] == entry[j];
      if occurrences == [] || suggestions.None? {
        EntryFailurePersists(path, entry, j + 1, suggestions);
        return Failure(MalformedReport);
      }
      var metadata := Find(suggestions.value, key);
      if metadata.None? {
        EntryFailurePersists(path, entry, j + 1, suggestions);
        return Failure(MalformedReport);
      }
      records := records + [Finding(occurrences[0], metadata.value, path)];
      j := j + 1;
    }
    assert entry[..j] == entry;
    return Success(records);
  }


  // ---------------------------------------------------------------------
  // Selection (lines 86-90)

  predicate Rated(f: Finding) { f.suggestion.severity.Some? }

  predicate Positive(f: Finding) { f.suggestion.severity.Some? && f.suggestion.severity.value > 0 }

  /** The index of the last record whose severity is above zero, if any. */
  function LastPositive(records: seq<Finding>): (r: Option<nat>)
    ensures r.Some? ==> r.value < |records| && Positive(records[r.value])
    ensures r.Some? ==> forall j :: r.value < j < |records| ==> !Positive(records[j])
    ensures r.None? ==> forall j :: 0 <= j < |records| ==> !Positive(records[j])
  {
    if records == [] then None
    else if Positive(records[|records| - 1]) then Some(|records| - 1)
    else LastPositive(records[..|records| - 1])
  }

  function Top(records: seq<Finding>): Option<Finding>
  {
    match LastPositive(records)
    case None => None
    case Some(k) => Some(records[k])
  }

  /** The scan at lines 86-90. `highest` stays 0, so every record with a
      positive severity replaces the previous choice. */
  method SelectTop(records: seq<Finding>) returns (r: Result<Option<Finding>>)
    ensures r.Failure? <==> exists k :: 0 <= k < |records| && !Rated(records[k])
    ensures r.Failure? ==> r.error == MalformedReport
    ensures r.Success? ==> r.value == Top(records)
  {
    var selected: Option<Finding> := None;
    var highest := 0;
    var i := 0;
    while i < |records|
      invariant 0 <= i <= |records|
      invariant forall k :: 0 <= k < i ==> Rated(records[k])
      invariant selected == Top(records[..i])
    {
      assert records[..i + 1][..i] == records[..i];
      var severity := records[i].suggestion.severity;
      if severity.None? {
        return Failure(MalformedReport);
      }
      if severity.value > highest {
        selected := Some(records[i]);
      }
      i := i + 1;
    }
    assert records[..i] == records;
    return Success(selected);
  }

  /** A record of severity `severity`, for a concrete counterexample. */
  function Sample(severity: int): Finding
  {
    Finding(Occurrence([]), Metadata("", Some(severity), ""), "")
  }

  /** As written, the scan does not pick the most severe record: of two
      records rated 5 and then 1, it selects the second. */
  lemma SelectionIsNotMaximum()
    ensures var records := [Sample(5), Sample(1)];
      && Top(records) == Some(records[1])
      && records[1].suggestion.severity.value < records[0].suggestion.severity.value
      && !SelectsHighest(records, Top(records))
  {
    var records := [Sample(5), Sample(1)];
    assert Positive(records[1]);
    assert SeverityOf(records[1]) < SeverityOf(records[0]);
  }

  function SeverityOf(f: Finding): int
    requires Rated(f)
  {
    f.suggestion.severity.value
  }

  /** choice is what a search for the highest severity should return: nothing
      when no record is rated above zero, otherwise the first record whose
      severity is positive and not exceeded by any other. */
  predicate SelectsHighest(records: seq<Finding>, choice: Option<Finding>)
    requires forall k :: 0 <= k < |records| ==> Rated(records[k])
  {
    && (choice.None? ==> forall k :: 0 <= k < |records| ==> !Positive(records[k]))
    && (choice.Some? ==>
         exists k :: 0 <= k < |records| && records[k] == choice.value && Positive(records[k])
           && (forall j :: 0 <= j < |records| ==> SeverityOf(records[j]) <= SeverityOf(records[k]))
           && (forall j :: 0 <= j < k ==> SeverityOf(records[j]) < SeverityOf(records[k])))
  }

  /** The scan as its variable name says it should work: `highest` follows the
      selected record, so the first record of maximal positive severity wins. */
  method SelectHighest(records: seq<Finding>) returns (r: Result<Option<Finding>>)
    ensures r.Failure? <==> exists k :: 0 <= k < |records| && !Rated(records[k])
    ensures r.Failure? ==> r.error == MalformedReport
    ensures r.Success? ==> SelectsHighest(records, r.value)
  {
    var selected: Option<Finding> := None;
    ghost var at: nat := 0;
    var highest := 0;
    var i := 0;
    while i < |records|
      invariant 0 <= i <= |records|
      invariant forall k :: 0 <= k < i ==> Rated(records[k])
      invariant selected.None? ==> highest == 0 && forall k :: 0 <= k < i ==> !Positive(records[k])
      invariant selected.Some? ==> at < i && records[at] == selected.value && Positive(records[at])
                                   && highest == SeverityOf(records[at])
                                   && (forall j :: 0 <= j < i ==> SeverityOf(records[j]) <= highest)
                                   && (forall j :: 0 <= j < at ==> SeverityOf(records[j]) < highest)
    {
      var severity := records[i].suggestion.severity;
      if severity.None? {
        return Failure(MalformedReport);
      }
      if severity.value > highest {
        selected := Some(records[i]);
        highest := severity.value;
        at := i;
      }
      i := i + 1;
    }
    return Success(selected);
  }

  /** `retrieve_top_suggestion` (lines 74-94) as written: flatten, then the
      scan that keeps the last record rated above zero. Success(None) stands
      for the empty `{}`; every error the script turns into an exit is a Failure. */
  method RetrieveTopSuggestion(report: ScanReport) returns (r: Result<Option<Finding>>)
    ensures r.Failure? <==> Flattened(report).Failure?
                            || exists k :: 0 <= k < |Flattened(report).value| && !Rated(Flattened(report).value[k])
    ensures r.Failure? ==> r.error == MalformedReport
    ensures r.Success? ==> r.value == Top(Flattened(report).value)
  {
    var records := Flatten(report);
    if records.Failure? {
      return Failure(MalformedReport);
    }
    r := SelectTop(records.value);
  }

  /** `retrieve_top_suggestion` with the corrected scan: the most severe
      record of the flattened list. */
  method RetrieveMostSevere(report: ScanReport) returns (r: Result<Option<Finding>>)
    ensures r.Failure? <==> Flattened(report).Failure?
                            || exists k :: 0 <= k < |Flattened(report).value| && !Rated(Flattened(report).value[k])
    ensures r.Failure? ==> r.error == MalformedReport
    ensures r.Success? ==> SelectsHighest(Flattened(report).value, r.value)
  {
    var records := Flatten(report);
    if records.Failure? {
      return Failure(MalformedReport);
    }
    r := SelectHighest(records.value);
  }
}
