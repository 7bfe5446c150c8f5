/**
 * The NVLink channel script: keep the globbed log paths whose
 * `YYYY-MM-DD/HH/` folder lies in a date window, then parse each kept path
 * that names an FCT or NVL log and ends in `.log`. Globbing and reading the
 * files are not modelled: the glob's result arrives as a sequence of paths
 * and the file system as a function from path to lines.
 */
module NvlChannelReport {
  import opened Wrappers
  import opened Text
  import opened Seqs
  import opened IsoDate
  import opened PosixPath
  import opened FailureRegistry
  import opened FruLog

  /** The window `main` asks for, both ends included. */
  const START_DATE: string := "2025-11-01"
  const END_DATE: string := "2025-11-06"

  const FCT_TAG: string := "_FCT_"
  const NVL_TAG: string := "_NVL_"
  const LOG_SUFFIX: string := ".log"

  // ----------------------------------------------------------- Date window

  /** The date the path's grandparent folder names, if it names one. */
  function FolderDate(path: string): Option<Date> {
    ParseDate(GrandparentName(path))
  }

  /** `start_date <= current_date <= end_date` for the path's folder date. */
  predicate InWindow(path: string, start: Date, end: Date) {
    var d := FolderDate(path);
    d.Some? && NotAfter(start, d.value) && NotAfter(d.value, end)
  }

  function WindowTest(start: Date, end: Date): string -> bool {
    (path: string) => InWindow(path, start, end)
  }

  /**
   * What `get_log_files_in_date_range` returns for the globbed `paths`:
   * nothing when either bound is not a date, otherwise the paths in the
   * window, in glob order.
   */
  function DateRange(paths: seq<string>, startText: string, endText: string): seq<string> {
    match (ParseDate(startText), ParseDate(endText))
    case (Some(start), Some(end)) => Filter(paths, WindowTest(start, end))
    case _ => []
  }

  /**
   * The filter loop: a path whose folder is not a date is passed over, a
   * path whose folder date lies in the window is kept.
   */
  method LogFilesInDateRange(paths: seq<string>, startText: string, endText: string) returns (kept: seq<string>)
    ensures kept == DateRange(paths, startText, endText)
  {
    var start := ParseDate(startText);
    var end := ParseDate(endText);
    if start.None? || end.None? {
      return [];
    }
    if paths == [] {
      return [];
    }
    kept := KeepInWindow(paths, start.value, end.value);
  }

  /** The loop body of the date filter, once both bounds are dates. */
  method KeepInWindow(paths: seq<string>, start: Date, end: Date) returns (kept: seq<string>)
    ensures kept == Filter(paths, WindowTest(start, end))
  {
    ghost var test := WindowTest(start, end);
    kept := [];
    for i := 0 to |paths|
      invariant kept == Filter(paths[..i], test)
    {
      assert paths[..i + 1][..i] == paths[..i];
      var date := ParseDate(GrandparentName(paths[i]));
      assert date == FolderDate(paths[i]);
      if date.Some? && NotAfter(start, date.value) && NotAfter(date.value, end) {
        assert test(paths[i]);
        assert Filter(paths[..i + 1], test) == Filter(paths[..i], test) + [paths[i]];
        kept := kept + [paths[i]];
      } else {
        assert !test(paths[i]);
        assert Filter(paths[..i + 1], test) == Filter(paths[..i], test);
      }
    }
    assert paths[..|paths|] == paths;
  }

  /**
   * With both bounds dates, the result is the paths in the window in glob
   * order: the k-th kept path is the path at the k-th position whose folder
   * date lies in the window, and each path is kept as often as it was
   * globbed if it is in the window, and never otherwise.
   */
  lemma DateRangeIsOrderedSelection(paths: seq<string>, startText: string, endText: string)
    requires ParseDate(startText).Some? && ParseDate(endText).Some?
    ensures var test := WindowTest(ParseDate(startText).value, ParseDate(endText).value);
      var kept := DateRange(paths, startText, endText);
      && |kept| == |Positions(paths, test)|
      && forall k :: 0 <= k < |kept| ==> kept[k] == paths[Positions(paths, test)[k]]
    ensures forall p :: (multiset(DateRange(paths, startText, endText))[p]
      == if InWindow(p, ParseDate(startText).value, ParseDate(endText).value) then multiset(paths)[p] else 0)
  {
    var start, end := ParseDate(startText).value, ParseDate(endText).value;
    var test := WindowTest(start, end);
    var kept := DateRange(paths, startText, endText);
    assert kept == Filter(paths, test);
    FilterIsSelection(paths, test);
    forall p ensures multiset(kept)[p] == if InWindow(p, start, end) then multiset(paths)[p] else 0 {
      FilterCount(paths, test, p);
      assert test(p) == InWindow(p, start, end);
    }
  }

  /** A bound that is not a date gives an empty result, whatever was globbed. */
  lemma UnparsableBoundKeepsNothing(paths: seq<string>, startText: string, endText: string)
    requires ParseDate(startText).None? || ParseDate(endText).None?
    ensures DateRange(paths, startText, endText) == []
  {
  }

  /** A window whose end comes before its start keeps nothing. */
  lemma EmptyWindowKeepsNothing(paths: seq<string>, startText: string, endText: string)
    requires ParseDate(startText).Some? && ParseDate(endText).Some?
    requires !NotAfter(ParseDate(startText).value, ParseDate(endText).value)
    ensures DateRange(paths, startText, endText) == []
  {
    var start, end := ParseDate(startText).value, ParseDate(endText).value;
    forall k | 0 <= k < |paths| ensures !WindowTest(start, end)(paths[k]) {
      var d := FolderDate(paths[k]);
      if d.Some? {
        NotAfterIsTotalOrder(start, d.value, end);
      }
    }
    FilterNone(paths, WindowTest(start, end));
  }

  /** A path too short to have a grandparent folder, such as a bare file name, is dropped. */
  lemma BareNameIsDropped(path: string, start: Date, end: Date)
    requires '/' !in path
    ensures !InWindow(path, start, end)
  {
    BareNameHasNoGrandparent(path);
  }

  /**
   * For a path laid out as `root/day/hour/file`, the day folder decides:
   * the path is in the window exactly when the day folder's name is a date
   * between the bounds.
   */
  lemma DayFolderDecides(root: string, day: string, hour: string, file: string, start: Date, end: Date)
    requires day != [] && hour != []
    requires '/' !in day && '/' !in hour && '/' !in file
    ensures InWindow(root + "/" + day + "/" + hour + "/" + file, start, end) <==>
      ParseDate(day).Some? && NotAfter(start, ParseDate(day).value) && NotAfter(ParseDate(day).value, end)
  {
    GrandparentOfLayout(root, day, hour, file);
  }

  /** A day folder whose name does not start with a digit, such as `ABCD-12-34`, is dropped. */
  lemma NonDateFolderIsDropped(root: string, day: string, hour: string, file: string, start: Date, end: Date)
    requires day != [] && hour != [] && !IsDigit(day[0])
    requires '/' !in day && '/' !in hour && '/' !in file
    ensures !InWindow(root + "/" + day + "/" + hour + "/" + file, start, end)
  {
    DayFolderDecides(root, day, hour, file, start, end);
    LetterStartIsNoDate(day);
  }

  // -------------------------------------------------------- File name gate

  /** `check_filename`: the name carries `_FCT_` or `_NVL_`. */
  predicate CheckFilename(filename: string) {
    Contains(filename, FCT_TAG) || Contains(filename, NVL_TAG)
  }

  /** A name with either tag anywhere in it passes the gate. */
  lemma TaggedNamePasses(before: string, after: string)
    ensures CheckFilename(before + FCT_TAG + after)
    ensures CheckFilename(before + NVL_TAG + after)
  {
    ContainsSplice(before, FCT_TAG, after);
    ContainsSplice(before, NVL_TAG, after);
  }

  /** A name without an underscore carries neither tag and fails the gate. */
  lemma NameWithoutUnderscoreFails(filename: string)
    requires '_' !in filename
    ensures !CheckFilename(filename)
  {
    assert FCT_TAG[0] == '_' && NVL_TAG[0] == '_';
    MissingCharExcludes(filename, FCT_TAG, '_');
    MissingCharExcludes(filename, NVL_TAG, '_');
  }

  // ------------------------------------------------------------ File loop

  /** `main` parses a kept path when it passes `check_filename` and ends in `.log`. */
  predicate IsParsed(path: string) {
    CheckFilename(path) && EndsWith(path, LOG_SUFFIX)
  }

  /**
   * The file loop of `main`: each kept path that passes both gates is
   * parsed, in order, its records appended and its CBC serials counted.
   */
  method ParseKeptFiles(paths: seq<string>, read: string -> seq<string>, registry: Registry) returns (allData: seq<LinkRecord>)
    requires registry.Valid()
    modifies registry
    ensures registry.Valid()
    ensures allData == BatchRecords(Filter(paths, IsParsed), read)
    ensures registry.counts == ObservedAll(old(registry.counts), BatchIds(Filter(paths, IsParsed), read))
  {
    allData := [];
    for i := 0 to |paths|
      invariant registry.Valid()
      invariant allData == BatchRecords(Filter(paths[..i], IsParsed), read)
      invariant registry.counts == ObservedAll(old(registry.counts), BatchIds(Filter(paths[..i], IsParsed), read))
    {
      assert paths[..i + 1][..i] == paths[..i];
      var path := paths[i];
      if CheckFilename(path) && EndsWith(path, LOG_SUFFIX) {
        assert Filter(paths[..i + 1], IsParsed) == Filter(paths[..i], IsParsed) + [path];
        BatchRecordsStep(Filter(paths[..i], IsParsed), path, read);
        BatchIdsStep(Filter(paths[..i], IsParsed), path, read, old(registry.counts));
        var data := ParseLogFile(path, read(path), registry);
        allData := allData + data;
      } else {
        assert Filter(paths[..i + 1], IsParsed) == Filter(paths[..i], IsParsed);
      }
    }
    assert paths[..|paths|] == paths;
  }

  /**
   * `main` up to the CSV: the date filter for the fixed window, then the
   * file loop over what it kept (nothing at all when it kept nothing).
   */
  method RunReport(paths: seq<string>, read: string -> seq<string>, registry: Registry) returns (allData: seq<LinkRecord>)
    requires registry.Valid()
    modifies registry
    ensures registry.Valid()
    ensures allData == BatchRecords(Filter(DateRange(paths, START_DATE, END_DATE), IsParsed), read)
    ensures registry.counts == ObservedAll(old(registry.counts), BatchIds(Filter(DateRange(paths, START_DATE, END_DATE), IsParsed), read))
  {
    var finalFileList := LogFilesInDateRange(paths, START_DATE, END_DATE);
    if finalFileList == [] {
      return [];
    }
    allData := ParseKeptFiles(finalFileList, read, registry);
  }

  /** Every record of a batch of paths that share a suffix without `/` names a file with that suffix. */
  lemma RecordsKeepPathSuffix(paths: seq<string>, read: string -> seq<string>, suffix: string)
    requires '/' !in suffix
    requires forall k :: 0 <= k < |paths| ==> EndsWith(paths[k], suffix)
    ensures forall r :: r in BatchRecords(paths, read) ==> EndsWith(r.logFileName, suffix)
  {
    BatchRecordsNameTheirFiles(paths, read);
    forall r | r in BatchRecords(paths, read) ensures EndsWith(r.logFileName, suffix) {
      var k :| 0 <= k < |paths| && Basenames(paths)[k] == r.logFileName;
      BasenameKeepsSuffix(paths[k], suffix);
    }
  }

  /** Every record of the report comes from a file whose base name ends in `.log`. */
  lemma RecordsComeFromLogFiles(paths: seq<string>, read: string -> seq<string>)
    ensures forall r :: r in BatchRecords(Filter(paths, IsParsed), read) ==> EndsWith(r.logFileName, LOG_SUFFIX)
  {
    var parsed := Filter(paths, IsParsed);
    assert forall k :: 0 <= k < |parsed| ==> IsParsed(parsed[k]);
    RecordsKeepPathSuffix(parsed, read, LOG_SUFFIX);
  }
}
