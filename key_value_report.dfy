/**
 * The per-file drivers of the three key/value report scripts. Each takes
 * the text of every log file in turn, decides whether the file is reported,
 * and builds its row from `get_value_from_log` lookups:
 *   - the CoreErrorCode report keeps files whose CoreErrorCode ends in 140;
 *   - the NVL serial report additionally wants PROCESS to end in FCT or NVL;
 *   - the TIM report keeps every file and builds a positional row.
 * Finding the files, reading them and writing the CSV are not modelled:
 * each file arrives as its path and its text.
 */
module KeyValueReport {
  import opened Text
  import opened Seqs
  import opened KeyValue

  /** A log file: where it was found and what it holds. */
  datatype LogFile = LogFile(path: string, content: string)

  const FILEPATH: string := "Filepath"
  const CORE_ERROR_CODE: string := "CoreErrorCode"
  const PROCESS: string := "PROCESS"

  /** The keys the CoreErrorCode report extracts. */
  const EC140_KEYS: seq<string> := [
    "SN",
    "110-0902-000_CPU_USE_TIMES",
    "110-0902-000_CPU_LAST_RESET_TIME",
    "110-0902-000_IN_STATION_TIME"
  ]

  /** The keys the NVL serial report extracts (CoreErrorCode among them). */
  const NVL_SN_KEYS: seq<string> := [
    "SN", "PN", "SKU", "PROCESS", "CoreErrorCode",
    "NVL0_ID", "NVL0_SN", "NVL1_ID", "NVL1_SN",
    "DIAG", "BMC_IP", "DUT_IP", "HOST_IP_ADDR", "FIXTURE",
    "HOST_DATE_TIME", "TIME_BEGIN_RECIPE", "TIME_END_RECIPE"
  ]

  /** The keys the TIM report extracts, one column each. */
  const TIM_KEYS: seq<string> := [
    "TIME_START_CLIENT",
    "110-0902-000",
    "110-0902-000_CPU_USE_TIMES",
    "110-0902-000_IN_STATION_TIME",
    "110-0902-000_CPU_LAST_RESET_TIME",
    "PROCESS", "DIAG", "TESTER_TYPE", "FIXTURE", "PRODUCT",
    "SN", "PN", "TestTime", "TestStatus", "TestErrorCode",
    "TestErrorMessage", "CoreErrorCode", "CoreErrorMessage"
  ]

  /** Which files a filtered report keeps. */
  datatype Selection =
    | ErrorCode140          // CoreErrorCode ends in 140
    | ErrorCode140AtFctOrNvl  // and PROCESS ends in FCT or NVL

  /** The report with selection `sel` keeps a file with this text. */
  predicate Selects(sel: Selection, content: string) {
    var code := ValueOf(content, CORE_ERROR_CODE);
    var process := ValueOf(content, PROCESS);
    EndsWith(code, "140")
    && (sel.ErrorCode140AtFctOrNvl? ==> EndsWith(process, "FCT") || EndsWith(process, "NVL"))
  }

  /** The files a report keeps, in the order they were found. */
  function Selected(files: seq<LogFile>, sel: Selection): seq<LogFile> {
    Filter(files, (f: LogFile) => Selects(sel, f.content))
  }

  /** The sentinel ends in none of the suffixes the reports test for. */
  lemma SentinelEndsInNoSuffix()
    ensures !EndsWith(NOT_FOUND, "140")
    ensures !EndsWith(NOT_FOUND, "FCT") && !EndsWith(NOT_FOUND, "NVL")
  {
    assert NOT_FOUND[|NOT_FOUND| - 3..] == "und";
  }

  /**
   * A file that defines no CoreErrorCode is never reported, whatever the
   * selection; neither is a file that lacks PROCESS in the NVL serial report.
   */
  lemma MissingKeyIsNeverSelected(sel: Selection, content: string)
    ensures Find(ParseLines(SplitLines(content)), CORE_ERROR_CODE).None? ==> !Selects(sel, content)
    ensures Find(ParseLines(SplitLines(content)), PROCESS).None? ==> !Selects(ErrorCode140AtFctOrNvl, content)
  {
    SentinelEndsInNoSuffix();
  }

  /** The NVL serial report keeps only files the CoreErrorCode report keeps too. */
  lemma SelectionsNest(files: seq<LogFile>)
    ensures forall f :: f in Selected(files, ErrorCode140AtFctOrNvl) ==> f in Selected(files, ErrorCode140)
  {
    var narrow, wide := (f: LogFile) => Selects(ErrorCode140AtFctOrNvl, f.content), (f: LogFile) => Selects(ErrorCode140, f.content);
    forall f | f in Selected(files, ErrorCode140AtFctOrNvl)
      ensures f in Selected(files, ErrorCode140)
    {
      FilterCount(files, narrow, f);
      FilterCount(files, wide, f);
    }
  }

  /** Extending the scanned prefix by one file adds that file to the kept ones exactly when it is selected. */
  lemma SelectedStep(files: seq<LogFile>, sel: Selection, i: nat)
    requires i < |files|
    ensures Selected(files[..i + 1], sel)
         == Selected(files[..i], sel) + (if Selects(sel, files[i].content) then [files[i]] else [])
  {
    assert files[..i + 1][..i] == files[..i];
  }

  /** A report row: column name to value. */
  type Row = map<string, string>

  /** `row` is the row built for `file`: the path, the error code and one lookup per key. */
  predicate IsRow(row: Row, file: LogFile, keys: seq<string>) {
    && row.Keys == {FILEPATH, CORE_ERROR_CODE} + (set k | k in keys)
    && (FILEPATH !in keys ==> row[FILEPATH] == file.path)
    && row[CORE_ERROR_CODE] == ValueOf(file.content, CORE_ERROR_CODE)
    && forall k :: k in keys ==> row[k] == ValueOf(file.content, k)
  }

  /** `row` holds the path, the error code and one lookup per key of `done`, later keys overwriting. */
  predicate PartialRow(row: Row, file: LogFile, errorCode: string, done: seq<string>) {
    && row.Keys == {FILEPATH, CORE_ERROR_CODE} + (set k | k in done)
    && (FILEPATH !in done ==> row[FILEPATH] == file.path)
    && (CORE_ERROR_CODE !in done ==> row[CORE_ERROR_CODE] == errorCode)
    && forall k :: k in done ==> row[k] == ValueOf(file.content, k)
  }

  /** Looking up one more key extends the partial row by that key. */
  lemma PartialRowAppend(row: Row, file: LogFile, errorCode: string, done: seq<string>, key: string)
    requires PartialRow(row, file, errorCode, done)
    ensures PartialRow(row[key := ValueOf(file.content, key)], file, errorCode, done + [key])
  {
    var next := row[key := ValueOf(file.content, key)];
    assert (set k | k in done + [key]) == (set k | k in done) + {key};
    forall k | k in done + [key]
      ensures next[k] == ValueOf(file.content, k)
    {
      if k != key {
        assert k in done;
      }
    }
  }

  /**
   * The dictionary built for an accepted file: it starts with the path and
   * the error code already looked up, then every key is looked up in turn
   * (a key listed again simply overwrites its column with the same lookup).
   */
  method BuildRow(file: LogFile, errorCode: string, keys: seq<string>) returns (row: Row)
    ensures row.Keys == {FILEPATH, CORE_ERROR_CODE} + (set k | k in keys)
    ensures FILEPATH !in keys ==> row[FILEPATH] == file.path
    ensures CORE_ERROR_CODE !in keys ==> row[CORE_ERROR_CODE] == errorCode
    ensures forall k :: k in keys ==> row[k] == ValueOf(file.content, k)
  {
    row := map[FILEPATH := file.path, CORE_ERROR_CODE := errorCode];
    for i := 0 to |keys|
      invariant PartialRow(row, file, errorCode, keys[..i])
    {
      var value := GetValueFromLog(file.content, keys[i]);
      PartialRowAppend(row, file, errorCode, keys[..i], keys[i]);
      assert keys[..i + 1] == keys[..i] + [keys[i]];
      row := row[keys[i] := value];
    }
    assert keys[..|keys|] == keys;
  }

  /** The CSV header of a filtered report: the path, the error code, then the keys in order. */
  function ReportHeader(keys: seq<string>): seq<string> {
    [FILEPATH, CORE_ERROR_CODE] + keys
  }

  /**
   * A row holds exactly the header's columns, so the dictionary writer
   * neither rejects it for an extra field nor leaves a cell empty.
   */
  lemma RowFitsHeader(row: Row, file: LogFile, keys: seq<string>)
    requires IsRow(row, file, keys)
    ensures row.Keys == (set c | c in ReportHeader(keys))
  {
    var header := ReportHeader(keys);
    forall c | c in header
      ensures c in row.Keys
    {
      if c !in keys {
        assert c == FILEPATH || c == CORE_ERROR_CODE;
      }
    }
    forall c | c in row.Keys
      ensures c in header
    {
      if c in keys {
        var k :| 0 <= k < |keys| && keys[k] == c;
        assert header[k + 2] == c;
      }
    }
  }

  /**
   * The configured key lists: the CoreErrorCode report adds four columns to
   * the path and the error code; the NVL serial report also lists
   * CoreErrorCode among its keys, so its header names that column twice
   * (both cells hold the same lookup); the TIM header has nineteen columns.
   */
  lemma ConfiguredColumns()
    ensures FILEPATH !in EC140_KEYS && CORE_ERROR_CODE !in EC140_KEYS && |ReportHeader(EC140_KEYS)| == 6
    ensures FILEPATH !in NVL_SN_KEYS && PROCESS in NVL_SN_KEYS
    ensures ReportHeader(NVL_SN_KEYS)[1] == CORE_ERROR_CODE && ReportHeader(NVL_SN_KEYS)[6] == CORE_ERROR_CODE
    ensures |TimHeader(TIM_KEYS)| == 19 && FILEPATH !in TIM_KEYS
  {
    assert EC140_KEYS[0] == "SN";
    assert NVL_SN_KEYS[3] == PROCESS;
  }

  /** `rows` holds, position by position, the rows built for the files `kept`. */
  predicate RowsFor(rows: seq<Row>, kept: seq<LogFile>, keys: seq<string>) {
    |rows| == |kept| && forall k :: 0 <= k < |rows| ==> IsRow(rows[k], kept[k], keys)
  }

  /** Appending a file's row to the rows of the earlier kept files. */
  lemma RowsForAppend(rows: seq<Row>, kept: seq<LogFile>, keys: seq<string>, row: Row, file: LogFile)
    requires RowsFor(rows, kept, keys) && IsRow(row, file, keys)
    ensures RowsFor(rows + [row], kept + [file], keys)
  {
  }

  /**
   * The file loop of a filtered report: one row per kept file, in file
   * order, and nothing for the others.
   */
  method CollectRows(files: seq<LogFile>, sel: Selection, keys: seq<string>) returns (rows: seq<Row>)
    ensures |rows| == |Selected(files, sel)|
    ensures forall k :: 0 <= k < |rows| ==> IsRow(rows[k], Selected(files, sel)[k], keys)
  {
    rows := [];
    for i := 0 to |files|
      invariant RowsFor(rows, Selected(files[..i], sel), keys)
    {
      var file := files[i];
      SelectedStep(files, sel, i);
      var errorCode := GetValueFromLog(file.content, CORE_ERROR_CODE);
      var process := GetValueFromLog(file.content, PROCESS);
      var keep := EndsWith(errorCode, "140");
      if sel.ErrorCode140AtFctOrNvl? {
        keep := keep && (EndsWith(process, "FCT") || EndsWith(process, "NVL"));
      }
      assert keep == Selects(sel, file.content);
      if keep {
        var row := BuildRow(file, errorCode, keys);
        RowsForAppend(rows, Selected(files[..i], sel), keys, row, file);
        rows := rows + [row];
      }
    }
    assert files[..|files|] == files;
  }

  /** The TIM row for `file`: the path, then one lookup per key, by position. */
  predicate IsTimRow(row: seq<string>, file: LogFile, keys: seq<string>) {
    && |row| == 1 + |keys|
    && row[0] == file.path
    && forall k :: 0 <= k < |keys| ==> row[k + 1] == ValueOf(file.content, keys[k])
  }

  /** The TIM header row: the path column, then one column per key. */
  function TimHeader(keys: seq<string>): (header: seq<string>)
    ensures |header| == 1 + |keys| && header[0] == FILEPATH
    ensures forall k :: 0 <= k < |keys| ==> header[k + 1] == keys[k]
  {
    [FILEPATH] + keys
  }

  /** The row the TIM report builds by appending one lookup per key to the path. */
  method BuildTimRow(file: LogFile, keys: seq<string>) returns (row: seq<string>)
    ensures IsTimRow(row, file, keys)
  {
    row := [file.path];
    for i := 0 to |keys|
      invariant |row| == 1 + i && row[0] == file.path
      invariant forall k :: 0 <= k < i ==> row[k + 1] == ValueOf(file.content, keys[k])
    {
      var value := GetValueFromLog(file.content, keys[i]);
      row := row + [value];
    }
  }

  /**
   * The rows the TIM report writes: the header, then one row per file with
   * no filtering, each as long as the header.
   */
  method TimTable(files: seq<LogFile>, keys: seq<string>) returns (table: seq<seq<string>>)
    ensures |table| == 1 + |files| && table[0] == TimHeader(keys)
    ensures forall i :: 0 <= i < |files| ==> IsTimRow(table[i + 1], files[i], keys)
    ensures forall i :: 0 <= i < |table| ==> |table[i]| == |TimHeader(keys)|
  {
    table := [TimHeader(keys)];
    for i := 0 to |files|
      invariant |table| == 1 + i && table[0] == TimHeader(keys)
      invariant forall j :: 0 <= j < i ==> IsTimRow(table[j + 1], files[j], keys)
      invariant forall j :: 0 <= j < |table| ==> |table[j]| == |TimHeader(keys)|
    {
      var row := BuildTimRow(files[i], keys);
      table := table + [row];
    }
  }
}
