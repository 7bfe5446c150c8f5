# Log record extraction engine

A Dafny model of the parsing core shared by six Python log-mining scripts.
The scripts mine manufacturing test logs for failing NVLink boards. The model
covers the parts that read text and keep state:

- **Key/value lookup** (`get_value_from_log`, in `AnalysisEC140.py`,
  `AnalysisEC140_NVL_SN.py` and `AnalysisTIM.py`). It splits each line at
  the first `=` and strips both sides. The first line whose key matches
  exactly gives the value; otherwise the result is `"Value not found"`. Each
  script then builds rows from the lookups:
  - `AnalysisEC140.py` keeps files whose CoreErrorCode ends in `140`;
  - `AnalysisEC140_NVL_SN.py` also requires PROCESS to end in `FCT` or `NVL`;
  - `AnalysisTIM.py` writes one row per file, unfiltered.
  Modules `KeyValue` and `KeyValueReport`.
- **FRU block scanner, failure registry and anchor extractor**
  (`parse_log_file`, duplicated in `AnalysisEC140_GetNVLChannel_FromLogFile.py`
  and `AnalysisEC140_GetNVlinkData.py`). Module `FruLog`.
  - The ProcMod serial scan.
  - The two-label CBC state machine, including the quirk that any serial line
    overwrites the active CBC label's serial.
  - The fixed-key failure registry `LBPCB_FAIL_SN`. It is the class
    `FailureRegistry.Registry`, whose count map is updated in place.
  - The anchor-line extractor, with its three `re.search` patterns written as
    leftmost-match scanners. Module `AnchorPatterns`.
- **Drivers.**
  - The date-window path filter, `check_filename` and the file loop of the
    NVL channel script (`NvlChannelReport`, on top of `IsoDate` and
    `PosixPath`).
  - The `.log` listing loop of the NVLink data script (`NvlinkDataReport`).
- **Serial sweep** (`find_serial_numbers` in `AnalysisNVL_SN.py`, module
  `NvlSnScan`). It scans `NVL0_SN`/`NVL1_SN` lines and updates the registry
  as written: a known `NVL1_SN` raises the count of the `NVL0_SN` key
  (line 56). When that key is missing, the `KeyError` gives the file up.

Loops that update variables are methods with loop invariants. Each is proved
against a specification function: `GetValueFromLog` against `ValueOf`,
`ScanProcMod`/`ScanCbc` against `ProcModSerial`/`CbcSerial`, `ExtractAnchors`
against `AnchorRecords`, `ScanFile` against `ScanOf`, and so on. Lemmas then
state what the source promises about those functions.

Files, directory listings and the walk are parameters. A directory listing
or glob result is a sequence of paths. A file's contents are a
`read: string -> seq<string>` function from path to lines.

Two details of the line scans are modelled exactly as the code has them:
- the ProcMod flag is reset on every line, unlike the CBC label, which
  persists until the next CBC header
  (`AnalysisEC140_GetNVLChannel_FromLogFile.py:97-98`);
- every script reads the line two below a header (`LOOKAHEAD = 2`); no
  script reads the line directly below it.

## Model

| member | source | states |
|---|---|---|
| KeyValue.SplitLines | AnalysisEC140.py:16 | the lines of `splitlines()` never contain a line break |
| KeyValue.JoinSplitLines | AnalysisEC140.py:16 | writing the lines of `splitlines()` back, each followed by a line break, gives the text, with at most one line break added at the end |
| KeyValue.SplitLinesOfJoin | AnalysisTIM.py:9 | splitting lines joined with line breaks gives the same lines back |
| KeyValue.ParseLine | AnalysisEC140_NVL_SN.py:17-18 | a line yields a key/value pair exactly when it contains `=` |
| KeyValue.ParseLineSplitsAtFirstEquals | AnalysisEC140_NVL_SN.py:17-21 | for a key without `=`, the split is at the first `=`, so the value keeps any later `=`; both sides are stripped |
| KeyValue.ParsePaddedLine | AnalysisEC140.py:19-21 | `key = value` with trimmed key and value parses to exactly that key and value |
| KeyValue.GetValueFromLog | AnalysisEC140.py:5-23 | the search loop with early return computes `ValueOf`: the first defining line's value, else `"Value not found"` |
| KeyValue.FindIsFirstMatch | AnalysisEC140_NVL_SN.py:16-23 | nothing is found exactly when no line defines the key; otherwise the value is that of the first defining line |
| KeyValue.FindFirstWins | AnalysisTIM.py:9-15 | a definition in an earlier block of lines wins over any in a later block |
| KeyValue.LookupInOneEntryFile | AnalysisTIM.py:12-16 | in a file with one entry, the exact key gives its value and every other key the sentinel |
| KeyValue.KeysCompareExactly | AnalysisEC140_NVL_SN.py:19-23 | keys compare exactly: any other string, even a prefix or a case variant, gives `"Value not found"` |
| KeyValue.FirstPartDecides | AnalysisEC140.py:16-22 | lines appended after a line defining the key never change its value |
| KeyValueReport.SentinelEndsInNoSuffix | AnalysisEC140_NVL_SN.py:80 | the sentinel ends in none of `140`, `FCT` and `NVL` |
| KeyValueReport.MissingKeyIsNeverSelected | AnalysisEC140_NVL_SN.py:76-80 | a file without CoreErrorCode is never accepted, and one without PROCESS is never accepted by the FCT/NVL filter |
| KeyValueReport.SelectionsNest | AnalysisEC140.py:62-65 | every file the FCT/NVL filter accepts is also accepted by the plain `140` filter |
| KeyValueReport.BuildRow | AnalysisEC140.py:69-75 | the row has exactly Filepath, CoreErrorCode and the listed keys, each mapped to its lookup |
| KeyValueReport.RowFitsHeader | AnalysisEC140.py:69-90 | every row's columns are exactly the header's, so the writer neither rejects a row nor leaves a cell empty |
| KeyValueReport.ConfiguredColumns | AnalysisEC140_NVL_SN.py:46-104 | the CoreErrorCode report has six columns; the NVL serial header names CoreErrorCode twice, at positions 1 and 6; the TIM header has nineteen columns; no key list contains Filepath |
| KeyValueReport.CollectRows | AnalysisEC140_NVL_SN.py:71-95 | one row per accepted file, in file order, each row built from its own file |
| KeyValueReport.TimHeader | AnalysisTIM.py:55 | the header is `Filepath` followed by the keys in order |
| KeyValueReport.BuildTimRow | AnalysisTIM.py:66-72 | element 0 is the path and element k+1 the lookup of key k |
| KeyValueReport.TimTable | AnalysisTIM.py:55-75 | the header row, then one row per file in order, every row as long as the header |
| IsoDate.ParseDate | AnalysisEC140_GetNVLChannel_FromLogFile.py:63 | a parsed date is a valid calendar date, leap years included |
| IsoDate.ParsedIsFormatted | AnalysisEC140_GetNVLChannel_FromLogFile.py:34-35 | a string that parses is the canonical `YYYY-MM-DD` text of its date |
| IsoDate.FormattedIsParsed | AnalysisEC140_GetNVLChannel_FromLogFile.py:63 | every valid date's `YYYY-MM-DD` text parses back to it |
| IsoDate.LetterStartIsNoDate | AnalysisEC140_GetNVLChannel_FromLogFile.py:69-73 | a folder name not starting with a digit, such as `ABCD-12-34`, is not a date |
| IsoDate.NotAfterIsTotalOrder | AnalysisEC140_GetNVLChannel_FromLogFile.py:66 | date comparison is reflexive, antisymmetric, transitive and total |
| IsoDate.NotAfterIsOrdinalOrder | AnalysisEC140_GetNVLChannel_FromLogFile.py:66 | date comparison agrees with the order of day numbers |
| PosixPath.Basename | AnalysisEC140_GetNVLChannel_FromLogFile.py:165 | the base name has no `/`, ends the path and follows its last `/` |
| PosixPath.Dirname | AnalysisEC140_GetNVLChannel_FromLogFile.py:60 | the directory is a prefix of the path that ends before the final component, with only slashes between the two; it ends in `/` only when it is all slashes, as the root `/` is |
| PosixPath.DirnameSlashesBasename | AnalysisEC140_GetNVLChannel_FromLogFile.py:56-60 | a path is its directory, some slashes, and its base name |
| PosixPath.Join | AnalysisEC140_GetNVlinkData.py:135 | a joined path ends with the file name |
| PosixPath.BasenameOfJoin | AnalysisEC140_GetNVlinkData.py:99 | the base name of a joined path is the listed file name |
| PosixPath.DirnameOfChild | AnalysisEC140_GetNVLChannel_FromLogFile.py:60 | the directory of `dir/name` is `dir` |
| PosixPath.GrandparentOfLayout | AnalysisEC140_GetNVLChannel_FromLogFile.py:55-60 | for `root/day/hour/file`, the grandparent name is `day` |
| PosixPath.BareNameHasNoGrandparent | AnalysisEC140_GetNVLChannel_FromLogFile.py:60 | a name without `/` has an empty grandparent name |
| PosixPath.BasenameKeepsSuffix | AnalysisEC140_GetNVLChannel_FromLogFile.py:236 | a path ending in `.log` has a base name ending in `.log` |
| FailureRegistry.ObservedAllCounts | AnalysisEC140_GetNVlinkData.py:5-9 | observing ids never changes the key set, and each key's count rises by how often it was observed |
| FailureRegistry.Registry.constructor | AnalysisEC140_GetNVLChannel_FromLogFile.py:11-15 | the registry starts with exactly the ten seed serials, all at zero |
| FailureRegistry.Registry.Increment | AnalysisNVL_SN.py:53-56 | a known id's count rises by one and the result says whether it was known; nothing else changes |
| FailureRegistry.Registry.Observe | AnalysisEC140_GetNVLChannel_FromLogFile.py:127-137 | a known id is counted once; a missing or unknown id changes nothing |
| AnchorPatterns.MatchAtIsLongest | AnalysisEC140_GetNVLChannel_FromLogFile.py:151-155 | at a position, the scanner finds a match exactly when the pattern matches there, with the longest capture |
| AnchorPatterns.SearchIsLeftmostLongest | AnalysisEC140_GetNVLChannel_FromLogFile.py:151-155 | the search returns the leftmost position where the pattern matches, with the longest capture there, and none when it matches nowhere |
| AnchorPatterns.CaptureIsAMatch | AnalysisEC140_GetNVLChannel_FromLogFile.py:158-160 | a capture other than `"N/A"` is a matched group, and a pattern that matches nowhere gives `"N/A"` |
| AnchorPatterns.GpuCaptureOfLeftmostMatch | AnalysisEC140_GetNVLChannel_FromLogFile.py:151 | at the leftmost match of `GPU<digits>_<non-space run>,`, the GPU capture runs up to the last comma of that non-space run |
| AnchorPatterns.NumberCaptureOfLeftmostMatch | AnalysisEC140_GetNVLChannel_FromLogFile.py:153-155 | at the leftmost match of the word, whitespace and digits, the Nvlink/Lane capture is the whole digit run there |
| AnchorPatterns.ExampleLineCaptures | AnalysisEC140_GetNVLChannel_FromLogFile.py:148-160 | on `GPU0_NVLINK, Nvlink 3, Lane 5 MODS-000000000140` the captures are `GPU0_NVLINK`, `3` and `5` |
| Text.Strip | AnalysisNVL_SN.py:40 | the result is the input without leading and trailing whitespace |
| Text.Split | AnalysisEC140_GetNVLChannel_FromLogFile.py:107 | the words are non-empty runs without whitespace, and there are none exactly when the line is blank |
| Text.SplitPeelsWord | AnalysisEC140_GetNVLChannel_FromLogFile.py:107 | after leading whitespace, a word followed by the end or by whitespace is the first word, and the rest is split on its own |
| Text.SplitUnwords | AnalysisEC140_GetNVLChannel_FromLogFile.py:107 | non-empty words without whitespace, joined by single spaces after any leading whitespace, split back into exactly those words |
| Text.LastWordIsFinalRun | AnalysisEC140_GetNVlinkData.py:41 | `split()[-1]` is the final whitespace-free run of the line |
| FruLog.SerialOf | AnalysisEC140_GetNVLChannel_FromLogFile.py:105-107 | the serial is the last whitespace-delimited token of the serial line |
| FruLog.ProcModSerialIsLastQualifying | AnalysisEC140_GetNVLChannel_FromLogFile.py:97-109 | the SN is taken from the serial line two below the last qualifying ProcMod header, and is absent exactly when no header qualifies |
| FruLog.ScanProcMod | AnalysisEC140_GetNVlinkData.py:31-43 | the loop, with its flag reset on every line, computes `ProcModSerial` |
| FruLog.DeviceStep | AnalysisEC140_GetNVLChannel_FromLogFile.py:111-116 | a header with `CBC_0` selects CBC_0 even if it also names CBC_1; otherwise `CBC_1` selects CBC_1; any other line keeps the label |
| FruLog.DeviceIsLastHeader | AnalysisEC140_GetNVlinkData.py:45-50 | the active label is that of the last CBC header so far, and there is none before the first |
| FruLog.CbcSerialIsLastWrite | AnalysisEC140_GetNVLChannel_FromLogFile.py:111-122 | a label's serial comes from the last in-range serial line two below a line where that label is active |
| FruLog.ForeignSerialOverwritesCbc | AnalysisEC140_GetNVlinkData.py:45-56 | a later FRU header of another device, with a serial line below it, overwrites the active CBC label's serial |
| FruLog.ScanCbc | AnalysisEC140_GetNVlinkData.py:45-59 | the loop with its persistent label computes both CBC serials |
| FruLog.RegistryAfterFile | AnalysisEC140_GetNVLChannel_FromLogFile.py:124-137 | after a file, each key's count rises once per role whose serial it is (twice if both are that key); the key set stays |
| FruLog.AnchorsBefore | AnalysisEC140_GetNVLChannel_FromLogFile.py:140-148 | the anchors are exactly the header lines with a code-marked line two below, in ascending order |
| FruLog.RecordsFollowAnchors | AnalysisEC140_GetNVLChannel_FromLogFile.py:140-171 | one record per anchor in line order, carrying the three captures of its data line and the file's SN, name and CBC serials |
| FruLog.ExtractAnchors | AnalysisEC140_GetNVlinkData.py:74-105 | the anchor loop computes `AnchorRecords` |
| FruLog.NoMarkerNoRecord | AnalysisEC140_GetNVLChannel_FromLogFile.py:148 | a file with no `MODS-000000000140` line yields no record |
| FruLog.ExampleAnchorRecord | AnalysisEC140_GetNVlinkData.py:76-105 | a header, any line, then the example data line give exactly one record with `GPU0_NVLINK`, `3` and `5` |
| FruLog.FileRecordsCarryFacts | AnalysisEC140_GetNVLChannel_FromLogFile.py:163-171 | every record carries the ProcMod serial or `"N/A"`, the base name and both CBC serials |
| FruLog.ParseLogFile | AnalysisEC140_GetNVlinkData.py:11-109 | the registry counts the two CBC serials, CBC_0 first, even when there are no records; the result is `FileRecords` |
| FruLog.BatchRecordsAppend | AnalysisEC140_GetNVLChannel_FromLogFile.py:238-240 | parsing two batches of paths in turn gives the first batch's records followed by the second's |
| FruLog.BatchIdsStep | AnalysisEC140_GetNVlinkData.py:137-139 | parsing one more file observes its CBC_0 then CBC_1 serial after all earlier ones |
| FruLog.BatchRecordsNameTheirFiles | AnalysisEC140_GetNVLChannel_FromLogFile.py:165 | every record names the base name of one of the parsed paths |
| NvlinkDataReport.LogPaths | AnalysisEC140_GetNVlinkData.py:133-135 | the parsed paths are at most as many as the listed names |
| NvlinkDataReport.LogPathsNameLogEntries | AnalysisEC140_GetNVlinkData.py:133-135 | every parsed path has as its base name a listed name ending in `.log` |
| NvlinkDataReport.LogPathsAreJoinedLogEntries | AnalysisEC140_GetNVlinkData.py:133-135 | the parsed paths are, one for one and in listing order, the folder joined with each listed name ending in `.log` |
| NvlinkDataReport.EveryLogEntryIsParsed | AnalysisEC140_GetNVlinkData.py:133-135 | every listed name ending in `.log` is parsed, as the folder joined with it |
| NvlinkDataReport.RecordsNameLogEntries | AnalysisEC140_GetNVlinkData.py:99 | every record's file name is a listed name ending in `.log` |
| NvlinkDataReport.CollectLinkRecords | AnalysisEC140_GetNVlinkData.py:133-139 | the output is the records of the `.log` entries in listing order, and the registry has observed their CBC serials in that order |
| NvlChannelReport.LogFilesInDateRange | AnalysisEC140_GetNVLChannel_FromLogFile.py:17-75 | the function computes `DateRange`: nothing if a bound is not a date or nothing was globbed, else the filtered paths |
| NvlChannelReport.KeepInWindow | AnalysisEC140_GetNVLChannel_FromLogFile.py:51-75 | the loop keeps exactly the paths whose folder date is in the window, in order |
| NvlChannelReport.DateRangeIsOrderedSelection | AnalysisEC140_GetNVLChannel_FromLogFile.py:51-75 | the result is the in-window paths in glob order; each in-window path is kept as often as it was globbed, and no other path is kept |
| NvlChannelReport.UnparsableBoundKeepsNothing | AnalysisEC140_GetNVLChannel_FromLogFile.py:33-38 | a bound that is not a date gives an empty result |
| NvlChannelReport.EmptyWindowKeepsNothing | AnalysisEC140_GetNVLChannel_FromLogFile.py:66 | a start after the end keeps nothing |
| NvlChannelReport.BareNameIsDropped | AnalysisEC140_GetNVLChannel_FromLogFile.py:60-73 | a path too short to have a grandparent folder is dropped |
| NvlChannelReport.DayFolderDecides | AnalysisEC140_GetNVLChannel_FromLogFile.py:60-67 | for `root/day/hour/file`, the path is kept exactly when `day` is a date within both bounds, inclusive |
| NvlChannelReport.NonDateFolderIsDropped | AnalysisEC140_GetNVLChannel_FromLogFile.py:69-73 | a day folder such as `ABCD-12-34` drops the path without error |
| NvlChannelReport.TaggedNamePasses | AnalysisEC140_GetNVLChannel_FromLogFile.py:177-190 | a path with `_FCT_` or `_NVL_` anywhere passes `check_filename` |
| NvlChannelReport.NameWithoutUnderscoreFails | AnalysisEC140_GetNVLChannel_FromLogFile.py:187-193 | a path without `_` fails `check_filename` |
| NvlChannelReport.ParseKeptFiles | AnalysisEC140_GetNVLChannel_FromLogFile.py:231-240 | only paths passing `check_filename` and ending in `.log` are parsed, in order; records are appended and serials counted |
| NvlChannelReport.RunReport | AnalysisEC140_GetNVLChannel_FromLogFile.py:205-240 | `main` up to the CSV: the 2025-11-01 to 2025-11-06 filter, then the file loop over what it kept |
| NvlChannelReport.RecordsComeFromLogFiles | AnalysisEC140_GetNVLChannel_FromLogFile.py:236-240 | every record of the report names a file ending in `.log` |
| NvlSnScan.SecondField | AnalysisNVL_SN.py:45 | `split('=')[1]` fails exactly when there is no `=`, and holds no `=` |
| NvlSnScan.SecondFieldOfAssignment | AnalysisNVL_SN.py:45-49 | the value is the text between the first `=` and the next one, or the end |
| NvlSnScan.ClassifyAssignment | AnalysisNVL_SN.py:40-49 | for a non-empty, already trimmed `v` without `=`, `NVL0_SN=v` sets nvl0 to `v` and `NVL1_SN=v` sets nvl1 to `v` |
| NvlSnScan.ClassifyLine | AnalysisNVL_SN.py:39-49 | a line that is `key=value` or `key=value=more` once stripped (no `=` in key or value): a key starting with `NVL0_SN` sets nvl0 to the stripped value, one starting with `NVL1_SN` but not `NVL0_SN` sets nvl1, and any other key makes it an ordinary line; padding, longer keys such as `NVL0_SN_B`, empty values and a second `=` included |
| NvlSnScan.KeyWithoutEqualsIsMalformed | AnalysisNVL_SN.py:43-49 | a key line without `=` raises, which gives the file up |
| NvlSnScan.ReadLine | AnalysisNVL_SN.py:39-49 | the loop body computes `Classify`, whose value on every `=`-line is given by `ClassifyLine` and on a key line without `=` by `KeyWithoutEqualsIsMalformed` |
| NvlSnScan.ScanKindsStep | AnalysisNVL_SN.py:38-49 | one more line leaves a given-up file given up, and otherwise sets the serial its key names |
| NvlSnScan.ScanFile | AnalysisNVL_SN.py:32-49 | the line loop computes `ScanOf`: given up on a malformed key line, else the last value of each key |
| NvlSnScan.ScanKeepsLastValues | AnalysisNVL_SN.py:38-49 | in a file that is not given up, each serial, taken on its own, is absent exactly when no line has its key, and otherwise is the value on the last line with that key |
| NvlSnScan.MalformedLineAbandons | AnalysisNVL_SN.py:35-65 | one malformed key line anywhere gives the whole file up |
| NvlSnScan.NoKeyLinesNoSerials | AnalysisNVL_SN.py:38-52 | a file without key lines yields neither serial, and the counts after it are the counts before |
| NvlSnScan.TwoAssignmentsScan | AnalysisNVL_SN.py:38-49 | a file with `NVL0_SN=a` and `NVL1_SN=b` yields `a` and `b` |
| NvlSnScan.PairUpdateCounts | AnalysisNVL_SN.py:52-56 | the keys stay, and only the `NVL0_SN` count changes, rising once for each of the two serials that is known |
| NvlSnScan.PairUpdateRaises | AnalysisNVL_SN.py:51-56 | the update raises exactly when `NVL1_SN` is known and `NVL0_SN` is absent or unknown, and then the counts stay as they were |
| NvlSnScan.KnownPairCountsNvl0Twice | AnalysisNVL_SN.py:53-56 | two known, different serials raise the `NVL0_SN` count by two and leave the `NVL1_SN` count alone |
| NvlSnScan.UpdateRegistry | AnalysisNVL_SN.py:52-56 | the in-place increments give `FileCounts`, and report whether the update raised |
| NvlSnScan.FindSerialNumbers | AnalysisNVL_SN.py:9-67 | the walk leaves the registry at `WalkCounts` and always returns an empty list |
| NvlSnScan.WalkKeepsKeys | AnalysisNVL_SN.py:3-7 | the walk never adds or drops a registry key |
| NvlSnScan.WalkNeverLowersCounts | AnalysisNVL_SN.py:54-56 | no count ever goes down during the walk |
| NvlSnScan.OnlySerialFilesCount | AnalysisNVL_SN.py:28 | only entries whose name contains `NVL` and ends in `.txt` affect the counts |

## Left out

- Enumerating files is not modelled. That covers `glob.glob`, `os.listdir`, `os.walk` and the `os.path.isdir` check in `AnalysisEC140_GetNVlinkData.py:125-128`. Their results arrive as sequences of paths, names or walk entries, in the order the system returns them.
- Reading files is not modelled: `open`, `read`, `readlines`, encodings and `errors='ignore'`. A file is a sequence of lines without terminators, given by a function from path to lines.
- CSV writing, every `print`, and the module-level driver in `AnalysisNVL_SN.py:72-88` are output only.
- The catch-all `except Exception` handlers guard I/O and are left out, with one exception. In `AnalysisNVL_SN.py`, the `IndexError` and the `KeyError` change what a file contributes, so both are modelled.
- Whitespace is the six ASCII whitespace characters. Full Unicode whitespace in `strip()` and `split()` is not modelled.
- In the three anchor regular expressions, `\d` is an ASCII digit and `\s` an ASCII whitespace character. Python's `re` on `str` patterns also matches other Unicode digits and whitespace there; that is not modelled.
- `splitlines()` splits at `\n` only.
- Paths use `/` only. Windows `\` separators and drive semantics are not modelled.
- Dates are the strict `YYYY-MM-DD` form, with month, day and leap-year checks. The other forms that newer `date.fromisoformat` versions accept (basic `YYYYMMDD`, week dates) are not modelled.
- Only the three regular expressions of the anchor extractor are modelled, each as its own scanner. General regular-expression semantics are not.
- The registry is a single instance passed to each driver. Each Python script has its own global copy, and no driver runs two scripts.
- NvlinkDataReport.LogPaths: its own contract states only a length bound. What the paths are is stated by NvlinkDataReport.LogPathsAreJoinedLogEntries and NvlinkDataReport.EveryLogEntryIsParsed.
- Text.Split: its own contract states only the shape of the words. Which words they are is stated by Text.SplitPeelsWord and Text.SplitUnwords.
- AnchorPatterns.Capture, AnchorPatterns.SearchFrom and FruLog.AnchorRecords carry their properties in separate lemmas (CaptureIsAMatch, SearchIsLeftmostLongest, RecordsFollowAnchors), not in their own contracts.
