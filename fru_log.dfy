/**
 * `parse_log_file`, shared word for word by the NVLink channel script and
 * the NVLink data script. Three passes over the lines of one log file:
 *   1. the ProcMod pass takes the serial number two lines below each
 *      `FRU Device Description` header of `ProcMod_0`;
 *   2. the CBC pass keeps a device label that CBC headers set and nothing
 *      resets, and files every serial line two lines further down under it;
 *   3. after the failure registry has counted both CBC serials, the anchor
 *      pass turns each `Exit Code`/`Component Id` header whose line two
 *      further down carries the module code into one record.
 * Opening and reading the file are not modelled: the file arrives as its
 * path and its lines.
 */
module FruLog {
  import opened Wrappers
  import opened Text
  import opened Seqs
  import opened PosixPath
  import opened FailureRegistry
  import opened AnchorPatterns

  const FRU_HEADER: string := "FRU Device Description"
  const PROC_MOD_0: string := "ProcMod_0"
  const CBC_0: string := "CBC_0"
  const CBC_1: string := "CBC_1"
  const SERIAL_LABEL: string := "Board Serial Number"
  const EXIT_CODE: string := "Exit Code"
  const COMPONENT_ID: string := "Component Id"
  const MODULE_CODE: string := "MODS-000000000140"

  /** How many lines below a header its value line sits. */
  const LOOKAHEAD: nat := 2

  predicate IsSerialLine(line: string) {
    Contains(line, SERIAL_LABEL)
  }

  /** `serial_line.split()[-1]`: the last word of a serial line. */
  function SerialOf(line: string): (sn: string)
    requires IsSerialLine(line)
    ensures FinalRun(line, sn)
  {
    assert SERIAL_LABEL[0] == 'B';
    ContainsWordIsNotBlank(line, SERIAL_LABEL, 'B');
    LastWordIsFinalRun(line);
    LastWord(line)
  }

  /** The serial number `LOOKAHEAD` lines below line `i`, when that line exists and names one. */
  function SerialBelow(lines: seq<string>, i: nat): Option<string> {
    if i + LOOKAHEAD < |lines| && IsSerialLine(lines[i + LOOKAHEAD]) then Some(SerialOf(lines[i + LOOKAHEAD]))
    else None
  }

  // ---------------------------------------------------------------- ProcMod

  predicate IsProcModHeader(line: string) {
    Contains(line, FRU_HEADER) && Contains(line, PROC_MOD_0)
  }

  /** What line `i` writes into `results["SN"]`, if anything. */
  function ProcModWrites(lines: seq<string>): (w: seq<Option<string>>)
    ensures |w| == |lines|
  {
    seq(|lines|, i requires 0 <= i < |lines| => if IsProcModHeader(lines[i]) then SerialBelow(lines, i) else None)
  }

  /** `results.get("SN")` after the ProcMod pass. */
  function ProcModSerial(lines: seq<string>): Option<string> {
    LastSome(ProcModWrites(lines))
  }

  /** Line `i` is a ProcMod header with a serial line two lines below it. */
  predicate ProcModQualifies(lines: seq<string>, i: int) {
    0 <= i && i + LOOKAHEAD < |lines| && IsProcModHeader(lines[i]) && IsSerialLine(lines[i + LOOKAHEAD])
  }

  /**
   * The ProcMod serial is the last word of the serial line below the last
   * qualifying header, and there is none exactly when no header qualifies.
   */
  lemma ProcModSerialIsLastQualifying(lines: seq<string>)
    ensures ProcModSerial(lines).None? <==> forall i :: 0 <= i < |lines| ==> !ProcModQualifies(lines, i)
    ensures forall i :: ProcModQualifies(lines, i) && (forall j :: i < j < |lines| ==> !ProcModQualifies(lines, j)) ==>
      ProcModSerial(lines) == Some(SerialOf(lines[i + LOOKAHEAD]))
  {
    var w := ProcModWrites(lines);
    LastSomeIsLast(w);
    assert forall i :: 0 <= i < |lines| ==> (w[i].Some? <==> ProcModQualifies(lines, i));
    forall i | ProcModQualifies(lines, i) && (forall j :: i < j < |lines| ==> !ProcModQualifies(lines, j))
      ensures ProcModSerial(lines) == Some(SerialOf(lines[i + LOOKAHEAD]))
    {
      assert IsLastSome(w, i);
    }
  }

  /**
   * The ProcMod pass: the header test is made afresh on every line, and a
   * later qualifying serial line overwrites an earlier one.
   */
  method ScanProcMod(lines: seq<string>) returns (sn: Option<string>)
    ensures sn == ProcModSerial(lines)
  {
    ghost var writes := ProcModWrites(lines);
    sn := None;
    for i := 0 to |lines|
      invariant sn == LastSome(writes[..i])
    {
      LastSomeStep(writes, i);
      var procMod := false;
      if Contains(lines[i], FRU_HEADER) {
        if Contains(lines[i], PROC_MOD_0) {
          procMod := true;
        }
      }
      if procMod && i + LOOKAHEAD < |lines| {
        var serialLine := lines[i + LOOKAHEAD];
        if Contains(serialLine, SERIAL_LABEL) {
          sn := Some(SerialOf(serialLine));
        }
      }
    }
    assert writes[..|lines|] == writes;
  }

  // -------------------------------------------------------------------- CBC

  /** The CBC devices whose serial numbers the pass collects. */
  datatype Device = Cbc0 | Cbc1

  /** The device an FRU header names, if it is a CBC; `CBC_0` is tested first. */
  function DeviceOf(line: string): Option<Device> {
    if Contains(line, FRU_HEADER) then
      if Contains(line, CBC_0) then Some(Cbc0)
      else if Contains(line, CBC_1) then Some(Cbc1)
      else None
    else None
  }

  function DeviceHeaders(lines: seq<string>): (d: seq<Option<Device>>)
    ensures |d| == |lines|
  {
    seq(|lines|, i requires 0 <= i < |lines| => DeviceOf(lines[i]))
  }

  /** `device_name` once line `i` has been looked at (`None` while it is still empty). */
  function DeviceAt(lines: seq<string>, i: nat): Option<Device>
    requires i < |lines|
  {
    LastSome(DeviceHeaders(lines)[..i + 1])
  }

  /**
   * The device name changes only on an FRU header naming a CBC device,
   * `CBC_0` winning over `CBC_1`; on every other line it carries over.
   */
  lemma DeviceStep(lines: seq<string>, i: nat)
    requires i < |lines|
    ensures Contains(lines[i], FRU_HEADER) && Contains(lines[i], CBC_0) ==> DeviceAt(lines, i) == Some(Cbc0)
    ensures Contains(lines[i], FRU_HEADER) && !Contains(lines[i], CBC_0) && Contains(lines[i], CBC_1) ==>
      DeviceAt(lines, i) == Some(Cbc1)
    ensures DeviceOf(lines[i]).None? ==> DeviceAt(lines, i) == if i == 0 then None else DeviceAt(lines, i - 1)
  {
    var d := DeviceHeaders(lines);
    LastSomeStep(d, i);
    assert d[..0] == [];
  }

  /**
   * The device name at line `i` is the one set by the last CBC header at
   * or before `i`, and it is empty exactly when no such header came yet.
   */
  lemma DeviceIsLastHeader(lines: seq<string>, i: nat)
    requires i < |lines|
    ensures DeviceAt(lines, i).None? <==> forall h :: 0 <= h <= i ==> DeviceOf(lines[h]).None?
    ensures forall h :: 0 <= h <= i && DeviceOf(lines[h]).Some? && (forall j :: h < j <= i ==> DeviceOf(lines[j]).None?) ==>
      DeviceAt(lines, i) == DeviceOf(lines[h])
  {
    var d := DeviceHeaders(lines)[..i + 1];
    assert forall h :: 0 <= h <= i ==> d[h] == DeviceOf(lines[h]);
    LastSomeIsLast(d);
    forall h | 0 <= h <= i && DeviceOf(lines[h]).Some? && (forall j :: h < j <= i ==> DeviceOf(lines[j]).None?)
      ensures DeviceAt(lines, i) == DeviceOf(lines[h])
    {
      assert IsLastSome(d, h);
    }
  }

  /** What line `i` writes into `results[device_name]` for `device`, if anything. */
  function CbcWrites(lines: seq<string>, device: Device): (w: seq<Option<string>>)
    ensures |w| == |lines|
  {
    seq(|lines|, i requires 0 <= i < |lines| => if DeviceAt(lines, i) == Some(device) then SerialBelow(lines, i) else None)
  }

  /** `results.get("CBC_0")` or `results.get("CBC_1")` after the CBC pass. */
  function CbcSerial(lines: seq<string>, device: Device): Option<string> {
    LastSome(CbcWrites(lines, device))
  }

  /** While `device` is the device name at line `i`, the serial line two lines below is filed under it. */
  predicate CbcQualifies(lines: seq<string>, device: Device, i: int) {
    0 <= i && i + LOOKAHEAD < |lines| && DeviceAt(lines, i) == Some(device) && IsSerialLine(lines[i + LOOKAHEAD])
  }

  /**
   * A CBC serial is the last serial line filed under its device, and there
   * is none exactly when no serial line was filed under it.
   */
  lemma CbcSerialIsLastWrite(lines: seq<string>, device: Device)
    ensures CbcSerial(lines, device).None? <==> forall i :: 0 <= i < |lines| ==> !CbcQualifies(lines, device, i)
    ensures forall i :: CbcQualifies(lines, device, i) && (forall j :: i < j < |lines| ==> !CbcQualifies(lines, device, j)) ==>
      CbcSerial(lines, device) == Some(SerialOf(lines[i + LOOKAHEAD]))
  {
    var w := CbcWrites(lines, device);
    LastSomeIsLast(w);
    assert forall i :: 0 <= i < |lines| ==> (w[i].Some? <==> CbcQualifies(lines, device, i));
    forall i | CbcQualifies(lines, device, i) && (forall j :: i < j < |lines| ==> !CbcQualifies(lines, device, j))
      ensures CbcSerial(lines, device) == Some(SerialOf(lines[i + LOOKAHEAD]))
    {
      assert IsLastSome(w, i);
    }
  }

  /**
   * Nothing resets the device name: the serial line of a later FRU header
   * for another device (a ProcMod, say) is filed under the CBC device
   * still named, and being the last serial line it becomes that CBC's
   * serial.
   */
  lemma ForeignSerialOverwritesCbc(lines: seq<string>, h: nat, i: nat)
    requires h < i && i + LOOKAHEAD < |lines|
    requires DeviceOf(lines[h]).Some?
    requires forall j :: h < j <= i ==> DeviceOf(lines[j]).None?
    requires Contains(lines[i], FRU_HEADER) && IsSerialLine(lines[i + LOOKAHEAD])
    requires forall j :: i + LOOKAHEAD < j < |lines| ==> !IsSerialLine(lines[j])
    ensures CbcSerial(lines, DeviceOf(lines[h]).value) == Some(SerialOf(lines[i + LOOKAHEAD]))
  {
    var device := DeviceOf(lines[h]).value;
    DeviceIsLastHeader(lines, i);
    assert CbcQualifies(lines, device, i);
    forall j | i < j < |lines| ensures !CbcQualifies(lines, device, j) {
      if j + LOOKAHEAD < |lines| {
        assert !IsSerialLine(lines[j + LOOKAHEAD]);
      }
    }
    CbcSerialIsLastWrite(lines, device);
  }

  /**
   * The CBC pass: the device name persists from line to line, and while it
   * is set each serial line two lines further down overwrites its serial.
   */
  method ScanCbc(lines: seq<string>) returns (cbc0: Option<string>, cbc1: Option<string>)
    ensures cbc0 == CbcSerial(lines, Cbc0) && cbc1 == CbcSerial(lines, Cbc1)
  {
    ghost var headers, writes0, writes1 := DeviceHeaders(lines), CbcWrites(lines, Cbc0), CbcWrites(lines, Cbc1);
    var device: Option<Device> := None;
    cbc0, cbc1 := None, None;
    for i := 0 to |lines|
      invariant device == LastSome(headers[..i])
      invariant cbc0 == LastSome(writes0[..i]) && cbc1 == LastSome(writes1[..i])
    {
      LastSomeStep(headers, i);
      LastSomeStep(writes0, i);
      LastSomeStep(writes1, i);
      if Contains(lines[i], FRU_HEADER) {
        if Contains(lines[i], CBC_0) {
          device := Some(Cbc0);
        } else if Contains(lines[i], CBC_1) {
          device := Some(Cbc1);
        }
      }
      assert device == DeviceAt(lines, i);
      assert writes0[i] == if device == Some(Cbc0) then SerialBelow(lines, i) else None;
      assert writes1[i] == if device == Some(Cbc1) then SerialBelow(lines, i) else None;
      if device.Some? && i + LOOKAHEAD < |lines| {
        var serialLine := lines[i + LOOKAHEAD];
        if Contains(serialLine, SERIAL_LABEL) {
          match device.value
          case Cbc0 => cbc0 := Some(SerialOf(serialLine));
          case Cbc1 => cbc1 := Some(SerialOf(serialLine));
        }
      }
    }
    assert writes0[..|lines|] == writes0 && writes1[..|lines|] == writes1;
  }

  // --------------------------------------------------------------- Registry

  /**
   * Counting a file's two CBC serials: each key's count rises by one for
   * each role whose serial it is (twice when both serials are the same
   * key), and the key set stays as it was.
   */
  lemma RegistryAfterFile(counts: map<string, nat>, cbc0: Option<string>, cbc1: Option<string>)
    ensures Observed(Observed(counts, cbc0), cbc1).Keys == counts.Keys
    ensures forall k :: k in counts ==>
      Observed(Observed(counts, cbc0), cbc1)[k] == counts[k] + (if cbc0 == Some(k) then 1 else 0) + (if cbc1 == Some(k) then 1 else 0)
  {
  }

  // ---------------------------------------------------------------- Anchors

  predicate IsAnchorHeader(line: string) {
    Contains(line, EXIT_CODE) && Contains(line, COMPONENT_ID)
  }

  /** Line `i` is an anchor header whose line two further down carries the module code. */
  predicate IsAnchor(lines: seq<string>, i: int) {
    0 <= i && i + LOOKAHEAD < |lines| && IsAnchorHeader(lines[i]) && Contains(lines[i + LOOKAHEAD], MODULE_CODE)
  }

  /** The anchors among the first `n` lines, in ascending order. */
  function AnchorsBefore(lines: seq<string>, n: nat): (ix: seq<nat>)
    requires n <= |lines|
    ensures forall k :: 0 <= k < |ix| ==> ix[k] < n && IsAnchor(lines, ix[k])
    ensures forall i :: 0 <= i < n && IsAnchor(lines, i) ==> i in ix
    ensures forall k, l :: 0 <= k < l < |ix| ==> ix[k] < ix[l]
  {
    if n == 0 then [] else AnchorsBefore(lines, n - 1) + (if IsAnchor(lines, n - 1) then [n - 1] else [])
  }

  /** One row of the NVLink report. */
  datatype LinkRecord = LinkRecord(
    sn: string, logFileName: string,
    gpu: string, nvlink: string, lane: string,
    nvl0Sn: Option<string>, nvl1Sn: Option<string>)

  /** What a file puts into every record it yields. */
  datatype FileFacts = FileFacts(sn: string, logFileName: string, cbc0: Option<string>, cbc1: Option<string>)

  /** The record an anchor yields: the file's facts and the three captures of the data line. */
  function RecordOf(facts: FileFacts, dataLine: string): LinkRecord {
    LinkRecord(facts.sn, facts.logFileName,
      Capture(GpuPort, dataLine), Capture(NVLINK, dataLine), Capture(LANE, dataLine),
      facts.cbc0, facts.cbc1)
  }

  /** The data lines of the anchors among the first `n` lines, in line order. */
  function DataLinesBefore(lines: seq<string>, n: nat): seq<string>
    requires n <= |lines|
  {
    if n == 0 then []
    else DataLinesBefore(lines, n - 1) + (if IsAnchor(lines, n - 1) then [lines[n - 1 + LOOKAHEAD]] else [])
  }

  /**
   * Exactly one data line per anchor, in line order: the k-th data line is
   * the line two below the k-th anchor.
   */
  lemma {:induction false} DataLinesFollowAnchors(lines: seq<string>, n: nat)
    requires n <= |lines|
    ensures |DataLinesBefore(lines, n)| == |AnchorsBefore(lines, n)|
    ensures forall k :: 0 <= k < |AnchorsBefore(lines, n)| ==>
      DataLinesBefore(lines, n)[k] == lines[AnchorsBefore(lines, n)[k] + LOOKAHEAD]
  {
    if n > 0 {
      DataLinesFollowAnchors(lines, n - 1);
      var a, d := AnchorsBefore(lines, n - 1), DataLinesBefore(lines, n - 1);
      if IsAnchor(lines, n - 1) {
        var a', d' := a + [n - 1], d + [lines[n - 1 + LOOKAHEAD]];
        forall k | 0 <= k < |a'| ensures d'[k] == lines[a'[k] + LOOKAHEAD] {
          if k < |a| {
            assert d'[k] == d[k] && a'[k] == a[k];
          }
        }
      }
    }
  }

  /** One record per anchor, in line order, each built from its data line. */
  function AnchorRecords(lines: seq<string>, facts: FileFacts): seq<LinkRecord> {
    var data := DataLinesBefore(lines, |lines|);
    seq(|data|, k requires 0 <= k < |data| => RecordOf(facts, data[k]))
  }

  /**
   * Exactly one record per anchor, in line order: the k-th record is built
   * from the line two below the k-th anchor.
   */
  lemma RecordsFollowAnchors(lines: seq<string>, facts: FileFacts)
    ensures |AnchorRecords(lines, facts)| == |AnchorsBefore(lines, |lines|)|
    ensures forall k :: 0 <= k < |AnchorRecords(lines, facts)| ==>
      AnchorRecords(lines, facts)[k] == RecordOf(facts, lines[AnchorsBefore(lines, |lines|)[k] + LOOKAHEAD])
  {
    DataLinesFollowAnchors(lines, |lines|);
    var records, data, anchors := AnchorRecords(lines, facts), DataLinesBefore(lines, |lines|), AnchorsBefore(lines, |lines|);
    forall k | 0 <= k < |records| ensures records[k] == RecordOf(facts, lines[anchors[k] + LOOKAHEAD]) {
      assert records[k] == RecordOf(facts, data[k]);
      assert data[k] == lines[anchors[k] + LOOKAHEAD];
    }
  }

  /** The facts of the file at `path`: the ProcMod serial or "N/A", its name, and the CBC serials. */
  function FactsOf(path: string, lines: seq<string>): FileFacts {
    FileFacts(ProcModSerial(lines).GetOr(NOT_AVAILABLE), Basename(path), CbcSerial(lines, Cbc0), CbcSerial(lines, Cbc1))
  }

  /** What `parse_log_file(path)` returns for a file with these lines. */
  function FileRecords(path: string, lines: seq<string>): seq<LinkRecord> {
    AnchorRecords(lines, FactsOf(path, lines))
  }

  /** The anchor pass: one record per anchor, appended in line order. */
  method ExtractAnchors(lines: seq<string>, facts: FileFacts) returns (records: seq<LinkRecord>)
    ensures records == AnchorRecords(lines, facts)
  {
    records := [];
    for i := 0 to |lines|
      invariant |records| == |DataLinesBefore(lines, i)|
      invariant forall k :: 0 <= k < |records| ==> records[k] == RecordOf(facts, DataLinesBefore(lines, i)[k])
    {
      if Contains(lines[i], EXIT_CODE) && Contains(lines[i], COMPONENT_ID) {
        if i + LOOKAHEAD < |lines| {
          var nextLine := lines[i + LOOKAHEAD];
          if Contains(nextLine, MODULE_CODE) {
            var gpu := Capture(GpuPort, nextLine);
            var nvlink := Capture(NVLINK, nextLine);
            var lane := Capture(LANE, nextLine);
            records := records + [LinkRecord(facts.sn, facts.logFileName, gpu, nvlink, lane, facts.cbc0, facts.cbc1)];
          }
        }
      }
    }
  }

  /** Without the module code, no line is a data line. */
  lemma {:induction false} NoMarkerNoDataLine(lines: seq<string>, n: nat)
    requires n <= |lines|
    requires forall i :: 0 <= i < |lines| ==> !Contains(lines[i], MODULE_CODE)
    ensures DataLinesBefore(lines, n) == []
  {
    if n > 0 {
      NoMarkerNoDataLine(lines, n - 1);
    }
  }

  /** A file in which no line carries the module code yields no record. */
  lemma NoMarkerNoRecord(lines: seq<string>, facts: FileFacts)
    requires forall i :: 0 <= i < |lines| ==> !Contains(lines[i], MODULE_CODE)
    ensures AnchorRecords(lines, facts) == []
  {
    NoMarkerNoDataLine(lines, |lines|);
  }

  /**
   * An anchor header, any line, then the data line
   * `GPU0_NVLINK, Nvlink 3, Lane 5 MODS-000000000140` yield exactly one
   * record, with GPU `GPU0_NVLINK`, Nvlink `3` and Lane `5`.
   */
  lemma ExampleAnchorRecord(header: string, middle: string, data: string, facts: FileFacts)
    requires IsAnchorHeader(header) && IsExampleLine(data)
    ensures AnchorRecords([header, middle, data], facts) ==
      [LinkRecord(facts.sn, facts.logFileName, "GPU0_NVLINK", "3", "5", facts.cbc0, facts.cbc1)]
  {
    var lines := [header, middle, data];
    ExampleLineCharacters(data);
    assert OccursAt(data, MODULE_CODE, 30);
    assert IsAnchor(lines, 0);
    assert DataLinesBefore(lines, 1) == [data];
    assert DataLinesBefore(lines, 3) == [data];
    ExampleLineCaptures(data);
  }

  // ------------------------------------------------------------------- File

  /**
   * `parse_log_file(path)`: both serial passes, the registry update for
   * the two CBC serials, then the anchor pass. The registry is updated
   * whether or not the file yields any record.
   */
  method ParseLogFile(path: string, lines: seq<string>, registry: Registry) returns (records: seq<LinkRecord>)
    requires registry.Valid()
    modifies registry
    ensures registry.Valid()
    ensures registry.counts == Observed(Observed(old(registry.counts), CbcSerial(lines, Cbc0)), CbcSerial(lines, Cbc1))
    ensures records == FileRecords(path, lines)
  {
    var sn := ScanProcMod(lines);
    var cbc0, cbc1 := ScanCbc(lines);
    registry.Observe(cbc0);
    registry.Observe(cbc1);
    var facts := FileFacts(sn.GetOr(NOT_AVAILABLE), Basename(path), cbc0, cbc1);
    records := ExtractAnchors(lines, facts);
  }

  /**
   * The records of the files at `paths`, parsed in turn, each file's
   * records appended to those of the files before it.
   */
  function BatchRecords(paths: seq<string>, read: string -> seq<string>): seq<LinkRecord>
    decreases |paths|
  {
    if paths == [] then []
    else
      var path := paths[|paths| - 1];
      BatchRecords(paths[..|paths| - 1], read) + FileRecords(path, read(path))
  }

  /** The CBC serials the registry counts for the files at `paths`, in order. */
  function BatchIds(paths: seq<string>, read: string -> seq<string>): seq<Option<string>>
    decreases |paths|
  {
    if paths == [] then []
    else
      var lines := read(paths[|paths| - 1]);
      BatchIds(paths[..|paths| - 1], read) + [CbcSerial(lines, Cbc0), CbcSerial(lines, Cbc1)]
  }

  /** Parsing one more file appends its records. */
  lemma BatchRecordsStep(paths: seq<string>, path: string, read: string -> seq<string>)
    ensures BatchRecords(paths + [path], read) == BatchRecords(paths, read) + FileRecords(path, read(path))
  {
    var all := paths + [path];
    assert all[..|all| - 1] == paths;
    assert all[|all| - 1] == path;
  }

  /**
   * Parsing a batch in two parts gives the records of the first part, then
   * those of the second: extending the output neither drops nor reorders
   * records.
   */
  lemma {:induction false} BatchRecordsAppend(xs: seq<string>, ys: seq<string>, read: string -> seq<string>)
    ensures BatchRecords(xs + ys, read) == BatchRecords(xs, read) + BatchRecords(ys, read)
    decreases |ys|
  {
    if ys == [] {
      assert xs + ys == xs;
    } else {
      var front, last := ys[..|ys| - 1], ys[|ys| - 1];
      BatchRecordsAppend(xs, front, read);
      AppendLast(xs, ys);
      BatchRecordsStep(xs + front, last, read);
      var older, earlier, added := BatchRecords(xs, read), BatchRecords(front, read), FileRecords(last, read(last));
      AppendAssociates(older, earlier, added);
    }
  }

  /** Parsing one more file counts its two CBC serials, CBC_0's first. */
  lemma BatchIdsStep(paths: seq<string>, path: string, read: string -> seq<string>, counts: map<string, nat>)
    ensures ObservedAll(counts, BatchIds(paths + [path], read)) ==
      Observed(Observed(ObservedAll(counts, BatchIds(paths, read)), CbcSerial(read(path), Cbc0)), CbcSerial(read(path), Cbc1))
  {
    var lines := read(path);
    var c0, c1 := CbcSerial(lines, Cbc0), CbcSerial(lines, Cbc1);
    assert (paths + [path])[..|paths|] == paths;
    assert BatchIds(paths + [path], read) == BatchIds(paths, read) + [c0, c1];
    var before := ObservedAll(counts, BatchIds(paths, read));
    ObservedAllAppend(counts, BatchIds(paths, read), [c0, c1]);
    assert [c0, c1][1..] == [c1];
    assert [c1][1..] == [];
    assert ObservedAll(before, [c0, c1]) == ObservedAll(Observed(before, c0), [c1]);
  }

  /**
   * Every record of a file carries the file's facts: the ProcMod serial or
   * "N/A", the file's base name, and its two CBC serials.
   */
  lemma FileRecordsCarryFacts(path: string, lines: seq<string>)
    ensures forall r :: r in FileRecords(path, lines) ==>
      && r.sn == ProcModSerial(lines).GetOr(NOT_AVAILABLE)
      && r.logFileName == Basename(path)
      && r.nvl0Sn == CbcSerial(lines, Cbc0) && r.nvl1Sn == CbcSerial(lines, Cbc1)
  {
  }

  /** Every record in `records` names a file among `names`. */
  predicate NamesAmong(records: seq<LinkRecord>, names: seq<string>) {
    forall r :: r in records ==> r.logFileName in names
  }

  /** Records that name files among two lists, put together, name files among the two lists put together. */
  lemma NamesAmongAppend(r1: seq<LinkRecord>, n1: seq<string>, r2: seq<LinkRecord>, n2: seq<string>)
    requires NamesAmong(r1, n1) && NamesAmong(r2, n2)
    ensures NamesAmong(r1 + r2, n1 + n2)
  {
    forall r | r in r1 + r2 ensures r.logFileName in n1 + n2 {
      if r in r1 {
        assert r.logFileName in n1;
      } else {
        assert r.logFileName in n2;
      }
    }
  }

  /** Every anchor record names the file of the facts it was built from. */
  lemma AnchorRecordsNameTheFile(lines: seq<string>, facts: FileFacts)
    ensures NamesAmong(AnchorRecords(lines, facts), [facts.logFileName])
  {
    var records := AnchorRecords(lines, facts);
    forall r | r in records ensures r.logFileName in [facts.logFileName] {
      var k :| 0 <= k < |records| && records[k] == r;
    }
  }

  /** The base names of `paths`, in order. */
  function Basenames(paths: seq<string>): (names: seq<string>)
    ensures |names| == |paths|
    ensures forall k :: 0 <= k < |paths| ==> names[k] == Basename(paths[k])
  {
    seq(|paths|, k requires 0 <= k < |paths| => Basename(paths[k]))
  }

  /** The base names of a non-empty batch: those of all but the last path, then the last one's. */
  lemma BasenamesStep(paths: seq<string>)
    requires paths != []
    ensures Basenames(paths) == Basenames(paths[..|paths| - 1]) + [Basename(paths[|paths| - 1])]
  {
  }

  /** Every record of a batch names the file it came from: one of the parsed paths. */
  lemma {:induction false} BatchRecordsNameTheirFiles(paths: seq<string>, read: string -> seq<string>)
    ensures NamesAmong(BatchRecords(paths, read), Basenames(paths))
    decreases |paths|
  {
    if paths != [] {
      var front, path := paths[..|paths| - 1], paths[|paths| - 1];
      BatchRecordsNameTheirFiles(front, read);
      var facts := FactsOf(path, read(path));
      AnchorRecordsNameTheFile(read(path), facts);
      assert facts.logFileName == Basename(path);
      NamesAmongAppend(BatchRecords(front, read), Basenames(front), FileRecords(path, read(path)), [Basename(path)]);
      BasenamesStep(paths);
    }
  }
}
