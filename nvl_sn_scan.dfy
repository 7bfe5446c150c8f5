/**
 * The serial-number sweep: walk a directory tree, read every `.txt` file
 * whose name mentions `NVL`, pick up its `NVL0_SN` and `NVL1_SN` values and
 * count the known failing serials among them. The walk arrives as a
 * sequence of (directory, file name) entries and the file system as a
 * function from path to lines.
 */
module NvlSnScan {
  import opened Wrappers
  import opened Text
  import opened Seqs
  import opened PosixPath
  import opened FailureRegistry

  const NVL_TAG: string := "NVL"
  const TXT_SUFFIX: string := ".txt"
  const NVL0_KEY: string := "NVL0_SN"
  const NVL1_KEY: string := "NVL1_SN"

  /** One file name `os.walk` reports, with the directory it was found in. */
  datatype Entry = Entry(dirpath: string, filename: string)

  /** `os.walk` reports bare file names, without a `/`. */
  predicate BareEntries(entries: seq<Entry>) {
    forall k :: 0 <= k < |entries| ==> '/' !in entries[k].filename
  }

  /** `'NVL' in filename and filename.endswith('.txt')`. */
  predicate IsSerialFile(filename: string) {
    Contains(filename, NVL_TAG) && EndsWith(filename, TXT_SUFFIX)
  }

  function EntryPath(e: Entry): string
    requires '/' !in e.filename
  {
    Join(e.dirpath, e.filename)
  }

  // ---------------------------------------------------------------- Lines

  /**
   * `s.split('=')[1]`: the text between the first `=` and the next one (or
   * the end), with `None` for the `IndexError` of a line without `=`.
   */
  function SecondField(s: string): (r: Option<string>)
    ensures r.None? <==> '=' !in s
    ensures r.Some? ==> '=' !in r.value
  {
    match IndexOf(s, '=')
    case None => None
    case Some(i) =>
      var rest := s[i + 1..];
      match IndexOf(rest, '=')
      case None => Some(rest)
      case Some(j) => Some(rest[..j])
  }

  /** After a key without `=`, the second field is the value up to the next `=`, if any. */
  lemma SecondFieldOfAssignment(key: string, value: string, more: string)
    requires '=' !in key && '=' !in value
    ensures SecondField(key + "=" + value) == Some(value)
    ensures SecondField(key + "=" + value + "=" + more) == Some(value)
  {
    SecondFieldOfSingle(key, value);
    SecondFieldOfDouble(key, value, more);
  }

  lemma SecondFieldOfSingle(key: string, value: string)
    requires '=' !in key && '=' !in value
    ensures SecondField(key + "=" + value) == Some(value)
  {
    var s := key + "=" + value;
    assert s[|key|] == '=' && s[..|key|] == key;
    assert s[|key| + 1..] == value;
  }

  lemma SecondFieldOfDouble(key: string, value: string, more: string)
    requires '=' !in key && '=' !in value
    ensures SecondField(key + "=" + value + "=" + more) == Some(value)
  {
    var t := key + "=" + value + "=" + more;
    assert t[|key|] == '=' && t[..|key|] == key;
    var rest := t[|key| + 1..];
    assert rest == value + "=" + more;
    assert rest[|value|] == '=' && rest[..|value|] == value;
  }

  /** What one line of a serial file is, after `line.strip()`. */
  datatype LineKind =
    | Nvl0Line(value: string)
    | Nvl1Line(value: string)
    | OtherLine
      /** A key line without `=`: `split('=')[1]` raises and the file is given up. */
    | MalformedLine

  /** What a line is: its stripped text, classified. */
  function Classify(line: string): LineKind {
    ClassifyClean(Strip(line))
  }

  /** The `if`/`elif` on a stripped line: the `NVL0_SN` test comes first. */
  function ClassifyClean(clean: string): LineKind {
    if StartsWith(clean, NVL0_KEY) then
      match SecondField(clean)
      case None => MalformedLine
      case Some(v) => Nvl0Line(Strip(v))
    else if StartsWith(clean, NVL1_KEY) then
      match SecondField(clean)
      case None => MalformedLine
      case Some(v) => Nvl1Line(Strip(v))
    else OtherLine
  }

  /** The pieces `Classify` looks at in a `key=value` line. */
  lemma AssignmentParts(key: string, value: string)
    requires key != [] && '=' !in key && !IsSpace(key[0])
    requires value != [] && '=' !in value && !IsSpace(value[0]) && !IsSpace(value[|value| - 1])
    ensures Strip(key + "=" + value) == key + "=" + value
    ensures StartsWith(key + "=" + value, key)
    ensures SecondField(key + "=" + value) == Some(value)
    ensures Strip(value) == value
  {
    var line := key + "=" + value;
    assert line[0] == key[0] && line[|line| - 1] == value[|value| - 1];
    StripTrimmed(line);
    StripTrimmed(value);
    SecondFieldOfAssignment(key, value, "");
    assert line[..|key|] == key;
  }

  /** A key line whose value is a trimmed word without `=` yields that word. */
  lemma ClassifyAssignment(key: string, value: string)
    requires key == NVL0_KEY || key == NVL1_KEY
    requires value != [] && '=' !in value && !IsSpace(value[0]) && !IsSpace(value[|value| - 1])
    ensures Classify(key + "=" + value) == if key == NVL0_KEY then Nvl0Line(value) else Nvl1Line(value)
  {
    assert key[0] == 'N' && key[3] != '=' && '=' !in key;
    AssignmentParts(key, value);
    if key == NVL1_KEY {
      var line := key + "=" + value;
      assert !StartsWith(line, NVL0_KEY) by {
        assert line[3] == key[3];
      }
    }
  }

  /** Before the first `=`, a prefix without `=` is met exactly when the part before it starts with that prefix. */
  lemma PrefixBeforeEquals(key: string, tail: string, prefix: string)
    requires '=' !in key && '=' !in prefix && tail != [] && tail[0] == '='
    ensures StartsWith(key + tail, prefix) <==> StartsWith(key, prefix)
  {
    var s := key + tail;
    if |prefix| <= |key| {
      assert s[..|prefix|] == key[..|prefix|];
    } else if |prefix| <= |s| {
      assert s[..|prefix|][|key|] == '=';
      assert prefix[|key|] != '=';
    }
  }

  /**
   * Any line that, once stripped, is `key=value` or `key=value=more` with no
   * `=` in `key` or `value`: a key starting with `NVL0_SN` sets nvl0 to the
   * stripped value, one starting with `NVL1_SN` (but not `NVL0_SN`) sets
   * nvl1, and any other key leaves both alone. Padding around the key and
   * the value, longer keys such as `NVL0_SN_B`, an empty value and a later
   * `=` are all covered.
   */
  lemma ClassifyLine(line: string, key: string, value: string, more: string)
    requires '=' !in key && '=' !in value
    requires Strip(line) == key + "=" + value || Strip(line) == key + "=" + value + "=" + more
    ensures StartsWith(key, NVL0_KEY) ==> Classify(line) == Nvl0Line(Strip(value))
    ensures !StartsWith(key, NVL0_KEY) && StartsWith(key, NVL1_KEY) ==> Classify(line) == Nvl1Line(Strip(value))
    ensures !StartsWith(key, NVL0_KEY) && !StartsWith(key, NVL1_KEY) ==> Classify(line) == OtherLine
  {
    if Strip(line) == key + "=" + value {
      ClassifySingleAssignment(line, key, value);
    } else {
      ClassifyDoubleAssignment(line, key, value, more);
    }
  }

  /** `ClassifyLine` for a stripped line `key=value`. */
  lemma ClassifySingleAssignment(line: string, key: string, value: string)
    requires '=' !in key && '=' !in value && Strip(line) == key + "=" + value
    ensures StartsWith(key, NVL0_KEY) ==> Classify(line) == Nvl0Line(Strip(value))
    ensures !StartsWith(key, NVL0_KEY) && StartsWith(key, NVL1_KEY) ==> Classify(line) == Nvl1Line(Strip(value))
    ensures !StartsWith(key, NVL0_KEY) && !StartsWith(key, NVL1_KEY) ==> Classify(line) == OtherLine
  {
    var clean, tail := Strip(line), "=" + value;
    assert clean == key + tail;
    SecondFieldOfSingle(key, value);
    KeyPrefixesBeforeEquals(key, tail);
    ClassifyByKey(clean, key, value);
  }

  /** `ClassifyLine` for a stripped line `key=value=more`. */
  lemma ClassifyDoubleAssignment(line: string, key: string, value: string, more: string)
    requires '=' !in key && '=' !in value && Strip(line) == key + "=" + value + "=" + more
    ensures StartsWith(key, NVL0_KEY) ==> Classify(line) == Nvl0Line(Strip(value))
    ensures !StartsWith(key, NVL0_KEY) && StartsWith(key, NVL1_KEY) ==> Classify(line) == Nvl1Line(Strip(value))
    ensures !StartsWith(key, NVL0_KEY) && !StartsWith(key, NVL1_KEY) ==> Classify(line) == OtherLine
  {
    var clean, tail := Strip(line), "=" + value + "=" + more;
    RegroupAfterKey(key, value, more);
    SecondFieldOfDouble(key, value, more);
    KeyPrefixesBeforeEquals(key, tail);
    ClassifyByKey(clean, key, value);
  }

  /** `key=value=more` is the key followed by the rest of the line. */
  lemma RegroupAfterKey(key: string, value: string, more: string)
    ensures key + "=" + value + "=" + more == key + ("=" + value + "=" + more)
  {
    AppendAssociates(key, "=" + value, "=" + more);
    AppendAssociates(key, "=", value);
    AppendAssociates(key + "=" + value, "=", more);
    AppendAssociates("=" + value, "=", more);
  }

  /** Both key tests see only the part of the line before its first `=`. */
  lemma KeyPrefixesBeforeEquals(key: string, tail: string)
    requires '=' !in key && tail != [] && tail[0] == '='
    ensures StartsWith(key + tail, NVL0_KEY) <==> StartsWith(key, NVL0_KEY)
    ensures StartsWith(key + tail, NVL1_KEY) <==> StartsWith(key, NVL1_KEY)
  {
    assert '=' !in NVL0_KEY && '=' !in NVL1_KEY;
    PrefixBeforeEquals(key, tail, NVL0_KEY);
    PrefixBeforeEquals(key, tail, NVL1_KEY);
  }

  /** A stripped line whose key tests are those of `key` and whose second field is `value`. */
  lemma ClassifyByKey(clean: string, key: string, value: string)
    requires SecondField(clean) == Some(value)
    requires StartsWith(clean, NVL0_KEY) == StartsWith(key, NVL0_KEY)
    requires StartsWith(clean, NVL1_KEY) == StartsWith(key, NVL1_KEY)
    ensures StartsWith(key, NVL0_KEY) ==> ClassifyClean(clean) == Nvl0Line(Strip(value))
    ensures !StartsWith(key, NVL0_KEY) && StartsWith(key, NVL1_KEY) ==> ClassifyClean(clean) == Nvl1Line(Strip(value))
    ensures !StartsWith(key, NVL0_KEY) && !StartsWith(key, NVL1_KEY) ==> ClassifyClean(clean) == OtherLine
  {
  }

  /** A line that starts, once stripped, with a key but holds no `=` gives the file up. */
  lemma KeyWithoutEqualsIsMalformed(line: string)
    requires StartsWith(Strip(line), NVL0_KEY) || StartsWith(Strip(line), NVL1_KEY)
    requires '=' !in line
    ensures Classify(line) == MalformedLine
  {
    var clean := Strip(line);
    var i :| OccursAt(line, clean, i) && AllSpace(line[..i]) && AllSpace(line[i + |clean|..]);
    assert clean == line[i..i + |clean|];
  }

  // -------------------------------------------------------------- One file

  /** What a file yields: given up, or the last `NVL0_SN` and `NVL1_SN` values it holds. */
  datatype Scan = Abandoned | Scanned(nvl0: Option<string>, nvl1: Option<string>)

  /** What each line of a file is. */
  function Kinds(lines: seq<string>): (kinds: seq<LineKind>)
    ensures |kinds| == |lines|
    ensures forall i :: 0 <= i < |lines| ==> kinds[i] == Classify(lines[i])
  {
    seq(|lines|, i requires 0 <= i < |lines| => Classify(lines[i]))
  }

  function Nvl0Writes(kinds: seq<LineKind>): (w: seq<Option<string>>)
    ensures |w| == |kinds|
  {
    seq(|kinds|, i requires 0 <= i < |kinds| => if kinds[i].Nvl0Line? then Some(kinds[i].value) else None)
  }

  function Nvl1Writes(kinds: seq<LineKind>): (w: seq<Option<string>>)
    ensures |w| == |kinds|
  {
    seq(|kinds|, i requires 0 <= i < |kinds| => if kinds[i].Nvl1Line? then Some(kinds[i].value) else None)
  }

  predicate HasMalformed(kinds: seq<LineKind>) {
    exists i :: 0 <= i < |kinds| && kinds[i].MalformedLine?
  }

  /**
   * The file's outcome, from what its lines are: one malformed key line
   * anywhere gives the whole file up; otherwise each key keeps the value of
   * its last line.
   */
  function ScanKinds(kinds: seq<LineKind>): Scan {
    if HasMalformed(kinds) then Abandoned
    else Scanned(LastSome(Nvl0Writes(kinds)), LastSome(Nvl1Writes(kinds)))
  }

  function ScanOf(lines: seq<string>): Scan {
    ScanKinds(Kinds(lines))
  }

  /** The body of the line loop: strip the line, test it for each key and split it at `=`. */
  method ReadLine(line: string) returns (kind: LineKind)
    ensures kind == Classify(line)
  {
    var cleanLine := Strip(line);
    if StartsWith(cleanLine, NVL0_KEY) {
      var field := SecondField(cleanLine);
      if field.None? {
        return MalformedLine;
      }
      return Nvl0Line(Strip(field.value));
    } else if StartsWith(cleanLine, NVL1_KEY) {
      var field := SecondField(cleanLine);
      if field.None? {
        return MalformedLine;
      }
      return Nvl1Line(Strip(field.value));
    }
    return OtherLine;
  }

  /** What one more line does to a scan that has not been given up. */
  function NextScan(scan: Scan, kind: LineKind): Scan
    requires scan.Scanned?
  {
    match kind
    case MalformedLine => Abandoned
    case Nvl0Line(v) => Scanned(Some(v), scan.nvl1)
    case Nvl1Line(v) => Scanned(scan.nvl0, Some(v))
    case OtherLine => scan
  }

  /** Scanning one more line: a given-up file stays given up, otherwise the line is applied. */
  lemma ScanKindsStep(kinds: seq<LineKind>, i: nat)
    requires i < |kinds|
    ensures ScanKinds(kinds[..i]).Abandoned? ==> ScanKinds(kinds[..i + 1]).Abandoned?
    ensures ScanKinds(kinds[..i]).Scanned? ==> ScanKinds(kinds[..i + 1]) == NextScan(ScanKinds(kinds[..i]), kinds[i])
  {
    var front, longer := kinds[..i], kinds[..i + 1];
    assert longer[..i] == front;
    if HasMalformed(front) {
      var j :| 0 <= j < |front| && front[j].MalformedLine?;
      assert longer[j] == front[j];
    } else if kinds[i].MalformedLine? {
      assert longer[i] == kinds[i];
    } else {
      assert !HasMalformed(longer) by {
        forall j | 0 <= j < |longer| ensures !longer[j].MalformedLine? {
          if j < i {
            assert longer[j] == front[j];
          }
        }
      }
      var w0, w1 := Nvl0Writes(longer), Nvl1Writes(longer);
      LastSomeStep(w0, i);
      LastSomeStep(w1, i);
      assert w0[..i] == Nvl0Writes(front);
      assert w1[..i] == Nvl1Writes(front);
      assert w0[..i + 1] == w0 && w1[..i + 1] == w1;
    }
  }

  /**
   * The line loop over one file: a later key line overwrites an earlier one
   * and the first malformed key line ends the file.
   */
  method ScanFile(lines: seq<string>) returns (scan: Scan)
    ensures scan == ScanOf(lines)
  {
    ghost var kinds := Kinds(lines);
    var nvl0Sn: Option<string> := None;
    var nvl1Sn: Option<string> := None;
    assert ScanKinds(kinds[..0]) == Scanned(None, None) by {
      assert kinds[..0] == [];
    }
    for i := 0 to |lines|
      invariant ScanKinds(kinds[..i]) == Scanned(nvl0Sn, nvl1Sn)
    {
      ScanKindsStep(kinds, i);
      var kind := ReadLine(lines[i]);
      assert kind == kinds[i];
      match kind
      case MalformedLine =>
        assert kinds[..|lines|][i] == kinds[i];
        assert kinds[..|lines|] == kinds;
        return Abandoned;
      case Nvl0Line(v) =>
        nvl0Sn := Some(v);
      case Nvl1Line(v) =>
        nvl1Sn := Some(v);
      case OtherLine =>
    }
    assert kinds[..|lines|] == kinds;
    return Scanned(nvl0Sn, nvl1Sn);
  }

  /** Position `i` holds the last `NVL0_SN` line among `kinds`. */
  predicate LastNvl0At(kinds: seq<LineKind>, i: int) {
    0 <= i < |kinds| && kinds[i].Nvl0Line? && forall j :: i < j < |kinds| ==> !kinds[j].Nvl0Line?
  }

  /** Position `i` holds the last `NVL1_SN` line among `kinds`. */
  predicate LastNvl1At(kinds: seq<LineKind>, i: int) {
    0 <= i < |kinds| && kinds[i].Nvl1Line? && forall j :: i < j < |kinds| ==> !kinds[j].Nvl1Line?
  }

  /** The `NVL0_SN` value kept is that of the last `NVL0_SN` line, and none without one. */
  lemma Nvl0IsLastWrite(kinds: seq<LineKind>)
    ensures LastSome(Nvl0Writes(kinds)).None? <==> forall j :: 0 <= j < |kinds| ==> !kinds[j].Nvl0Line?
    ensures forall i :: LastNvl0At(kinds, i) ==> LastSome(Nvl0Writes(kinds)) == Some(kinds[i].value)
  {
    var w := Nvl0Writes(kinds);
    LastSomeIsLast(w);
    assert forall j :: 0 <= j < |kinds| ==> (w[j].None? <==> !kinds[j].Nvl0Line?);
    forall i | LastNvl0At(kinds, i) ensures IsLastSome(w, i) {
    }
  }

  /** The `NVL1_SN` value kept is that of the last `NVL1_SN` line, and none without one. */
  lemma Nvl1IsLastWrite(kinds: seq<LineKind>)
    ensures LastSome(Nvl1Writes(kinds)).None? <==> forall j :: 0 <= j < |kinds| ==> !kinds[j].Nvl1Line?
    ensures forall i :: LastNvl1At(kinds, i) ==> LastSome(Nvl1Writes(kinds)) == Some(kinds[i].value)
  {
    var w := Nvl1Writes(kinds);
    LastSomeIsLast(w);
    assert forall j :: 0 <= j < |kinds| ==> (w[j].None? <==> !kinds[j].Nvl1Line?);
    forall i | LastNvl1At(kinds, i) ensures IsLastSome(w, i) {
    }
  }

  /**
   * The last key lines win: for a file without malformed key lines, each
   * serial, on its own, is absent exactly when no line has its key, and
   * otherwise is the value of the last line with its key.
   */
  lemma ScanKeepsLastValues(lines: seq<string>)
    requires forall j :: 0 <= j < |lines| ==> !Classify(lines[j]).MalformedLine?
    ensures ScanOf(lines).Scanned?
    ensures ScanOf(lines).nvl0.None? <==> forall j :: 0 <= j < |lines| ==> !Classify(lines[j]).Nvl0Line?
    ensures forall i :: LastNvl0At(Kinds(lines), i) ==> ScanOf(lines).nvl0 == Some(Classify(lines[i]).value)
    ensures ScanOf(lines).nvl1.None? <==> forall j :: 0 <= j < |lines| ==> !Classify(lines[j]).Nvl1Line?
    ensures forall i :: LastNvl1At(Kinds(lines), i) ==> ScanOf(lines).nvl1 == Some(Classify(lines[i]).value)
  {
    var kinds := Kinds(lines);
    assert !HasMalformed(kinds);
    Nvl0IsLastWrite(kinds);
    Nvl1IsLastWrite(kinds);
  }

  /** One malformed key line anywhere gives the file up. */
  lemma MalformedLineAbandons(lines: seq<string>, i: nat)
    requires i < |lines| && Classify(lines[i]) == MalformedLine
    ensures ScanOf(lines) == Abandoned
  {
    assert Kinds(lines)[i].MalformedLine?;
  }

  /** A file without key lines yields neither serial, and leaves the counts as they were. */
  lemma NoKeyLinesNoSerials(lines: seq<string>, counts: map<string, nat>)
    requires forall j :: 0 <= j < |lines| ==> Classify(lines[j]) == OtherLine
    ensures ScanOf(lines) == Scanned(None, None)
    ensures FileCounts(counts, ScanOf(lines)) == counts
  {
    var kinds := Kinds(lines);
    LastSomeIsLast(Nvl0Writes(kinds));
    LastSomeIsLast(Nvl1Writes(kinds));
  }

  /** A two-line file is scanned by what its two lines are. */
  lemma ScanOfTwoLines(first: string, second: string)
    ensures ScanOf([first, second]) == ScanKinds([Classify(first), Classify(second)])
  {
    assert Kinds([first, second]) == [Classify(first), Classify(second)];
  }

  /** An `NVL0_SN` line followed by an `NVL1_SN` line yields both values. */
  lemma Nvl0ThenNvl1(a: string, b: string)
    ensures ScanKinds([Nvl0Line(a), Nvl1Line(b)]) == Scanned(Some(a), Some(b))
  {
    var kinds := [Nvl0Line(a), Nvl1Line(b)];
    ScanKindsStep(kinds, 0);
    ScanKindsStep(kinds, 1);
    assert kinds[..0] == [] && kinds[..2] == kinds;
  }

  /** A file holding one `NVL0_SN=a` line and one `NVL1_SN=b` line yields `a` and `b`. */
  lemma TwoAssignmentsScan(a: string, b: string)
    requires a != [] && '=' !in a && !IsSpace(a[0]) && !IsSpace(a[|a| - 1])
    requires b != [] && '=' !in b && !IsSpace(b[0]) && !IsSpace(b[|b| - 1])
    ensures ScanOf([NVL0_KEY + "=" + a, NVL1_KEY + "=" + b]) == Scanned(Some(a), Some(b))
  {
    ClassifyAssignment(NVL0_KEY, a);
    ClassifyAssignment(NVL1_KEY, b);
    ScanOfTwoLines(NVL0_KEY + "=" + a, NVL1_KEY + "=" + b);
    Nvl0ThenNvl1(a, b);
  }

  // ------------------------------------------------------------- Registry

  /**
   * The registry update after one file, as written: when either serial was
   * found, a known `NVL0_SN` is counted once, and a known `NVL1_SN` counts
   * the `NVL0_SN` key once more. `None` is the `KeyError` raised when that
   * second increment finds no such key; the file is then given up.
   */
  function PairUpdate(counts: map<string, nat>, nvl0: Option<string>, nvl1: Option<string>): Option<map<string, nat>> {
    if nvl0.None? && nvl1.None? then Some(counts)
    else
      var first := if nvl0.Some? && nvl0.value in counts then counts[nvl0.value := counts[nvl0.value] + 1] else counts;
      if nvl1.Some? && nvl1.value in counts then
        if nvl0.Some? && nvl0.value in counts then Some(first[nvl0.value := first[nvl0.value] + 1]) else None
      else Some(first)
  }

  /** The counts after one file: unchanged when the file was given up or the update raised. */
  function FileCounts(counts: map<string, nat>, scan: Scan): map<string, nat> {
    match scan
    case Abandoned => counts
    case Scanned(nvl0, nvl1) =>
      match PairUpdate(counts, nvl0, nvl1)
      case None => counts
      case Some(next) => next
  }

  /**
   * The update keeps the keys and changes no count except the `NVL0_SN`
   * one, which grows by one for each of the two serials that is known; a
   * known `NVL1_SN` therefore never has its own count raised.
   */
  lemma PairUpdateCounts(counts: map<string, nat>, nvl0: Option<string>, nvl1: Option<string>)
    requires PairUpdate(counts, nvl0, nvl1).Some?
    ensures var next := PairUpdate(counts, nvl0, nvl1).value;
      && next.Keys == counts.Keys
      && (forall k :: k in counts && Some(k) != nvl0 ==> next[k] == counts[k])
      && (nvl0.Some? && nvl0.value in counts ==>
            next[nvl0.value] == counts[nvl0.value] + 1 + (if nvl1.Some? && nvl1.value in counts then 1 else 0))
  {
  }

  /**
   * The update raises exactly when `NVL1_SN` is known and `NVL0_SN` is
   * absent or unknown; the file is then given up and the counts stay.
   */
  lemma PairUpdateRaises(counts: map<string, nat>, nvl0: Option<string>, nvl1: Option<string>)
    ensures PairUpdate(counts, nvl0, nvl1).None?
        <==> nvl1.Some? && nvl1.value in counts && (nvl0.None? || nvl0.value !in counts)
    ensures PairUpdate(counts, nvl0, nvl1).None? ==> FileCounts(counts, Scanned(nvl0, nvl1)) == counts
  {
  }

  /** Two known serials count the `NVL0_SN` twice and leave a different `NVL1_SN` alone. */
  lemma KnownPairCountsNvl0Twice(counts: map<string, nat>, nvl0: string, nvl1: string)
    requires nvl0 in counts && nvl1 in counts && nvl0 != nvl1
    ensures var next := FileCounts(counts, Scanned(Some(nvl0), Some(nvl1)));
      next[nvl0] == counts[nvl0] + 2 && next[nvl1] == counts[nvl1]
  {
  }

  /**
   * Lines 52-56 against the registry: the increments happen in place, and
   * the `KeyError` comes before any change, so a raising update changes
   * nothing. `ok` is false when it raised.
   */
  method UpdateRegistry(registry: Registry, nvl0Sn: Option<string>, nvl1Sn: Option<string>) returns (ok: bool)
    requires registry.Valid()
    modifies registry
    ensures registry.Valid()
    ensures ok == PairUpdate(old(registry.counts), nvl0Sn, nvl1Sn).Some?
    ensures registry.counts == FileCounts(old(registry.counts), Scanned(nvl0Sn, nvl1Sn))
  {
    if nvl0Sn.None? && nvl1Sn.None? {
      return true;
    }
    if registry.Has(nvl0Sn) {
      var _ := registry.Increment(nvl0Sn);
    }
    if registry.Has(nvl1Sn) {
      if !registry.Has(nvl0Sn) {
        return false;
      }
      var _ := registry.Increment(nvl0Sn);
    }
    return true;
  }

  // ---------------------------------------------------------------- Walk

  /** The counts after the walk has visited `entries`, in order. */
  function WalkCounts(counts: map<string, nat>, entries: seq<Entry>, read: string -> seq<string>): map<string, nat>
    requires BareEntries(entries)
    decreases |entries|
  {
    if entries == [] then counts
    else
      var front := entries[..|entries| - 1];
      var e := entries[|entries| - 1];
      var before := WalkCounts(counts, front, read);
      if IsSerialFile(e.filename) then FileCounts(before, ScanOf(read(EntryPath(e)))) else before
  }

  /** The file results the sweep returns; the line that would add them is disabled. */
  datatype FileSerials = FileSerials(filepath: string, nvl0: Option<string>, nvl1: Option<string>)

  /**
   * `find_serial_numbers`: every entry of the walk that passes the name test
   * is scanned and counted. Nothing is ever added to the returned list.
   */
  method FindSerialNumbers(entries: seq<Entry>, read: string -> seq<string>, registry: Registry) returns (results: seq<FileSerials>)
    requires BareEntries(entries)
    requires registry.Valid()
    modifies registry
    ensures registry.Valid()
    ensures results == []
    ensures registry.counts == WalkCounts(old(registry.counts), entries, read)
  {
    results := [];
    for i := 0 to |entries|
      invariant registry.Valid()
      invariant registry.counts == WalkCounts(old(registry.counts), entries[..i], read)
    {
      assert entries[..i + 1][..i] == entries[..i];
      var entry := entries[i];
      if Contains(entry.filename, NVL_TAG) && EndsWith(entry.filename, TXT_SUFFIX) {
        var filepath := Join(entry.dirpath, entry.filename);
        var scan := ScanFile(read(filepath));
        if scan.Scanned? {
          var _ := UpdateRegistry(registry, scan.nvl0, scan.nvl1);
        }
      }
    }
    assert entries[..|entries|] == entries;
  }

  /** The walk never adds or drops a registry key. */
  lemma {:induction false} WalkKeepsKeys(counts: map<string, nat>, entries: seq<Entry>, read: string -> seq<string>)
    requires BareEntries(entries)
    ensures WalkCounts(counts, entries, read).Keys == counts.Keys
    decreases |entries|
  {
    if entries != [] {
      var front := entries[..|entries| - 1];
      WalkKeepsKeys(counts, front, read);
      var e := entries[|entries| - 1];
      var before := WalkCounts(counts, front, read);
      if IsSerialFile(e.filename) {
        var scan := ScanOf(read(EntryPath(e)));
        if scan.Scanned? && PairUpdate(before, scan.nvl0, scan.nvl1).Some? {
          PairUpdateCounts(before, scan.nvl0, scan.nvl1);
        }
      }
    }
  }

  /** No count ever goes down during the walk. */
  lemma {:induction false} WalkNeverLowersCounts(counts: map<string, nat>, entries: seq<Entry>, read: string -> seq<string>)
    requires BareEntries(entries)
    ensures forall k :: k in counts ==> k in WalkCounts(counts, entries, read) && counts[k] <= WalkCounts(counts, entries, read)[k]
    decreases |entries|
  {
    if entries != [] {
      var front := entries[..|entries| - 1];
      WalkNeverLowersCounts(counts, front, read);
      var e := entries[|entries| - 1];
      var before := WalkCounts(counts, front, read);
      if IsSerialFile(e.filename) {
        var scan := ScanOf(read(EntryPath(e)));
        if scan.Scanned? && PairUpdate(before, scan.nvl0, scan.nvl1).Some? {
          PairUpdateCounts(before, scan.nvl0, scan.nvl1);
        }
      }
    }
  }

  /** The name test, on a walk entry. */
  predicate IsSerialEntry(e: Entry) {
    IsSerialFile(e.filename)
  }

  /** Keeping some walk entries keeps them bare. */
  lemma {:induction false} FilterKeepsBareEntries(entries: seq<Entry>)
    requires BareEntries(entries)
    ensures BareEntries(Filter(entries, IsSerialEntry))
  {
    var kept := Filter(entries, IsSerialEntry);
    FilterIsSelection(entries, IsSerialEntry);
    forall k | 0 <= k < |kept| ensures '/' !in kept[k].filename {
      assert kept[k] == entries[Positions(entries, IsSerialEntry)[k]];
    }
  }

  /** Entries whose names fail the test are never opened: only the serial files decide the counts. */
  lemma {:induction false} OnlySerialFilesCount(counts: map<string, nat>, entries: seq<Entry>, read: string -> seq<string>)
    requires BareEntries(entries)
    ensures BareEntries(Filter(entries, IsSerialEntry))
    ensures WalkCounts(counts, entries, read) == WalkCounts(counts, Filter(entries, IsSerialEntry), read)
    decreases |entries|
  {
    FilterKeepsBareEntries(entries);
    if entries != [] {
      var front := entries[..|entries| - 1];
      var e := entries[|entries| - 1];
      assert BareEntries(front);
      OnlySerialFilesCount(counts, front, read);
      var kept := Filter(front, IsSerialEntry);
      var before := WalkCounts(counts, front, read);
      assert WalkCounts(counts, entries, read) == if IsSerialFile(e.filename) then FileCounts(before, ScanOf(read(EntryPath(e)))) else before;
      if IsSerialEntry(e) {
        var all := kept + [e];
        assert Filter(entries, IsSerialEntry) == all;
        assert all[..|all| - 1] == kept && all[|all| - 1] == e;
      } else {
        assert Filter(entries, IsSerialEntry) == kept;
      }
    }
  }
}
