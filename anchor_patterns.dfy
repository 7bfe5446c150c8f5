/**
 * The three captures taken from a code-marked data line:
 *   `re.search(r"(GPU\d+_\S+),", line)`   the GPU port name,
 *   `re.search(r"Nvlink\s+(\d+)", line)`  the NVLink number,
 *   `re.search(r"Lane\s+(\d+)", line)`    the lane number,
 * each written as a scanner for that one pattern, with "N/A" when the
 * pattern does not occur. `\d` is an ASCII digit and `\s` an ASCII
 * whitespace character.
 *
 * `re.search` takes the leftmost position where the pattern matches, and
 * there the first match its backtracking finds. For these three patterns
 * that is the match with the longest capture: `\d+` is always followed by a
 * character that is not a digit and `\s+` by one that is not whitespace, so
 * giving back characters never helps them, and `\S+` gives back characters
 * one at a time from the end of the run until a comma follows it, so it
 * stops at the last comma of the run.
 */
module AnchorPatterns {
  import opened Wrappers
  import opened Text

  /** The value recorded when a pattern does not occur. */
  const NOT_AVAILABLE: string := "N/A"

  predicate DigitsIn(s: string, i: int, j: int) {
    0 <= i <= j <= |s| && forall k :: i <= k < j ==> IsDigit(s[k])
  }

  predicate SpacesIn(s: string, i: int, j: int) {
    0 <= i <= j <= |s| && forall k :: i <= k < j ==> IsSpace(s[k])
  }

  predicate NoSpaceIn(s: string, i: int, j: int) {
    0 <= i <= j <= |s| && forall k :: i <= k < j ==> !IsSpace(s[k])
  }

  /** The end of the run of digits that starts at `i`. */
  function DigitsEnd(s: string, i: nat): (j: nat)
    requires i <= |s|
    ensures DigitsIn(s, i, j) && (j < |s| ==> !IsDigit(s[j]))
    decreases |s| - i
  {
    if i < |s| && IsDigit(s[i]) then DigitsEnd(s, i + 1) else i
  }

  /** The end of the run of whitespace that starts at `i`. */
  function SpacesEnd(s: string, i: nat): (j: nat)
    requires i <= |s|
    ensures SpacesIn(s, i, j) && (j < |s| ==> !IsSpace(s[j]))
    decreases |s| - i
  {
    if i < |s| && IsSpace(s[i]) then SpacesEnd(s, i + 1) else i
  }

  /** The end of the run of non-whitespace characters that starts at `i`. */
  function NonSpaceEnd(s: string, i: nat): (j: nat)
    requires i <= |s|
    ensures NoSpaceIn(s, i, j) && (j < |s| ==> IsSpace(s[j]))
    decreases |s| - i
  {
    if i < |s| && !IsSpace(s[i]) then NonSpaceEnd(s, i + 1) else i
  }

  /** The last comma at a position in `lo .. hi - 1`. */
  function LastCommaIn(s: string, lo: nat, hi: nat): (r: Option<nat>)
    requires hi <= |s|
    ensures r.None? ==> forall k :: lo <= k < hi ==> s[k] != ','
    ensures r.Some? ==> lo <= r.value < hi && s[r.value] == ',' && forall k :: r.value < k < hi ==> s[k] != ','
    decreases hi
  {
    if hi <= lo then None
    else if s[hi - 1] == ',' then Some(hi - 1)
    else LastCommaIn(s, lo, hi - 1)
  }

  /** One of the three patterns. */
  datatype Pattern =
    | GpuPort                  // (GPU\d+_\S+),
    | NumberAfter(word: string)  // <word>\s+(\d+)

  const NVLINK: Pattern := NumberAfter("Nvlink")
  const LANE: Pattern := NumberAfter("Lane")

  /**
   * `GPU`, digits up to the underscore at `q`, then at least one
   * non-whitespace character up to the comma at `c`.
   */
  predicate GpuShape(s: string, p: int, q: int, c: int) {
    OccursAt(s, "GPU", p) && p + 3 < q && q + 1 < c < |s|
    && DigitsIn(s, p + 3, q) && s[q] == '_' && NoSpaceIn(s, q + 1, c) && s[c] == ','
  }

  /** The pattern matches at `p` with the capture group spanning `a .. b - 1`. */
  ghost predicate Matches(pat: Pattern, s: string, p: int, a: int, b: int) {
    match pat
    case GpuPort => a == p && exists q :: GpuShape(s, p, q, b)
    case NumberAfter(word) =>
      OccursAt(s, word, p) && p + |word| < a < b
      && SpacesIn(s, p + |word|, a) && DigitsIn(s, a, b)
  }

  /** Where the capture group lies. */
  datatype Span = Span(start: nat, end: nat)

  /** The match at `p` with the longest capture, found by scanning the runs that follow `p`. */
  function MatchAt(pat: Pattern, s: string, p: nat): (m: Option<Span>)
    ensures m.Some? ==> p <= m.value.start <= m.value.end <= |s|
  {
    match pat
    case GpuPort =>
      if !OccursAt(s, "GPU", p) then None
      else
        var q := DigitsEnd(s, p + 3);
        if q == p + 3 || q == |s| || s[q] != '_' then None
        else
          (match LastCommaIn(s, q + 2, NonSpaceEnd(s, q + 1))
           case None => None
           case Some(c) => Some(Span(p, c)))
    case NumberAfter(word) =>
      if !OccursAt(s, word, p) then None
      else
        var a := SpacesEnd(s, p + |word|);
        var b := DigitsEnd(s, a);
        if a == p + |word| || b == a then None else Some(Span(a, b))
  }

  /** `MatchAt` finds a GPU port match exactly when there is one, and the longest. */
  lemma GpuMatchAtIsLongest(s: string, p: nat)
    ensures MatchAt(GpuPort, s, p).Some? ==> var m := MatchAt(GpuPort, s, p).value; Matches(GpuPort, s, p, m.start, m.end)
    ensures forall a, b :: Matches(GpuPort, s, p, a, b) ==>
      MatchAt(GpuPort, s, p).Some? && a == MatchAt(GpuPort, s, p).value.start && b <= MatchAt(GpuPort, s, p).value.end
  {
    if m :| MatchAt(GpuPort, s, p) == Some(m) {
      var q := DigitsEnd(s, p + 3);
      assert GpuShape(s, p, q, m.end);
    }
    forall a, b | Matches(GpuPort, s, p, a, b)
      ensures MatchAt(GpuPort, s, p).Some? && a == MatchAt(GpuPort, s, p).value.start && b <= MatchAt(GpuPort, s, p).value.end
    {
      var q' :| GpuShape(s, p, q', b);
      var q := DigitsEnd(s, p + 3);
      if q' < q {
        assert IsDigit(s[q']);
      }
      var e := NonSpaceEnd(s, q + 1);
      assert LastCommaIn(s, q + 2, e).Some?;
    }
  }

  /** `MatchAt` finds a number match exactly when there is one, and the longest. */
  lemma NumberMatchAtIsLongest(word: string, s: string, p: nat)
    ensures MatchAt(NumberAfter(word), s, p).Some? ==>
      var m := MatchAt(NumberAfter(word), s, p).value; Matches(NumberAfter(word), s, p, m.start, m.end)
    ensures forall a, b :: Matches(NumberAfter(word), s, p, a, b) ==>
      var r := MatchAt(NumberAfter(word), s, p); r.Some? && a == r.value.start && b <= r.value.end
  {
    var pat := NumberAfter(word);
    forall a', b' | Matches(pat, s, p, a', b')
      ensures var r := MatchAt(pat, s, p); r.Some? && a' == r.value.start && b' <= r.value.end
    {
      var a := SpacesEnd(s, p + |word|);
      assert IsDigit(s[a']);
      if a' < a {
      } else if a' > a {
      }
      assert a' == a;
      var b := DigitsEnd(s, a);
      if b' > b {
      }
    }
  }

  lemma MatchAtIsLongest(pat: Pattern, s: string, p: nat)
    ensures MatchAt(pat, s, p).Some? ==> var m := MatchAt(pat, s, p).value; Matches(pat, s, p, m.start, m.end)
    ensures forall a, b :: Matches(pat, s, p, a, b) ==>
      var r := MatchAt(pat, s, p); r.Some? && a == r.value.start && b <= r.value.end
  {
    match pat
    case GpuPort => GpuMatchAtIsLongest(s, p);
    case NumberAfter(word) => NumberMatchAtIsLongest(word, s, p);
  }

  /** A match: where the pattern starts and where its capture group lies. */
  datatype Hit = Hit(at: nat, group: Span)

  /**
   * `re.search` from position `from` on: the leftmost position where the
   * pattern matches, with the longest capture there.
   */
  function SearchFrom(pat: Pattern, s: string, from: nat): (r: Option<Hit>)
    ensures r.Some? ==> from <= r.value.at && r.value.group.start <= r.value.group.end <= |s|
    decreases |s| + 1 - from
  {
    if from > |s| then None
    else
      match MatchAt(pat, s, from)
      case Some(m) => Some(Hit(from, m))
      case None => SearchFrom(pat, s, from + 1)
  }

  /**
   * The search finds the leftmost position at or after `from` where the
   * pattern matches, and there the longest capture; it finds something
   * whenever the pattern matches at or after `from`.
   */
  lemma {:induction false} SearchIsLeftmostLongest(pat: Pattern, s: string, from: nat)
    ensures var r := SearchFrom(pat, s, from);
      r.Some? ==> Matches(pat, s, r.value.at, r.value.group.start, r.value.group.end)
    ensures forall p, a, b :: from <= p && Matches(pat, s, p, a, b) ==>
      var r := SearchFrom(pat, s, from);
      r.Some? && (r.value.at < p || (r.value.at == p && a == r.value.group.start && b <= r.value.group.end))
    decreases |s| + 1 - from
  {
    MatchAtIsLongest(pat, s, from);
    if from <= |s| && MatchAt(pat, s, from).None? {
      SearchIsLeftmostLongest(pat, s, from + 1);
    }
  }

  /** `m.group(1) if m else "N/A"` for `m = re.search(pattern, line)`. */
  function Capture(pat: Pattern, line: string): string {
    match SearchFrom(pat, line, 0)
    case Some(h) => line[h.group.start..h.group.end]
    case None => NOT_AVAILABLE
  }

  /**
   * A capture other than "N/A" is the group of some match of the pattern,
   * and a line on which the pattern matches nowhere gives "N/A".
   */
  lemma CaptureIsAMatch(pat: Pattern, line: string)
    ensures Capture(pat, line) != NOT_AVAILABLE ==>
      exists p, a, b :: Matches(pat, line, p, a, b) && Capture(pat, line) == line[a..b]
    ensures (forall p, a, b :: !Matches(pat, line, p, a, b)) ==> Capture(pat, line) == NOT_AVAILABLE
  {
    SearchIsLeftmostLongest(pat, line, 0);
  }

  /**
   * The GPU port capture of a line whose leftmost match starts at `p`:
   * `GPU<digits>_` and then the non-whitespace characters up to the last
   * comma of their run, which is where `\S+` stops giving characters back.
   */
  lemma GpuCaptureOfLeftmostMatch(s: string, p: nat, q: nat, c: nat)
    requires GpuShape(s, p, q, c)
    requires forall p', a, b :: 0 <= p' < p ==> !Matches(GpuPort, s, p', a, b)
    requires forall k :: c < k < NonSpaceEnd(s, c) ==> s[k] != ','
    ensures Capture(GpuPort, s) == s[p..c]
  {
    assert Matches(GpuPort, s, p, p, c);
    SearchIsLeftmostLongest(GpuPort, s, 0);
    var h := SearchFrom(GpuPort, s, 0).value;
    var e := h.group.end;
    var q' :| GpuShape(s, h.at, q', e);
    assert h.at == p;
    if q' < q {
    } else if q < q' {
    }
    if c < e {
    }
  }

  /**
   * The number capture of a line whose leftmost match starts at `p`: the
   * whole run of digits after the word and its whitespace.
   */
  lemma NumberCaptureOfLeftmostMatch(word: string, s: string, p: nat, a: nat, b: nat)
    requires Matches(NumberAfter(word), s, p, a, b)
    requires forall p', a', b' :: 0 <= p' < p ==> !Matches(NumberAfter(word), s, p', a', b')
    requires b == |s| || !IsDigit(s[b])
    ensures Capture(NumberAfter(word), s) == s[a..b]
  {
    SearchIsLeftmostLongest(NumberAfter(word), s, 0);
    var h := SearchFrom(NumberAfter(word), s, 0).value;
    assert h.at == p;
    if b < h.group.end {
    }
  }

  /** The data line of the worked example, `GPU0_NVLINK, Nvlink 3, Lane 5 MODS-000000000140`. */
  predicate IsExampleLine(line: string) {
    line == "GPU0_" + "NVLINK" + ", " + "Nvlink" + " " + "3" + ", " + "Lane" + " " + "5" + " " + "MODS-000000000140"
  }

  /** The port and link words at the head of the example line. */
  lemma ExampleLineHead(line: string)
    requires IsExampleLine(line)
    ensures |line| == 47
    ensures line[..3] == "GPU" && line[3] == '0' && line[4] == '_' && line[5..11] == "NVLINK"
    ensures line[11] == ',' && line[12] == ' '
    ensures forall k :: 1 <= k <= 13 ==> line[k] != 'v'
  {
    var head := "GPU0_" + "NVLINK" + ", ";
    assert line[..13] == head;
    assert |line| == 47;
    assert line[..3] == "GPU" && line[3] == '0' && line[4] == '_' && line[5..11] == "NVLINK";
    assert forall k :: 1 <= k <= 13 ==> line[k] != 'v' by {
      forall k | 1 <= k <= 13 ensures line[k] != 'v' {
        if k < 13 { assert line[k] == head[k]; }
      }
    }
  }

  /** The link and lane numbers in the middle of the example line. */
  lemma ExampleLineMiddle(line: string)
    requires IsExampleLine(line)
    ensures |line| == 47
    ensures line[13..19] == "Nvlink" && line[19] == ' ' && line[20] == '3' && line[21] == ','
    ensures line[23..27] == "Lane" && line[27] == ' ' && line[28] == '5' && line[29] == ' '
    ensures forall k :: 1 <= k <= 23 ==> line[k] != 'a'
  {
    var head, middle := "GPU0_" + "NVLINK" + ", ", "Nvlink" + " " + "3" + ", ";
    assert line[..13] == head;
    assert line[13..23] == middle;
    assert line[23..27] == "Lane";
    assert forall k :: 1 <= k <= 23 ==> line[k] != 'a' by {
      forall k | 1 <= k <= 23 ensures line[k] != 'a' {
        if k < 13 { assert line[k] == head[k]; }
        else if k < 23 { assert line[k] == middle[k - 13]; }
      }
    }
  }

  /** The characters of the example line the captures depend on. */
  lemma ExampleLineCharacters(line: string)
    requires IsExampleLine(line)
    ensures |line| == 47
    ensures line[..3] == "GPU" && line[3] == '0' && line[4] == '_' && line[5..11] == "NVLINK"
    ensures line[11] == ',' && line[12] == ' '
    ensures line[13..19] == "Nvlink" && line[19] == ' ' && line[20] == '3' && line[21] == ','
    ensures line[23..27] == "Lane" && line[27] == ' ' && line[28] == '5' && line[29] == ' '
    ensures line[30..] == "MODS-000000000140"
    ensures forall k :: 1 <= k <= 13 ==> line[k] != 'v'
    ensures forall k :: 1 <= k <= 23 ==> line[k] != 'a'
  {
    ExampleLineHead(line);
    ExampleLineMiddle(line);
  }

  /** The GPU port capture of the example line is `GPU0_NVLINK`. */
  lemma ExampleGpuPort(line: string)
    requires |line| == 47
    requires line[..3] == "GPU" && line[3] == '0' && line[4] == '_' && line[5..11] == "NVLINK"
    requires line[11] == ',' && line[12] == ' '
    ensures Capture(GpuPort, line) == "GPU0_NVLINK"
  {
    assert NoSpaceIn(line, 5, 11) by {
      forall k | 5 <= k < 11 ensures !IsSpace(line[k]) {
        assert line[k] == line[5..11][k - 5];
      }
    }
    assert GpuShape(line, 0, 4, 11);
    assert NonSpaceEnd(line, 12) == 12;
    GpuCaptureOfLeftmostMatch(line, 0, 4, 11);
    assert line[0..11] == line[..3] + [line[3], line[4]] + line[5..11];
  }

  /** The number after `word`, when the word's second letter does not occur before `p + 1`. */
  lemma ExampleNumber(word: string, line: string, p: nat, d: char)
    requires |word| >= 2 && p + |word| + 2 <= |line|
    requires line[p..p + |word|] == word && line[p + |word|] == ' ' && line[p + |word| + 1] == d
    requires IsDigit(d) && (p + |word| + 2 == |line| || !IsDigit(line[p + |word| + 2]))
    requires forall k :: 1 <= k <= p ==> line[k] != word[1]
    ensures Capture(NumberAfter(word), line) == [d]
  {
    var a := p + |word| + 1;
    assert Matches(NumberAfter(word), line, p, a, a + 1);
    forall p', a', b' | 0 <= p' < p ensures !Matches(NumberAfter(word), line, p', a', b') {
      if p' + |word| <= |line| {
        assert line[p'..p' + |word|][1] == line[p' + 1];
      }
    }
    NumberCaptureOfLeftmostMatch(word, line, p, a, a + 1);
  }

  /**
   * On the line `GPU0_NVLINK, Nvlink 3, Lane 5 MODS-000000000140` the
   * three captures are `GPU0_NVLINK`, `3` and `5`.
   */
  lemma ExampleLineCaptures(line: string)
    requires IsExampleLine(line)
    ensures Capture(GpuPort, line) == "GPU0_NVLINK"
    ensures Capture(NVLINK, line) == "3"
    ensures Capture(LANE, line) == "5"
  {
    ExampleLineCharacters(line);
    ExampleGpuPort(line);
    ExampleNumber("Nvlink", line, 13, '3');
    ExampleNumber("Lane", line, 23, '5');
  }
}
