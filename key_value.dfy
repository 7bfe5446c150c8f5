/**
 * The `get_value_from_log` lookup shared, word for word, by the three
 * key/value report scripts: scan the text line by line, split each line at
 * its first `=`, strip both sides, and return the stripped value of the
 * first line whose stripped key equals the requested key exactly; when no
 * line does, return the sentinel "Value not found".
 */
module KeyValue {
  import opened Wrappers
  import opened Text
  import opened Seqs

  /** The sentinel returned for a key that no line defines. */
  const NOT_FOUND: string := "Value not found"

  /**
   * Python's `content.splitlines()` for text whose only line break is `\n`:
   * a final line break does not start an empty last line.
   */
  function SplitLines(content: string): (lines: seq<string>)
    ensures forall k :: 0 <= k < |lines| ==> '\n' !in lines[k]
    decreases |content|
  {
    if content == [] then []
    else
      match IndexOf(content, '\n')
      case None => [content]
      case Some(k) => [content[..k]] + SplitLines(content[k + 1..])
  }

  /**
   * No text is lost in splitting: writing the lines back, each followed by a
   * line break, gives the text, with at most one line break added at the end.
   */
  lemma {:induction false} JoinSplitLines(content: string)
    ensures JoinLines(SplitLines(content)) == content || JoinLines(SplitLines(content)) == content + "\n"
    decreases |content|
  {
    if content != [] {
      match IndexOf(content, '\n')
      case None =>
        assert [content][1..] == [];
      case Some(k) =>
        var line, rest := content[..k], content[k + 1..];
        assert content == line + "\n" + rest;
        SplitLinesAtBreak(line, rest);
        JoinSplitLines(rest);
        JoinLinesCons(line, SplitLines(rest));
        BreakBeforeRest(line, rest, JoinLines(SplitLines(rest)));
    }
  }

  /** Writing a first line, then the others. */
  lemma JoinLinesCons(line: string, others: seq<string>)
    ensures JoinLines([line] + others) == line + "\n" + JoinLines(others)
  {
    assert ([line] + others)[1..] == others;
  }

  /** A line and a break in front of a text written back with at most one break added. */
  lemma BreakBeforeRest(line: string, rest: string, written: string)
    requires written == rest || written == rest + "\n"
    ensures line + "\n" + written == line + "\n" + rest || line + "\n" + written == line + "\n" + rest + "\n"
  {
    AppendAssociates(line + "\n", rest, "\n");
  }

  /** The text of `lines`, each line followed by a line break. */
  function JoinLines(lines: seq<string>): string {
    if lines == [] then [] else lines[0] + "\n" + JoinLines(lines[1..])
  }

  /** Splitting the text of a file written line by line gives back its lines. */
  lemma {:induction false} SplitLinesOfJoin(lines: seq<string>)
    requires forall k :: 0 <= k < |lines| ==> '\n' !in lines[k]
    ensures SplitLines(JoinLines(lines)) == lines
  {
    if lines != [] {
      SplitLinesAtBreak(lines[0], JoinLines(lines[1..]));
      SplitLinesOfJoin(lines[1..]);
    }
  }

  /** A line without a break, then a break: that line comes first and the rest is split on its own. */
  lemma SplitLinesAtBreak(head: string, rest: string)
    requires '\n' !in head
    ensures SplitLines(head + "\n" + rest) == [head] + SplitLines(rest)
  {
    var content := head + "\n" + rest;
    assert content[|head|] == '\n';
    assert content[..|head|] == head;
    assert content[|head| + 1..] == rest;
  }

  /** A `key = value` line, both sides stripped. */
  datatype Entry = Entry(key: string, value: string)

  /** `line.split('=', 1)` with both parts stripped; `None` when the line has no `=`. */
  function ParseLine(line: string): (e: Option<Entry>)
    ensures e.None? <==> '=' !in line
  {
    match IndexOf(line, '=')
    case None => None
    case Some(k) => Some(Entry(Strip(line[..k]), Strip(line[k + 1..])))
  }

  /**
   * The line is split at its first `=` only: whatever follows, further `=`
   * signs included, is the value.
   */
  lemma ParseLineSplitsAtFirstEquals(key: string, value: string)
    requires '=' !in key
    ensures ParseLine(key + "=" + value) == Some(Entry(Strip(key), Strip(value)))
  {
    var line := key + "=" + value;
    var k := IndexOf(line, '=').value;
    assert line[|key|] == '=';
    assert line[..k] == key;
    assert line[k + 1..] == value;
  }

  /** Every line of a file, parsed. */
  function ParseLines(lines: seq<string>): (entries: seq<Option<Entry>>)
    ensures |entries| == |lines|
    ensures forall i :: 0 <= i < |lines| ==> entries[i] == ParseLine(lines[i])
  {
    seq(|lines|, i requires 0 <= i < |lines| => ParseLine(lines[i]))
  }

  /** The entry is a `key = value` line whose stripped key is exactly `key`. */
  predicate Defines(entry: Option<Entry>, key: string) {
    entry.Some? && entry.value.key == key
  }

  /** The value of the first entry that defines `key`, if any. */
  function Find(entries: seq<Option<Entry>>, key: string): Option<string>
    decreases |entries|
  {
    if entries == [] then None
    else if Defines(entries[0], key) then Some(entries[0].value.value)
    else Find(entries[1..], key)
  }

  /** What `get_value_from_log(content, key)` answers: the first definition's value, or the sentinel. */
  function ValueOf(content: string, key: string): string {
    Find(ParseLines(SplitLines(content)), key).GetOr(NOT_FOUND)
  }

  /**
   * Python's `get_value_from_log(file_content, key)`: walk the lines and
   * return at the first one whose stripped key is `key`.
   */
  method GetValueFromLog(content: string, key: string) returns (value: string)
    ensures value == ValueOf(content, key)
  {
    var lines := SplitLines(content);
    ghost var entries := ParseLines(lines);
    var i := 0;
    while i < |lines|
      invariant i <= |lines|
      invariant Find(entries, key) == Find(entries[i..], key)
    {
      assert entries[i..][1..] == entries[i + 1..];
      var parts := ParseLine(lines[i]);
      if parts.Some? && parts.value.key == key {
        return parts.value.value;
      }
      i := i + 1;
    }
    return NOT_FOUND;
  }

  /** Entry `i` is the first entry that defines `key`. */
  predicate IsFirstDefinition(entries: seq<Option<Entry>>, key: string, i: int) {
    0 <= i < |entries| && Defines(entries[i], key) && forall j :: 0 <= j < i ==> !Defines(entries[j], key)
  }

  /**
   * `Find` answers with the first defining line: it finds nothing exactly
   * when no line defines the key, and otherwise it returns the stripped
   * value of the first line that does.
   */
  lemma {:induction false} FindIsFirstMatch(entries: seq<Option<Entry>>, key: string)
    ensures Find(entries, key).None? <==> forall i :: 0 <= i < |entries| ==> !Defines(entries[i], key)
    ensures forall i :: IsFirstDefinition(entries, key, i) ==> Find(entries, key) == Some(entries[i].value.value)
    decreases |entries|
  {
    if entries != [] && !Defines(entries[0], key) {
      var rest := entries[1..];
      FindIsFirstMatch(rest, key);
      forall i | IsFirstDefinition(entries, key, i)
        ensures Find(entries, key) == Some(entries[i].value.value)
      {
        assert IsFirstDefinition(rest, key, i - 1);
      }
    }
  }

  /**
   * Later lines cannot override earlier ones: a key defined in the first
   * part of a file keeps that value whatever follows, and the second part
   * is consulted only when the first does not define the key.
   */
  lemma {:induction false} FindFirstWins(a: seq<Option<Entry>>, b: seq<Option<Entry>>, key: string)
    ensures Find(a + b, key) == if Find(a, key).Some? then Find(a, key) else Find(b, key)
    decreases |a|
  {
    if a == [] {
      assert a + b == b;
    } else {
      assert (a + b)[0] == a[0];
      assert (a + b)[1..] == a[1..] + b;
      FindFirstWins(a[1..], b, key);
    }
  }

  /** A file holding one line. */
  lemma SplitOneLine(line: string)
    requires '\n' !in line
    ensures SplitLines(line + "\n") == [line]
  {
    SplitLinesOfJoin([line]);
    assert JoinLines([line]) == line + "\n";
  }

  /** Whitespace around the `=` is not part of the key or the value. */
  lemma ParsePaddedLine(key: string, value: string)
    requires '=' !in key
    requires key == [] || (!IsSpace(key[0]) && !IsSpace(key[|key| - 1]))
    requires value == [] || (!IsSpace(value[0]) && !IsSpace(value[|value| - 1]))
    ensures ParseLine(key + " = " + value) == Some(Entry(key, value))
  {
    assert key + " = " + value == (key + " ") + "=" + (" " + value);
    ParseLineSplitsAtFirstEquals(key + " ", " " + value);
    StripSpaceAfter(key);
    StripSpaceBefore(value);
  }

  /** A file of one `key = value` line parses to that one entry. */
  lemma ParseOneLineFile(key: string, value: string)
    requires '=' !in key && '\n' !in key && '\n' !in value
    requires key == [] || (!IsSpace(key[0]) && !IsSpace(key[|key| - 1]))
    requires value == [] || (!IsSpace(value[0]) && !IsSpace(value[|value| - 1]))
    ensures ParseLines(SplitLines(key + " = " + value + "\n")) == [Some(Entry(key, value))]
  {
    var line := key + " = " + value;
    SplitOneLine(line);
    ParsePaddedLine(key, value);
  }

  /** A file whose only entry is `key = value` answers only for `key`. */
  lemma LookupInOneEntryFile(content: string, key: string, value: string, other: string)
    requires ParseLines(SplitLines(content)) == [Some(Entry(key, value))]
    ensures ValueOf(content, other) == if other == key then value else NOT_FOUND
  {
    var entries := [Some(Entry(key, value))];
    assert entries[1..] == [];
    assert Find(entries, other) == if other == key then Some(value) else None;
  }

  /** Keys compare exactly: a one-line file answers only for its own key, in its own case. */
  lemma KeysCompareExactly(key: string, value: string, other: string)
    requires '=' !in key && '\n' !in key && '\n' !in value
    requires key == [] || (!IsSpace(key[0]) && !IsSpace(key[|key| - 1]))
    requires value == [] || (!IsSpace(value[0]) && !IsSpace(value[|value| - 1]))
    ensures ValueOf(key + " = " + value + "\n", other) == if other == key then value else NOT_FOUND
  {
    ParseOneLineFile(key, value);
    LookupInOneEntryFile(key + " = " + value + "\n", key, value, other);
  }

  /** Text written as `lines` then `more` splits into both, in order. */
  lemma {:induction false} JoinLinesAppend(lines: seq<string>, more: seq<string>)
    ensures JoinLines(lines + more) == JoinLines(lines) + JoinLines(more)
    decreases |lines|
  {
    if lines == [] {
      assert lines + more == more;
    } else {
      assert (lines + more)[1..] == lines[1..] + more;
      JoinLinesAppend(lines[1..], more);
    }
  }

  /** No line of `lines` contains a line break. */
  predicate SingleLines(lines: seq<string>) {
    forall k :: 0 <= k < |lines| ==> '\n' !in lines[k]
  }

  /** Parsing works line by line. */
  lemma ParseLinesAppend(a: seq<string>, b: seq<string>)
    ensures ParseLines(a + b) == ParseLines(a) + ParseLines(b)
  {
    var l, r := ParseLines(a + b), ParseLines(a) + ParseLines(b);
    assert |l| == |r|;
    forall i | 0 <= i < |l| ensures l[i] == r[i] {
      if i >= |a| { assert (a + b)[i] == b[i - |a|]; }
    }
  }

  /**
   * A key repeated further down a file does not change the answer: when the
   * first part of a file defines the key, the lookup over the whole file is
   * the lookup over that part.
   */
  lemma FirstPartDecides(first: seq<string>, rest: seq<string>, key: string)
    requires SingleLines(first) && SingleLines(rest)
    requires Find(ParseLines(first), key).Some?
    ensures ValueOf(JoinLines(first + rest), key) == ValueOf(JoinLines(first), key)
  {
    var all := first + rest;
    assert SingleLines(all) by {
      forall k | 0 <= k < |all| ensures '\n' !in all[k] {
        if k >= |first| { assert all[k] == rest[k - |first|]; }
      }
    }
    SplitLinesOfJoin(all);
    SplitLinesOfJoin(first);
    ParseLinesAppend(first, rest);
    FindFirstWins(ParseLines(first), ParseLines(rest), key);
  }
}
