/**
 * The string primitives the log scripts lean on: `in`, `startswith`,
 * `endswith`, `strip()`, `split()` and `find`, over strings of `char`.
 * Whitespace is the ASCII set (space, tab, line feed, carriage return,
 * vertical tab, form feed).
 */
module Text {
  import opened Wrappers

  predicate IsSpace(c: char) {
    c == ' ' || c == '\t' || c == '\n' || c == '\r' || c == '\U{000B}' || c == '\U{000C}'
  }

  predicate IsDigit(c: char) {
    '0' <= c <= '9'
  }

  predicate AllSpace(s: string) {
    forall i :: 0 <= i < |s| ==> IsSpace(s[i])
  }

  predicate NoSpace(s: string) {
    forall i :: 0 <= i < |s| ==> !IsSpace(s[i])
  }

  predicate AllDigits(s: string) {
    forall i :: 0 <= i < |s| ==> IsDigit(s[i])
  }

  /** Python's `s.startswith(prefix)`. */
  predicate StartsWith(s: string, prefix: string) {
    |prefix| <= |s| && s[..|prefix|] == prefix
  }

  /** Python's `s.endswith(suffix)`. */
  predicate EndsWith(s: string, suffix: string) {
    |suffix| <= |s| && s[|s| - |suffix|..] == suffix
  }

  /** `sub` occurs in `s` starting at index `i`. */
  predicate OccursAt(s: string, sub: string, i: int) {
    0 <= i && i + |sub| <= |s| && s[i..i + |sub|] == sub
  }

  /** Python's `sub in s`. */
  predicate Contains(s: string, sub: string) {
    exists i :: 0 <= i <= |s| && OccursAt(s, sub, i)
  }

  /** `sub` placed anywhere in a string is found there. */
  lemma ContainsSplice(a: string, sub: string, b: string)
    ensures Contains(a + sub + b, sub)
  {
    var s := a + sub + b;
    assert s[|a|..|a| + |sub|] == sub;
    assert OccursAt(s, sub, |a|);
  }

  /** A string lacking one of the characters of `sub` cannot contain `sub`. */
  lemma MissingCharExcludes(s: string, sub: string, c: char)
    requires c in sub && c !in s
    ensures !Contains(s, sub)
  {
  }

  /** A string containing a character other than whitespace is not blank. */
  lemma ContainsWordIsNotBlank(s: string, sub: string, c: char)
    requires Contains(s, sub) && c in sub && !IsSpace(c)
    ensures !AllSpace(s)
  {
    var i :| 0 <= i <= |s| && OccursAt(s, sub, i);
    var j :| 0 <= j < |sub| && sub[j] == c;
    assert s[i + j] == s[i..i + |sub|][j];
  }

  /** Python's `s.find(c)`, with `None` for Python's `-1`. */
  function IndexOf(s: string, c: char): (r: Option<nat>)
    ensures r.None? <==> c !in s
    ensures r.Some? ==> r.value < |s| && s[r.value] == c && c !in s[..r.value]
  {
    if s == [] then None
    else if s[0] == c then Some(0)
    else
      match IndexOf(s[1..], c)
      case None => None
      case Some(k) =>
        assert s[..k + 1] == [s[0]] + s[1..][..k];
        Some(k + 1)
  }

  /** The number of whitespace characters `s` begins with. */
  function LeadingSpaces(s: string): (k: nat)
    ensures k <= |s| && AllSpace(s[..k]) && (k < |s| ==> !IsSpace(s[k]))
  {
    if s != [] && IsSpace(s[0]) then
      var k := 1 + LeadingSpaces(s[1..]);
      assert s[..k] == [s[0]] + s[1..][..k - 1];
      k
    else 0
  }

  /** Where the whitespace `s` ends with begins. */
  function TrailingStart(s: string): (k: nat)
    ensures k <= |s| && AllSpace(s[k..]) && (0 < k ==> !IsSpace(s[k - 1]))
  {
    if s != [] && IsSpace(s[|s| - 1]) then
      var k := TrailingStart(s[..|s| - 1]);
      assert s[k..] == s[..|s| - 1][k..] + [s[|s| - 1]];
      k
    else |s|
  }

  /** The two properties of `TrailingStart` determine it. */
  lemma {:induction false} TrailingStartUnique(s: string, k: nat)
    requires k <= |s| && AllSpace(s[k..]) && (0 < k ==> !IsSpace(s[k - 1]))
    ensures TrailingStart(s) == k
    decreases |s|
  {
    if k < |s| {
      var front := s[..|s| - 1];
      assert IsSpace(s[|s| - 1]) by { assert s[k..][|s| - 1 - k] == s[|s| - 1]; }
      forall i | 0 <= i < |front| - k ensures IsSpace(front[k..][i]) {
        assert front[k..][i] == s[k..][i];
      }
      if 0 < k {
        assert front[k - 1] == s[k - 1];
      }
      TrailingStartUnique(front, k);
    }
  }

  /** Python's `s.strip()`: `s` without its leading and trailing whitespace. */
  function Strip(s: string): (r: string)
    ensures exists i :: OccursAt(s, r, i) && AllSpace(s[..i]) && AllSpace(s[i + |r|..])
    ensures r == [] || (!IsSpace(r[0]) && !IsSpace(r[|r| - 1]))
  {
    var a := LeadingSpaces(s);
    var t := s[a..];
    var b := TrailingStart(t);
    assert a == |s| ==> b == 0;
    assert s[a + b..] == t[b..];
    assert OccursAt(s, t[..b], a);
    t[..b]
  }

  /** Stripping removes exactly the whitespace padding around a word that neither begins nor ends with whitespace. */
  lemma StripPadded(pre: string, w: string, post: string)
    requires AllSpace(pre) && AllSpace(post)
    requires w == [] || (!IsSpace(w[0]) && !IsSpace(w[|w| - 1]))
    ensures Strip(pre + w + post) == w
  {
    var s := pre + w + post;
    var a := LeadingSpaces(s);
    if w == [] {
      assert a == |s|;
    } else {
      assert s[|pre|] == w[0];
      assert a == |pre|;
      var t := s[a..];
      assert t == w + post;
      assert t[|w|..] == post;
      assert t[|w| - 1] == w[|w| - 1];
      TrailingStartUnique(t, |w|);
      assert t[..|w|] == w;
    }
  }

  /** A word that neither begins nor ends with whitespace is its own strip. */
  lemma StripTrimmed(w: string)
    requires w == [] || (!IsSpace(w[0]) && !IsSpace(w[|w| - 1]))
    ensures Strip(w) == w
  {
    StripPadded("", w, "");
    assert "" + w + "" == w;
  }

  /** A trimmed word followed by a blank strips to the word. */
  lemma StripSpaceAfter(w: string)
    requires w == [] || (!IsSpace(w[0]) && !IsSpace(w[|w| - 1]))
    ensures Strip(w + " ") == w
  {
    StripPadded("", w, " ");
    assert "" + w + " " == w + " ";
  }

  /** A trimmed word preceded by a blank strips to the word. */
  lemma StripSpaceBefore(w: string)
    requires w == [] || (!IsSpace(w[0]) && !IsSpace(w[|w| - 1]))
    ensures Strip(" " + w) == w
  {
    StripPadded(" ", w, "");
    assert " " + w + "" == " " + w;
  }

  /** The length of the run of non-whitespace characters `s` begins with. */
  function TokenLength(s: string): (n: nat)
    ensures n <= |s| && NoSpace(s[..n]) && (n < |s| ==> IsSpace(s[n]))
  {
    if s != [] && !IsSpace(s[0]) then
      var n := 1 + TokenLength(s[1..]);
      assert s[..n] == [s[0]] + s[1..][..n - 1];
      n
    else 0
  }

  /** Python's `s.split()`: the maximal runs of non-whitespace characters, in order. */
  function Split(s: string): (words: seq<string>)
    ensures forall k :: 0 <= k < |words| ==> words[k] != [] && NoSpace(words[k])
    ensures words == [] <==> AllSpace(s)
    decreases |s|
  {
    var a := LeadingSpaces(s);
    var rest := s[a..];
    if rest == [] then
      assert s[..a] == s;
      []
    else
      var n := TokenLength(rest);
      [rest[..n]] + Split(rest[n..])
  }

  /** Python's `s.split()[-1]`, for a line that is not blank. */
  function LastWord(s: string): string
    requires !AllSpace(s)
  {
    var words := Split(s);
    words[|words| - 1]
  }

  /** How `Split` takes a line apart: leading blanks, a first word, then the remainder. */
  predicate FirstWordAt(s: string, a: nat, n: nat) {
    a + n <= |s| && a == LeadingSpaces(s) && 0 < n && n == TokenLength(s[a..])
  }

  /** The final-run shape of `LastWordIsFinalRun`, for a candidate word `w`. */
  predicate FinalRun(s: string, w: string) {
    var t := s[..TrailingStart(s)];
    w != [] && NoSpace(w) && EndsWith(t, w) && (|w| == |t| || IsSpace(t[|t| - |w| - 1]))
  }

  /** `w` is a word of `s` starting at `j`, with only whitespace after it and whitespace or the start before it. */
  predicate FinalRunAt(s: string, j: nat, w: string) {
    && j + |w| <= |s| && w != [] && NoSpace(w) && s[j..j + |w|] == w
    && AllSpace(s[j + |w|..]) && (0 < j ==> IsSpace(s[j - 1]))
  }

  /** A final run at a known position is the final run of the line. */
  lemma FinalRunAtIsFinalRun(s: string, j: nat, w: string)
    requires FinalRunAt(s, j, w)
    ensures FinalRun(s, w)
  {
    var e := j + |w|;
    assert s[e - 1] == w[|w| - 1];
    TrailingStartUnique(s, e);
    var t := s[..e];
    assert t[|t| - |w|..] == w;
    if 0 < j {
      assert t[|t| - |w| - 1] == s[j - 1];
    }
  }

  /** A line that is not blank has a first word, and whitespace or the end follows it. */
  lemma FirstWordOf(s: string)
    requires !AllSpace(s)
    ensures FirstWordAt(s, LeadingSpaces(s), TokenLength(s[LeadingSpaces(s)..]))
    ensures var e := LeadingSpaces(s) + TokenLength(s[LeadingSpaces(s)..]); e < |s| ==> IsSpace(s[e])
  {
    var a := LeadingSpaces(s);
    var rest := s[a..];
    assert rest[0] == s[a];
    var n := TokenLength(rest);
    if a + n < |s| {
      assert rest[n] == s[a + n];
    }
  }

  /** How `Split` takes a line apart: its words are the first word, then the words of the remainder. */
  lemma SplitAtFirstWord(s: string, a: nat, n: nat)
    requires FirstWordAt(s, a, n)
    ensures Split(s) == [s[a..a + n]] + Split(s[a + n..])
  {
    var rest := s[a..];
    assert rest != [];
    assert rest[..n] == s[a..a + n];
    assert rest[n..] == s[a + n..];
  }

  /** Whitespace followed by a non-whitespace character or the end: the leading whitespace is all of it. */
  lemma {:induction false} LeadingSpacesOf(sep: string, t: string)
    requires AllSpace(sep) && (t == [] || !IsSpace(t[0]))
    ensures LeadingSpaces(sep + t) == |sep|
    decreases |sep|
  {
    if sep == [] {
      assert sep + t == t;
    } else {
      LeadingSpacesOf(sep[1..], t);
      assert (sep + t)[1..] == sep[1..] + t;
    }
  }

  /** A word followed by whitespace or the end: the token is all of the word. */
  lemma {:induction false} TokenLengthOf(w: string, rest: string)
    requires NoSpace(w) && (rest == [] || IsSpace(rest[0]))
    ensures TokenLength(w + rest) == |w|
    decreases |w|
  {
    if w == [] {
      assert w + rest == rest;
    } else {
      TokenLengthOf(w[1..], rest);
      assert (w + rest)[1..] == w[1..] + rest;
    }
  }

  /** Whitespace, a word, then the end or more whitespace: `Split` takes that word first. */
  lemma SplitPeelsWord(sep: string, w: string, rest: string)
    requires AllSpace(sep) && w != [] && NoSpace(w) && (rest == [] || IsSpace(rest[0]))
    ensures Split(sep + w + rest) == [w] + Split(rest)
  {
    var s, a := sep + w + rest, |sep|;
    assert s == sep + (w + rest);
    LeadingSpacesOf(sep, w + rest);
    assert s[a..] == w + rest;
    TokenLengthOf(w, rest);
    SplitAtFirstWord(s, a, |w|);
    assert s[a..a + |w|] == w;
    assert s[a + |w|..] == rest;
  }

  /** The words joined by single spaces. */
  function Unwords(words: seq<string>): string
    decreases |words|
  {
    if words == [] then []
    else if |words| == 1 then words[0]
    else words[0] + " " + Unwords(words[1..])
  }

  /** Leading whitespace, then joined words: the first word, then a space and the joined rest. */
  lemma UnwordsFirst(sep: string, words: seq<string>)
    requires |words| >= 2
    ensures sep + Unwords(words) == sep + words[0] + (" " + Unwords(words[1..]))
  {
  }

  /**
   * Splitting undoes joining: non-empty words without whitespace, joined
   * by spaces after any leading whitespace, split back into those words.
   */
  lemma {:induction false} SplitUnwords(sep: string, words: seq<string>)
    requires AllSpace(sep)
    requires forall k :: 0 <= k < |words| ==> words[k] != [] && NoSpace(words[k])
    ensures Split(sep + Unwords(words)) == words
    decreases |words|
  {
    if words == [] {
      assert sep + Unwords(words) == sep;
    } else if |words| == 1 {
      SplitPeelsWord(sep, words[0], []);
      assert sep + Unwords(words) == sep + words[0] + [];
    } else {
      var first, others := words[0], words[1..];
      assert forall k :: 0 <= k < |others| ==> others[k] == words[k + 1];
      SplitUnwords(" ", others);
      SplitPeelsWord(sep, first, " " + Unwords(others));
      UnwordsFirst(sep, words);
    }
  }

  /** A first word followed by whitespace only is the last word. */
  lemma LastWordOfOnlyWord(s: string, a: nat, n: nat)
    requires FirstWordAt(s, a, n) && AllSpace(s[a + n..])
    ensures LastWord(s) == s[a..a + n]
  {
    SplitAtFirstWord(s, a, n);
    assert Split(s[a + n..]) == [];
  }

  /** After a first word, the last word of the line is that of the remainder, if it has one. */
  lemma LastWordOfRemainder(s: string, a: nat, n: nat)
    requires FirstWordAt(s, a, n) && !AllSpace(s[a + n..])
    ensures LastWord(s) == LastWord(s[a + n..])
  {
    SplitAtFirstWord(s, a, n);
    var all, words := Split(s), Split(s[a + n..]);
    assert all == [s[a..a + n]] + words;
    assert all[|all| - 1] == words[|words| - 1];
  }

  /** The first word is the final run when only whitespace follows it. */
  lemma OnlyWordRunAt(s: string, a: nat, n: nat, w: string)
    requires FirstWordAt(s, a, n) && AllSpace(s[a + n..]) && w == s[a..a + n]
    ensures FinalRunAt(s, a, w)
  {
    assert s[a..][..n] == s[a..a + n];
    if 0 < a {
      assert s[a - 1] == s[..a][a - 1];
    }
  }

  /** A final run of a remainder that starts with whitespace is a final run of the whole line. */
  lemma RemainderRunAt(s: string, m: nat, tail: string, j: nat, w: string, start: nat)
    requires m < |s| && tail == s[m..] && IsSpace(s[m]) && FinalRunAt(tail, j, w) && start == m + j
    ensures FinalRunAt(s, start, w)
  {
    var e := m + j + |w|;
    assert j != 0;
    assert s[m + j..e] == tail[j..j + |w|];
    forall i | 0 <= i < |s| - e ensures IsSpace(s[e..][i]) {
      assert s[e..][i] == tail[j + |w|..][i];
    }
    assert s[m + j - 1] == tail[j - 1];
  }

  /** The last word sits at some position `start`, as the final run of the line. */
  lemma {:induction false} LastWordRunAt(s: string) returns (start: nat)
    requires !AllSpace(s)
    ensures FinalRunAt(s, start, LastWord(s))
    decreases |s|
  {
    var a := LeadingSpaces(s);
    var n := TokenLength(s[a..]);
    FirstWordOf(s);
    var tail := s[a + n..];
    if AllSpace(tail) {
      LastWordOfOnlyWord(s, a, n);
      OnlyWordRunAt(s, a, n, LastWord(s));
      start := a;
    } else {
      var j := LastWordRunAt(tail);
      LastWordOfRemainder(s, a, n);
      start := a + n + j;
      RemainderRunAt(s, a + n, tail, j, LastWord(s), start);
    }
  }

  /**
   * The last word is the final run of non-whitespace characters: once the
   * trailing whitespace is cut off, the line ends with the word, and the
   * word starts the line or follows a whitespace character.
   */
  lemma LastWordIsFinalRun(s: string)
    requires !AllSpace(s)
    ensures FinalRun(s, LastWord(s))
  {
    var start := LastWordRunAt(s);
    FinalRunAtIsFinalRun(s, start, LastWord(s));
  }
}
