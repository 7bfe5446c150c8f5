/**
 * Python's `os.path.basename`, `os.path.dirname` and `os.path.join` with
 * `/` as the only separator (the POSIX flavour of `os.path`).
 */
module PosixPath {
  import opened Wrappers
  import opened Text

  /** Python's `s.rfind(c)`, with `None` for Python's `-1`. */
  function LastIndexOf(s: string, c: char): (r: Option<nat>)
    ensures r.None? <==> c !in s
    ensures r.Some? ==> r.value < |s| && s[r.value] == c && c !in s[r.value + 1..]
  {
    if s == [] then None
    else if s[|s| - 1] == c then Some(|s| - 1)
    else
      var r := LastIndexOf(s[..|s| - 1], c);
      assert r.Some? ==> s[r.value + 1..] == s[..|s| - 1][r.value + 1..] + [s[|s| - 1]];
      r
  }

  /** Where the final component of `p` starts: just after its last `/`. */
  function TailStart(p: string): (i: nat)
    ensures i <= |p| && '/' !in p[i..] && (0 < i ==> p[i - 1] == '/')
  {
    match LastIndexOf(p, '/')
    case None => 0
    case Some(k) => k + 1
  }

  /** Python's `os.path.basename(p)`: everything after the last `/`. */
  function Basename(p: string): (b: string)
    ensures '/' !in b && EndsWith(p, b)
    ensures |b| < |p| ==> p[|p| - |b| - 1] == '/'
  {
    p[TailStart(p)..]
  }

  predicate AllSlashes(s: string) {
    forall k :: 0 <= k < |s| ==> s[k] == '/'
  }

  /** `s.rstrip('/')`. */
  function StripTrailingSlashes(s: string): (r: string)
    ensures StartsWith(s, r) && AllSlashes(s[|r|..])
    ensures r == [] || r[|r| - 1] != '/'
  {
    if s != [] && s[|s| - 1] == '/' then
      var r := StripTrailingSlashes(s[..|s| - 1]);
      assert s[|r|..] == s[..|s| - 1][|r|..] + ['/'];
      r
    else s
  }

  /**
   * Python's `os.path.dirname(p)`: everything before the last `/`, without
   * the slashes that end it, unless it is made of slashes only (the root).
   */
  function Dirname(p: string): (d: string)
    ensures StartsWith(p, d) && |d| <= TailStart(p)
    ensures AllSlashes(p[|d|..TailStart(p)])
    ensures d == [] || d[|d| - 1] != '/' || AllSlashes(d)
  {
    var head := p[..TailStart(p)];
    if head != [] && !AllSlashes(head) then
      var d := StripTrailingSlashes(head);
      assert p[|d|..TailStart(p)] == head[|d|..];
      d
    else
      head
  }

  /** A path is its directory, the separating slashes and its final component. */
  lemma DirnameSlashesBasename(p: string)
    ensures exists k :: p == Dirname(p) + k + Basename(p) && AllSlashes(k)
  {
    var d, b, i := Dirname(p), Basename(p), TailStart(p);
    assert p == d + p[|d|..i] + b;
  }

  /** The final component of `x/name` starts just after the slash. */
  lemma TailOfChild(x: string, name: string)
    requires '/' !in name
    ensures TailStart(x + "/" + name) == |x| + 1
  {
    var p := x + "/" + name;
    var i := TailStart(p);
    assert p[|x|] == '/';
    assert p[|x| + 1..] == name;
  }

  /** The final component of `x/name` is `name`. */
  lemma BasenameOfChild(x: string, name: string)
    requires '/' !in name
    ensures Basename(x + "/" + name) == name
  {
    TailOfChild(x, name);
    assert (x + "/" + name)[|x| + 1..] == name;
  }

  /** Python's `os.path.join(dir, name)` for a name that is not absolute. */
  function Join(dir: string, name: string): (p: string)
    requires name == [] || name[0] != '/'
    ensures EndsWith(p, name)
  {
    if dir == [] || dir[|dir| - 1] == '/' then dir + name else dir + "/" + name
  }

  /** The final component of a joined path is the name that was joined. */
  lemma BasenameOfJoin(dir: string, name: string)
    requires '/' !in name
    ensures Basename(Join(dir, name)) == name
  {
    if dir == [] {
      assert Join(dir, name) == name;
    } else if dir[|dir| - 1] == '/' {
      var x := dir[..|dir| - 1];
      assert Join(dir, name) == x + "/" + name;
      BasenameOfChild(x, name);
    } else {
      BasenameOfChild(dir, name);
    }
  }

  /** The directory of `dir/name` is `dir`, when `dir` is a path that does not end in a slash. */
  lemma DirnameOfChild(dir: string, name: string)
    requires '/' !in name && dir != [] && dir[|dir| - 1] != '/'
    ensures Dirname(dir + "/" + name) == dir
  {
    var p := dir + "/" + name;
    TailOfChild(dir, name);
    var head := p[..|dir| + 1];
    assert head == dir + "/";
    assert head[|dir| - 1] != '/';
    assert head[..|dir|] == dir;
  }

  /** Python's `os.path.basename(os.path.dirname(os.path.dirname(p)))`. */
  function GrandparentName(p: string): string {
    Basename(Dirname(Dirname(p)))
  }

  /**
   * In a path laid out as `root/day/hour/file`, the grandparent directory
   * of the file is `day`.
   */
  lemma GrandparentOfLayout(root: string, day: string, hour: string, file: string)
    requires day != [] && hour != []
    requires '/' !in day && '/' !in hour && '/' !in file
    ensures GrandparentName(root + "/" + day + "/" + hour + "/" + file) == day
  {
    var dayDir := root + "/" + day;
    var hourDir := dayDir + "/" + hour;
    assert hourDir[|hourDir| - 1] == hour[|hour| - 1];
    assert dayDir[|dayDir| - 1] == day[|day| - 1];
    DirnameOfChild(hourDir, file);
    DirnameOfChild(dayDir, hour);
    BasenameOfChild(root, day);
  }

  /** A bare file name has no grandparent directory: its grandparent name is empty. */
  lemma BareNameHasNoGrandparent(name: string)
    requires '/' !in name
    ensures GrandparentName(name) == []
  {
  }

  /** A path that ends in a suffix without a `/` has a final component ending in it. */
  lemma BasenameKeepsSuffix(p: string, suffix: string)
    requires '/' !in suffix && EndsWith(p, suffix)
    ensures EndsWith(Basename(p), suffix)
  {
    var b := Basename(p);
    var n, m := |p|, |suffix|;
    assert p[n - m..] == suffix;
    assert b == p[n - |b|..];
    assert b[|b| - m..] == p[n - m..];
  }
}
