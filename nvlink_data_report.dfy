/**
 * The driver of the NVLink data script: list one directory, parse every
 * entry whose name ends in `.log` with `parse_log_file`, and gather the
 * records of all of them in listing order. Listing the directory and
 * reading the files are not modelled: the listing arrives as a sequence of
 * names and the file system as a function from path to lines.
 */
module NvlinkDataReport {
  import opened Text
  import opened PosixPath
  import opened FailureRegistry
  import opened FruLog
  import opened Seqs

  const LOG_SUFFIX: string := ".log"

  /** Directory entries are bare names: no name holds a `/`. */
  predicate BareNames(names: seq<string>) {
    forall k :: 0 <= k < |names| ==> '/' !in names[k]
  }

  /** The paths of the listed entries whose name ends in `.log`, in listing order. */
  function LogPaths(dir: string, names: seq<string>): (paths: seq<string>)
    requires BareNames(names)
    ensures |paths| <= |names|
    decreases |names|
  {
    if names == [] then []
    else
      var name := names[|names| - 1];
      assert name == [] || name[0] in name;
      LogPaths(dir, names[..|names| - 1]) + (if EndsWith(name, LOG_SUFFIX) then [Join(dir, name)] else [])
  }

  /** The entries the script parses: those whose name ends in `.log`. */
  predicate IsLogName(name: string) {
    EndsWith(name, LOG_SUFFIX)
  }

  /**
   * The parsed paths are the folder joined to the listed `.log` names, one
   * per such name and in listing order: the k-th path joins the name at
   * the k-th position whose name ends in `.log`.
   */
  lemma {:induction false} LogPathsAreJoinedLogEntries(dir: string, names: seq<string>)
    requires BareNames(names)
    ensures |LogPaths(dir, names)| == |Positions(names, IsLogName)|
    ensures forall k :: 0 <= k < |LogPaths(dir, names)| ==>
      var name := names[Positions(names, IsLogName)[k]];
      LogPaths(dir, names)[k] == Join(dir, name)
    decreases |names|
  {
    if names != [] {
      var front, last := names[..|names| - 1], names[|names| - 1];
      assert BareNames(front) by {
        forall k | 0 <= k < |front| ensures '/' !in front[k] {
          assert front[k] == names[k];
        }
      }
      LogPathsAreJoinedLogEntries(dir, front);
      var before, ix := LogPaths(dir, front), Positions(front, IsLogName);
      forall k | 0 <= k < |before|
        ensures names[Positions(names, IsLogName)[k]] == front[ix[k]]
        ensures LogPaths(dir, names)[k] == before[k]
      {
        assert Positions(names, IsLogName)[k] == ix[k];
      }
    }
  }

  /** No listed `.log` entry is skipped: each one's joined path is parsed. */
  lemma EveryLogEntryIsParsed(dir: string, names: seq<string>)
    requires BareNames(names)
    ensures forall i :: 0 <= i < |names| && IsLogName(names[i]) ==> Join(dir, names[i]) in LogPaths(dir, names)
  {
    LogPathsAreJoinedLogEntries(dir, names);
    var ix := Positions(names, IsLogName);
    forall i | 0 <= i < |names| && IsLogName(names[i]) ensures Join(dir, names[i]) in LogPaths(dir, names) {
      var k :| 0 <= k < |ix| && ix[k] == i;
      assert LogPaths(dir, names)[k] == Join(dir, names[i]);
    }
  }

  /** The paths of a listing prefix grown by one entry. */
  lemma LogPathsStep(dir: string, names: seq<string>, i: nat)
    requires BareNames(names) && i < |names|
    ensures BareNames(names[..i]) && BareNames(names[..i + 1])
    ensures EndsWith(names[i], LOG_SUFFIX) ==> LogPaths(dir, names[..i + 1]) == LogPaths(dir, names[..i]) + [Join(dir, names[i])]
    ensures !EndsWith(names[i], LOG_SUFFIX) ==> LogPaths(dir, names[..i + 1]) == LogPaths(dir, names[..i])
  {
    assert names[..i + 1][..i] == names[..i];
  }

  /** Every path of `paths` names an entry of `names` that ends in `.log`. */
  predicate NameLogEntries(paths: seq<string>, names: seq<string>) {
    forall p :: p in paths ==> Basename(p) in names && EndsWith(Basename(p), LOG_SUFFIX)
  }

  lemma NameLogEntriesAppend(before: seq<string>, front: seq<string>, added: seq<string>, names: seq<string>)
    requires NameLogEntries(before, front) && NameLogEntries(added, names)
    requires forall x :: x in front ==> x in names
    ensures NameLogEntries(before + added, names)
  {
    forall p | p in before + added ensures Basename(p) in names && EndsWith(Basename(p), LOG_SUFFIX) {
      if p !in before {
        assert p in added;
      }
    }
  }

  /**
   * Only `.log` entries are parsed: every path handed to the parser names
   * a listed entry whose name ends in `.log`.
   */
  lemma {:induction false} LogPathsNameLogEntries(dir: string, names: seq<string>)
    requires BareNames(names)
    ensures forall p :: p in LogPaths(dir, names) ==> Basename(p) in names && EndsWith(Basename(p), LOG_SUFFIX)
    decreases |names|
  {
    if names != [] {
      var front, name := names[..|names| - 1], names[|names| - 1];
      assert BareNames(front) by {
        forall k | 0 <= k < |front| ensures '/' !in front[k] {
          assert front[k] == names[k];
        }
      }
      LogPathsNameLogEntries(dir, front);
      var added := if EndsWith(name, LOG_SUFFIX) then [Join(dir, name)] else [];
      assert LogPaths(dir, names) == LogPaths(dir, front) + added;
      if EndsWith(name, LOG_SUFFIX) {
        BasenameOfJoin(dir, name);
      }
      assert NameLogEntries(added, names);
      assert forall x :: x in front ==> x in names;
      NameLogEntriesAppend(LogPaths(dir, front), front, added, names);
    }
  }

  /**
   * Every record gathered comes from a listed `.log` entry: its file name
   * is one of the listed names and ends in `.log`.
   */
  lemma RecordsNameLogEntries(dir: string, names: seq<string>, read: string -> seq<string>)
    requires BareNames(names)
    ensures forall r :: r in BatchRecords(LogPaths(dir, names), read) ==> r.logFileName in names && EndsWith(r.logFileName, LOG_SUFFIX)
  {
    var paths := LogPaths(dir, names);
    LogPathsNameLogEntries(dir, names);
    BatchRecordsNameTheirFiles(paths, read);
    forall r | r in BatchRecords(paths, read) ensures r.logFileName in names && EndsWith(r.logFileName, LOG_SUFFIX) {
      var k :| 0 <= k < |paths| && Basenames(paths)[k] == r.logFileName;
      assert paths[k] in paths;
    }
  }

  /**
   * The listing loop of `main`: every `.log` entry is parsed in listing
   * order, its records appended to the collection, and its CBC serials
   * counted in the registry; other entries are passed over.
   */
  method CollectLinkRecords(dir: string, names: seq<string>, read: string -> seq<string>, registry: Registry)
    returns (allData: seq<LinkRecord>)
    requires BareNames(names) && registry.Valid()
    modifies registry
    ensures registry.Valid()
    ensures allData == BatchRecords(LogPaths(dir, names), read)
    ensures registry.counts == ObservedAll(old(registry.counts), BatchIds(LogPaths(dir, names), read))
  {
    allData := [];
    for i := 0 to |names|
      invariant registry.Valid()
      invariant allData == BatchRecords(LogPaths(dir, names[..i]), read)
      invariant registry.counts == ObservedAll(old(registry.counts), BatchIds(LogPaths(dir, names[..i]), read))
    {
      LogPathsStep(dir, names, i);
      var name := names[i];
      if EndsWith(name, LOG_SUFFIX) {
        assert name == [] || name[0] in name;
        var path := Join(dir, name);
        BatchRecordsStep(LogPaths(dir, names[..i]), path, read);
        BatchIdsStep(LogPaths(dir, names[..i]), path, read, old(registry.counts));
        var data := ParseLogFile(path, read(path), registry);
        allData := allData + data;
      }
    }
    assert names[..|names|] == names;
  }
}
