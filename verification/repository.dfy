/**
 * `Repository` (fm/repo.py): what `.fm` holds (the version number, the
 * snapshot of the last commit, one delta per commit and the detailed log of
 * the last one) and the two commands that change it, `init` and `commit`.
 */
module Repo {
  import opened Wrappers
  import opened Text
  import opened FileTree
  import opened Records
  import opened DetectionSpec
  import opened ChangeDetector
  import opened Data
  import opened DeltaLog

  datatype Error =
    | AlreadyExists    // `init` where `.fm` already exists
    | NotARepository   // `commit` where `.fm` does not exist
    | DigestMissing    // `commit(enable_md5=True)` meets a kept stored record without a digest

  /** The message `commit` prints when it detects nothing. */
  const NoChanges: string := "No changes detected."

  /**
   * Some stored record whose path is still listed has no digest. With content
   * verification on, stage 2 builds `f.md5 + '|' + ...` for it, which Python
   * rejects (`None + str`), before anything is saved.
   */
  predicate LacksDigest(olds: seq<FileRecord>, stats: map<string, Stat>) {
    exists i :: 0 <= i < |olds| && olds[i].path in stats && olds[i].md5.None?
  }

  /** What a commit with content verification `md5` on `tree` detects against the snapshot `olds`. */
  function Expected(olds: seq<FileRecord>, tree: seq<Entry>, md5: bool): Delta {
    var paths, stats := Walk(tree, ""), Stats(tree, "");
    assert Listed(paths, stats);
    Delta(AddedSpec(olds, paths, stats, md5), RemovedSpec(olds, stats, md5))
  }

  /** The snapshot such a commit saves. */
  function ExpectedSnapshot(olds: seq<FileRecord>, tree: seq<Entry>, md5: bool): seq<FileRecord> {
    var paths, stats := Walk(tree, ""), Stats(tree, "");
    assert Listed(paths, stats);
    SnapshotSpec(olds, paths, stats, md5)
  }

  /** In a list without repeated paths every record occurs at most once. */
  lemma {:induction false} CountUnique(rs: seq<FileRecord>, x: FileRecord)
    requires UniquePaths(rs)
    ensures multiset(rs)[x] == if x in rs then 1 else 0
    decreases |rs|
  {
    if |rs| > 0 {
      assert rs == [rs[0]] + rs[1..];
      CountUnique(rs[1..], x);
      if rs[0] == x {
        forall k | 0 <= k < |rs[1..]| ensures rs[1..][k] != x {
          assert rs[1..][k] == rs[k + 1];
        }
      }
    }
  }

  /** Two lists without repeated paths and with the same members are permutations of each other. */
  lemma SameMembers(a: seq<FileRecord>, b: seq<FileRecord>)
    requires UniquePaths(a) && UniquePaths(b)
    requires forall x :: x in a <==> x in b
    ensures multiset(a) == multiset(b)
  {
    forall x ensures multiset(a)[x] == multiset(b)[x] {
      CountUnique(a, x);
      CountUnique(b, x);
    }
  }

  /** The listing `RepositoryData.update` produced has distinct paths, exactly the stat'ed ones. */
  lemma ListingFacts(tree: seq<Entry>, files: seq<FileInfo>)
    requires WellFormed(tree) && PathsOf(files) == Walk(tree, "")
    ensures DistinctPaths(files)
    ensures FilePaths(files) == Stats(tree, "").Keys
    ensures forall f :: f in files ==> f.path in Stats(tree, "")
  {
    WalkDistinct(tree, "");
    var paths := Walk(tree, "");
    forall p | p in paths ensures p in FilePaths(files) {
      var i :| 0 <= i < |paths| && paths[i] == p;
      assert files[i] in files;
    }
    forall f | f in files ensures f.path in Stats(tree, "") {
      var i :| 0 <= i < |files| && files[i] == f;
      assert PathsOf(files)[i] == f.path;
    }
  }

  /** Loaded records that are still listed carry the digest the snapshot gives them. */
  lemma LoadedDigests(snapshot: seq<FileRecord>, stats: map<string, Stat>, oldFiles: seq<FileInfo>)
    requires RecordsOf(oldFiles) == snapshot && !LacksDigest(snapshot, stats)
    ensures forall f :: f in oldFiles && f.path in stats ==> f.md5.Some?
  {
    forall f | f in oldFiles && f.path in stats ensures f.md5.Some? {
      var i :| 0 <= i < |oldFiles| && oldFiles[i] == f;
      assert snapshot[i] == f.Record();
    }
  }

  /** The listing's records, once detection filled them in, are the snapshot `SnapshotSpec` describes. */
  lemma FilledSnapshot(olds: seq<FileRecord>, paths: seq<string>, stats: map<string, Stat>, md5: bool,
                     newFiles: seq<FileInfo>)
    requires Listed(paths, stats) && PathsOf(newFiles) == paths
    requires forall f :: f in newFiles ==> f.path in stats
    requires forall f :: f in newFiles ==> f.Record() == NewRecord(olds, stats, md5, f.path)
    ensures RecordsOf(newFiles) == SnapshotSpec(olds, paths, stats, md5)
  {
    forall i | 0 <= i < |newFiles| ensures RecordsOf(newFiles)[i] == NewRecord(olds, stats, md5, paths[i]) {
      assert newFiles[i] in newFiles && PathsOf(newFiles)[i] == newFiles[i].path;
    }
  }

  /** The added objects hold, as values, the records `AddedSpec` lists, in some order. */
  lemma AddedRecords(olds: seq<FileRecord>, paths: seq<string>, stats: map<string, Stat>, md5: bool,
                     newFiles: seq<FileInfo>, added: seq<FileInfo>)
    requires Listed(paths, stats) && NoDuplicates(paths) && PathsOf(newFiles) == paths
    requires forall f :: f in newFiles ==> f.path in stats
    requires forall f :: f in newFiles ==> f.Record() == NewRecord(olds, stats, md5, f.path)
    requires forall f :: f in added ==> f in newFiles
    requires forall f :: f in newFiles ==> (f in added <==> IsAdded(olds, stats, md5, f.path))
    requires DistinctPaths(added)
    ensures multiset(RecordsOf(added)) == multiset(AddedSpec(olds, paths, stats, md5))
  {
    var a, s := RecordsOf(added), AddedSpec(olds, paths, stats, md5);
    forall x | x in a ensures x in s {
      var i :| 0 <= i < |a| && a[i] == x;
      var j :| 0 <= j < |newFiles| && newFiles[j] == added[i];
      assert PathsOf(newFiles)[j] == x.path;
    }
    forall x | x in s ensures x in a {
      var j :| 0 <= j < |paths| && paths[j] == x.path;
      var f := newFiles[j];
      assert PathsOf(newFiles)[j] == f.path;
      var i :| 0 <= i < |added| && added[i] == f;
      assert a[i] == x;
    }
    SameMembers(a, s);
  }

  /** The removed objects hold, as values, the records `RemovedSpec` lists, in some order. */
  lemma RemovedRecords(olds: seq<FileRecord>, stats: map<string, Stat>, md5: bool,
                       oldFiles: seq<FileInfo>, removed: seq<FileInfo>)
    requires olds == RecordsOf(oldFiles) && UniquePaths(olds)
    requires forall f :: f in removed ==> f in oldFiles
    requires forall f :: f in oldFiles ==> (f in removed <==> IsRemoved(stats, md5, f.Record()))
    requires DistinctPaths(removed)
    ensures multiset(RecordsOf(removed)) == multiset(RemovedSpec(olds, stats, md5))
  {
    var a, s := RecordsOf(removed), RemovedSpec(olds, stats, md5);
    forall x | x in a ensures x in s {
      var i :| 0 <= i < |a| && a[i] == x;
      var j :| 0 <= j < |oldFiles| && oldFiles[j] == removed[i];
      assert olds[j] == x;
    }
    forall x | x in s ensures x in a {
      var j :| 0 <= j < |olds| && olds[j] == x;
      var i :| 0 <= i < |removed| && removed[i] == oldFiles[j];
      assert a[i] == x;
    }
    SameMembers(a, s);
  }

  /** `RepositoryData.load`: the stored records come back as new `FileInfo` objects. */
  method LoadFiles(rs: seq<FileRecord>) returns (fs: seq<FileInfo>)
    ensures RecordsOf(fs) == rs
    ensures forall i :: 0 <= i < |fs| ==> fresh(fs[i])
  {
    fs := [];
    for i := 0 to |rs|
      invariant |fs| == i
      invariant forall j :: 0 <= j < i ==> fresh(fs[j]) && fs[j].Record() == rs[j]
    {
      var f := new FileInfo(rs[i].path);
      f.size, f.md5 := rs[i].size, rs[i].md5;
      fs := fs + [f];
    }
  }

  /**
   * Lines 176-207 of `Repository.commit`: load the snapshot, list the tree,
   * run the staged detector. The delta holds the records `AddedSpec` and
   * `RemovedSpec` describe (in the detector's order) and the new snapshot is
   * the one `SnapshotSpec` describes.
   */
  method DetectChanges(snapshot: seq<FileRecord>, tree: seq<Entry>, md5: bool)
    returns (delta: Delta, next: seq<FileRecord>)
    requires UniquePaths(snapshot) && WellFormed(tree)
    requires !(md5 && LacksDigest(snapshot, Stats(tree, "")))
    ensures multiset(delta.added) == multiset(Expected(snapshot, tree, md5).added)
    ensures multiset(delta.removed) == multiset(Expected(snapshot, tree, md5).removed)
    ensures UniquePaths(delta.added) && UniquePaths(delta.removed)
    ensures next == ExpectedSnapshot(snapshot, tree, md5)
  {
    var stats := Stats(tree, "");
    ghost var paths := Walk(tree, "");
    var oldFiles := LoadFiles(snapshot);
    var data := new RepositoryData();
    data.Update(tree);
    var newFiles := data.files;
    assert RecordsOf(oldFiles) == snapshot;
    ListingFacts(tree, newFiles);
    WalkDistinct(tree, "");
    if md5 {
      LoadedDigests(snapshot, stats, oldFiles);
    }
    var added, removed := Detect(oldFiles, newFiles, stats, md5);
    assert RecordsOf(oldFiles) == snapshot;
    AddedRecords(snapshot, paths, stats, md5, newFiles, added);
    RemovedRecords(snapshot, stats, md5, oldFiles, removed);
    FilledSnapshot(snapshot, paths, stats, md5, newFiles);
    delta := Delta(RecordsOf(added), RecordsOf(removed));
    next := RecordsOf(newFiles);
  }

  /** A delta a commit saves: non-empty, no repeated path, every added record with its size and digest. */
  ghost predicate GoodDelta(d: Delta) {
    && |d.added| + |d.removed| > 0
    && UniquePaths(d.added) && UniquePaths(d.removed)
    && (forall i :: 0 <= i < |d.added| ==> d.added[i].size.Some? && d.added[i].md5.Some?)
  }

  /** A saved snapshot: no repeated path, every size known, every stored digest hexadecimal. */
  ghost predicate GoodSnapshot(s: seq<FileRecord>) {
    && UniquePaths(s)
    && (forall i :: 0 <= i < |s| ==> s[i].size.Some?)
    && (forall i :: 0 <= i < |s| ==> s[i].md5.Some? ==> IsHexDigest(s[i].md5.value))
  }

  /** The deltas on disk: one for each commit `1..version`. */
  ghost predicate History(version: nat, deltas: map<nat, Delta>) {
    && (forall n :: n in deltas <==> 1 <= n <= version)
    && (forall n :: n in deltas ==> GoodDelta(deltas[n]))
  }

  /** A non-empty delta holding, in any order, what the detector reports is one a commit may save. */
  lemma DetectedDeltaGood(d: Delta, olds: seq<FileRecord>, tree: seq<Entry>, md5: bool)
    requires multiset(d.added) == multiset(Expected(olds, tree, md5).added)
    requires UniquePaths(d.added) && UniquePaths(d.removed) && |d.added| + |d.removed| > 0
    ensures GoodDelta(d)
  {
    forall i | 0 <= i < |d.added| ensures d.added[i].size.Some? && d.added[i].md5.Some? {
      assert d.added[i] in multiset(Expected(olds, tree, md5).added);
    }
  }

  /** Saving delta `version + 1` keeps the history numbered without gaps. */
  lemma HistoryExtends(version: nat, deltas: map<nat, Delta>, d: Delta)
    requires History(version, deltas) && GoodDelta(d)
    ensures History(version + 1, deltas[version + 1 := d])
  {
  }

  /** The snapshot a commit saves keeps every path once, every size, and only hexadecimal digests. */
  lemma ExpectedSnapshotGood(olds: seq<FileRecord>, tree: seq<Entry>, md5: bool)
    requires WellFormed(tree)
    ensures GoodSnapshot(ExpectedSnapshot(olds, tree, md5))
  {
    WalkDistinct(tree, "");
    StatsHex(tree, "");
  }

  /**
   * With content verification, a commit that does not stop with
   * `DigestMissing` compares a still-listed stored record with a new record
   * exactly as the source's `md5|size|path` strings compare: neither digest
   * holds the separator.
   */
  lemma Md5KeysAsText(olds: seq<FileRecord>, tree: seq<Entry>, o: FileRecord, p: string)
    requires WellFormed(tree) && GoodSnapshot(olds)
    requires o in olds && o.path in Stats(tree, "") && !LacksDigest(olds, Stats(tree, ""))
    requires p in Stats(tree, "")
    ensures o.md5.Some?
    ensures var n := NewRecord(olds, Stats(tree, ""), true, p);
      KeyText(RecordKey(ByMd5, o)) == KeyText(RecordKey(ByMd5, n)) <==> RecordKey(ByMd5, o) == RecordKey(ByMd5, n)
  {
    var stats := Stats(tree, "");
    var i :| 0 <= i < |olds| && olds[i] == o;
    HexNoBar(o.md5.value);
    StatsHex(tree, "");
    HexNoBar(stats[p].digest);
    KeyTextInjective(RecordKey(ByMd5, o), RecordKey(ByMd5, NewRecord(olds, stats, true, p)));
  }

  class Repository {
    /** Whether `.fm` exists in the repository directory. */
    var initialized: bool
    /** `repo.txt`: the number of the last commit. */
    var version: nat
    /** `data.npz`: the records of the last commit. */
    var snapshot: seq<FileRecord>
    /** `delta/<n>.npz`: what commit `n` added and removed. */
    var deltas: map<nat, Delta>
    /** `changes.txt`: the detailed log of the last commit. */
    var changes: string

    /**
     * What every command keeps: one delta per commit, numbered from 1; a
     * snapshot without repeated paths, with every size known and every
     * stored digest hexadecimal; every delta
     * non-empty, without repeated paths, its added records with size and
     * digest; nothing at all before `init`.
     */
    ghost predicate Valid()
      reads this
    {
      && History(version, deltas)
      && GoodSnapshot(snapshot)
      && (!initialized ==> version == 0 && snapshot == [] && deltas == map[] && changes == "")
    }

    /** A directory that is not (yet) a repository. */
    constructor ()
      ensures Valid() && !initialized
    {
      initialized := false;
      version := 0;
      snapshot := [];
      deltas := map[];
      changes := "";
    }

    /** `Repository.init`: refuses an existing `.fm`; otherwise saves version 0 and an empty snapshot. */
    method Init() returns (r: Result<(), Error>)
      requires Valid()
      modifies this
      ensures Valid()
      ensures old(initialized) ==> r == Err(AlreadyExists) && unchanged(this)
      ensures !old(initialized) ==>
        r == Ok(()) && initialized && version == 0 && snapshot == [] && deltas == map[] && changes == ""
    {
      if initialized {
        return Err(AlreadyExists);
      }
      initialized := true;
      r := Ok(());
    }

    /**
     * Lines 215-224 of `Repository.commit`: save delta `version + 1`, then
     * the new snapshot.
     */
    method Save(delta: Delta, next: seq<FileRecord>)
      requires Valid() && initialized && GoodDelta(delta) && GoodSnapshot(next)
      modifies this
      ensures Valid() && initialized
      ensures version == old(version) + 1 && deltas == old(deltas)[version := delta]
      ensures snapshot == next && changes == old(changes)
    {
      var v := version + 1;
      var ds := deltas[v := delta];
      HistoryExtends(version, deltas, delta);
      version, deltas, snapshot := v, ds, next;
    }

    /** Lines 228-229 of `Repository.commit`: `changes.txt` is overwritten with `text`; nothing else changes. */
    method WriteChanges(text: string)
      requires Valid() && initialized
      modifies this
      ensures Valid() && initialized && changes == text
      ensures version == old(version) && deltas == old(deltas) && snapshot == old(snapshot)
    {
      changes := text;
    }

    /**
     * `Repository.commit(enable_md5=md5)` on the directory `tree`. Refuses a
     * directory without `.fm`. With nothing added or removed it prints
     * `NoChanges` and saves nothing. Otherwise it saves delta `version + 1`
     * holding what was added and removed, replaces the snapshot, writes the
     * detailed log to `changes.txt` and prints the summary line.
     */
    method Commit(tree: seq<Entry>, md5: bool) returns (r: Result<string, Error>)
      requires Valid() && WellFormed(tree)
      modifies this
      ensures Valid()
      ensures !old(initialized) ==> r == Err(NotARepository) && unchanged(this)
      ensures old(initialized) && md5 && LacksDigest(old(snapshot), Stats(tree, "")) ==>
        r == Err(DigestMissing) && unchanged(this)
      ensures old(initialized) && !(md5 && LacksDigest(old(snapshot), Stats(tree, ""))) ==>
        var d := Expected(old(snapshot), tree, md5);
        if |d.added| + |d.removed| == 0 then
          r == Ok(NoChanges) && unchanged(this)
        else
          && initialized
          && version == old(version) + 1
          && deltas == old(deltas)[version := deltas[version]]
          && multiset(deltas[version].added) == multiset(d.added)
          && multiset(deltas[version].removed) == multiset(d.removed)
          && snapshot == ExpectedSnapshot(old(snapshot), tree, md5)
          && changes == Log(d, true)
          && r == Ok(Log(d, false))
    {
      if !initialized {
        return Err(NotARepository);
      }
      if md5 && LacksDigest(snapshot, Stats(tree, "")) {
        return Err(DigestMissing);
      }
      ghost var spec := Expected(snapshot, tree, md5);
      var delta, next := DetectChanges(snapshot, tree, md5);
      assert |delta.added| == |spec.added| && |delta.removed| == |spec.removed| by {
        assert |multiset(delta.added)| == |multiset(spec.added)|;
        assert |multiset(delta.removed)| == |multiset(spec.removed)|;
      }
      if |delta.added| + |delta.removed| == 0 {
        return Ok(NoChanges);
      }
      DetectedDeltaGood(delta, snapshot, tree, md5);
      ExpectedSnapshotGood(snapshot, tree, md5);
      LogOrderIndependent(delta, spec, true);
      LogOrderIndependent(delta, spec, false);
      Save(delta, next);
      WriteChanges(Log(delta, true));
      r := Ok(Log(delta, false));
    }
  }
}
