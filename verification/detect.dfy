/**
 * The staged change detector inside `Repository.commit` (the statements from
 * `old_kept_files = old_files` to the last backfill loop): a scan by path,
 * size (and digest) backfill, a scan by size (or digest, size and path), and a
 * final backfill of the added records. It is proved to compute exactly the
 * reference definition of module DetectionSpec.
 */
module ChangeDetector {
  import opened Wrappers
  import opened FileTree
  import opened Records
  import opened KeyScan
  import opened DetectionSpec

  /** Every key carries the path, so records with distinct paths have distinct keys. */
  lemma PathsKeys(stage: Stage, fs: seq<FileInfo>)
    requires DistinctPaths(fs)
    ensures DistinctKeys(stage, fs)
  {
  }

  /** Two records of a list with distinct paths that share a path are the same record. */
  lemma SamePath(src: seq<FileInfo>, f: FileInfo, g: FileInfo)
    requires DistinctPaths(src) && f in src && g in src && f.path == g.path
    ensures f == g
  {
    var i :| 0 <= i < |src| && src[i] == f;
    var j :| 0 <= j < |src| && src[j] == g;
    assert i == j;
  }

  /** What a scan's output list is, in terms of its source list. */
  lemma {:induction false} SelectedFacts(stage: Stage, out: seq<FileInfo>, src: seq<FileInfo>, ks: set<Key>)
    requires Selected(stage, out, src, ks) && DistinctPaths(src)
    ensures forall f :: f in out ==> f in src
    ensures DistinctPaths(out)
    ensures forall f :: f in src ==> (f in out <==> KeyFor(stage, f) in ks)
  {
    PathsKeys(stage, src);
    var m := KeyMap(stage, src);
    forall f | f in out ensures f in src {
      var i :| 0 <= i < |out| && out[i] == f;
      assert m[KeyFor(stage, out[i])] == f;
    }
    forall i, j | 0 <= i < j < |out| ensures out[i].path != out[j].path {
      if out[i].path == out[j].path {
        SamePath(src, out[i], out[j]);
        assert false;
      }
    }
  }

  /** Under the path key, key membership is path membership. */
  lemma ByPathKeys(other: seq<FileInfo>)
    ensures forall f: FileInfo {:trigger KeyFor(ByPath, f)} ::
      KeyFor(ByPath, f) in KeySet(ByPath, other) <==> f.path in FilePaths(other)
  {
    forall f: FileInfo | f.path in FilePaths(other)
      ensures KeyFor(ByPath, f) in KeySet(ByPath, other)
    {
      var g :| g in other && g.path == f.path;
      assert KeyFor(ByPath, g) == KeyFor(ByPath, f);
    }
  }

  lemma ConcatDistinctPaths(a: seq<FileInfo>, b: seq<FileInfo>)
    requires DistinctPaths(a) && DistinctPaths(b)
    requires forall f, g :: f in a && g in b ==> f.path != g.path
    ensures DistinctPaths(a + b)
  {
    var c := a + b;
    forall i, j | 0 <= i < j < |c| ensures c[i].path != c[j].path {
      if i < |a| && j >= |a| {
        assert c[i] in a && c[j] in b;
      } else if i >= |a| {
        assert c[i] == b[i - |a|] && c[j] == b[j - |a|];
      }
    }
  }

  /**
   * Stage 2 compares the stored record with the backfilled new record of the
   * same path: their keys agree exactly when the file was not modified.
   */
  lemma {:induction false} Stage2Keys(stage: Stage, md5: bool, olds: seq<FileRecord>,
                                      stats: map<string, Stat>,
                                      oldKept: seq<FileInfo>, newKept: seq<FileInfo>)
    requires stage == (if md5 then ByMd5 else BySize)
    requires UniquePaths(olds)
    requires forall o :: o in oldKept ==> o.Record() in olds
    requires |oldKept| == |newKept|
    requires forall i :: 0 <= i < |oldKept| ==> oldKept[i].path == newKept[i].path
    requires forall n :: n in newKept ==>
      && n.path in stats
      && n.size == Some(stats[n.path].size)
      && n.md5 == (if md5 then Some(stats[n.path].digest) else None)
    ensures forall n :: n in newKept ==>
      && Lookup(olds, n.path).Some?
      && ((KeyFor(stage, n) in KeySet(stage, oldKept)) <==> !Modified(Lookup(olds, n.path).value, stats[n.path], md5))
    ensures forall o :: o in oldKept ==>
      && o.path in stats
      && (KeyFor(stage, o) in KeySet(stage, newKept) <==> !Modified(o.Record(), stats[o.path], md5))
  {
    forall n | n in newKept
      ensures Lookup(olds, n.path).Some?
      ensures (KeyFor(stage, n) in KeySet(stage, oldKept)) <==> !Modified(Lookup(olds, n.path).value, stats[n.path], md5)
    {
      var i :| 0 <= i < |newKept| && newKept[i] == n;
      var o := oldKept[i];
      LookupUnique(olds, o.Record());
      assert KeyFor(stage, o) in KeySet(stage, oldKept);
      if KeyFor(stage, n) in KeySet(stage, oldKept) {
        var o' :| o' in oldKept && KeyFor(stage, o') == KeyFor(stage, n);
        LookupUnique(olds, o'.Record());
      }
    }
    forall o | o in oldKept
      ensures o.path in stats
      ensures KeyFor(stage, o) in KeySet(stage, newKept) <==> !Modified(o.Record(), stats[o.path], md5)
    {
      var i :| 0 <= i < |oldKept| && oldKept[i] == o;
      var n := newKept[i];
      if !Modified(o.Record(), stats[o.path], md5) {
        assert KeyFor(stage, o) == KeyFor(stage, n);
      }
    }
  }

  /** The stored records as values: unique paths, the same path set, each record present. */
  lemma RecordsOfFacts(fs: seq<FileInfo>)
    requires DistinctPaths(fs)
    ensures UniquePaths(RecordsOf(fs))
    ensures PathSet(RecordsOf(fs)) == FilePaths(fs)
    ensures forall o :: o in fs ==> o.Record() in RecordsOf(fs)
  {
    var rs := RecordsOf(fs);
    forall o | o in fs ensures o.Record() in rs {
      var i :| 0 <= i < |fs| && fs[i] == o;
      assert rs[i] == o.Record();
    }
    forall p | p in FilePaths(fs) ensures p in PathSet(rs) {
      var o :| o in fs && o.path == p;
      assert o.Record() in rs;
    }
  }

  /**
   * What the scan by path leaves, in terms of paths: new records whose path
   * was not stored are added, stored records whose path is gone are removed,
   * and the rest are paired up position by position.
   */
  ghost predicate PathScanned(oldFiles: seq<FileInfo>, newFiles: seq<FileInfo>, stats: map<string, Stat>,
                              oldKept: seq<FileInfo>, newKept: seq<FileInfo>,
                              added1: seq<FileInfo>, removed1: seq<FileInfo>)
  {
    && (forall f :: f in added1 ==> f in newFiles)
    && (forall f :: f in newKept ==> f in newFiles)
    && (forall f :: f in removed1 ==> f in oldFiles)
    && (forall f :: f in oldKept ==> f in oldFiles)
    && DistinctPaths(added1) && DistinctPaths(newKept)
    && DistinctPaths(removed1) && DistinctPaths(oldKept)
    && (forall f :: f in newFiles ==> (f in added1 <==> f.path !in FilePaths(oldFiles)))
    && (forall f :: f in newFiles ==> (f in newKept <==> f.path in FilePaths(oldFiles)))
    && (forall f :: f in oldFiles ==> (f in removed1 <==> f.path !in stats))
    && (forall f :: f in oldFiles ==> (f in oldKept <==> f.path in stats))
    && |oldKept| == |newKept|
    && (forall i :: 0 <= i < |oldKept| ==> oldKept[i].path == newKept[i].path)
  }

  /** Stage 1, the scan keyed by path. */
  method ScanByPath(oldFiles: seq<FileInfo>, newFiles: seq<FileInfo>, ghost stats: map<string, Stat>)
    returns (oldKept: seq<FileInfo>, newKept: seq<FileInfo>, added1: seq<FileInfo>, removed1: seq<FileInfo>)
    requires DistinctPaths(oldFiles) && DistinctPaths(newFiles)
    requires FilePaths(newFiles) == stats.Keys
    ensures PathScanned(oldFiles, newFiles, stats, oldKept, newKept, added1, removed1)
  {
    oldKept, newKept, added1, removed1 := Scan(ByPath, oldFiles, newFiles, [], []);
    ByPathKeys(oldFiles);
    ByPathKeys(newFiles);
    SelectedFacts(ByPath, added1, newFiles, KeySet(ByPath, newFiles) - KeySet(ByPath, oldFiles));
    SelectedFacts(ByPath, removed1, oldFiles, KeySet(ByPath, oldFiles) - KeySet(ByPath, newFiles));
    SelectedFacts(ByPath, oldKept, oldFiles, KeySet(ByPath, oldFiles) * KeySet(ByPath, newFiles));
    SelectedFacts(ByPath, newKept, newFiles, KeySet(ByPath, oldFiles) * KeySet(ByPath, newFiles));
    forall i | 0 <= i < |oldKept| ensures oldKept[i].path == newKept[i].path {
      assert KeyFor(ByPath, oldKept[i]) == KeyFor(ByPath, newKept[i]);
    }
  }

  /**
   * Stage 2, the scan keyed by size and path, or by digest, size and path,
   * over the records the first scan paired up: together with the first scan,
   * the added list is exactly the new records `IsAdded` names and the removed
   * list exactly the stored records `IsRemoved` names, each path once.
   */
  method ScanByContent(md5: bool, ghost stats: map<string, Stat>,
                       ghost oldFiles: seq<FileInfo>, ghost newFiles: seq<FileInfo>,
                       oldKept: seq<FileInfo>, newKept: seq<FileInfo>,
                       added1: seq<FileInfo>, removed1: seq<FileInfo>)
    returns (added: seq<FileInfo>, removed: seq<FileInfo>)
    requires DistinctPaths(oldFiles)
    requires FilePaths(newFiles) == stats.Keys
    requires PathScanned(oldFiles, newFiles, stats, oldKept, newKept, added1, removed1)
    requires forall n :: n in newKept ==>
      && n.size == Some(stats[n.path].size)
      && n.md5 == (if md5 then Some(stats[n.path].digest) else None)
    ensures forall f :: f in added ==> f in newFiles
    ensures forall f :: f in newFiles ==> (f in added <==> IsAdded(RecordsOf(oldFiles), stats, md5, f.path))
    ensures forall f :: f in removed ==> f in oldFiles
    ensures forall f :: f in oldFiles ==> (f in removed <==> IsRemoved(stats, md5, f.Record()))
    ensures DistinctPaths(added) && DistinctPaths(removed)
  {
    var stage := if md5 then ByMd5 else BySize;
    var oldKept2, newKept2;
    oldKept2, newKept2, added, removed := Scan(stage, oldKept, newKept, added1, removed1);
    ghost var added2, removed2 := added[|added1|..], removed[|removed1|..];
    assert added == added1 + added2 && removed == removed1 + removed2;
    ghost var olds := RecordsOf(oldFiles);
    RecordsOfFacts(oldFiles);
    assert forall n :: n in newKept ==> n.path in stats;
    Stage2Keys(stage, md5, olds, stats, oldKept, newKept);
    SelectedFacts(stage, added2, newKept, KeySet(stage, newKept) - KeySet(stage, oldKept));
    SelectedFacts(stage, removed2, oldKept, KeySet(stage, oldKept) - KeySet(stage, newKept));
    forall f | f in newFiles ensures f in added1 + added2 <==> IsAdded(olds, stats, md5, f.path) {
      assert f.path in stats;
    }
    ConcatDistinctPaths(added1, added2);
    ConcatDistinctPaths(removed1, removed2);
  }

  /**
   * The loops that read a size (and a digest) from the file system into every
   * record of `fs`.
   */
  method Backfill(fs: seq<FileInfo>, stats: map<string, Stat>, withDigest: bool)
    requires forall f :: f in fs ==> f.path in stats
    modifies fs
    ensures forall f :: f in fs ==>
      && f.size == Some(stats[f.path].size)
      && f.md5 == (if withDigest then Some(stats[f.path].digest) else old(f.md5))
  {
    for i := 0 to |fs|
      invariant forall f :: f in fs ==>
        f.size == (if f in fs[..i] then Some(stats[f.path].size) else old(f.size))
      invariant forall f :: f in fs ==>
        f.md5 == (if withDigest && f in fs[..i] then Some(stats[f.path].digest) else old(f.md5))
    {
      var f := fs[i];
      assert f in fs && fs[..i + 1] == fs[..i] + [f];
      f.size := Some(stats[f.path].size);
      if withDigest {
        f.md5 := Some(stats[f.path].digest);
      }
    }
    assert fs[..|fs|] == fs;
  }

  /** The last loop of the detection: fill in a size or digest still missing. */
  method FillMissing(fs: seq<FileInfo>, stats: map<string, Stat>)
    requires forall f :: f in fs ==> f.path in stats
    modifies fs
    ensures forall f :: f in fs ==>
      && f.size == (if old(f.size) == None then Some(stats[f.path].size) else old(f.size))
      && f.md5 == (if old(f.md5) == None then Some(stats[f.path].digest) else old(f.md5))
  {
    for i := 0 to |fs|
      invariant forall f :: f in fs ==>
        f.size == (if f in fs[..i] && old(f.size) == None then Some(stats[f.path].size) else old(f.size))
      invariant forall f :: f in fs ==>
        f.md5 == (if f in fs[..i] && old(f.md5) == None then Some(stats[f.path].digest) else old(f.md5))
    {
      var f := fs[i];
      assert f in fs && fs[..i + 1] == fs[..i] + [f];
      if f.size == None {
        f.size := Some(stats[f.path].size);
      }
      if f.md5 == None {
        f.md5 := Some(stats[f.path].digest);
      }
    }
    assert fs[..|fs|] == fs;
  }

  /** After the last loop every new record is the one `NewRecord` describes. */
  lemma FinalRecords(olds: seq<FileRecord>, stats: map<string, Stat>, md5: bool,
                     newFiles: seq<FileInfo>, added: seq<FileInfo>)
    requires forall f :: f in newFiles ==> f.path in stats
    requires forall f :: f in newFiles ==> (f in added <==> IsAdded(olds, stats, md5, f.path))
    requires forall f :: f in newFiles ==> f.size == Some(stats[f.path].size)
    requires forall f :: f in newFiles ==>
      f.md5 == (if md5 || f.path !in PathSet(olds) || f in added then Some(stats[f.path].digest) else None)
    ensures forall f :: f in newFiles ==> f.Record() == NewRecord(olds, stats, md5, f.path)
  {
    forall f | f in newFiles ensures f.Record() == NewRecord(olds, stats, md5, f.path) {
      assert f.path !in PathSet(olds) ==> IsAdded(olds, stats, md5, f.path);
    }
  }

  /**
   * Stage 1 with its loops: after the scan by path every added record gets
   * its size and digest, and every kept one its size, and its digest when
   * content verification is on.
   */
  method DetectByPath(oldFiles: seq<FileInfo>, newFiles: seq<FileInfo>, stats: map<string, Stat>, md5: bool)
    returns (oldKept: seq<FileInfo>, newKept: seq<FileInfo>, added1: seq<FileInfo>, removed1: seq<FileInfo>)
    requires DistinctPaths(oldFiles) && DistinctPaths(newFiles)
    requires FilePaths(newFiles) == stats.Keys
    requires forall f :: f in newFiles ==> f.size == None && f.md5 == None
    modifies newFiles
    ensures PathScanned(oldFiles, newFiles, stats, oldKept, newKept, added1, removed1)
    ensures forall f :: f in newFiles ==> f.size == Some(stats[f.path].size)
    ensures forall f :: f in newFiles ==>
      f.md5 == (if md5 || f.path !in FilePaths(oldFiles) then Some(stats[f.path].digest) else None)
  {
    oldKept, newKept, added1, removed1 := ScanByPath(oldFiles, newFiles, stats);
    assert forall i :: 0 <= i < |added1| ==> added1[i] in newFiles;
    Backfill(added1, stats, true);
    assert forall i :: 0 <= i < |newKept| ==> newKept[i] in newFiles;
    Backfill(newKept, stats, md5);
  }

  /**
   * The loop after stage 2: every added record gets the digest it still
   * lacks, and every new record is then the one `NewRecord` describes.
   */
  method FinishAdded(md5: bool, ghost olds: seq<FileRecord>, stats: map<string, Stat>,
                     ghost oldFiles: seq<FileInfo>, ghost newFiles: seq<FileInfo>, added: seq<FileInfo>)
    requires olds == RecordsOf(oldFiles) && DistinctPaths(oldFiles)
    requires forall f :: f in oldFiles ==> f !in newFiles
    requires FilePaths(newFiles) == stats.Keys
    requires forall f :: f in added ==> f in newFiles
    requires forall f :: f in newFiles ==> (f in added <==> IsAdded(olds, stats, md5, f.path))
    requires forall f :: f in newFiles ==> f.size == Some(stats[f.path].size)
    requires forall f :: f in newFiles ==>
      f.md5 == (if md5 || f.path !in FilePaths(oldFiles) then Some(stats[f.path].digest) else None)
    modifies newFiles
    ensures RecordsOf(oldFiles) == olds
    ensures forall f :: f in newFiles ==> f.Record() == NewRecord(olds, stats, md5, f.path)
  {
    RecordsOfFacts(oldFiles);
    assert forall i :: 0 <= i < |added| ==> added[i] in newFiles;
    FillMissing(added, stats);
    assert RecordsOf(oldFiles) == olds;
    FinalRecords(olds, stats, md5, newFiles, added);
  }

  /**
   * The change detection of `Repository.commit`, from the two listings to
   * `added_files` and `removed_files`. Afterwards every new record holds its
   * size, and its digest when it was added or content verification is on;
   * the added list holds exactly the new records `IsAdded` names and the
   * removed list exactly the stored records `IsRemoved` names, each once.
   */
  method Detect(oldFiles: seq<FileInfo>, newFiles: seq<FileInfo>, stats: map<string, Stat>, md5: bool)
    returns (added: seq<FileInfo>, removed: seq<FileInfo>)
    requires DistinctPaths(oldFiles) && DistinctPaths(newFiles)
    requires forall f :: f in oldFiles ==> f !in newFiles
    requires FilePaths(newFiles) == stats.Keys
    requires forall f :: f in newFiles ==> f.size == None && f.md5 == None
    requires md5 ==> forall f :: f in oldFiles && f.path in stats ==> f.md5.Some?
    modifies newFiles
    ensures RecordsOf(oldFiles) == old(RecordsOf(oldFiles))
    ensures forall f :: f in newFiles ==> f.Record() == NewRecord(RecordsOf(oldFiles), stats, md5, f.path)
    ensures forall f :: f in added ==> f in newFiles
    ensures forall f :: f in newFiles ==> (f in added <==> IsAdded(RecordsOf(oldFiles), stats, md5, f.path))
    ensures forall f :: f in removed ==> f in oldFiles
    ensures forall f :: f in oldFiles ==> (f in removed <==> IsRemoved(stats, md5, f.Record()))
    ensures DistinctPaths(added) && DistinctPaths(removed)
  {
    ghost var olds := RecordsOf(oldFiles);
    var oldKept, newKept, added1, removed1 := DetectByPath(oldFiles, newFiles, stats, md5);
    assert RecordsOf(oldFiles) == olds;
    added, removed := ScanByContent(md5, stats, oldFiles, newFiles, oldKept, newKept, added1, removed1);
    FinishAdded(md5, olds, stats, oldFiles, newFiles, added);
  }
}
