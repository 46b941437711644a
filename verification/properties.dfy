/**
 * What `Repository.commit` promises about consecutive commits and about the
 * two ways it compares files, stated over `Expected` and `ExpectedSnapshot`,
 * the outcome `Repo.Repository.Commit` is proved to produce whenever it does
 * not stop with `DigestMissing`: every lemma about a commit with content
 * verification requires that no still-listed stored record lacks a digest,
 * since on such a snapshot the source raises instead.
 */
module CommitProperties {
  import opened Wrappers
  import opened Text
  import opened FileTree
  import opened Records
  import opened DetectionSpec
  import opened DeltaLog
  import opened Repo

  /** With no listed path qualifying, nothing is added. */
  lemma {:induction false} NothingAdded(olds: seq<FileRecord>, paths: seq<string>, stats: map<string, Stat>, md5: bool)
    requires Listed(paths, stats)
    requires forall i :: 0 <= i < |paths| ==> !IsAdded(olds, stats, md5, paths[i])
    ensures AddedSpec(olds, paths, stats, md5) == []
    decreases |paths|
  {
    if |paths| > 0 {
      assert !IsAdded(olds, stats, md5, paths[0]);
      NothingAdded(olds, paths[1..], stats, md5);
    }
  }

  /** With no stored record qualifying, nothing is removed. */
  lemma {:induction false} NothingRemoved(olds: seq<FileRecord>, stats: map<string, Stat>, md5: bool)
    requires forall i :: 0 <= i < |olds| ==> !IsRemoved(stats, md5, olds[i])
    ensures RemovedSpec(olds, stats, md5) == []
    decreases |olds|
  {
    if |olds| > 0 {
      NothingRemoved(olds[1..], stats, md5);
    }
  }

  /** Every record of a saved snapshot is the one `NewRecord` gives its path, and the paths are the listing's. */
  lemma SnapshotAt(olds: seq<FileRecord>, tree: seq<Entry>, md5: bool, i: int)
    requires 0 <= i < |Walk(tree, "")|
    ensures |ExpectedSnapshot(olds, tree, md5)| == |Walk(tree, "")|
    ensures Walk(tree, "")[i] in Stats(tree, "")
    ensures ExpectedSnapshot(olds, tree, md5)[i] == NewRecord(olds, Stats(tree, ""), md5, Walk(tree, "")[i])
  {
  }

  /**
   * Committing the same tree again detects nothing, with or without content
   * verification, unless content verification meets a record saved without
   * a digest (which `Commit` refuses with `DigestMissing`).
   */
  lemma {:induction false} RecommitDetectsNothing(olds: seq<FileRecord>, tree: seq<Entry>, md5: bool, md5Again: bool)
    requires WellFormed(tree)
    requires !(md5Again && LacksDigest(ExpectedSnapshot(olds, tree, md5), Stats(tree, "")))
    ensures Expected(ExpectedSnapshot(olds, tree, md5), tree, md5Again) == Delta([], [])
  {
    var s, paths, stats := ExpectedSnapshot(olds, tree, md5), Walk(tree, ""), Stats(tree, "");
    ExpectedSnapshotGood(olds, tree, md5);
    forall i | 0 <= i < |s| ensures !Modified(s[i], stats[s[i].path], md5Again) {
      SnapshotAt(olds, tree, md5, i);
    }
    forall i | 0 <= i < |paths| ensures !IsAdded(s, stats, md5Again, paths[i]) {
      SnapshotAt(olds, tree, md5, i);
      LookupUnique(s, s[i]);
    }
    NothingAdded(s, paths, stats, md5Again);
    NothingRemoved(s, stats, md5Again);
  }

  /**
   * A stored file that is still present is reported as removed, and its new
   * record as added, exactly when the key of stage 2 tells the two apart.
   */
  lemma ModifiedIsReplaced(olds: seq<FileRecord>, tree: seq<Entry>, md5: bool, o: FileRecord)
    requires UniquePaths(olds) && o in olds && o.path in Stats(tree, "")
    requires !(md5 && LacksDigest(olds, Stats(tree, "")))
    ensures o in Expected(olds, tree, md5).removed <==> Modified(o, Stats(tree, "")[o.path], md5)
    ensures NewRecord(olds, Stats(tree, ""), md5, o.path) in Expected(olds, tree, md5).added
            <==> Modified(o, Stats(tree, "")[o.path], md5)
    ensures (exists x :: x in Expected(olds, tree, md5).added && x.path == o.path)
            <==> Modified(o, Stats(tree, "")[o.path], md5)
  {
    LookupUnique(olds, o);
    var stats := Stats(tree, "");
    assert o.path in Walk(tree, "");
    var d := Expected(olds, tree, md5);
    if Modified(o, stats[o.path], md5) {
      assert NewRecord(olds, stats, md5, o.path) in d.added;
    }
  }

  /** A file whose size changed is reported as one removed and one added record. */
  lemma SizeChangeReplaced(olds: seq<FileRecord>, tree: seq<Entry>, md5: bool, o: FileRecord)
    requires UniquePaths(olds) && o in olds && o.path in Stats(tree, "")
    requires !(md5 && LacksDigest(olds, Stats(tree, "")))
    requires o.size != Some(Stats(tree, "")[o.path].size)
    ensures o in Expected(olds, tree, md5).removed
    ensures NewRecord(olds, Stats(tree, ""), md5, o.path) in Expected(olds, tree, md5).added
  {
    ModifiedIsReplaced(olds, tree, md5, o);
  }

  /**
   * Without content verification a file whose size did not change is neither
   * removed nor added, whatever happened to its contents; its new record
   * keeps no digest.
   */
  lemma SameSizeChangeInvisible(olds: seq<FileRecord>, tree: seq<Entry>, o: FileRecord)
    requires UniquePaths(olds) && o in olds && o.path in Stats(tree, "")
    requires o.size == Some(Stats(tree, "")[o.path].size)
    ensures o !in Expected(olds, tree, false).removed
    ensures forall x :: x in Expected(olds, tree, false).added ==> x.path != o.path
    ensures NewRecord(olds, Stats(tree, ""), false, o.path).md5 == None
  {
    ModifiedIsReplaced(olds, tree, false, o);
    LookupUnique(olds, o);
  }

  /**
   * With content verification, and every still-listed stored record holding
   * its digest, a same-size file whose digest changed is replaced.
   */
  lemma ContentChangeDetected(olds: seq<FileRecord>, tree: seq<Entry>, o: FileRecord)
    requires UniquePaths(olds) && o in olds && o.path in Stats(tree, "")
    requires !LacksDigest(olds, Stats(tree, ""))
    requires o.md5 != Some(Stats(tree, "")[o.path].digest)
    ensures o in Expected(olds, tree, true).removed
    ensures NewRecord(olds, Stats(tree, ""), true, o.path) in Expected(olds, tree, true).added
  {
    ModifiedIsReplaced(olds, tree, true, o);
  }

  /** A path that was not stored before is always added, with its size and digest. */
  lemma NewPathAdded(olds: seq<FileRecord>, tree: seq<Entry>, md5: bool, p: string)
    requires p in Walk(tree, "") && p !in PathSet(olds)
    requires !(md5 && LacksDigest(olds, Stats(tree, "")))
    ensures p in Stats(tree, "")
    ensures FileRecord(p, Some(Stats(tree, "")[p].size), Some(Stats(tree, "")[p].digest))
            in Expected(olds, tree, md5).added
  {
  }

  // A concrete history that reaches the crash of `file2str`: commit `a.txt`,
  // commit again with `b.txt` added (the kept `a.txt` is saved without a
  // digest), then delete `a.txt`.

  const DigestA: string := seq(32, _ => 'a')
  const DigestB: string := seq(32, _ => 'b')
  const FileA: Entry := File("a.txt", Stat(1, DigestA))
  const FileB: Entry := File("b.txt", Stat(1, DigestB))

  /** The three trees of the history are listings a file system can produce. */
  lemma HistoryTreesWellFormed()
    ensures WellFormed([FileA]) && WellFormed([FileA, FileB]) && WellFormed([FileB])
  {
    assert DigestA[0] in "0123456789abcdef" && DigestB[0] in "0123456789abcdef";
    assert IsHexDigest(DigestA) && IsHexDigest(DigestB);
    assert "a.txt" != "b.txt" && '/' !in "a.txt" && '/' !in "b.txt";
  }

  /** The listings and stats of the three trees of the history. */
  lemma HistoryListings()
    ensures Walk([FileA], "") == ["a.txt"] && Walk([FileB], "") == ["b.txt"]
    ensures Walk([FileA, FileB], "") == ["a.txt", "b.txt"]
    ensures Stats([FileA], "") == map["a.txt" := Stat(1, DigestA)]
    ensures Stats([FileB], "") == map["b.txt" := Stat(1, DigestB)]
    ensures Stats([FileA, FileB], "") == map["a.txt" := Stat(1, DigestA), "b.txt" := Stat(1, DigestB)]
  {
    WalkSingle(FileA, "");
    WalkSingle(FileB, "");
    assert "" + "a.txt" == "a.txt" && "" + "b.txt" == "b.txt";
    WalkAppend([FileA], [FileB], "");
    assert [FileA] + [FileB] == [FileA, FileB];
    assert [FileA, FileB][1..] == [FileB];
  }

  /** The first commit saves `a.txt` with its digest; the second keeps it without one. */
  lemma HistorySnapshots()
    ensures ExpectedSnapshot([], [FileA], false) == [FileRecord("a.txt", Some(1), Some(DigestA))]
    ensures ExpectedSnapshot(ExpectedSnapshot([], [FileA], false), [FileA, FileB], false)
            == [FileRecord("a.txt", Some(1), None), FileRecord("b.txt", Some(1), Some(DigestB))]
    ensures |Expected([], [FileA], false).added| > 0
    ensures |Expected(ExpectedSnapshot([], [FileA], false), [FileA, FileB], false).added| > 0
  {
    HistoryListings();
    var s1 := ExpectedSnapshot([], [FileA], false);
    assert s1 == [FileRecord("a.txt", Some(1), Some(DigestA))];
    assert "a.txt" != "b.txt";
    assert Lookup(s1, "b.txt") == None;
    assert Expected([], [FileA], false).added != [] by {
      assert NewRecord([], Stats([FileA], ""), false, "a.txt") in Expected([], [FileA], false).added;
    }
    var st2 := Stats([FileA, FileB], "");
    assert NewRecord(s1, st2, false, "b.txt") in Expected(s1, [FileA, FileB], false).added;
  }

  /** The third commit removes the digest-less record of `a.txt` and nothing else. */
  lemma ThirdCommit()
    ensures Expected(ExpectedSnapshot(ExpectedSnapshot([], [FileA], false), [FileA, FileB], false), [FileB], false)
            == Delta([], [FileRecord("a.txt", Some(1), None)])
  {
    HistoryListings();
    HistorySnapshots();
    var a2, b2 := FileRecord("a.txt", Some(1), None), FileRecord("b.txt", Some(1), Some(DigestB));
    var s2, st3 := [a2, b2], Stats([FileB], "");
    assert "a.txt" != "b.txt";
    assert Lookup(s2, "b.txt") == Some(b2);
    assert !IsAdded(s2, st3, false, "b.txt");
    NothingAdded(s2, ["b.txt"], st3, false);
    assert RemovedSpec(s2, st3, false) == [a2] by {
      assert s2[1..] == [b2];
      NothingRemoved(s2[1..], st3, false);
    }
  }

  /** The detailed log of a commit that only removed `r`. */
  lemma RemovedOnlyLog(r: FileRecord)
    ensures Log(Delta([], [r]), true) == "1 files removed:\n" + FileLine(r)
  {
    SingleSection(r, "removed");
    var d := Delta([], [r]);
    assert Sections(d, Section([r], "removed"), Section([], "added")) == Section([r], "removed") by {
      assert (if |d.removed| > 0 then [Section([r], "removed")] else []) + (if |d.added| > 0 then [Section([], "added")] else [])
          == [Section([r], "removed")];
    }
  }

  /** The section listing the single record `r`. */
  lemma SingleSection(r: FileRecord, verb: string)
    ensures Section([r], verb) == "1 files " + verb + ":\n" + FileLine(r)
  {
    assert SortByPath([r]) == [r] by {
      assert [r][1..] == [];
    }
    assert FileLines([r]) == [FileLine(r)];
    assert Header(1, verb) == "1 files " + verb + ":" by {
      assert NatToString(1) == "1";
    }
  }

  /** The line the corrected log writes for the removed `a.txt`. */
  lemma ThirdCommitLine()
    ensures FileLine(FileRecord("a.txt", Some(1), None)) == "None | 1 | a.txt"
  {
    assert SizeText(Some(1)) == "1" by {
      assert NatToString(1) == "1";
    }
  }

  /** The corrected detailed log of the third commit. */
  lemma ThirdCommitLog()
    ensures Log(Delta([], [FileRecord("a.txt", Some(1), None)]), true) == "1 files removed:\nNone | 1 | a.txt"
  {
    RemovedOnlyLog(FileRecord("a.txt", Some(1), None));
    ThirdCommitLine();
  }

  /**
   * With content verification off (the command line never turns it on),
   * the third commit of this history removes a record that has no digest,
   * so `log(detailed=True)` as written fails, after the delta and the
   * snapshot were saved; the corrected log prints the digest as `None`.
   */
  lemma LogCrashReachable()
    ensures WellFormed([FileA]) && WellFormed([FileA, FileB]) && WellFormed([FileB])
    ensures var s1 := ExpectedSnapshot([], [FileA], false);
            var s2 := ExpectedSnapshot(s1, [FileA, FileB], false);
            var d3 := Expected(s2, [FileB], false);
            && |Expected([], [FileA], false).added| > 0
            && |Expected(s1, [FileA, FileB], false).added| > 0
            && d3 == Delta([], [FileRecord("a.txt", Some(1), None)])
            && LogAsWritten(d3, true) == None
            && Log(d3, true) == "1 files removed:\nNone | 1 | a.txt"
  {
    HistoryTreesWellFormed();
    HistorySnapshots();
    ThirdCommit();
    ThirdCommitLog();
    var r := FileRecord("a.txt", Some(1), None);
    LogAsWrittenAgrees(Delta([], [r]));
    assert !AllDigests([r]);
  }
}
