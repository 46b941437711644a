/**
 * What one commit detects, stated directly instead of stage by stage: the
 * reference definition the staged detector of `Repository.commit` is proved
 * against. `olds` is the stored snapshot, `paths` the new listing in walk
 * order and `stats` the size and digest of every listed file.
 */
module DetectionSpec {
  import opened Wrappers
  import opened Text
  import opened FileTree
  import opened Records

  function PathSet(rs: seq<FileRecord>): set<string> {
    set r | r in rs :: r.path
  }

  /** No two records share a path (the snapshot invariant). */
  predicate UniquePaths(rs: seq<FileRecord>) {
    NoDuplicates(RecordPaths(rs))
  }

  /** The stored record for path `p`, if any. */
  function Lookup(olds: seq<FileRecord>, p: string): (r: Option<FileRecord>)
    ensures r.Some? ==> r.value in olds && r.value.path == p
    ensures r.None? <==> p !in PathSet(olds)
  {
    if |olds| == 0 then None
    else if olds[0].path == p then Some(olds[0])
    else Lookup(olds[1..], p)
  }

  lemma {:induction false} LookupUnique(olds: seq<FileRecord>, o: FileRecord)
    requires UniquePaths(olds) && o in olds
    ensures Lookup(olds, o.path) == Some(o)
  {
    if olds[0] != o {
      assert olds[0].path != o.path by {
        var k :| 0 <= k < |olds| && olds[k] == o;
      }
      assert o in olds[1..];
      LookupUnique(olds[1..], o);
    }
  }

  /**
   * The stage-2 key of the stored record differs from that of the file on
   * disk: a different size, or (with content verification) a different digest.
   */
  predicate Modified(o: FileRecord, st: Stat, md5: bool) {
    o.size != Some(st.size) || (md5 && o.md5 != Some(st.digest))
  }

  /** A listed path is reported as added: it is new, or its stored version was modified. */
  predicate IsAdded(olds: seq<FileRecord>, stats: map<string, Stat>, md5: bool, p: string)
    requires p in stats
  {
    match Lookup(olds, p)
    case None => true
    case Some(o) => Modified(o, stats[p], md5)
  }

  /** A stored record is reported as removed: its path is gone, or the file was modified. */
  predicate IsRemoved(stats: map<string, Stat>, md5: bool, o: FileRecord) {
    o.path !in stats || Modified(o, stats[o.path], md5)
  }

  /**
   * The record the commit keeps for a listed path: the size is always read;
   * the digest is read for added files and, with content verification, for
   * every file.
   */
  function NewRecord(olds: seq<FileRecord>, stats: map<string, Stat>, md5: bool, p: string): FileRecord
    requires p in stats
  {
    FileRecord(p, Some(stats[p].size),
               if md5 || IsAdded(olds, stats, md5, p) then Some(stats[p].digest) else None)
  }

  predicate Listed(paths: seq<string>, stats: map<string, Stat>) {
    forall p :: p in paths ==> p in stats
  }

  /** The added records, in listing order; every one carries a size and a digest. */
  function AddedSpec(olds: seq<FileRecord>, paths: seq<string>, stats: map<string, Stat>, md5: bool)
    : (r: seq<FileRecord>)
    requires Listed(paths, stats)
    ensures forall x :: x in r ==> x.size.Some? && x.md5.Some?
    ensures forall x :: x in r ==>
      x.path in paths && IsAdded(olds, stats, md5, x.path) && x == NewRecord(olds, stats, md5, x.path)
    ensures forall p :: p in paths && IsAdded(olds, stats, md5, p) ==> NewRecord(olds, stats, md5, p) in r
    ensures NoDuplicates(paths) ==> UniquePaths(r)
  {
    if |paths| == 0 then []
    else
      var rest := AddedSpec(olds, paths[1..], stats, md5);
      if IsAdded(olds, stats, md5, paths[0]) then [NewRecord(olds, stats, md5, paths[0])] + rest
      else rest
  }

  /** The removed records, in snapshot order. */
  function RemovedSpec(olds: seq<FileRecord>, stats: map<string, Stat>, md5: bool): (r: seq<FileRecord>)
    ensures forall x :: x in r <==> x in olds && IsRemoved(stats, md5, x)
    ensures UniquePaths(olds) ==> UniquePaths(r)
  {
    if |olds| == 0 then []
    else
      var rest := RemovedSpec(olds[1..], stats, md5);
      TailUnique(olds);
      PathFreeSub(olds[0].path, rest, olds[1..]);
      if IsRemoved(stats, md5, olds[0]) then ConsUnique(olds[0], rest); [olds[0]] + rest else rest
  }

  /** No record of `t` has path `p`. */
  predicate PathFree(p: string, t: seq<FileRecord>) {
    forall i :: 0 <= i < |t| ==> t[i].path != p
  }

  /** A path missing from `t` is missing from every list drawn from `t`. */
  lemma PathFreeSub(p: string, sub: seq<FileRecord>, t: seq<FileRecord>)
    requires forall x :: x in sub ==> x in t
    ensures PathFree(p, t) ==> PathFree(p, sub)
  {
    if PathFree(p, t) {
      forall i | 0 <= i < |sub| ensures sub[i].path != p {
        assert sub[i] in sub;
        var k :| 0 <= k < |t| && t[k] == sub[i];
      }
    }
  }

  /** The tail of a list with unique paths has unique paths, none of them the head's. */
  lemma TailUnique(rs: seq<FileRecord>)
    requires |rs| > 0
    ensures UniquePaths(rs) ==> UniquePaths(rs[1..]) && PathFree(rs[0].path, rs[1..])
  {
  }

  /** Putting a record before records with other paths keeps paths unique. */
  lemma ConsUnique(x: FileRecord, rs: seq<FileRecord>)
    ensures UniquePaths(rs) && PathFree(x.path, rs) ==> UniquePaths([x] + rs)
  {
    if UniquePaths(rs) && PathFree(x.path, rs) {
      var w := [x] + rs;
      forall i, j | 0 <= i < j < |w| ensures w[i].path != w[j].path {
        assert w[j] == rs[j - 1];
        if i > 0 {
          assert w[i] == rs[i - 1];
        }
      }
    }
  }

  /** The snapshot a non-empty commit stores: the new listing with its sizes and digests. */
  function SnapshotSpec(olds: seq<FileRecord>, paths: seq<string>, stats: map<string, Stat>, md5: bool)
    : seq<FileRecord>
    requires Listed(paths, stats)
  {
    seq(|paths|, i requires 0 <= i < |paths| => NewRecord(olds, stats, md5, paths[i]))
  }
}
