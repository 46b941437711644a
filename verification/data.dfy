/**
 * `RepositoryData`: the list of file records of one snapshot of the tracked
 * directory, and `update`, which rebuilds it from the directory.
 */
module Data {
  import opened Wrappers
  import opened FileTree
  import opened Records

  class RepositoryData {
    var files: seq<FileInfo>

    constructor()
      ensures files == []
    {
      files := [];
    }

    /**
     * `update`: forget the current records and record one blank `FileInfo`
     * per walked file, in walk order.
     */
    method Update(root: seq<Entry>)
      modifies this
      ensures PathsOf(files) == Walk(root, "")
      ensures forall f :: f in files ==> fresh(f) && f.size == None && f.md5 == None
    {
      files := [];
      UpdateFiles(root, "");
    }

    /**
     * The nested `update_files`: for each entry of the directory at `rel`,
     * descend into a directory unless it is named `.fm`, or append a new
     * record for a file. Earlier records stay as they are.
     */
    method UpdateFiles(entries: seq<Entry>, rel: string)
      modifies this
      ensures |files| >= |old(files)| && files[..|old(files)|] == old(files)
      ensures PathsOf(files[|old(files)|..]) == Walk(entries, rel)
      ensures forall j :: |old(files)| <= j < |files| ==>
        fresh(files[j]) && files[j].size == None && files[j].md5 == None
      decreases entries
    {
      ghost var start := |files|;
      for i := 0 to |entries|
        invariant |files| >= start && files[..start] == old(files)
        invariant PathsOf(files[start..]) == Walk(entries[..i], rel)
        invariant forall j :: start <= j < |files| ==>
          fresh(files[j]) && files[j].size == None && files[j].md5 == None
      {
        ghost var before := files;
        WalkPrefixStep(entries, i, rel);
        match entries[i] {
        case Dir(n, cs) =>
          if n != FmFolder {
            UpdateFiles(cs, rel + n + "/");
            Extended(before, files, start, old(files));
          }
        case File(n, _) =>
          var f := new FileInfo(rel + n);
          files := files + [f];
          Extended(before, files, start, old(files));
        }
      }
      assert entries[..|entries|] == entries;
    }
  }

  /** The walk of one more entry of a listing extends the walk so far. */
  lemma WalkPrefixStep(entries: seq<Entry>, i: nat, rel: string)
    requires i < |entries|
    ensures Walk(entries[..i + 1], rel) == Walk(entries[..i], rel) + EntryWalk(entries[i], rel)
  {
    assert entries[..i + 1] == entries[..i] + [entries[i]];
    WalkAppend(entries[..i], [entries[i]], rel);
    WalkSingle(entries[i], rel);
  }

  /**
   * `after` extends `before`, which agrees with `orig` on its first `start`
   * records: so does `after`, and its records past `start` are those of
   * `before` followed by the new ones.
   */
  lemma Extended(before: seq<FileInfo>, after: seq<FileInfo>, start: nat, orig: seq<FileInfo>)
    requires |before| >= start && before[..start] == orig
    requires |after| >= |before| && after[..|before|] == before
    ensures after[..start] == orig
    ensures PathsOf(after[start..]) == PathsOf(before[start..]) + PathsOf(after[|before|..])
    ensures forall j :: 0 <= j < |before| ==> after[j] == before[j]
  {
    assert after[..start] == after[..|before|][..start];
    assert after[start..] == before[start..] + after[|before|..];
    PathsOfAppend(before[start..], after[|before|..]);
  }
}
