/**
 * The tracked directory as the repository code sees it: `os.listdir` gives the
 * entries of a directory, `os.path.isdir` tells directories from files, and
 * `os.path.getsize` / `hashlib.md5(...).hexdigest()` give a file's size and
 * digest. A directory is a sequence of entries in listing order.
 */
module FileTree {
  import opened Text

  /** The repository's metadata directory, `FM_FOLDER`. */
  const FmFolder: string := ".fm"

  /** What the file system reports about one regular file. */
  datatype Stat = Stat(size: nat, digest: string)

  datatype Entry =
    | File(name: string, stat: Stat)
    | Dir(name: string, children: seq<Entry>)

  /** A name as `os.listdir` returns it: non-empty and without a separator. */
  predicate ValidName(name: string) {
    name != "" && '/' !in name
  }

  /** `hexdigest()` of an MD5: 32 lower-case hexadecimal characters. */
  predicate IsHexDigest(d: string) {
    |d| == 32 && forall i :: 0 <= i < |d| ==> d[i] in "0123456789abcdef"
  }

  /** A hexadecimal digest holds no `'|'`, the separator of the scan keys. */
  lemma HexNoBar(d: string)
    requires IsHexDigest(d)
    ensures '|' !in d
  {
    forall i | 0 <= i < |d| ensures d[i] != '|' {
      assert d[i] in "0123456789abcdef";
    }
  }

  /** A directory listing a real file system can produce. */
  predicate WellFormed(entries: seq<Entry>)
    decreases entries
  {
    && (forall i :: 0 <= i < |entries| ==> ValidName(entries[i].name))
    && (forall i, j :: 0 <= i < j < |entries| ==> entries[i].name != entries[j].name)
    && (forall i :: 0 <= i < |entries| ==>
          match entries[i]
          case File(_, st) => IsHexDigest(st.digest)
          case Dir(_, cs) => WellFormed(cs))
  }

  /**
   * The relative paths `RepositoryData.update` records, in walk order: one per
   * file, `rel + name`, descending into every directory except those named
   * `.fm`, at any depth. Directories themselves are not recorded.
   */
  function Walk(entries: seq<Entry>, rel: string): seq<string>
    decreases entries
  {
    if |entries| == 0 then []
    else
      (match entries[0]
       case File(n, _) => [rel + n]
       case Dir(n, cs) => if n == FmFolder then [] else Walk(cs, rel + n + "/"))
      + Walk(entries[1..], rel)
  }

  /** The size and digest the file system reports for each walked path. */
  function Stats(entries: seq<Entry>, rel: string): (m: map<string, Stat>)
    ensures m.Keys == set p | p in Walk(entries, rel)
    decreases entries
  {
    if |entries| == 0 then map[]
    else
      (match entries[0]
       case File(n, st) => map[rel + n := st]
       case Dir(n, cs) => if n == FmFolder then map[] else Stats(cs, rel + n + "/"))
      + Stats(entries[1..], rel)
  }

  /** Every digest a well-formed tree reports is a hexadecimal digest. */
  lemma {:induction false} StatsHex(entries: seq<Entry>, rel: string)
    requires WellFormed(entries)
    ensures forall p :: p in Stats(entries, rel) ==> IsHexDigest(Stats(entries, rel)[p].digest)
    decreases entries
  {
    if |entries| > 0 {
      assert WellFormed(entries[1..]);
      StatsHex(entries[1..], rel);
      match entries[0]
      case File(n, st) =>
        assert IsHexDigest(st.digest);
      case Dir(n, cs) =>
        if n != FmFolder {
          assert WellFormed(cs);
          StatsHex(cs, rel + n + "/");
        }
    }
  }

  /** `p` lies under entry `e` of the directory at `rel`. */
  predicate Under(p: string, rel: string, e: Entry) {
    if e.File? then p == rel + e.name
    else
      && |p| > |rel| + |e.name|
      && p[..|rel| + |e.name|] == rel + e.name
      && p[|rel| + |e.name|] == '/'
  }

  /** What `update` records for one entry of the directory at `rel`. */
  function EntryWalk(e: Entry, rel: string): seq<string> {
    if e.File? then [rel + e.name]
    else if e.name == FmFolder then []
    else Walk(e.children, rel + e.name + "/")
  }

  /** A listing's walk is its first entry's walk followed by the rest. */
  lemma WalkCons(entries: seq<Entry>, rel: string)
    requires |entries| > 0
    ensures Walk(entries, rel) == EntryWalk(entries[0], rel) + Walk(entries[1..], rel)
  {
  }

  /** The parts of a well-formed listing are well formed. */
  lemma WellFormedParts(entries: seq<Entry>)
    requires WellFormed(entries) && |entries| > 0
    ensures ValidName(entries[0].name) && WellFormed(entries[1..])
    ensures entries[0].Dir? ==> WellFormed(entries[0].children)
    ensures forall j :: 0 <= j < |entries| - 1 ==> entries[1..][j] == entries[j + 1]
  {
    var rest := entries[1..];
    assert forall j :: 0 <= j < |rest| ==> rest[j] == entries[j + 1];
    assert ValidName(entries[0].name);
    if entries[0].Dir? {
      assert WellFormed(entries[0].children);
    }
  }

  /** A path under a child of directory `e` lies under `e` itself. */
  lemma UnderParent(p: string, rel: string, e: Entry, c: Entry)
    requires e.Dir? && ValidName(c.name)
    requires Under(p, rel + e.name + "/", c)
    ensures Under(p, rel, e)
  {
    var rel' := rel + e.name + "/";
    UnderPrefix(p, rel', c);
    assert p[..|rel| + |e.name|] == p[..|rel'|][..|rel| + |e.name|];
    assert p[|rel| + |e.name|] == p[..|rel'|][|rel| + |e.name|];
  }

  /**
   * Every walked path lies under one of the entries it was found through, and
   * a path found through the first entry lies under that entry.
   */
  lemma {:induction false} WalkShape(entries: seq<Entry>, rel: string, p: string)
    requires WellFormed(entries)
    requires p in Walk(entries, rel)
    ensures exists j :: 0 <= j < |entries| && Under(p, rel, entries[j])
    ensures p in EntryWalk(entries[0], rel) ==> Under(p, rel, entries[0])
    decreases entries
  {
    WalkCons(entries, rel);
    WellFormedParts(entries);
    var e := entries[0];
    if p in EntryWalk(e, rel) {
      if e.Dir? {
        WalkShape(e.children, rel + e.name + "/", p);
        var j :| 0 <= j < |e.children| && Under(p, rel + e.name + "/", e.children[j]);
        assert ValidName(e.children[j].name);
        UnderParent(p, rel, e, e.children[j]);
      }
    } else {
      WalkShape(entries[1..], rel, p);
      var j :| 0 <= j < |entries| - 1 && Under(p, rel, entries[1..][j]);
      assert Under(p, rel, entries[j + 1]);
    }
  }

  /** A path lies under at most one of two differently named sibling entries. */
  lemma UnderOne(p: string, rel: string, e1: Entry, e2: Entry)
    requires ValidName(e1.name) && ValidName(e2.name)
    requires Under(p, rel, e1) && Under(p, rel, e2)
    ensures e1.name == e2.name
  {
    var n1, n2 := e1.name, e2.name;
    assert p[..|rel| + |n1|] == rel + n1 by {
      if e1.File? { assert p[..|rel| + |n1|] == p; }
    }
    assert p[..|rel| + |n2|] == rel + n2 by {
      if e2.File? { assert p[..|rel| + |n2|] == p; }
    }
    if |n1| < |n2| {
      ShorterName(p, rel, e1, n2);
      assert false;
    } else if |n2| < |n1| {
      ShorterName(p, rel, e2, n1);
      assert false;
    } else {
      assert n1 == (rel + n1)[|rel|..] == p[..|rel| + |n1|][|rel|..];
      assert n2 == (rel + n2)[|rel|..] == p[..|rel| + |n2|][|rel|..];
    }
  }

  /** A path under entry `e` does not begin with a longer sibling name. */
  lemma ShorterName(p: string, rel: string, e: Entry, longer: string)
    requires ValidName(e.name) && '/' !in longer
    requires Under(p, rel, e) && |e.name| < |longer|
    ensures |p| >= |rel| + |longer| ==> p[..|rel| + |longer|] != rel + longer
  {
    if |p| >= |rel| + |longer| {
      var k := |rel| + |e.name|;
      assert (rel + longer)[k] == longer[|e.name|];
      assert longer[|e.name|] != '/' by {
        assert longer[|e.name|] in longer;
      }
      assert p[..|rel| + |longer|][k] == p[k] == '/';
    }
  }

  /** Two duplicate-free sequences with no common element concatenate without duplicates. */
  lemma ConcatNoDuplicates(a: seq<string>, b: seq<string>)
    requires NoDuplicates(a) && NoDuplicates(b)
    requires forall p :: p in a ==> p !in b
    ensures NoDuplicates(a + b)
  {
    var w := a + b;
    forall i, j | 0 <= i < j < |w|
      ensures w[i] != w[j]
    {
      if j < |a| {
        assert w[i] == a[i] && w[j] == a[j];
      } else if i >= |a| {
        assert w[i] == b[i - |a|] && w[j] == b[j - |a|];
      } else {
        assert w[i] in a && w[j] in b;
      }
    }
  }

  /** No path is found both through the first entry and through a later sibling. */
  lemma HeadTailDisjoint(entries: seq<Entry>, rel: string)
    requires WellFormed(entries) && |entries| > 0
    ensures forall p :: p in EntryWalk(entries[0], rel) ==> p !in Walk(entries[1..], rel)
  {
    WalkCons(entries, rel);
    WellFormedParts(entries);
    forall p | p in EntryWalk(entries[0], rel)
      ensures p !in Walk(entries[1..], rel)
    {
      if p in Walk(entries[1..], rel) {
        WalkShape(entries[1..], rel, p);
        var j :| 0 <= j < |entries| - 1 && Under(p, rel, entries[1..][j]);
        WalkShape(entries, rel, p);
        assert ValidName(entries[j + 1].name);
        UnderOne(p, rel, entries[0], entries[j + 1]);
      }
    }
  }

  /** A well-formed tree yields every relative path at most once. */
  lemma {:induction false} WalkDistinct(entries: seq<Entry>, rel: string)
    requires WellFormed(entries)
    ensures NoDuplicates(Walk(entries, rel))
    decreases entries
  {
    if |entries| > 0 {
      var e := entries[0];
      WalkCons(entries, rel);
      WellFormedParts(entries);
      if e.Dir? && e.name != FmFolder {
        WalkDistinct(e.children, rel + e.name + "/");
      }
      WalkDistinct(entries[1..], rel);
      HeadTailDisjoint(entries, rel);
      ConcatNoDuplicates(EntryWalk(e, rel), Walk(entries[1..], rel));
    }
  }

  /** A path under an entry of the directory at `rel` extends `rel`. */
  lemma UnderPrefix(p: string, rel: string, e: Entry)
    requires ValidName(e.name) && Under(p, rel, e)
    ensures |p| > |rel| && p[..|rel|] == rel
  {
    if e.File? {
      assert p == rel + e.name;
    } else {
      assert p[..|rel|] == p[..|rel| + |e.name|][..|rel|];
    }
  }

  /** The walk of a concatenated listing is the concatenation of the walks. */
  lemma {:induction false} WalkAppend(a: seq<Entry>, b: seq<Entry>, rel: string)
    ensures Walk(a + b, rel) == Walk(a, rel) + Walk(b, rel)
    decreases a
  {
    if |a| > 0 {
      assert (a + b)[0] == a[0] && (a + b)[1..] == a[1..] + b;
      WalkAppend(a[1..], b, rel);
    } else {
      assert a + b == b;
    }
  }

  /** The walk of a single entry. */
  lemma WalkSingle(e: Entry, rel: string)
    ensures Walk([e], rel) ==
      if e.File? then [rel + e.name]
      else if e.name == FmFolder then []
      else Walk(e.children, rel + e.name + "/")
  {
    assert [e][1..] == [];
  }

  /** Every file of the tree, in walk order, descending into every directory. */
  function Listing(entries: seq<Entry>, rel: string): seq<string>
    decreases entries
  {
    if |entries| == 0 then []
    else
      (match entries[0]
       case File(n, _) => [rel + n]
       case Dir(n, cs) => Listing(cs, rel + n + "/"))
      + Listing(entries[1..], rel)
  }

  /** The tree with every directory named `.fm` removed, at any depth. */
  function Prune(entries: seq<Entry>): (r: seq<Entry>)
    ensures forall i :: 0 <= i < |r| ==> r[i].Dir? ==> r[i].name != FmFolder
    decreases entries
  {
    if |entries| == 0 then []
    else
      (match entries[0]
       case File(n, st) => [File(n, st)]
       case Dir(n, cs) => if n == FmFolder then [] else [Dir(n, Prune(cs))])
      + Prune(entries[1..])
  }

  /** No directory named `.fm` occurs anywhere in the tree. */
  predicate NoFmDirs(entries: seq<Entry>)
    decreases entries
  {
    forall i :: 0 <= i < |entries| ==>
      entries[i].Dir? ==> entries[i].name != FmFolder && NoFmDirs(entries[i].children)
  }

  /** Pruning leaves no `.fm` directory at any depth. */
  lemma {:induction false} PruneRemovesAll(entries: seq<Entry>)
    ensures NoFmDirs(Prune(entries))
    decreases entries
  {
    if |entries| > 0 {
      var head := match entries[0]
        case File(n, st) => [File(n, st)]
        case Dir(n, cs) => if n == FmFolder then [] else [Dir(n, Prune(cs))];
      assert Prune(entries) == head + Prune(entries[1..]);
      if entries[0].Dir? {
        PruneRemovesAll(entries[0].children);
      }
      PruneRemovesAll(entries[1..]);
      forall i | 0 <= i < |Prune(entries)| && Prune(entries)[i].Dir?
        ensures Prune(entries)[i].name != FmFolder && NoFmDirs(Prune(entries)[i].children)
      {
        if i >= |head| {
          assert Prune(entries)[i] == Prune(entries[1..])[i - |head|];
        }
      }
    }
  }

  /**
   * `update` records exactly the files the tree holds once every `.fm`
   * directory, at any depth, is cut away: nothing under a `.fm` directory is
   * ever recorded, and every other file is, in listing order.
   */
  lemma {:induction false} WalkIsPrunedListing(entries: seq<Entry>, rel: string)
    ensures Walk(entries, rel) == Listing(Prune(entries), rel)
    decreases entries
  {
    if |entries| > 0 {
      var e := entries[0];
      var head := match e
        case File(n, st) => [File(n, st)]
        case Dir(n, cs) => if n == FmFolder then [] else [Dir(n, Prune(cs))];
      assert Prune(entries) == head + Prune(entries[1..]);
      ListingAppend(head, Prune(entries[1..]), rel);
      WalkIsPrunedListing(entries[1..], rel);
      if e.Dir? && e.name != FmFolder {
        WalkIsPrunedListing(e.children, rel + e.name + "/");
        assert Listing(head, rel) == Listing(Prune(e.children), rel + e.name + "/") + Listing([], rel);
      }
    }
  }

  lemma {:induction false} ListingAppend(a: seq<Entry>, b: seq<Entry>, rel: string)
    ensures Listing(a + b, rel) == Listing(a, rel) + Listing(b, rel)
    decreases a
  {
    if |a| > 0 {
      assert (a + b)[0] == a[0] && (a + b)[1..] == a[1..] + b;
      ListingAppend(a[1..], b, rel);
    } else {
      assert a + b == b;
    }
  }

  /** A file named `.fm` is an ordinary file: only directories of that name are skipped. */
  lemma {:induction false} FmFileRecorded(entries: seq<Entry>, rel: string, i: nat, st: Stat)
    requires i < |entries| && entries[i] == File(FmFolder, st)
    ensures rel + FmFolder in Walk(entries, rel)
    decreases i
  {
    if i > 0 {
      FmFileRecorded(entries[1..], rel, i - 1, st);
    }
  }
}
