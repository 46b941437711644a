/**
 * `FileInfo` (fm/repo.py) and the comparison keys the change detector builds
 * from it. A `FileInfo` is an object whose `size` and `md5` are filled in
 * lazily, in place; `FileRecord` is the value of its fields, which is what the
 * snapshot and delta files keep.
 */
module Records {
  import opened Wrappers
  import opened Text

  /** The fields of one `FileInfo`, as saved to and loaded from disk. */
  datatype FileRecord = FileRecord(path: string, size: Option<nat>, md5: Option<string>)

  class FileInfo {
    const path: string
    var size: Option<nat>
    var md5: Option<string>

    /** `FileInfo(path)`: only the path is known at creation. */
    constructor (path: string)
      ensures this.path == path && size == None && md5 == None
    {
      this.path := path;
      size := None;
      md5 := None;
    }

    /** The record's current field values. */
    function Record(): FileRecord
      reads this
    {
      FileRecord(path, size, md5)
    }
  }

  /** The field values of a list of records, position by position. */
  function RecordsOf(fs: seq<FileInfo>): (rs: seq<FileRecord>)
    reads fs
    ensures |rs| == |fs|
    ensures forall i :: 0 <= i < |fs| ==> rs[i] == fs[i].Record()
  {
    seq(|fs|, i reads fs requires 0 <= i < |fs| => fs[i].Record())
  }

  /** The three keys `Repository.commit` scans with. */
  datatype Stage =
    | ByPath   // `f.path`
    | BySize   // `str(f.size) + '|' + f.path`
    | ByMd5    // `f.md5 + '|' + str(f.size) + '|' + f.path`

  /**
   * A key as a tuple instead of a `'|'`-joined string; `KeyTextInjective`
   * shows the two compare alike. A missing size stays `None`, which Python
   * renders as the text `None`.
   */
  datatype Key =
    | PathKey(path: string)
    | SizeKey(size: Option<nat>, path: string)
    | Md5Key(md5: Option<string>, size: Option<nat>, path: string)

  function RecordKey(stage: Stage, r: FileRecord): (k: Key)
    ensures k.path == r.path
  {
    match stage
    case ByPath => PathKey(r.path)
    case BySize => SizeKey(r.size, r.path)
    case ByMd5 => Md5Key(r.md5, r.size, r.path)
  }

  /** `str(size)`. */
  function SizeText(size: Option<nat>): string {
    match size
    case None => "None"
    case Some(n) => NatToString(n)
  }

  /** The key string the source builds; with `md5` absent Python raises instead. */
  function KeyText(k: Key): string
    requires k.Md5Key? ==> k.md5.Some?
  {
    match k
    case PathKey(p) => p
    case SizeKey(s, p) => SizeText(s) + "|" + p
    case Md5Key(d, s, p) => d.value + "|" + SizeText(s) + "|" + p
  }

  lemma SizeTextNoBar(size: Option<nat>)
    ensures '|' !in SizeText(size)
  {
    if size.Some? {
      var t := SizeText(size);
      forall i | 0 <= i < |t| ensures t[i] != '|' {
        assert IsDigit(t[i]);
      }
    }
  }

  /** Only a missing size renders with a leading `N`; a number starts with a digit. */
  lemma SizeTextHead(size: Option<nat>)
    ensures |SizeText(size)| > 0
    ensures SizeText(size)[0] == 'N' <==> size.None?
  {
    if size.Some? {
      assert IsDigit(SizeText(size)[0]);
    }
  }

  lemma SizeTextInjective(a: Option<nat>, b: Option<nat>)
    requires SizeText(a) == SizeText(b)
    ensures a == b
  {
    SizeTextHead(a);
    SizeTextHead(b);
    if a.Some? && b.Some? {
      NatToStringInjective(a.value, b.value);
    }
  }

  /**
   * Keys of one stage are equal exactly when their strings are, provided the
   * digests hold no `'|'` (a hex digest does not). So comparing tuples is
   * comparing the source's strings.
   */
  lemma KeyTextInjective(k1: Key, k2: Key)
    requires (k1.PathKey? && k2.PathKey?) || (k1.SizeKey? && k2.SizeKey?) || (k1.Md5Key? && k2.Md5Key?)
    requires k1.Md5Key? ==> k1.md5.Some? && '|' !in k1.md5.value
    requires k2.Md5Key? ==> k2.md5.Some? && '|' !in k2.md5.value
    ensures KeyText(k1) == KeyText(k2) <==> k1 == k2
  {
    if KeyText(k1) == KeyText(k2) {
      match k1
      case PathKey(_) =>
      case SizeKey(s1, p1) =>
        SizeKeyTextInjective(s1, p1, k2.size, k2.path);
      case Md5Key(d1, s1, p1) =>
        Md5KeyTextInjective(d1.value, s1, p1, k2.md5.value, k2.size, k2.path);
    }
  }

  /** `md5 + '|' + str(size) + '|' + path` determines its three parts when digests hold no `'|'`. */
  lemma Md5KeyTextInjective(d1: string, s1: Option<nat>, p1: string, d2: string, s2: Option<nat>, p2: string)
    requires '|' !in d1 && '|' !in d2
    requires d1 + "|" + SizeText(s1) + "|" + p1 == d2 + "|" + SizeText(s2) + "|" + p2
    ensures d1 == d2 && s1 == s2 && p1 == p2
  {
    Regroup(d1, SizeText(s1), p1);
    Regroup(d2, SizeText(s2), p2);
    SplitAtSeparator(d1, SizeText(s1) + "|" + p1, d2, SizeText(s2) + "|" + p2, '|');
    SizeKeyTextInjective(s1, p1, s2, p2);
  }

  lemma Regroup(d: string, s: string, p: string)
    ensures d + "|" + s + "|" + p == d + "|" + (s + "|" + p)
  {
  }

  /** `str(size) + '|' + path` determines the size and the path. */
  lemma SizeKeyTextInjective(s1: Option<nat>, p1: string, s2: Option<nat>, p2: string)
    requires SizeText(s1) + "|" + p1 == SizeText(s2) + "|" + p2
    ensures s1 == s2 && p1 == p2
  {
    SizeTextNoBar(s1);
    SizeTextNoBar(s2);
    SplitAtSeparator(SizeText(s1), p1, SizeText(s2), p2, '|');
    SizeTextInjective(s1, s2);
  }

  /** `key(f)` in the current heap. */
  function KeyFor(stage: Stage, f: FileInfo): Key
    reads f
  {
    RecordKey(stage, f.Record())
  }

  function KeySet(stage: Stage, fs: seq<FileInfo>): set<Key>
    reads fs
  {
    set f | f in fs :: KeyFor(stage, f)
  }

  /** No two positions of `fs` share a key. */
  predicate DistinctKeys(stage: Stage, fs: seq<FileInfo>)
    reads fs
  {
    forall i, j :: 0 <= i < j < |fs| ==> KeyFor(stage, fs[i]) != KeyFor(stage, fs[j])
  }

  /** The paths of a list of records, in order. */
  function PathsOf(fs: seq<FileInfo>): (ps: seq<string>)
    ensures |ps| == |fs| && forall i :: 0 <= i < |fs| ==> ps[i] == fs[i].path
  {
    seq(|fs|, i requires 0 <= i < |fs| => fs[i].path)
  }

  lemma PathsOfAppend(a: seq<FileInfo>, b: seq<FileInfo>)
    ensures PathsOf(a + b) == PathsOf(a) + PathsOf(b)
  {
  }

  /** The paths of a list of records (a path never changes once created). */
  function FilePaths(fs: seq<FileInfo>): set<string> {
    set f | f in fs :: f.path
  }

  /** The paths of a list of stored records, in order. */
  function RecordPaths(rs: seq<FileRecord>): (ps: seq<string>)
    ensures |ps| == |rs| && forall i :: 0 <= i < |rs| ==> ps[i] == rs[i].path
  {
    seq(|rs|, i requires 0 <= i < |rs| => rs[i].path)
  }

  /** No two positions of `fs` share a path. */
  predicate DistinctPaths(fs: seq<FileInfo>) {
    NoDuplicates(PathsOf(fs))
  }

  /**
   * `{key(f): f for f in fs}`: every key of `fs` maps to a record with that
   * key; where keys repeat, the last record wins, and where they do not, each
   * record is found under its own key.
   */
  function KeyMap(stage: Stage, fs: seq<FileInfo>): (m: map<Key, FileInfo>)
    reads fs
    ensures m.Keys == KeySet(stage, fs)
    ensures forall k :: k in m ==> m[k] in fs && KeyFor(stage, m[k]) == k
    ensures DistinctKeys(stage, fs) ==> forall f :: f in fs ==> m[KeyFor(stage, f)] == f
  {
    if |fs| == 0 then map[]
    else
      var init, last := fs[..|fs| - 1], fs[|fs| - 1];
      KeyMapStep(stage, fs, init, last, KeyMap(stage, init));
      KeyMap(stage, init)[KeyFor(stage, last) := last]
  }

  /** One step of the comprehension: the last record's key now maps to it. */
  lemma KeyMapStep(stage: Stage, fs: seq<FileInfo>, init: seq<FileInfo>, last: FileInfo, m0: map<Key, FileInfo>)
    requires fs == init + [last]
    requires m0.Keys == KeySet(stage, init)
    requires forall k :: k in m0 ==> m0[k] in init && KeyFor(stage, m0[k]) == k
    requires DistinctKeys(stage, init) ==> forall f :: f in init ==> m0[KeyFor(stage, f)] == f
    ensures var m := m0[KeyFor(stage, last) := last];
      && m.Keys == KeySet(stage, fs)
      && (forall k :: k in m ==> m[k] in fs && KeyFor(stage, m[k]) == k)
      && (DistinctKeys(stage, fs) ==> forall f :: f in fs ==> m[KeyFor(stage, f)] == f)
  {
    KeySetSnoc(stage, init, last);
    if DistinctKeys(stage, fs) {
      DistinctSnoc(stage, init, last);
    }
  }

  lemma KeySetSnoc(stage: Stage, init: seq<FileInfo>, last: FileInfo)
    ensures KeySet(stage, init + [last]) == KeySet(stage, init) + {KeyFor(stage, last)}
  {
    var fs := init + [last];
    forall k | k in KeySet(stage, fs) ensures k in KeySet(stage, init) + {KeyFor(stage, last)} {
      var f :| f in fs && KeyFor(stage, f) == k;
      if f != last {
        assert f in init;
      }
    }
    forall k | k in KeySet(stage, init) ensures k in KeySet(stage, fs) {
      var f :| f in init && KeyFor(stage, f) == k;
      assert f in fs;
    }
    assert last in fs;
  }

  lemma DistinctSnoc(stage: Stage, init: seq<FileInfo>, last: FileInfo)
    requires DistinctKeys(stage, init + [last])
    ensures DistinctKeys(stage, init)
    ensures forall f :: f in init ==> KeyFor(stage, f) != KeyFor(stage, last)
  {
    var fs := init + [last];
    forall i, j | 0 <= i < j < |init| ensures KeyFor(stage, init[i]) != KeyFor(stage, init[j]) {
      assert init[i] == fs[i] && init[j] == fs[j];
    }
    forall f | f in init ensures KeyFor(stage, f) != KeyFor(stage, last) {
      var i :| 0 <= i < |init| && init[i] == f;
      assert fs[i] == f && fs[|init|] == last;
    }
  }
}
