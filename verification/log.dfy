/**
 * `RepositoryDelta` and its `log`: the one-line summary printed after a
 * commit and the detailed listing written to `changes.txt`.
 */
module DeltaLog {
  import opened Wrappers
  import opened Text
  import opened Records
  import opened DetectionSpec

  /** What one commit added and removed, as saved in `delta/<version>.npz`. */
  datatype Delta = Delta(added: seq<FileRecord>, removed: seq<FileRecord>)

  predicate SortedByPath(rs: seq<FileRecord>) {
    forall i, j :: 0 <= i < j < |rs| ==> LexLe(rs[i].path, rs[j].path)
  }

  /** Every record of `rs` has a path no smaller than `p`. */
  predicate AtLeast(p: string, rs: seq<FileRecord>) {
    forall i :: 0 <= i < |rs| ==> LexLe(p, rs[i].path)
  }

  lemma AtLeastInsert(p: string, out: seq<FileRecord>, rs: seq<FileRecord>, r: FileRecord)
    requires multiset(out) == multiset(rs) + multiset{r}
    requires AtLeast(p, rs) && LexLe(p, r.path)
    ensures AtLeast(p, out)
  {
    forall i | 0 <= i < |out| ensures LexLe(p, out[i].path) {
      assert out[i] in multiset(out);
      if out[i] != r {
        assert out[i] in multiset(rs);
        var j :| 0 <= j < |rs| && rs[j] == out[i];
      }
    }
  }

  /** Insert `r` before the first record whose path is not smaller. */
  function Insert(r: FileRecord, rs: seq<FileRecord>): (out: seq<FileRecord>)
    requires SortedByPath(rs)
    ensures SortedByPath(out)
    ensures multiset(out) == multiset(rs) + multiset{r}
  {
    if |rs| == 0 then [r]
    else if LexLe(r.path, rs[0].path) then
      assert AtLeast(r.path, rs) by {
        forall j | 0 <= j < |rs| ensures LexLe(r.path, rs[j].path) {
          if j > 0 { LexLeTransitive(r.path, rs[0].path, rs[j].path); }
        }
      }
      [r] + rs
    else
      LexLeTotal(r.path, rs[0].path);
      assert rs == [rs[0]] + rs[1..];
      var tail := Insert(r, rs[1..]);
      AtLeastInsert(rs[0].path, tail, rs[1..], r);
      [rs[0]] + tail
  }

  /** `sorted(rs, key=lambda f: f.path)`: ordered by path, same records. */
  function SortByPath(rs: seq<FileRecord>): (out: seq<FileRecord>)
    ensures SortedByPath(out)
    ensures multiset(out) == multiset(rs)
  {
    if |rs| == 0 then []
    else
      assert rs == [rs[0]] + rs[1..];
      Insert(rs[0], SortByPath(rs[1..]))
  }

  lemma {:induction false} InsertFree(p: string, r: FileRecord, rs: seq<FileRecord>)
    requires SortedByPath(rs) && PathFree(p, rs) && r.path != p
    ensures PathFree(p, Insert(r, rs))
    decreases |rs|
  {
    if |rs| > 0 && !LexLe(r.path, rs[0].path) {
      InsertFree(p, r, rs[1..]);
      var tail := Insert(r, rs[1..]);
      assert Insert(r, rs) == [rs[0]] + tail;
    }
  }

  /** Inserting a record whose path is new keeps paths distinct. */
  lemma {:induction false} InsertUnique(r: FileRecord, rs: seq<FileRecord>)
    requires SortedByPath(rs) && UniquePaths(rs) && PathFree(r.path, rs)
    ensures UniquePaths(Insert(r, rs))
    decreases |rs|
  {
    if |rs| > 0 {
      if LexLe(r.path, rs[0].path) {
        ConsUnique(r, rs);
      } else {
        InsertUnique(r, rs[1..]);
        InsertFree(rs[0].path, r, rs[1..]);
        ConsUnique(rs[0], Insert(r, rs[1..]));
      }
    }
  }

  lemma {:induction false} SortFree(p: string, rs: seq<FileRecord>)
    requires PathFree(p, rs)
    ensures PathFree(p, SortByPath(rs))
    decreases |rs|
  {
    if |rs| > 0 {
      SortFree(p, rs[1..]);
      InsertFree(p, rs[0], SortByPath(rs[1..]));
    }
  }

  /** Sorting keeps distinct paths distinct. */
  lemma {:induction false} SortUnique(rs: seq<FileRecord>)
    requires UniquePaths(rs)
    ensures UniquePaths(SortByPath(rs))
    decreases |rs|
  {
    if |rs| > 0 {
      SortUnique(rs[1..]);
      SortFree(rs[0].path, rs[1..]);
      InsertUnique(rs[0], SortByPath(rs[1..]));
    }
  }

  /** Two sorted orders of the same records, paths distinct, start with the same record. */
  lemma SortedHeads(a: seq<FileRecord>, b: seq<FileRecord>)
    requires SortedByPath(a) && SortedByPath(b)
    requires multiset(a) == multiset(b) && UniquePaths(a) && |a| > 0
    ensures |b| > 0 && a[0] == b[0]
  {
    assert a[0] in multiset(b);
    assert b[0] in multiset(a);
    var k :| 0 <= k < |a| && a[k] == b[0];
    var m :| 0 <= m < |b| && b[m] == a[0];
    assert LexLe(a[0].path, b[0].path) by {
      if k > 0 { assert LexLe(a[0].path, a[k].path); } else { LexLeTotal(a[0].path, a[0].path); }
    }
    assert LexLe(b[0].path, a[0].path) by {
      if m > 0 { assert LexLe(b[0].path, b[m].path); } else { LexLeTotal(b[0].path, b[0].path); }
    }
    LexLeAntisymmetric(a[0].path, b[0].path);
  }

  /** Dropping the first record keeps the order and removes one occurrence. */
  lemma TailFacts(a: seq<FileRecord>)
    requires |a| > 0
    ensures multiset(a[1..]) == multiset(a) - multiset{a[0]}
    ensures SortedByPath(a) ==> SortedByPath(a[1..])
  {
    assert a == [a[0]] + a[1..];
  }

  /** A sorted list with distinct paths is the only sorted order of its records. */
  lemma {:induction false} SortedUnique(a: seq<FileRecord>, b: seq<FileRecord>)
    requires SortedByPath(a) && SortedByPath(b)
    requires multiset(a) == multiset(b) && UniquePaths(a)
    ensures a == b
    decreases |a|
  {
    if |a| > 0 {
      SortedHeads(a, b);
      TailFacts(a);
      TailFacts(b);
      TailUnique(a);
      SortedUnique(a[1..], b[1..]);
      assert a == [a[0]] + a[1..] && b == [b[0]] + b[1..];
    } else {
      assert |b| == |multiset(b)| == 0;
    }
  }

  /** A missing digest or size is written the way Python's `str(None)` writes it. */
  function DigestText(md5: Option<string>): string {
    match md5
    case None => "None"
    case Some(d) => d
  }

  /** `file2str`, with a missing digest written as `None`. */
  function FileLine(r: FileRecord): string {
    DigestText(r.md5) + " | " + SizeText(r.size) + " | " + r.path
  }

  function FileLines(rs: seq<FileRecord>): (lines: seq<string>)
    ensures |lines| == |rs| && forall i :: 0 <= i < |rs| ==> lines[i] == FileLine(rs[i])
  {
    seq(|rs|, i requires 0 <= i < |rs| => FileLine(rs[i]))
  }

  /** `"<n> files <verb>:"`, the first line of a section. */
  function Header(count: nat, verb: string): string {
    NatToString(count) + " files " + verb + ":"
  }

  /** One section of the detailed log: its header, then one line per record, by path. */
  function Section(rs: seq<FileRecord>, verb: string): string {
    Header(|rs|, verb) + "\n" + Join(FileLines(SortByPath(rs)), "\n")
  }

  /** The summary line printed after a commit. */
  function Summary(d: Delta): string {
    NatToString(|d.added|) + " files added and " + NatToString(|d.removed|) + " files removed."
  }

  /**
   * `RepositoryDelta.log`: the summary line, or, when `detailed`, the removed
   * section then the added section, each present only when it lists at least
   * one record, separated by a line break.
   */
  function Log(d: Delta, detailed: bool): string {
    if detailed then Sections(d, Section(d.removed, "removed"), Section(d.added, "added"))
    else Summary(d)
  }

  /**
   * `'\n'.join(sections)`: the removed section, then the added section, each
   * present only when its list is non-empty.
   */
  function Sections(d: Delta, removed: string, added: string): string {
    Join((if |d.removed| > 0 then [removed] else []) + (if |d.added| > 0 then [added] else []), "\n")
  }

  /** Only the sections that are present matter. */
  lemma SectionsPresent(d: Delta, r1: string, r2: string, a1: string, a2: string)
    requires |d.removed| > 0 ==> r1 == r2
    requires |d.added| > 0 ==> a1 == a2
    ensures Sections(d, r1, a1) == Sections(d, r2, a2)
  {
  }

  /** The lines of the detailed log, written out one by one. */
  function LogLines(d: Delta): seq<string> {
    (if |d.removed| > 0 then [Header(|d.removed|, "removed")] + FileLines(SortByPath(d.removed)) else [])
    + (if |d.added| > 0 then [Header(|d.added|, "added")] + FileLines(SortByPath(d.added)) else [])
  }

  lemma {:induction false} JoinAppend(a: seq<string>, b: seq<string>, sep: string)
    requires |a| > 0 && |b| > 0
    ensures Join(a + b, sep) == Join(a, sep) + sep + Join(b, sep)
    decreases |a|
  {
    if |a| == 1 {
      assert (a + b)[1..] == b;
    } else {
      assert (a + b)[1..] == a[1..] + b;
      JoinAppend(a[1..], b, sep);
    }
  }

  /** The lines of one section: its header, then its records by path. */
  function SectionLinesOf(rs: seq<FileRecord>, verb: string): seq<string> {
    [Header(|rs|, verb)] + FileLines(SortByPath(rs))
  }

  lemma SectionLines(rs: seq<FileRecord>, verb: string)
    requires |rs| > 0
    ensures Section(rs, verb) == Join(SectionLinesOf(rs, verb), "\n")
  {
    var lines := FileLines(SortByPath(rs));
    assert |SortByPath(rs)| == |rs| by {
      assert |multiset(SortByPath(rs))| == |multiset(rs)|;
    }
    assert SectionLinesOf(rs, verb)[1..] == lines;
  }

  lemma JoinPair(x: string, y: string, sep: string)
    ensures Join([x, y], sep) == x + sep + y
  {
    assert [x, y][1..] == [y];
  }

  /**
   * The detailed log is its lines joined by line breaks: the removed header
   * and the removed records by path, then the added header and the added
   * records by path, each group only when non-empty.
   */
  lemma LogIsLines(d: Delta)
    ensures Log(d, true) == Join(LogLines(d), "\n")
  {
    var R, A := SectionLinesOf(d.removed, "removed"), SectionLinesOf(d.added, "added");
    var sR, sA := Section(d.removed, "removed"), Section(d.added, "added");
    if |d.removed| > 0 && |d.added| > 0 {
      assert LogLines(d) == R + A;
      assert Log(d, true) == Join([sR, sA], "\n");
      JoinPair(sR, sA, "\n");
      SectionLines(d.removed, "removed");
      SectionLines(d.added, "added");
      JoinAppend(R, A, "\n");
    } else if |d.removed| > 0 {
      assert LogLines(d) == R;
      assert Log(d, true) == Join([sR], "\n");
      SectionLines(d.removed, "removed");
    } else if |d.added| > 0 {
      assert LogLines(d) == A;
      assert Log(d, true) == Join([sA], "\n");
      SectionLines(d.added, "added");
    } else {
      assert LogLines(d) == [];
    }
  }

  /** The detailed log is empty exactly when nothing was added or removed. */
  lemma LogEmptyIff(d: Delta)
    ensures Log(d, true) == "" <==> |d.added| == 0 && |d.removed| == 0
  {
    if |d.removed| > 0 {
      SectionNonEmpty(d.removed, "removed");
      if |d.added| > 0 {
        JoinPair(Section(d.removed, "removed"), Section(d.added, "added"), "\n");
      }
    } else if |d.added| > 0 {
      SectionNonEmpty(d.added, "added");
    }
  }

  lemma SectionNonEmpty(rs: seq<FileRecord>, verb: string)
    ensures |Section(rs, verb)| > 0
  {
    assert |Header(|rs|, verb)| > 0;
  }

  /** The detailed log starts with the removed section whenever anything was removed. */
  lemma RemovedFirst(d: Delta)
    requires |d.removed| > 0
    ensures Log(d, true)[..|Section(d.removed, "removed")|] == Section(d.removed, "removed")
  {
    if |d.added| > 0 {
      JoinPair(Section(d.removed, "removed"), Section(d.added, "added"), "\n");
    }
  }

  /**
   * The log does not depend on the order of the records: two deltas holding
   * the same records, each path once, log the same text. In particular the
   * arbitrary order in which the scans enumerate their key sets never shows.
   */
  lemma LogOrderIndependent(d1: Delta, d2: Delta, detailed: bool)
    requires multiset(d1.added) == multiset(d2.added) && multiset(d1.removed) == multiset(d2.removed)
    requires UniquePaths(d1.added) && UniquePaths(d1.removed)
    ensures Log(d1, detailed) == Log(d2, detailed)
  {
    assert |d1.added| == |multiset(d1.added)| == |d2.added|;
    assert |d1.removed| == |multiset(d1.removed)| == |d2.removed|;
    SortUnique(d1.added);
    SortUnique(d1.removed);
    SortedUnique(SortByPath(d1.added), SortByPath(d2.added));
    SortedUnique(SortByPath(d1.removed), SortByPath(d2.removed));
  }

  /** Leading decimal digits: the position of the first non-digit. */
  function DigitRun(s: string): (n: nat)
    ensures n <= |s|
  {
    if |s| == 0 || !IsDigit(s[0]) then 0 else 1 + DigitRun(s[1..])
  }

  lemma {:induction false} DigitRunOf(x: string, s: string)
    requires forall i :: 0 <= i < |x| ==> IsDigit(x[i])
    requires |s| > 0 && !IsDigit(s[0])
    ensures DigitRun(x + s) == |x|
    decreases |x|
  {
    if |x| > 0 {
      assert (x + s)[1..] == x[1..] + s;
      DigitRunOf(x[1..], s);
    } else {
      assert x + s == s;
    }
  }

  /** A decimal number followed by text that starts with a non-digit can be read back. */
  lemma NumberPrefix(n1: nat, n2: nat, s1: string, s2: string)
    requires |s1| > 0 && |s2| > 0 && !IsDigit(s1[0]) && !IsDigit(s2[0])
    requires NatToString(n1) + s1 == NatToString(n2) + s2
    ensures n1 == n2 && s1 == s2
  {
    var x1, x2 := NatToString(n1), NatToString(n2);
    DigitRunOf(x1, s1);
    DigitRunOf(x2, s2);
    assert x1 == (x1 + s1)[..|x1|];
    assert x2 == (x2 + s2)[..|x2|];
    NatToStringInjective(n1, n2);
    assert s1 == (x1 + s1)[|x1|..];
    assert s2 == (x2 + s2)[|x2|..];
  }

  /** The summary line as the added count, then text that starts with a space. */
  lemma SummaryShape(d: Delta)
    ensures Summary(d) == NatToString(|d.added|) + (" files added and " + (NatToString(|d.removed|) + " files removed."))
  {
  }

  /** The summary line determines both counts. */
  lemma SummaryDeterminesCounts(d1: Delta, d2: Delta)
    requires Summary(d1) == Summary(d2)
    ensures |d1.added| == |d2.added| && |d1.removed| == |d2.removed|
  {
    var r1, r2 := NatToString(|d1.removed|), NatToString(|d2.removed|);
    var mid, tail := " files added and ", " files removed.";
    SummaryShape(d1);
    SummaryShape(d2);
    NumberPrefix(|d1.added|, |d2.added|, mid + (r1 + tail), mid + (r2 + tail));
    assert r1 + tail == (mid + (r1 + tail))[|mid|..];
    assert r2 + tail == (mid + (r2 + tail))[|mid|..];
    NumberPrefix(|d1.removed|, |d2.removed|, tail, tail);
  }

  // ---------------------------------------------------------------------
  // `file2str` as written concatenates the digest, so it raises a TypeError
  // for a record without one; `None` stands for that failure here.
  // ---------------------------------------------------------------------

  function FileLineAsWritten(r: FileRecord): Option<string> {
    match r.md5
    case None => None
    case Some(d) => Some(d + " | " + SizeText(r.size) + " | " + r.path)
  }

  function FileLinesAsWritten(rs: seq<FileRecord>): Option<seq<string>> {
    if |rs| == 0 then Some([])
    else
      match FileLineAsWritten(rs[0])
      case None => None
      case Some(line) =>
        match FileLinesAsWritten(rs[1..])
        case None => None
        case Some(lines) => Some([line] + lines)
  }

  function SectionAsWritten(rs: seq<FileRecord>, verb: string): Option<string> {
    match FileLinesAsWritten(SortByPath(rs))
    case None => None
    case Some(lines) => Some(Header(|rs|, verb) + "\n" + Join(lines, "\n"))
  }

  /** `RepositoryDelta.log` as written. */
  function LogAsWritten(d: Delta, detailed: bool): Option<string> {
    if !detailed then Some(Summary(d))
    else
      var removed, added := PresentSection(d.removed, "removed"), PresentSection(d.added, "added");
      if removed.None? || added.None? then None
      else Some(Sections(d, removed.value, added.value))
  }

  /** A section as written when its list is non-empty; an unused empty text otherwise. */
  function PresentSection(rs: seq<FileRecord>, verb: string): Option<string> {
    if |rs| > 0 then SectionAsWritten(rs, verb) else Some("")
  }


  predicate AllDigests(rs: seq<FileRecord>) {
    forall i :: 0 <= i < |rs| ==> rs[i].md5.Some?
  }

  lemma AllDigestsCons(rs: seq<FileRecord>)
    requires |rs| > 0
    ensures AllDigests(rs) <==> rs[0].md5.Some? && AllDigests(rs[1..])
  {
    if rs[0].md5.Some? && AllDigests(rs[1..]) {
      forall i | 0 <= i < |rs| ensures rs[i].md5.Some? {
        if i > 0 { assert rs[i] == rs[1..][i - 1]; }
      }
    }
  }

  lemma FileLinesCons(rs: seq<FileRecord>)
    requires |rs| > 0
    ensures FileLines(rs) == [FileLine(rs[0])] + FileLines(rs[1..])
  {
  }

  lemma {:induction false} FileLinesAsWrittenAgrees(rs: seq<FileRecord>)
    ensures FileLinesAsWritten(rs).Some? <==> AllDigests(rs)
    ensures FileLinesAsWritten(rs).Some? ==> FileLinesAsWritten(rs).value == FileLines(rs)
    decreases |rs|
  {
    if |rs| > 0 {
      FileLinesAsWrittenAgrees(rs[1..]);
      AllDigestsCons(rs);
      FileLinesCons(rs);
    }
  }

  lemma AllDigestsSorted(rs: seq<FileRecord>)
    ensures AllDigests(SortByPath(rs)) <==> AllDigests(rs)
  {
    var s := SortByPath(rs);
    if AllDigests(rs) {
      forall i | 0 <= i < |s| ensures s[i].md5.Some? {
        assert s[i] in multiset(rs);
        var j :| 0 <= j < |rs| && rs[j] == s[i];
      }
    }
    if AllDigests(s) {
      forall i | 0 <= i < |rs| ensures rs[i].md5.Some? {
        assert rs[i] in multiset(s);
        var j :| 0 <= j < |s| && s[j] == rs[i];
      }
    }
  }

  lemma SectionAsWrittenAgrees(rs: seq<FileRecord>, verb: string)
    ensures SectionAsWritten(rs, verb).Some? <==> AllDigests(rs)
    ensures SectionAsWritten(rs, verb).Some? ==> SectionAsWritten(rs, verb).value == Section(rs, verb)
  {
    FileLinesAsWrittenAgrees(SortByPath(rs));
    AllDigestsSorted(rs);
  }

  /**
   * The detailed log as written fails exactly when some added or removed
   * record has no digest, and otherwise writes what `Log` writes.
   */
  lemma PresentSectionAgrees(rs: seq<FileRecord>, verb: string)
    ensures PresentSection(rs, verb).None? <==> !AllDigests(rs)
    ensures PresentSection(rs, verb).Some? && |rs| > 0 ==> PresentSection(rs, verb).value == Section(rs, verb)
  {
    SectionAsWrittenAgrees(rs, verb);
  }

  lemma LogAsWrittenAgrees(d: Delta)
    ensures LogAsWritten(d, true).None? <==> !AllDigests(d.removed) || !AllDigests(d.added)
    ensures LogAsWritten(d, true).Some? ==> LogAsWritten(d, true).value == Log(d, true)
    ensures LogAsWritten(d, false) == Some(Log(d, false))
  {
    var removed, added := PresentSection(d.removed, "removed"), PresentSection(d.added, "added");
    PresentSectionAgrees(d.removed, "removed");
    PresentSectionAgrees(d.added, "added");
    if removed.Some? && added.Some? {
      SectionsPresent(d, removed.value, Section(d.removed, "removed"), added.value, Section(d.added, "added"));
    }
  }
}
