# fm repository core in Dafny

A model of the repository core of `fm`, a small snapshot-based file
manager. A directory becomes a repository when it holds a `.fm` metadata
directory. Each `commit` compares the directory with the snapshot of the
previous commit and saves what changed as a numbered delta:

- which files were added;
- which were removed, where a modified file counts as one removal plus one addition.

It then replaces the snapshot and writes a log.

The model covers:

- **the data** (`records.dfy`, `tree.dfy`, `log.dfy`):
  - `FileInfo` is a class whose `size` and `md5` are filled in in place.
  - `FileRecord` is the value of its fields, which is what snapshot and delta files keep.
  - The directory is a tree of `Entry` values. Each file carries a `Stat`: the size `os.path.getsize` reports and the digest `hashlib.md5(...).hexdigest()` gives.
- **`RepositoryData.update`** (`data.dfy`): an imperative method that appends one blank `FileInfo` per file. It descends into every directory except those named `.fm`, at any depth (`FileTree.Walk` is its reference).
- **the nested `scan(key)`** of `commit` (`scan.dfy`): key-based reconciliation of the kept lists. Iterating a Python `set` is modelled by `Enumerate`, which yields each element once in an order the caller does not control.
- **the staged change detection** of `commit` (`detect.dfy`), as methods over `FileInfo` objects:
  - a scan by path;
  - the size (and digest) backfill loops;
  - a scan by `str(size)|path`, or by `md5|str(size)|path` when content verification is on;
  - the final backfill of added records.

  It is proved to compute exactly the reference definition in `detection_spec.dfy` (module `DetectionSpec`): `AddedSpec`, `RemovedSpec` and `SnapshotSpec`.
- **`RepositoryDelta.log`** (`log.dfy`): the summary line and the detailed listing, as functions, with the sort by path modelled as an insertion sort.
- **the `Repository` state machine** (`repository.dfy`): `init`, `commit` and the `.fm` contents as fields:
  - `version` (`repo.txt`);
  - `snapshot` (`data.npz`);
  - `deltas` (`delta/<n>.npz`);
  - `changes` (`changes.txt`).
- **the properties** a user relies on (`properties.dfy`): a second commit of an unchanged tree detects nothing, how modifications are classified, and a concrete history.

Three facts about `fm/repo.py` that shape the model:

- A detailed log line is the digest, the size and the path, in that order (lines 70-71).
- With content verification on, the second scan keys on digest, size and path together, and it replaces the size scan rather than running after it (lines 199-202).
- Loading performs no consistency check between the version and the deltas (lines 134-141).

## Model

| member | source | states |
|---|---|---|
| Records.FileInfo.constructor | fm/repo.py:14-18 | a new record knows only its path; size and digest are unknown (`None`) |
| Records.RecordKey | fm/repo.py:190-202 | every scan key (by path; by size and path; by digest, size and path) carries the record's path |
| Records.SizeTextInjective | fm/repo.py:202 | `str(size)` determines the size, a missing size (`None`) included |
| Records.SizeKeyTextInjective | fm/repo.py:202 | the text of `str(size)`, a bar and the path determines both size and path |
| Records.KeyTextInjective | fm/repo.py:190-202 | two keys are equal as tuples exactly when the bar-joined strings the source builds are equal, given digests without a bar (as hex digests are) |
| Records.Md5KeyTextInjective | fm/repo.py:200 | the stage-2 key text (digest, size and path joined by bars), with no bar in either digest, determines the digest, the size and the path |
| Records.KeyMap | fm/repo.py:164-165 | `{key(f): f for f in fs}` has exactly the keys of `fs`; each value is a record of `fs` with that key; with distinct keys every record is found under its own key |
| Records.KeyMapStep | fm/repo.py:164-165 | adding one more record to the comprehension keeps those three facts |
| Text.NatToStringInjective | fm/repo.py:77 | distinct counts print as distinct decimal numbers |
| Text.LexLeTransitive | fm/repo.py:72-73 | the string order `sorted` uses is transitive |
| Text.LexLeTotal | fm/repo.py:72-73 | any two paths are comparable |
| Text.LexLeAntisymmetric | fm/repo.py:72-73 | paths that sort both ways are equal |
| Text.SplitAtSeparator | fm/repo.py:200-202 | text joined at a separator absent from the first part splits back uniquely |
| FileTree.WalkShape | fm/repo.py:33-47 | every recorded path lies under the directory entry it was found through |
| FileTree.Walk | fm/repo.py:33-47 | definition of the paths `update_files` records, in listing order: a file gives its relative path, a directory named `.fm` gives nothing, any other directory gives its walk under `name/` |
| FileTree.Stats | fm/repo.py:155-160 | what `get_size` and `get_md5` return for each walked path; its keys are exactly the walked paths |
| FileTree.UnderOne | fm/repo.py:35-41 | a path lies under at most one of two differently named siblings |
| FileTree.WalkDistinct | fm/repo.py:33-47 | `update` records every relative path at most once |
| FileTree.HeadTailDisjoint | fm/repo.py:35-44 | no path is found both through an entry and through a later sibling |
| FileTree.WalkAppend | fm/repo.py:35 | the walk of a concatenated listing is the concatenation of the walks |
| FileTree.PruneRemovesAll | fm/repo.py:39-40 | cutting `.fm` directories leaves none at any depth |
| FileTree.WalkIsPrunedListing | fm/repo.py:33-47 | `update` records exactly the files of the tree with every `.fm` directory cut away, in listing order |
| FileTree.HexNoBar | fm/repo.py:160 | a hexadecimal digest holds no bar, the separator of the scan keys |
| FileTree.StatsHex | fm/repo.py:158-160 | every digest the tree reports for a walked file is a hexadecimal digest |
| FileTree.FmFileRecorded | fm/repo.py:38-44 | a regular file named `.fm` is recorded like any other file |
| Data.RepositoryData.Update | fm/repo.py:33-47 | afterwards `files` holds one fresh blank record per walked file, paths in walk order |
| Data.RepositoryData.UpdateFiles | fm/repo.py:34-44 | earlier records stay; appended ones are fresh, blank, with exactly the walked paths of this directory |
| Data.RepositoryData.constructor | fm/repo.py:21-22 | a new `RepositoryData` holds no records |
| KeyScan.Enumerate | fm/repo.py:171-174 | iterating a set yields each element exactly once |
| KeyScan.Pick | fm/repo.py:171-174 | `[m[k] for k in order]` has one record per key, each from the source list and carrying that key |
| KeyScan.PickSelected | fm/repo.py:171-174 | picking in an order that enumerates a key set selects exactly the records with those keys |
| KeyScan.ListsExactly | fm/repo.py:164-174 | with distinct keys, a record is picked exactly when its key is in the set |
| KeyScan.ScanPicks | fm/repo.py:168-174 | what the added, removed and two kept picks select, and that the kept lists are aligned |
| KeyScan.Scan | fm/repo.py:162-174 | `added`/`removed` are only extended; the new parts are the records whose keys are only in the new (resp. old) list; both kept lists hold exactly the shared keys and are aligned position by position |
| KeyScan.ScanPartition | fm/repo.py:162-174 | with keys distinct in each input list, every new record is either appended to `added_files` or kept, never both, and every old record either appended to `removed_files` or kept |
| ChangeDetector.SelectedFacts | fm/repo.py:162-174 | a scan's outputs come from its inputs, keep paths distinct, and partition the input by key |
| ChangeDetector.Stage2Keys | fm/repo.py:195-202 | after the backfill, a kept record's stage-2 key matches the stored one exactly when the stored record is not `Modified` |
| ChangeDetector.ScanByPath | fm/repo.py:185-190 | stage 1 splits the new files into added and kept and the stored files into removed and kept by path, kept lists paired by path |
| ChangeDetector.ScanByContent | fm/repo.py:199-202 | after stage 2, `added` is exactly the new records `IsAdded` names and `removed` exactly the stored ones `IsRemoved` names, each path once |
| ChangeDetector.Backfill | fm/repo.py:191-198 | each record of the list gets its file's size, and its digest when `withDigest` holds (always for the added list, with content verification for the kept list); otherwise its digest stays |
| ChangeDetector.DetectByPath | fm/repo.py:185-198 | stage 1 plus backfill: every new record has its size; its digest when it is new or content verification is on |
| ChangeDetector.FillMissing | fm/repo.py:203-207 | a missing size or digest is filled in from the file; a size or digest already present stays |
| ChangeDetector.FinishAdded | fm/repo.py:203-207 | after the last loop every new record equals the reference `NewRecord` of its path, and the stored records are unchanged |
| ChangeDetector.FinalRecords | fm/repo.py:203-207 | after the last loop every new record is the one `NewRecord` describes |
| ChangeDetector.Detect | fm/repo.py:185-207 | the whole detector: stored records unchanged, new records as `NewRecord`, `added`/`removed` exactly the `IsAdded`/`IsRemoved` records, paths distinct |
| DetectionSpec.Lookup | fm/repo.py:164 | the stored record for a path, present exactly when some record has that path |
| DetectionSpec.LookupUnique | fm/repo.py:164 | with unique paths the lookup finds the record itself |
| DetectionSpec.AddedSpec | fm/repo.py:185-207 | the reference added list: each record listed, added, as `NewRecord` describes, with size and digest; every added path is in it; unique paths |
| DetectionSpec.RemovedSpec | fm/repo.py:185-202 | the reference removed list: exactly the stored records that are gone or `Modified`; unique paths |
| DeltaLog.Insert | fm/repo.py:72-73 | inserting keeps the list sorted by path and adds exactly one record |
| DeltaLog.SortByPath | fm/repo.py:72-73 | `sorted(..., key=path)` returns a permutation sorted by path |
| DeltaLog.SortUnique | fm/repo.py:72-73 | sorting keeps paths unique |
| DeltaLog.SortedUnique | fm/repo.py:72-73 | two sorted permutations of a list with unique paths are equal |
| DeltaLog.FileLine | fm/repo.py:70-71 | definition of the corrected `file2str`: digest, size and path separated by a spaced bar, with a missing digest written `None` (see Findings) |
| DeltaLog.Section | fm/repo.py:76-83 | definition of one section: the count header, a line break, then one `FileLine` per record in path order, joined by line breaks |
| DeltaLog.Summary | fm/repo.py:87 | definition of the summary line: the added count, then the removed count |
| DeltaLog.Log | fm/repo.py:65-88 | definition of `RepositoryDelta.log`: the summary line, or when detailed the removed section then the added section, each only when its list is non-empty, joined by a line break; its properties are the lemmas `LogIsLines` to `LogOrderIndependent` |
| DeltaLog.LogIsLines | fm/repo.py:65-88 | the detailed log is the removed header and lines, then the added header and lines, joined by line breaks, each section only when non-empty |
| DeltaLog.LogEmptyIff | fm/repo.py:65-88 | the detailed log is empty exactly when nothing was added or removed |
| DeltaLog.SectionNonEmpty | fm/repo.py:76-83 | a section is never empty text |
| DeltaLog.RemovedFirst | fm/repo.py:75-85 | with a removal, the log begins with the removed section |
| DeltaLog.LogOrderIndependent | fm/repo.py:65-88 | the log depends only on which records were added and removed, not their order |
| DeltaLog.NumberPrefix | fm/repo.py:87 | a count followed by non-digit text can be read back |
| DeltaLog.SummaryDeterminesCounts | fm/repo.py:87 | the summary line determines both counts |
| DeltaLog.FileLinesAsWrittenAgrees | fm/repo.py:70-71 | `file2str` as written succeeds on all lines exactly when every record has a digest, and then agrees with the corrected line |
| DeltaLog.AllDigestsSorted | fm/repo.py:72-73 | sorting does not change whether every record has a digest |
| DeltaLog.SectionAsWrittenAgrees | fm/repo.py:76-83 | a section as written succeeds exactly when every record has a digest, and then equals the corrected section |
| DeltaLog.FileLineAsWritten | fm/repo.py:70-71 | definition of `file2str` as written: no line (the `TypeError`) when the digest is missing, otherwise digest, size and path |
| DeltaLog.LogAsWritten | fm/repo.py:65-88 | definition of `RepositoryDelta.log` as written: no text when a detailed section holds a record without a digest, otherwise the same sections as `Log` |
| DeltaLog.LogAsWrittenAgrees | fm/repo.py:65-88 | `log(detailed=True)` as written fails exactly when some added or removed record lacks a digest, and otherwise equals `Log`; the summary never fails |
| Repo.ListingFacts | fm/repo.py:179-183 | the records `update` produces have distinct paths, exactly the stat'ed paths |
| Repo.LacksDigest | fm/repo.py:199-200 | definition of the condition under which line 200 raises: some stored record whose path is still listed has no digest |
| Repo.FilledSnapshot | fm/repo.py:222-223 | the saved snapshot is the new listing with `NewRecord` fields |
| Repo.AddedRecords | fm/repo.py:185-207 | the detector's added records are a permutation of `AddedSpec` |
| Repo.RemovedRecords | fm/repo.py:185-202 | the detector's removed records are a permutation of `RemovedSpec` |
| Repo.LoadFiles | fm/repo.py:176-177 | loading the snapshot gives fresh `FileInfo` objects with the saved fields |
| Repo.DetectChanges | fm/repo.py:176-207 | detection from the stored snapshot and the tree yields `Expected` up to order, with unique paths, and the next snapshot `ExpectedSnapshot` |
| Repo.DetectedDeltaGood | fm/repo.py:203-220 | a non-empty detected delta has unique paths and every added record has size and digest |
| Repo.HistoryExtends | fm/repo.py:215-220 | saving delta `version + 1` keeps exactly one delta per version `1..version + 1` |
| Repo.ExpectedSnapshotGood | fm/repo.py:195-223 | the saved snapshot has unique paths, every size, and only hexadecimal digests |
| Repo.Md5KeysAsText | fm/repo.py:199-200 | in a commit with content verification that does not stop with `DigestMissing`, comparing a still-listed stored record with a new record by tuple key gives the same answer as comparing the source's bar-joined strings |
| Repo.Repository.constructor | fm/repo.py:121-122 | a directory without `.fm`: version 0, empty snapshot, no deltas |
| Repo.Repository.Init | fm/repo.py:143-149 | fails with `AlreadyExists` and changes nothing if `.fm` exists; otherwise saves version 0 and an empty snapshot |
| Repo.Repository.Save | fm/repo.py:215-224 | version + 1, the delta stored under the new version, the snapshot replaced, `changes.txt` untouched; the invariant holds |
| Repo.Repository.WriteChanges | fm/repo.py:228-229 | `changes.txt` afterwards holds exactly the given text; the version, the deltas and the snapshot are unchanged and the invariant holds |
| Repo.Repository.Commit | fm/repo.py:151-229 | fails with `NotARepository` and changes nothing without `.fm`; `DigestMissing` and nothing changed when a kept record lacks a digest under content verification; no changes ⇒ prints `No changes detected.` and changes nothing; otherwise version + 1, delta = `Expected` up to order, snapshot = `ExpectedSnapshot`, the corrected detailed log `Log` written (see Findings), summary returned, invariant kept |
| CommitProperties.NothingAdded | fm/repo.py:185-207 | when no listed path qualifies, nothing is added |
| CommitProperties.NothingRemoved | fm/repo.py:185-202 | when no stored record qualifies, nothing is removed |
| CommitProperties.SnapshotAt | fm/repo.py:222-223 | position `i` of the saved snapshot is the `NewRecord` of the `i`-th walked path |
| CommitProperties.RecommitDetectsNothing | fm/repo.py:209-212 | committing an unchanged tree again detects nothing, without content verification always and with it whenever the saved snapshot holds a digest for every listed file (a verifying recommit makes the source raise only when an earlier commit without verification saved a kept, unchanged file without its digest; `Commit` reports that as `DigestMissing`) |
| CommitProperties.ModifiedIsReplaced | fm/repo.py:190-207 | in a commit that does not stop with `DigestMissing`, a stored record whose path is still listed is removed, and its path re-added, exactly when it is `Modified` |
| CommitProperties.SizeChangeReplaced | fm/repo.py:202 | in a commit that does not stop with `DigestMissing`, a size change yields a removed/added pair on that path |
| CommitProperties.SameSizeChangeInvisible | fm/repo.py:195-202 | with content verification off, a same-size change is neither removed nor added, and the saved record has no digest |
| CommitProperties.ContentChangeDetected | fm/repo.py:197-200 | with content verification on and every still-listed stored record holding its digest, a digest change yields a removed/added pair |
| CommitProperties.NewPathAdded | fm/repo.py:190-193 | in a commit that does not stop with `DigestMissing`, a new path is added with its size and digest |
| CommitProperties.HistorySnapshots | fm/repo.py:190-207 | in the history a.txt; a.txt+b.txt; b.txt, the second snapshot keeps a.txt without a digest |
| CommitProperties.ThirdCommit | fm/repo.py:190-207 | the third commit of that history removes only the digest-less a.txt |
| CommitProperties.RemovedOnlyLog | fm/repo.py:65-85 | the detailed log of a delta that removes one record and adds none is that record's section: header, then its line |
| CommitProperties.LogCrashReachable | fm/repo.py:70-71 | that history reaches a commit whose detailed log as written fails, while the corrected log prints the line with `None` for the digest |

## Left out

- Reading and writing files: `save`/`load` (JSON and NumPy pickles), `changes.txt` and console output. The `.fm` contents are fields of `Repository`. The summary line `commit` prints is its `Ok` result. `LoadFiles` models `load` as creating fresh objects with the saved fields.
- `RepositoryDelta.export` (hard links into `.fm/export`): it is file-system I/O with no state the model keeps.
- The `__init__` directory check and the `retreat` loop that climbs to a parent holding `.fm`: path manipulation outside the core. A `Repository` is the directory it was made for.
- `os.path.getsize` and `hashlib.md5` are not computed. Each file's size and digest are given by the tree (`Stat`).
- The order of `os.listdir` is the order of a directory's entries. The order of Python `set` iteration is left open (`Enumerate`).
- `fm/fm.py` and `fm.py` (the command line) and the `utils` helpers are not part of this model. The command line never passes `enable_md5`, which the model leaves as a parameter.
- Repo.Repository.Commit: the added and removed lists of the saved delta are stated up to order (as multisets), because their order follows set iteration. The log is order-independent (`LogOrderIndependent`), so the written log and the printed summary are stated exactly.
- Repo.Repository.Commit: with content verification on, a kept stored record without a digest makes Python raise `TypeError` inside stage 2. The model reports this as `DigestMissing`, decided before detection. Nothing is written before that point in the source, so the saved state is the same.
- Repo.Repository.Commit and Repo.Repository.WriteChanges: `changes` holds the corrected detailed log `Log`, which writes a missing digest as `None`. As written, a commit that lists a record without a digest leaves `changes.txt` empty and raises `TypeError` (fm/repo.py:228-229). That happens after the delta and snapshot are saved and the summary is printed, and `export` then never runs. The Findings row shows such a history; `DeltaLog.LogAsWrittenAgrees` says exactly when it happens.
- Failures of the file system (a file vanishing between the listing and `getsize`, permissions, disk full) are not modelled.

## Findings

| source | as written | input that shows it | evidently intended | confidence | as-written member | corrected member |
|---|---|---|---|---|---|---|
| fm/repo.py:70-71 | `file2str` concatenates `f.md5` with text, which raises `TypeError` when `md5` is `None`. With content verification off (the command line's only mode), a kept file's record is saved without a digest, and a later commit that removes that file or changes its size lists it. `changes.txt` has already been opened for writing and is left empty, after the delta and snapshot were saved. | commit with only `a.txt`; commit with `a.txt` and `b.txt` (a.txt kept, saved without digest); delete `a.txt` and commit | every delta line written, a missing digest shown as `None` | high; not executed | DeltaLog.LogAsWritten, CommitProperties.LogCrashReachable | DeltaLog.Log, DeltaLog.LogAsWrittenAgrees |
