/**
 * The nested `scan(key)` of `Repository.commit`: key-based reconciliation of
 * the old and new "kept" lists. Keys only in the new list are appended to
 * `added_files`, keys only in the old list to `removed_files`, and both kept
 * lists are rebuilt, position by position, from the shared keys.
 */
module KeyScan {
  import opened Records

  /**
   * Iterating a Python set: every element exactly once, in an order the
   * program does not control.
   */
  method Enumerate<K>(ks: set<K>) returns (order: seq<K>)
    ensures forall k :: k in order <==> k in ks
    ensures forall i, j :: 0 <= i < j < |order| ==> order[i] != order[j]
  {
    order := [];
    var rest := ks;
    while rest != {}
      invariant rest <= ks
      invariant forall k :: k in order <==> k in ks - rest
      invariant forall i, j :: 0 <= i < j < |order| ==> order[i] != order[j]
      decreases rest
    {
      var k :| k in rest;
      assert k !in order;
      order := order + [k];
      rest := rest - {k};
    }
  }

  /** `[key_map[k] for k in order]` with `key_map = {key(f): f for f in src}`. */
  function Pick(stage: Stage, order: seq<Key>, src: seq<FileInfo>): (out: seq<FileInfo>)
    reads src
    requires forall k :: k in order ==> k in KeySet(stage, src)
    ensures |out| == |order|
    ensures forall i :: 0 <= i < |out| ==> out[i] in src && KeyFor(stage, out[i]) == order[i]
  {
    var m := KeyMap(stage, src);
    seq(|order|, i requires 0 <= i < |order| => m[order[i]])
  }

  /**
   * `out` holds, once per key of `ks`, the record the key map of `src`
   * keeps under that key.
   */
  ghost predicate Lists(stage: Stage, out: seq<FileInfo>, src: seq<FileInfo>, ks: set<Key>)
    reads out, src
  {
    && KeySet(stage, out) == ks
    && DistinctKeys(stage, out)
    && forall i :: 0 <= i < |out| ==>
         var k := KeyFor(stage, out[i]);
         k in KeyMap(stage, src) && KeyMap(stage, src)[k] == out[i]
  }

  lemma PickLists(stage: Stage, order: seq<Key>, src: seq<FileInfo>, ks: set<Key>)
    requires forall k :: k in order <==> k in ks
    requires forall i, j :: 0 <= i < j < |order| ==> order[i] != order[j]
    requires ks <= KeySet(stage, src)
    ensures Lists(stage, Pick(stage, order, src), src, ks)
  {
    var out := Pick(stage, order, src);
    forall k | k in ks ensures k in KeySet(stage, out) {
      var i :| 0 <= i < |order| && order[i] == k;
      assert KeyFor(stage, out[i]) == k;
    }
  }

  /**
   * When keys are distinct within `src`, a record of `src` is in `out` exactly
   * when its key is in `ks`.
   */
  ghost predicate Exactly(stage: Stage, out: seq<FileInfo>, src: seq<FileInfo>, ks: set<Key>)
    reads out, src
  {
    DistinctKeys(stage, src) ==> forall f :: f in src ==> (f in out <==> KeyFor(stage, f) in ks)
  }

  lemma {:induction false} ListsExactly(stage: Stage, out: seq<FileInfo>, src: seq<FileInfo>, ks: set<Key>)
    requires Lists(stage, out, src, ks)
    ensures Exactly(stage, out, src, ks)
  {
    if DistinctKeys(stage, src) {
      forall f | f in src
        ensures f in out <==> KeyFor(stage, f) in ks
      {
        if KeyFor(stage, f) in ks {
          var g :| g in out && KeyFor(stage, g) == KeyFor(stage, f);
          assert KeyMap(stage, src)[KeyFor(stage, f)] == f;
        }
      }
    }
  }

  /** `out` lists the records of `src` under the keys `ks`, and nothing else. */
  ghost predicate Selected(stage: Stage, out: seq<FileInfo>, src: seq<FileInfo>, ks: set<Key>)
    reads out, src
  {
    Lists(stage, out, src, ks) && Exactly(stage, out, src, ks)
  }

  /** Position `i` of `a` and of `b` hold records with the same key. */
  ghost predicate Aligned(stage: Stage, a: seq<FileInfo>, b: seq<FileInfo>)
    reads a, b
  {
    |a| == |b| && forall i :: 0 <= i < |a| ==> KeyFor(stage, a[i]) == KeyFor(stage, b[i])
  }

  /** `[key_map[k] for k in order]`, where `order` enumerates `ks`, selects exactly `ks`. */
  lemma PickSelected(stage: Stage, order: seq<Key>, src: seq<FileInfo>, ks: set<Key>)
    requires forall k :: k in order <==> k in ks
    requires forall i, j :: 0 <= i < j < |order| ==> order[i] != order[j]
    requires ks <= KeySet(stage, src)
    ensures Selected(stage, Pick(stage, order, src), src, ks)
  {
    PickLists(stage, order, src, ks);
    ListsExactly(stage, Pick(stage, order, src), src, ks);
  }

  /**
   * One call of `scan(key)`: `added_files` and `removed_files` are only
   * extended; what is appended are the records whose keys are only in the new
   * (resp. old) list; the rebuilt kept lists are aligned by key and hold the
   * shared keys. With keys distinct inside each input list, every input record
   * lands in exactly one output list (`ScanPartition`).
   */
  method Scan(stage: Stage, oldKept: seq<FileInfo>, newKept: seq<FileInfo>,
              added: seq<FileInfo>, removed: seq<FileInfo>)
    returns (oldKept': seq<FileInfo>, newKept': seq<FileInfo>,
             added': seq<FileInfo>, removed': seq<FileInfo>)
    ensures |added'| >= |added| && added'[..|added|] == added
    ensures |removed'| >= |removed| && removed'[..|removed|] == removed
    ensures Selected(stage, added'[|added|..], newKept, KeySet(stage, newKept) - KeySet(stage, oldKept))
    ensures Selected(stage, removed'[|removed|..], oldKept, KeySet(stage, oldKept) - KeySet(stage, newKept))
    ensures Selected(stage, oldKept', oldKept, KeySet(stage, oldKept) * KeySet(stage, newKept))
    ensures Selected(stage, newKept', newKept, KeySet(stage, oldKept) * KeySet(stage, newKept))
    ensures Aligned(stage, oldKept', newKept')
  {
    var addedOrder := Enumerate(KeySet(stage, newKept) - KeySet(stage, oldKept));
    var removedOrder := Enumerate(KeySet(stage, oldKept) - KeySet(stage, newKept));
    var keptOrder := Enumerate(KeySet(stage, oldKept) * KeySet(stage, newKept));
    ScanPicks(stage, oldKept, newKept, addedOrder, removedOrder, keptOrder);

    var addedNew := Pick(stage, addedOrder, newKept);
    var removedNew := Pick(stage, removedOrder, oldKept);
    added' := added + addedNew;
    removed' := removed + removedNew;
    oldKept' := Pick(stage, keptOrder, oldKept);
    newKept' := Pick(stage, keptOrder, newKept);
    AppendParts(added, addedNew);
    AppendParts(removed, removedNew);
  }

  /**
   * The outputs of `scan` partition its inputs: with keys distinct inside
   * each input list, a new record is either appended to `added_files` or
   * kept, never both and never neither; an old record is either appended to
   * `removed_files` or kept.
   */
  lemma ScanPartition(stage: Stage, oldKept: seq<FileInfo>, newKept: seq<FileInfo>,
                      addedNew: seq<FileInfo>, removedNew: seq<FileInfo>,
                      oldKept': seq<FileInfo>, newKept': seq<FileInfo>)
    requires DistinctKeys(stage, oldKept) && DistinctKeys(stage, newKept)
    requires Selected(stage, addedNew, newKept, KeySet(stage, newKept) - KeySet(stage, oldKept))
    requires Selected(stage, removedNew, oldKept, KeySet(stage, oldKept) - KeySet(stage, newKept))
    requires Selected(stage, oldKept', oldKept, KeySet(stage, oldKept) * KeySet(stage, newKept))
    requires Selected(stage, newKept', newKept, KeySet(stage, oldKept) * KeySet(stage, newKept))
    ensures forall f :: f in newKept ==> (f in addedNew <==> f !in newKept')
    ensures forall f :: f in oldKept ==> (f in removedNew <==> f !in oldKept')
  {
    forall f | f in newKept
      ensures f in addedNew <==> f !in newKept'
    {
      assert KeyFor(stage, f) in KeySet(stage, newKept);
    }
    forall f | f in oldKept
      ensures f in removedNew <==> f !in oldKept'
    {
      assert KeyFor(stage, f) in KeySet(stage, oldKept);
    }
  }

  /** The parts of a concatenation. */
  lemma AppendParts<T>(a: seq<T>, b: seq<T>)
    ensures (a + b)[..|a|] == a && (a + b)[|a|..] == b
  {
  }

  /** What the three picks of `scan` select, given orders enumerating their key sets. */
  lemma ScanPicks(stage: Stage, oldKept: seq<FileInfo>, newKept: seq<FileInfo>,
                  addedOrder: seq<Key>, removedOrder: seq<Key>, keptOrder: seq<Key>)
    requires forall k :: k in addedOrder <==> k in KeySet(stage, newKept) - KeySet(stage, oldKept)
    requires forall i, j :: 0 <= i < j < |addedOrder| ==> addedOrder[i] != addedOrder[j]
    requires forall k :: k in removedOrder <==> k in KeySet(stage, oldKept) - KeySet(stage, newKept)
    requires forall i, j :: 0 <= i < j < |removedOrder| ==> removedOrder[i] != removedOrder[j]
    requires forall k :: k in keptOrder <==> k in KeySet(stage, oldKept) * KeySet(stage, newKept)
    requires forall i, j :: 0 <= i < j < |keptOrder| ==> keptOrder[i] != keptOrder[j]
    ensures forall k :: k in addedOrder ==> k in KeySet(stage, newKept)
    ensures forall k :: k in removedOrder ==> k in KeySet(stage, oldKept)
    ensures forall k :: k in keptOrder ==> k in KeySet(stage, oldKept) && k in KeySet(stage, newKept)
    ensures Selected(stage, Pick(stage, addedOrder, newKept), newKept, KeySet(stage, newKept) - KeySet(stage, oldKept))
    ensures Selected(stage, Pick(stage, removedOrder, oldKept), oldKept, KeySet(stage, oldKept) - KeySet(stage, newKept))
    ensures Selected(stage, Pick(stage, keptOrder, oldKept), oldKept, KeySet(stage, oldKept) * KeySet(stage, newKept))
    ensures Selected(stage, Pick(stage, keptOrder, newKept), newKept, KeySet(stage, oldKept) * KeySet(stage, newKept))
    ensures Aligned(stage, Pick(stage, keptOrder, oldKept), Pick(stage, keptOrder, newKept))
  {
    var oldKeys, newKeys := KeySet(stage, oldKept), KeySet(stage, newKept);
    PickSelected(stage, addedOrder, newKept, newKeys - oldKeys);
    PickSelected(stage, removedOrder, oldKept, oldKeys - newKeys);
    PickSelected(stage, keptOrder, oldKept, oldKeys * newKeys);
    PickSelected(stage, keptOrder, newKept, oldKeys * newKeys);
  }
}
