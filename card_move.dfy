/** The same-column reorder of `setNewCardOwner`: copy the column's card list, take out
    the element at `sourceIndex` with `splice(sourceIndex, 1)` and put it back with
    `splice(destinationIndex, 0, movedCard)` into the shortened list. */
module CardMove {
  import opened JsArray

  /** `sourceIndex` names an element of `s` (after `splice`'s normalisation), so the
      removal yields a card rather than `undefined`. */
  predicate SourceInRange<T>(s: seq<T>, sourceIndex: int) {
    RelativeStart(sourceIndex, |s|) < |s|
  }

  /** The position in the shortened list where the moved element is inserted, which is
      its position in the result. */
  function Landing(n: nat, destinationIndex: int): (p: nat)
    requires n > 0
    ensures p < n
  {
    RelativeStart(destinationIndex, n - 1)
  }

  /** The reordered list; the element moved is chosen by `sourceIndex` alone. */
  function Reordered<T>(s: seq<T>, sourceIndex: int, destinationIndex: int): (r: seq<T>)
    requires SourceInRange(s, sourceIndex)
    ensures |r| == |s|
  {
    var removal := SpliceRemove(s, sourceIndex);
    SpliceInsert(removal.1, destinationIndex, removal.0[0])
  }

  /** The reorder is a permutation: the same cards, each as often as before. */
  lemma ReorderedIsPermutation<T>(s: seq<T>, sourceIndex: int, destinationIndex: int)
    requires SourceInRange(s, sourceIndex)
    ensures multiset(Reordered(s, sourceIndex, destinationIndex)) == multiset(s)
    ensures forall y :: y in Reordered(s, sourceIndex, destinationIndex) <==> y in s
  {
    var k := RelativeStart(sourceIndex, |s|);
    SpliceRemoveThenInsert(s, sourceIndex);
    RemoveAtContents(s, k);
    SpliceInsertContents(RemoveAt(s, k), destinationIndex, s[k]);
    var r := Reordered(s, sourceIndex, destinationIndex);
    forall y ensures y in r <==> y in s {
      assert y in r <==> y in multiset(r);
      assert y in s <==> y in multiset(s);
    }
  }

  /** The element taken from `sourceIndex` ends at `Landing`, which for a non-negative
      destination is `min(destinationIndex, |s| - 1)`; every other element keeps its
      relative order (taking the moved element out of either list gives the same list). */
  lemma ReorderedPlacesMoved<T>(s: seq<T>, sourceIndex: int, destinationIndex: int)
    requires SourceInRange(s, sourceIndex)
    ensures var k := RelativeStart(sourceIndex, |s|);
      var p := Landing(|s|, destinationIndex);
      var r := Reordered(s, sourceIndex, destinationIndex);
      && r[p] == s[k]
      && RemoveAt(r, p) == RemoveAt(s, k)
      && (0 <= destinationIndex ==> p == if destinationIndex < |s| then destinationIndex else |s| - 1)
  {
  }

  /** Moving the element back from where it landed to where it came from restores the
      original list: the reorder's inverse. */
  lemma ReorderedUndo<T>(s: seq<T>, sourceIndex: int, destinationIndex: int)
    requires SourceInRange(s, sourceIndex)
    ensures var k := RelativeStart(sourceIndex, |s|);
      var p := Landing(|s|, destinationIndex);
      Reordered(Reordered(s, sourceIndex, destinationIndex), p, k) == s
  {
    var k := RelativeStart(sourceIndex, |s|);
    var p := Landing(|s|, destinationIndex);
    var r := Reordered(s, sourceIndex, destinationIndex);
    ReorderedPlacesMoved(s, sourceIndex, destinationIndex);
    assert RelativeStart(p, |r|) == p;
    SpliceRemoveThenInsert(s, sourceIndex);
    SpliceRemoveThenInsert(r, p);
    assert SpliceRemove(r, p).1 == RemoveAt(s, k);
    assert RelativeStart(k, |s| - 1) == k;
  }

  /** A move from index 0 to index 2 of `[A, B, C]` gives `[B, C, A]`. */
  lemma ReorderExample()
    ensures Reordered(["A", "B", "C"], 0, 2) == ["B", "C", "A"]
  {
  }

  /** Repeating the same move acts on the already reordered list, so the reorder is not
      idempotent: `[A, B, C]` becomes `[B, C, A]` and then `[C, A, B]`. */
  lemma ReorderNotIdempotent()
    ensures Reordered(Reordered(["A", "B", "C"], 0, 2), 0, 2) == ["C", "A", "B"]
    ensures Reordered(Reordered(["A", "B", "C"], 0, 2), 0, 2) != Reordered(["A", "B", "C"], 0, 2)
  {
    ReorderExample();
    var s: seq<string> := ["B", "C", "A"];
    assert RemoveAt(s, 0) == ["C", "A"] by { assert s[1..] == ["C", "A"]; }
    assert SpliceInsert(["C", "A"], 2, "B") == ["C", "A", "B"];
  }
}
