/** The parts of JavaScript's `Array.prototype` that the card handlers use, on sequences:
    `splice(start, 1)`, `splice(start, 0, x)` and `filter` by value. */
module JsArray {

  /** The index `splice` actually starts at for argument `start` on an array of length
      `len`: a negative `start` counts back from the end (and stops at 0), a `start` past
      the end is clamped to `len`. */
  function RelativeStart(start: int, len: nat): (p: nat)
    ensures p <= len
    ensures 0 <= start <= len ==> p == start
    ensures start >= len ==> p == len
    ensures start < 0 && 0 <= len + start ==> p == len + start
    ensures len + start < 0 ==> p == 0
  {
    if start < 0 then (if len + start < 0 then 0 else len + start)
    else if start < len then start
    else len
  }

  /** The sequence without its element at index `k`. */
  function RemoveAt<T>(s: seq<T>, k: nat): (r: seq<T>)
    requires k < |s|
    ensures |r| == |s| - 1
  {
    s[..k] + s[k + 1..]
  }

  /** `a.splice(start, 0, x)`: inserts `x` so that it lands at `RelativeStart(start, |a|)`;
      a start at or past the end appends. */
  function SpliceInsert<T>(s: seq<T>, start: int, x: T): (r: seq<T>)
    ensures |r| == |s| + 1
    ensures r[RelativeStart(start, |s|)] == x
  {
    var p := RelativeStart(start, |s|);
    s[..p] + [x] + s[p..]
  }

  /** `a.splice(start, 1)`: the array of removed elements (one element, or none when the
      start lies at or past the end) and what is left of `a`. */
  function SpliceRemove<T>(s: seq<T>, start: int): (r: (seq<T>, seq<T>))
    ensures |r.0| == (if RelativeStart(start, |s|) < |s| then 1 else 0)
    ensures |r.0| + |r.1| == |s|
  {
    var p := RelativeStart(start, |s|);
    if p < |s| then ([s[p]], RemoveAt(s, p)) else ([], s)
  }

  /** `a.filter(y => y !== x)`: every occurrence of `x` dropped, the rest in order. */
  function Without<T(==)>(s: seq<T>, x: T): (r: seq<T>)
    ensures x !in r
    ensures |r| <= |s|
  {
    if s == [] then []
    else if s[0] == x then Without(s[1..], x)
    else [s[0]] + Without(s[1..], x)
  }

  /** `a` can be obtained from `b` by deleting elements: the order of `a` is that of `b`. */
  predicate IsSubsequence<T(==)>(a: seq<T>, b: seq<T>)
    decreases |b|
  {
    if a == [] then true
    else if b == [] then false
    else if a[0] == b[0] then IsSubsequence(a[1..], b[1..])
    else IsSubsequence(a, b[1..])
  }

  // ---------------------------------------------------------------------------
  // splice(start, 0, x)

  /** The inserted element sits at the normalised start, with the old prefix before it
      and the old suffix after it. */
  lemma SpliceInsertPlaces<T>(s: seq<T>, start: int, x: T)
    ensures var p := RelativeStart(start, |s|);
      var r := SpliceInsert(s, start, x);
      r[p] == x && r[..p] == s[..p] && r[p + 1..] == s[p..]
  {
  }

  /** An index at or past the length appends; a non-negative index inside the array
      is the landing position itself. */
  lemma SpliceInsertPosition<T>(s: seq<T>, start: int, x: T)
    ensures start >= |s| ==> SpliceInsert(s, start, x) == s + [x]
    ensures 0 <= start <= |s| ==> SpliceInsert(s, start, x)[start] == x
  {
  }

  /** Insertion adds exactly one element: the multiset grows by `x`, membership by `x`. */
  lemma SpliceInsertContents<T>(s: seq<T>, start: int, x: T)
    ensures multiset(SpliceInsert(s, start, x)) == multiset(s) + multiset{x}
    ensures forall y :: y in SpliceInsert(s, start, x) <==> y == x || y in s
  {
    var p := RelativeStart(start, |s|);
    assert s == s[..p] + s[p..];
    assert multiset(s) == multiset(s[..p]) + multiset(s[p..]);
    assert multiset(SpliceInsert(s, start, x)) == multiset(s) + multiset{x};
    SpliceInsertMembers(s, start, x);
  }

  /** Inserting `x` adds `x` and keeps every other member. */
  lemma SpliceInsertMembers<T>(s: seq<T>, start: int, x: T)
    ensures forall y :: y in SpliceInsert(s, start, x) <==> y == x || y in s
  {
    var p := RelativeStart(start, |s|);
    assert SpliceInsert(s, start, x) == s[..p] + [x] + s[p..];
    assert s == s[..p] + s[p..];
  }

  /** Removing the inserted element gives back the original: insertion's inverse. */
  lemma SpliceInsertThenRemove<T>(s: seq<T>, start: int, x: T)
    ensures RemoveAt(SpliceInsert(s, start, x), RelativeStart(start, |s|)) == s
  {
  }

  // ---------------------------------------------------------------------------
  // splice(start, 1)

  /** Removal at an in-range start takes out exactly `s[p]`, and putting it back at the
      same start rebuilds `s`; out of range it removes nothing (`[movedCard]` is then
      `undefined`). */
  lemma SpliceRemoveThenInsert<T>(s: seq<T>, start: int)
    ensures var p := RelativeStart(start, |s|);
      var r := SpliceRemove(s, start);
      if p < |s| then r.0 == [s[p]] && SpliceInsert(r.1, p, s[p]) == s
      else r.0 == [] && r.1 == s
  {
  }

  /** Removing index `k` takes exactly one occurrence of `s[k]` out of the multiset. */
  lemma RemoveAtContents<T>(s: seq<T>, k: nat)
    requires k < |s|
    ensures multiset(RemoveAt(s, k)) + multiset{s[k]} == multiset(s)
  {
    assert s == s[..k] + [s[k]] + s[k + 1..];
  }

  // ---------------------------------------------------------------------------
  // filter by value

  /** Every element other than `x` keeps its number of occurrences; `x` has none left. */
  lemma {:induction false} WithoutCounts<T>(s: seq<T>, x: T)
    ensures multiset(Without(s, x)) == multiset(s)[x := 0]
  {
    if s != [] {
      WithoutCounts(s[1..], x);
      assert s == [s[0]] + s[1..];
      assert multiset(s) == multiset{s[0]} + multiset(s[1..]);
    }
  }

  /** Membership after the filter: exactly the old members other than `x`. */
  lemma WithoutMembers<T>(s: seq<T>, x: T)
    ensures forall y :: y in Without(s, x) <==> y in s && y != x
  {
  }

  /** The survivors keep their relative order. */
  lemma {:induction false} WithoutKeepsOrder<T>(s: seq<T>, x: T)
    ensures IsSubsequence(Without(s, x), s)
  {
    if s != [] {
      WithoutKeepsOrder(s[1..], x);
      if s[0] == x {
        SubsequenceOfTail(Without(s[1..], x), s);
      } else {
        var r := Without(s, x);
        assert r[0] == s[0] && r[1..] == Without(s[1..], x);
      }
    }
  }

  /** A subsequence of the tail of `b` is a subsequence of `b`. */
  lemma {:induction false} SubsequenceOfTail<T>(a: seq<T>, b: seq<T>)
    requires b != []
    requires IsSubsequence(a, b[1..])
    ensures IsSubsequence(a, b)
    decreases |b|, 0
  {
    if a != [] && a[0] == b[0] {
      SubsequenceDropHead(a, b[1..]);
    }
  }

  /** Dropping the first element of a subsequence keeps it a subsequence. */
  lemma {:induction false} SubsequenceDropHead<T>(a: seq<T>, b: seq<T>)
    requires a != []
    requires IsSubsequence(a, b)
    ensures IsSubsequence(a[1..], b)
    decreases |b|, 1
  {
    if a[0] == b[0] {
      if a[1..] != [] {
        SubsequenceOfTail(a[1..], b);
      }
    } else {
      SubsequenceDropHead(a, b[1..]);
      if a[1..] != [] {
        SubsequenceOfTail(a[1..], b);
      }
    }
  }

  /** Filtering out an absent value changes nothing. */
  lemma {:induction false} WithoutAbsent<T>(s: seq<T>, x: T)
    requires x !in s
    ensures Without(s, x) == s
  {
    if s != [] {
      WithoutAbsent(s[1..], x);
      assert s == [s[0]] + s[1..];
    }
  }

  /** Filtering twice is filtering once. */
  lemma WithoutIdempotent<T>(s: seq<T>, x: T)
    ensures Without(Without(s, x), x) == Without(s, x)
  {
    WithoutAbsent(Without(s, x), x);
  }
}
