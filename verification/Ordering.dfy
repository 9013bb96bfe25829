/** Stable sorting by a three-way comparator, and sequences without repetitions. */
module Ordering {

  /** What a sort demands of its comparator: signs are opposite both ways round and `<= 0` is transitive. */
  ghost predicate TotalPreorder<T(!new)>(cmp: (T, T) -> int) {
    && (forall a, b :: cmp(a, b) < 0 <==> cmp(b, a) > 0)
    && (forall a, b, c :: cmp(a, b) <= 0 && cmp(b, c) <= 0 ==> cmp(a, c) <= 0)
  }

  ghost predicate SortedBy<T>(cmp: (T, T) -> int, xs: seq<T>) {
    forall i, j :: 0 <= i < j < |xs| ==> cmp(xs[i], xs[j]) <= 0
  }

  ghost predicate Distinct<T>(xs: seq<T>) {
    forall i, j :: 0 <= i < j < |xs| ==> xs[i] != xs[j]
  }

  /** Puts `x` in front of the elements it does not come after. */
  function Insert<T>(cmp: (T, T) -> int, x: T, xs: seq<T>): seq<T> {
    if xs == [] then [x]
    else if cmp(x, xs[0]) <= 0 then [x] + xs
    else [xs[0]] + Insert(cmp, x, xs[1..])
  }

  /** The library's stable sort. */
  function StableSort<T>(cmp: (T, T) -> int, xs: seq<T>): seq<T> {
    if xs == [] then [] else Insert(cmp, xs[0], StableSort(cmp, xs[1..]))
  }

  lemma {:induction false} InsertPermutes<T>(cmp: (T, T) -> int, x: T, xs: seq<T>)
    ensures multiset(Insert(cmp, x, xs)) == multiset{x} + multiset(xs)
  {
    if xs == [] || cmp(x, xs[0]) <= 0 {
    } else {
      InsertPermutes(cmp, x, xs[1..]);
      assert xs == [xs[0]] + xs[1..];
    }
  }

  lemma {:induction false} InsertSorts<T(!new)>(cmp: (T, T) -> int, x: T, xs: seq<T>)
    requires TotalPreorder(cmp) && SortedBy(cmp, xs)
    ensures SortedBy(cmp, Insert(cmp, x, xs))
  {
    if xs == [] {
    } else if cmp(x, xs[0]) <= 0 {
      var out := [x] + xs;
      forall i, j | 0 <= i < j < |out|
        ensures cmp(out[i], out[j]) <= 0
      {
        if i == 0 && j > 1 {
          assert cmp(xs[0], xs[j - 1]) <= 0;
        }
      }
    } else {
      var rest := Insert(cmp, x, xs[1..]);
      InsertSorts(cmp, x, xs[1..]);
      InsertPermutes(cmp, x, xs[1..]);
      var out := [xs[0]] + rest;
      forall j | 0 < j < |out|
        ensures cmp(out[0], out[j]) <= 0
      {
        assert out[j] in multiset(rest);
        if out[j] != x {
          assert out[j] in xs[1..];
        }
      }
    }
  }

  lemma {:induction false} SortKeepsMultiset<T>(cmp: (T, T) -> int, xs: seq<T>)
    ensures multiset(StableSort(cmp, xs)) == multiset(xs)
  {
    if xs != [] {
      SortKeepsMultiset(cmp, xs[1..]);
      InsertPermutes(cmp, xs[0], StableSort(cmp, xs[1..]));
      assert xs == [xs[0]] + xs[1..];
    }
  }

  lemma PermutationMembers<T>(a: seq<T>, b: seq<T>)
    requires multiset(a) == multiset(b)
    ensures |a| == |b|
    ensures forall x :: x in a <==> x in b
  {
    assert |multiset(a)| == |multiset(b)|;
    forall x
      ensures x in a <==> x in b
    {
      assert x in a <==> x in multiset(a);
      assert x in b <==> x in multiset(b);
    }
  }

  /** Sorting permutes its input. */
  lemma SortPermutes<T>(cmp: (T, T) -> int, xs: seq<T>)
    ensures multiset(StableSort(cmp, xs)) == multiset(xs)
    ensures |StableSort(cmp, xs)| == |xs|
    ensures forall x :: x in StableSort(cmp, xs) <==> x in xs
  {
    SortKeepsMultiset(cmp, xs);
    PermutationMembers(StableSort(cmp, xs), xs);
  }

  /** Sorting orders its input. */
  lemma {:induction false} SortSorts<T(!new)>(cmp: (T, T) -> int, xs: seq<T>)
    requires TotalPreorder(cmp)
    ensures SortedBy(cmp, StableSort(cmp, xs))
  {
    if xs != [] {
      SortSorts(cmp, xs[1..]);
      InsertSorts(cmp, xs[0], StableSort(cmp, xs[1..]));
    }
  }

  /** A list already in order is left alone. */
  lemma {:induction false} SortFixesSorted<T>(cmp: (T, T) -> int, xs: seq<T>)
    requires SortedBy(cmp, xs)
    ensures StableSort(cmp, xs) == xs
  {
    if xs != [] {
      SortFixesSorted(cmp, xs[1..]);
      if |xs| > 1 {
        assert cmp(xs[0], xs[1]) <= 0;
      }
      assert xs == [xs[0]] + xs[1..];
    }
  }

  /** The elements of `xs` that tie with `pivot`, in order. */
  ghost function Ties<T>(cmp: (T, T) -> int, pivot: T, xs: seq<T>): seq<T> {
    if xs == [] then []
    else (if cmp(pivot, xs[0]) == 0 then [xs[0]] else []) + Ties(cmp, pivot, xs[1..])
  }

  lemma {:induction false} InsertKeepsTies<T(!new)>(cmp: (T, T) -> int, pivot: T, x: T, xs: seq<T>)
    requires TotalPreorder(cmp)
    ensures Ties(cmp, pivot, Insert(cmp, x, xs)) == Ties(cmp, pivot, [x] + xs)
  {
    assert ([x] + xs)[1..] == xs;
    if xs != [] && cmp(x, xs[0]) > 0 {
      InsertKeepsTies(cmp, pivot, x, xs[1..]);
      var rest := Insert(cmp, x, xs[1..]);
      assert ([xs[0]] + rest)[1..] == rest;
      assert ([x] + xs[1..])[1..] == xs[1..];
      // x and xs[0] cannot both tie with the pivot
      assert !(cmp(pivot, x) == 0 && cmp(pivot, xs[0]) == 0);
    }
  }

  /** The sort is stable: elements that tie keep their input order. */
  lemma {:induction false} SortIsStable<T(!new)>(cmp: (T, T) -> int, pivot: T, xs: seq<T>)
    requires TotalPreorder(cmp)
    ensures Ties(cmp, pivot, StableSort(cmp, xs)) == Ties(cmp, pivot, xs)
  {
    if xs != [] {
      SortIsStable(cmp, pivot, xs[1..]);
      var rest := StableSort(cmp, xs[1..]);
      InsertKeepsTies(cmp, pivot, xs[0], rest);
      assert ([xs[0]] + rest)[1..] == rest;
    }
  }

  lemma SortedHeadIsLeast<T>(cmp: (T, T) -> int, xs: seq<T>, x: T)
    requires SortedBy(cmp, xs) && x in xs
    ensures x == xs[0] || cmp(xs[0], x) <= 0
  {
  }

  lemma TailPermutation<T>(a: seq<T>, b: seq<T>)
    requires multiset(a) == multiset(b) && a != [] && b != [] && a[0] == b[0]
    ensures multiset(a[1..]) == multiset(b[1..])
  {
    assert a == [a[0]] + a[1..] && b == [b[0]] + b[1..];
    assert multiset(a[1..]) == multiset(a) - multiset{a[0]};
    assert multiset(b[1..]) == multiset(b) - multiset{b[0]};
  }

  lemma SortedHeadsAgree<T>(cmp: (T, T) -> int, a: seq<T>, b: seq<T>)
    requires SortedBy(cmp, a) && SortedBy(cmp, b) && TiesAreEqual(cmp, a)
    requires multiset(a) == multiset(b) && a != [] && b != []
    ensures a[0] == b[0]
  {
    assert a[0] in multiset(b) && b[0] in multiset(a);
    SortedHeadIsLeast(cmp, a, b[0]);
    SortedHeadIsLeast(cmp, b, a[0]);
  }

  ghost predicate TiesAreEqual<T>(cmp: (T, T) -> int, xs: seq<T>) {
    forall x, y :: x in xs && y in xs && cmp(x, y) <= 0 && cmp(y, x) <= 0 ==> x == y
  }

  /** Where ties are equalities, sorted permutations of each other are equal. */
  lemma {:induction false} SortedPermutationUnique<T>(cmp: (T, T) -> int, a: seq<T>, b: seq<T>)
    requires SortedBy(cmp, a) && SortedBy(cmp, b) && TiesAreEqual(cmp, a)
    requires multiset(a) == multiset(b)
    ensures a == b
  {
    assert |a| == |multiset(a)| == |multiset(b)| == |b|;
    if a != [] {
      SortedHeadsAgree(cmp, a, b);
      TailPermutation(a, b);
      SortedPermutationUnique(cmp, a[1..], b[1..]);
      assert a == [a[0]] + a[1..] && b == [b[0]] + b[1..];
    }
  }

  lemma {:induction false} DistinctMultiplicity<T>(xs: seq<T>, x: T)
    requires Distinct(xs)
    ensures multiset(xs)[x] == if x in xs then 1 else 0
  {
    if xs != [] {
      assert xs == [xs[0]] + xs[1..];
      DistinctMultiplicity(xs[1..], x);
      if x == xs[0] {
        assert x !in xs[1..];
      }
    }
  }

  lemma RepeatMultiplicity<T>(xs: seq<T>, i: nat, j: nat)
    requires i < j < |xs|
    ensures xs[i] == xs[j] ==> multiset(xs)[xs[i]] >= 2
  {
    var front, back := xs[..j], xs[j..];
    assert xs == front + back;
    assert front[i] in multiset(front) && back[0] in multiset(back);
  }

  /** Two enumerations of one set are permutations of each other. */
  lemma DistinctSameElements<T>(a: seq<T>, b: seq<T>)
    requires Distinct(a) && Distinct(b)
    requires forall x :: x in a <==> x in b
    ensures multiset(a) == multiset(b) && |a| == |b|
  {
    forall x
      ensures multiset(a)[x] == multiset(b)[x]
    {
      DistinctMultiplicity(a, x);
      DistinctMultiplicity(b, x);
    }
    assert multiset(a) == multiset(b);
    assert |multiset(a)| == |multiset(b)|;
  }

  /** A permutation of a list without repetitions has none either. */
  lemma DistinctPermutes<T>(a: seq<T>, b: seq<T>)
    requires Distinct(a) && multiset(a) == multiset(b)
    ensures Distinct(b)
  {
    forall i, j | 0 <= i < j < |b|
      ensures b[i] != b[j]
    {
      DistinctMultiplicity(a, b[i]);
      RepeatMultiplicity(b, i, j);
    }
  }

  ghost function Elements<T(!new)>(xs: seq<T>): (s: set<T>)
    ensures forall x :: x in s <==> x in xs
  {
    set x | x in xs
  }

  /** A list without repetitions has as many elements as its set. */
  lemma {:induction false} DistinctSize<T(!new)>(xs: seq<T>)
    requires Distinct(xs)
    ensures |xs| == |Elements(xs)|
  {
    if xs == [] {
    } else {
      var rest := xs[1..];
      DistinctSize(rest);
      assert Elements(xs) == {xs[0]} + Elements(rest) by {
        assert xs == [xs[0]] + rest;
      }
    }
  }

  lemma {:induction false} SubsetSize<T>(a: set<T>, b: set<T>)
    requires a <= b
    ensures |a| <= |b|
  {
    if a != {} {
      var x :| x in a;
      SubsetSize(a - {x}, b - {x});
    }
  }

  /** A list without repetitions is no longer than one that holds all its elements. */
  lemma DistinctWithin<T(!new)>(a: seq<T>, b: seq<T>)
    requires Distinct(a) && Distinct(b) && forall x :: x in a ==> x in b
    ensures |a| <= |b|
  {
    DistinctSize(a);
    DistinctSize(b);
    SubsetSize(Elements(a), Elements(b));
  }

  /** One arbitrary but fixed order of a finite set. */
  ghost function Enumeration<T(!new)>(s: set<T>): (xs: seq<T>)
    ensures Distinct(xs) && |xs| == |s|
    ensures forall x :: x in xs <==> x in s
  {
    if s == {} then [] else
      var x :| x in s;
      [x] + Enumeration(s - {x})
  }

  /** Keeps the first occurrence of every element. */
  function Deduped<T(==)>(xs: seq<T>): seq<T> {
    if xs == [] then [] else
      var n := |xs| - 1;
      var r := Deduped(xs[..n]);
      if xs[n] in xs[..n] then r else r + [xs[n]]
  }

  /** Deduplication loses nothing and repeats nothing. */
  lemma {:induction false} DedupedProperties<T(!new)>(xs: seq<T>)
    ensures forall x :: x in Deduped(xs) <==> x in xs
    ensures Distinct(Deduped(xs))
  {
    if xs != [] {
      var n := |xs| - 1;
      DedupedProperties(xs[..n]);
      assert xs == xs[..n] + [xs[n]];
    }
  }

  /** Deduplication keeps first occurrences in order, and concatenation appends what is new. */
  lemma {:induction false} DedupedAppend<T(!new)>(xs: seq<T>, ys: seq<T>)
    ensures Deduped(xs) <= Deduped(xs + ys)
    ensures |Deduped(xs)| <= |xs|
  {
    if ys == [] {
      assert xs + ys == xs;
      if xs != [] {
        DedupedAppend(xs[..|xs| - 1], []);
      }
    } else {
      var n := |ys| - 1;
      DedupedAppend(xs, ys[..n]);
      assert (xs + ys)[..|xs + ys| - 1] == xs + ys[..n];
    }
  }

  lemma {:induction false} DedupedOfDistinct<T(!new)>(xs: seq<T>)
    requires Distinct(xs)
    ensures Deduped(xs) == xs
  {
    if xs != [] {
      var n := |xs| - 1;
      DedupedOfDistinct(xs[..n]);
      assert xs == xs[..n] + [xs[n]];
    }
  }

  /** `x` occurs in `xs`, and `y` does not occur up to there. */
  ghost predicate Precedes<T>(xs: seq<T>, x: T, y: T) {
    exists k :: 0 <= k < |xs| && xs[k] == x && y !in xs[..k + 1]
  }

  lemma PrecedesGrows<T>(xs: seq<T>, ys: seq<T>, x: T, y: T)
    requires Precedes(xs, x, y)
    ensures Precedes(xs + ys, x, y)
  {
    var k :| 0 <= k < |xs| && xs[k] == x && y !in xs[..k + 1];
    assert (xs + ys)[k] == x && (xs + ys)[..k + 1] == xs[..k + 1];
  }

  /** Deduplication keeps elements in the order of their first occurrences. */
  lemma {:induction false} DedupedKeepsOrder<T(!new)>(xs: seq<T>)
    ensures forall i, j :: 0 <= i < j < |Deduped(xs)| ==> Precedes(xs, Deduped(xs)[i], Deduped(xs)[j])
  {
    if xs != [] {
      var n := |xs| - 1;
      var before, all := Deduped(xs[..n]), Deduped(xs);
      DedupedKeepsOrder(xs[..n]);
      DedupedProperties(xs[..n]);
      assert xs == xs[..n] + [xs[n]];
      forall i, j | 0 <= i < j < |all|
        ensures Precedes(xs, all[i], all[j])
      {
        if j < |before| {
          PrecedesGrows(xs[..n], [xs[n]], before[i], before[j]);
        } else {
          assert before[i] in xs[..n];
          var k :| 0 <= k < n && xs[..n][k] == before[i];
          assert xs[k] == all[i] && xs[..k + 1] == xs[..n][..k + 1];
        }
      }
    }
  }

  /** In a concatenation the elements of the first list come first, those of each list in its own order. */
  lemma PrecedesInParts<T>(a: seq<T>, b: seq<T>, x: T, y: T)
    requires Precedes(a + b, x, y)
    ensures if x in a then y !in a || Precedes(a, x, y) else y !in a && Precedes(b, x, y)
  {
    var k :| 0 <= k < |a + b| && (a + b)[k] == x && y !in (a + b)[..k + 1];
    if k < |a| {
      assert (a + b)[..k + 1] == a[..k + 1];
    } else {
      var m := k - |a|;
      assert (a + b)[..k + 1] == a + b[..m + 1];
      assert b[m] == x;
    }
  }

  /** As many elements as are in the list, whatever order they are counted in. */
  lemma DedupedSize<T(!new)>(xs: seq<T>)
    ensures |Deduped(xs)| == |Elements(xs)|
  {
    DedupedProperties(xs);
    DistinctSize(Deduped(xs));
    assert Elements(Deduped(xs)) == Elements(xs);
  }

  lemma DedupedSnoc<T(!new)>(xs: seq<T>, x: T)
    ensures Deduped(xs + [x]) == if x in xs then Deduped(xs) else Deduped(xs) + [x]
    ensures Elements(xs + [x]) == Elements(xs) + {x}
  {
  }

  /** The loop that drops repeated ids while keeping their order. */
  method DedupePreserveOrder<T(==,!new)>(ids: seq<T>) returns (ordered: seq<T>)
    ensures ordered == Deduped(ids)
  {
    var seen: set<T> := {};
    ordered := [];
    for i := 0 to |ids|
      invariant ordered == Deduped(ids[..i]) && seen == Elements(ids[..i])
    {
      DedupedSnoc(ids[..i], ids[i]);
      assert ids[..i + 1] == ids[..i] + [ids[i]];
      if ids[i] !in seen {
        seen := seen + {ids[i]};
        ordered := ordered + [ids[i]];
      }
    }
    assert ids[..|ids|] == ids;
  }
}
