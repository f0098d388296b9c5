/** Optional values, and the strict orders and the sort the store sorts its batches with. */
module Ordering {

  datatype Option<+T> = None | Some(value: T)

  /** What `slices.SortFunc` asks of a comparator: a strict weak order. */
  ghost predicate StrictWeakOrder<T(!new)>(less: (T, T) -> bool) {
    && (forall a, b :: less(a, b) ==> !less(b, a))
    && (forall a, b, c :: !less(a, b) && !less(b, c) ==> !less(a, c))
  }

  ghost predicate SortedBy<T>(less: (T, T) -> bool, xs: seq<T>) {
    forall i, j | 0 <= i < j < |xs| :: !less(xs[j], xs[i])
  }

  ghost predicate StrictlySortedBy<T>(less: (T, T) -> bool, xs: seq<T>) {
    forall i, j | 0 <= i < j < |xs| :: less(xs[i], xs[j])
  }

  ghost predicate Comparable<T>(less: (T, T) -> bool, x: T, y: T) {
    less(x, y) || less(y, x)
  }

  ghost predicate PairwiseComparable<T>(less: (T, T) -> bool, xs: seq<T>) {
    forall i, j | 0 <= i < j < |xs| :: Comparable(less, xs[i], xs[j])
  }

  /** Puts `x` behind every element it does not precede. */
  method Insert<T(!new)>(ys: seq<T>, x: T, less: (T, T) -> bool) returns (zs: seq<T>)
    requires StrictWeakOrder(less)
    requires SortedBy(less, ys)
    ensures multiset(zs) == multiset(ys) + multiset{x}
    ensures SortedBy(less, zs)
    ensures StrictlySortedBy(less, ys) && (forall y | y in ys :: Comparable(less, y, x)) ==> StrictlySortedBy(less, zs)
  {
    var at := |ys|;
    while at > 0 && less(x, ys[at - 1])
      invariant 0 <= at <= |ys|
      invariant forall j | at <= j < |ys| :: less(x, ys[j])
    {
      at := at - 1;
    }
    assert forall j | 0 <= j < at :: !less(x, ys[j]) by {
      if at > 0 {
        assert forall j | 0 <= j < at - 1 :: !less(ys[at - 1], ys[j]);
      }
    }
    assert ys == ys[..at] + ys[at..];
    zs := ys[..at] + [x] + ys[at..];
    InsertedIsSorted(ys, x, at, less);
  }

  lemma InsertedIsSorted<T(!new)>(ys: seq<T>, x: T, at: nat, less: (T, T) -> bool)
    requires StrictWeakOrder(less) && SortedBy(less, ys) && at <= |ys|
    requires forall j | 0 <= j < at :: !less(x, ys[j])
    requires forall j | at <= j < |ys| :: less(x, ys[j])
    ensures SortedBy(less, ys[..at] + [x] + ys[at..])
    ensures StrictlySortedBy(less, ys) && (forall y | y in ys :: Comparable(less, y, x)) ==>
              StrictlySortedBy(less, ys[..at] + [x] + ys[at..])
  {
    var zs := ys[..at] + [x] + ys[at..];
    assert forall k | 0 <= k < at :: zs[k] == ys[k];
    assert forall k | at < k < |zs| :: zs[k] == ys[k - 1];
    assert zs[at] == x;
    if StrictlySortedBy(less, ys) && forall y | y in ys :: Comparable(less, y, x) {
      assert forall k | 0 <= k < |ys| :: ys[k] in ys;
      forall i, j | 0 <= i < j < |zs| ensures less(zs[i], zs[j]) {
        if j == at {
          assert Comparable(less, ys[i], x);
        } else if i == at {
          assert Comparable(less, ys[j - 1], x);
        }
      }
    }
  }

  /** A sorted rearrangement of `xs`. */
  method SortFunc<T(!new)>(xs: seq<T>, less: (T, T) -> bool) returns (ys: seq<T>)
    requires StrictWeakOrder(less)
    ensures multiset(ys) == multiset(xs)
    ensures SortedBy(less, ys)
    ensures PairwiseComparable(less, xs) ==> StrictlySortedBy(less, ys)
  {
    ys := [];
    for i := 0 to |xs|
      invariant multiset(ys) == multiset(xs[..i])
      invariant SortedBy(less, ys)
      invariant PairwiseComparable(less, xs) ==> StrictlySortedBy(less, ys)
    {
      assert xs[..i + 1] == xs[..i] + [xs[i]];
      assert forall y | y in ys :: y in multiset(xs[..i]);
      ys := Insert(ys, xs[i], less);
    }
    assert xs[..|xs|] == xs;
  }

  ghost predicate NoRepeats<T>(xs: seq<T>) {
    forall i, j | 0 <= i < j < |xs| :: xs[i] != xs[j]
  }

  lemma NoRepeatsAppend<T>(xs: seq<T>, x: T)
    requires NoRepeats(xs) && x !in xs
    ensures NoRepeats(xs + [x])
  {
    forall i, j | 0 <= i < j < |xs + [x]| ensures (xs + [x])[i] != (xs + [x])[j] {
      assert (xs + [x])[i] == xs[i] && xs[i] in xs;
    }
  }

  /** The elements of a set in some order, as ranging over a Go map yields them. */
  method Listing<T(!new, ==)>(elements: set<T>) returns (xs: seq<T>)
    ensures forall x :: x in xs <==> x in elements
    ensures NoRepeats(xs) && |xs| == |elements|
  {
    xs := [];
    var rest := elements;
    while rest != {}
      invariant rest <= elements && |xs| + |rest| == |elements|
      invariant forall x :: x in xs <==> x in elements - rest
      invariant NoRepeats(xs)
      decreases rest
    {
      var x :| x in rest;
      NoRepeatsAppend(xs, x);
      xs := xs + [x];
      rest := rest - {x};
    }
  }

  ghost predicate IsFirst<T(!new)>(x: T, elements: set<T>, less: (T, T) -> bool) {
    x in elements && forall y | y in elements && y != x :: less(x, y)
  }

  /** The ascending listing of a set. */
  ghost function SortedListing<T(!new)>(elements: set<T>, less: (T, T) -> bool): seq<T> {
    if x :| IsFirst(x, elements, less) then [x] + SortedListing(elements - {x}, less) else []
  }

  lemma {:induction false} SortedListingLists<T(!new)>(elements: set<T>, less: (T, T) -> bool)
    ensures forall x | x in SortedListing(elements, less) :: x in elements
    decreases elements
  {
    if exists x :: IsFirst(x, elements, less) {
      var x :| IsFirst(x, elements, less) && SortedListing(elements, less) == [x] + SortedListing(elements - {x}, less);
      SortedListingLists(elements - {x}, less);
    }
  }

  /** A strict total order on the given elements. */
  ghost predicate TotalOrderOn<T(!new)>(elements: set<T>, less: (T, T) -> bool) {
    && (forall a, b | a in elements && b in elements :: less(a, b) ==> !less(b, a))
    && (forall a, b | a in elements && b in elements :: a == b || less(a, b) || less(b, a))
    && (forall a, b, c | a in elements && b in elements && c in elements :: less(a, b) && less(b, c) ==> less(a, c))
  }

  lemma {:induction false} FirstExists<T(!new)>(elements: set<T>, less: (T, T) -> bool)
    requires elements != {} && TotalOrderOn(elements, less)
    ensures exists x :: IsFirst(x, elements, less)
    decreases elements
  {
    var y :| y in elements;
    if elements == {y} {
      assert IsFirst(y, elements, less);
    } else {
      FirstExists(elements - {y}, less);
      var x :| IsFirst(x, elements - {y}, less);
      assert IsFirst(if less(x, y) then x else y, elements, less);
    }
  }

  lemma {:induction false} SortedListingIsSorted<T(!new)>(elements: set<T>, less: (T, T) -> bool)
    requires TotalOrderOn(elements, less)
    ensures StrictlySortedBy(less, SortedListing(elements, less))
    ensures forall x :: x in SortedListing(elements, less) <==> x in elements
    ensures |SortedListing(elements, less)| == |elements|
    decreases elements
  {
    if elements != {} {
      FirstExists(elements, less);
      var x :| IsFirst(x, elements, less) && SortedListing(elements, less) == [x] + SortedListing(elements - {x}, less);
      SortedListingIsSorted(elements - {x}, less);
      assert forall y | y in SortedListing(elements - {x}, less) :: less(x, y);
    }
  }

  /** A set has only one ascending listing. */
  lemma {:induction false} SortedListingIsUnique<T(!new)>(elements: set<T>, xs: seq<T>, less: (T, T) -> bool)
    requires TotalOrderOn(elements, less) && StrictlySortedBy(less, xs)
    requires forall x :: x in xs <==> x in elements
    ensures xs == SortedListing(elements, less)
    decreases elements
  {
    if xs == [] {
      assert elements == {};
    } else {
      assert xs[0] in elements;
      FirstExists(elements, less);
      var x :| IsFirst(x, elements, less) && SortedListing(elements, less) == [x] + SortedListing(elements - {x}, less);
      assert x == xs[0] by {
        var i :| 0 <= i < |xs| && xs[i] == x;
      }
      forall y ensures y in xs[1..] <==> y in elements - {x} {
        if y in xs[1..] {
          var i :| 0 < i < |xs| && xs[i] == y;
          assert less(xs[0], xs[i]);
        }
      }
      SortedListingIsUnique(elements - {x}, xs[1..], less);
      assert xs == [x] + xs[1..];
    }
  }

  /** Byte-wise comparison of Go strings and byte slices, as `strings.Compare` and `bytes.Compare` do it. */
  predicate LexLess(a: seq<int>, b: seq<int>) {
    if b == [] then false
    else if a == [] then true
    else a[0] < b[0] || (a[0] == b[0] && LexLess(a[1..], b[1..]))
  }

  lemma {:induction false} LexAsymmetric(a: seq<int>, b: seq<int>)
    requires LexLess(a, b)
    ensures !LexLess(b, a)
  {
    if a != [] && a[0] == b[0] {
      LexAsymmetric(a[1..], b[1..]);
    }
  }

  lemma {:induction false} LexTotal(a: seq<int>, b: seq<int>)
    ensures a == b || LexLess(a, b) || LexLess(b, a)
  {
    if a != [] && b != [] && a[0] == b[0] {
      LexTotal(a[1..], b[1..]);
      assert a == [a[0]] + a[1..] && b == [b[0]] + b[1..];
    }
  }

  lemma {:induction false} LexTransitive(a: seq<int>, b: seq<int>, c: seq<int>)
    requires LexLess(a, b) && LexLess(b, c)
    ensures LexLess(a, c)
  {
    if a != [] && a[0] == b[0] == c[0] {
      LexTransitive(a[1..], b[1..], c[1..]);
    }
  }

  /** The order is strict and total. */
  lemma LexOrder(a: seq<int>, b: seq<int>, c: seq<int>)
    ensures LexLess(a, b) ==> !LexLess(b, a)
    ensures a == b || LexLess(a, b) || LexLess(b, a)
    ensures LexLess(a, b) && LexLess(b, c) ==> LexLess(a, c)
    ensures !LexLess(a, b) && !LexLess(b, c) ==> !LexLess(a, c)
  {
    if LexLess(a, b) {
      LexAsymmetric(a, b);
      if LexLess(b, c) { LexTransitive(a, b, c); }
    }
    LexTotal(a, b);
    LexTotal(b, c);
    if LexLess(a, c) && LexLess(c, b) { LexTransitive(a, c, b); }
  }

  function Codes(s: string): (r: seq<int>)
    ensures |r| == |s|
    ensures forall i | 0 <= i < |s| :: r[i] == s[i] as int
  {
    seq(|s|, i requires 0 <= i < |s| => s[i] as int)
  }

  predicate StringLess(a: string, b: string) {
    LexLess(Codes(a), Codes(b))
  }

  lemma StringOrder(a: string, b: string, c: string)
    ensures StringLess(a, b) ==> !StringLess(b, a)
    ensures a == b || StringLess(a, b) || StringLess(b, a)
    ensures StringLess(a, b) && StringLess(b, c) ==> StringLess(a, c)
    ensures !StringLess(a, b) && !StringLess(b, c) ==> !StringLess(a, c)
  {
    LexOrder(Codes(a), Codes(b), Codes(c));
  }

  // ----- What the comparisons come to -----

  /** The first difference decides, and a prefix comes first. */
  ghost predicate DiffersUpAt(a: seq<int>, b: seq<int>, k: nat) {
    k < |b| && k <= |a| && (forall i | 0 <= i < k :: a[i] == b[i]) && (k == |a| || a[k] < b[k])
  }

  ghost predicate Precedes(a: seq<int>, b: seq<int>) {
    exists k: nat :: DiffersUpAt(a, b, k)
  }

  lemma {:induction false} LexLessExactly(a: seq<int>, b: seq<int>)
    ensures LexLess(a, b) <==> Precedes(a, b)
  {
    if a == [] || b == [] || a[0] != b[0] {
      if LexLess(a, b) { assert DiffersUpAt(a, b, 0); }
    } else {
      LexLessExactly(a[1..], b[1..]);
      if k: nat :| DiffersUpAt(a[1..], b[1..], k) {
        assert forall i | 0 < i <= k :: a[i] == a[1..][i - 1] && b[i] == b[1..][i - 1];
        assert DiffersUpAt(a, b, k + 1);
      }
      if k: nat :| DiffersUpAt(a, b, k) {
        assert DiffersUpAt(a[1..], b[1..], k - 1);
      }
    }
  }

  ghost predicate TextDiffersUpAt(a: string, b: string, k: nat) {
    k < |b| && k <= |a| && (forall i | 0 <= i < k :: a[i] == b[i]) && (k == |a| || a[k] as int < b[k] as int)
  }

  ghost predicate TextPrecedes(a: string, b: string) {
    exists k: nat :: TextDiffersUpAt(a, b, k)
  }

  lemma StringLessExactly(a: string, b: string)
    ensures StringLess(a, b) <==> TextPrecedes(a, b)
  {
    LexLessExactly(Codes(a), Codes(b));
    if k: nat :| DiffersUpAt(Codes(a), Codes(b), k) {
      assert TextDiffersUpAt(a, b, k);
    }
    if k: nat :| TextDiffersUpAt(a, b, k) {
      assert DiffersUpAt(Codes(a), Codes(b), k);
    }
  }
}
