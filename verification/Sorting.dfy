/**
 * `Array.prototype.sort` as the repository uses it: a stable sort by a strict "comes before" test.
 * The engine's algorithm is not modelled; what callers rely on is that a comparator which is a strict
 * total order on the elements leaves exactly one possible result, and that is what is proved here.
 */
module Sorting {

  /** `less` orders the elements of `xs` strictly and totally: ties happen only between equal elements. */
  ghost predicate StrictTotalOn<T(!new)>(less: (T, T) -> bool, xs: seq<T>) {
    && (forall a, b :: a in xs && b in xs ==> !(less(a, b) && less(b, a)))
    && (forall a, b :: a in xs && b in xs ==> a == b || less(a, b) || less(b, a))
    && (forall a, b, c :: a in xs && b in xs && c in xs && less(a, b) && less(b, c) ==> less(a, c))
  }

  /** No element comes before an element to its left. */
  ghost predicate SortedBy<T(!new)>(less: (T, T) -> bool, xs: seq<T>) {
    forall i, j :: 0 <= i < j < |xs| ==> !less(xs[j], xs[i])
  }

  function Insert<T>(less: (T, T) -> bool, x: T, xs: seq<T>): (r: seq<T>)
  {
    if xs == [] then [x]
    else if less(xs[0], x) then [xs[0]] + Insert(less, x, xs[1..])
    else [x] + xs
  }

  function Sort<T>(less: (T, T) -> bool, xs: seq<T>): (r: seq<T>)
  {
    if xs == [] then [] else Insert(less, xs[0], Sort(less, xs[1..]))
  }

  lemma {:induction false} InsertPermutes<T(!new)>(less: (T, T) -> bool, x: T, xs: seq<T>)
    ensures multiset(Insert(less, x, xs)) == multiset(xs) + multiset{x}
  {
    if xs != [] {
      assert xs == [xs[0]] + xs[1..];
      InsertPermutes(less, x, xs[1..]);
    }
  }

  lemma {:induction false} SortPermutes<T(!new)>(less: (T, T) -> bool, xs: seq<T>)
    ensures multiset(Sort(less, xs)) == multiset(xs)
    ensures |Sort(less, xs)| == |xs|
    ensures forall x :: x in Sort(less, xs) <==> x in xs
  {
    if xs != [] {
      SortPermutes(less, xs[1..]);
      InsertPermutes(less, xs[0], Sort(less, xs[1..]));
      assert xs == [xs[0]] + xs[1..];
    }
    SameMultisetSameElements(Sort(less, xs), xs);
  }

  lemma SameMultisetSameElements<T(!new)>(xs: seq<T>, ys: seq<T>)
    requires multiset(xs) == multiset(ys)
    ensures |xs| == |ys|
    ensures forall x :: x in xs <==> x in ys
  {
    assert |multiset(xs)| == |xs| && |multiset(ys)| == |ys|;
    assert forall x :: x in xs <==> x in multiset(xs);
    assert forall x :: x in ys <==> x in multiset(ys);
  }

  lemma {:induction false} InsertSorted<T(!new)>(less: (T, T) -> bool, x: T, xs: seq<T>)
    requires StrictTotalOn(less, [x] + xs) && SortedBy(less, xs)
    ensures SortedBy(less, Insert(less, x, xs))
  {
    var r := Insert(less, x, xs);
    if xs != [] {
      assert x in [x] + xs;
      assert forall y :: y in xs ==> y in [x] + xs;
      if less(xs[0], x) {
        assert forall y :: y in [x] + xs[1..] ==> y in [x] + xs;
        InsertSorted(less, x, xs[1..]);
        InsertPermutes(less, x, xs[1..]);
        var t := Insert(less, x, xs[1..]);
        forall j | 0 <= j < |t| ensures !less(t[j], xs[0]) {
          assert t[j] in multiset(t);
          assert t[j] == x || t[j] in xs[1..];
        }
        assert r == [xs[0]] + t;
      } else {
        forall j | 0 <= j < |xs| ensures !less(xs[j], x) {
          assert j == 0 || !less(xs[j], xs[0]);
        }
      }
    }
  }

  lemma {:induction false} SortSorts<T(!new)>(less: (T, T) -> bool, xs: seq<T>)
    requires StrictTotalOn(less, xs)
    ensures SortedBy(less, Sort(less, xs))
  {
    if xs != [] {
      assert forall y :: y in xs[1..] ==> y in xs;
      SortSorts(less, xs[1..]);
      SortPermutes(less, xs[1..]);
      assert forall y :: y in [xs[0]] + Sort(less, xs[1..]) ==> y in xs;
      InsertSorted(less, xs[0], Sort(less, xs[1..]));
    }
  }

  predicate NoDuplicates<T(==)>(xs: seq<T>) {
    forall i, j :: 0 <= i < j < |xs| ==> xs[i] != xs[j]
  }

  lemma {:induction false} MultiplicityOne<T(!new)>(xs: seq<T>)
    requires NoDuplicates(xs)
    ensures forall x :: multiset(xs)[x] == if x in xs then 1 else 0
  {
    if xs != [] {
      var last := |xs| - 1;
      assert xs == xs[..last] + [xs[last]];
      MultiplicityOne(xs[..last]);
    }
  }

  /** Lists without repetitions are permutations of each other as soon as they hold the same elements. */
  lemma SameElementsSameMultiset<T(!new)>(xs: seq<T>, ys: seq<T>)
    requires NoDuplicates(xs) && NoDuplicates(ys)
    requires forall x :: x in xs ==> x in ys
    requires forall y :: y in ys ==> y in xs
    ensures multiset(xs) == multiset(ys)
  {
    MultiplicityOne(xs);
    MultiplicityOne(ys);
    forall x ensures multiset(xs)[x] == multiset(ys)[x] {
    }
  }

  lemma RepeatedTwice<T(!new)>(xs: seq<T>, i: nat, j: nat)
    requires i < j < |xs| && xs[i] == xs[j]
    ensures multiset(xs)[xs[i]] >= 2
  {
    var left, right := xs[..j], xs[j..];
    assert xs == left + right;
    assert left[i] in multiset(left) && right[0] in multiset(right);
  }

  lemma NoDuplicatesPermuted<T(!new)>(xs: seq<T>, ys: seq<T>)
    requires multiset(xs) == multiset(ys) && NoDuplicates(xs)
    ensures NoDuplicates(ys)
  {
    MultiplicityOne(xs);
    forall i, j | 0 <= i < j < |ys| ensures ys[i] != ys[j] {
      if ys[i] == ys[j] {
        RepeatedTwice(ys, i, j);
      }
    }
  }

  /** No two places of the list hold elements that clash. */
  predicate Pairwise<T>(clash: (T, T) -> bool, xs: seq<T>) {
    forall i, j :: 0 <= i < j < |xs| ==> !clash(xs[i], xs[j])
  }

  lemma {:induction false} TwoPlaces<T(!new)>(xs: seq<T>, x: T) returns (i: nat, j: nat)
    requires multiset(xs)[x] >= 2
    ensures i < j < |xs| && xs[i] == x == xs[j]
  {
    var last := |xs| - 1;
    assert xs == xs[..last] + [xs[last]];
    if multiset(xs[..last])[x] >= 2 {
      i, j := TwoPlaces(xs[..last], x);
    } else {
      assert x in multiset(xs[..last]);
      i :| 0 <= i < last && xs[i] == x;
      j := last;
    }
  }

  /** A symmetric clash between two places does not depend on the order of the list. */
  lemma PairwisePermuted<T(!new)>(clash: (T, T) -> bool, xs: seq<T>, ys: seq<T>)
    requires forall a, b :: clash(a, b) == clash(b, a)
    requires multiset(xs) == multiset(ys) && Pairwise(clash, xs)
    ensures Pairwise(clash, ys)
  {
    SameMultisetSameElements(xs, ys);
    forall i, j | 0 <= i < j < |ys| ensures !clash(ys[i], ys[j]) {
      assert ys[i] in xs && ys[j] in xs;
      if ys[i] == ys[j] {
        RepeatedTwice(ys, i, j);
        var k, l := TwoPlaces(xs, ys[i]);
      } else {
        var k :| 0 <= k < |xs| && xs[k] == ys[i];
        var l :| 0 <= l < |xs| && xs[l] == ys[j];
      }
    }
  }

  // ── Mapping ─────────────────────────────────────────────────────

  function Map<S, T>(f: S -> T, xs: seq<S>): (r: seq<T>)
    ensures |r| == |xs|
    ensures forall i :: 0 <= i < |xs| ==> r[i] == f(xs[i])
  {
    if xs == [] then [] else [f(xs[0])] + Map(f, xs[1..])
  }

  function Without<T>(xs: seq<T>, k: nat): (r: seq<T>)
    requires k < |xs|
  {
    xs[..k] + xs[k + 1..]
  }

  lemma WithoutOne<T(!new)>(xs: seq<T>, k: nat)
    requires k < |xs|
    ensures multiset(xs) == multiset(Without(xs, k)) + multiset{xs[k]}
    ensures multiset(Without(xs, k)) == multiset(xs) - multiset{xs[k]}
    ensures |Without(xs, k)| == |xs| - 1
  {
    assert xs == xs[..k] + ([xs[k]] + xs[k + 1..]);
  }

  lemma WithoutAt<T(!new)>(xs: seq<T>, k: nat, i: nat)
    requires k < |xs|
    ensures |Without(xs, k)| == |xs| - 1
    ensures i < |xs| - 1 ==> Without(xs, k)[i] == if i < k then xs[i] else xs[i + 1]
  {
  }

  lemma MapAt<S(!new), T(!new)>(f: S -> T, xs: seq<S>)
    ensures |Map(f, xs)| == |xs| && forall i :: 0 <= i < |xs| ==> Map(f, xs)[i] == f(xs[i])
  {
  }

  lemma MapWithout<S(!new), T(!new)>(f: S -> T, xs: seq<S>, k: nat)
    requires k < |xs|
    ensures Map(f, Without(xs, k)) == Without(Map(f, xs), k)
  {
    hide *;
    var ys, mapped := Without(xs, k), Map(f, xs);
    MapAt(f, xs);
    MapAt(f, ys);
    WithoutAt(xs, k, 0);
    WithoutAt(mapped, k, 0);
    forall i | 0 <= i < |xs| - 1 ensures Map(f, ys)[i] == Without(mapped, k)[i] {
      WithoutAt(xs, k, i);
      WithoutAt(mapped, k, i);
    }
  }

  /** Permuting a list permutes its image. */
  lemma {:induction false} MapPermutes<S(!new), T(!new)>(f: S -> T, xs: seq<S>, ys: seq<S>)
    requires multiset(xs) == multiset(ys)
    ensures multiset(Map(f, xs)) == multiset(Map(f, ys))
    decreases |xs|
  {
    SameMultisetSameElements(xs, ys);
    if xs != [] {
      assert xs[0] in ys;
      var k :| 0 <= k < |ys| && ys[k] == xs[0];
      hide Without, Map;
      WithoutOne(xs, 0);
      WithoutOne(ys, k);
      assert multiset(Without(xs, 0)) == multiset(Without(ys, k));
      MapPermutes(f, Without(xs, 0), Without(ys, k));
      MapWithout(f, xs, 0);
      MapWithout(f, ys, k);
      WithoutOne(Map(f, xs), 0);
      WithoutOne(Map(f, ys), k);
    } else {
      assert ys == [];
    }
  }

  /** Sorting commutes with a map that respects the order. */
  lemma {:induction false} InsertMaps<S(!new), T(!new)>(f: S -> T, less: (S, S) -> bool, image: (T, T) -> bool, x: S,
      xs: seq<S>)
    requires forall a, b :: image(f(a), f(b)) == less(a, b)
    ensures Map(f, Insert(less, x, xs)) == Insert(image, f(x), Map(f, xs))
  {
    if xs != [] && less(xs[0], x) {
      InsertMaps(f, less, image, x, xs[1..]);
      assert Map(f, xs)[1..] == Map(f, xs[1..]);
      assert ([xs[0]] + Insert(less, x, xs[1..]))[1..] == Insert(less, x, xs[1..]);
    } else {
      assert ([x] + xs)[1..] == xs;
    }
  }

  lemma {:induction false} SortMaps<S(!new), T(!new)>(f: S -> T, less: (S, S) -> bool, image: (T, T) -> bool,
      xs: seq<S>)
    requires forall a, b :: image(f(a), f(b)) == less(a, b)
    ensures Map(f, Sort(less, xs)) == Sort(image, Map(f, xs))
  {
    if xs != [] {
      SortMaps(f, less, image, xs[1..]);
      InsertMaps(f, less, image, xs[0], Sort(less, xs[1..]));
      assert Map(f, xs)[1..] == Map(f, xs[1..]);
    }
  }

  /** A sorted arrangement of a multiset is unique when ties happen only between equal elements. */
  lemma {:induction false} SortedIsUnique<T(!new)>(less: (T, T) -> bool, xs: seq<T>, ys: seq<T>)
    requires multiset(xs) == multiset(ys)
    requires StrictTotalOn(less, xs)
    requires SortedBy(less, xs) && SortedBy(less, ys)
    ensures xs == ys
  {
    SameMultisetSameElements(xs, ys);
    if xs != [] {
      HeadsAgree(less, xs, ys);
      RemoveHead(xs, ys);
      SortedIsUnique(less, xs[1..], ys[1..]);
    }
  }

  lemma RemoveHead<T(!new)>(xs: seq<T>, ys: seq<T>)
    requires xs != [] && ys != [] && xs[0] == ys[0]
    requires multiset(xs) == multiset(ys)
    ensures multiset(xs[1..]) == multiset(ys[1..])
    ensures forall x :: x in xs[1..] ==> x in xs
    ensures xs == [xs[0]] + xs[1..] && ys == [ys[0]] + ys[1..]
  {
    assert xs == [xs[0]] + xs[1..] && ys == [ys[0]] + ys[1..];
    assert multiset(xs[1..]) == multiset(xs) - multiset{xs[0]};
    assert multiset(ys[1..]) == multiset(ys) - multiset{ys[0]};
  }

  lemma HeadsAgree<T(!new)>(less: (T, T) -> bool, xs: seq<T>, ys: seq<T>)
    requires xs != [] && |xs| == |ys| && (forall x :: x in xs <==> x in ys)
    requires StrictTotalOn(less, xs)
    requires SortedBy(less, xs) && SortedBy(less, ys)
    ensures xs[0] == ys[0]
  {
    assert xs[0] in ys && ys[0] in xs;
    var i :| 0 <= i < |ys| && ys[i] == xs[0];
    var j :| 0 <= j < |xs| && xs[j] == ys[0];
    assert i == 0 || !less(ys[i], ys[0]);
    assert j == 0 || !less(xs[j], xs[0]);
  }

  /** Two lists sort to the same list exactly when they hold the same elements equally often. */
  lemma SortIsCanonical<T(!new)>(less: (T, T) -> bool, xs: seq<T>, ys: seq<T>)
    requires StrictTotalOn(less, xs)
    ensures Sort(less, xs) == Sort(less, ys) <==> multiset(xs) == multiset(ys)
  {
    SortPermutes(less, xs);
    SortPermutes(less, ys);
    if multiset(xs) == multiset(ys) {
      SameMultisetSameElements(xs, ys);
      SortSorts(less, xs);
      SortSorts(less, ys);
      SortedIsUnique(less, Sort(less, xs), Sort(less, ys));
    }
  }

  /** A list that is already in order is left alone. */
  lemma SortKeepsSorted<T(!new)>(less: (T, T) -> bool, xs: seq<T>)
    requires StrictTotalOn(less, xs) && SortedBy(less, xs)
    ensures Sort(less, xs) == xs
  {
    SortPermutes(less, xs);
    SortSorts(less, xs);
    SortedIsUnique(less, xs, Sort(less, xs));
  }

  // ── The order of `<` on JavaScript strings ──────────────────────

  ghost predicate StrictTotal<T(!new)>(lt: (T, T) -> bool) {
    && (forall a, b :: !(lt(a, b) && lt(b, a)))
    && (forall a, b :: a == b || lt(a, b) || lt(b, a))
    && (forall a, b, c :: lt(a, b) && lt(b, c) ==> lt(a, c))
  }

  /** Unit by unit; a proper prefix comes first. */
  predicate LexLess<T(==)>(lt: (T, T) -> bool, a: seq<T>, b: seq<T>) {
    if b == [] then false
    else if a == [] then true
    else if a[0] == b[0] then LexLess(lt, a[1..], b[1..])
    else lt(a[0], b[0])
  }

  lemma {:induction false} LexAsymmetric<T(!new)>(lt: (T, T) -> bool, a: seq<T>, b: seq<T>)
    requires StrictTotal(lt)
    ensures !(LexLess(lt, a, b) && LexLess(lt, b, a))
  {
    if a != [] && b != [] && a[0] == b[0] {
      LexAsymmetric(lt, a[1..], b[1..]);
    }
  }

  lemma {:induction false} LexConnected<T(!new)>(lt: (T, T) -> bool, a: seq<T>, b: seq<T>)
    requires StrictTotal(lt)
    ensures a == b || LexLess(lt, a, b) || LexLess(lt, b, a)
  {
    if a != [] && b != [] && a[0] == b[0] {
      LexConnected(lt, a[1..], b[1..]);
      assert a == [a[0]] + a[1..] && b == [b[0]] + b[1..];
    }
  }

  lemma {:induction false} LexTransitive<T(!new)>(lt: (T, T) -> bool, a: seq<T>, b: seq<T>, c: seq<T>)
    requires StrictTotal(lt)
    requires LexLess(lt, a, b) && LexLess(lt, b, c)
    ensures LexLess(lt, a, c)
  {
    if a != [] && a[0] == b[0] && b[0] == c[0] {
      LexTransitive(lt, a[1..], b[1..], c[1..]);
    }
  }
}
