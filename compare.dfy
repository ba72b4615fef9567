/**
 * Comparators and the in-memory sort both engines use.
 *
 * A comparator is a two-argument function returning an `Ordering`, as the
 * closures `Fn(&T, &T) -> Ordering` of the push engine and the natural order
 * `Ord` of the older engine. `SortBy` is the model of `sort_unstable_by`
 * (and of its parallel twin): it returns one sorted permutation of its input.
 */
module Compare {

  datatype Ordering = Less | Equal | Greater

  /** `a` does not come after `b`. */
  predicate Le<T>(cmp: (T, T) -> Ordering, a: T, b: T) {
    cmp(a, b) != Greater
  }

  /** Transitivity of `Le` at one triple; a separate predicate so that it is used only where a proof asks for it. */
  ghost predicate TransitiveAt<T>(cmp: (T, T) -> Ordering, a: T, b: T, c: T) {
    Le(cmp, a, b) && Le(cmp, b, c) ==> Le(cmp, a, c)
  }

  /** What a sort comparator must be: antisymmetric in its answers and transitive. */
  ghost predicate TotalPreorder<T(!new)>(cmp: (T, T) -> Ordering) {
    && (forall a, b :: cmp(a, b) == Less <==> cmp(b, a) == Greater)
    && (forall a, b, c :: TransitiveAt(cmp, a, b, c))
  }

  lemma LeTrans<T(!new)>(cmp: (T, T) -> Ordering, a: T, b: T, c: T)
    requires TotalPreorder(cmp)
    requires Le(cmp, a, b) && Le(cmp, b, c)
    ensures Le(cmp, a, c)
  {
    assert TransitiveAt(cmp, a, b, c);
  }

  /** The natural order `Ord` of a record type: a preorder whose ties are equal values. */
  ghost predicate TotalOrder<T(!new)>(cmp: (T, T) -> Ordering) {
    && TotalPreorder(cmp)
    && (forall a, b :: cmp(a, b) == Equal ==> a == b)
  }

  ghost predicate SortedBy<T>(cmp: (T, T) -> Ordering, s: seq<T>) {
    forall i, j :: 0 <= i < j < |s| ==> Le(cmp, s[i], s[j])
  }

  /** `v` does not come after any element of `s`. */
  ghost predicate LeAll<T>(cmp: (T, T) -> Ordering, v: T, s: seq<T>) {
    forall i :: 0 <= i < |s| ==> Le(cmp, v, s[i])
  }

  lemma LeTotal<T(!new)>(cmp: (T, T) -> Ordering, a: T, b: T)
    requires TotalPreorder(cmp)
    ensures Le(cmp, a, b) || Le(cmp, b, a)
  {
    if !Le(cmp, a, b) {
      assert cmp(a, b) == Greater;
      assert cmp(b, a) == Less;
    }
  }

  lemma LeRefl<T(!new)>(cmp: (T, T) -> Ordering, a: T)
    requires TotalPreorder(cmp)
    ensures Le(cmp, a, a)
  {
    assert cmp(a, a) == Less <==> cmp(a, a) == Greater;
  }

  /** Inserts `x` before the first element it does not come after. */
  function Insert<T>(cmp: (T, T) -> Ordering, x: T, s: seq<T>): seq<T> {
    if s == [] then [x]
    else if Le(cmp, x, s[0]) then [x] + s
    else [s[0]] + Insert(cmp, x, s[1..])
  }

  /** Insertion sort: the model of `sort_unstable_by(cmp)` and `par_sort_unstable_by(cmp)`. */
  function SortBy<T>(cmp: (T, T) -> Ordering, s: seq<T>): seq<T> {
    if s == [] then [] else Insert(cmp, s[0], SortBy(cmp, s[1..]))
  }

  lemma {:induction false} InsertPermutation<T>(cmp: (T, T) -> Ordering, x: T, s: seq<T>)
    ensures multiset(Insert(cmp, x, s)) == multiset(s) + multiset{x}
    ensures |Insert(cmp, x, s)| == |s| + 1
  {
    if s != [] && !Le(cmp, x, s[0]) {
      InsertPermutation(cmp, x, s[1..]);
      assert s == [s[0]] + s[1..];
    }
  }

  lemma {:induction false} InsertSorted<T(!new)>(cmp: (T, T) -> Ordering, x: T, s: seq<T>)
    requires TotalPreorder(cmp)
    requires SortedBy(cmp, s)
    ensures SortedBy(cmp, Insert(cmp, x, s))
  {
    if s == [] {
    } else if Le(cmp, x, s[0]) {
      var r := [x] + s;
      forall i, j | 0 <= i < j < |r| ensures Le(cmp, r[i], r[j]) {
        if i == 0 && j > 1 {
          assert Le(cmp, s[0], s[j - 1]);
          LeTrans(cmp, x, s[0], s[j - 1]);
        }
      }
    } else {
      var t := s[1..];
      SortedTail(cmp, s);
      InsertSorted(cmp, x, t);
      InsertPermutation(cmp, x, t);
      var it := Insert(cmp, x, t);
      var u := t + [x];
      assert LeAll(cmp, s[0], u) by {
        forall k | 0 <= k < |u| ensures Le(cmp, s[0], u[k]) {
          if k < |t| {
            assert u[k] == s[k + 1];
          } else {
            LeTotal(cmp, x, s[0]);
          }
        }
      }
      assert multiset(u) == multiset(t) + multiset{x};
      LeAllSub(cmp, s[0], it, u);
      SortedCons(cmp, s[0], it);
    }
  }

  /** `SortBy` returns a sorted permutation of its input. */
  lemma {:induction false} SortByCorrect<T(!new)>(cmp: (T, T) -> Ordering, s: seq<T>)
    requires TotalPreorder(cmp)
    ensures SortedBy(cmp, SortBy(cmp, s))
    ensures multiset(SortBy(cmp, s)) == multiset(s)
    ensures |SortBy(cmp, s)| == |s|
  {
    SortByPermutation(cmp, s);
    if s != [] {
      SortByCorrect(cmp, s[1..]);
      InsertSorted(cmp, s[0], SortBy(cmp, s[1..]));
    }
  }

  /** `SortBy` loses and duplicates nothing, whatever the comparator. */
  lemma {:induction false} SortByPermutation<T>(cmp: (T, T) -> Ordering, s: seq<T>)
    ensures multiset(SortBy(cmp, s)) == multiset(s)
    ensures |SortBy(cmp, s)| == |s|
  {
    if s != [] {
      SortByPermutation(cmp, s[1..]);
      InsertPermutation(cmp, s[0], SortBy(cmp, s[1..]));
      assert s == [s[0]] + s[1..];
    }
  }

  /** A value that does not come after any element of `b` does not come after any element of a sub-multiset of it. */
  lemma LeAllSub<T>(cmp: (T, T) -> Ordering, v: T, a: seq<T>, b: seq<T>)
    requires multiset(a) <= multiset(b)
    requires LeAll(cmp, v, b)
    ensures LeAll(cmp, v, a)
  {
    forall i | 0 <= i < |a| ensures Le(cmp, v, a[i]) {
      assert a[i] in multiset(a);
      assert a[i] in multiset(b);
      assert a[i] in b;
      var j :| 0 <= j < |b| && b[j] == a[i];
    }
  }

  /** Prepending a value that comes before everything keeps a sequence sorted. */
  lemma SortedCons<T>(cmp: (T, T) -> Ordering, v: T, s: seq<T>)
    requires SortedBy(cmp, s)
    requires LeAll(cmp, v, s)
    ensures SortedBy(cmp, [v] + s)
  {
    var r := [v] + s;
    forall i, j | 0 <= i < j < |r| ensures Le(cmp, r[i], r[j]) {
      assert r[j] == s[j - 1];
      if i > 0 {
        assert r[i] == s[i - 1];
      }
    }
  }

  /** The tail of a sorted sequence is sorted. */
  lemma SortedTail<T>(cmp: (T, T) -> Ordering, s: seq<T>)
    requires SortedBy(cmp, s) && s != []
    ensures SortedBy(cmp, s[1..])
  {
    forall p, q | 0 <= p < q < |s[1..]| ensures Le(cmp, s[1..][p], s[1..][q]) {
      assert s[1..][p] == s[p + 1] && s[1..][q] == s[q + 1];
    }
  }

  /** Under a total order, two non-empty sorted sequences with the same elements start with the same element. */
  lemma SortedHeadsEqual<T(!new)>(cmp: (T, T) -> Ordering, a: seq<T>, b: seq<T>)
    requires TotalOrder(cmp)
    requires SortedBy(cmp, a) && SortedBy(cmp, b)
    requires multiset(a) == multiset(b) && a != [] && b != []
    ensures a[0] == b[0]
  {
    assert a[0] in multiset(b) && b[0] in multiset(a);
    assert a[0] in b && b[0] in a;
    var i :| 0 <= i < |b| && b[i] == a[0];
    var j :| 0 <= j < |a| && a[j] == b[0];
    assert Le(cmp, b[0], a[0]) by {
      if i > 0 { assert Le(cmp, b[0], b[i]); }
    }
    assert Le(cmp, a[0], b[0]) by {
      if j > 0 { assert Le(cmp, a[0], a[j]); }
    }
    assert cmp(a[0], b[0]) == Equal by {
      assert cmp(a[0], b[0]) == Less <==> cmp(b[0], a[0]) == Greater;
    }
  }

  /** Removing the first element from two sequences that agree on it keeps their multisets equal. */
  lemma TailsPermutation<T>(a: seq<T>, b: seq<T>)
    requires multiset(a) == multiset(b) && a != [] && b != [] && a[0] == b[0]
    ensures multiset(a[1..]) == multiset(b[1..])
  {
    assert a == [a[0]] + a[1..] && b == [b[0]] + b[1..];
    assert multiset(a[1..]) == multiset(a) - multiset{a[0]};
    assert multiset(b[1..]) == multiset(b) - multiset{b[0]};
  }

  /**
   * Under a total order, a sorted permutation is unique: any two sorted
   * sequences with the same elements are equal.
   */
  lemma {:induction false} SortedPermutationUnique<T(!new)>(cmp: (T, T) -> Ordering, a: seq<T>, b: seq<T>)
    requires TotalOrder(cmp)
    requires SortedBy(cmp, a) && SortedBy(cmp, b)
    requires multiset(a) == multiset(b)
    ensures a == b
  {
    assert |b| == |multiset(b)| == |multiset(a)| == |a|;
    if a != [] {
      SortedHeadsEqual(cmp, a, b);
      TailsPermutation(a, b);
      SortedTail(cmp, a);
      SortedTail(cmp, b);
      SortedPermutationUnique(cmp, a[1..], b[1..]);
      assert a == [a[0]] + a[1..] && b == [b[0]] + b[1..];
    }
  }

  /** Under a total order, `SortBy` yields the one sorted permutation of its input. */
  lemma SortByUnique<T(!new)>(cmp: (T, T) -> Ordering, s: seq<T>, r: seq<T>)
    requires TotalOrder(cmp)
    requires SortedBy(cmp, r) && multiset(r) == multiset(s)
    ensures SortBy(cmp, s) == r
  {
    SortByCorrect(cmp, s);
    SortedPermutationUnique(cmp, SortBy(cmp, s), r);
  }
}
