/**
 * Sequence operations that the source expresses with JavaScript's array
 * methods: `filter`, `flatMap`, a stable `sort` with a comparator, `slice`,
 * and `Map` objects that iterate in insertion order.
 */
module Seqs {
  import opened Wrappers

  // ---------------------------------------------------------------------
  // filter
  // ---------------------------------------------------------------------

  /** `s.filter(p)`: the elements satisfying `p`, in their original order. */
  function Filter<T>(s: seq<T>, p: T -> bool): (r: seq<T>)
    ensures |r| <= |s|
  {
    if |s| == 0 then []
    else (if p(s[0]) then [s[0]] else []) + Filter(s[1..], p)
  }

  /** An element survives the filter exactly when it is in `s` and passes `p`. */
  lemma {:induction false} FilterMembers<T>(s: seq<T>, p: T -> bool)
    ensures forall x | x in Filter(s, p) :: x in s && p(x)
    ensures forall x | x in s && p(x) :: x in Filter(s, p)
  {
    if |s| > 0 {
      FilterMembers(s[1..], p);
      assert s == [s[0]] + s[1..];
    }
  }

  /** The filter only drops elements. */
  lemma {:induction false} FilterMultiset<T>(s: seq<T>, p: T -> bool)
    ensures multiset(Filter(s, p)) <= multiset(s)
  {
    if |s| > 0 {
      FilterMultiset(s[1..], p);
      assert s == [s[0]] + s[1..];
    }
  }

  lemma {:induction false} FilterConcat<T>(a: seq<T>, b: seq<T>, p: T -> bool)
    ensures Filter(a + b, p) == Filter(a, p) + Filter(b, p)
  {
    if |a| == 0 {
      assert a + b == b;
    } else {
      var h := if p(a[0]) then [a[0]] else [];
      FilterConcat(a[1..], b, p);
      assert Filter(a + b, p) == h + Filter(a[1..] + b, p) by {
        assert a + b == [a[0]] + (a[1..] + b);
        FilterCons(a[0], a[1..] + b, p);
      }
      assert Filter(a, p) == h + Filter(a[1..], p) by {
        assert a == [a[0]] + a[1..];
        FilterCons(a[0], a[1..], p);
      }
    }
  }

  /** Appending one element: the step a loop over a prefix takes. */
  lemma FilterSnoc<T>(s: seq<T>, x: T, p: T -> bool)
    ensures Filter(s + [x], p) == Filter(s, p) + (if p(x) then [x] else [])
  {
    FilterConcat(s, [x], p);
  }

  /** Two predicates that agree on the elements give the same result. */
  lemma {:induction false} FilterCongruent<T>(s: seq<T>, p: T -> bool, q: T -> bool)
    requires forall x :: x in s ==> p(x) == q(x)
    ensures Filter(s, p) == Filter(s, q)
  {
    if |s| > 0 {
      FilterCongruent(s[1..], p, q);
    }
  }

  lemma {:induction false} FilterAll<T>(s: seq<T>, p: T -> bool)
    requires forall x :: x in s ==> p(x)
    ensures Filter(s, p) == s
  {
    if |s| > 0 {
      FilterAll(s[1..], p);
    }
  }

  lemma {:induction false} FilterNone<T>(s: seq<T>, p: T -> bool)
    requires forall x :: x in s ==> !p(x)
    ensures Filter(s, p) == []
  {
    if |s| > 0 {
      FilterNone(s[1..], p);
    }
  }

  /** Splitting by a second predicate splits the multiset of the result. */
  lemma {:induction false} FilterSplit<T>(s: seq<T>, p: T -> bool, q: T -> bool, pq: T -> bool, pnq: T -> bool)
    requires forall x :: pq(x) == (p(x) && q(x))
    requires forall x :: pnq(x) == (p(x) && !q(x))
    ensures multiset(Filter(s, p)) == multiset(Filter(s, pq)) + multiset(Filter(s, pnq))
  {
    if |s| > 0 {
      FilterSplit(s[1..], p, q, pq, pnq);
    }
  }

  /** `s.findIndex(p)`, as an option: the first position whose element passes `p`. */
  function FindFirst<T>(s: seq<T>, p: T -> bool): (r: Option<nat>)
    ensures r.Some? ==> r.value < |s| && p(s[r.value]) && forall i :: 0 <= i < r.value ==> !p(s[i])
    ensures r.None? ==> forall i :: 0 <= i < |s| ==> !p(s[i])
  {
    if |s| == 0 then None
    else if p(s[0]) then Some(0)
    else match FindFirst(s[1..], p)
      case None => None
      case Some(i) => Some(i + 1)
  }

  /** Searching one element further: the step of a search over growing prefixes. */
  lemma {:induction false} FindFirstSnoc<T>(s: seq<T>, x: T, p: T -> bool)
    ensures FindFirst(s + [x], p) == match FindFirst(s, p)
      case Some(i) => Some(i)
      case None => if p(x) then Some(|s|) else None
  {
    var t := s + [x];
    if |s| == 0 {
      assert t == [x];
    } else {
      assert t[0] == s[0] && t[1..] == s[1..] + [x];
      FindFirstSnoc(s[1..], x, p);
    }
  }

  /** A weaker predicate keeps at least the same elements. */
  lemma {:induction false} FilterWeaker<T>(s: seq<T>, p: T -> bool, q: T -> bool)
    requires forall x | x in s :: p(x) ==> q(x)
    ensures multiset(Filter(s, p)) <= multiset(Filter(s, q))
  {
    if |s| > 0 {
      FilterWeaker(s[1..], p, q);
    }
  }

  /** Permuting the input permutes what the filter keeps. */
  /** A sequence is what comes before position `k`, the element there, and what comes after. */
  lemma SplitAt<T>(b: seq<T>, k: nat)
    requires k < |b|
    ensures b == (b[..k] + [b[k]]) + b[k + 1..]
  {
  }

  /** Filtering a list with one element cut out loses at most that element. */
  lemma FilterRemove<T>(b: seq<T>, k: nat, p: T -> bool)
    requires k < |b|
    ensures multiset(Filter(b, p)) == multiset(Filter(b[..k] + b[k + 1..], p)) + (if p(b[k]) then multiset{b[k]} else multiset{})
  {
    var pre, x, post := b[..k], b[k], b[k + 1..];
    SplitAt(b, k);
    FilterConcat(pre + [x], post, p);
    FilterConcat(pre, [x], p);
    FilterConcat(pre, post, p);
    var fx := Filter([x], p);
    assert fx == (if p(x) then [x] else []) by {
      FilterCons(x, [], p);
      assert [x] + [] == [x];
    }
    var fpre, fpost := Filter(pre, p), Filter(post, p);
    assert Filter(b, p) == fpre + fx + fpost;
    assert Filter(pre + post, p) == fpre + fpost;
    assert multiset(fpre + fx + fpost) == multiset(fpre) + multiset(fx) + multiset(fpost);
  }

  lemma {:induction false} FilterPermutation<T>(a: seq<T>, b: seq<T>, p: T -> bool)
    requires multiset(a) == multiset(b)
    ensures multiset(Filter(a, p)) == multiset(Filter(b, p))
  {
    if |a| == 0 {
      assert |b| == |multiset(b)| == 0;
    } else {
      var x := a[0];
      assert x in multiset(b);
      var k :| 0 <= k < |b| && b[k] == x;
      assert b == b[..k] + [x] + b[k + 1..];
      var rest := b[..k] + b[k + 1..];
      assert a == [x] + a[1..];
      assert multiset(rest) == multiset(b) - multiset{x};
      FilterPermutation(a[1..], rest, p);
      FilterRemove(b, k, p);
      FilterCons(x, a[1..], p);
    }
  }


  /** A sub-multiset is no larger. */
  lemma SubMultisetSize<T>(a: multiset<T>, b: multiset<T>)
    requires a <= b
    ensures |a| <= |b|
  {
    assert b == a + (b - a);
  }

  /** When at most one position passes `p`, the filter keeps at most one element. */
  lemma {:induction false} FilterAtMostOne<T>(s: seq<T>, p: T -> bool)
    requires forall i, j :: 0 <= i < |s| && 0 <= j < |s| && p(s[i]) && p(s[j]) ==> i == j
    ensures |Filter(s, p)| <= 1
  {
    if |s| > 0 {
      if p(s[0]) {
        forall x | x in s[1..] ensures !p(x) {
          var k :| 0 <= k < |s[1..]| && s[1..][k] == x;
          assert s[k + 1] == x;
        }
        FilterNone(s[1..], p);
      } else {
        forall i, j | 0 <= i < |s[1..]| && 0 <= j < |s[1..]| && p(s[1..][i]) && p(s[1..][j]) ensures i == j {
          assert s[1..][i] == s[i + 1] && s[1..][j] == s[j + 1];
        }
        FilterAtMostOne(s[1..], p);
      }
    }
  }

  /** Two positions passing `p` leave at least two elements. */
  lemma FilterTwo<T>(s: seq<T>, p: T -> bool, i: nat, j: nat)
    requires i < j < |s| && p(s[i]) && p(s[j])
    ensures |Filter(s, p)| >= 2
  {
    assert s == s[..j] + s[j..];
    FilterConcat(s[..j], s[j..], p);
    FilterMembers(s[..j], p);
    FilterMembers(s[j..], p);
    assert s[..j][i] == s[i] && s[j..][0] == s[j];
    assert s[i] in Filter(s[..j], p);
    assert s[j] in Filter(s[j..], p);
  }

  /** Filtering first by another predicate keeps no more. */
  lemma {:induction false} FilterFilterSub<T>(s: seq<T>, p: T -> bool, q: T -> bool)
    ensures multiset(Filter(Filter(s, p), q)) <= multiset(Filter(s, q))
  {
    if |s| > 0 {
      FilterFilterSub(s[1..], p, q);
      var h := if p(s[0]) then [s[0]] else [];
      FilterConcat(h, Filter(s[1..], p), q);
      if p(s[0]) {
        FilterCons(s[0], [], q);
      }
    }
  }

  /** `s.map(f)`. */
  function MapSeq<A, B>(s: seq<A>, f: A -> B): (r: seq<B>)
    ensures |r| == |s|
    ensures forall i :: 0 <= i < |s| ==> r[i] == f(s[i])
  {
    seq(|s|, i requires 0 <= i < |s| => f(s[i]))
  }

  lemma MapSeqConcat<A, B>(a: seq<A>, b: seq<A>, f: A -> B)
    ensures MapSeq(a + b, f) == MapSeq(a, f) + MapSeq(b, f)
  {
  }

  /** No two elements share a key. */
  ghost predicate DistinctBy<T, K>(s: seq<T>, key: T -> K) {
    forall i, j :: 0 <= i < j < |s| ==> key(s[i]) != key(s[j])
  }

  /** Distinct keys survive any reordering. */
  lemma DistinctByPermutation<T, K>(a: seq<T>, b: seq<T>, key: T -> K)
    requires multiset(a) == multiset(b) && DistinctBy(a, key)
    ensures DistinctBy(b, key)
  {
    forall i, j | 0 <= i < j < |b| ensures key(b[i]) != key(b[j]) {
      if key(b[i]) == key(b[j]) {
        var p := HasKey(key, key(b[i]));
        FilterTwo(b, p, i, j);
        FilterPermutation(a, b, p);
        assert |Filter(a, p)| == |multiset(Filter(a, p))| == |multiset(Filter(b, p))| == |Filter(b, p)|;
        FilterAtMostOne(a, p);
        assert false;
      }
    }
  }

  // ---------------------------------------------------------------------
  // flatMap
  // ---------------------------------------------------------------------

  /** `s.flatMap(f)`. */
  function FlatMap<A, B>(s: seq<A>, f: A -> seq<B>): (r: seq<B>)
  {
    if |s| == 0 then [] else f(s[0]) + FlatMap(s[1..], f)
  }

  lemma {:induction false} FlatMapConcat<A, B>(a: seq<A>, b: seq<A>, f: A -> seq<B>)
    ensures FlatMap(a + b, f) == FlatMap(a, f) + FlatMap(b, f)
  {
    if |a| == 0 {
      assert a + b == b;
    } else {
      assert (a + b)[1..] == a[1..] + b;
      FlatMapConcat(a[1..], b, f);
    }
  }

  /** Reordering the outer sequence does not change the multiset of all inner elements. */
  lemma {:induction false} FlatMapPermutation<A, B>(a: seq<A>, b: seq<A>, f: A -> seq<B>)
    requires multiset(a) == multiset(b)
    ensures multiset(FlatMap(a, f)) == multiset(FlatMap(b, f))
  {
    if |a| == 0 {
      assert |b| == |multiset(b)| == 0;
    } else {
      var x := a[0];
      assert x in multiset(b);
      var k :| 0 <= k < |b| && b[k] == x;
      assert b == b[..k] + [x] + b[k + 1..];
      var rest := b[..k] + b[k + 1..];
      assert a == [x] + a[1..];
      assert multiset(rest) == multiset(b) - multiset{x};
      FlatMapPermutation(a[1..], rest, f);
      FlatMapConcat(b[..k] + [x], b[k + 1..], f);
      FlatMapConcat(b[..k], [x], f);
      FlatMapConcat(b[..k], b[k + 1..], f);
      assert FlatMap([x], f) == f(x);
    }
  }

  // ---------------------------------------------------------------------
  // sum and slice
  // ---------------------------------------------------------------------

  function Sum(s: seq<int>): int {
    if |s| == 0 then 0 else s[0] + Sum(s[1..])
  }

  lemma {:induction false} SumConcat(a: seq<int>, b: seq<int>)
    ensures Sum(a + b) == Sum(a) + Sum(b)
  {
    if |a| == 0 {
      assert a + b == b;
    } else {
      assert (a + b)[1..] == a[1..] + b;
      SumConcat(a[1..], b);
    }
  }

  /** `s.slice(0, n)` for `n >= 0`. */
  function Take<T>(s: seq<T>, n: nat): (r: seq<T>)
    ensures |r| == if n < |s| then n else |s|
    ensures r <= s
  {
    if n < |s| then s[..n] else s
  }

  /** `s.slice(-n)` for `n > 0`: the last `n` elements, or all of them. */
  function TakeLast<T>(s: seq<T>, n: nat): (r: seq<T>)
    requires n > 0
    ensures |r| == if n < |s| then n else |s|
    ensures forall i :: 0 <= i < |r| ==> r[i] == s[|s| - |r| + i]
  {
    if n < |s| then s[|s| - n..] else s
  }

  /** An element at or past the cut is kept. */
  lemma TakeLastKeeps<T>(s: seq<T>, n: nat, m: nat)
    requires n > 0 && m < |s|
    ensures |s| - |TakeLast(s, n)| <= m ==> s[m] in TakeLast(s, n)
  {
    var d := |s| - |TakeLast(s, n)|;
    if d <= m {
      assert TakeLast(s, n)[m - d] == s[m];
    }
  }

  // ---------------------------------------------------------------------
  // stable sort
  // ---------------------------------------------------------------------

  /**
   * `before(a, b)` holds when a comparator puts `a` strictly before `b`.
   * JavaScript's `Array.prototype.sort` is stable, and for a comparator that
   * is a strict weak order its result is the unique stable ordering.
   */
  ghost predicate StrictWeakOrder<T(!new)>(before: (T, T) -> bool) {
    && (forall a, b :: before(a, b) ==> !before(b, a))
    && (forall a, b, c {:trigger before(a, b), before(b, c), before(a, c)} :: before(a, c) ==> before(a, b) || before(b, c))
  }

  /** No element is strictly before an element that precedes it. */
  ghost predicate SortedBy<T>(s: seq<T>, before: (T, T) -> bool) {
    forall i, j :: 0 <= i < j < |s| ==> !before(s[j], s[i])
  }

  /** Neither is strictly before the other: a tie. */
  function TiedWith<T>(before: (T, T) -> bool, x: T): T -> bool {
    y => !before(y, x) && !before(x, y)
  }

  /** Places `x` after every element strictly before it and ahead of the rest. */
  function Insert<T>(x: T, s: seq<T>, before: (T, T) -> bool): (r: seq<T>)
    ensures |r| == |s| + 1
  {
    if |s| == 0 then [x]
    else if before(s[0], x) then [s[0]] + Insert(x, s[1..], before)
    else [x] + s
  }

  /** A stable sort: insertion of each element, earliest last, so ties keep input order. */
  function SortBy<T>(s: seq<T>, before: (T, T) -> bool): (r: seq<T>)
    ensures |r| == |s|
  {
    if |s| == 0 then []
    else Insert(s[0], SortBy(s[1..], before), before)
  }

  lemma {:induction false} InsertMultiset<T>(x: T, s: seq<T>, before: (T, T) -> bool)
    ensures multiset(Insert(x, s, before)) == multiset(s) + multiset{x}
  {
    if |s| > 0 && before(s[0], x) {
      InsertMultiset(x, s[1..], before);
      assert s == [s[0]] + s[1..];
    }
  }

  /** The sort is a permutation of its input. */
  lemma {:induction false} SortByMultiset<T>(s: seq<T>, before: (T, T) -> bool)
    ensures multiset(SortBy(s, before)) == multiset(s)
  {
    if |s| > 0 {
      SortByMultiset(s[1..], before);
      InsertMultiset(s[0], SortBy(s[1..], before), before);
      assert s == [s[0]] + s[1..];
    }
  }

  lemma SortedCons<T>(x: T, s: seq<T>, before: (T, T) -> bool)
    requires SortedBy(s, before)
    requires forall y :: y in s ==> !before(y, x)
    ensures SortedBy([x] + s, before)
  {
    var t := [x] + s;
    forall i, j | 0 <= i < j < |t| ensures !before(t[j], t[i]) {
      if i > 0 {
        assert t[i] == s[i - 1] && t[j] == s[j - 1];
      } else {
        assert t[j] == s[j - 1] && t[j] in s;
      }
    }
  }

  lemma {:induction false} InsertSorted<T(!new)>(x: T, s: seq<T>, before: (T, T) -> bool)
    requires StrictWeakOrder(before)
    requires SortedBy(s, before)
    ensures SortedBy(Insert(x, s, before), before)
  {
    if |s| == 0 {
    } else if before(s[0], x) {
      var rest := Insert(x, s[1..], before);
      assert SortedBy(s[1..], before) by {
        forall i, j | 0 <= i < j < |s[1..]| ensures !before(s[1..][j], s[1..][i]) {
          assert s[1..][j] == s[j + 1] && s[1..][i] == s[i + 1];
        }
      }
      InsertSorted(x, s[1..], before);
      InsertMultiset(x, s[1..], before);
      forall y | y in rest ensures !before(y, s[0]) {
        assert y in multiset(rest);
        assert y == x || y in multiset(s[1..]);
        if y != x {
          var k :| 0 <= k < |s[1..]| && s[1..][k] == y;
          assert s[k + 1] == y;
        }
      }
      SortedCons(s[0], rest, before);
    } else {
      forall y | y in s ensures !before(y, x) {
        var k :| 0 <= k < |s| && s[k] == y;
        if k > 0 {
          assert !before(s[k], s[0]);
        }
      }
      SortedCons(x, s, before);
    }
  }

  /** The sort orders its result. */
  lemma {:induction false} SortBySorted<T(!new)>(s: seq<T>, before: (T, T) -> bool)
    requires StrictWeakOrder(before)
    ensures SortedBy(SortBy(s, before), before)
  {
    if |s| > 0 {
      SortBySorted(s[1..], before);
      InsertSorted(s[0], SortBy(s[1..], before), before);
    }
  }

  lemma FilterCons<T>(a: T, t: seq<T>, p: T -> bool)
    ensures Filter([a] + t, p) == (if p(a) then [a] else []) + Filter(t, p)
  {
    assert ([a] + t)[1..] == t;
  }

  /** Whatever is strictly before a member of `v`'s tie class is not in it. */
  lemma BeforeTied<T(!new)>(before: (T, T) -> bool, a: T, x: T, v: T)
    requires StrictWeakOrder(before)
    requires before(a, x) && TiedWith(before, v)(x)
    ensures !TiedWith(before, v)(a)
  {
    assert before(a, v) || before(v, x);
  }

  /** Insertion keeps the filtered order when nothing `x` passes can be filtered in. */
  lemma {:induction false} InsertFilter<T>(x: T, s: seq<T>, before: (T, T) -> bool, e: T -> bool)
    requires e(x) ==> forall a | a in s && before(a, x) :: !e(a)
    ensures Filter(Insert(x, s, before), e) == (if e(x) then [x] else []) + Filter(s, e)
  {
    if |s| == 0 {
      assert Insert(x, s, before) == [x] + [];
      FilterCons(x, [], e);
    } else if before(s[0], x) {
      InsertFilter(x, s[1..], before, e);
      InsertFilterPassed(x, s, before, e);
    } else {
      assert Insert(x, s, before) == [x] + s;
      FilterCons(x, s, e);
    }
  }

  /** The step of `InsertFilter` where `x` moves past the head of `s`. */
  lemma InsertFilterPassed<T>(x: T, s: seq<T>, before: (T, T) -> bool, e: T -> bool)
    requires |s| > 0 && before(s[0], x)
    requires e(x) ==> !e(s[0])
    requires Filter(Insert(x, s[1..], before), e) == (if e(x) then [x] else []) + Filter(s[1..], e)
    ensures Filter(Insert(x, s, before), e) == (if e(x) then [x] else []) + Filter(s, e)
  {
    var rest := Insert(x, s[1..], before);
    var h := if e(s[0]) then [s[0]] else [];
    assert Filter(Insert(x, s, before), e) == h + Filter(rest, e) by {
      assert Insert(x, s, before) == [s[0]] + rest;
      FilterCons(s[0], rest, e);
    }
    assert Filter(s, e) == h + Filter(s[1..], e) by {
      assert s == [s[0]] + s[1..];
      FilterCons(s[0], s[1..], e);
    }
    if e(x) {
      assert h == [];
      assert h + Filter(rest, e) == Filter(rest, e);
      assert h + Filter(s[1..], e) == Filter(s[1..], e);
    } else {
      assert Filter(rest, e) == Filter(s[1..], e);
      assert [] + Filter(s, e) == Filter(s, e);
    }
  }

  lemma InsertStable<T(!new)>(x: T, s: seq<T>, before: (T, T) -> bool, v: T)
    requires StrictWeakOrder(before)
    ensures Filter(Insert(x, s, before), TiedWith(before, v))
         == (if TiedWith(before, v)(x) then [x] else []) + Filter(s, TiedWith(before, v))
  {
    var e := TiedWith(before, v);
    if e(x) {
      forall a | a in s && before(a, x) ensures !e(a) {
        BeforeTied(before, a, x, v);
      }
    }
    InsertFilter(x, s, before, e);
  }

  /** The sort is stable: the elements tied with any `v` keep their input order. */
  lemma {:induction false} SortByStable<T(!new)>(s: seq<T>, before: (T, T) -> bool, v: T)
    requires StrictWeakOrder(before)
    ensures Filter(SortBy(s, before), TiedWith(before, v)) == Filter(s, TiedWith(before, v))
  {
    if |s| > 0 {
      SortByStable(s[1..], before, v);
      InsertStable(s[0], SortBy(s[1..], before), before, v);
    }
  }

  /** An already ordered input comes back unchanged. */
  lemma {:induction false} SortByIdentity<T>(s: seq<T>, before: (T, T) -> bool)
    requires SortedBy(s, before)
    ensures SortBy(s, before) == s
  {
    if |s| > 0 {
      assert SortedBy(s[1..], before) by {
        forall i, j | 0 <= i < j < |s[1..]| ensures !before(s[1..][j], s[1..][i]) {
          assert s[1..][j] == s[j + 1] && s[1..][i] == s[i + 1];
        }
      }
      SortByIdentity(s[1..], before);
      if |s| > 1 {
        assert !before(s[1], s[0]);
        assert s[1..][0] == s[1];
      }
      assert s == [s[0]] + s[1..];
    }
  }

  // ---------------------------------------------------------------------
  // Map objects: sequences of entries in insertion order
  // ---------------------------------------------------------------------

  function Keys<K, V>(m: seq<(K, V)>): (ks: seq<K>)
    ensures |ks| == |m|
    ensures forall i :: 0 <= i < |m| ==> ks[i] == m[i].0
  {
    seq(|m|, i requires 0 <= i < |m| => m[i].0)
  }

  function Values<K, V>(m: seq<(K, V)>): (vs: seq<V>)
    ensures |vs| == |m|
    ensures forall i :: 0 <= i < |m| ==> vs[i] == m[i].1
  {
    seq(|m|, i requires 0 <= i < |m| => m[i].1)
  }

  ghost predicate DistinctKeys<K, V>(m: seq<(K, V)>) {
    forall i, j :: 0 <= i < j < |m| ==> m[i].0 != m[j].0
  }

  /** Position of key `k`, the first one if it occurs twice. */
  function IndexOf<K(==), V>(m: seq<(K, V)>, k: K): (r: Option<nat>)
    ensures r.Some? ==> r.value < |m| && m[r.value].0 == k && forall j :: 0 <= j < r.value ==> m[j].0 != k
    ensures r.None? <==> forall j :: 0 <= j < |m| ==> m[j].0 != k
  {
    if |m| == 0 then None
    else if m[0].0 == k then Some(0)
    else match IndexOf(m[1..], k)
      case None => None
      case Some(i) => Some(i + 1)
  }

  /** `m.get(k)`. */
  function Get<K(==), V>(m: seq<(K, V)>, k: K): (r: Option<V>)
    ensures r.Some? <==> k in Keys(m)
  {
    match IndexOf(m, k)
    case Some(i) => Some(m[i].1)
    case None => None
  }

  /** A present key is overwritten in place. */
  lemma PutPresent<K, V>(m: seq<(K, V)>, k: K, v: V, i: nat)
    requires IndexOf(m, k) == Some(i)
    ensures Put(m, k, v) == m[i := (k, v)]
  {
  }

  /** Map.set keeps keys distinct. */
  lemma PutDistinct<K, V>(m: seq<(K, V)>, k: K, v: V)
    requires DistinctKeys(m)
    ensures DistinctKeys(Put(m, k, v))
    ensures forall i :: 0 <= i < |m| && m[i].0 != k ==> Put(m, k, v)[i] == m[i]
  {
    if k !in Keys(m) {
      assert forall i :: 0 <= i < |m| ==> m[i].0 != k;
    }
  }

  /** `m.set(k, v)`: replaces the value in place when `k` is present, else appends the entry. */
  function Put<K(==), V>(m: seq<(K, V)>, k: K, v: V): (r: seq<(K, V)>)
    ensures k in Keys(m) ==> |r| == |m|
    ensures k !in Keys(m) ==> r == m + [(k, v)]
  {
    match IndexOf(m, k)
    case Some(i) => m[i := (k, v)]
    case None => m + [(k, v)]
  }

  // ---------------------------------------------------------------------
  // grouping into a Map of arrays, and counting into a Map of numbers
  // ---------------------------------------------------------------------

  function HasKey<T, K(==)>(key: T -> K, k: K): T -> bool {
    x => key(x) == k
  }

  /** `if (!m.has(k)) m.set(k, []); m.get(k)!.push(x)`. */
  function AddTo<K(==), T>(m: seq<(K, seq<T>)>, k: K, x: T): seq<(K, seq<T>)> {
    Put(m, k, Get(m, k).GetOr([]) + [x])
  }

  lemma AddToNew<K, T>(m: seq<(K, seq<T>)>, k: K, x: T)
    requires IndexOf(m, k).None?
    ensures AddTo(m, k, x) == m + [(k, [x])]
  {
    assert k !in Keys(m);
    assert Get(m, k).GetOr([]) + [x] == [x];
  }

  /** Groups `s` by `key` the way a loop pushing into a Map of arrays does. */
  function GroupBy<T, K(==)>(s: seq<T>, key: T -> K): seq<(K, seq<T>)> {
    if |s| == 0 then []
    else AddTo(GroupBy(s[..|s| - 1], key), key(s[|s| - 1]), s[|s| - 1])
  }

  /**
   * `m` groups `s` by `key`: distinct keys, each group exactly the elements
   * with its key in input order, every element's key present.
   */
  ghost predicate IsGrouping<T, K>(s: seq<T>, key: T -> K, m: seq<(K, seq<T>)>) {
    && DistinctKeys(m)
    && (forall i :: 0 <= i < |m| ==> m[i].1 == Filter(s, HasKey(key, m[i].0)) && |m[i].1| > 0)
    && (forall x | x in s :: key(x) in Keys(m))
  }

  lemma AddToGrouping<T, K>(s: seq<T>, key: T -> K, m: seq<(K, seq<T>)>, x: T)
    requires IsGrouping(s, key, m)
    ensures IsGrouping(s + [x], key, AddTo(m, key(x), x))
  {
    if IndexOf(m, key(x)).Some? {
      AddToGroupingOld(s, key, m, x);
    } else {
      AddToGroupingNew(s, key, m, x);
    }
  }

  lemma AddToGroupingOld<T, K>(s: seq<T>, key: T -> K, m: seq<(K, seq<T>)>, x: T)
    requires IsGrouping(s, key, m) && IndexOf(m, key(x)).Some?
    ensures IsGrouping(s + [x], key, AddTo(m, key(x), x))
  {
    var k := key(x);
    var j := IndexOf(m, k).value;
    var m' := AddTo(m, k, x);
    assert m' == m[j := (k, m[j].1 + [x])];
    forall i | 0 <= i < |m'| ensures m'[i].1 == Filter(s + [x], HasKey(key, m'[i].0)) && |m'[i].1| > 0 {
      FilterSnoc(s, x, HasKey(key, m'[i].0));
    }
    assert Keys(m') == Keys(m);
  }

  lemma AddToGroupingNew<T, K>(s: seq<T>, key: T -> K, m: seq<(K, seq<T>)>, x: T)
    requires IsGrouping(s, key, m) && IndexOf(m, key(x)).None?
    ensures IsGrouping(s + [x], key, AddTo(m, key(x), x))
  {
    var k := key(x);
    var m' := AddTo(m, k, x);
    AddToNew(m, k, x);
    forall i | 0 <= i < |m'| ensures m'[i].1 == Filter(s + [x], HasKey(key, m'[i].0)) && |m'[i].1| > 0 {
      FilterSnoc(s, x, HasKey(key, m'[i].0));
      if i == |m| {
        FilterNone(s, HasKey(key, k));
      }
    }
    assert Keys(m') == Keys(m) + [k];
  }

  lemma GroupByStep<T, K>(s: seq<T>, x: T, key: T -> K)
    ensures GroupBy(s + [x], key) == AddTo(GroupBy(s, key), key(x), x)
  {
    assert (s + [x])[..|s|] == s;
  }

  /** Grouping puts each element in the one group of its key. */
  lemma {:induction false} GroupByIsGrouping<T, K>(s: seq<T>, key: T -> K)
    ensures IsGrouping(s, key, GroupBy(s, key))
  {
    if |s| > 0 {
      var prefix, x := s[..|s| - 1], s[|s| - 1];
      assert s == prefix + [x];
      GroupByIsGrouping(prefix, key);
      AddToGrouping(prefix, key, GroupBy(prefix, key), x);
    }
  }

  function Id<T>(x: T): T { x }

  /** The multiset of all grouped elements is that of the input. */
  lemma {:induction false} GroupByPartition<T, K>(s: seq<T>, key: T -> K)
    ensures multiset(FlatMap(Values(GroupBy(s, key)), Id)) == multiset(s)
  {
    if |s| > 0 {
      var prefix, x := s[..|s| - 1], s[|s| - 1];
      assert s == prefix + [x];
      GroupByPartition(prefix, key);
      GroupByStep(prefix, x, key);
      AddToPartition(GroupBy(prefix, key), key(x), x);
    }
  }

  lemma AddToPartition<K, T>(m: seq<(K, seq<T>)>, k: K, x: T)
    ensures multiset(FlatMap(Values(AddTo(m, k, x)), Id)) == multiset(FlatMap(Values(m), Id)) + multiset{x}
  {
    var vs := Values(m);
    match IndexOf(m, k)
    case Some(i) =>
      var vs' := Values(AddTo(m, k, x));
      assert vs' == vs[..i] + [vs[i] + [x]] + vs[i + 1..];
      assert vs == vs[..i] + [vs[i]] + vs[i + 1..];
      FlatMapConcat(vs[..i] + [vs[i] + [x]], vs[i + 1..], Id);
      FlatMapConcat(vs[..i], [vs[i] + [x]], Id);
      FlatMapConcat(vs[..i] + [vs[i]], vs[i + 1..], Id);
      FlatMapConcat(vs[..i], [vs[i]], Id);
      assert FlatMap([vs[i] + [x]], Id) == vs[i] + [x];
      assert FlatMap([vs[i]], Id) == vs[i];
    case None =>
      AddToNew(m, k, x);
      assert Values(AddTo(m, k, x)) == vs + [[x]];
      FlatMapConcat(vs, [[x]], Id);
      assert FlatMap([[x]], Id) == [x];
  }

  /** `m.set(k, (m.get(k) ?? 0) + 1)`. */
  function Bump<K(==)>(m: seq<(K, nat)>, k: K): seq<(K, nat)> {
    Put(m, k, Get(m, k).GetOr(0) + 1)
  }

  /** Each group replaced by its size. */
  function Sizes<K, T>(m: seq<(K, seq<T>)>): (r: seq<(K, nat)>)
    ensures |r| == |m|
    ensures forall i :: 0 <= i < |m| ==> r[i] == (m[i].0, |m[i].1|)
  {
    seq(|m|, i requires 0 <= i < |m| => (m[i].0, |m[i].1|))
  }

  /** Occurrence counts of each key, keys in order of first appearance. */
  function Tally<K(==)>(keys: seq<K>): (m: seq<(K, nat)>)
    ensures DistinctKeys(m)
    ensures forall i :: 0 <= i < |m| ==> m[i].1 == |Filter(keys, HasKey(Id, m[i].0))| > 0
    ensures forall k | k in keys :: k in Keys(m)
    ensures forall k | k in Keys(m) :: k in keys
  {
    var g := GroupBy(keys, Id);
    GroupByIsGrouping(keys, Id);
    assert forall k | k in Keys(g) :: k in keys by {
      forall k | k in Keys(g) ensures k in keys {
        var i :| 0 <= i < |g| && g[i].0 == k;
        FilterMembers(keys, HasKey(Id, k));
        assert g[i].1[0] in Filter(keys, HasKey(Id, k));
      }
    }
    assert Keys(Sizes(g)) == Keys(g);
    Sizes(g)
  }

  lemma IndexOfSizes<K, T>(m: seq<(K, seq<T>)>, k: K)
    ensures IndexOf(Sizes(m), k) == IndexOf(m, k)
  {
    assert Keys(Sizes(m)) == Keys(m);
    match IndexOf(m, k)
    case None =>
    case Some(i) =>
  }

  /** Counting one more key is the step of the counting loops. */
  lemma TallyStep<K>(keys: seq<K>, k: K)
    ensures Tally(keys + [k]) == Bump(Tally(keys), k)
  {
    GroupByStep(keys, k, Id);
    var g := GroupBy(keys, Id);
    IndexOfSizes(g, k);
    var gk := AddTo(g, k, k);
    match IndexOf(g, k)
    case None =>
      assert Sizes(gk) == Sizes(g) + [(k, 1)];
    case Some(i) =>
      assert Sizes(gk) == Sizes(g)[i := (k, |g[i].1| + 1)];
  }

  /** The counts add up to the number of keys counted. */
  lemma TallySum<K>(keys: seq<K>)
    ensures Sum(Values(Tally(keys))) == |keys|
  {
    assert Tally(keys) == Sizes(GroupBy(keys, Id));
    var g := GroupBy(keys, Id);
    CountsSum(g);
    GroupByPartition(keys, Id);
    assert |FlatMap(Values(g), Id)| == |multiset(FlatMap(Values(g), Id))|;
    assert |multiset(keys)| == |keys|;
  }

  lemma {:induction false} CountsSum<K, T>(m: seq<(K, seq<T>)>)
    ensures Sum(Values(Sizes(m))) == |FlatMap(Values(m), Id)|
  {
    if |m| > 0 {
      var rest := m[1..];
      CountsSum(rest);
      var vs, vr := Values(Sizes(m)), Values(Sizes(rest));
      assert vs[1..] == vr;
      assert Sum(vs) == |m[0].1| + Sum(vr);
      var ws, wr := Values(m), Values(rest);
      assert ws[1..] == wr;
      assert FlatMap(ws, Id) == m[0].1 + FlatMap(wr, Id);
    }
  }
}
