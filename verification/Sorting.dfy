/** Stable sorting, as JavaScript's `Array.prototype.sort` does it.

    Every sort in the modelled code goes through here: the signers of an election, the
    entries a full replay table evicts, the keys of a nonce map and the answers of a
    discovery query. */
module Sorting {

  ghost predicate IsTotalPreorder<T(!new)>(le: (T, T) -> bool) {
    && (forall x, y :: le(x, y) || le(y, x))
    && (forall x, y, z :: le(x, y) && le(y, z) ==> le(x, z))
  }

  /** `findIndex`: the first place that satisfies `p`, or the length when there is none. */
  function FirstIndex<T>(s: seq<T>, p: T -> bool): (i: nat)
    ensures i <= |s| && (i < |s| ==> p(s[i])) && forall j | 0 <= j < i :: !p(s[j])
  {
    if s == [] || p(s[0]) then 0 else 1 + FirstIndex(s[1..], p)
  }

  ghost predicate Sorted<T>(s: seq<T>, le: (T, T) -> bool) {
    forall i, j | 0 <= i < j < |s| :: le(s[i], s[j])
  }

  ghost predicate Distinct<T>(s: seq<T>) {
    forall i, j | 0 <= i < j < |s| :: s[i] != s[j]
  }

  /** Places `x` before the first element it does not exceed, so before its equals. */
  function Insert<T>(x: T, s: seq<T>, le: (T, T) -> bool): seq<T> {
    if s == [] then [x]
    else if le(x, s[0]) then [x] + s
    else [s[0]] + Insert(x, s[1..], le)
  }

  function Sort<T>(s: seq<T>, le: (T, T) -> bool): seq<T> {
    if s == [] then [] else Insert(s[0], Sort(s[1..], le), le)
  }

  lemma {:induction false} InsertElements<T>(x: T, s: seq<T>, le: (T, T) -> bool)
    ensures multiset(Insert(x, s, le)) == multiset(s) + multiset{x}
  {
    if s != [] {
      assert s == [s[0]] + s[1..];
      InsertElements(x, s[1..], le);
    }
  }

  lemma {:induction false} InsertKeepsSorted<T(!new)>(x: T, s: seq<T>, le: (T, T) -> bool)
    requires IsTotalPreorder(le) && Sorted(s, le)
    ensures Sorted(Insert(x, s, le), le)
  {
    if s != [] {
      if le(x, s[0]) {
        forall k | 0 < k < |s|
          ensures le(x, s[k])
        {
          assert le(s[0], s[k]);
        }
      } else {
        assert le(s[0], x);
        var rest := Insert(x, s[1..], le);
        InsertKeepsSorted(x, s[1..], le);
        InsertElements(x, s[1..], le);
        forall k | 0 <= k < |rest|
          ensures le(s[0], rest[k])
        {
          assert rest[k] in multiset(rest);
        }
      }
    }
  }

  /** Sorting orders the elements and neither loses nor invents one. */
  lemma {:induction false} SortSorts<T(!new)>(s: seq<T>, le: (T, T) -> bool)
    requires IsTotalPreorder(le)
    ensures Sorted(Sort(s, le), le)
    ensures multiset(Sort(s, le)) == multiset(s)
    ensures |Sort(s, le)| == |s|
  {
    if s != [] {
      SortSorts(s[1..], le);
      InsertKeepsSorted(s[0], Sort(s[1..], le), le);
      InsertElements(s[0], Sort(s[1..], le), le);
      assert s == [s[0]] + s[1..];
    }
    assert |multiset(Sort(s, le))| == |Sort(s, le)| && |multiset(s)| == |s|;
  }

  /** A sequence already in order is left exactly as it is, equals included. */
  lemma {:induction false} SortKeepsSorted<T>(s: seq<T>, le: (T, T) -> bool)
    requires Sorted(s, le)
    ensures Sort(s, le) == s
  {
    if |s| > 1 {
      SortKeepsSorted(s[1..], le);
      assert le(s[0], s[1]);
      assert s == [s[0]] + s[1..];
    }
  }

  /** The first element of a sorted sequence is below every element. */
  lemma SortedHead<T(!new)>(a: seq<T>, le: (T, T) -> bool, x: T)
    requires IsTotalPreorder(le) && Sorted(a, le) && x in multiset(a)
    ensures le(a[0], x)
  {
    var i :| 0 <= i < |a| && a[i] == x;
  }

  lemma TailsAgree<T>(a: seq<T>, b: seq<T>)
    requires a != [] && b != [] && a[0] == b[0] && multiset(a) == multiset(b)
    ensures multiset(a[1..]) == multiset(b[1..])
  {
    assert a == [a[0]] + a[1..] && b == [b[0]] + b[1..];
    assert multiset(a[1..]) == multiset(a) - multiset{a[0]};
    assert multiset(b[1..]) == multiset(b) - multiset{b[0]};
  }

  ghost predicate OnlyEqualsTie<T(!new)>(le: (T, T) -> bool) {
    forall x, y :: le(x, y) && le(y, x) ==> x == y
  }

  /** Two sorted sequences with the same elements are equal when of these only equals tie. */
  lemma {:induction false} SortedIsUnique<T(!new)>(a: seq<T>, b: seq<T>, le: (T, T) -> bool)
    requires IsTotalPreorder(le)
    requires forall x, y | x in b && y in b && le(x, y) && le(y, x) :: x == y
    requires Sorted(a, le) && Sorted(b, le) && multiset(a) == multiset(b)
    ensures a == b
  {
    assert |multiset(a)| == |a| && |multiset(b)| == |b|;
    if a != [] {
      assert a[0] in multiset(b);
      assert b[0] in multiset(a);
      SortedHead(a, le, b[0]);
      SortedHead(b, le, a[0]);
      TailsAgree(a, b);
      SortedIsUnique(a[1..], b[1..], le);
      assert a == [a[0]] + a[1..] && b == [b[0]] + b[1..];
    }
  }

  // ---------------------------------------------------------------- where sorting puts an element

  /** Whether element `j` of `s` ends up before element `i`: it is smaller, or no greater and earlier. */
  predicate Precedes<T>(s: seq<T>, le: (T, T) -> bool, j: nat, i: nat)
    requires j < |s| && i < |s|
  {
    if j < i then le(s[j], s[i]) else j > i && !le(s[i], s[j])
  }

  /** How many of the first `n` elements end up before element `i`. */
  function Ahead<T>(s: seq<T>, le: (T, T) -> bool, i: nat, n: nat): nat
    requires i < |s| && n <= |s|
  {
    if n == 0 then 0 else Ahead(s, le, i, n - 1) + (if Precedes(s, le, n - 1, i) then 1 else 0)
  }

  function CountIf<T>(s: seq<T>, p: T -> bool): nat {
    if s == [] then 0 else (if p(s[0]) then 1 else 0) + CountIf(s[1..], p)
  }

  lemma {:induction false} CountIfLast<T>(s: seq<T>, x: T, p: T -> bool)
    ensures CountIf(s + [x], p) == CountIf(s, p) + (if p(x) then 1 else 0)
  {
    if s == [] {
      assert s + [x] == [x];
    } else {
      assert (s + [x])[1..] == s[1..] + [x];
      CountIfLast(s[1..], x, p);
    }
  }

  lemma {:induction false} CountIfInsert<T>(x: T, s: seq<T>, le: (T, T) -> bool, p: T -> bool)
    ensures CountIf(Insert(x, s, le), p) == CountIf(s, p) + (if p(x) then 1 else 0)
  {
    if s != [] {
      CountIfInsert(x, s[1..], le, p);
      assert ([x] + s)[1..] == s;
    }
  }

  lemma {:induction false} CountIfSort<T>(s: seq<T>, le: (T, T) -> bool, p: T -> bool)
    ensures CountIf(Sort(s, le), p) == CountIf(s, p)
  {
    if s != [] {
      CountIfSort(s[1..], le, p);
      CountIfInsert(s[0], Sort(s[1..], le), le, p);
    }
  }

  /** `Insert` puts `x` after exactly the elements below it and moves the others up by one. */
  lemma {:induction false} InsertPlaces<T(!new)>(x: T, s: seq<T>, le: (T, T) -> bool, k: nat)
    requires IsTotalPreorder(le) && Sorted(s, le)
    ensures |Insert(x, s, le)| == |s| + 1
    ensures CountIf(s, y => !le(x, y)) <= |s| && Insert(x, s, le)[CountIf(s, y => !le(x, y))] == x
    ensures k < |s| ==> Insert(x, s, le)[k + (if le(x, s[k]) then 1 else 0)] == s[k]
  {
    if s != [] {
      if le(x, s[0]) {
        NoneBelow(x, s, le);
        assert k < |s| ==> le(x, s[k]);
      } else {
        InsertPlaces(x, s[1..], le, if k == 0 then 0 else k - 1);
      }
    }
  }

  lemma {:induction false} NoneBelow<T(!new)>(x: T, s: seq<T>, le: (T, T) -> bool)
    requires IsTotalPreorder(le) && Sorted(s, le) && s != [] && le(x, s[0])
    ensures forall k | 0 <= k < |s| :: le(x, s[k])
    ensures CountIf(s, y => !le(x, y)) == 0
  {
    forall k | 0 <= k < |s|
      ensures le(x, s[k])
    {
      assert k == 0 || le(s[0], s[k]);
    }
    if |s| > 1 {
      NoneBelow(x, s[1..], le);
    }
  }

  lemma {:induction false} AheadOfFirst<T(!new)>(s: seq<T>, le: (T, T) -> bool, n: nat)
    requires 0 < n <= |s|
    ensures Ahead(s, le, 0, n) == CountIf(s[1..n], y => !le(s[0], y))
  {
    if n > 1 {
      AheadOfFirst(s, le, n - 1);
      assert s[1..n] == s[1..n - 1] + [s[n - 1]];
      CountIfLast(s[1..n - 1], s[n - 1], y => !le(s[0], y));
    } else {
      assert Ahead(s, le, 0, 0) == 0;
    }
  }

  lemma {:induction false} AheadInTail<T>(s: seq<T>, le: (T, T) -> bool, i: nat, n: nat)
    requires 0 < i < |s| && 0 < n <= |s|
    ensures Ahead(s, le, i, n) == (if le(s[0], s[i]) then 1 else 0) + Ahead(s[1..], le, i - 1, n - 1)
  {
    if n > 1 {
      AheadInTail(s, le, i, n - 1);
    } else {
      assert Ahead(s, le, i, 0) == 0;
    }
  }

  /** Each element stands where the number of elements that precede it says. */
  lemma {:induction false} SortRanks<T(!new)>(s: seq<T>, le: (T, T) -> bool, i: nat)
    requires IsTotalPreorder(le) && i < |s|
    ensures |Sort(s, le)| == |s|
    ensures Ahead(s, le, i, |s|) < |s| && Sort(s, le)[Ahead(s, le, i, |s|)] == s[i]
  {
    var rest, x := Sort(s[1..], le), s[0];
    SortSorts(s[1..], le);
    if i == 0 {
      AheadOfFirst(s, le, |s|);
      assert s[1..|s|] == s[1..];
      CountIfSort(s[1..], le, y => !le(x, y));
      InsertPlaces(x, rest, le, 0);
    } else {
      SortRanks(s[1..], le, i - 1);
      AheadInTail(s, le, i, |s|);
      InsertPlaces(x, rest, le, Ahead(s[1..], le, i - 1, |s| - 1));
    }
  }

  // ---------------------------------------------------------------- sorting and mapping

  function Map<T, U>(s: seq<T>, f: T -> U): seq<U> {
    seq(|s|, (i: nat) requires i < |s| => f(s[i]))
  }

  lemma {:induction false} InsertCommutes<T(!new), U>(x: T, s: seq<T>, f: T -> U, le: (T, T) -> bool, le': (U, U) -> bool)
    requires forall a, b :: le(a, b) == le'(f(a), f(b))
    ensures Map(Insert(x, s, le), f) == Insert(f(x), Map(s, f), le')
  {
    if s != [] {
      InsertCommutes(x, s[1..], f, le, le');
      assert Map(s, f)[1..] == Map(s[1..], f);
    }
  }

  /** Mapping by a function that keeps the order can be done before or after sorting. */
  lemma {:induction false} SortCommutes<T(!new), U>(s: seq<T>, f: T -> U, le: (T, T) -> bool, le': (U, U) -> bool)
    requires forall a, b :: le(a, b) == le'(f(a), f(b))
    ensures Map(Sort(s, le), f) == Sort(Map(s, f), le')
  {
    if s != [] {
      SortCommutes(s[1..], f, le, le');
      InsertCommutes(s[0], Sort(s[1..], le), f, le, le');
      assert Map(s, f)[1..] == Map(s[1..], f);
    }
  }

  lemma {:induction false} InsertSameOrder<T(!new)>(x: T, s: seq<T>, le: (T, T) -> bool, le': (T, T) -> bool)
    requires forall a, b :: le(a, b) == le'(a, b)
    ensures Insert(x, s, le) == Insert(x, s, le')
  {
    if s != [] {
      InsertSameOrder(x, s[1..], le, le');
    }
  }

  lemma {:induction false} SortSameOrder<T(!new)>(s: seq<T>, le: (T, T) -> bool, le': (T, T) -> bool)
    requires forall a, b :: le(a, b) == le'(a, b)
    ensures Sort(s, le) == Sort(s, le')
  {
    if s != [] {
      SortSameOrder(s[1..], le, le');
      InsertSameOrder(s[0], Sort(s[1..], le), le, le');
    }
  }

  // ---------------------------------------------------------------- elements counted once

  lemma {:induction false} OccursOnce<T>(s: seq<T>, x: T)
    requires Distinct(s)
    ensures multiset(s)[x] <= 1
  {
    if s != [] {
      assert s == [s[0]] + s[1..];
      OccursOnce(s[1..], x);
      if s[0] == x {
        assert x !in s[1..];
      }
    }
  }

  lemma OccursTwice<T>(s: seq<T>, i: nat, j: nat)
    requires i < j < |s| && s[i] == s[j]
    ensures multiset(s)[s[i]] >= 2
  {
    assert s == s[..i] + [s[i]] + s[i + 1..j] + [s[j]] + s[j + 1..];
  }

  /** A rearrangement of a duplicate-free sequence is duplicate-free. */
  lemma DistinctSurvives<T>(a: seq<T>, b: seq<T>)
    requires Distinct(a) && multiset(a) == multiset(b)
    ensures Distinct(b)
  {
    forall i, j | 0 <= i < j < |b|
      ensures b[i] != b[j]
    {
      OccursOnce(a, b[i]);
      if b[i] == b[j] {
        OccursTwice(b, i, j);
      }
    }
  }

  /** Pigeonhole: `n` different numbers below `n` are all of them. */
  lemma {:induction false} Pigeonhole(s: set<nat>, n: nat)
    requires forall x | x in s :: x < n
    ensures |s| <= n
    ensures |s| == n ==> forall x: nat | x < n :: x in s
  {
    if n > 0 {
      Pigeonhole(s - {n - 1}, n - 1);
    } else {
      assert s == {};
    }
  }

  // ---------------------------------------------------------------- dictionary order

  predicate DictionaryAtMost<T(==)>(a: seq<T>, b: seq<T>, code: T -> int) {
    a == [] || (b != [] && (code(a[0]) < code(b[0]) || (a[0] == b[0] && DictionaryAtMost(a[1..], b[1..], code))))
  }

  ghost predicate Injective<T(!new), U>(f: T -> U) {
    forall x, y :: f(x) == f(y) ==> x == y
  }

  lemma {:induction false} DictionaryTotal<T(!new)>(a: seq<T>, b: seq<T>, code: T -> int)
    requires Injective(code)
    ensures DictionaryAtMost(a, b, code) || DictionaryAtMost(b, a, code)
  {
    if a != [] && b != [] {
      DictionaryTotal(a[1..], b[1..], code);
    }
  }

  lemma {:induction false} DictionaryTransitive<T(!new)>(a: seq<T>, b: seq<T>, c: seq<T>, code: T -> int)
    requires DictionaryAtMost(a, b, code) && DictionaryAtMost(b, c, code)
    ensures DictionaryAtMost(a, c, code)
  {
    if a != [] && a[0] == b[0] && b[0] == c[0] {
      DictionaryTransitive(a[1..], b[1..], c[1..], code);
    }
  }

  lemma {:induction false} DictionaryAntisymmetric<T(!new)>(a: seq<T>, b: seq<T>, code: T -> int)
    requires DictionaryAtMost(a, b, code) && DictionaryAtMost(b, a, code)
    ensures a == b
  {
    if a != [] {
      DictionaryAntisymmetric(a[1..], b[1..], code);
      assert a == [a[0]] + a[1..] && b == [b[0]] + b[1..];
    }
  }

  /** `a` is a beginning of `b`, or has the smaller code at the first place where they differ. */
  lemma {:induction false} DictionaryExactly<T>(a: seq<T>, b: seq<T>, code: T -> int)
    ensures DictionaryAtMost(a, b, code) <==>
              a <= b || exists i :: 0 <= i < |a| && i < |b| && a[..i] == b[..i] && code(a[i]) < code(b[i])
  {
    if a != [] && b != [] {
      DictionaryExactly(a[1..], b[1..], code);
      assert a == [a[0]] + a[1..] && b == [b[0]] + b[1..];
      if a[0] == b[0] && DictionaryAtMost(a[1..], b[1..], code) && !(a[1..] <= b[1..]) {
        var i :| 0 <= i < |a[1..]| && i < |b[1..]| && a[1..][..i] == b[1..][..i] && code(a[1..][i]) < code(b[1..][i]);
        assert a[..i + 1] == [a[0]] + a[1..][..i] && b[..i + 1] == [b[0]] + b[1..][..i];
        assert code(a[i + 1]) < code(b[i + 1]);
      }
      if i :| 0 <= i < |a| && i < |b| && a[..i] == b[..i] && code(a[i]) < code(b[i]) {
        if i == 0 {
          assert code(a[0]) < code(b[0]);
        } else {
          assert a[0] == a[..i][0] && b[0] == b[..i][0];
          assert a[1..][..i - 1] == a[..i][1..] && b[1..][..i - 1] == b[..i][1..];
          assert code(a[1..][i - 1]) < code(b[1..][i - 1]);
        }
      }
    }
  }
}
