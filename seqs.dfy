/** The JavaScript array operations the pages use: `slice`, `filter`,
    `indexOf`-based de-duplication and a stable `sort` by a string key. */
module Seqs {
  import opened Text

  function Min(a: int, b: int): int { if a <= b then a else b }

  /** `s.slice(from, to)` for non-negative bounds: both are clamped to the length. */
  function Slice<T>(s: seq<T>, from: nat, to: nat): (r: seq<T>)
    ensures |r| == if Min(to, |s|) <= from then 0 else Min(to, |s|) - from
    ensures forall k :: 0 <= k < |r| ==> r[k] == s[from + k]
  {
    var end := Min(to, |s|);
    if end <= from then [] else s[from..end]
  }

  /** `s.filter(p)`: the elements satisfying `p`, in their order. */
  function Filter<T(!new)>(s: seq<T>, p: T -> bool): (r: seq<T>)
    ensures |r| <= |s|
    ensures forall x :: x in r <==> x in s && p(x)
  {
    if s == [] then []
    else
      assert s == [s[0]] + s[1..];
      (if p(s[0]) then [s[0]] else []) + Filter(s[1..], p)
  }

  /** Filtering keeps order: it distributes over concatenation. */
  lemma {:induction false} FilterConcat<T(!new)>(a: seq<T>, b: seq<T>, p: T -> bool)
    ensures Filter(a + b, p) == Filter(a, p) + Filter(b, p)
  {
    if a != [] {
      assert (a + b)[0] == a[0];
      assert (a + b)[1..] == a[1..] + b;
      FilterConcat(a[1..], b, p);
    } else {
      assert a + b == b;
    }
  }

  /** Filtering with a predicate every element satisfies changes nothing. */
  lemma {:induction false} FilterAll<T(!new)>(s: seq<T>, p: T -> bool)
    requires forall x :: x in s ==> p(x)
    ensures Filter(s, p) == s
  {
    if s != [] {
      FilterAll(s[1..], p);
    }
  }

  /** Filtering keeps every element that satisfies `p` as often as it occurs, and no other. */
  lemma {:induction false} FilterCount<T(!new)>(s: seq<T>, p: T -> bool, x: T)
    ensures multiset(Filter(s, p))[x] == if p(x) then multiset(s)[x] else 0
  {
    if s != [] {
      assert s == [s[0]] + s[1..];
      FilterCount(s[1..], p, x);
    }
  }

  /** `a` is `b` with some elements left out and the others kept in their order. */
  ghost predicate Subsequence<T>(a: seq<T>, b: seq<T>)
    decreases |b|
  {
    if a == [] then true
    else if b == [] then false
    else (a[0] == b[0] && Subsequence(a[1..], b[1..])) || Subsequence(a, b[1..])
  }

  /** Filtering only leaves elements out: what it keeps stays in the input's order. */
  lemma {:induction false} FilterSubsequence<T(!new)>(s: seq<T>, p: T -> bool)
    ensures Subsequence(Filter(s, p), s)
  {
    if s != [] {
      var rest := Filter(s[1..], p);
      FilterSubsequence(s[1..], p);
      if p(s[0]) {
        assert Filter(s, p) == [s[0]] + rest;
        assert ([s[0]] + rest)[1..] == rest;
      } else {
        assert Filter(s, p) == rest;
      }
    }
  }

  ghost predicate Distinct<T>(s: seq<T>) {
    forall i, j :: 0 <= i < j < |s| ==> s[i] != s[j]
  }

  /** `s.indexOf(x)`: the first position of `x`, or -1. */
  function IndexOf<T(==)>(s: seq<T>, x: T): (r: int)
    ensures -1 <= r < |s|
    ensures r == -1 <==> x !in s
    ensures r >= 0 ==> s[r] == x && x !in s[..r]
  {
    if s == [] then -1
    else if s[0] == x then 0
    else
      var k := IndexOf(s[1..], x);
      assert k >= 0 ==> s[..k + 1] == [s[0]] + s[1..][..k];
      if k == -1 then -1 else k + 1
  }

  /** `s.filter((x, i, self) => self.indexOf(x) === i)` restricted to positions `i..`. */
  function KeepFirstFrom<T(==,!new)>(s: seq<T>, i: nat): (r: seq<T>)
    requires i <= |s|
    ensures forall x :: x in r <==> x in s && IndexOf(s, x) >= i
    ensures Distinct(r)
    decreases |s| - i
  {
    if i == |s| then []
    else
      var rest := KeepFirstFrom(s, i + 1);
      if IndexOf(s, s[i]) == i then [s[i]] + rest else rest
  }

  /** `s.filter((x, i, self) => self.indexOf(x) === i)`: the first occurrence of every element. */
  function KeepFirst<T(==,!new)>(s: seq<T>): (r: seq<T>)
    ensures forall x :: x in r <==> x in s
    ensures Distinct(r)
  {
    KeepFirstFrom(s, 0)
  }

  /** Two permutations of each other hold the same elements. */
  lemma PermutationMembers<T>(a: seq<T>, b: seq<T>)
    requires multiset(a) == multiset(b)
    ensures forall x :: x in a <==> x in b
  {
    forall x ensures x in a <==> x in b {
      assert x in a <==> x in multiset(a);
      assert x in b <==> x in multiset(b);
    }
  }

  /** A permutation of a distinct sequence is distinct. */
  lemma DistinctPermutation<T>(a: seq<T>, b: seq<T>)
    requires Distinct(a) && multiset(a) == multiset(b)
    ensures Distinct(b)
  {
    forall i, j | 0 <= i < j < |b| ensures b[i] != b[j] {
      if b[i] == b[j] {
        var x := b[i];
        assert multiset(b)[x] >= 2 by {
          assert b == b[..j] + [b[j]] + b[j + 1..];
          assert b[i] in b[..j];
        }
        DistinctCount(a, x);
        assert false;
      }
    }
  }

  lemma {:induction false} DistinctCount<T>(a: seq<T>, x: T)
    requires Distinct(a)
    ensures multiset(a)[x] <= 1
  {
    if a != [] {
      assert a == [a[0]] + a[1..];
      DistinctCount(a[1..], x);
      assert a[0] !in a[1..];
    }
  }

  // ---------------------------------------------------------------------------
  // Stable sort by a string key (Array.prototype.sort with a comparator,
  // stable since ECMAScript 2019)

  predicate SortedBy<T>(s: seq<T>, key: T -> string) {
    forall i, j :: 0 <= i < j < |s| ==> StrLeq(key(s[i]), key(s[j]))
  }

  /** Inserts `x` in front of the first element whose key is not below it. */
  function Insert<T>(x: T, s: seq<T>, key: T -> string): (r: seq<T>)
    requires SortedBy(s, key)
    ensures SortedBy(r, key)
    ensures multiset(r) == multiset(s) + multiset{x}
  {
    if s == [] then [x]
    else if StrLeq(key(x), key(s[0])) then
      ConsSorted(x, s, key);
      [x] + s
    else
      var rest := Insert(x, s[1..], key);
      assert SortedBy([s[0]] + rest, key) by {
        StrLeqTotal(key(x), key(s[0]));
        HeadBelowInserted(x, s, rest, key);
        ConsSorted(s[0], rest, key);
      }
      assert multiset(s) == multiset{s[0]} + multiset(s[1..]) by {
        assert s == [s[0]] + s[1..];
      }
      [s[0]] + rest
  }

  /** A head whose key is not above the first key of a sorted sequence keeps it sorted. */
  lemma ConsSorted<T>(x: T, s: seq<T>, key: T -> string)
    requires SortedBy(s, key)
    requires s != [] ==> StrLeq(key(x), key(s[0]))
    ensures SortedBy([x] + s, key)
  {
    forall j | 0 <= j < |s| ensures StrLeq(key(x), key(s[j])) {
      if j > 0 { StrLeqTrans(key(x), key(s[0]), key(s[j])); }
    }
  }

  /** The head of a sorted sequence is not above anything left once `x` is inserted in its tail. */
  lemma HeadBelowInserted<T>(x: T, s: seq<T>, rest: seq<T>, key: T -> string)
    requires s != [] && SortedBy(s, key) && StrLeq(key(s[0]), key(x))
    requires multiset(rest) == multiset(s[1..]) + multiset{x}
    ensures rest != [] ==> StrLeq(key(s[0]), key(rest[0]))
  {
    if rest != [] {
      var y := rest[0];
      assert y in multiset(rest);
      if y != x {
        assert y in multiset(s[1..]);
        var j :| 0 <= j < |s[1..]| && s[1..][j] == y;
        assert s[j + 1] == y;
      }
    }
  }

  /** Insertion sort: a stable sort of `s` by `key`. */
  function SortBy<T>(s: seq<T>, key: T -> string): (r: seq<T>)
    ensures SortedBy(r, key)
    ensures multiset(r) == multiset(s)
  {
    if s == [] then []
    else
      assert s == [s[0]] + s[1..];
      Insert(s[0], SortBy(s[1..], key), key)
  }

  /** The elements of `s` whose key is `k`, in their order in `s`. */
  function OfKey<T>(s: seq<T>, key: T -> string, k: string): seq<T> {
    if s == [] then [] else (if key(s[0]) == k then [s[0]] else []) + OfKey(s[1..], key, k)
  }

  lemma OfKeyCons<T>(x: T, s: seq<T>, key: T -> string, k: string)
    ensures OfKey([x] + s, key, k) == (if key(x) == k then [x] else []) + OfKey(s, key, k)
  {
    assert ([x] + s)[1..] == s;
  }

  /** Inserting `x` puts it in front of every element that has the same key. */
  lemma {:induction false} InsertKeepsKeyOrder<T>(x: T, s: seq<T>, key: T -> string, k: string)
    requires SortedBy(s, key)
    ensures OfKey(Insert(x, s, key), key, k) == (if key(x) == k then [x] else []) + OfKey(s, key, k)
  {
    if s == [] {
      OfKeyCons(x, [], key, k);
    } else if StrLeq(key(x), key(s[0])) {
      OfKeyCons(x, s, key, k);
    } else {
      assert key(x) != key(s[0]) by {
        StrLeqTotal(key(x), key(x));
      }
      InsertKeepsKeyOrder(x, s[1..], key, k);
      SkipOtherKey(x, s[0], Insert(x, s[1..], key), s[1..], key, k);
      assert Insert(x, s, key) == [s[0]] + Insert(x, s[1..], key);
      assert s == [s[0]] + s[1..];
    }
  }

  /** A head whose key differs from `x`'s, put in front of two sequences, keeps `x`'s place
      among the elements of key `k`. */
  lemma SkipOtherKey<T>(x: T, h: T, rest: seq<T>, tail: seq<T>, key: T -> string, k: string)
    requires key(x) != key(h)
    requires OfKey(rest, key, k) == (if key(x) == k then [x] else []) + OfKey(tail, key, k)
    ensures OfKey([h] + rest, key, k) == (if key(x) == k then [x] else []) + OfKey([h] + tail, key, k)
  {
    OfKeyCons(h, rest, key, k);
    OfKeyCons(h, tail, key, k);
  }

  /** The sort is stable: the elements that share a key keep their relative order. */
  lemma {:induction false} SortByStable<T>(s: seq<T>, key: T -> string, k: string)
    ensures OfKey(SortBy(s, key), key, k) == OfKey(s, key, k)
  {
    if s != [] {
      SortByStable(s[1..], key, k);
      InsertKeepsKeyOrder(s[0], SortBy(s[1..], key), key, k);
    }
  }

  /** A sorted sequence without duplicates is strictly increasing. */
  lemma SortedDistinctIncreasing(s: seq<string>)
    requires SortedBy(s, (x: string) => x) && Distinct(s)
    ensures forall i, j :: 0 <= i < j < |s| ==> StrLeq(s[i], s[j]) && !StrLeq(s[j], s[i])
  {
    forall i, j | 0 <= i < j < |s| ensures !StrLeq(s[j], s[i]) {
      if StrLeq(s[j], s[i]) {
        StrLeqAntisym(s[i], s[j]);
      }
    }
  }
}
