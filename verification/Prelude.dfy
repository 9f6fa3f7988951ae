/** Sequence tools shared by every component: filtering, mapping and the stable sort
    behind Python's `sorted`. */
module Prelude {

  datatype Option<+T> = None | Some(value: T)

  /** A clock reading. Instants are integers: only their order and differences matter. */
  type Time = int

  /** A record identifier, drawn from one counter, so that a fresh identifier is new. */
  type Id = nat

  function Max(x: real, y: real): real { if x >= y then x else y }

  function Min(x: real, y: real): real { if x <= y then x else y }

  // ---------------------------------------------------------------- filter and map

  function Filter<T>(s: seq<T>, p: T -> bool): (r: seq<T>)
    ensures |r| <= |s|
    ensures forall i :: 0 <= i < |r| ==> r[i] in s && p(r[i])
    ensures forall i :: 0 <= i < |s| && p(s[i]) ==> s[i] in r
  {
    if s == [] then []
    else
      var last := s[|s| - 1];
      assert s == s[..|s| - 1] + [last];
      Filter(s[..|s| - 1], p) + if p(last) then [last] else []
  }

  function Map<T, U>(s: seq<T>, f: T -> U): (r: seq<U>)
    ensures |r| == |s|
    ensures forall i :: 0 <= i < |s| ==> r[i] == f(s[i])
  {
    seq(|s|, i requires 0 <= i < |s| => f(s[i]))
  }

  lemma {:induction false} FilterAppend<T>(s: seq<T>, t: seq<T>, p: T -> bool)
    ensures Filter(s + t, p) == Filter(s, p) + Filter(t, p)
  {
    if t == [] {
      assert s + t == s;
    } else {
      var n := |t| - 1;
      assert (s + t)[..|s + t| - 1] == s + t[..n];
      FilterAppend(s, t[..n], p);
    }
  }

  lemma {:induction false} FilterCongruence<T>(s: seq<T>, p: T -> bool, q: T -> bool)
    requires forall x :: x in s ==> p(x) == q(x)
    ensures Filter(s, p) == Filter(s, q)
  {
    if s != [] {
      FilterCongruence(s[..|s| - 1], p, q);
    }
  }

  lemma {:induction false} FilterFilter<T>(s: seq<T>, p: T -> bool, q: T -> bool, both: T -> bool)
    requires forall x :: x in s ==> both(x) == (p(x) && q(x))
    ensures Filter(Filter(s, p), q) == Filter(s, both)
  {
    if s != [] {
      var last := s[|s| - 1];
      FilterFilter(s[..|s| - 1], p, q, both);
      var tail := if p(last) then [last] else [];
      FilterAppend(Filter(s[..|s| - 1], p), tail, q);
    }
  }

  /** Mapping with a function that p cannot see commutes with filtering by p. */
  lemma {:induction false} FilterMap<T>(s: seq<T>, f: T -> T, p: T -> bool)
    requires forall x :: x in s ==> p(f(x)) == p(x)
    ensures Filter(Map(s, f), p) == Map(Filter(s, p), f)
  {
    if s != [] {
      var n := |s| - 1;
      assert Map(s, f)[..n] == Map(s[..n], f);
      FilterMap(s[..n], f, p);
    }
  }

  lemma {:induction false} FilterNone<T>(s: seq<T>, p: T -> bool)
    requires forall x :: x in s ==> !p(x)
    ensures Filter(s, p) == []
  {
    if s != [] {
      FilterNone(s[..|s| - 1], p);
    }
  }

  lemma {:induction false} FilterAll<T>(s: seq<T>, p: T -> bool)
    requires forall x :: x in s ==> p(x)
    ensures Filter(s, p) == s
  {
    if s != [] {
      FilterAll(s[..|s| - 1], p);
    }
  }

  // ------------------------------------------------------------------ ranked sequences

  /** The ranks of s strictly increase: a dictionary listed in insertion order, ranked by
      the counter that issued its keys. */
  ghost predicate Increasing<T>(s: seq<T>, rank: T -> int) {
    forall i, j :: 0 <= i < j < |s| ==> rank(s[i]) < rank(s[j])
  }

  lemma {:induction false} FilterIncreasing<T>(s: seq<T>, p: T -> bool, rank: T -> int)
    requires Increasing(s, rank)
    ensures Increasing(Filter(s, p), rank)
  {
    if s != [] {
      var n := |s| - 1;
      FilterIncreasing(s[..n], p, rank);
      forall x | x in Filter(s[..n], p)
        ensures rank(x) < rank(s[n])
      {
        assert x in s[..n];
      }
    }
  }

  lemma {:induction false} IncreasingInjective<T>(s: seq<T>, rank: T -> int, x: T, y: T)
    requires Increasing(s, rank) && x in s && y in s && rank(x) == rank(y)
    ensures x == y
  {
    var i :| 0 <= i < |s| && s[i] == x;
    var j :| 0 <= j < |s| && s[j] == y;
    if i < j {
      assert rank(s[i]) < rank(s[j]);
    } else if j < i {
      assert rank(s[j]) < rank(s[i]);
    }
  }

  // ----------------------------------------------------------------- no repetitions

  ghost predicate Distinct<T>(s: seq<T>) {
    forall i, j :: 0 <= i < j < |s| ==> s[i] != s[j]
  }

  lemma {:induction false} DistinctOfMultiset<T>(s: seq<T>, t: seq<T>)
    requires multiset(s) == multiset(t) && Distinct(s)
    ensures Distinct(t)
  {
    forall i, j | 0 <= i < j < |t|
      ensures t[i] != t[j]
    {
      AtMostOnce(s, t[i]);
      if t[i] == t[j] {
        Twice(t, i, j);
      }
    }
  }

  lemma {:induction false} Twice<T>(t: seq<T>, i: nat, j: nat)
    requires i < j < |t| && t[i] == t[j]
    ensures multiset(t)[t[i]] >= 2
  {
    assert t == t[..i] + [t[i]] + t[i + 1..j] + [t[j]] + t[j + 1..];
  }

  lemma {:induction false} AtMostOnce<T>(s: seq<T>, x: T)
    requires Distinct(s)
    ensures multiset(s)[x] <= 1
  {
    if s != [] {
      var n := |s| - 1;
      AtMostOnce(s[..n], x);
      assert s == s[..n] + [s[n]];
      if x == s[n] {
        assert x !in s[..n];
        assert x !in multiset(s[..n]);
      }
    }
  }

  // ------------------------------------------------------------------------ sorting

  /** Sort keys are pairs compared lexicographically, as Python compares tuples. */
  type SortKey = (int, int)

  predicate KeyLe(a: SortKey, b: SortKey) {
    a.0 < b.0 || (a.0 == b.0 && a.1 <= b.1)
  }

  /** Insert x behind every element whose key does not exceed its own. */
  function Insert<T>(s: seq<T>, x: T, key: T -> SortKey): (r: seq<T>)
    ensures |r| == |s| + 1
  {
    if s == [] then [x]
    else if KeyLe(key(s[|s| - 1]), key(x)) then s + [x]
    else Insert(s[..|s| - 1], x, key) + [s[|s| - 1]]
  }

  /** `sorted(s, key=key)`: ascending, elements with equal keys in their original order.
      `reverse=True` is the same sort with the key negated, which keeps ties in order too. */
  function SortBy<T>(s: seq<T>, key: T -> SortKey): (r: seq<T>)
    ensures |r| == |s|
  {
    if s == [] then [] else Insert(SortBy(s[..|s| - 1], key), s[|s| - 1], key)
  }

  ghost predicate SortedBy<T>(s: seq<T>, key: T -> SortKey) {
    forall i, j :: 0 <= i < j < |s| ==> KeyLe(key(s[i]), key(s[j]))
  }

  /** Equal keys appear in increasing rank. */
  ghost predicate TiesByRank<T>(s: seq<T>, key: T -> SortKey, rank: T -> int) {
    forall i, j :: 0 <= i < j < |s| && key(s[i]) == key(s[j]) ==> rank(s[i]) < rank(s[j])
  }

  lemma {:induction false} InsertPermutes<T>(s: seq<T>, x: T, key: T -> SortKey)
    ensures multiset(Insert(s, x, key)) == multiset(s) + multiset{x}
  {
    if s != [] {
      assert s == s[..|s| - 1] + [s[|s| - 1]];
      InsertPermutes(s[..|s| - 1], x, key);
    }
  }

  lemma {:induction false} SortPermutes<T>(s: seq<T>, key: T -> SortKey)
    ensures multiset(SortBy(s, key)) == multiset(s)
  {
    if s != [] {
      assert s == s[..|s| - 1] + [s[|s| - 1]];
      SortPermutes(s[..|s| - 1], key);
      InsertPermutes(SortBy(s[..|s| - 1], key), s[|s| - 1], key);
    }
  }

  lemma {:induction false} SortMember<T>(s: seq<T>, key: T -> SortKey, x: T)
    ensures x in SortBy(s, key) <==> x in s
  {
    SortPermutes(s, key);
    assert x in SortBy(s, key) <==> x in multiset(SortBy(s, key));
  }

  lemma {:induction false} AppendSorted<T>(s: seq<T>, x: T, key: T -> SortKey)
    requires SortedBy(s, key) && forall y :: y in s ==> KeyLe(key(y), key(x))
    ensures SortedBy(s + [x], key)
  {
    hide KeyLe;
  }

  lemma {:induction false} LastGreatest<T>(s: seq<T>, key: T -> SortKey, k: SortKey)
    requires SortedBy(s, key) && s != [] && KeyLe(key(s[|s| - 1]), k)
    ensures forall y :: y in s ==> KeyLe(key(y), k)
  {
    forall y | y in s
      ensures KeyLe(key(y), k)
    {
      var i :| 0 <= i < |s| && s[i] == y;
      if i < |s| - 1 {
        assert KeyLe(key(s[i]), key(s[|s| - 1]));
      }
    }
  }

  lemma {:induction false} KeyTotal(a: SortKey, b: SortKey)
    ensures KeyLe(a, b) || KeyLe(b, a)
    ensures KeyLe(a, a)
  {
  }

  lemma {:induction false} InsertSorted<T>(s: seq<T>, x: T, key: T -> SortKey)
    requires SortedBy(s, key)
    ensures SortedBy(Insert(s, x, key), key)
  {
    hide KeyLe;
    if s != [] {
      var front, last := s[..|s| - 1], s[|s| - 1];
      KeyTotal(key(last), key(x));
      if KeyLe(key(last), key(x)) {
        LastGreatest(s, key, key(x));
        AppendSorted(s, x, key);
      } else {
        InsertSorted(front, x, key);
        InsertPermutes(front, x, key);
        KeyTotal(key(last), key(last));
        LastGreatest(s, key, key(last));
        forall y | y in Insert(front, x, key)
          ensures KeyLe(key(y), key(last))
        {
          assert y in multiset(front) + multiset{x};
          assert y in front || y == x;
        }
        AppendSorted(Insert(front, x, key), last, key);
      }
    }
  }

  lemma {:induction false} SortSorts<T>(s: seq<T>, key: T -> SortKey)
    ensures SortedBy(SortBy(s, key), key)
  {
    if s != [] {
      SortSorts(s[..|s| - 1], key);
      InsertSorted(SortBy(s[..|s| - 1], key), s[|s| - 1], key);
    }
  }

  lemma {:induction false} InsertStable<T>(s: seq<T>, x: T, key: T -> SortKey, rank: T -> int)
    requires SortedBy(s, key) && TiesByRank(s, key, rank)
    requires forall y :: y in s && key(y) == key(x) ==> rank(y) < rank(x)
    ensures TiesByRank(Insert(s, x, key), key, rank)
  {
    if s != [] && !KeyLe(key(s[|s| - 1]), key(x)) {
      var front, last := s[..|s| - 1], s[|s| - 1];
      InsertStable(front, x, key, rank);
      InsertPermutes(front, x, key);
      var r := Insert(front, x, key);
      forall y | y in r && key(y) == key(last)
        ensures rank(y) < rank(last)
      {
        assert y in multiset(r);
        assert y in front;
      }
    }
  }

  lemma {:induction false} SortStable<T>(s: seq<T>, key: T -> SortKey, rank: T -> int)
    requires TiesByRank(s, key, rank)
    ensures TiesByRank(SortBy(s, key), key, rank)
  {
    if s != [] {
      var n := |s| - 1;
      SortStable(s[..n], key, rank);
      SortSorts(s[..n], key);
      forall y | y in SortBy(s[..n], key) && key(y) == key(s[n])
        ensures rank(y) < rank(s[n])
      {
        SortMember(s[..n], key, y);
      }
      InsertStable(SortBy(s[..n], key), s[n], key, rank);
    }
  }

  /** The greatest element in key and rank order stands last. */
  lemma {:induction false} GreatestLast<T>(s: seq<T>, x: T, key: T -> SortKey, rank: T -> int)
    requires s != [] && x in s && SortedBy(s, key) && TiesByRank(s, key, rank)
    ensures x == s[|s| - 1] || !KeyLe(key(s[|s| - 1]), key(x)) || rank(x) < rank(s[|s| - 1])
    ensures KeyLe(key(x), key(s[|s| - 1]))
  {
  }

  lemma {:induction false} PrefixMultiset<T>(s: seq<T>)
    requires s != []
    ensures multiset(s[..|s| - 1]) == multiset(s) - multiset{s[|s| - 1]}
  {
    assert s == s[..|s| - 1] + [s[|s| - 1]];
  }

  lemma {:induction false} SameLast<T>(s: seq<T>, t: seq<T>, key: T -> SortKey, rank: T -> int)
    requires s != [] && t != [] && multiset(s) == multiset(t)
    requires SortedBy(s, key) && TiesByRank(s, key, rank)
    requires SortedBy(t, key) && TiesByRank(t, key, rank)
    ensures s[|s| - 1] == t[|t| - 1]
    ensures multiset(s[..|s| - 1]) == multiset(t[..|t| - 1])
  {
    var a, b := s[|s| - 1], t[|t| - 1];
    assert a in multiset(t) && b in multiset(s);
    GreatestLast(t, a, key, rank);
    GreatestLast(s, b, key, rank);
    PrefixMultiset(s);
    PrefixMultiset(t);
  }

  /** A sequence sorted by key with ties by rank is the only such arrangement of its elements. */
  lemma {:induction false} SortedUnique<T>(s: seq<T>, t: seq<T>, key: T -> SortKey, rank: T -> int)
    requires multiset(s) == multiset(t) && |s| == |t|
    requires SortedBy(s, key) && TiesByRank(s, key, rank)
    requires SortedBy(t, key) && TiesByRank(t, key, rank)
    ensures s == t
  {
    if s != [] {
      SameLast(s, t, key, rank);
      SortedUnique(s[..|s| - 1], t[..|t| - 1], key, rank);
      FrontAndLast(s, t);
    }
  }

  lemma {:induction false} FrontAndLast<T>(s: seq<T>, t: seq<T>)
    requires |s| == |t| > 0 && s[..|s| - 1] == t[..|t| - 1] && s[|s| - 1] == t[|t| - 1]
    ensures s == t
  {
    assert s == s[..|s| - 1] + [s[|s| - 1]] && t == t[..|t| - 1] + [t[|t| - 1]];
  }

  /** Sorting a sequence that already stands in key and rank order changes nothing,
      however its elements were shuffled before. */
  lemma {:induction false} SortOfArranged<T>(s: seq<T>, t: seq<T>, key: T -> SortKey, rank: T -> int)
    requires multiset(s) == multiset(t)
    requires SortedBy(t, key) && TiesByRank(t, key, rank) && TiesByRank(s, key, rank)
    ensures SortBy(s, key) == t
  {
    SortPermutes(s, key);
    SortSorts(s, key);
    SortStable(s, key, rank);
    assert |multiset(s)| == |multiset(t)|;
    SortedUnique(SortBy(s, key), t, key, rank);
  }

  // -------------------------------------------------------------- strings and their order

  /** Python's order on strings: lexicographic by code point. */
  predicate StringLe(a: string, b: string) {
    if a == [] then true
    else if b == [] then false
    else if a[0] == b[0] then StringLe(a[1..], b[1..])
    else a[0] < b[0]
  }

  function InsertString(s: seq<string>, x: string): (r: seq<string>)
    ensures multiset(r) == multiset(s) + multiset{x}
  {
    if s == [] then [x]
    else
      assert s == s[..|s| - 1] + [s[|s| - 1]];
      if StringLe(s[|s| - 1], x) then s + [x]
      else InsertString(s[..|s| - 1], x) + [s[|s| - 1]]
  }

  /** `sorted(s)` on strings. */
  function SortStrings(s: seq<string>): (r: seq<string>)
    ensures multiset(r) == multiset(s)
  {
    if s == [] then []
    else
      assert s == s[..|s| - 1] + [s[|s| - 1]];
      InsertString(SortStrings(s[..|s| - 1]), s[|s| - 1])
  }

  lemma {:induction false} SortStringsMembers(s: seq<string>)
    ensures forall x :: x in SortStrings(s) <==> x in s
  {
    forall x
      ensures x in SortStrings(s) <==> x in s
    {
      assert x in multiset(SortStrings(s)) <==> x in multiset(s);
    }
  }

  lemma {:induction false} StringAntisymmetric(a: string, b: string)
    requires StringLe(a, b) && StringLe(b, a)
    ensures a == b
  {
    if a != [] && b != [] {
      StringAntisymmetric(a[1..], b[1..]);
      assert a == [a[0]] + a[1..] && b == [b[0]] + b[1..];
    }
  }

  lemma {:induction false} StringReflexive(a: string)
    ensures StringLe(a, a)
  {
    if a != [] {
      StringReflexive(a[1..]);
    }
  }

  lemma {:induction false} StringTotal(a: string, b: string)
    ensures StringLe(a, b) || StringLe(b, a)
  {
    if a != [] && b != [] && a[0] == b[0] {
      StringTotal(a[1..], b[1..]);
    }
  }

  lemma {:induction false} StringTransitive(a: string, b: string, c: string)
    requires StringLe(a, b) && StringLe(b, c)
    ensures StringLe(a, c)
  {
    if a != [] && b != [] && c != [] && a[0] == b[0] == c[0] {
      StringTransitive(a[1..], b[1..], c[1..]);
    }
  }

  ghost predicate SortedStrings(s: seq<string>) {
    forall i, j :: 0 <= i < j < |s| ==> StringLe(s[i], s[j])
  }

  lemma {:induction false} InsertStringSorts(s: seq<string>, x: string)
    requires SortedStrings(s)
    ensures SortedStrings(InsertString(s, x))
  {
    if s != [] {
      var n, r := |s| - 1, InsertString(s, x);
      if StringLe(s[n], x) {
        forall i | 0 <= i < n
          ensures StringLe(s[i], x)
        {
          StringTransitive(s[i], s[n], x);
        }
      } else {
        InsertStringSorts(s[..n], x);
        StringTotal(s[n], x);
        forall y | y in InsertString(s[..n], x)
          ensures StringLe(y, s[n])
        {
          assert y in multiset(s[..n]) + multiset{x};
        }
      }
    }
  }

  lemma {:induction false} SortStringsSorts(s: seq<string>)
    ensures SortedStrings(SortStrings(s))
  {
    if s != [] {
      SortStringsSorts(s[..|s| - 1]);
      InsertStringSorts(SortStrings(s[..|s| - 1]), s[|s| - 1]);
    }
  }

  lemma {:induction false} SortedStringsUnique(s: seq<string>, t: seq<string>)
    requires SortedStrings(s) && SortedStrings(t) && multiset(s) == multiset(t)
    ensures s == t
  {
    assert |s| == |multiset(s)| == |multiset(t)| == |t|;
    if s != [] {
      var n := |s| - 1;
      assert s[n] in multiset(t) && t[n] in multiset(s);
      StringReflexive(s[n]);
      StringAntisymmetric(s[n], t[n]);
      PrefixMultiset(s);
      PrefixMultiset(t);
      SortedStringsUnique(s[..n], t[..n]);
      FrontAndLast(s, t);
    }
  }

  /** Lists sort alike exactly when they hold the same strings equally often. */
  lemma {:induction false} SortStringsIff(s: seq<string>, t: seq<string>)
    ensures SortStrings(s) == SortStrings(t) <==> multiset(s) == multiset(t)
  {
    SortStringsSorts(s);
    SortStringsSorts(t);
    if multiset(s) == multiset(t) {
      SortedStringsUnique(SortStrings(s), SortStrings(t));
    }
  }

  function Elements<T(!new)>(s: seq<T>): (r: set<T>)
    ensures forall x :: x in r <==> x in s
  {
    set x | x in s
  }
}
