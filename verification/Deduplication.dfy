/** Deduplication of the pointer index: one pointer per key survives, the oldest. */
module Deduplication {
  import opened Prelude
  import opened Records
  import opened FactStore
  import opened Pointers
  import opened Integrity

  /** A listing names every visible pointer of its scope once. */
  lemma {:induction false} OldestFirstLists(m: Mem, scope: string)
    requires ValidMem(m)
    ensures Distinct(OldestFirst(m, scope))
    ensures forall p :: p in OldestFirst(m, scope) <==> p in m.pointers && p.scope == scope && PointerVisible(m, p)
  {
    var visible, listed := VisiblePointers(m, scope), OldestFirst(m, scope);
    SortPermutes(visible, NewestPointerFirst);
    SortPermutes(ListPointers(m, scope), OldestPointerFirst);
    FilterIncreasing(m.pointers, (p: Pointer) => p.scope == scope && PointerVisible(m, p), PointerId);
    assert Distinct(visible);
    DistinctOfMultiset(visible, listed);
    forall p
      ensures p in listed <==> p in m.pointers && p.scope == scope && PointerVisible(m, p)
    {
      assert p in listed <==> p in multiset(listed);
      assert p in visible <==> p in multiset(visible);
    }
  }

  // --------------------------------------------------------------------- duplicates

  /** Position j of a listing repeats a key. */
  ghost predicate Repeats(s: seq<Pointer>, j: int) {
    0 <= j < |s| && exists i :: 0 <= i < j && KeyOf(s[i]) == KeyOf(s[j])
  }

  lemma {:induction false} RepeatsInPrefix(s: seq<Pointer>, j: nat)
    requires j < |s| - 1
    ensures Repeats(s, j) <==> Repeats(s[..|s| - 1], j)
  {
    hide KeyOf;
    assert forall i :: 0 <= i <= j ==> s[..|s| - 1][i] == s[i];
  }

  lemma {:induction false} LastDuplicate(s: seq<Pointer>)
    requires s != []
    ensures var n := |s| - 1; Duplicates(s) == Duplicates(s[..n]) + if Repeats(s, n) then [s[n]] else []
  {
    KeysOfPrefix(s, |s| - 1);
  }

  lemma {:induction false} DuplicatesRepeat(s: seq<Pointer>, p: Pointer)
    ensures p in Duplicates(s) <==> exists j :: Repeats(s, j) && s[j] == p
  {
    if s != [] {
      hide Duplicates, KeyOf;
      var n := |s| - 1;
      DuplicatesRepeat(s[..n], p);
      LastDuplicate(s);
      forall j | 0 <= j < n
        ensures Repeats(s, j) <==> Repeats(s[..n], j)
      {
        RepeatsInPrefix(s, j);
      }
      if p in Duplicates(s[..n]) {
        var j :| Repeats(s[..n], j) && s[..n][j] == p;
        assert Repeats(s, j) && s[j] == p;
      }
    }
  }

  lemma {:induction false} KeysOfPrefix(s: seq<Pointer>, n: nat)
    requires n < |s|
    ensures KeyOf(s[n]) in Keys(s[..n]) <==> Repeats(s, n)
  {
    if KeyOf(s[n]) in Keys(s[..n]) {
      var p :| p in s[..n] && KeyOf(p) == KeyOf(s[n]);
      var i :| 0 <= i < n && s[..n][i] == p;
      assert s[i] == p;
    }
    if Repeats(s, n) {
      var i :| 0 <= i < n && KeyOf(s[i]) == KeyOf(s[n]);
      assert s[..n][i] in s[..n];
    }
  }

  lemma {:induction false} FirstWithKey(s: seq<Pointer>, k: PointerKey) returns (i: nat)
    requires exists p :: p in s && KeyOf(p) == k
    ensures i < |s| && KeyOf(s[i]) == k && !Repeats(s, i)
  {
    var p :| p in s && KeyOf(p) == k;
    var at :| 0 <= at < |s| && s[at] == p;
    i := 0;
    while KeyOf(s[i]) != k
      invariant i <= at
      invariant forall j :: 0 <= j < i ==> KeyOf(s[j]) != k
      decreases at - i
    {
      i := i + 1;
    }
  }

  // -------------------------------------------------------------- what deduplication does

  /** A pointer is buried exactly when an older listed pointer has its key. */
  lemma {:induction false} DeduplicateBuries(m: Mem, scope: string, p: Pointer)
    requires ValidMem(m) && p in m.pointers && p.scope == scope && PointerVisible(m, p)
    ensures PointerVisible(Deduplicate(m, scope), p) <==> p !in Duplicates(OldestFirst(m, scope))
  {
    var listed := OldestFirst(m, scope);
    var dups := Duplicates(listed);
    BuryAllHides(m, scope, MatrixPointer, PointerKeys(dups));
    OldestFirstLists(m, scope);
    if p in dups {
      KeyListed(dups, (q: Pointer) => Issued(q.id), p);
      assert Tombstone(scope, MatrixPointer, Issued(p.id)) in Deduplicate(m, scope).tombstones;
    } else if Issued(p.id) in PointerKeys(dups) {
      var i :| 0 <= i < |dups| && PointerKeys(dups)[i] == Issued(p.id);
      DuplicatesRepeat(listed, dups[i]);
      assert dups[i] in listed;
      IncreasingInjective(m.pointers, PointerId, p, dups[i]);
    }
  }

  /** Only tombstones of pointers of the scope are added. */
  lemma {:induction false} DeduplicateFrame(m: Mem, scope: string)
    requires ValidMem(m)
    ensures var m' := Deduplicate(m, scope);
      && Buried(m, m', scope) && ValidMem(m')
      && (forall t :: t in m'.tombstones && t.kind != MatrixPointer ==> t in m.tombstones)
  {
    var dups := Duplicates(OldestFirst(m, scope));
    var keys := PointerKeys(dups);
    BuryAllHides(m, scope, MatrixPointer, keys);
    OldestFirstLists(m, scope);
    forall k | k in keys
      ensures k.Issued? && k.id < m.nextId
    {
      var i :| 0 <= i < |keys| && keys[i] == k;
      DuplicatesRepeat(OldestFirst(m, scope), dups[i]);
      assert dups[i] in OldestFirst(m, scope);
    }
  }

  /** For every visible pointer, one with its key stays visible. */
  lemma {:induction false} KeySurvives(m: Mem, scope: string, p: Pointer) returns (q: Pointer)
    requires ValidMem(m) && p in m.pointers && p.scope == scope && PointerVisible(m, p)
    ensures q in m.pointers && q.scope == scope && PointerVisible(Deduplicate(m, scope), q) && KeyOf(q) == KeyOf(p)
  {
    var listed := OldestFirst(m, scope);
    OldestFirstLists(m, scope);
    assert p in listed;
    var i := FirstWithKey(listed, KeyOf(p));
    q := listed[i];
    assert q in listed;
    DeduplicateBuries(m, scope, q);
    DuplicatesRepeat(listed, q);
    forall j | Repeats(listed, j)
      ensures listed[j] != q
    {
      assert j != i;
    }
  }

  /** Two pointers that stay visible have different keys. */
  lemma {:induction false} KeysUnique(m: Mem, scope: string, p: Pointer, q: Pointer)
    requires ValidMem(m) && p in m.pointers && q in m.pointers && p.scope == q.scope == scope
    requires PointerVisible(Deduplicate(m, scope), p) && PointerVisible(Deduplicate(m, scope), q)
    requires KeyOf(p) == KeyOf(q)
    ensures p == q
  {
    DeduplicateFrame(m, scope);
    assert PointerVisible(m, p) && PointerVisible(m, q);
    var listed := OldestFirst(m, scope);
    OldestFirstLists(m, scope);
    DeduplicateBuries(m, scope, p);
    DeduplicateBuries(m, scope, q);
    DuplicatesRepeat(listed, p);
    DuplicatesRepeat(listed, q);
    var i :| 0 <= i < |listed| && listed[i] == p;
    var j :| 0 <= j < |listed| && listed[j] == q;
    assert !Repeats(listed, i) && !Repeats(listed, j);
  }

  /** Deduplication keeps the set of keys and leaves each key on one pointer. */
  lemma {:induction false} DeduplicateKeepsKeys(m: Mem, scope: string)
    requires ValidMem(m)
    ensures var m' := Deduplicate(m, scope);
      && Keys(VisiblePointers(m', scope)) == Keys(VisiblePointers(m, scope))
      && forall p, q :: p in VisiblePointers(m', scope) && q in VisiblePointers(m', scope) && KeyOf(p) == KeyOf(q) ==> p == q
  {
    var m' := Deduplicate(m, scope);
    DeduplicateFrame(m, scope);
    forall k | k in Keys(VisiblePointers(m, scope))
      ensures k in Keys(VisiblePointers(m', scope))
    {
      var p :| p in VisiblePointers(m, scope) && KeyOf(p) == k;
      var q := KeySurvives(m, scope, p);
      assert q in VisiblePointers(m', scope);
    }
    forall p | p in VisiblePointers(m', scope)
      ensures p in VisiblePointers(m, scope)
    {
      assert PointerVisible(m, p);
    }
    forall p, q | p in VisiblePointers(m', scope) && q in VisiblePointers(m', scope) && KeyOf(p) == KeyOf(q)
      ensures p == q
    {
      KeysUnique(m, scope, p, q);
    }
  }

  lemma {:induction false} ListedTies(m: Mem, scope: string)
    requires ValidMem(m)
    ensures TiesByRank(OldestFirst(m, scope), OldestPointerFirst, PointerId)
  {
    var visible, listed := VisiblePointers(m, scope), ListPointers(m, scope);
    FilterIncreasing(m.pointers, (p: Pointer) => p.scope == scope && PointerVisible(m, p), PointerId);
    SortStable(visible, NewestPointerFirst, PointerId);
    forall i, j | 0 <= i < j < |listed| && OldestPointerFirst(listed[i]) == OldestPointerFirst(listed[j])
      ensures PointerId(listed[i]) < PointerId(listed[j])
    {
      assert NewestPointerFirst(listed[i]) == NewestPointerFirst(listed[j]);
    }
    SortStable(listed, OldestPointerFirst, PointerId);
  }

  /** The pointer that stays is the oldest of its key, and of equally old ones the one written first. */
  lemma {:induction false} SurvivorIsOldest(m: Mem, scope: string, p: Pointer, q: Pointer)
    requires ValidMem(m) && p in m.pointers && q in m.pointers && p.scope == q.scope == scope && p != q
    requires PointerVisible(Deduplicate(m, scope), p) && PointerVisible(m, q) && KeyOf(p) == KeyOf(q)
    ensures p.createdAt < q.createdAt || (p.createdAt == q.createdAt && p.id < q.id)
  {
    hide Deduplicate, KeyOf, ValidMem;
    DeduplicateFrame(m, scope);
    var listed := OldestFirst(m, scope);
    OldestFirstLists(m, scope);
    DeduplicateBuries(m, scope, p);
    DuplicatesRepeat(listed, p);
    ListedTies(m, scope);
    SortSorts(ListPointers(m, scope), OldestPointerFirst);
    var i :| 0 <= i < |listed| && listed[i] == p;
    var j :| 0 <= j < |listed| && listed[j] == q;
    assert !Repeats(listed, i);
    assert i < j;
    assert KeyLe(OldestPointerFirst(listed[i]), OldestPointerFirst(listed[j]));
  }

  lemma {:induction false} NoRepeatsNoDuplicates(s: seq<Pointer>)
    requires forall j :: !Repeats(s, j)
    ensures Duplicates(s) == []
  {
    if Duplicates(s) != [] {
      DuplicatesRepeat(s, Duplicates(s)[0]);
    }
  }

  /** A second deduplication buries nothing. */
  lemma {:induction false} DeduplicateIdempotent(m: Mem, scope: string)
    requires ValidMem(m)
    ensures Deduplicate(Deduplicate(m, scope), scope) == Deduplicate(m, scope)
    ensures Duplicates(OldestFirst(Deduplicate(m, scope), scope)) == []
  {
    var m' := Deduplicate(m, scope);
    DeduplicateFrame(m, scope);
    var listed := OldestFirst(m', scope);
    OldestFirstLists(m', scope);
    forall j | Repeats(listed, j)
      ensures false
    {
      var i :| 0 <= i < j && KeyOf(listed[i]) == KeyOf(listed[j]);
      assert listed[i] in listed && listed[j] in listed;
      KeysUnique(m, scope, listed[i], listed[j]);
    }
    NoRepeatsNoDuplicates(listed);
  }

  // ---------------------------------------------------------------- what it does not disturb

  lemma {:induction false} DeduplicateSameFacts(m: Mem, scope: string, other: string)
    requires ValidMem(m)
    ensures ListFacts(Deduplicate(m, scope), other) == ListFacts(m, other)
  {
    var m' := Deduplicate(m, scope);
    DeduplicateFrame(m, scope);
    FilterCongruence(m.facts, (f: Fact) => f.scope == other && FactVisible(m, f),
                              (f: Fact) => f.scope == other && FactVisible(m', f));
  }

  /** A rebuild has exactly as much to write after a deduplication as before it. */
  lemma {:induction false} DeduplicateRebuild(m: Mem, scope: string)
    requires ValidMem(m)
    ensures RebuildCount(Deduplicate(m, scope), scope) == RebuildCount(m, scope)
  {
    hide Deduplicate, ListFacts, VisiblePointers;
    var m' := Deduplicate(m, scope);
    var before, after := IndexKeys(ListPointers(m, scope)), IndexKeys(ListPointers(m', scope));
    DeduplicateSameFacts(m, scope, scope);
    DeduplicateFrame(m, scope);
    forall k | k in before
      ensures k in after
    {
      var p :| p in ListPointers(m, scope) && IndexKey(p.head, p.facts, p.patterns) == k;
      ListPointersMember(m, scope, p);
      var q := KeySurvives(m, scope, p);
      assert KeyOf(q).head == p.head && KeyOf(q).facts == p.facts && KeyOf(q).patterns == p.patterns;
      ListPointersMember(m', scope, q);
    }
    forall k | k in after
      ensures k in before
    {
      var p :| p in ListPointers(m', scope) && IndexKey(p.head, p.facts, p.patterns) == k;
      ListPointersMember(m', scope, p);
      ListPointersMember(m, scope, p);
    }
    assert before == after;
  }

  lemma {:induction false} DeduplicateKeeps(m: Mem, scope: string, other: string)
    requires ValidMem(m)
    ensures Grounded(m) ==> Grounded(Deduplicate(m, scope))
    ensures Complete(m, other) ==> Complete(Deduplicate(m, scope), other)
  {
    var m' := Deduplicate(m, scope);
    DeduplicateFrame(m, scope);
    assert forall f :: FactVisible(m', f) == FactVisible(m, f);
    if Grounded(m) {
      BuriedShrinks(m, m', scope);
      ShrinkPointers(m, m', scope);
    }
    if Complete(m, other) {
      forall f | f in m'.facts && f.scope == other && FactVisible(m', f)
        ensures Pointed(m', f)
      {
        var p :| Stands(m, f, p);
        if other == scope {
          var q := KeySurvives(m, scope, p);
          assert Stands(m', f, q);
        } else {
          assert Stands(m', f, p);
        }
      }
    }
  }
}
