/** Hard purge, rebuild and deduplication of the pointer index: what a purge leaves, what a
    rebuild restores, and what deduplication keeps (memory/matrix.py). */
module Restoration {
  import opened Prelude
  import opened Records
  import opened FactStore
  import opened Pointers
  import opened Integrity

  // ----------------------------------------------------------------------- hard purge

  function FactsAfterPurge(m: Mem, scope: string): seq<Fact> {
    Filter(m.facts, (f: Fact) => !(f.scope == scope && FactVisible(m, f)))
  }

  function PointersAfterPurge(m: Mem, scope: string): seq<Pointer> {
    Filter(m.pointers, (p: Pointer) => !(p.scope == scope && PointerVisible(m, p)))
  }

  /** What purging a list of kinds does to the dictionaries of the index; order and repetition
      of the kinds do not matter. */
  ghost predicate Purged(m: Mem, m': Mem, scope: string, kinds: seq<Kind>) {
    && m'.facts == (if SemanticFact in kinds then FactsAfterPurge(m, scope) else m.facts)
    && m'.pointers == (if MatrixPointer in kinds then PointersAfterPurge(m, scope) else m.pointers)
    && m'.tombstones == m.tombstones && m'.nextId == m.nextId
    && (forall p :: p in m'.patterns ==> p in m.patterns)
    && (forall s :: s in m'.segments ==> s in m.segments)
    && (forall e :: e in m'.episodes ==> e in m.episodes)
  }

  lemma {:induction false} PurgeFactsAgain(m: Mem, before: Mem, scope: string)
    requires before.tombstones == m.tombstones
    requires before.facts == m.facts || before.facts == FactsAfterPurge(m, scope)
    ensures FactsAfterPurge(before, scope) == FactsAfterPurge(m, scope)
  {
    var keep := (f: Fact) => !(f.scope == scope && FactVisible(m, f));
    var keep' := (f: Fact) => !(f.scope == scope && FactVisible(before, f));
    FilterCongruence(before.facts, keep, keep');
    if before.facts != m.facts {
      FilterAll(before.facts, keep);
    }
  }

  lemma {:induction false} PurgePointersAgain(m: Mem, before: Mem, scope: string)
    requires before.tombstones == m.tombstones
    requires before.pointers == m.pointers || before.pointers == PointersAfterPurge(m, scope)
    ensures PointersAfterPurge(before, scope) == PointersAfterPurge(m, scope)
  {
    var keep := (p: Pointer) => !(p.scope == scope && PointerVisible(m, p));
    var keep' := (p: Pointer) => !(p.scope == scope && PointerVisible(before, p));
    FilterCongruence(before.pointers, keep, keep');
    if before.pointers != m.pointers {
      FilterAll(before.pointers, keep);
    }
  }

  lemma {:induction false} PurgeOneMore(m: Mem, before: Mem, scope: string, kinds: seq<Kind>, kind: Kind)
    requires Purged(m, before, scope, kinds)
    ensures Purged(m, PurgeKind(before, scope, kind), scope, kinds + [kind])
  {
    match kind
    case SemanticFact => PurgeFactsAgain(m, before, scope);
    case MatrixPointer => PurgePointersAgain(m, before, scope);
    case _ =>
  }

  lemma {:induction false} PurgeKindsEffect(m: Mem, scope: string, kinds: seq<Kind>)
    ensures Purged(m, PurgeKinds(m, scope, kinds), scope, kinds)
  {
    if kinds != [] {
      var n := |kinds| - 1;
      PurgeKindsEffect(m, scope, kinds[..n]);
      PurgeOneMore(m, PurgeKinds(m, scope, kinds[..n]), scope, kinds[..n], kinds[n]);
      assert kinds == kinds[..n] + [kinds[n]];
    }
  }

  /** A hard purge shows nothing new, touches no other scope, and leaves the scope without a
      visible fact when facts are requested, without a visible pointer when pointers are. */
  ghost predicate PurgeOutcome(m: Mem, m': Mem, scope: string, kinds: seq<Kind>) {
    && m'.tombstones == m.tombstones && m'.nextId == m.nextId
    && Increasing(m'.facts, FactId) && Increasing(m'.pointers, PointerId)
    && (forall f :: f in m'.facts ==> f in m.facts)
    && (forall p :: p in m'.pointers ==> p in m.pointers)
    && (forall f :: f in m.facts && !(SemanticFact in kinds && f.scope == scope && FactVisible(m, f)) ==> f in m'.facts)
    && (SemanticFact in kinds ==> forall f :: f in m'.facts && f.scope == scope ==> !FactVisible(m, f))
    && (MatrixPointer in kinds ==> forall p :: p in m'.pointers && p.scope == scope ==> !PointerVisible(m, p))
    && (forall p :: p in m.pointers && !(p.scope == scope && PointerVisible(m, p)) ==> p in m'.pointers)
  }

  lemma {:induction false} CascadedVisible(m: Mem, scope: string, kinds: seq<Kind>, p: Pointer)
    requires ValidMem(m) && p in m.pointers && p.id in Cascaded(m, scope, kinds)
    ensures p.scope == scope && PointerVisible(m, p)
  {
    var q :| q in ListPointers(m, scope) && q.id == p.id;
    ListPointersMember(m, scope, q);
    IncreasingInjective(m.pointers, PointerId, p, q);
  }

  lemma {:induction false} OutsidersSurvive(m: Mem, scope: string, kinds: seq<Kind>, p: Pointer)
    requires ValidMem(m) && p in m.pointers && !(p.scope == scope && PointerVisible(m, p))
    ensures p in HardPurge(m, scope, kinds).pointers
  {
    var m1 := PurgeKinds(m, scope, Requested(kinds));
    PurgeKindsEffect(m, scope, Requested(kinds));
    assert p in m1.pointers;
    if p.id in Cascaded(m, scope, Requested(kinds)) {
      CascadedVisible(m, scope, Requested(kinds), p);
    }
  }

  lemma {:induction false} PointersOutcome(m: Mem, scope: string, kinds: seq<Kind>)
    requires ValidMem(m)
    ensures var m' := HardPurge(m, scope, kinds);
      && Increasing(m'.pointers, PointerId)
      && (forall p :: p in m'.pointers ==> p in m.pointers)
      && (MatrixPointer in Requested(kinds) ==> forall p :: p in m'.pointers && p.scope == scope ==> !PointerVisible(m, p))
      && (forall p :: p in m.pointers && !(p.scope == scope && PointerVisible(m, p)) ==> p in m'.pointers)
  {
    var m1 := PurgeKinds(m, scope, Requested(kinds));
    PurgeKindsEffect(m, scope, Requested(kinds));
    FilterIncreasing(m.pointers, (p: Pointer) => !(p.scope == scope && PointerVisible(m, p)), PointerId);
    FilterIncreasing(m1.pointers, (p: Pointer) => p.id !in Cascaded(m, scope, Requested(kinds)), PointerId);
    forall p | p in m.pointers && !(p.scope == scope && PointerVisible(m, p))
      ensures p in HardPurge(m, scope, kinds).pointers
    {
      OutsidersSurvive(m, scope, kinds, p);
    }
  }

  lemma {:induction false} HardPurgeOutcome(m: Mem, scope: string, kinds: seq<Kind>)
    requires ValidMem(m)
    ensures PurgeOutcome(m, HardPurge(m, scope, kinds), scope, Requested(kinds))
  {
    PurgeKindsEffect(m, scope, Requested(kinds));
    FilterIncreasing(m.facts, (f: Fact) => !(f.scope == scope && FactVisible(m, f)), FactId);
    PointersOutcome(m, scope, kinds);
  }

  lemma {:induction false} HardPurgeValid(m: Mem, scope: string, kinds: seq<Kind>)
    requires ValidMem(m)
    ensures ValidMem(HardPurge(m, scope, kinds))
  {
    HardPurgeOutcome(m, scope, kinds);
    PurgeKindsEffect(m, scope, Requested(kinds));
  }

  /** When facts go without their pointers being requested, the cascade takes every pointer
      at them, so no visible fact pointer of the scope is left. */
  lemma {:induction false} CascadeReaches(m: Mem, scope: string, kinds: seq<Kind>, p: Pointer)
    requires ValidMem(m) && Grounded(m) && SemanticFact in Requested(kinds)
    requires p in HardPurge(m, scope, kinds).pointers && p.scope == scope && PointerVisible(m, p)
    ensures p.facts == []
  {
    HardPurgeOutcome(m, scope, kinds);
    if p.facts != [] {
      var f :| Grounds(m, p, f);
      assert p.facts == FactKey(f).facts == [f.id];
      ListFactsMember(m, scope, f);
      ListPointersMember(m, scope, p);
    }
  }

  /** Whatever kinds are requested, a hard purge leaves the index grounded. */
  lemma {:induction false} HardPurgeGrounded(m: Mem, scope: string, kinds: seq<Kind>)
    requires ValidMem(m) && Grounded(m)
    ensures Grounded(HardPurge(m, scope, kinds))
  {
    var m' := HardPurge(m, scope, kinds);
    HardPurgeOutcome(m, scope, kinds);
    assert Shrinks(m, m', scope);
    if SemanticFact in Requested(kinds) {
      forall p | p in m'.pointers && p.scope == scope && PointerVisible(m', p)
        ensures p.facts == []
      {
        CascadeReaches(m, scope, kinds, p);
      }
      ShrinkToNothing(m, m', scope, scope);
    } else {
      ShrinkPointers(m, m', scope);
    }
  }

  lemma {:induction false} PointersUnasked(m: Mem, scope: string, kinds: seq<Kind>)
    requires SemanticFact !in Requested(kinds) && MatrixPointer !in Requested(kinds)
    ensures HardPurge(m, scope, kinds).pointers == m.pointers
  {
    PurgeKindsEffect(m, scope, Requested(kinds));
    FilterAll(m.pointers, (p: Pointer) => p.id !in {});
    FilterCongruence(m.pointers, (p: Pointer) => p.id !in {},
                                 (p: Pointer) => p.id !in Cascaded(m, scope, Requested(kinds)));
  }

  /** The purges that take pointers only together with the facts they stand for. */
  predicate TakesFactsToo(kinds: seq<Kind>) {
    MatrixPointer in Requested(kinds) ==> SemanticFact in Requested(kinds)
  }

  lemma {:induction false} PointerSurvives(m: Mem, scope: string, kinds: seq<Kind>, f: Fact, p: Pointer)
    requires ValidMem(m) && (f.scope != scope || TakesFactsToo(kinds))
    requires f in HardPurge(m, scope, kinds).facts && FactVisible(m, f) && Stands(m, f, p)
    ensures p in HardPurge(m, scope, kinds).pointers
  {
    if f.scope == scope {
      PurgeKindsEffect(m, scope, Requested(kinds));
      PointersUnasked(m, scope, kinds);
    } else {
      PointersOutcome(m, scope, kinds);
    }
  }

  /** A purge that takes pointers only together with facts leaves every index complete. */
  lemma {:induction false} HardPurgeComplete(m: Mem, scope: string, kinds: seq<Kind>, other: string)
    requires ValidMem(m) && Complete(m, other)
    requires other != scope || TakesFactsToo(kinds)
    ensures Complete(HardPurge(m, scope, kinds), other)
  {
    var m' := HardPurge(m, scope, kinds);
    PurgeKindsEffect(m, scope, Requested(kinds));
    forall f | f in m'.facts && f.scope == other && FactVisible(m', f)
      ensures Pointed(m', f)
    {
      assert FactVisible(m, f) && f in m.facts;
      var p :| Stands(m, f, p);
      PointerSurvives(m, scope, kinds, f, p);
      assert Stands(m', f, p);
    }
  }

  // -------------------------------------------------------------------------- rebuild

  /** Only pointers of the scope are added; what was visible stays visible. */
  ghost predicate AddsPointers(m: Mem, m': Mem, scope: string) {
    && m' == m.(pointers := m'.pointers, nextId := m'.nextId)
    && (forall p :: p in m.pointers ==> p in m'.pointers)
    && (forall p :: p in m'.pointers && p !in m.pointers ==> p.scope == scope)
  }

  lemma {:induction false} AddsTwice(m: Mem, before: Mem, m': Mem, scope: string)
    requires AddsPointers(m, before, scope) && AddsPointers(before, m', scope)
    ensures AddsPointers(m, m', scope)
  {
  }

  lemma {:induction false} RebuildFrame(m: Mem, scope: string, facts: seq<Fact>, existing: set<IndexKey>, now: Time)
    requires ValidMem(m) && Grounded(m)
    requires forall f :: f in facts ==> f in m.facts && FactVisible(m, f) && f.scope == scope
    ensures var m' := RebuildFrom(m, scope, facts, existing, now);
      ValidMem(m') && Grounded(m') && AddsPointers(m, m', scope)
  {
    if facts != [] {
      var n := |facts| - 1;
      var f, before := facts[n], RebuildFrom(m, scope, facts[..n], existing, now);
      RebuildFrame(m, scope, facts[..n], existing, now);
      if !Indexed(existing, f) {
        assert f in facts;
        assert FactVisible(before, f);
        RebuildStep(before, scope, f, now);
        AddsTwice(m, before, WritePointer(before, scope, FactKey(f), now), scope);
      }
    }
  }

  /** A rebuild writes a pointer for each listed fact that no index key names. */
  lemma {:induction false} RebuildStands(m: Mem, scope: string, facts: seq<Fact>, existing: set<IndexKey>, now: Time, f: Fact)
    requires ValidMem(m) && Grounded(m)
    requires forall g :: g in facts ==> g in m.facts && FactVisible(m, g) && g.scope == scope
    requires f in facts && !Indexed(existing, f)
    ensures Pointed(RebuildFrom(m, scope, facts, existing, now), f)
  {
    var n := |facts| - 1;
    var last, before := facts[n], RebuildFrom(m, scope, facts[..n], existing, now);
    assert last in facts && facts == facts[..n] + [last];
    RebuildFrame(m, scope, facts[..n], existing, now);
    assert FactVisible(before, last);
    if f == last {
      RebuildStep(before, scope, last, now);
    } else {
      RebuildStands(m, scope, facts[..n], existing, now, f);
      if !Indexed(existing, last) {
        RebuildStep(before, scope, last, now);
        StandsOn(before, WritePointer(before, scope, FactKey(last), now), scope, f);
      }
    }
  }

  lemma {:induction false} StandsOn(m: Mem, m': Mem, scope: string, f: Fact)
    requires AddsPointers(m, m', scope) && Pointed(m, f)
    ensures Pointed(m', f)
  {
    var p :| Stands(m, f, p);
    assert Stands(m', f, p);
  }

  lemma {:induction false} RebuildStep(m: Mem, scope: string, f: Fact, now: Time)
    requires ValidMem(m) && Grounded(m) && f in m.facts && FactVisible(m, f) && f.scope == scope
    ensures var m' := WritePointer(m, scope, FactKey(f), now);
      && ValidMem(m') && Grounded(m') && AddsPointers(m, m', scope)
      && Pointed(m', f)
  {
    var m' := WritePointer(m, scope, FactKey(f), now);
    WritePointerShows(m, scope, FactKey(f), now);
    WritePointerGrounded(m, scope, FactKey(f), now);
    var k := FactKey(f);
    var p := Pointer(m.nextId, scope, k.head, k.episodes, k.facts, k.patterns, now);
    assert p in m'.pointers && PointerVisible(m', p);
    assert Stands(m', f, p);
  }

  /** In a grounded index, a fact that the index names already has its own pointer. */
  lemma {:induction false} IndexedStands(m: Mem, scope: string, f: Fact)
    requires ValidMem(m) && Grounded(m) && f in m.facts && FactVisible(m, f) && f.scope == scope
    ensures Indexed(IndexKeys(ListPointers(m, scope)), f) <==> Pointed(m, f)
  {
    if Indexed(IndexKeys(ListPointers(m, scope)), f) {
      var p :| p in ListPointers(m, scope) && IndexKey(p.head, p.facts, p.patterns) == IndexKey(f.head, [f.id], []);
      ListPointersMember(m, scope, p);
      var g :| Grounds(m, p, g);
      assert [g.id] == p.facts == [f.id];
      assert g.id == [g.id][0] == f.id;
      IncreasingInjective(m.facts, FactId, f, g);
      assert Stands(m, f, p);
    }
    if Pointed(m, f) {
      var p :| Stands(m, f, p);
      ListPointersMember(m, scope, p);
      var k := KeyOf(p);
      assert IndexKey(p.head, p.facts, p.patterns) == IndexKey(k.head, k.facts, k.patterns) == IndexKey(f.head, [f.id], []);
    }
  }

  /** A rebuild leaves the index of its scope grounded and complete. */
  lemma {:induction false} RebuildCompletes(m: Mem, scope: string, now: Time)
    requires ValidMem(m) && Grounded(m)
    ensures var m' := Rebuild(m, scope, now); ValidMem(m') && Grounded(m') && Complete(m', scope)
  {
    var facts, existing := ListFacts(m, scope), IndexKeys(ListPointers(m, scope));
    var m' := Rebuild(m, scope, now);
    forall f | f in facts
      ensures f in m.facts && FactVisible(m, f) && f.scope == scope
    {
      ListFactsMember(m, scope, f);
    }
    RebuildFrame(m, scope, facts, existing, now);
    forall f | f in m'.facts && f.scope == scope && FactVisible(m', f)
      ensures Pointed(m', f)
    {
      ListFactsMember(m, scope, f);
      if Indexed(existing, f) {
        IndexedStands(m, scope, f);
        StandsOn(m, m', scope, f);
      } else {
        RebuildStands(m, scope, facts, existing, now, f);
      }
    }
  }

  /** A rebuild of one scope leaves the index of every other scope complete. */
  lemma {:induction false} RebuildKeepsOthers(m: Mem, scope: string, now: Time, other: string)
    requires ValidMem(m) && Grounded(m) && Complete(m, other)
    ensures Complete(Rebuild(m, scope, now), other)
  {
    var m' := Rebuild(m, scope, now);
    forall f | f in ListFacts(m, scope)
      ensures f in m.facts && FactVisible(m, f) && f.scope == scope
    {
      ListFactsMember(m, scope, f);
    }
    RebuildFrame(m, scope, ListFacts(m, scope), IndexKeys(ListPointers(m, scope)), now);
    forall f | f in m'.facts && f.scope == other && FactVisible(m', f)
      ensures Pointed(m', f)
    {
      assert FactVisible(m, f);
      StandsOn(m, m', scope, f);
    }
  }

  /** A rebuild of a complete index writes nothing. */
  lemma {:induction false} RebuildIdle(m: Mem, scope: string, now: Time)
    requires ValidMem(m) && Grounded(m) && Complete(m, scope)
    ensures RebuildCount(m, scope) == 0 && Rebuild(m, scope, now) == m
  {
    var facts, existing := ListFacts(m, scope), IndexKeys(ListPointers(m, scope));
    forall f | f in facts
      ensures Indexed(existing, f)
    {
      ListFactsMember(m, scope, f);
      IndexedStands(m, scope, f);
    }
    FilterNone(facts, (f: Fact) => !Indexed(existing, f));
    RebuildNothing(m, scope, facts, existing, now);
  }

  lemma {:induction false} RebuildNothing(m: Mem, scope: string, facts: seq<Fact>, existing: set<IndexKey>, now: Time)
    requires forall f :: f in facts ==> Indexed(existing, f)
    ensures RebuildFrom(m, scope, facts, existing, now) == m
  {
    if facts != [] {
      RebuildNothing(m, scope, facts[..|facts| - 1], existing, now);
    }
  }

  /** Purging only the pointers of a scope and rebuilding gives the keys its facts call for,
      and a second rebuild writes nothing. */
  lemma {:induction false} PurgeThenRebuild(m: Mem, scope: string, now: Time, later: Time)
    requires ValidMem(m) && Grounded(m)
    ensures var rebuilt := Rebuild(HardPurge(m, scope, [MatrixPointer]), scope, now);
      && FactPointerKeys(rebuilt, scope) == CalledFor(m, scope)
      && RebuildCount(rebuilt, scope) == 0
      && Rebuild(rebuilt, scope, later) == rebuilt
  {
    hide Rebuild, RebuildCount, Complete;
    var purged := HardPurge(m, scope, [MatrixPointer]);
    HardPurgeValid(m, scope, [MatrixPointer]);
    HardPurgeGrounded(m, scope, [MatrixPointer]);
    RebuildCompletes(purged, scope, now);
    var rebuilt := Rebuild(purged, scope, now);
    KeysCalledFor(rebuilt, scope);
    RebuildIdle(rebuilt, scope, later);
    RebuildSameFacts(purged, scope, now);
    PurgeKindsEffect(m, scope, [MatrixPointer]);
    assert rebuilt.facts == m.facts;
    FilterCongruence(m.facts, (f: Fact) => f.scope == scope && FactVisible(m, f),
                              (f: Fact) => f.scope == scope && FactVisible(rebuilt, f));
  }

  lemma {:induction false} RebuildSameFacts(m: Mem, scope: string, now: Time)
    requires ValidMem(m) && Grounded(m)
    ensures Rebuild(m, scope, now).facts == m.facts && Rebuild(m, scope, now).tombstones == m.tombstones
  {
    forall f | f in ListFacts(m, scope)
      ensures f in m.facts && FactVisible(m, f) && f.scope == scope
    {
      ListFactsMember(m, scope, f);
    }
    RebuildFrame(m, scope, ListFacts(m, scope), IndexKeys(ListPointers(m, scope)), now);
  }

  lemma {:induction false} CalledForComplete(m: Mem, scope: string)
    requires FactPointerKeys(m, scope) == CalledFor(m, scope)
    ensures Complete(m, scope)
  {
    forall f | f in m.facts && f.scope == scope && FactVisible(m, f)
      ensures Pointed(m, f)
    {
      assert f in VisibleFacts(m, scope);
      assert FactKey(f) in FactPointerKeys(m, scope);
      var p :| p in VisiblePointers(m, scope) && p.facts != [] && KeyOf(p) == FactKey(f);
      assert Stands(m, f, p);
    }
  }

  /** Purging the pointers and rebuilding restores the same fact pointer keys exactly when
      the index was complete, as it is after writes through consolidation. */
  lemma {:induction false} RestoresIffComplete(m: Mem, scope: string, now: Time)
    requires ValidMem(m) && Grounded(m)
    ensures FactPointerKeys(Rebuild(HardPurge(m, scope, [MatrixPointer]), scope, now), scope) == FactPointerKeys(m, scope)
       <==> Complete(m, scope)
  {
    PurgeThenRebuild(m, scope, now, now);
    if Complete(m, scope) {
      KeysCalledFor(m, scope);
    }
    if FactPointerKeys(m, scope) == CalledFor(m, scope) {
      CalledForComplete(m, scope);
    }
  }
}
