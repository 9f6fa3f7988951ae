/** The pointer index agrees with the facts: what every operation keeps, and what a rebuild
    restores. */
module Integrity {
  import opened Prelude
  import opened Records
  import opened FactStore
  import opened Pointers

  // ------------------------------------------------------------------- the invariants

  ghost predicate Grounds(m: Mem, p: Pointer, f: Fact) {
    f in m.facts && FactVisible(m, f) && f.scope == p.scope && KeyOf(p) == FactKey(f)
  }

  /** Every visible fact pointer stands for a visible fact of its own scope. */
  ghost predicate Grounded(m: Mem) {
    forall p :: p in m.pointers && PointerVisible(m, p) && p.facts != [] ==> exists f :: Grounds(m, p, f)
  }

  ghost predicate Stands(m: Mem, f: Fact, p: Pointer) {
    p in m.pointers && PointerVisible(m, p) && p.scope == f.scope && KeyOf(p) == FactKey(f)
  }

  ghost predicate Pointed(m: Mem, f: Fact) {
    exists p :: Stands(m, f, p)
  }

  /** Every visible fact of the scope has a visible pointer. */
  ghost predicate Complete(m: Mem, scope: string) {
    forall f :: f in m.facts && f.scope == scope && FactVisible(m, f) ==> Pointed(m, f)
  }

  /** The keys of the visible fact pointers of a scope. */
  ghost function FactPointerKeys(m: Mem, scope: string): set<PointerKey> {
    set p | p in VisiblePointers(m, scope) && p.facts != [] :: KeyOf(p)
  }

  /** The keys the visible facts of a scope call for. */
  ghost function CalledFor(m: Mem, scope: string): set<PointerKey> {
    set f | f in VisibleFacts(m, scope) :: FactKey(f)
  }

  /** A grounded pointer's targets are visible facts of its own scope. */
  lemma {:induction false} GroundedTargets(m: Mem, p: Pointer, id: Id)
    requires Grounded(m) && p in m.pointers && PointerVisible(m, p) && id in p.facts
    ensures exists f :: f in m.facts && FactVisible(m, f) && f.scope == p.scope && f.id == id
  {
    var f :| Grounds(m, p, f);
    assert p.facts == FactKey(f).facts == [f.id];
  }

  lemma {:induction false} GroundedKeys(m: Mem, scope: string)
    requires Grounded(m)
    ensures FactPointerKeys(m, scope) <= CalledFor(m, scope)
  {
    forall p | p in VisiblePointers(m, scope) && p.facts != []
      ensures KeyOf(p) in CalledFor(m, scope)
    {
      var f :| Grounds(m, p, f);
      assert f in VisibleFacts(m, scope);
    }
  }

  lemma {:induction false} CompleteKeys(m: Mem, scope: string)
    requires Complete(m, scope)
    ensures CalledFor(m, scope) <= FactPointerKeys(m, scope)
  {
    forall f | f in VisibleFacts(m, scope)
      ensures FactKey(f) in FactPointerKeys(m, scope)
    {
      var p :| Stands(m, f, p);
      assert p in VisiblePointers(m, scope);
      assert KeyOf(p).facts == [f.id];
    }
  }

  /** A grounded and complete index has exactly the keys its facts call for. */
  lemma {:induction false} KeysCalledFor(m: Mem, scope: string)
    requires Grounded(m) && Complete(m, scope)
    ensures FactPointerKeys(m, scope) == CalledFor(m, scope)
  {
    GroundedKeys(m, scope);
    CompleteKeys(m, scope);
  }

  // -------------------------------------------------------------------- frame conditions

  /** Facts keep their identity, scope, head and provenance; only status and end may change. */
  ghost predicate FactsAlike(old_: seq<Fact>, new_: seq<Fact>) {
    && |old_| == |new_|
    && forall i :: 0 <= i < |old_| ==>
         new_[i] == old_[i].(status := new_[i].status, validUntil := new_[i].validUntil)
  }

  lemma {:induction false} AlikeMember(a: seq<Fact>, b: seq<Fact>, f: Fact) returns (g: Fact)
    requires FactsAlike(a, b) && f in a
    ensures g in b && g.id == f.id && g.scope == f.scope && FactKey(g) == FactKey(f)
  {
    var i :| 0 <= i < |a| && a[i] == f;
    g := b[i];
    assert FactKey(g) == FactKey(f);
  }

  lemma {:induction false} AlikeBack(a: seq<Fact>, b: seq<Fact>, g: Fact) returns (f: Fact)
    requires FactsAlike(a, b) && g in b
    ensures f in a && g.id == f.id && g.scope == f.scope && FactKey(g) == FactKey(f)
  {
    var i :| 0 <= i < |b| && b[i] == g;
    f := a[i];
    assert FactKey(g) == FactKey(f);
  }

  /** A change of statuses and interval ends keeps the index grounded and complete. */
  lemma {:induction false} AlikeKeeps(m: Mem, facts: seq<Fact>, scope: string)
    requires FactsAlike(m.facts, facts)
    ensures Grounded(m) ==> Grounded(m.(facts := facts))
    ensures Complete(m, scope) ==> Complete(m.(facts := facts), scope)
  {
    var m' := m.(facts := facts);
    if Grounded(m) {
      forall p | p in m'.pointers && PointerVisible(m', p) && p.facts != []
        ensures exists f :: Grounds(m', p, f)
      {
        assert PointerVisible(m, p);
        var f :| Grounds(m, p, f);
        var g := AlikeMember(m.facts, facts, f);
        assert Grounds(m', p, g);
      }
    }
    if Complete(m, scope) {
      forall g | g in m'.facts && g.scope == scope && FactVisible(m', g)
        ensures Pointed(m', g)
      {
        var f := AlikeBack(m.facts, facts, g);
        assert FactVisible(m, f);
        var p :| Stands(m, f, p);
        assert Stands(m', g, p);
      }
    }
  }

  /** The dictionaries the index depends on are untouched. */
  ghost predicate SameIndex(m: Mem, m': Mem) {
    m'.facts == m.facts && m'.pointers == m.pointers && m'.tombstones == m.tombstones
  }

  lemma {:induction false} SameIndexKeeps(m: Mem, m': Mem, scope: string)
    requires SameIndex(m, m')
    ensures Grounded(m) ==> Grounded(m')
    ensures Complete(m, scope) ==> Complete(m', scope)
  {
    assert forall p :: PointerVisible(m', p) == PointerVisible(m, p);
    assert forall f :: FactVisible(m', f) == FactVisible(m, f);
    if Grounded(m) {
      forall p | p in m'.pointers && PointerVisible(m', p) && p.facts != []
        ensures exists f :: Grounds(m', p, f)
      {
        var f :| Grounds(m, p, f);
        assert Grounds(m', p, f);
      }
    }
    if Complete(m, scope) {
      forall f | f in m'.facts && f.scope == scope && FactVisible(m', f)
        ensures Pointed(m', f)
      {
        var p :| Stands(m, f, p);
        assert Stands(m', f, p);
      }
    }
  }

  // ------------------------------------------------------------------------- writing

  /** One more pointer, under a fresh id. */
  lemma {:induction false} WritePointerShows(m: Mem, scope: string, key: PointerKey, now: Time)
    requires ValidMem(m)
    ensures var m' := WritePointer(m, scope, key, now);
      && ValidMem(m')
      && (forall p :: p in m'.pointers && PointerVisible(m', p) <==>
            (p in m.pointers && PointerVisible(m, p))
            || p == Pointer(m.nextId, scope, key.head, key.episodes, key.facts, key.patterns, now))
  {
    var p := Pointer(m.nextId, scope, key.head, key.episodes, key.facts, key.patterns, now);
    var m' := WritePointer(m, scope, key, now);
    forall i, j | 0 <= i < j < |m'.pointers|
      ensures PointerId(m'.pointers[i]) < PointerId(m'.pointers[j])
    {
      assert m'.pointers[i] in m.pointers;
    }
    assert !Hidden(m, scope, MatrixPointer, Issued(m.nextId));
  }

  /** A pointer written for a visible fact, or for no fact, keeps the index grounded. */
  lemma {:induction false} WritePointerGrounded(m: Mem, scope: string, key: PointerKey, now: Time)
    requires ValidMem(m) && Grounded(m)
    requires key.facts == []
          || exists f :: f in m.facts && FactVisible(m, f) && f.scope == scope && FactKey(f) == key
    ensures Grounded(WritePointer(m, scope, key, now))
  {
    var m' := WritePointer(m, scope, key, now);
    WritePointerShows(m, scope, key, now);
    forall p | p in m'.pointers && PointerVisible(m', p) && p.facts != []
      ensures exists f :: Grounds(m', p, f)
    {
      if p in m.pointers && PointerVisible(m, p) {
        var f :| Grounds(m, p, f);
        assert Grounds(m', p, f);
      } else {
        assert KeyOf(p) == key;
        var f :| f in m.facts && FactVisible(m, f) && f.scope == scope && FactKey(f) == key;
        assert Grounds(m', p, f);
      }
    }
  }

  lemma {:induction false} WritePointerComplete(m: Mem, scope: string, key: PointerKey, now: Time, other: string)
    requires ValidMem(m)
    requires forall f :: f in m.facts && f.scope == other && FactVisible(m, f) && !(other == scope && FactKey(f) == key)
               ==> Pointed(m, f)
    ensures Complete(WritePointer(m, scope, key, now), other)
  {
    var m' := WritePointer(m, scope, key, now);
    WritePointerShows(m, scope, key, now);
    forall f | f in m'.facts && f.scope == other && FactVisible(m', f)
      ensures Pointed(m', f)
    {
      assert FactVisible(m, f);
      if other == scope && FactKey(f) == key {
        var p := Pointer(m.nextId, scope, key.head, key.episodes, key.facts, key.patterns, now);
        assert Stands(m', f, p);
      } else {
        var p :| Stands(m, f, p);
        assert Stands(m', f, p);
      }
    }
  }

  lemma {:induction false} CloseAlike(facts: seq<Fact>, ids: seq<Id>, until: Time)
    ensures FactsAlike(facts, Close(facts, ids, until))
  {
  }

  /** A new visible fact grounds no less; only the fact itself lacks a pointer. */
  lemma {:induction false} AppendFact(m: Mem, m': Mem, fact: Fact, scope: string)
    requires m'.facts == m.facts + [fact] && m'.pointers == m.pointers && m'.tombstones == m.tombstones
    ensures Grounded(m) ==> Grounded(m')
    ensures Complete(m, scope) ==>
      forall f :: f in m'.facts && f.scope == scope && FactVisible(m', f) && f != fact ==> Pointed(m', f)
  {
    if Grounded(m) {
      forall p | p in m'.pointers && PointerVisible(m', p) && p.facts != []
        ensures exists f :: Grounds(m', p, f)
      {
        assert PointerVisible(m, p);
        var f :| Grounds(m, p, f);
        assert Grounds(m', p, f);
      }
    }
    if Complete(m, scope) {
      forall f | f in m'.facts && f.scope == scope && FactVisible(m', f) && f != fact
        ensures Pointed(m', f)
      {
        assert f in m.facts && FactVisible(m, f);
        var p :| Stands(m, f, p);
        assert Stands(m', f, p);
      }
    }
  }

  lemma {:induction false} ConsolidateFrame(m: Mem, c: Candidate, now: Time) returns (closed: seq<Fact>)
    ensures FactsAlike(m.facts, closed)
    ensures var m' := Consolidate(m, c, now);
      && m'.facts == closed + [NewFact(m, c, now)]
      && m'.pointers == m.pointers && m'.tombstones == m.tombstones && m'.nextId == m.nextId + 1
  {
    closed := Close(m.facts, Ids(ActiveFacts(m, CandidateLine(c))), GetOr(c.content.validFrom, now));
    CloseAlike(m.facts, Ids(ActiveFacts(m, CandidateLine(c))), GetOr(c.content.validFrom, now));
  }

  /** Between closing the superseded facts and writing the pointer, one fact lacks a pointer. */
  lemma {:induction false} NewFactUnpointed(m: Mem, c: Candidate, now: Time, scope: string)
    requires ValidMem(m) && Grounded(m)
    ensures var m1 := Consolidate(m, c, now);
      && Grounded(m1)
      && NewFact(m, c, now) in m1.facts && FactVisible(m1, NewFact(m, c, now))
      && (Complete(m, scope) ==>
            forall f :: f in m1.facts && f.scope == scope && FactVisible(m1, f) && f != NewFact(m, c, now)
              ==> Pointed(m1, f))
  {
    var closed := ConsolidateFrame(m, c, now);
    AlikeKeeps(m, closed, scope);
    AppendFact(m.(facts := closed), Consolidate(m, c, now), NewFact(m, c, now), scope);
    assert !Hidden(m, c.scope, SemanticFact, Issued(m.nextId));
  }

  lemma {:induction false} SemanticKey(m: Mem, c: Candidate, now: Time)
    ensures FactKey(NewFact(m, c, now)) == PointerKey(HeadOf(c), EpisodeSources(c.sources), [m.nextId], [])
    ensures NewFact(m, c, now).scope == c.scope
  {
  }

  lemma {:induction false} WriteSemanticGrounded(m: Mem, c: Candidate, now: Time)
    requires ValidMem(m) && Grounded(m)
    ensures ValidMem(WriteSemantic(m, c, now)) && Grounded(WriteSemantic(m, c, now))
  {
    var m1, key := Consolidate(m, c, now), PointerKey(HeadOf(c), EpisodeSources(c.sources), [m.nextId], []);
    SemanticKey(m, c, now);
    ConsolidateValid(m, c, now);
    NewFactUnpointed(m, c, now, c.scope);
    WritePointerShows(m1, c.scope, key, now);
    WritePointerGrounded(m1, c.scope, key, now);
  }

  lemma {:induction false} WriteSemanticComplete(m: Mem, c: Candidate, now: Time, scope: string)
    requires ValidMem(m) && Grounded(m) && Complete(m, scope)
    ensures Complete(WriteSemantic(m, c, now), scope)
  {
    var m1, key := Consolidate(m, c, now), PointerKey(HeadOf(c), EpisodeSources(c.sources), [m.nextId], []);
    SemanticKey(m, c, now);
    ConsolidateValid(m, c, now);
    NewFactUnpointed(m, c, now, scope);
    WritePointerComplete(m1, c.scope, key, now, scope);
  }

  lemma {:induction false} WriteProceduralKeeps(m: Mem, c: Candidate, now: Time, scope: string)
    requires ValidMem(m) && Grounded(m)
    ensures ValidMem(WriteProcedural(m, c, now)) && Grounded(WriteProcedural(m, c, now))
    ensures Complete(m, scope) ==> Complete(WriteProcedural(m, c, now), scope)
  {
    var m1 := m.(patterns := m.patterns + [Pattern(m.nextId, c.scope, c.summary, now)], nextId := m.nextId + 1);
    SameIndexKeeps(m, m1, scope);
    var key := PointerKey("procedure", EpisodeSources(c.sources), [], [m.nextId]);
    WritePointerShows(m1, c.scope, key, now);
    WritePointerGrounded(m1, c.scope, key, now);
    if Complete(m, scope) {
      WritePointerComplete(m1, c.scope, key, now, scope);
    }
  }

  // -------------------------------------------------------------- losing visible records

  /** Nothing new is visible, and outside the scope everything visible stays. */
  ghost predicate Shrinks(m: Mem, m': Mem, scope: string) {
    && (forall f :: f in m'.facts && FactVisible(m', f) ==> f in m.facts && FactVisible(m, f))
    && (forall p :: p in m'.pointers && PointerVisible(m', p) ==> p in m.pointers && PointerVisible(m, p))
    && (forall f :: f in m.facts && f.scope != scope && FactVisible(m, f) ==> f in m'.facts && FactVisible(m', f))
    && (forall p :: p in m.pointers && p.scope != scope && PointerVisible(m, p) ==> p in m'.pointers && PointerVisible(m', p))
  }

  /** If the scope keeps no visible fact and no visible fact pointer, the index agrees again. */
  lemma {:induction false} ShrinkToNothing(m: Mem, m': Mem, scope: string, other: string)
    requires Shrinks(m, m', scope)
    requires forall p :: p in m'.pointers && p.scope == scope && PointerVisible(m', p) ==> p.facts == []
    requires forall f :: f in m'.facts && f.scope == scope ==> !FactVisible(m', f)
    ensures Grounded(m) ==> Grounded(m')
    ensures Complete(m, other) ==> Complete(m', other)
  {
    if Grounded(m) {
      forall p | p in m'.pointers && PointerVisible(m', p) && p.facts != []
        ensures exists f :: Grounds(m', p, f)
      {
        var f :| Grounds(m, p, f);
        assert Grounds(m', p, f);
      }
    }
    if Complete(m, other) {
      forall f | f in m'.facts && f.scope == other && FactVisible(m', f)
        ensures Pointed(m', f)
      {
        var p :| Stands(m, f, p);
        assert Stands(m', f, p);
      }
    }
  }

  /** If the scope keeps its visible facts, losing pointers keeps the index grounded. */
  lemma {:induction false} ShrinkPointers(m: Mem, m': Mem, scope: string)
    requires Shrinks(m, m', scope) && Grounded(m)
    requires forall f :: f in m.facts && FactVisible(m, f) ==> f in m'.facts && FactVisible(m', f)
    ensures Grounded(m')
  {
    forall p | p in m'.pointers && PointerVisible(m', p) && p.facts != []
      ensures exists f :: Grounds(m', p, f)
    {
      var f :| Grounds(m, p, f);
      assert Grounds(m', p, f);
    }
  }

  // ------------------------------------------------------------------ tombstoning a scope

  /** After m, the tombstones of m' hide every visible record of the scope, and nothing else. */
  ghost predicate Buried(m: Mem, m': Mem, scope: string) {
    && m' == m.(tombstones := m'.tombstones)
    && (forall t :: t in m.tombstones ==> t in m'.tombstones)
    && (forall t :: t in m'.tombstones && t.scope != scope ==> t in m.tombstones)
  }

  ghost predicate NoEpisodes(m: Mem, scope: string) {
    forall e :: e in m.episodes && e.scope == scope ==> !EpisodeVisible(m, e)
  }

  ghost predicate NoFacts(m: Mem, scope: string) {
    forall f :: f in m.facts && f.scope == scope ==> !FactVisible(m, f)
  }

  ghost predicate NoPointers(m: Mem, scope: string) {
    forall p :: p in m.pointers && p.scope == scope ==> !PointerVisible(m, p)
  }

  ghost predicate NoPatterns(m: Mem, scope: string) {
    forall p :: p in m.patterns && p.scope == scope ==> !PatternVisible(m, p)
  }

  ghost predicate NoDuratives(m: Mem, scope: string) {
    forall d :: d in m.duratives && d.scope == scope ==> !DurativeVisible(m, d)
  }

  /** No episode, fact, pointer, pattern or durative record of the scope is visible. */
  ghost predicate Deleted(m: Mem, scope: string) {
    NoEpisodes(m, scope) && NoFacts(m, scope) && NoPointers(m, scope) && NoPatterns(m, scope) && NoDuratives(m, scope)
  }

  lemma {:induction false} KeyListed<T>(s: seq<T>, key: T -> RecordKey, x: T)
    requires x in s
    ensures key(x) in Map(s, key)
  {
    var i :| 0 <= i < |s| && s[i] == x;
    assert Map(s, key)[i] == key(x);
  }

  lemma {:induction false} BuryFacts(m: Mem, scope: string)
    requires ValidMem(m)
    ensures var m' := BuryAll(m, scope, SemanticFact, FactKeys(ListFacts(m, scope)));
      && Buried(m, m', scope) && ValidMem(m')
      && NoFacts(m', scope)
  {
    var keys := FactKeys(ListFacts(m, scope));
    BuryAllHides(m, scope, SemanticFact, keys);
    var m' := BuryAll(m, scope, SemanticFact, keys);
    forall f | f in m.facts && f.scope == scope
      ensures !FactVisible(m', f)
    {
      if FactVisible(m, f) {
        ListFactsMember(m, scope, f);
        KeyListed(ListFacts(m, scope), (g: Fact) => Issued(g.id), f);
        assert Tombstone(scope, SemanticFact, Issued(f.id)) in m'.tombstones;
      }
    }
    forall k | k in keys
      ensures k.Issued? && k.id < m.nextId
    {
      var i :| 0 <= i < |keys| && keys[i] == k;
      ListFactsMember(m, scope, ListFacts(m, scope)[i]);
    }
  }

  lemma {:induction false} BuryPointers(m: Mem, scope: string)
    requires ValidMem(m)
    ensures var m' := BuryAll(m, scope, MatrixPointer, PointerKeys(ListPointers(m, scope)));
      && Buried(m, m', scope) && ValidMem(m')
      && NoPointers(m', scope)
  {
    var keys := PointerKeys(ListPointers(m, scope));
    BuryAllHides(m, scope, MatrixPointer, keys);
    var m' := BuryAll(m, scope, MatrixPointer, keys);
    forall p | p in m.pointers && p.scope == scope
      ensures !PointerVisible(m', p)
    {
      if PointerVisible(m, p) {
        ListPointersMember(m, scope, p);
        KeyListed(ListPointers(m, scope), (q: Pointer) => Issued(q.id), p);
        assert Tombstone(scope, MatrixPointer, Issued(p.id)) in m'.tombstones;
      }
    }
    forall k | k in keys
      ensures k.Issued? && k.id < m.nextId
    {
      var i :| 0 <= i < |keys| && keys[i] == k;
      ListPointersMember(m, scope, ListPointers(m, scope)[i]);
    }
  }

  lemma {:induction false} BuryEpisodes(m: Mem, scope: string)
    requires ValidMem(m)
    ensures var m' := BuryAll(m, scope, RawEpisode, EpisodeKeys(ListEpisodes(m, scope)));
      && Buried(m, m', scope) && ValidMem(m')
      && NoEpisodes(m', scope)
  {
    var listed := ListEpisodes(m, scope);
    var keys := EpisodeKeys(listed);
    BuryAllHides(m, scope, RawEpisode, keys);
    var m' := BuryAll(m, scope, RawEpisode, keys);
    forall e | e in m.episodes && e.scope == scope
      ensures !EpisodeVisible(m', e)
    {
      if EpisodeVisible(m, e) {
        SortMember(VisibleEpisodes(m, scope), NewestEpisodeFirst, e);
        KeyListed(listed, (x: Episode) => Issued(x.id), e);
        assert Tombstone(scope, RawEpisode, Issued(e.id)) in m'.tombstones;
      }
    }
    forall k | k in keys
      ensures k.Issued? && k.id < m.nextId
    {
      var i :| 0 <= i < |keys| && keys[i] == k;
      SortMember(VisibleEpisodes(m, scope), NewestEpisodeFirst, listed[i]);
    }
  }

  lemma {:induction false} BuryPatterns(m: Mem, scope: string)
    requires ValidMem(m)
    ensures var m' := BuryAll(m, scope, ProceduralPattern, PatternKeys(ListPatterns(m, scope)));
      && Buried(m, m', scope) && ValidMem(m')
      && NoPatterns(m', scope)
  {
    var listed := ListPatterns(m, scope);
    var keys := PatternKeys(listed);
    BuryAllHides(m, scope, ProceduralPattern, keys);
    var m' := BuryAll(m, scope, ProceduralPattern, keys);
    forall p | p in m.patterns && p.scope == scope
      ensures !PatternVisible(m', p)
    {
      if PatternVisible(m, p) {
        SortMember(VisiblePatterns(m, scope), NewestPatternFirst, p);
        KeyListed(listed, (x: Pattern) => Issued(x.id), p);
        assert Tombstone(scope, ProceduralPattern, Issued(p.id)) in m'.tombstones;
      }
    }
    forall k | k in keys
      ensures k.Issued? && k.id < m.nextId
    {
      var i :| 0 <= i < |keys| && keys[i] == k;
      SortMember(VisiblePatterns(m, scope), NewestPatternFirst, listed[i]);
    }
  }

  lemma {:induction false} BuryDuratives(m: Mem, scope: string)
    requires ValidMem(m)
    ensures var m' := BuryAll(m, scope, DurativeRecord, DurativeKeys(ListDuratives(m, scope)));
      && Buried(m, m', scope) && ValidMem(m')
      && NoDuratives(m', scope)
  {
    var listed := ListDuratives(m, scope);
    var keys := DurativeKeys(listed);
    BuryAllHides(m, scope, DurativeRecord, keys);
    var m' := BuryAll(m, scope, DurativeRecord, keys);
    forall d | d in m.duratives && d.scope == scope
      ensures !DurativeVisible(m', d)
    {
      if DurativeVisible(m, d) {
        SortMember(VisibleDuratives(m, scope), NewestDurativeFirst, d);
        KeyListed(listed, (x: Durative) => Named(x.durativeId), d);
        assert Tombstone(scope, DurativeRecord, Named(d.durativeId)) in m'.tombstones;
      }
    }
  }

  lemma {:induction false} BuriedTwice(m: Mem, m1: Mem, m2: Mem, scope: string)
    requires Buried(m, m1, scope) && Buried(m1, m2, scope)
    ensures Buried(m, m2, scope)
  {
  }

  /** What a tombstone hid stays hidden. */
  lemma {:induction false} BuriedStays(m: Mem, m': Mem, scope: string)
    requires Buried(m, m', scope)
    ensures NoEpisodes(m, scope) ==> NoEpisodes(m', scope)
    ensures NoFacts(m, scope) ==> NoFacts(m', scope)
    ensures NoPointers(m, scope) ==> NoPointers(m', scope)
    ensures NoPatterns(m, scope) ==> NoPatterns(m', scope)
  {
  }

  /** Deleting a scope hides all its records and shows and hides nothing elsewhere. */
  lemma {:induction false} TombstoneScopeDeletes(m: Mem, scope: string)
    requires ValidMem(m)
    ensures var m' := TombstoneScope(m, scope);
      Buried(m, m', scope) && ValidMem(m') && Deleted(m', scope)
  {
    var m1 := BuryAll(m, scope, RawEpisode, EpisodeKeys(ListEpisodes(m, scope)));
    BuryEpisodes(m, scope);
    var m2 := BuryAll(m1, scope, SemanticFact, FactKeys(ListFacts(m1, scope)));
    BuryFacts(m1, scope);
    BuriedTwice(m, m1, m2, scope);
    BuriedStays(m1, m2, scope);
    var m3 := BuryAll(m2, scope, MatrixPointer, PointerKeys(ListPointers(m2, scope)));
    BuryPointers(m2, scope);
    BuriedTwice(m, m2, m3, scope);
    BuriedStays(m2, m3, scope);
    TombstoneScopeFinish(m, m3, scope);
  }

  lemma {:induction false} TombstoneScopeFinish(m: Mem, m3: Mem, scope: string)
    requires Buried(m, m3, scope) && ValidMem(m3)
    requires NoEpisodes(m3, scope) && NoFacts(m3, scope) && NoPointers(m3, scope)
    ensures var m4 := BuryAll(m3, scope, ProceduralPattern, PatternKeys(ListPatterns(m3, scope)));
      var m5 := BuryAll(m4, scope, DurativeRecord, DurativeKeys(ListDuratives(m4, scope)));
      Buried(m, m5, scope) && ValidMem(m5) && Deleted(m5, scope)
  {
    var m4 := BuryAll(m3, scope, ProceduralPattern, PatternKeys(ListPatterns(m3, scope)));
    BuryPatterns(m3, scope);
    BuriedTwice(m, m3, m4, scope);
    BuriedStays(m3, m4, scope);
    var m5 := BuryAll(m4, scope, DurativeRecord, DurativeKeys(ListDuratives(m4, scope)));
    BuryDuratives(m4, scope);
    BuriedTwice(m, m4, m5, scope);
    BuriedStays(m4, m5, scope);
  }

  lemma {:induction false} BuriedShrinks(m: Mem, m': Mem, scope: string)
    requires Buried(m, m', scope)
    ensures Shrinks(m, m', scope)
  {
  }

  lemma {:induction false} TombstoneScopeKeeps(m: Mem, scope: string, other: string)
    requires ValidMem(m)
    ensures Grounded(m) ==> Grounded(TombstoneScope(m, scope))
    ensures Complete(m, other) ==> Complete(TombstoneScope(m, scope), other)
  {
    var m' := TombstoneScope(m, scope);
    TombstoneScopeDeletes(m, scope);
    BuriedShrinks(m, m', scope);
    ShrinkToNothing(m, m', scope, other);
  }

  /** Same records, and the same segments hidden. */
  ghost predicate SegmentsSeen(m: Mem, m': Mem) {
    && m' == m.(tombstones := m'.tombstones)
    && forall t: Tombstone :: t.kind == TimelineSegment ==> (t in m'.tombstones <==> t in m.tombstones)
  }

  lemma {:induction false} BurySegmentsSeen(m: Mem, m1: Mem, scope: string, kind: Kind, keys: seq<RecordKey>)
    requires SegmentsSeen(m, m1) && kind != TimelineSegment
    ensures SegmentsSeen(m, BuryAll(m1, scope, kind, keys))
  {
    BuryAllHides(m1, scope, kind, keys);
  }

  lemma {:induction false} ScopeSegmentsSeen(m: Mem, scope: string)
    ensures SegmentsSeen(m, TombstoneScope(m, scope))
  {
    assert SegmentsSeen(m, m);
    hide SegmentsSeen, BuryAll, ListEpisodes, ListFacts, ListPointers, ListPatterns, ListDuratives;
    var m1 := BuryAll(m, scope, RawEpisode, EpisodeKeys(ListEpisodes(m, scope)));
    BurySegmentsSeen(m, m, scope, RawEpisode, EpisodeKeys(ListEpisodes(m, scope)));
    var m2 := BuryAll(m1, scope, SemanticFact, FactKeys(ListFacts(m1, scope)));
    BurySegmentsSeen(m, m1, scope, SemanticFact, FactKeys(ListFacts(m1, scope)));
    var m3 := BuryAll(m2, scope, MatrixPointer, PointerKeys(ListPointers(m2, scope)));
    BurySegmentsSeen(m, m2, scope, MatrixPointer, PointerKeys(ListPointers(m2, scope)));
    var m4 := BuryAll(m3, scope, ProceduralPattern, PatternKeys(ListPatterns(m3, scope)));
    BurySegmentsSeen(m, m3, scope, ProceduralPattern, PatternKeys(ListPatterns(m3, scope)));
    BurySegmentsSeen(m, m4, scope, DurativeRecord, DurativeKeys(ListDuratives(m4, scope)));
  }

  /** Deleting a scope buries no timeline segment: every reader still sees the deleted states in
      the stored timelines. */
  lemma {:induction false} SegmentsSurvive(m: Mem, scope: string, other: string)
    ensures VisibleSegments(TombstoneScope(m, scope), other) == VisibleSegments(m, other)
    ensures forall s :: s in m.segments ==> SegmentVisible(TombstoneScope(m, scope), s) == SegmentVisible(m, s)
    ensures TombstoneScope(m, scope).segments == m.segments
  {
    hide TombstoneScope;
    ScopeSegmentsSeen(m, scope);
    var m' := TombstoneScope(m, scope);
    FilterCongruence(m.segments, (s: Segment) => s.scope == other && SegmentVisible(m, s),
                                 (s: Segment) => s.scope == other && SegmentVisible(m', s));
  }

  lemma {:induction false} TombstoneScopeUnique(m: Mem, scope: string)
    requires UniqueTombstones(m)
    ensures UniqueTombstones(TombstoneScope(m, scope))
  {
    var m1 := BuryAll(m, scope, RawEpisode, EpisodeKeys(ListEpisodes(m, scope)));
    BuryAllUnique(m, scope, RawEpisode, EpisodeKeys(ListEpisodes(m, scope)));
    var m2 := BuryAll(m1, scope, SemanticFact, FactKeys(ListFacts(m1, scope)));
    BuryAllUnique(m1, scope, SemanticFact, FactKeys(ListFacts(m1, scope)));
    var m3 := BuryAll(m2, scope, MatrixPointer, PointerKeys(ListPointers(m2, scope)));
    BuryAllUnique(m2, scope, MatrixPointer, PointerKeys(ListPointers(m2, scope)));
    var m4 := BuryAll(m3, scope, ProceduralPattern, PatternKeys(ListPatterns(m3, scope)));
    BuryAllUnique(m3, scope, ProceduralPattern, PatternKeys(ListPatterns(m3, scope)));
    BuryAllUnique(m4, scope, DurativeRecord, DurativeKeys(ListDuratives(m4, scope)));
  }

  /** A deleted scope counts nothing, so deleting it again counts zero and changes nothing. */
  lemma {:induction false} DeletedCountsZero(m: Mem, scope: string)
    requires Deleted(m, scope)
    ensures VisibleCount(m, scope) == 0
    ensures TombstoneScope(m, scope) == m
  {
    FilterNone(m.episodes, (e: Episode) => e.scope == scope && EpisodeVisible(m, e));
    FilterNone(m.facts, (f: Fact) => f.scope == scope && FactVisible(m, f));
    FilterNone(m.pointers, (p: Pointer) => p.scope == scope && PointerVisible(m, p));
    FilterNone(m.patterns, (p: Pattern) => p.scope == scope && PatternVisible(m, p));
    FilterNone(m.duratives, (d: Durative) => d.scope == scope && DurativeVisible(m, d));
  }
}
