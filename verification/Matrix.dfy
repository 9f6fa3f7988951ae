/** The memory engine itself: dictionaries that its methods update in place. Each method leaves
    exactly the memory that the operation of the same name specifies (memory/matrix.py). */
module Matrix {
  import opened Prelude
  import opened Records
  import opened FactStore
  import opened Timeline
  import opened Pointers
  import opened Upkeep
  import opened MatrixRecords

  // ------------------------------------------------------------ dictionaries as listings

  /** `values()` of a dictionary with the given key order. */
  function Values<T>(order: seq<Id>, index: map<Id, T>): (r: seq<T>) {
    if order == [] then []
    else
      var last := order[|order| - 1];
      Values(order[..|order| - 1], index) + if last in index then [index[last]] else []
  }

  lemma {:induction false} ValuesAt<T>(order: seq<Id>, index: map<Id, T>)
    requires forall id :: id in order ==> id in index
    ensures |Values(order, index)| == |order|
    ensures forall i :: 0 <= i < |order| ==> Values(order, index)[i] == index[order[i]]
  {
    if order != [] {
      ValuesAt(order[..|order| - 1], index);
    }
  }

  lemma {:induction false} ValuesOfNew<T>(order: seq<Id>, index: map<Id, T>, id: Id, x: T)
    requires id !in order
    ensures Values(order + [id], index[id := x]) == Values(order, index) + [x]
  {
    assert (order + [id])[..|order|] == order;
    ValuesUnseen(order, index, id, x);
  }

  lemma {:induction false} ValuesUnseen<T>(order: seq<Id>, index: map<Id, T>, id: Id, x: T)
    requires id !in order
    ensures Values(order, index[id := x]) == Values(order, index)
  {
    if order != [] {
      assert order[|order| - 1] in order;
      ValuesUnseen(order[..|order| - 1], index, id, x);
    }
  }

  function NotIn(gone: seq<Id>): Id -> bool {
    (id: Id) => id !in gone
  }

  /** Popping keys filters the listing. */
  lemma {:induction false} ValuesPopped<T>(order: seq<Id>, index: map<Id, T>, gone: seq<Id>, kept: T -> bool)
    requires forall id :: id in order ==> id in index && kept(index[id]) == (id !in gone)
    ensures Values(Filter(order, NotIn(gone)), index - Elements(gone)) == Filter(Values(order, index), kept)
  {
    if order != [] {
      hide Values, Filter;
      var n := |order| - 1;
      var last, front := order[n], Filter(order[..n], NotIn(gone));
      assert last in order;
      ValuesPopped(order[..n], index, gone, kept);
      ValuesLast(order[..n], index, last);
      FilterLast(order[..n], last, NotIn(gone));
      FilterLast(Values(order[..n], index), index[last], kept);
      assert order == order[..n] + [last];
      if last !in gone {
        ValuesLast(front, index - Elements(gone), last);
      }
    }
  }

  lemma {:induction false} ValuesLast<T>(front: seq<Id>, index: map<Id, T>, last: Id)
    requires last in index
    ensures Values(front + [last], index) == Values(front, index) + [index[last]]
  {
    assert (front + [last])[..|front|] == front;
  }

  lemma {:induction false} FilterLast<T>(front: seq<T>, last: T, p: T -> bool)
    ensures p(last) ==> Filter(front + [last], p) == Filter(front, p) + [last]
    ensures !p(last) ==> Filter(front + [last], p) == Filter(front, p)
  {
    assert (front + [last])[..|front|] == front;
  }

  lemma {:induction false} KeptMembers(order: seq<Id>, gone: seq<Id>)
    ensures forall id :: id in Filter(order, NotIn(gone)) <==> id in order && id !in gone
  {
  }

  lemma {:induction false} KeptOneMore(order: seq<Id>, gone: seq<Id>, id: Id)
    ensures Filter(Filter(order, NotIn(gone)), NotIn([id])) == Filter(order, NotIn(gone + [id]))
  {
    FilterFilter(order, NotIn(gone), NotIn([id]), NotIn(gone + [id]));
  }

  lemma {:induction false} KeptAll(order: seq<Id>)
    ensures Filter(order, NotIn([])) == order
  {
    FilterAll(order, NotIn([]));
  }

  /** The dictionary with the listed facts closed. */
  function CloseIn(index: map<Id, Fact>, ids: seq<Id>, until: Time): map<Id, Fact> {
    map id | id in index :: if id in ids then index[id].(validUntil := Some(until), status := Superseded) else index[id]
  }

  lemma {:induction false} ValuesClosed(order: seq<Id>, index: map<Id, Fact>, ids: seq<Id>, until: Time)
    requires forall id :: id in order ==> id in index
    requires forall id :: id in index ==> index[id].id == id
    ensures Values(order, CloseIn(index, ids, until)) == Close(Values(order, index), ids, until)
  {
    ValuesAt(order, index);
    ValuesAt(order, CloseIn(index, ids, until));
  }

  ghost predicate Keyed(order: seq<Id>, index: map<Id, Fact>) {
    (forall id :: id in order ==> id in index) && (forall id :: id in index ==> index[id].id == id)
  }

  /** The active facts of a storyline are found under their ids. */
  lemma {:induction false} ActiveKeys(m: Mem, order: seq<Id>, index: map<Id, Fact>, line: Line)
    requires m.facts == Values(order, index) && Keyed(order, index)
    ensures forall id :: id in Ids(ActiveFacts(m, line)) ==> id in index
  {
    hide ActiveFacts, Values;
    ValuesAt(order, index);
    var active := ActiveFacts(m, line);
    forall i | 0 <= i < |active|
      ensures active[i].id in index
    {
      assert active[i] in active;
      ActiveStored(m, line, active[i]);
    }
  }

  lemma {:induction false} ActiveStored(m: Mem, line: Line, f: Fact)
    requires f in ActiveFacts(m, line)
    ensures f in m.facts
  {
    hide ActiveFacts;
    ActiveFactsMember(m, line, f);
  }

  /** Closing the active facts and storing the new one is what a write does. */
  lemma {:induction false} WriteIsCloseAndStore(m: Mem, order: seq<Id>, index: map<Id, Fact>, c: Candidate, now: Time)
    requires m.facts == Values(order, index) && Keyed(order, index) && m.nextId !in order
    ensures var closed := CloseIn(index, Ids(ActiveFacts(m, CandidateLine(c))), GetOr(c.content.validFrom, now));
      WriteFact(m, c, now)
      == m.(facts := Values(order + [m.nextId], closed[m.nextId := NewFact(m, c, now)]), nextId := m.nextId + 1)
  {
    var existing, until := Ids(ActiveFacts(m, CandidateLine(c))), GetOr(c.content.validFrom, now);
    ValuesClosed(order, index, existing, until);
    ValuesOfNew(order, CloseIn(index, existing, until), m.nextId, NewFact(m, c, now));
  }

  // ---------------------------------------------------------------------- the engine

  class MemoryMatrix {
    var episodes: seq<Episode>
    var factOrder: seq<Id>
    var facts: map<Id, FactRecord>
    var pointers: seq<Pointer>
    var patterns: seq<Pattern>
    var explicits: seq<Explicit>
    var duratives: seq<Durative>
    var tombstones: seq<Tombstone>
    var segmentOrder: seq<Id>
    var segments: map<Id, SegmentRecord>
    var snapshots: seq<Snapshot>
    var nextId: Id

    constructor ()
      ensures Valid() && View() == EMPTY && facts == map[] && segments == map[]
    {
      episodes, factOrder, facts, pointers, patterns, explicits := [], [], map[], [], [], [];
      duratives, tombstones, segmentOrder, segments, snapshots, nextId := [], [], [], map[], [], 0;
    }

    /** The orders list the keys of their dictionaries, and records are stored under their ids. */
    ghost predicate Valid()
      reads `factOrder, `facts, `segmentOrder, `segments, `nextId
    {
      && (forall id :: id in factOrder <==> id in facts)
      && (forall id :: id in facts ==> facts[id].id == id < nextId)
      && (forall id :: id in segmentOrder <==> id in segments)
      && (forall id :: id in segments ==> segments[id].id == segments[id].core.id == id < nextId)
    }

    function FactMap(): map<Id, Fact>
      reads `facts, facts.Values
    {
      map id | id in facts :: facts[id].Rec()
    }

    function SegmentMap(): map<Id, Segment>
      reads `segments, segments.Values
    {
      map id | id in segments :: segments[id].Rec()
    }

    /** The dictionaries with each record's current fields. */
    function View(): Mem
      reads this, facts.Values, segments.Values
    {
      Mem(episodes, Values(factOrder, FactMap()), pointers, patterns, explicits, duratives, tombstones,
          Values(segmentOrder, SegmentMap()), snapshots, nextId)
    }

    /** Only the fact under one key changed. */
    twostate lemma {:induction false} FactChanged(id: Id)
      requires old(Valid()) && facts == old(facts) && id in facts
      requires forall other :: other in facts && other != id ==> unchanged(facts[other])
      ensures FactMap() == old(FactMap())[id := facts[id].Rec()]
    {
    }

    twostate lemma {:induction false} FactAdded(new record: FactRecord)
      requires facts == old(facts)[record.id := record]
      requires forall other :: other in old(facts) ==> unchanged(old(facts)[other])
      ensures FactMap() == old(FactMap())[record.id := record.Rec()]
    {
    }

    lemma {:induction false} StoredFact(f: Fact)
      requires Valid() && f in View().facts
      ensures f.id in facts
    {
      ValuesAt(factOrder, FactMap());
      var i :| 0 <= i < |View().facts| && View().facts[i] == f;
    }

    /** Issue a fresh identifier for a record of another dictionary. */
    method IssueId() returns (id: Id)
      requires Valid()
      modifies `nextId
      ensures Valid() && id == old(View()).nextId && View() == old(View()).(nextId := id + 1)
    {
      hide Values, FactMap, SegmentMap;
      id := nextId;
      nextId := nextId + 1;
    }

    // ------------------------------------------------------------------------ writing facts

    method CloseFact(id: Id, until: Time)
      requires Valid() && id in facts
      modifies facts.Values
      ensures FactMap() == old(FactMap())[id := old(facts[id].Rec()).(validUntil := Some(until), status := Superseded)]
      ensures SegmentMap() == old(SegmentMap())
    {
      facts[id].Close(until);
      FactChanged(id);
    }

    /** Supersede the listed facts one by one. */
    method CloseFacts(ids: seq<Id>, until: Time)
      requires Valid() && forall id :: id in ids ==> id in facts
      modifies facts.Values
      ensures FactMap() == CloseIn(old(FactMap()), ids, until)
      ensures SegmentMap() == old(SegmentMap())
    {
      for i := 0 to |ids|
        invariant FactMap() == CloseIn(old(FactMap()), ids[..i], until)
        invariant SegmentMap() == old(SegmentMap())
      {
        CloseFact(ids[i], until);
        assert ids[..i + 1] == ids[..i] + [ids[i]];
      }
      assert ids[..|ids|] == ids;
    }

    /** `semantic_facts[fact.fact_id] = fact` for a fresh identifier */
    method StoreFact(fact: Fact)
      requires Valid() && fact.id == nextId
      modifies `factOrder, `facts, `nextId
      ensures Valid() && nextId == old(nextId) + 1
      ensures factOrder == old(factOrder) + [fact.id] && FactMap() == old(FactMap())[fact.id := fact]
      ensures SegmentMap() == old(SegmentMap())
      ensures fact.id in facts && fresh(facts[fact.id]) && facts == old(facts)[fact.id := facts[fact.id]]
    {
      var record := new FactRecord(fact);
      factOrder := factOrder + [fact.id];
      facts := facts[fact.id := record];
      nextId := nextId + 1;
      FactAdded(record);
    }

    /** _consolidate_semantic_candidate, up to the durative record */
    method SupersedeAndStore(c: Candidate, now: Time) returns (id: Id)
      requires Valid()
      modifies `factOrder, `facts, `nextId, facts.Values
      ensures Valid() && View() == WriteFact(old(View()), c, now) && id == old(nextId)
    {
      hide ActiveFacts, CloseIn, Values, WriteFact;
      var validFrom := GetOr(c.content.validFrom, now);
      var existing := Ids(ActiveFacts(View(), CandidateLine(c)));
      ActiveKeys(View(), factOrder, FactMap(), CandidateLine(c));
      WriteIsCloseAndStore(View(), factOrder, FactMap(), c, now);
      CloseFacts(existing, validFrom);
      var supersedes := if existing == [] then None else Some(existing[|existing| - 1]);
      id := nextId;
      StoreFact(Fact(id, c.scope, SubjectOf(c), PredOf(c), ObjOf(c), HeadOf(c), ClampConfidence(c), c.sources,
                     now, Some(validFrom), None, Active, supersedes));
    }

    /** _refresh_durative_memory */
    method RefreshDuratives(line: Line, now: Time)
      modifies `duratives
      ensures View() == RefreshDurative(old(View()), line, now)
    {
      hide OnLine, ListFacts, DurativeOf, PutDurative, Values;
      var related := OnLine(ListFacts(View(), line.scope), line);
      if |related| >= 2 {
        duratives := PutDurative(duratives, DurativeOf(line, related, now));
      }
    }

    /** _consolidate_semantic_candidate */
    method ConsolidateSemantic(c: Candidate, now: Time) returns (id: Id)
      requires Valid()
      modifies `factOrder, `facts, `nextId, `duratives, facts.Values
      ensures Valid() && View() == Consolidate(old(View()), c, now) && id == old(nextId)
    {
      hide WriteFact, RefreshDurative, Values;
      id := SupersedeAndStore(c, now);
      RefreshDuratives(CandidateLine(c), now);
    }

    // ------------------------------------------------------------------- writing pointers

    /** _write_matrix_pointer */
    method WriteMatrixPointer(scope: string, key: PointerKey, now: Time)
      requires Valid()
      modifies `pointers, `nextId
      ensures Valid() && View() == WritePointer(old(View()), scope, key, now)
    {
      hide Values, FactMap, SegmentMap;
      pointers := pointers + [Pointer(nextId, scope, key.head, key.episodes, key.facts, key.patterns, now)];
      nextId := nextId + 1;
    }

    /** consolidate_candidate for the semantic lane */
    method ConsolidateFact(c: Candidate, now: Time)
      requires Valid()
      modifies `factOrder, `facts, `nextId, `duratives, `pointers, facts.Values
      ensures Valid() && View() == WriteSemantic(old(View()), c, now)
    {
      hide Consolidate, WritePointer, Values;
      var id := ConsolidateSemantic(c, now);
      WriteMatrixPointer(c.scope, PointerKey(HeadOf(c), EpisodeSources(c.sources), [id], []), now);
    }

    method StorePattern(c: Candidate, now: Time) returns (id: Id)
      requires Valid()
      modifies `patterns, `nextId
      ensures Valid() && id == old(nextId)
      ensures View() == old(View()).(patterns := old(patterns) + [Pattern(id, c.scope, c.summary, now)], nextId := id + 1)
    {
      hide Values, FactMap, SegmentMap;
      id := nextId;
      patterns := patterns + [Pattern(id, c.scope, c.summary, now)];
      nextId := nextId + 1;
    }

    /** consolidate_candidate for the procedural lane */
    method ConsolidatePattern(c: Candidate, now: Time)
      requires Valid()
      modifies `patterns, `nextId, `pointers
      ensures Valid() && View() == WriteProcedural(old(View()), c, now)
    {
      hide WritePointer, Values;
      var id := StorePattern(c, now);
      WriteMatrixPointer(c.scope, PointerKey("procedure", EpisodeSources(c.sources), [], [id]), now);
    }

    /** consolidate_candidate for the explicit lane */
    method ConsolidateExplicit(c: Candidate, now: Time)
      requires Valid()
      modifies `explicits, `nextId
      ensures Valid() && View() == WriteExplicit(old(View()), c, now)
    {
      hide Values, FactMap, SegmentMap;
      explicits := explicits + [Explicit(nextId, c.scope, c.summary, now)];
      nextId := nextId + 1;
    }

    /** _rebuild_missing_matrix_pointers: how many pointers were missing. */
    method RebuildMissing(scope: string, now: Time) returns (rebuilt: nat)
      requires Valid()
      modifies `pointers, `nextId
      ensures Valid() && View() == Rebuild(old(View()), scope, now)
      ensures rebuilt == RebuildCount(old(View()), scope)
    {
      hide ListFacts, ListPointers, WritePointer, IndexKeys, Indexed, Values;
      ghost var start := View();
      var listed := ListFacts(View(), scope);
      var existing := IndexKeys(ListPointers(View(), scope));
      rebuilt := 0;
      for i := 0 to |listed|
        invariant Valid() && View() == RebuildFrom(start, scope, listed[..i], existing, now)
        invariant rebuilt == |Filter(listed[..i], (f: Fact) => !Indexed(existing, f))|
      {
        assert listed[..i + 1][..i] == listed[..i];
        if Indexed(existing, listed[i]) {
          continue;
        }
        WriteMatrixPointer(scope, FactKey(listed[i]), now);
        rebuilt := rebuilt + 1;
      }
      assert listed[..|listed|] == listed;
    }

    // ------------------------------------------------------------------------ tombstones

    /** _write_tombstone */
    method WriteTombstone(scope: string, kind: Kind, key: RecordKey)
      modifies `tombstones
      ensures View() == Bury(old(View()), scope, kind, key)
    {
      hide Values;
      if !Hidden(View(), scope, kind, key) {
        tombstones := tombstones + [Tombstone(scope, kind, key)];
      }
    }

    method WriteTombstones(scope: string, kind: Kind, keys: seq<RecordKey>)
      modifies `tombstones
      ensures View() == BuryAll(old(View()), scope, kind, keys)
    {
      hide Bury, Values;
      for i := 0 to |keys|
        invariant View() == BuryAll(old(View()), scope, kind, keys[..i])
      {
        assert keys[..i + 1][..i] == keys[..i];
        WriteTombstone(scope, kind, keys[i]);
      }
      assert keys[..|keys|] == keys;
    }

    /** tombstone_scope: how many records it deleted. */
    method DeleteScope(scope: string) returns (deleted: nat)
      modifies `tombstones
      ensures View() == TombstoneScope(old(View()), scope) && deleted == VisibleCount(old(View()), scope)
    {
      DeletionCount(View(), scope);
      hide BuryAll, ListEpisodes, ListFacts, ListPointers, ListPatterns, ListDuratives, Values;
      var episodeList := ListEpisodes(View(), scope);
      WriteTombstones(scope, RawEpisode, EpisodeKeys(episodeList));
      var factList := ListFacts(View(), scope);
      WriteTombstones(scope, SemanticFact, FactKeys(factList));
      var pointerList := ListPointers(View(), scope);
      WriteTombstones(scope, MatrixPointer, PointerKeys(pointerList));
      var patternList := ListPatterns(View(), scope);
      WriteTombstones(scope, ProceduralPattern, PatternKeys(patternList));
      var durativeList := ListDuratives(View(), scope);
      WriteTombstones(scope, DurativeRecord, DurativeKeys(durativeList));
      deleted := |episodeList| + |factList| + |pointerList| + |patternList| + |durativeList|;
    }

    /** _deduplicate_pointers: how many pointers it buried. */
    method DeduplicatePointers(scope: string) returns (removed: nat)
      modifies `tombstones
      ensures View() == Deduplicate(old(View()), scope)
      ensures removed == |Duplicates(OldestFirst(old(View()), scope))|
    {
      hide OldestFirst, Bury, BuryAll, Duplicates, Keys, PointerKeys, KeyOf, Values;
      BuryNone(View(), scope);
      var ordered := OldestFirst(View(), scope);
      var seen: set<PointerKey> := {};
      removed := 0;
      for i := 0 to |ordered|
        invariant View() == BuryAll(old(View()), scope, MatrixPointer, PointerKeys(Duplicates(ordered[..i])))
        invariant seen == Keys(ordered[..i]) && removed == |Duplicates(ordered[..i])|
      {
        KeysOneMore(ordered, i);
        var key := KeyOf(ordered[i]);
        if key in seen {
          BuryOneMore(old(View()), scope, Duplicates(ordered[..i]), ordered[i]);
          WriteTombstone(scope, MatrixPointer, Issued(ordered[i].id));
          removed := removed + 1;
          continue;
        }
        seen := seen + {key};
      }
      assert ordered[..|ordered|] == ordered;
    }

    // ------------------------------------------------------------------------- hard purge

    /** Pop the listed facts one by one. */
    method PopFacts(ids: seq<Id>)
      requires Valid()
      modifies `factOrder, `facts
      ensures Valid() && factOrder == Filter(old(factOrder), NotIn(ids))
      ensures facts == old(facts) - Elements(ids) && FactMap() == old(FactMap()) - Elements(ids)
    {
      hide Filter, NotIn;
      KeptAll(factOrder);
      KeptMembers(factOrder, ids);
      assert facts - Elements([]) == facts;
      for i := 0 to |ids|
        invariant factOrder == Filter(old(factOrder), NotIn(ids[..i]))
        invariant facts == old(facts) - Elements(ids[..i])
      {
        KeptOneMore(old(factOrder), ids[..i], ids[i]);
        assert ids[..i + 1] == ids[..i] + [ids[i]];
        factOrder := Filter(factOrder, NotIn([ids[i]]));
        facts := facts - {ids[i]};
      }
      assert ids[..|ids|] == ids;
    }

    method PurgeFacts(scope: string)
      requires Valid()
      modifies `factOrder, `facts
      ensures Valid() && View() == PurgeKind(old(View()), scope, SemanticFact)
      ensures facts.Values <= old(facts).Values
    {
      hide Values, ListFacts, PurgeKind, Filter, NotIn;
      PurgedFacts(View(), factOrder, FactMap(), scope);
      PopFacts(Ids(ListFacts(View(), scope)));
    }

    /** Pop the listed segments one by one. */
    method PopSegments(ids: seq<Id>)
      requires Valid()
      modifies `segmentOrder, `segments
      ensures Valid() && segmentOrder == Filter(old(segmentOrder), NotIn(ids))
      ensures segments == old(segments) - Elements(ids) && SegmentMap() == old(SegmentMap()) - Elements(ids)
    {
      hide Filter, NotIn;
      KeptAll(segmentOrder);
      KeptMembers(segmentOrder, ids);
      assert segments - Elements([]) == segments;
      for i := 0 to |ids|
        invariant segmentOrder == Filter(old(segmentOrder), NotIn(ids[..i]))
        invariant segments == old(segments) - Elements(ids[..i])
      {
        KeptOneMore(old(segmentOrder), ids[..i], ids[i]);
        assert ids[..i + 1] == ids[..i] + [ids[i]];
        segmentOrder := Filter(segmentOrder, NotIn([ids[i]]));
        segments := segments - {ids[i]};
      }
      assert ids[..|ids|] == ids;
    }

    method PurgeSegments(scope: string)
      requires Valid()
      modifies `segmentOrder, `segments
      ensures Valid() && View() == PurgeKind(old(View()), scope, TimelineSegment)
      ensures segments.Values <= old(segments).Values
    {
      hide Values, ListSegments, PurgeKind, SegmentIds, Filter, NotIn;
      PurgedSegments(View(), segmentOrder, SegmentMap(), scope);
      PopSegments(SegmentIds(ListSegments(View(), scope)));
    }

    /** The kinds whose records are never changed in place */
    method PurgeValues(scope: string, kind: Kind)
      requires !kind.SemanticFact? && !kind.TimelineSegment?
      modifies `episodes, `pointers, `patterns, `duratives, `explicits, `snapshots
      ensures View() == PurgeKind(old(View()), scope, kind)
    {
      hide Values, FactMap, SegmentMap, Filter, EpisodeVisible, PointerVisible, PatternVisible, DurativeVisible;
      var m := View();
      match kind
      case RawEpisode => episodes := Filter(episodes, (e: Episode) => !(e.scope == scope && EpisodeVisible(m, e)));
      case MatrixPointer => pointers := Filter(pointers, (p: Pointer) => !(p.scope == scope && PointerVisible(m, p)));
      case ProceduralPattern => patterns := Filter(patterns, (p: Pattern) => !(p.scope == scope && PatternVisible(m, p)));
      case DurativeRecord => duratives := Filter(duratives, (d: Durative) => !(d.scope == scope && DurativeVisible(m, d)));
      case ExplicitRecord => explicits := Filter(explicits, (e: Explicit) => e.scope != scope);
      case ProjectStateSnapshot => snapshots := Filter(snapshots, (s: Snapshot) => s.scope != scope);
      case _ =>
    }

    /** One requested kind of hard_purge_scope */
    method PurgeOne(scope: string, kind: Kind)
      requires Valid()
      modifies `factOrder, `facts, `segmentOrder, `segments
      modifies `episodes, `pointers, `patterns, `duratives, `explicits, `snapshots
      ensures Valid() && View() == PurgeKind(old(View()), scope, kind)
      ensures facts.Values <= old(facts).Values && segments.Values <= old(segments).Values
    {
      hide Values, PurgeKind;
      if kind.SemanticFact? {
        PurgeFacts(scope);
      } else if kind.TimelineSegment? {
        PurgeSegments(scope);
      } else {
        PurgeValues(scope, kind);
      }
    }

    /** hard_purge_scope: kind after kind, and then the pointers whose facts went. */
    method Purge(scope: string, kinds: seq<Kind>)
      requires Valid()
      modifies `factOrder, `facts, `segmentOrder, `segments
      modifies `episodes, `pointers, `patterns, `duratives, `explicits, `snapshots
      ensures Valid() && View() == HardPurge(old(View()), scope, kinds)
    {
      hide Values, FactMap, SegmentMap, PurgeKind, Filter, Cascaded;
      ghost var start := View();
      var requested := Requested(kinds);
      var cascaded := Cascaded(View(), scope, requested);
      for i := 0 to |requested|
        invariant Valid() && View() == PurgeKinds(start, scope, requested[..i])
        invariant facts.Values <= old(facts).Values && segments.Values <= old(segments).Values
      {
        assert requested[..i + 1][..i] == requested[..i];
        PurgeOne(scope, requested[i]);
      }
      assert requested[..|requested|] == requested;
      pointers := Filter(pointers, (p: Pointer) => p.id !in cascaded);
    }

    // -------------------------------------------------------------------------- timelines

    twostate lemma {:induction false} SegmentChanged(id: Id)
      requires old(Valid()) && segments == old(segments) && id in segments
      requires forall other :: other in segments && other != id ==> unchanged(segments[other])
      ensures SegmentMap() == old(SegmentMap())[id := segments[id].Rec()]
    {
    }

    twostate lemma {:induction false} SegmentAdded(new record: SegmentRecord)
      requires segments == old(segments)[record.id := record]
      requires forall other :: other in old(segments) ==> unchanged(old(segments)[other])
      ensures SegmentMap() == old(SegmentMap())[record.id := record.Rec()]
    {
    }

    /** `segments[-1].next_segment_id = segment.segment_id` */
    method LinkSegment(id: Id, next: Id)
      requires Valid() && id in segments
      modifies segments.Values
      ensures SegmentMap() == old(SegmentMap())[id := old(SegmentMap())[id].(next := Some(next))]
      ensures FactMap() == old(FactMap())
    {
      segments[id].Link(next);
      SegmentChanged(id);
    }

    /** `timeline_segments[segment.segment_id] = segment` for a fresh identifier */
    method StoreSegment(segment: Segment)
      requires Valid() && segment.id == nextId
      modifies `segmentOrder, `segments, `nextId
      ensures Valid() && nextId == old(nextId) + 1 && segmentOrder == old(segmentOrder) + [segment.id]
      ensures SegmentMap() == old(SegmentMap())[segment.id := segment]
      ensures segment.id in segments && fresh(segments[segment.id])
      ensures segments == old(segments)[segment.id := segments[segment.id]]
    {
      var record := new SegmentRecord(segment);
      segmentOrder := segmentOrder + [segment.id];
      segments := segments[segment.id := record];
      nextId := nextId + 1;
      SegmentAdded(record);
    }

    /** Append a segment and patch the forward link of the one before it. */
    method AppendSegment(segment: Segment, previous: Option<Id>)
      requires Valid() && segment.id == nextId
      requires previous.Some? ==> EndsWith(segmentOrder, previous.value)
      modifies `segmentOrder, `segments, `nextId, segments.Values
      ensures Valid() && nextId == old(nextId) + 1 && EndsWith(segmentOrder, segment.id)
      ensures Values(segmentOrder, SegmentMap())
        == Patched(old(Values(segmentOrder, SegmentMap())), previous, segment.id) + [segment]
      ensures FactMap() == old(FactMap())
      ensures segment.id in segments && fresh(segments[segment.id])
      ensures segments == old(segments)[segment.id := segments[segment.id]]
    {
      hide Values, FactMap, Patched;
      PatchNone(Values(segmentOrder, SegmentMap()), segment.id);
      if previous.Some? {
        PatchLast(segmentOrder, SegmentMap(), previous.value, segment.id);
        LinkSegment(previous.value, segment.id);
      }
      ValuesOfNew(segmentOrder, SegmentMap(), segment.id, segment);
      StoreSegment(segment);
    }

    /** Build the segments of the groups one by one, with the states seen so far. */
    method BuildSegments(groups: seq<seq<Fact>>, scope: string, now: Time)
      requires Valid() && AllNonEmpty(groups)
      modifies `segmentOrder, `segments, `nextId, segments.Values
      ensures Valid() && nextId == old(nextId) + |groups| && FactMap() == old(FactMap())
      ensures Values(segmentOrder, SegmentMap())
        == old(Values(segmentOrder, SegmentMap())) + SegmentsOf(ByState, groups, scope, old(nextId), now)
      ensures forall id :: id in segments ==> segments[id] in old(segments).Values || fresh(segments[id])
    {
      hide Values, SegmentMap, FactMap, Patched, EndsWith, Seen, Remember, Contradicted, MergeReasonOf, SegmentAt;
      ghost var kept, base := Values(segmentOrder, SegmentMap()), nextId;
      var previous: Option<Id> := None;
      var seen: SeenStates := [];
      BuiltNone(kept, groups, scope, base, now);
      for n := 0 to |groups|
        invariant Valid() && nextId == base + n && FactMap() == old(FactMap())
        invariant Values(segmentOrder, SegmentMap()) == kept + Built(groups, n, scope, base, now)
        invariant seen == Seen(groups[..n])
        invariant previous == if n == 0 then None else Some(base + n - 1)
        invariant previous.Some? ==> EndsWith(segmentOrder, previous.value)
        invariant forall id :: id in segments ==> segments[id] in old(segments).Values || fresh(segments[id])
      {
        var items := groups[n];
        var state := StateOf(items);
        var transition := if n + 1 == |groups| then Terminal
                          else if groups[n + 1][0].obj != state then StateChange else Continued;
        var segment := Segment(nextId, scope, items[0].subject, items[0].pred, state, StartOf(items[0]), EndOf(Last(items)),
                               Ids(items), previous, None, transition, Contradicted(seen, state),
                               MergeReasonOf(seen, state), now);
        SegmentFields(groups, n, scope, base, now);
        BuiltOneMore(kept, groups, n, scope, base, now, segment);
        AppendSegment(segment, previous);
        previous := Some(segment.id);
        SeenOneMore(groups, n);
        seen := Remember(seen, state, Ids(items));
      }
      BuiltAll(groups, scope, base, now);
    }

    /** Pop the segments that a new timeline replaces. */
    method PopStale(scope: string, subject: Option<string>, pred: Option<string>)
      requires Valid()
      modifies `segmentOrder, `segments
      ensures Valid()
      ensures Values(segmentOrder, SegmentMap())
        == Filter(old(View()).segments, (s: Segment) => !Stale(old(View()), scope, subject, pred, s))
      ensures segments.Values <= old(segments).Values
    {
      hide Values, ListSegments, SegmentIds, Stale;
      var m := View();
      var stale := Filter(ListSegments(m, scope), (s: Segment) => Stale(m, scope, subject, pred, s));
      StalePopped(m, segmentOrder, SegmentMap(), scope, subject, pred);
      PopSegments(SegmentIds(stale));
    }

    /** reconstruct_timeline */
    method ReconstructTimeline(scope: string, subject: Option<string>, pred: Option<string>, now: Time)
      returns (rebuilt: seq<Segment>)
      requires Valid()
      modifies `segmentOrder, `segments, `nextId, segments.Values
      ensures Valid() && View() == Reconstruct(old(View()), scope, subject, pred, now)
      ensures rebuilt == FreshSegments(old(View()), scope, subject, pred, now)
      ensures forall id :: id in segments ==> segments[id] in old(segments).Values || fresh(segments[id])
    {
      hide Values, SegmentMap, FactMap, TimelineFacts, Groups, SegmentsOf, Stale, Filter;
      var ordered := TimelineFacts(View(), scope, subject, pred);
      var groups := GroupByState(ordered);
      PopStale(scope, subject, pred);
      var kept := Values(segmentOrder, SegmentMap());
      BuildSegments(groups, scope, now);
      rebuilt := Values(segmentOrder, SegmentMap())[|kept|..];
    }

    /** reconstruct_project_state */
    method ReconstructProjectState(scope: string, subject: string, now: Time) returns (snapshot: Snapshot)
      requires Valid()
      modifies `segmentOrder, `segments, `nextId, `snapshots, segments.Values
      ensures Valid() && View() == ProjectState(old(View()), scope, subject, now)
      ensures snapshot == ProjectSnapshot(old(View()), scope, subject, now)
      ensures forall id :: id in segments ==> segments[id] in old(segments).Values || fresh(segments[id])
    {
      hide Values, SegmentMap, FactMap, StoredSegments, FreshSegments, ListFacts, OnlyActive, StateObjects,
           SegmentIds, CountResumed, Filter;
      ghost var start := View();
      var timeline := StoredSegments(View(), scope, subject);
      if timeline == [] {
        timeline := ReconstructTimeline(scope, Some(subject), None, now);
        SameFacts(start, View(), scope);
      }
      var active := OnlyActive(Filter(ListFacts(View(), scope), (f: Fact) => f.subject == subject));
      snapshot := Snapshot(nextId, scope, subject, StateObjects(active), CountResumed(timeline), SegmentIds(timeline), Ids(active));
      snapshots := snapshots + [snapshot];
      nextId := nextId + 1;
    }

    /** One project state per subject */
    method ReconstructProjectStates(scope: string, subjects: seq<string>, now: Time)
      requires Valid()
      modifies `segmentOrder, `segments, `nextId, `snapshots, segments.Values
      ensures Valid() && View() == ProjectStates(old(View()), scope, subjects, now)
      ensures forall id :: id in segments ==> segments[id] in old(segments).Values || fresh(segments[id])
    {
      hide Values, SegmentMap, FactMap, ProjectState, ProjectSnapshot;
      for i := 0 to |subjects|
        invariant Valid() && View() == ProjectStates(old(View()), scope, subjects[..i], now)
        invariant forall id :: id in segments ==> segments[id] in old(segments).Values || fresh(segments[id])
      {
        assert subjects[..i + 1][..i] == subjects[..i];
        var snapshot := ReconstructProjectState(scope, subjects[i], now);
      }
      assert subjects[..|subjects|] == subjects;
    }

    // -------------------------------------------------------------------- sleep and status

    /** The durative record of one storyline, from facts listed before */
    method RecordDurativeOf(line: Line, related: seq<Fact>, now: Time)
      modifies `duratives
      ensures View() == RecordDurative(old(View()), line, related, now)
    {
      hide Values, SegmentMap, FactMap, DurativeOf, PutDurative;
      if |related| >= 2 {
        duratives := PutDurative(duratives, DurativeOf(line, related, now));
      }
    }

    method RecordDurativesOf(listed: seq<Fact>, now: Time)
      modifies `duratives
      ensures View() == RecordDuratives(old(View()), listed, Lines(listed), now)
    {
      hide Values, SegmentMap, FactMap, RecordDurative, OnLine, Lines;
      var lines := Lines(listed);
      for i := 0 to |lines|
        invariant View() == RecordDuratives(old(View()), listed, lines[..i], now)
      {
        assert lines[..i + 1][..i] == lines[..i];
        RecordDurativeOf(lines[i], OnLine(listed, lines[i]), now);
      }
      assert lines[..|lines|] == lines;
    }

    /** run_sleep_consolidation: durative records, duplicate pointers, project states. */
    method SleepConsolidation(scope: string, now: Time)
      requires Valid()
      modifies `duratives, `tombstones, `segmentOrder, `segments, `nextId, `snapshots, segments.Values
      ensures Valid() && View() == Sleep(old(View()), scope, now)
    {
      hide Values, SegmentMap, FactMap, RecordDuratives, Deduplicate, ProjectStates, ListFacts, Lines, Subjects;
      var listed := ListFacts(View(), scope);
      RecordDurativesOf(listed, now);
      var removed := DeduplicatePointers(scope);
      ReconstructProjectStates(scope, Subjects(listed), now);
    }

    /** `fact.status = status` */
    method MarkFact(id: Id, status: Status)
      requires Valid() && id in facts
      modifies facts.Values
      ensures FactMap() == old(FactMap())[id := old(facts[id].Rec()).(status := status)]
      ensures SegmentMap() == old(SegmentMap())
    {
      facts[id].Mark(status);
      FactChanged(id);
    }

    /** Write the statuses of the listed facts one by one. */
    method MarkFacts(ids: seq<Id>, statuses: map<Id, Status>)
      requires Valid() && forall id :: id in ids ==> id in facts && id in statuses
      modifies facts.Values
      ensures FactMap() == MarkIn(old(FactMap()), ids, statuses)
      ensures SegmentMap() == old(SegmentMap())
    {
      for i := 0 to |ids|
        invariant FactMap() == MarkIn(old(FactMap()), ids[..i], statuses)
        invariant SegmentMap() == old(SegmentMap())
      {
        MarkFact(ids[i], statuses[ids[i]]);
        MarkInOneMore(old(FactMap()), ids[..i], ids[i], statuses);
        assert ids[..i + 1] == ids[..i] + [ids[i]];
      }
      assert ids[..|ids|] == ids;
    }

    /** The status writes of a repair, over exactly the facts it names */
    method WriteStatuses(ids: seq<Id>, statuses: map<Id, Status>)
      requires Valid() && forall id :: id in ids <==> id in statuses
      requires forall id :: id in ids ==> id in facts
      modifies facts.Values
      ensures View() == old(View()).(facts := WithStatuses(old(View()).facts, statuses))
    {
      hide Values, MarkIn;
      ValuesMarked(factOrder, FactMap(), ids, statuses);
      MarkFacts(ids, statuses);
    }
  }

  /** The dictionary with the statuses of the listed facts written. */
  function MarkIn(index: map<Id, Fact>, ids: seq<Id>, statuses: map<Id, Status>): map<Id, Fact> {
    map id | id in index :: if id in ids && id in statuses then index[id].(status := statuses[id]) else index[id]
  }

  lemma {:induction false} MarkInOneMore(index: map<Id, Fact>, ids: seq<Id>, id: Id, statuses: map<Id, Status>)
    requires id in index && id in statuses
    ensures id in MarkIn(index, ids, statuses)
    ensures MarkIn(index, ids + [id], statuses)
         == MarkIn(index, ids, statuses)[id := MarkIn(index, ids, statuses)[id].(status := statuses[id])]
  {
  }

  lemma {:induction false} ValuesMarked(order: seq<Id>, index: map<Id, Fact>, ids: seq<Id>, statuses: map<Id, Status>)
    requires Keyed(order, index) && forall id :: id in ids <==> id in statuses
    ensures Values(order, MarkIn(index, ids, statuses)) == WithStatuses(Values(order, index), statuses)
  {
    ValuesAt(order, index);
    ValuesAt(order, MarkIn(index, ids, statuses));
  }

  /** A listing of facts looks at the facts and the tombstones only. */
  lemma {:induction false} SameFacts(m: Mem, m': Mem, scope: string)
    requires m'.facts == m.facts && m'.tombstones == m.tombstones
    ensures ListFacts(m', scope) == ListFacts(m, scope)
  {
    FilterCongruence(m.facts, (f: Fact) => f.scope == scope && FactVisible(m', f),
                              (f: Fact) => f.scope == scope && FactVisible(m, f));
  }

  lemma {:induction false} StalePopped(m: Mem, order: seq<Id>, index: map<Id, Segment>, scope: string,
                                       subject: Option<string>, pred: Option<string>)
    requires m.segments == Values(order, index) && KeyedSegments(order, index)
    ensures var gone := SegmentIds(Filter(ListSegments(m, scope), (s: Segment) => Stale(m, scope, subject, pred, s)));
      Values(Filter(order, NotIn(gone)), index - Elements(gone))
      == Filter(m.segments, (s: Segment) => !Stale(m, scope, subject, pred, s))
  {
    hide Values, SegmentIds;
    var p := (s: Segment) => Stale(m, scope, subject, pred, s);
    var listed := Filter(ListSegments(m, scope), p);
    forall s
      ensures s in listed <==> s in m.segments && p(s)
    {
      SortMember(VisibleSegments(m, scope), SegmentStart, s);
    }
    SegmentsPopped(order, index, listed, p);
    FilterCongruence(m.segments, (s: Segment) => !p(s), (s: Segment) => !Stale(m, scope, subject, pred, s));
  }

  /** The first n segments, the last of them not linked forward yet. */
  function Built(groups: seq<seq<Fact>>, n: nat, scope: string, base: Id, now: Time): seq<Segment>
    requires AllNonEmpty(groups) && n <= |groups|
  {
    seq(n, k requires 0 <= k < n =>
      if k + 1 == n then SegmentAt(ByState, groups, k, scope, base, now).(next := None)
      else SegmentAt(ByState, groups, k, scope, base, now))
  }

  /** A segment before its forward link is patched. */
  lemma {:induction false} SegmentFields(groups: seq<seq<Fact>>, n: nat, scope: string, base: Id, now: Time)
    requires AllNonEmpty(groups) && n < |groups|
    ensures var items := groups[n];
      var state := StateOf(items);
      SegmentAt(ByState, groups, n, scope, base, now).(next := None)
      == Segment(base + n, scope, items[0].subject, items[0].pred, state, StartOf(items[0]), EndOf(Last(items)), Ids(items),
                 if n == 0 then None else Some(base + n - 1), None,
                 if n + 1 == |groups| then Terminal else if groups[n + 1][0].obj != state then StateChange else Continued,
                 Contradicted(Seen(groups[..n]), state), MergeReasonOf(Seen(groups[..n]), state), now)
  {
    hide Contradicted, MergeReasonOf, Seen;
  }

  lemma {:induction false} BuiltNone(kept: seq<Segment>, groups: seq<seq<Fact>>, scope: string, base: Id, now: Time)
    requires AllNonEmpty(groups)
    ensures kept + Built(groups, 0, scope, base, now) == kept && Seen(groups[..0]) == []
  {
  }

  lemma {:induction false} BuiltShape(groups: seq<seq<Fact>>, n: nat, scope: string, base: Id, now: Time)
    requires AllNonEmpty(groups) && 0 < n <= |groups|
    ensures Built(groups, n, scope, base, now)
         == SegmentsOf(ByState, groups, scope, base, now)[..n - 1]
            + [SegmentAt(ByState, groups, n - 1, scope, base, now).(next := None)]
  {
    hide SegmentAt;
  }

  lemma {:induction false} PatchedAppend(kept: seq<Segment>, front: seq<Segment>, last: Segment, id: Id, previous: Id, segment: Segment)
    requires last.next == Some(id)
    ensures Patched(kept + (front + [last.(next := None)]), Some(previous), id) + [segment]
         == kept + (front + [last] + [segment])
  {
    var s := kept + (front + [last.(next := None)]);
    assert s[..|s| - 1] == kept + front;
  }

  lemma {:induction false} BuiltOneMore(kept: seq<Segment>, groups: seq<seq<Fact>>, n: nat, scope: string, base: Id, now: Time, segment: Segment)
    requires AllNonEmpty(groups) && n < |groups|
    requires segment == SegmentAt(ByState, groups, n, scope, base, now).(next := None)
    ensures Patched(kept + Built(groups, n, scope, base, now), if n == 0 then None else Some(base + n - 1), base + n) + [segment]
         == kept + Built(groups, n + 1, scope, base, now)
  {
    hide SegmentAt, Built, Patched;
    var all := SegmentsOf(ByState, groups, scope, base, now);
    BuiltShape(groups, n + 1, scope, base, now);
    if n == 0 {
      PatchNone(kept + Built(groups, 0, scope, base, now), base);
      BuiltNone(kept, groups, scope, base, now);
    } else {
      LinkedForward(groups, n, scope, base, now);
      BuiltShape(groups, n, scope, base, now);
      PatchedAppend(kept, all[..n - 1], all[n - 1], base + n, base + n - 1, segment);
      assert all[..n] == all[..n - 1] + [all[n - 1]];
    }
  }

  lemma {:induction false} LinkedForward(groups: seq<seq<Fact>>, n: nat, scope: string, base: Id, now: Time)
    requires AllNonEmpty(groups) && 0 < n < |groups|
    ensures SegmentAt(ByState, groups, n - 1, scope, base, now).next == Some(base + n)
  {
  }

  lemma {:induction false} BuiltAll(groups: seq<seq<Fact>>, scope: string, base: Id, now: Time)
    requires AllNonEmpty(groups)
    ensures Built(groups, |groups|, scope, base, now) == SegmentsOf(ByState, groups, scope, base, now)
  {
  }

  lemma {:induction false} SeenOneMore(groups: seq<seq<Fact>>, n: nat)
    requires AllNonEmpty(groups) && n < |groups|
    ensures Seen(groups[..n + 1]) == Remember(Seen(groups[..n]), StateOf(groups[n]), Ids(groups[n]))
  {
    assert groups[..n + 1][..n] == groups[..n];
  }

  /** The key stands last, and nowhere before. */
  predicate EndsWith(order: seq<Id>, id: Id) {
    order != [] && order[|order| - 1] == id && id !in order[..|order| - 1]
  }

  /** The segments with the last one linked forward, if there is a previous one. */
  function Patched(s: seq<Segment>, previous: Option<Id>, next: Id): seq<Segment> {
    if previous.None? || s == [] then s else s[..|s| - 1] + [s[|s| - 1].(next := Some(next))]
  }

  lemma {:induction false} PatchNone(s: seq<Segment>, next: Id)
    ensures Patched(s, None, next) == s
  {
  }

  lemma {:induction false} PatchLast(order: seq<Id>, index: map<Id, Segment>, last: Id, next: Id)
    requires EndsWith(order, last) && last in index
    ensures Values(order, index[last := index[last].(next := Some(next))]) == Patched(Values(order, index), Some(last), next)
  {
    var front := order[..|order| - 1];
    assert order == front + [last];
    ValuesLast(front, index, last);
    ValuesUnseen(front, index, last, index[last].(next := Some(next)));
    ValuesLast(front, index[last := index[last].(next := Some(next))], last);
  }

  /** Group the ordered facts by state, as reconstruct_timeline does. */
  method GroupByState(ordered: seq<Fact>) returns (groups: seq<seq<Fact>>)
    ensures groups == Groups(ByState, ordered)
  {
    groups := [];
    for i := 0 to |ordered|
      invariant groups == Groups(ByState, ordered[..i])
    {
      assert ordered[..i + 1][..i] == ordered[..i];
      var fact := ordered[i];
      if groups == [] || Last(Last(groups)).obj != fact.obj {
        groups := groups + [[fact]];
      } else {
        groups := groups[..|groups| - 1] + [Last(groups) + [fact]];
      }
    }
    assert ordered[..|ordered|] == ordered;
  }

  // ---------------------------------------------------------------- what a purge pops

  predicate Purged(m: Mem, scope: string, f: Fact) {
    f.scope == scope && FactVisible(m, f)
  }

  lemma {:induction false} PurgedFacts(m: Mem, order: seq<Id>, index: map<Id, Fact>, scope: string)
    requires m.facts == Values(order, index) && Keyed(order, index)
    ensures var gone := Ids(ListFacts(m, scope));
      PurgeKind(m, scope, SemanticFact)
      == m.(facts := Values(Filter(order, NotIn(gone)), index - Elements(gone)))
  {
    hide Values, ListFacts, FactVisible;
    var gone := Ids(ListFacts(m, scope));
    var kept := (f: Fact) => !Purged(m, scope, f);
    forall id | id in order
      ensures id in index && kept(index[id]) == (id !in gone)
    {
      StoredUnder(order, index, id);
      ListedById(m, order, index, scope, index[id]);
    }
    ValuesPopped(order, index, gone, kept);
    FilterCongruence(m.facts, kept, (f: Fact) => !(f.scope == scope && FactVisible(m, f)));
  }

  ghost predicate KeyedSegments(order: seq<Id>, index: map<Id, Segment>) {
    (forall id :: id in order ==> id in index) && (forall id :: id in index ==> index[id].id == id)
  }

  lemma {:induction false} SegmentUnder(order: seq<Id>, index: map<Id, Segment>, id: Id)
    requires KeyedSegments(order, index) && id in order
    ensures id in index && index[id] in Values(order, index) && index[id].id == id
  {
    ValuesAt(order, index);
    var i :| 0 <= i < |order| && order[i] == id;
    assert Values(order, index)[i] == index[id];
  }

  lemma {:induction false} SegmentsById(order: seq<Id>, index: map<Id, Segment>, listed: seq<Segment>, p: Segment -> bool, s: Segment)
    requires KeyedSegments(order, index) && s in Values(order, index)
    requires forall x :: x in listed <==> x in Values(order, index) && p(x)
    ensures s.id in SegmentIds(listed) <==> p(s)
  {
    ValuesAt(order, index);
    if p(s) {
      var i :| 0 <= i < |listed| && listed[i] == s;
      assert SegmentIds(listed)[i] == s.id;
    }
    if s.id in SegmentIds(listed) {
      var i :| 0 <= i < |listed| && SegmentIds(listed)[i] == s.id;
      assert listed[i] in listed;
    }
  }

  /** Popping the ids of the listed segments that satisfy p filters them out. */
  lemma {:induction false} SegmentsPopped(order: seq<Id>, index: map<Id, Segment>, listed: seq<Segment>, p: Segment -> bool)
    requires KeyedSegments(order, index)
    requires forall x :: x in listed <==> x in Values(order, index) && p(x)
    ensures var gone := SegmentIds(listed);
      Values(Filter(order, NotIn(gone)), index - Elements(gone)) == Filter(Values(order, index), (s: Segment) => !p(s))
  {
    hide Values, SegmentIds;
    var gone := SegmentIds(listed);
    forall id | id in order
      ensures id in index && p(index[id]) == (id in gone)
    {
      SegmentUnder(order, index, id);
      SegmentsById(order, index, listed, p, index[id]);
    }
    ValuesPopped(order, index, gone, (s: Segment) => !p(s));
  }

  lemma {:induction false} PurgedSegments(m: Mem, order: seq<Id>, index: map<Id, Segment>, scope: string)
    requires m.segments == Values(order, index) && KeyedSegments(order, index)
    ensures var gone := SegmentIds(ListSegments(m, scope));
      PurgeKind(m, scope, TimelineSegment)
      == m.(segments := Values(Filter(order, NotIn(gone)), index - Elements(gone)))
  {
    hide Values, SegmentVisible, SegmentIds;
    var p := (s: Segment) => s.scope == scope && SegmentVisible(m, s);
    forall s
      ensures s in ListSegments(m, scope) <==> s in m.segments && p(s)
    {
      SortMember(VisibleSegments(m, scope), SegmentStart, s);
    }
    SegmentsPopped(order, index, ListSegments(m, scope), p);
    FilterCongruence(m.segments, (s: Segment) => !p(s), (s: Segment) => !(s.scope == scope && SegmentVisible(m, s)));
  }

  lemma {:induction false} StoredUnder(order: seq<Id>, index: map<Id, Fact>, id: Id)
    requires Keyed(order, index) && id in order
    ensures id in index && index[id] in Values(order, index) && index[id].id == id
  {
    ValuesAt(order, index);
    var i :| 0 <= i < |order| && order[i] == id;
    assert Values(order, index)[i] == index[id];
  }

  lemma {:induction false} ListedById(m: Mem, order: seq<Id>, index: map<Id, Fact>, scope: string, f: Fact)
    requires m.facts == Values(order, index) && Keyed(order, index) && f in m.facts
    ensures f.id in Ids(ListFacts(m, scope)) <==> f.scope == scope && FactVisible(m, f)
  {
    hide ListFacts;
    var listed := ListFacts(m, scope);
    ValuesAt(order, index);
    ListFactsMember(m, scope, f);
    if f in listed {
      var i :| 0 <= i < |listed| && listed[i] == f;
      assert Ids(listed)[i] == f.id;
    }
    if f.id in Ids(listed) {
      var i :| 0 <= i < |listed| && Ids(listed)[i] == f.id;
      ListFactsMember(m, scope, listed[i]);
    }
  }

  // ------------------------------------------------------------- counting a deletion

  lemma {:induction false} BuryKeepsFacts(m: Mem, scope: string, kind: Kind, keys: seq<RecordKey>)
    ensures !kind.SemanticFact? ==> ListFacts(BuryAll(m, scope, kind, keys), scope) == ListFacts(m, scope)
  {
    var m' := BuryAll(m, scope, kind, keys);
    BuryAllHides(m, scope, kind, keys);
    if !kind.SemanticFact? {
      FilterCongruence(m.facts, (f: Fact) => f.scope == scope && FactVisible(m', f),
                                (f: Fact) => f.scope == scope && FactVisible(m, f));
    }
  }

  lemma {:induction false} BuryKeepsPointers(m: Mem, scope: string, kind: Kind, keys: seq<RecordKey>)
    ensures !kind.MatrixPointer? ==> ListPointers(BuryAll(m, scope, kind, keys), scope) == ListPointers(m, scope)
  {
    var m' := BuryAll(m, scope, kind, keys);
    BuryAllHides(m, scope, kind, keys);
    if !kind.MatrixPointer? {
      FilterCongruence(m.pointers, (p: Pointer) => p.scope == scope && PointerVisible(m', p),
                                   (p: Pointer) => p.scope == scope && PointerVisible(m, p));
    }
  }

  lemma {:induction false} BuryKeepsPatterns(m: Mem, scope: string, kind: Kind, keys: seq<RecordKey>)
    ensures !kind.ProceduralPattern? ==> ListPatterns(BuryAll(m, scope, kind, keys), scope) == ListPatterns(m, scope)
  {
    var m' := BuryAll(m, scope, kind, keys);
    BuryAllHides(m, scope, kind, keys);
    if !kind.ProceduralPattern? {
      FilterCongruence(m.patterns, (p: Pattern) => p.scope == scope && PatternVisible(m', p),
                                   (p: Pattern) => p.scope == scope && PatternVisible(m, p));
    }
  }

  lemma {:induction false} BuryKeepsDuratives(m: Mem, scope: string, kind: Kind, keys: seq<RecordKey>)
    ensures !kind.DurativeRecord? ==> ListDuratives(BuryAll(m, scope, kind, keys), scope) == ListDuratives(m, scope)
  {
    var m' := BuryAll(m, scope, kind, keys);
    BuryAllHides(m, scope, kind, keys);
    if !kind.DurativeRecord? {
      FilterCongruence(m.duratives, (d: Durative) => d.scope == scope && DurativeVisible(m', d),
                                    (d: Durative) => d.scope == scope && DurativeVisible(m, d));
    }
  }

  /** The records that tombstone_scope finds kind by kind are the ones visible at the start. */
  lemma {:induction false} DeletionCount(m: Mem, scope: string)
    ensures var m1 := BuryAll(m, scope, RawEpisode, EpisodeKeys(ListEpisodes(m, scope)));
      var m2 := BuryAll(m1, scope, SemanticFact, FactKeys(ListFacts(m1, scope)));
      var m3 := BuryAll(m2, scope, MatrixPointer, PointerKeys(ListPointers(m2, scope)));
      var m4 := BuryAll(m3, scope, ProceduralPattern, PatternKeys(ListPatterns(m3, scope)));
      VisibleCount(m, scope) == |ListEpisodes(m, scope)| + |ListFacts(m1, scope)| + |ListPointers(m2, scope)|
                                + |ListPatterns(m3, scope)| + |ListDuratives(m4, scope)|
  {
    hide BuryAll, ListEpisodes, ListFacts, ListPointers, ListPatterns, ListDuratives;
    var m1 := BuryAll(m, scope, RawEpisode, EpisodeKeys(ListEpisodes(m, scope)));
    var m2 := BuryAll(m1, scope, SemanticFact, FactKeys(ListFacts(m1, scope)));
    var m3 := BuryAll(m2, scope, MatrixPointer, PointerKeys(ListPointers(m2, scope)));
    BuryKeepsFacts(m, scope, RawEpisode, EpisodeKeys(ListEpisodes(m, scope)));
    BuryKeepsPointers(m, scope, RawEpisode, EpisodeKeys(ListEpisodes(m, scope)));
    BuryKeepsPatterns(m, scope, RawEpisode, EpisodeKeys(ListEpisodes(m, scope)));
    BuryKeepsDuratives(m, scope, RawEpisode, EpisodeKeys(ListEpisodes(m, scope)));
    BuryKeepsPointers(m1, scope, SemanticFact, FactKeys(ListFacts(m1, scope)));
    BuryKeepsPatterns(m1, scope, SemanticFact, FactKeys(ListFacts(m1, scope)));
    BuryKeepsDuratives(m1, scope, SemanticFact, FactKeys(ListFacts(m1, scope)));
    BuryKeepsPatterns(m2, scope, MatrixPointer, PointerKeys(ListPointers(m2, scope)));
    BuryKeepsDuratives(m2, scope, MatrixPointer, PointerKeys(ListPointers(m2, scope)));
    BuryKeepsDuratives(m3, scope, ProceduralPattern, PatternKeys(ListPatterns(m3, scope)));
  }

  lemma {:induction false} KeysOneMore(s: seq<Pointer>, i: nat)
    requires i < |s|
    ensures Keys(s[..i + 1]) == Keys(s[..i]) + {KeyOf(s[i])}
    ensures KeyOf(s[i]) in Keys(s[..i]) ==> Duplicates(s[..i + 1]) == Duplicates(s[..i]) + [s[i]]
    ensures KeyOf(s[i]) !in Keys(s[..i]) ==> Duplicates(s[..i + 1]) == Duplicates(s[..i])
  {
    assert s[..i + 1] == s[..i] + [s[i]];
    assert s[..i + 1][..i] == s[..i];
  }

  lemma {:induction false} BuryNone(m: Mem, scope: string)
    ensures BuryAll(m, scope, MatrixPointer, PointerKeys(Duplicates([]))) == m && Keys([]) == {} && |Duplicates([])| == 0
  {
  }

  lemma {:induction false} BuryOneMore(m: Mem, scope: string, s: seq<Pointer>, p: Pointer)
    ensures BuryAll(m, scope, MatrixPointer, PointerKeys(s + [p]))
         == Bury(BuryAll(m, scope, MatrixPointer, PointerKeys(s)), scope, MatrixPointer, Issued(p.id))
  {
    assert PointerKeys(s + [p])[..|s|] == PointerKeys(s);
  }
}
