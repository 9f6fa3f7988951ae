/** The associative pointer index: writing, rebuilding, deduplicating, and the deletions that
    must keep it in agreement with the facts it points at (memory/matrix.py). */
module Pointers {
  import opened Prelude
  import opened Records
  import opened FactStore

  // ------------------------------------------------------------------------- writing

  /** What a pointer points at; rebuilding and deduplication compare pointers by it. */
  datatype PointerKey = PointerKey(head: string, episodes: seq<string>, facts: seq<Id>, patterns: seq<Id>)

  function KeyOf(p: Pointer): PointerKey {
    PointerKey(p.head, p.episodes, p.facts, p.patterns)
  }

  /** The key of the pointer that stands for a fact. */
  function FactKey(f: Fact): PointerKey {
    PointerKey(f.head, EpisodeSources(f.provenance), [f.id], [])
  }

  /** _write_matrix_pointer */
  function WritePointer(m: Mem, scope: string, key: PointerKey, now: Time): Mem {
    m.(pointers := m.pointers + [Pointer(m.nextId, scope, key.head, key.episodes, key.facts, key.patterns, now)],
       nextId := m.nextId + 1)
  }

  /** consolidate_candidate on a candidate governed into semantic memory */
  function WriteSemantic(m: Mem, c: Candidate, now: Time): Mem {
    WritePointer(Consolidate(m, c, now), c.scope,
                 PointerKey(HeadOf(c), EpisodeSources(c.sources), [m.nextId], []), now)
  }

  /** consolidate_candidate on a candidate governed into procedural memory */
  function WriteProcedural(m: Mem, c: Candidate, now: Time): Mem {
    WritePointer(
      m.(patterns := m.patterns + [Pattern(m.nextId, c.scope, c.summary, now)], nextId := m.nextId + 1),
      c.scope, PointerKey("procedure", EpisodeSources(c.sources), [], [m.nextId]), now)
  }

  /** consolidate_candidate on a candidate governed into explicit memory */
  function WriteExplicit(m: Mem, c: Candidate, now: Time): Mem {
    m.(explicits := m.explicits + [Explicit(m.nextId, c.scope, c.summary, now)], nextId := m.nextId + 1)
  }

  // ---------------------------------------------------------------------- rebuilding

  /** The part of a key that a rebuild looks for: it ignores the episodes. */
  datatype IndexKey = IndexKey(head: string, facts: seq<Id>, patterns: seq<Id>)

  function IndexKeys(pointers: seq<Pointer>): set<IndexKey> {
    set p | p in pointers :: IndexKey(p.head, p.facts, p.patterns)
  }

  predicate Indexed(existing: set<IndexKey>, f: Fact) {
    IndexKey(f.head, [f.id], []) in existing
  }

  function RebuildFrom(m: Mem, scope: string, facts: seq<Fact>, existing: set<IndexKey>, now: Time): Mem {
    if facts == [] then m
    else
      var f := facts[|facts| - 1];
      var before := RebuildFrom(m, scope, facts[..|facts| - 1], existing, now);
      if Indexed(existing, f) then before else WritePointer(before, scope, FactKey(f), now)
  }

  /** _rebuild_missing_matrix_pointers */
  function Rebuild(m: Mem, scope: string, now: Time): Mem {
    RebuildFrom(m, scope, ListFacts(m, scope), IndexKeys(ListPointers(m, scope)), now)
  }

  /** How many pointers a rebuild writes. */
  function RebuildCount(m: Mem, scope: string): nat {
    |Filter(ListFacts(m, scope), (f: Fact) => !Indexed(IndexKeys(ListPointers(m, scope)), f))|
  }

  // -------------------------------------------------------------------- tombstones

  /** _write_tombstone: a target is buried once. */
  function Bury(m: Mem, scope: string, kind: Kind, key: RecordKey): Mem {
    if Hidden(m, scope, kind, key) then m
    else m.(tombstones := m.tombstones + [Tombstone(scope, kind, key)])
  }

  function BuryAll(m: Mem, scope: string, kind: Kind, keys: seq<RecordKey>): Mem {
    if keys == [] then m
    else Bury(BuryAll(m, scope, kind, keys[..|keys| - 1]), scope, kind, keys[|keys| - 1])
  }

  /** BuryAll adds exactly the targets it is given, and only tombstones change. */
  lemma {:induction false} BuryAllHides(m: Mem, scope: string, kind: Kind, keys: seq<RecordKey>)
    ensures var m' := BuryAll(m, scope, kind, keys);
      && m' == m.(tombstones := m'.tombstones)
      && (forall t :: t in m'.tombstones <==>
            t in m.tombstones || (t.scope == scope && t.kind == kind && t.key in keys))
  {
    if keys != [] {
      BuryAllHides(m, scope, kind, keys[..|keys| - 1]);
      assert keys == keys[..|keys| - 1] + [keys[|keys| - 1]];
    }
  }

  ghost predicate UniqueTombstones(m: Mem) {
    forall i, j :: 0 <= i < j < |m.tombstones| ==> m.tombstones[i] != m.tombstones[j]
  }

  lemma {:induction false} BuryAllUnique(m: Mem, scope: string, kind: Kind, keys: seq<RecordKey>)
    requires UniqueTombstones(m)
    ensures UniqueTombstones(BuryAll(m, scope, kind, keys))
  {
    if keys != [] {
      BuryAllUnique(m, scope, kind, keys[..|keys| - 1]);
    }
  }

  // ----------------------------------------------------------------- deduplication

  function Keys(pointers: seq<Pointer>): set<PointerKey> {
    set p | p in pointers :: KeyOf(p)
  }

  /** The pointers of a listing whose key an earlier pointer already has. */
  function Duplicates(pointers: seq<Pointer>): seq<Pointer> {
    if pointers == [] then []
    else
      var front, last := pointers[..|pointers| - 1], pointers[|pointers| - 1];
      Duplicates(front) + if KeyOf(last) in Keys(front) then [last] else []
  }

  function PointerKeys(pointers: seq<Pointer>): (r: seq<RecordKey>)
    ensures |r| == |pointers|
  {
    Map(pointers, (p: Pointer) => Issued(p.id))
  }

  function OldestFirst(m: Mem, scope: string): seq<Pointer> {
    SortBy(ListPointers(m, scope), OldestPointerFirst)
  }

  /** _deduplicate_pointers: bury every pointer whose key an older pointer has. */
  function Deduplicate(m: Mem, scope: string): Mem {
    BuryAll(m, scope, MatrixPointer, PointerKeys(Duplicates(OldestFirst(m, scope))))
  }

  // ------------------------------------------------------------------------- deletion

  function EpisodeKeys(s: seq<Episode>): seq<RecordKey> { Map(s, (e: Episode) => Issued(e.id)) }

  function FactKeys(s: seq<Fact>): seq<RecordKey> { Map(s, (f: Fact) => Issued(f.id)) }

  function PatternKeys(s: seq<Pattern>): seq<RecordKey> { Map(s, (p: Pattern) => Issued(p.id)) }

  function DurativeKeys(s: seq<Durative>): seq<RecordKey> { Map(s, (d: Durative) => Named(d.durativeId)) }

  /** tombstone_scope, one record kind after the other */
  function TombstoneScope(m: Mem, scope: string): Mem {
    var m1 := BuryAll(m, scope, RawEpisode, EpisodeKeys(ListEpisodes(m, scope)));
    var m2 := BuryAll(m1, scope, SemanticFact, FactKeys(ListFacts(m1, scope)));
    var m3 := BuryAll(m2, scope, MatrixPointer, PointerKeys(ListPointers(m2, scope)));
    var m4 := BuryAll(m3, scope, ProceduralPattern, PatternKeys(ListPatterns(m3, scope)));
    BuryAll(m4, scope, DurativeRecord, DurativeKeys(ListDuratives(m4, scope)))
  }

  /** The records of a scope that a reader still sees, and that tombstone_scope counts. */
  function VisibleCount(m: Mem, scope: string): nat {
    |ListEpisodes(m, scope)| + |ListFacts(m, scope)| + |ListPointers(m, scope)|
    + |ListPatterns(m, scope)| + |ListDuratives(m, scope)|
  }

  // ----------------------------------------------------------------------- hard purge

  /** One requested kind: drop the visible records of the scope from their dictionary. */
  function PurgeKind(m: Mem, scope: string, kind: Kind): Mem {
    match kind
    case RawEpisode =>
      m.(episodes := Filter(m.episodes, (e: Episode) => !(e.scope == scope && EpisodeVisible(m, e))))
    case SemanticFact =>
      m.(facts := Filter(m.facts, (f: Fact) => !(f.scope == scope && FactVisible(m, f))))
    case MatrixPointer =>
      m.(pointers := Filter(m.pointers, (p: Pointer) => !(p.scope == scope && PointerVisible(m, p))))
    case ProceduralPattern =>
      m.(patterns := Filter(m.patterns, (p: Pattern) => !(p.scope == scope && PatternVisible(m, p))))
    case DurativeRecord =>
      m.(duratives := Filter(m.duratives, (d: Durative) => !(d.scope == scope && DurativeVisible(m, d))))
    case ExplicitRecord =>
      m.(explicits := Filter(m.explicits, (e: Explicit) => e.scope != scope))
    case TimelineSegment =>
      m.(segments := Filter(m.segments, (s: Segment) => !(s.scope == scope && SegmentVisible(m, s))))
    case ProjectStateSnapshot =>
      m.(snapshots := Filter(m.snapshots, (s: Snapshot) => s.scope != scope))
    case OtherKind(_) => m
  }

  function PurgeKinds(m: Mem, scope: string, kinds: seq<Kind>): Mem {
    if kinds == [] then m
    else PurgeKind(PurgeKinds(m, scope, kinds[..|kinds| - 1]), scope, kinds[|kinds| - 1])
  }

  const EVERY_KIND := [RawEpisode, SemanticFact, MatrixPointer, ProceduralPattern, DurativeRecord,
                       ExplicitRecord, TimelineSegment, ProjectStateSnapshot]

  function Requested(kinds: seq<Kind>): seq<Kind> {
    if kinds == [] then EVERY_KIND else kinds
  }

  /** The pointers that must go because the facts they point at go. */
  function Cascaded(m: Mem, scope: string, kinds: seq<Kind>): set<Id> {
    if SemanticFact in kinds && MatrixPointer !in kinds then
      set p | p in ListPointers(m, scope) && exists f :: f in ListFacts(m, scope) && f.id in p.facts :: p.id
    else {}
  }

  /** hard_purge_scope */
  function HardPurge(m: Mem, scope: string, kinds: seq<Kind>): Mem {
    var requested := Requested(kinds);
    var cascaded := Cascaded(m, scope, requested);
    var m' := PurgeKinds(m, scope, requested);
    m'.(pointers := Filter(m'.pointers, (p: Pointer) => p.id !in cascaded))
  }
}
