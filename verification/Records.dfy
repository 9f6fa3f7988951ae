/** The records of the memory engine and the dictionaries that hold them
    (memory/models.py and the fields of MemoryMatrix). A dictionary keyed by issued
    identifiers is a sequence in insertion order, which is what `dict.values()` yields. */
module Records {
  import opened Prelude

  // ---------------------------------------------------------------------- records

  datatype Status = Active | Superseded

  datatype Fact = Fact(
    id: Id, scope: string, subject: string, pred: string, obj: string, head: string,
    confidence: real, provenance: seq<string>,
    observedAt: Time, validFrom: Option<Time>, validUntil: Option<Time>,
    status: Status, supersedes: Option<Id>)

  /** What one storyline of superseding facts is about. */
  datatype Line = Line(scope: string, subject: string, pred: string)

  datatype Episode = Episode(id: Id, scope: string, createdAt: Time)

  datatype Pointer = Pointer(
    id: Id, scope: string, head: string,
    episodes: seq<string>, facts: seq<Id>, patterns: seq<Id>, createdAt: Time)

  datatype Pattern = Pattern(id: Id, scope: string, summary: string, createdAt: Time)

  datatype Explicit = Explicit(id: Id, scope: string, summary: string, createdAt: Time)

  datatype Durative = Durative(
    durativeId: string, scope: string, subject: string, pred: string,
    events: seq<Id>, validFrom: Option<Time>, validUntil: Option<Time>, createdAt: Time)

  datatype Transition = StateChange | ScopeChange | Continued | Terminal

  datatype MergeReason = Fresh | ResumedPriorState | ResumedAfterContradiction

  datatype Segment = Segment(
    id: Id, scope: string, subject: string, pred: string, state: string,
    startAt: Time, endAt: Time, supporting: seq<Id>,
    previous: Option<Id>, next: Option<Id>,
    transition: Transition, contradicted: seq<Id>, mergeReason: MergeReason, createdAt: Time)

  datatype Snapshot = Snapshot(
    id: Id, scope: string, subject: string, activeStates: seq<string>,
    contradictionCount: nat, segmentIds: seq<Id>, supporting: seq<Id>)

  /** The record kinds that deletion names; kinds outside this model are `OtherKind`. */
  datatype Kind =
    | RawEpisode | SemanticFact | MatrixPointer | ProceduralPattern | DurativeRecord
    | ExplicitRecord | TimelineSegment | ProjectStateSnapshot | OtherKind(name: string)

  /** Issued identifiers are numbers; durative identifiers are derived names. */
  datatype RecordKey = Issued(id: Id) | Named(name: string)

  datatype Tombstone = Tombstone(scope: string, kind: Kind, key: RecordKey)

  /** The memory part of MemoryMatrix. */
  datatype Mem = Mem(
    episodes: seq<Episode>, facts: seq<Fact>, pointers: seq<Pointer>, patterns: seq<Pattern>,
    explicits: seq<Explicit>, duratives: seq<Durative>, tombstones: seq<Tombstone>,
    segments: seq<Segment>, snapshots: seq<Snapshot>, nextId: Id)

  const EMPTY := Mem([], [], [], [], [], [], [], [], [], 0)

  // ------------------------------------------------------- candidates for a durable write

  datatype Lane = SemanticLane | ProceduralLane | EpisodicLane | MatrixLane | ExplicitLane | UnknownLane

  /** The content dictionary, reduced to the keys that the writers read. */
  datatype Content = Content(
    subject: Option<string>, pred: Option<string>, obj: Option<string>, head: Option<string>,
    validFrom: Option<Time>)

  datatype Candidate = Candidate(
    id: Id, scope: string, lane: Lane, summary: string, content: Content, sources: seq<string>,
    importance: real, utility: real,
    privacyRisk: real, poisonRisk: real, contradictionRisk: real)

  function GetOr<T>(o: Option<T>, default: T): T {
    if o.Some? then o.value else default
  }

  function SubjectOf(c: Candidate): string { GetOr(c.content.subject, "unknown") }

  function PredOf(c: Candidate): string { GetOr(c.content.pred, "related_to") }

  function ObjOf(c: Candidate): string { GetOr(c.content.obj, c.summary) }

  function HeadOf(c: Candidate): string { GetOr(c.content.head, "semantic") }

  function CandidateLine(c: Candidate): Line { Line(c.scope, SubjectOf(c), PredOf(c)) }

  /** The sources that name raw episodes: `source.startswith("episode-")`. */
  function EpisodeSources(sources: seq<string>): seq<string> {
    Filter(sources, (s: string) => "episode-" <= s)
  }

  // ------------------------------------------------------------------- visible records

  predicate Hidden(m: Mem, scope: string, kind: Kind, key: RecordKey) {
    Tombstone(scope, kind, key) in m.tombstones
  }

  predicate FactVisible(m: Mem, f: Fact) { !Hidden(m, f.scope, SemanticFact, Issued(f.id)) }

  predicate PointerVisible(m: Mem, p: Pointer) { !Hidden(m, p.scope, MatrixPointer, Issued(p.id)) }

  predicate PatternVisible(m: Mem, p: Pattern) { !Hidden(m, p.scope, ProceduralPattern, Issued(p.id)) }

  predicate EpisodeVisible(m: Mem, e: Episode) { !Hidden(m, e.scope, RawEpisode, Issued(e.id)) }

  predicate SegmentVisible(m: Mem, s: Segment) { !Hidden(m, s.scope, TimelineSegment, Issued(s.id)) }

  predicate DurativeVisible(m: Mem, d: Durative) {
    !Hidden(m, d.scope, DurativeRecord, Named(d.durativeId))
  }

  function VisibleFacts(m: Mem, scope: string): seq<Fact> {
    Filter(m.facts, (f: Fact) => f.scope == scope && FactVisible(m, f))
  }

  function VisiblePointers(m: Mem, scope: string): seq<Pointer> {
    Filter(m.pointers, (p: Pointer) => p.scope == scope && PointerVisible(m, p))
  }

  function VisiblePatterns(m: Mem, scope: string): seq<Pattern> {
    Filter(m.patterns, (p: Pattern) => p.scope == scope && PatternVisible(m, p))
  }

  function VisibleEpisodes(m: Mem, scope: string): seq<Episode> {
    Filter(m.episodes, (e: Episode) => e.scope == scope && EpisodeVisible(m, e))
  }

  function VisibleSegments(m: Mem, scope: string): seq<Segment> {
    Filter(m.segments, (s: Segment) => s.scope == scope && SegmentVisible(m, s))
  }

  function VisibleDuratives(m: Mem, scope: string): seq<Durative> {
    Filter(m.duratives, (d: Durative) => d.scope == scope && DurativeVisible(m, d))
  }

  // ------------------------------------------------------------------------ listings

  function FactId(f: Fact): int { f.id }

  function PointerId(p: Pointer): int { p.id }

  function NewestFactFirst(f: Fact): SortKey { (-f.observedAt, 0) }

  function NewestPointerFirst(p: Pointer): SortKey { (-p.createdAt, 0) }

  function OldestPointerFirst(p: Pointer): SortKey { (p.createdAt, 0) }

  function NewestEpisodeFirst(e: Episode): SortKey { (-e.createdAt, 0) }

  function NewestPatternFirst(p: Pattern): SortKey { (-p.createdAt, 0) }

  function NewestDurativeFirst(d: Durative): SortKey { (-d.createdAt, 0) }

  function SegmentStart(s: Segment): SortKey { (s.startAt, s.createdAt) }

  /** `item.valid_from or item.observed_at` */
  function StartOf(f: Fact): Time { GetOr(f.validFrom, f.observedAt) }

  /** `item.valid_until or item.observed_at` */
  function EndOf(f: Fact): Time { GetOr(f.validUntil, f.observedAt) }

  function ByStart(f: Fact): SortKey { (StartOf(f), 0) }

  function ByStartThenObserved(f: Fact): SortKey { (StartOf(f), f.observedAt) }

  /** list_temporal_semantic_facts(scope_key=scope) */
  function ListFacts(m: Mem, scope: string): seq<Fact> {
    SortBy(VisibleFacts(m, scope), NewestFactFirst)
  }

  /** _list_matrix_pointers(scope_key=scope) */
  function ListPointers(m: Mem, scope: string): seq<Pointer> {
    SortBy(VisiblePointers(m, scope), NewestPointerFirst)
  }

  /** list_memory_timeline_segments(scope_key=scope) */
  function ListSegments(m: Mem, scope: string): seq<Segment> {
    SortBy(VisibleSegments(m, scope), SegmentStart)
  }

  /** list_raw_episodes(scope_key=scope) */
  function ListEpisodes(m: Mem, scope: string): seq<Episode> {
    SortBy(VisibleEpisodes(m, scope), NewestEpisodeFirst)
  }

  /** _list_procedural_patterns(scope_key=scope) */
  function ListPatterns(m: Mem, scope: string): seq<Pattern> {
    SortBy(VisiblePatterns(m, scope), NewestPatternFirst)
  }

  /** list_durative_memories(scope_key=scope) */
  function ListDuratives(m: Mem, scope: string): seq<Durative> {
    SortBy(VisibleDuratives(m, scope), NewestDurativeFirst)
  }

  lemma {:induction false} ListFactsMember(m: Mem, scope: string, f: Fact)
    ensures f in ListFacts(m, scope) <==> f in m.facts && f.scope == scope && FactVisible(m, f)
  {
    SortMember(VisibleFacts(m, scope), NewestFactFirst, f);
  }

  lemma {:induction false} ListPointersMember(m: Mem, scope: string, p: Pointer)
    ensures p in ListPointers(m, scope) <==> p in m.pointers && p.scope == scope && PointerVisible(m, p)
  {
    SortMember(VisiblePointers(m, scope), NewestPointerFirst, p);
  }

  // -------------------------------------------------------------- issued identifiers

  /** Every dictionary lists its identifiers in issue order, below the counter. */
  ghost predicate ValidMem(m: Mem) {
    && Increasing(m.facts, FactId)
    && (forall f :: f in m.facts ==> f.id < m.nextId)
    && Increasing(m.pointers, PointerId)
    && (forall p :: p in m.pointers ==> p.id < m.nextId)
    && (forall p :: p in m.patterns ==> p.id < m.nextId)
    && (forall s :: s in m.segments ==> s.id < m.nextId)
    && (forall e :: e in m.episodes ==> e.id < m.nextId)
    && (forall t :: t in m.tombstones && t.key.Issued? ==> t.key.id < m.nextId)
  }
}
