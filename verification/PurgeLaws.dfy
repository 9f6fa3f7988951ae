/** What a hard purge takes, kind by kind: every visible record of the scope of a requested kind,
    the pointers of purged facts, and nothing else (memory/matrix.py). */
module PurgeLaws {
  import opened Prelude
  import opened Records
  import opened FactStore
  import opened Pointers
  import opened Restoration

  // ------------------------------------------------------------------ what is left of a list

  function Not<T>(p: T -> bool): T -> bool { (x: T) => !p(x) }

  /** What is left of a dictionary when the records that `goes` names are asked for. */
  function Left<T>(s: seq<T>, asked: bool, goes: T -> bool): seq<T> {
    if asked then Filter(s, Not(goes)) else s
  }

  /** Asking once more for the same records takes nothing more. */
  lemma {:induction false} LeftAgain<T>(s: seq<T>, asked: bool, goes: T -> bool, again: T -> bool)
    requires forall x :: x in s ==> again(x) == goes(x)
    ensures Filter(Left(s, asked, goes), Not(again)) == Left(s, true, goes)
  {
    var left := Left(s, asked, goes);
    FilterCongruence(left, Not(again), Not(goes));
    if asked {
      FilterAll(left, Not(goes));
    }
  }

  /** Reading what is left: nothing where all that is shown goes, and what was shown where none of
      it goes. */
  lemma {:induction false} ReadLeft<T>(s: seq<T>, asked: bool, goes: T -> bool, own: bool, shown: T -> bool, later: T -> bool)
    requires forall x :: x in s ==> later(x) == shown(x)
    requires forall x :: x in s && shown(x) ==> goes(x) == own
    ensures Filter(Left(s, asked, goes), later) == if asked && own then [] else Filter(s, shown)
  {
    var left := Left(s, asked, goes);
    FilterCongruence(left, later, shown);
    if asked {
      if own {
        FilterNone(left, shown);
      } else {
        FilterFilter(s, Not(goes), shown, shown);
      }
    }
  }

  // --------------------------------------------------------------------------- the kinds

  function EpisodesOf(m: Mem, scope: string): Episode -> bool { (e: Episode) => e.scope == scope && EpisodeVisible(m, e) }

  function FactsOf(m: Mem, scope: string): Fact -> bool { (f: Fact) => f.scope == scope && FactVisible(m, f) }

  function PointersOf(m: Mem, scope: string): Pointer -> bool { (p: Pointer) => p.scope == scope && PointerVisible(m, p) }

  function PatternsOf(m: Mem, scope: string): Pattern -> bool { (p: Pattern) => p.scope == scope && PatternVisible(m, p) }

  function DurativesOf(m: Mem, scope: string): Durative -> bool { (d: Durative) => d.scope == scope && DurativeVisible(m, d) }

  function SegmentsOf(m: Mem, scope: string): Segment -> bool { (s: Segment) => s.scope == scope && SegmentVisible(m, s) }

  function ExplicitsOf(scope: string): Explicit -> bool { (e: Explicit) => e.scope == scope }

  function SnapshotsOf(scope: string): Snapshot -> bool { (s: Snapshot) => s.scope == scope }

  /** What the requested kinds leave before the cascade. */
  ghost predicate Taken(m: Mem, m': Mem, scope: string, kinds: seq<Kind>) {
    && m'.episodes == Left(m.episodes, RawEpisode in kinds, EpisodesOf(m, scope))
    && m'.facts == Left(m.facts, SemanticFact in kinds, FactsOf(m, scope))
    && m'.pointers == Left(m.pointers, MatrixPointer in kinds, PointersOf(m, scope))
    && TakenDerived(m, m', scope, kinds)
  }

  ghost predicate TakenDerived(m: Mem, m': Mem, scope: string, kinds: seq<Kind>) {
    && m'.patterns == Left(m.patterns, ProceduralPattern in kinds, PatternsOf(m, scope))
    && m'.duratives == Left(m.duratives, DurativeRecord in kinds, DurativesOf(m, scope))
    && m'.explicits == Left(m.explicits, ExplicitRecord in kinds, ExplicitsOf(scope))
    && m'.segments == Left(m.segments, TimelineSegment in kinds, SegmentsOf(m, scope))
    && m'.snapshots == Left(m.snapshots, ProjectStateSnapshot in kinds, SnapshotsOf(scope))
    && m'.tombstones == m.tombstones && m'.nextId == m.nextId
  }

  lemma {:induction false} TombstonesKept(m: Mem, scope: string, kinds: seq<Kind>)
    ensures PurgeKinds(m, scope, kinds).tombstones == m.tombstones && PurgeKinds(m, scope, kinds).nextId == m.nextId
  {
    if kinds != [] {
      TombstonesKept(m, scope, kinds[..|kinds| - 1]);
    }
  }

  lemma {:induction false} AskedLast(kinds: seq<Kind>, k: Kind)
    requires kinds != []
    ensures k in kinds <==> k in kinds[..|kinds| - 1] || k == kinds[|kinds| - 1]
  {
    assert kinds == kinds[..|kinds| - 1] + [kinds[|kinds| - 1]];
  }

  lemma {:induction false} EpisodesOneMore(m: Mem, before: Mem, scope: string, kind: Kind, asked: bool)
    requires before.episodes == Left(m.episodes, asked, EpisodesOf(m, scope)) && before.tombstones == m.tombstones
    ensures PurgeKind(before, scope, kind).episodes == Left(m.episodes, asked || kind == RawEpisode, EpisodesOf(m, scope))
  {
    if kind == RawEpisode {
      FilterCongruence(before.episodes, Not(EpisodesOf(before, scope)), (e: Episode) => !(e.scope == scope && EpisodeVisible(before, e)));
      LeftAgain(m.episodes, asked, EpisodesOf(m, scope), EpisodesOf(before, scope));
    }
  }

  lemma {:induction false} EpisodesTaken(m: Mem, scope: string, kinds: seq<Kind>)
    ensures PurgeKinds(m, scope, kinds).episodes == Left(m.episodes, RawEpisode in kinds, EpisodesOf(m, scope))
  {
    hide PurgeKind;
    if kinds == [] {
    } else {
      hide Left;
      var front, kind := kinds[..|kinds| - 1], kinds[|kinds| - 1];
      TombstonesKept(m, scope, front);
      EpisodesTaken(m, scope, front);
      EpisodesOneMore(m, PurgeKinds(m, scope, front), scope, kind, RawEpisode in front);
      AskedLast(kinds, RawEpisode);
    }
  }

  lemma {:induction false} FactsOneMore(m: Mem, before: Mem, scope: string, kind: Kind, asked: bool)
    requires before.facts == Left(m.facts, asked, FactsOf(m, scope)) && before.tombstones == m.tombstones
    ensures PurgeKind(before, scope, kind).facts == Left(m.facts, asked || kind == SemanticFact, FactsOf(m, scope))
  {
    if kind == SemanticFact {
      FilterCongruence(before.facts, Not(FactsOf(before, scope)), (f: Fact) => !(f.scope == scope && FactVisible(before, f)));
      LeftAgain(m.facts, asked, FactsOf(m, scope), FactsOf(before, scope));
    }
  }

  lemma {:induction false} FactsTaken(m: Mem, scope: string, kinds: seq<Kind>)
    ensures PurgeKinds(m, scope, kinds).facts == Left(m.facts, SemanticFact in kinds, FactsOf(m, scope))
  {
    hide PurgeKind;
    if kinds == [] {
    } else {
      hide Left;
      var front, kind := kinds[..|kinds| - 1], kinds[|kinds| - 1];
      TombstonesKept(m, scope, front);
      FactsTaken(m, scope, front);
      FactsOneMore(m, PurgeKinds(m, scope, front), scope, kind, SemanticFact in front);
      AskedLast(kinds, SemanticFact);
    }
  }

  lemma {:induction false} PointersOneMore(m: Mem, before: Mem, scope: string, kind: Kind, asked: bool)
    requires before.pointers == Left(m.pointers, asked, PointersOf(m, scope)) && before.tombstones == m.tombstones
    ensures PurgeKind(before, scope, kind).pointers == Left(m.pointers, asked || kind == MatrixPointer, PointersOf(m, scope))
  {
    if kind == MatrixPointer {
      FilterCongruence(before.pointers, Not(PointersOf(before, scope)), (p: Pointer) => !(p.scope == scope && PointerVisible(before, p)));
      LeftAgain(m.pointers, asked, PointersOf(m, scope), PointersOf(before, scope));
    }
  }

  lemma {:induction false} PointersTaken(m: Mem, scope: string, kinds: seq<Kind>)
    ensures PurgeKinds(m, scope, kinds).pointers == Left(m.pointers, MatrixPointer in kinds, PointersOf(m, scope))
  {
    hide PurgeKind;
    if kinds == [] {
    } else {
      hide Left;
      var front, kind := kinds[..|kinds| - 1], kinds[|kinds| - 1];
      TombstonesKept(m, scope, front);
      PointersTaken(m, scope, front);
      PointersOneMore(m, PurgeKinds(m, scope, front), scope, kind, MatrixPointer in front);
      AskedLast(kinds, MatrixPointer);
    }
  }

  lemma {:induction false} PatternsOneMore(m: Mem, before: Mem, scope: string, kind: Kind, asked: bool)
    requires before.patterns == Left(m.patterns, asked, PatternsOf(m, scope)) && before.tombstones == m.tombstones
    ensures PurgeKind(before, scope, kind).patterns == Left(m.patterns, asked || kind == ProceduralPattern, PatternsOf(m, scope))
  {
    if kind == ProceduralPattern {
      FilterCongruence(before.patterns, Not(PatternsOf(before, scope)), (p: Pattern) => !(p.scope == scope && PatternVisible(before, p)));
      LeftAgain(m.patterns, asked, PatternsOf(m, scope), PatternsOf(before, scope));
    }
  }

  lemma {:induction false} PatternsTaken(m: Mem, scope: string, kinds: seq<Kind>)
    ensures PurgeKinds(m, scope, kinds).patterns == Left(m.patterns, ProceduralPattern in kinds, PatternsOf(m, scope))
  {
    hide PurgeKind;
    if kinds == [] {
    } else {
      hide Left;
      var front, kind := kinds[..|kinds| - 1], kinds[|kinds| - 1];
      TombstonesKept(m, scope, front);
      PatternsTaken(m, scope, front);
      PatternsOneMore(m, PurgeKinds(m, scope, front), scope, kind, ProceduralPattern in front);
      AskedLast(kinds, ProceduralPattern);
    }
  }

  lemma {:induction false} DurativesOneMore(m: Mem, before: Mem, scope: string, kind: Kind, asked: bool)
    requires before.duratives == Left(m.duratives, asked, DurativesOf(m, scope)) && before.tombstones == m.tombstones
    ensures PurgeKind(before, scope, kind).duratives == Left(m.duratives, asked || kind == DurativeRecord, DurativesOf(m, scope))
  {
    if kind == DurativeRecord {
      FilterCongruence(before.duratives, Not(DurativesOf(before, scope)), (d: Durative) => !(d.scope == scope && DurativeVisible(before, d)));
      LeftAgain(m.duratives, asked, DurativesOf(m, scope), DurativesOf(before, scope));
    }
  }

  lemma {:induction false} DurativesTaken(m: Mem, scope: string, kinds: seq<Kind>)
    ensures PurgeKinds(m, scope, kinds).duratives == Left(m.duratives, DurativeRecord in kinds, DurativesOf(m, scope))
  {
    hide PurgeKind;
    if kinds == [] {
    } else {
      hide Left;
      var front, kind := kinds[..|kinds| - 1], kinds[|kinds| - 1];
      TombstonesKept(m, scope, front);
      DurativesTaken(m, scope, front);
      DurativesOneMore(m, PurgeKinds(m, scope, front), scope, kind, DurativeRecord in front);
      AskedLast(kinds, DurativeRecord);
    }
  }

  lemma {:induction false} ExplicitsOneMore(m: Mem, before: Mem, scope: string, kind: Kind, asked: bool)
    requires before.explicits == Left(m.explicits, asked, ExplicitsOf(scope)) && before.tombstones == m.tombstones
    ensures PurgeKind(before, scope, kind).explicits == Left(m.explicits, asked || kind == ExplicitRecord, ExplicitsOf(scope))
  {
    if kind == ExplicitRecord {
      FilterCongruence(before.explicits, Not(ExplicitsOf(scope)), (e: Explicit) => e.scope != scope);
      LeftAgain(m.explicits, asked, ExplicitsOf(scope), ExplicitsOf(scope));
    }
  }

  lemma {:induction false} ExplicitsTaken(m: Mem, scope: string, kinds: seq<Kind>)
    ensures PurgeKinds(m, scope, kinds).explicits == Left(m.explicits, ExplicitRecord in kinds, ExplicitsOf(scope))
  {
    hide PurgeKind;
    if kinds == [] {
    } else {
      hide Left;
      var front, kind := kinds[..|kinds| - 1], kinds[|kinds| - 1];
      TombstonesKept(m, scope, front);
      ExplicitsTaken(m, scope, front);
      ExplicitsOneMore(m, PurgeKinds(m, scope, front), scope, kind, ExplicitRecord in front);
      AskedLast(kinds, ExplicitRecord);
    }
  }

  lemma {:induction false} SegmentsOneMore(m: Mem, before: Mem, scope: string, kind: Kind, asked: bool)
    requires before.segments == Left(m.segments, asked, SegmentsOf(m, scope)) && before.tombstones == m.tombstones
    ensures PurgeKind(before, scope, kind).segments == Left(m.segments, asked || kind == TimelineSegment, SegmentsOf(m, scope))
  {
    if kind == TimelineSegment {
      FilterCongruence(before.segments, Not(SegmentsOf(before, scope)), (s: Segment) => !(s.scope == scope && SegmentVisible(before, s)));
      LeftAgain(m.segments, asked, SegmentsOf(m, scope), SegmentsOf(before, scope));
    }
  }

  lemma {:induction false} SegmentsTaken(m: Mem, scope: string, kinds: seq<Kind>)
    ensures PurgeKinds(m, scope, kinds).segments == Left(m.segments, TimelineSegment in kinds, SegmentsOf(m, scope))
  {
    hide PurgeKind;
    if kinds == [] {
    } else {
      hide Left;
      var front, kind := kinds[..|kinds| - 1], kinds[|kinds| - 1];
      TombstonesKept(m, scope, front);
      SegmentsTaken(m, scope, front);
      SegmentsOneMore(m, PurgeKinds(m, scope, front), scope, kind, TimelineSegment in front);
      AskedLast(kinds, TimelineSegment);
    }
  }

  lemma {:induction false} SnapshotsOneMore(m: Mem, before: Mem, scope: string, kind: Kind, asked: bool)
    requires before.snapshots == Left(m.snapshots, asked, SnapshotsOf(scope)) && before.tombstones == m.tombstones
    ensures PurgeKind(before, scope, kind).snapshots == Left(m.snapshots, asked || kind == ProjectStateSnapshot, SnapshotsOf(scope))
  {
    if kind == ProjectStateSnapshot {
      FilterCongruence(before.snapshots, Not(SnapshotsOf(scope)), (s: Snapshot) => s.scope != scope);
      LeftAgain(m.snapshots, asked, SnapshotsOf(scope), SnapshotsOf(scope));
    }
  }

  lemma {:induction false} SnapshotsTaken(m: Mem, scope: string, kinds: seq<Kind>)
    ensures PurgeKinds(m, scope, kinds).snapshots == Left(m.snapshots, ProjectStateSnapshot in kinds, SnapshotsOf(scope))
  {
    hide PurgeKind;
    if kinds == [] {
    } else {
      hide Left;
      var front, kind := kinds[..|kinds| - 1], kinds[|kinds| - 1];
      TombstonesKept(m, scope, front);
      SnapshotsTaken(m, scope, front);
      SnapshotsOneMore(m, PurgeKinds(m, scope, front), scope, kind, ProjectStateSnapshot in front);
      AskedLast(kinds, ProjectStateSnapshot);
    }
  }

  lemma {:induction false} PurgeTakes(m: Mem, scope: string, kinds: seq<Kind>)
    ensures Taken(m, PurgeKinds(m, scope, kinds), scope, kinds)
  {
    hide PurgeKinds, Left;
    TombstonesKept(m, scope, kinds);
    EpisodesTaken(m, scope, kinds);
    FactsTaken(m, scope, kinds);
    PointersTaken(m, scope, kinds);
    PatternsTaken(m, scope, kinds);
    DurativesTaken(m, scope, kinds);
    ExplicitsTaken(m, scope, kinds);
    SegmentsTaken(m, scope, kinds);
    SnapshotsTaken(m, scope, kinds);
  }

  // ---------------------------------------------------------------------- the hard purge

  /** The pointer targets a fact of the scope that a reader sees. */
  ghost predicate PointsAt(m: Mem, scope: string, p: Pointer) {
    exists f :: f in m.facts && f.scope == scope && FactVisible(m, f) && f.id in p.facts
  }

  /** The pointers that go: those of the scope, when pointers are asked for, and those at its facts,
      when only facts are. */
  ghost function PointersGoing(m: Mem, scope: string, asked: seq<Kind>): Pointer -> bool {
    (p: Pointer) => p.scope == scope && PointerVisible(m, p)
      && (MatrixPointer in asked || (SemanticFact in asked && PointsAt(m, scope, p)))
  }

  lemma {:induction false} CascadedIff(m: Mem, scope: string, asked: seq<Kind>, p: Pointer)
    requires ValidMem(m) && p in m.pointers
    ensures p.id in Cascaded(m, scope, asked)
       <==> SemanticFact in asked && MatrixPointer !in asked && p.scope == scope && PointerVisible(m, p) && PointsAt(m, scope, p)
  {
    if p.id in Cascaded(m, scope, asked) {
      CascadedVisible(m, scope, asked, p);
      var q :| q in ListPointers(m, scope) && q.id == p.id && exists f :: f in ListFacts(m, scope) && f.id in q.facts;
      ListPointersMember(m, scope, q);
      IncreasingInjective(m.pointers, PointerId, p, q);
      var f :| f in ListFacts(m, scope) && f.id in q.facts;
      ListFactsMember(m, scope, f);
    }
    if p.scope == scope && PointerVisible(m, p) && PointsAt(m, scope, p) {
      var f :| f in m.facts && f.scope == scope && FactVisible(m, f) && f.id in p.facts;
      ListFactsMember(m, scope, f);
      ListPointersMember(m, scope, p);
    }
  }

  /** What a hard purge of any kinds does to every dictionary: the visible records of the scope of
      the requested kinds go, with the pointers at its facts when facts go; everything else, hidden
      records and other scopes included, stays in its order. */
  lemma {:induction false} HardPurgeTakes(m: Mem, scope: string, kinds: seq<Kind>)
    requires ValidMem(m)
    ensures var m', asked := HardPurge(m, scope, kinds), Requested(kinds);
      && m'.episodes == Left(m.episodes, RawEpisode in asked, EpisodesOf(m, scope))
      && m'.facts == Left(m.facts, SemanticFact in asked, FactsOf(m, scope))
      && m'.pointers == Left(m.pointers, true, PointersGoing(m, scope, asked))
      && TakenDerived(m, m', scope, asked)
  {
    hide PurgeKinds, Left, Cascaded, Requested, PointsAt;
    var asked := Requested(kinds);
    var m1, cascaded := PurgeKinds(m, scope, asked), Cascaded(m, scope, asked);
    PurgeTakes(m, scope, asked);
    forall p | p in m.pointers
      ensures p.id in cascaded <==> SemanticFact in asked && MatrixPointer !in asked && PointersGoing(m, scope, asked)(p)
    {
      CascadedIff(m, scope, asked, p);
    }
    PointersAfterCascade(m.pointers, MatrixPointer in asked, PointersOf(m, scope), PointersGoing(m, scope, asked),
                         (p: Pointer) => p.id !in cascaded);
  }

  lemma {:induction false} PointersAfterCascade(s: seq<Pointer>, asked: bool, goes: Pointer -> bool, going: Pointer -> bool,
                                                stays: Pointer -> bool)
    requires asked ==> forall p :: p in s ==> going(p) == goes(p) && stays(p)
    requires !asked ==> forall p :: p in s ==> stays(p) == !going(p)
    ensures Filter(Left(s, asked, goes), stays) == Left(s, true, going)
  {
    if asked {
      FilterAll(Left(s, asked, goes), stays);
      FilterCongruence(s, Not(goes), Not(going));
    } else {
      FilterCongruence(s, stays, Not(going));
    }
  }

  // ------------------------------------------------------------------- what readers then see

  function VisibleExplicits(m: Mem, scope: string): seq<Explicit> { Filter(m.explicits, ExplicitsOf(scope)) }

  function VisibleSnapshots(m: Mem, scope: string): seq<Snapshot> { Filter(m.snapshots, SnapshotsOf(scope)) }

  /** What a reader of a scope sees after a purge of one scope, of all kinds but pointers. */
  ghost predicate Reads(m: Mem, m': Mem, scope: string, other: string, asked: seq<Kind>) {
    var own := other == scope;
    && VisibleEpisodes(m', other) == (if own && RawEpisode in asked then [] else VisibleEpisodes(m, other))
    && VisibleFacts(m', other) == (if own && SemanticFact in asked then [] else VisibleFacts(m, other))
    && VisiblePatterns(m', other) == (if own && ProceduralPattern in asked then [] else VisiblePatterns(m, other))
    && VisibleDuratives(m', other) == (if own && DurativeRecord in asked then [] else VisibleDuratives(m, other))
    && VisibleExplicits(m', other) == (if own && ExplicitRecord in asked then [] else VisibleExplicits(m, other))
    && VisibleSegments(m', other) == (if own && TimelineSegment in asked then [] else VisibleSegments(m, other))
    && VisibleSnapshots(m', other) == (if own && ProjectStateSnapshot in asked then [] else VisibleSnapshots(m, other))
  }

  lemma {:induction false} EpisodesRead(m: Mem, m': Mem, scope: string, other: string, asked: bool)
    requires m'.episodes == Left(m.episodes, asked, EpisodesOf(m, scope)) && m'.tombstones == m.tombstones
    ensures VisibleEpisodes(m', other) == if other == scope && asked then [] else VisibleEpisodes(m, other)
  {
    ReadLeft(m.episodes, asked, EpisodesOf(m, scope), other == scope,
             (e: Episode) => e.scope == other && EpisodeVisible(m, e), (e: Episode) => e.scope == other && EpisodeVisible(m', e));
  }

  lemma {:induction false} FactsRead(m: Mem, m': Mem, scope: string, other: string, asked: bool)
    requires m'.facts == Left(m.facts, asked, FactsOf(m, scope)) && m'.tombstones == m.tombstones
    ensures VisibleFacts(m', other) == if other == scope && asked then [] else VisibleFacts(m, other)
  {
    ReadLeft(m.facts, asked, FactsOf(m, scope), other == scope,
             (f: Fact) => f.scope == other && FactVisible(m, f), (f: Fact) => f.scope == other && FactVisible(m', f));
  }

  lemma {:induction false} PatternsRead(m: Mem, m': Mem, scope: string, other: string, asked: bool)
    requires m'.patterns == Left(m.patterns, asked, PatternsOf(m, scope)) && m'.tombstones == m.tombstones
    ensures VisiblePatterns(m', other) == if other == scope && asked then [] else VisiblePatterns(m, other)
  {
    ReadLeft(m.patterns, asked, PatternsOf(m, scope), other == scope,
             (p: Pattern) => p.scope == other && PatternVisible(m, p), (p: Pattern) => p.scope == other && PatternVisible(m', p));
  }

  lemma {:induction false} DurativesRead(m: Mem, m': Mem, scope: string, other: string, asked: bool)
    requires m'.duratives == Left(m.duratives, asked, DurativesOf(m, scope)) && m'.tombstones == m.tombstones
    ensures VisibleDuratives(m', other) == if other == scope && asked then [] else VisibleDuratives(m, other)
  {
    ReadLeft(m.duratives, asked, DurativesOf(m, scope), other == scope,
             (d: Durative) => d.scope == other && DurativeVisible(m, d), (d: Durative) => d.scope == other && DurativeVisible(m', d));
  }

  lemma {:induction false} SegmentsRead(m: Mem, m': Mem, scope: string, other: string, asked: bool)
    requires m'.segments == Left(m.segments, asked, SegmentsOf(m, scope)) && m'.tombstones == m.tombstones
    ensures VisibleSegments(m', other) == if other == scope && asked then [] else VisibleSegments(m, other)
  {
    ReadLeft(m.segments, asked, SegmentsOf(m, scope), other == scope,
             (s: Segment) => s.scope == other && SegmentVisible(m, s), (s: Segment) => s.scope == other && SegmentVisible(m', s));
  }

  lemma {:induction false} ExplicitsRead(m: Mem, m': Mem, scope: string, other: string, asked: bool)
    requires m'.explicits == Left(m.explicits, asked, ExplicitsOf(scope))
    ensures VisibleExplicits(m', other) == if other == scope && asked then [] else VisibleExplicits(m, other)
  {
    ReadLeft(m.explicits, asked, ExplicitsOf(scope), other == scope, ExplicitsOf(other), ExplicitsOf(other));
  }

  lemma {:induction false} SnapshotsRead(m: Mem, m': Mem, scope: string, other: string, asked: bool)
    requires m'.snapshots == Left(m.snapshots, asked, SnapshotsOf(scope))
    ensures VisibleSnapshots(m', other) == if other == scope && asked then [] else VisibleSnapshots(m, other)
  {
    ReadLeft(m.snapshots, asked, SnapshotsOf(scope), other == scope, SnapshotsOf(other), SnapshotsOf(other));
  }

  /** Every reader after a hard purge: of the purged scope, nothing of the requested kinds; of all
      other kinds and scopes, what was seen before. */
  lemma {:induction false} HardPurgeReads(m: Mem, scope: string, kinds: seq<Kind>, other: string)
    requires ValidMem(m)
    ensures Reads(m, HardPurge(m, scope, kinds), scope, other, Requested(kinds))
  {
    hide HardPurge, Requested, Left, Filter;
    var m', asked := HardPurge(m, scope, kinds), Requested(kinds);
    HardPurgeTakes(m, scope, kinds);
    EpisodesRead(m, m', scope, other, RawEpisode in asked);
    FactsRead(m, m', scope, other, SemanticFact in asked);
    PatternsRead(m, m', scope, other, ProceduralPattern in asked);
    DurativesRead(m, m', scope, other, DurativeRecord in asked);
    ExplicitsRead(m, m', scope, other, ExplicitRecord in asked);
    SegmentsRead(m, m', scope, other, TimelineSegment in asked);
    SnapshotsRead(m, m', scope, other, ProjectStateSnapshot in asked);
  }

  /** Every reader of the pointers after a hard purge: those of the purged scope that did not go, and
      those of another scope as before. */
  lemma {:induction false} PointersRead(m: Mem, scope: string, kinds: seq<Kind>, other: string)
    requires ValidMem(m)
    ensures VisiblePointers(HardPurge(m, scope, kinds), other)
         == if other == scope then Filter(VisiblePointers(m, scope), Not(PointersGoing(m, scope, Requested(kinds))))
            else VisiblePointers(m, other)
  {
    hide HardPurge, Requested, PointsAt;
    var m', going := HardPurge(m, scope, kinds), PointersGoing(m, scope, Requested(kinds));
    HardPurgeTakes(m, scope, kinds);
    var shown, later := PointersOf(m, other), PointersOf(m', other);
    var stays := (p: Pointer) => shown(p) && !going(p);
    FilterFilter(m.pointers, Not(going), later, stays);
    FilterCongruence(m.pointers, shown, (p: Pointer) => p.scope == other && PointerVisible(m, p));
    FilterCongruence(m'.pointers, later, (p: Pointer) => p.scope == other && PointerVisible(m', p));
    if other == scope {
      FilterFilter(m.pointers, shown, Not(going), stays);
    } else {
      FilterCongruence(m.pointers, stays, shown);
    }
  }

  /** A purge without named kinds leaves nothing of the scope to be seen, of any kind. */
  lemma {:induction false} PurgeOfEverything(m: Mem, scope: string)
    requires ValidMem(m)
    ensures var m' := HardPurge(m, scope, []);
      && VisibleEpisodes(m', scope) == [] && VisibleFacts(m', scope) == [] && VisiblePointers(m', scope) == []
      && VisiblePatterns(m', scope) == [] && VisibleDuratives(m', scope) == [] && VisibleExplicits(m', scope) == []
      && VisibleSegments(m', scope) == [] && VisibleSnapshots(m', scope) == []
  {
    hide HardPurge, PointsAt;
    HardPurgeReads(m, scope, [], scope);
    PointersRead(m, scope, [], scope);
    FilterNone(VisiblePointers(m, scope), Not(PointersGoing(m, scope, EVERY_KIND)));
  }
}
