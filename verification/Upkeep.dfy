/** Background upkeep of the memory: sleep-time consolidation, index rebuilds and the operations
    loop, which is interrupted after consolidation or runs on to a selective rebuild
    (memory/matrix.py). */
module Upkeep {
  import opened Prelude
  import opened Records
  import opened FactStore
  import opened Timeline
  import opened Pointers
  import opened Integrity
  import opened Restoration
  import opened Deduplication

  // ---------------------------------------------------------------------- operations

  /** The storylines of a listing, in order of first appearance. */
  function Lines(facts: seq<Fact>): seq<Line> {
    if facts == [] then []
    else
      var front := Lines(facts[..|facts| - 1]);
      var line := LineOf(facts[|facts| - 1]);
      if line in front then front else front + [line]
  }

  function RecordDuratives(m: Mem, facts: seq<Fact>, lines: seq<Line>, now: Time): Mem {
    if lines == [] then m
    else
      var line := lines[|lines| - 1];
      RecordDurative(RecordDuratives(m, facts, lines[..|lines| - 1], now), line, OnLine(facts, line), now)
  }

  function Distinctly(s: seq<string>): seq<string> {
    if s == [] then []
    else
      var front := Distinctly(s[..|s| - 1]);
      if s[|s| - 1] in front then front else front + [s[|s| - 1]]
  }

  /** `sorted({fact.subject for fact in facts})` */
  function Subjects(facts: seq<Fact>): seq<string> {
    SortStrings(Distinctly(Map(facts, (f: Fact) => f.subject)))
  }

  function ProjectStates(m: Mem, scope: string, subjects: seq<string>, now: Time): Mem {
    if subjects == [] then m
    else ProjectState(ProjectStates(m, scope, subjects[..|subjects| - 1], now), scope, subjects[|subjects| - 1], now)
  }

  /** run_sleep_consolidation */
  function Sleep(m: Mem, scope: string, now: Time): Mem {
    var facts := ListFacts(m, scope);
    var m1 := Deduplicate(RecordDuratives(m, facts, Lines(facts), now), scope);
    ProjectStates(m1, scope, Subjects(facts), now)
  }

  /** _rebuild_project_state_snapshots */
  function RebuildSnapshots(m: Mem, scope: string, now: Time): Mem {
    ProjectStates(m, scope, Subjects(ListFacts(m, scope)), now)
  }

  /** The memory effect of materializing index files: snapshots are made if there are none. */
  function Materialize(m: Mem, scope: string, now: Time): Mem {
    if exists i :: 0 <= i < |m.snapshots| && m.snapshots[i].scope == scope then m
    else RebuildSnapshots(m, scope, now)
  }

  /** rebuild_indexes */
  function RebuildIndexes(m: Mem, scope: string, now: Time): Mem {
    Materialize(Rebuild(m, scope, now), scope, now)
  }

  /** The target kinds of a selective rebuild that touch the memory. */
  datatype Targets = Targets(pointers: bool, snapshots: bool, artifacts: bool)

  /** selective_rebuild_scope */
  function SelectiveRebuild(m: Mem, scope: string, targets: Targets, now: Time): Mem {
    var m1 := if targets.pointers then Rebuild(m, scope, now) else m;
    var m2 := if targets.snapshots then RebuildSnapshots(m1, scope, now) else m1;
    if targets.artifacts then Materialize(m2, scope, now) else m2
  }

  /** run_memory_operations_loop; resuming an interrupted loop runs the part that was missed. */
  function OperationsLoop(m: Mem, scope: string, interrupted: bool, now: Time): Mem {
    var slept := Sleep(m, scope, now);
    if interrupted then slept else ResumeLoop(slept, scope, now)
  }

  /** resume_memory_operations_loop */
  function ResumeLoop(m: Mem, scope: string, now: Time): Mem {
    SelectiveRebuild(m, scope, Targets(true, true, true), now)
  }

  // ---------------------------------------------------------- what derived records leave alone

  /** Only durative records, timeline segments and snapshots differ. */
  ghost predicate Derived(m: Mem, m': Mem) {
    && m' == m.(duratives := m'.duratives, segments := m'.segments, snapshots := m'.snapshots, nextId := m'.nextId)
    && m.nextId <= m'.nextId
    && ((forall s :: s in m.segments ==> s.id < m.nextId) ==> forall s :: s in m'.segments ==> s.id < m'.nextId)
  }

  lemma {:induction false} DerivedTwice(m: Mem, m1: Mem, m2: Mem)
    requires Derived(m, m1) && Derived(m1, m2)
    ensures Derived(m, m2)
  {
  }

  lemma {:induction false} ReconstructDerived(m: Mem, scope: string, subject: Option<string>, pred: Option<string>, now: Time)
    ensures Derived(m, Reconstruct(m, scope, subject, pred, now))
    ensures Reconstruct(m, scope, subject, pred, now).duratives == m.duratives
  {
    var built := FreshSegments(m, scope, subject, pred, now);
    forall i | 0 <= i < |built|
      ensures built[i].id == m.nextId + i
    {
      var groups := Groups(ByState, TimelineFacts(m, scope, subject, pred));
      assert built[i] == SegmentAt(ByState, groups, i, scope, m.nextId, now);
    }
  }

  lemma {:induction false} ProjectStateDerived(m: Mem, scope: string, subject: string, now: Time)
    ensures Derived(m, ProjectState(m, scope, subject, now))
    ensures ProjectState(m, scope, subject, now).duratives == m.duratives
  {
    ReconstructDerived(m, scope, Some(subject), None, now);
  }

  lemma {:induction false} ProjectStatesDerived(m: Mem, scope: string, subjects: seq<string>, now: Time)
    ensures Derived(m, ProjectStates(m, scope, subjects, now))
    ensures ProjectStates(m, scope, subjects, now).duratives == m.duratives
  {
    if subjects != [] {
      var front := subjects[..|subjects| - 1];
      ProjectStatesDerived(m, scope, front, now);
      ProjectStateDerived(ProjectStates(m, scope, front, now), scope, subjects[|subjects| - 1], now);
      DerivedTwice(m, ProjectStates(m, scope, front, now), ProjectStates(m, scope, subjects, now));
    }
  }

  lemma {:induction false} PutDurativeMember(s: seq<Durative>, d: Durative)
    ensures forall x :: x in PutDurative(s, d) ==> x in s || x == d
  {
    forall x | x in PutDurative(s, d)
      ensures x in s || x == d
    {
      var i :| 0 <= i < |PutDurative(s, d)| && PutDurative(s, d)[i] == x;
    }
  }

  lemma {:induction false} RecordDurativesDerived(m: Mem, facts: seq<Fact>, lines: seq<Line>, scope: string, now: Time)
    requires forall line :: line in lines ==> line.scope == scope
    ensures var m' := RecordDuratives(m, facts, lines, now);
      && Derived(m, m')
      && (forall d :: d in m'.duratives && d !in m.duratives ==> d.scope == scope)
  {
    if lines != [] {
      var line, front := lines[|lines| - 1], lines[..|lines| - 1];
      RecordDurativesDerived(m, facts, front, scope, now);
      assert line in lines;
      var related := OnLine(facts, line);
      if |related| >= 2 {
        PutDurativeMember(RecordDuratives(m, facts, front, now).duratives, DurativeOf(line, related, now));
      }
    }
  }

  lemma {:induction false} LinesOfScope(facts: seq<Fact>, scope: string)
    requires forall f :: f in facts ==> f.scope == scope
    ensures forall line :: line in Lines(facts) ==> line.scope == scope
  {
    if facts != [] {
      LinesOfScope(facts[..|facts| - 1], scope);
      assert facts[|facts| - 1] in facts;
    }
  }

  lemma {:induction false} NoFactsNoListing(m: Mem, scope: string)
    requires NoFacts(m, scope)
    ensures ListFacts(m, scope) == []
  {
    FilterNone(m.facts, (f: Fact) => f.scope == scope && FactVisible(m, f));
  }

  lemma {:induction false} MaterializeDerived(m: Mem, scope: string, now: Time)
    ensures Derived(m, Materialize(m, scope, now))
    ensures Materialize(m, scope, now).duratives == m.duratives
  {
    ProjectStatesDerived(m, scope, Subjects(ListFacts(m, scope)), now);
  }

  lemma {:induction false} DerivedValid(m: Mem, m': Mem)
    requires Derived(m, m') && ValidMem(m)
    ensures ValidMem(m')
  {
  }

  // ---------------------------------------------------- the shape shared by all upkeep steps

  ghost predicate KeepsComplete(m: Mem, m': Mem) {
    forall scope :: Complete(m, scope) ==> Complete(m', scope)
  }

  /** What upkeep of one scope may do: derive records of the scope, add grounded pointers to it,
      bury pointers of it, and nothing of this where the scope has no visible fact. The facts
      stay, and the index stays as grounded and as complete as it was. */
  ghost predicate Maintains(m: Mem, m': Mem, scope: string) {
    && ValidMem(m') && Grounded(m') && KeepsComplete(m, m')
    && m'.facts == m.facts && m'.episodes == m.episodes && m'.patterns == m.patterns
    && m'.explicits == m.explicits && m.nextId <= m'.nextId
    && (forall t :: t in m.tombstones ==> t in m'.tombstones)
    && (forall t :: t in m'.tombstones && t !in m.tombstones ==> t.kind == MatrixPointer && t.scope == scope)
    && (forall p :: p in m'.pointers && p !in m.pointers ==> p.scope == scope)
    && (forall d :: d in m'.duratives && d !in m.duratives ==> d.scope == scope)
    && (NoFacts(m, scope) ==> m'.pointers == m.pointers && m'.duratives == m.duratives)
    && (UniqueTombstones(m) ==> UniqueTombstones(m'))
  }

  lemma {:induction false} MaintainsTwice(m: Mem, m1: Mem, m2: Mem, scope: string)
    requires Maintains(m, m1, scope) && Maintains(m1, m2, scope)
    ensures Maintains(m, m2, scope)
  {
  }

  lemma {:induction false} DerivedMaintains(m: Mem, m': Mem, scope: string)
    requires ValidMem(m) && Grounded(m) && Derived(m, m')
    requires forall d :: d in m'.duratives && d !in m.duratives ==> d.scope == scope
    requires NoFacts(m, scope) ==> m'.duratives == m.duratives
    ensures Maintains(m, m', scope)
  {
    DerivedValid(m, m');
    SameIndexKeeps(m, m', scope);
    forall other | Complete(m, other)
      ensures Complete(m', other)
    {
      SameIndexKeeps(m, m', other);
    }
  }

  lemma {:induction false} DeduplicateMaintains(m: Mem, scope: string)
    requires ValidMem(m) && Grounded(m)
    ensures Maintains(m, Deduplicate(m, scope), scope)
  {
    var m' := Deduplicate(m, scope);
    DeduplicateFrame(m, scope);
    if UniqueTombstones(m) {
      BuryAllUnique(m, scope, MatrixPointer, PointerKeys(Duplicates(OldestFirst(m, scope))));
    }
    forall t | t in m'.tombstones && t !in m.tombstones
      ensures t.kind == MatrixPointer && t.scope == scope
    {
      assert t.kind != MatrixPointer ==> t in m.tombstones;
    }
    DeduplicateKeeps(m, scope, scope);
    forall other | Complete(m, other)
      ensures Complete(m', other)
    {
      DeduplicateKeeps(m, scope, other);
    }
  }

  lemma {:induction false} ListedFacts(m: Mem, scope: string)
    ensures forall f :: f in ListFacts(m, scope) ==> f in m.facts && FactVisible(m, f) && f.scope == scope
  {
    forall f | f in ListFacts(m, scope)
      ensures f in m.facts && FactVisible(m, f) && f.scope == scope
    {
      ListFactsMember(m, scope, f);
    }
  }

  lemma {:induction false} RebuildCompleteEverywhere(m: Mem, scope: string, now: Time)
    requires ValidMem(m) && Grounded(m)
    ensures KeepsComplete(m, Rebuild(m, scope, now))
  {
    forall other | Complete(m, other)
      ensures Complete(Rebuild(m, scope, now), other)
    {
      RebuildKeepsOthers(m, scope, now, other);
    }
  }

  lemma {:induction false} RebuildMaintains(m: Mem, scope: string, now: Time)
    requires ValidMem(m) && Grounded(m)
    ensures Maintains(m, Rebuild(m, scope, now), scope)
  {
    var facts, existing := ListFacts(m, scope), IndexKeys(ListPointers(m, scope));
    ListedFacts(m, scope);
    RebuildFrame(m, scope, facts, existing, now);
    RebuildCounts(m, scope, facts, existing, now);
    RebuildCompleteEverywhere(m, scope, now);
    if NoFacts(m, scope) {
      NoFactsNoListing(m, scope);
    }
    AddsMaintains(m, Rebuild(m, scope, now), scope);
  }

  lemma {:induction false} AddsMaintains(m: Mem, m': Mem, scope: string)
    requires AddsPointers(m, m', scope) && ValidMem(m') && Grounded(m') && KeepsComplete(m, m')
    requires m.nextId <= m'.nextId && (NoFacts(m, scope) ==> m'.pointers == m.pointers)
    ensures Maintains(m, m', scope)
  {
  }

  lemma {:induction false} RebuildCounts(m: Mem, scope: string, facts: seq<Fact>, existing: set<IndexKey>, now: Time)
    ensures m.nextId <= RebuildFrom(m, scope, facts, existing, now).nextId
  {
    if facts != [] {
      RebuildCounts(m, scope, facts[..|facts| - 1], existing, now);
    }
  }

  lemma {:induction false} RecordDurativesMaintains(m: Mem, scope: string, now: Time)
    requires ValidMem(m) && Grounded(m)
    ensures Maintains(m, RecordDuratives(m, ListFacts(m, scope), Lines(ListFacts(m, scope)), now), scope)
  {
    var facts := ListFacts(m, scope);
    ListedFacts(m, scope);
    LinesOfScope(facts, scope);
    RecordDurativesDerived(m, facts, Lines(facts), scope, now);
    if NoFacts(m, scope) {
      NoFactsNoListing(m, scope);
    }
    DerivedMaintains(m, RecordDuratives(m, facts, Lines(facts), now), scope);
  }

  lemma {:induction false} SleepMaintains(m: Mem, scope: string, now: Time)
    requires ValidMem(m) && Grounded(m)
    ensures Maintains(m, Sleep(m, scope, now), scope)
  {
    var facts := ListFacts(m, scope);
    var m1 := RecordDuratives(m, facts, Lines(facts), now);
    RecordDurativesMaintains(m, scope, now);
    var m2 := Deduplicate(m1, scope);
    DeduplicateMaintains(m1, scope);
    MaintainsTwice(m, m1, m2, scope);
    var m3 := ProjectStates(m2, scope, Subjects(facts), now);
    ProjectStatesDerived(m2, scope, Subjects(facts), now);
    DerivedMaintains(m2, m3, scope);
    MaintainsTwice(m, m2, m3, scope);
  }

  lemma {:induction false} SelectiveRebuildMaintains(m: Mem, scope: string, targets: Targets, now: Time)
    requires ValidMem(m) && Grounded(m)
    ensures Maintains(m, SelectiveRebuild(m, scope, targets, now), scope)
  {
    var m1 := if targets.pointers then Rebuild(m, scope, now) else m;
    if targets.pointers {
      RebuildMaintains(m, scope, now);
    } else {
      DerivedMaintains(m, m1, scope);
    }
    var m2 := if targets.snapshots then RebuildSnapshots(m1, scope, now) else m1;
    ProjectStatesDerived(m1, scope, Subjects(ListFacts(m1, scope)), now);
    DerivedMaintains(m1, m2, scope);
    MaintainsTwice(m, m1, m2, scope);
    var m3 := if targets.artifacts then Materialize(m2, scope, now) else m2;
    MaterializeDerived(m2, scope, now);
    DerivedMaintains(m2, m3, scope);
    MaintainsTwice(m, m2, m3, scope);
  }

  lemma {:induction false} RebuildIndexesMaintains(m: Mem, scope: string, now: Time)
    requires ValidMem(m) && Grounded(m)
    ensures Maintains(m, RebuildIndexes(m, scope, now), scope)
  {
    var m1 := Rebuild(m, scope, now);
    RebuildMaintains(m, scope, now);
    MaterializeDerived(m1, scope, now);
    DerivedMaintains(m1, RebuildIndexes(m, scope, now), scope);
    MaintainsTwice(m, m1, RebuildIndexes(m, scope, now), scope);
  }

  lemma {:induction false} OperationsLoopMaintains(m: Mem, scope: string, interrupted: bool, now: Time)
    requires ValidMem(m) && Grounded(m)
    ensures Maintains(m, OperationsLoop(m, scope, interrupted, now), scope)
  {
    var slept := Sleep(m, scope, now);
    SleepMaintains(m, scope, now);
    if !interrupted {
      SelectiveRebuildMaintains(slept, scope, Targets(true, true, true), now);
      MaintainsTwice(m, slept, ResumeLoop(slept, scope, now), scope);
    }
  }

  /** Showing a timeline only replaces segments. */
  lemma {:induction false} TimelineMaintains(m: Mem, scope: string, subject: Option<string>, pred: Option<string>, now: Time)
    requires ValidMem(m) && Grounded(m)
    ensures Maintains(m, Reconstruct(m, scope, subject, pred, now), scope)
  {
    ReconstructDerived(m, scope, subject, pred, now);
    DerivedMaintains(m, Reconstruct(m, scope, subject, pred, now), scope);
  }

  /** Showing a project state only adds a snapshot and, at most, replaces segments. */
  lemma {:induction false} ProjectMaintains(m: Mem, scope: string, subject: string, now: Time)
    requires ValidMem(m) && Grounded(m)
    ensures Maintains(m, ProjectState(m, scope, subject, now), scope)
  {
    ProjectStateDerived(m, scope, subject, now);
    DerivedMaintains(m, ProjectState(m, scope, subject, now), scope);
  }

  // ------------------------------------------------------------------ upkeep as one step

  datatype Job =
    | SleepOn(scope: string)
    | Reindex(scope: string)
    | Reselect(scope: string, targets: Targets)
    | Operate(scope: string, interrupted: bool)
    | Resume(scope: string)
    | ShowTimeline(scope: string, subject: Option<string>, pred: Option<string>)
    | ShowProject(scope: string, of: string)

  function Perform(m: Mem, job: Job, now: Time): Mem {
    match job
    case SleepOn(scope) => Sleep(m, scope, now)
    case Reindex(scope) => RebuildIndexes(m, scope, now)
    case Reselect(scope, targets) => SelectiveRebuild(m, scope, targets, now)
    case Operate(scope, interrupted) => OperationsLoop(m, scope, interrupted, now)
    case Resume(scope) => ResumeLoop(m, scope, now)
    case ShowTimeline(scope, subject, pred) => Reconstruct(m, scope, subject, pred, now)
    case ShowProject(scope, of) => ProjectState(m, scope, of, now)
  }

  /** Every upkeep job and every query only maintains the scope it names. */
  lemma {:induction false} PerformMaintains(m: Mem, job: Job, now: Time)
    requires ValidMem(m) && Grounded(m)
    ensures Maintains(m, Perform(m, job, now), job.scope)
  {
    if job.SleepOn? {
      SleepMaintains(m, job.scope, now);
    } else if job.Reindex? {
      RebuildIndexesMaintains(m, job.scope, now);
    } else if job.Reselect? {
      SelectiveRebuildMaintains(m, job.scope, job.targets, now);
    } else if job.Operate? {
      OperationsLoopMaintains(m, job.scope, job.interrupted, now);
    } else if job.Resume? {
      SelectiveRebuildMaintains(m, job.scope, Targets(true, true, true), now);
    } else if job.ShowTimeline? {
      TimelineMaintains(m, job.scope, job.subject, job.pred, now);
    } else {
      ProjectMaintains(m, job.scope, job.of, now);
    }
  }
}
