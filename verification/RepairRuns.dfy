/** Contradiction repair over whole runs of the engine: what every reachable desk satisfies, what
    repeated rollbacks teach the controller, and runs in which its claims fail. */
module RepairRuns {
  import opened Prelude
  import opened Records
  import opened FactStore
  import opened Repair
  import opened RepairLearning
  import opened RepairLaws
  import Integrity
  import Pointers
  import Restoration
  import Runs
  import Upkeep

  // -------------------------------------------------------------------- every reachable desk

  lemma {:induction false} StepCounter(m: Mem, e: Runs.Event, now: Time)
    requires Runs.Sound(m)
    ensures m.nextId <= Runs.Step(m, e, now).nextId
  {
    if e.Maintain? {
      Upkeep.PerformMaintains(m, e.job, now);
    } else if e.Delete? {
      Integrity.TombstoneScopeDeletes(m, e.scope);
    } else if e.Purge? {
      Restoration.PurgeKindsEffect(m, e.scope, Pointers.Requested(e.kinds));
    } else if e.Semantic? {
      var _ := Integrity.ConsolidateFrame(m, e.c, now);
    }
  }

  lemma {:induction false} RollbackKeepsValid(d: Desk, repairId: Id, now: Time)
    requires ValidDesk(d) && RollbackRepair(d, repairId, now).Done?
    ensures ValidDesk(RollbackRepair(d, repairId, now).desk)
  {
    var repair := FindRepair(d.repairs, repairId).value;
    var facts := RepairFacts(d.mem, repair.factIds);
    VisibleAlike(d.mem, RestoredStatuses(facts, PriorApply(d, repairId).value.previous), repair.factIds);
  }

  lemma {:induction false} DeskStepValid(d: Desk, e: DeskEvent, now: Time)
    requires Runs.Sound(d.mem) && ValidDesk(d)
    ensures ValidDesk(DeskStep(d, e, now))
  {
    hide ApplyRepair, RollbackRepair, Canary, Detect, Runs.Step;
    match e
    case Memory(event) =>
      StepCounter(d.mem, event, now);
      Runs.StepSound(d.mem, event, now);
    case DetectIt(scopes, subject, pred) => DetectKeepsValid(d, scopes, subject, pred);
    case CanaryIt(scopes, subject, pred) => CanaryKeepsValid(d, scopes, subject, pred, now);
    case ApplyIt(id) =>
      if ApplyRepair(d, id, now).Done? {
        ApplyKeepsValid(d, id, now);
      }
    case RollbackIt(id) =>
      if RollbackRepair(d, id, now).Done? {
        RollbackKeepsValid(d, id, now);
      }
    case TrainIt(_) =>
  }

  lemma {:induction false} DetectKeepsValid(d: Desk, scopes: seq<string>, subject: string, pred: string)
    requires ValidDesk(d)
    ensures ValidDesk(Detect(d, scopes, subject, pred))
  {
  }

  /** In every run of a fresh engine the records name issued ids only. */
  lemma {:induction false} ReachableValid(run: seq<TimedDesk>)
    ensures ValidDesk(DeskRun(FRESH, run))
  {
    if run != [] {
      hide DeskStep, ValidDesk;
      var n := |run| - 1;
      ReachableValid(run[..n]);
      DeskRunSound(FRESH, run[..n]);
      DeskStepValid(DeskRun(FRESH, run[..n]), run[n].event, run[n].now);
    } else {
      assert ValidDesk(FRESH);
    }
  }

  /** On every reachable desk repair converges. */
  lemma {:induction false} ReachableConverges(run: seq<TimedDesk>, scopes: seq<string>, subject: string, pred: string, later: Time)
    requires Detected(DeskRun(FRESH, run), scopes, subject, pred).Some?
    ensures var d := DeskRun(FRESH, run);
      var repair := Detected(d, scopes, subject, pred).value;
      Converged(ApplyRepair(Detect(d, scopes, subject, pred), repair.id, later), scopes, subject, pred,
                repair.recommendedObject)
  {
    hide Converged, ApplyRepair, DeskRun;
    ReachableValid(run);
    RepairConverges(DeskRun(FRESH, run), scopes, subject, pred, later);
  }

  /** On every reachable desk background repair returns, whatever groups are pending, and leaves
      every repair that was recorded before as it was. */
  lemma {:induction false} ReachableBackground(run: seq<TimedDesk>, groups: seq<Group>, now: Time)
    ensures var d := DeskRun(FRESH, run);
      var o := BackgroundRepairs(d, groups, now);
      o.Done? && forall r :: r in d.repairs ==> r in o.desk.repairs
  {
    hide BackgroundRepairs, DeskRun;
    var d := DeskRun(FRESH, run);
    ReachableValid(run);
    BackgroundLoopNeverRaises(d, groups, now);
    forall r | r in d.repairs
      ensures r in BackgroundRepairs(d, groups, now).desk.repairs
    {
      BacklogStays(d, groups, now, r);
    }
  }

  // ------------------------------------------------------------------- rolling back again

  /** The same repairs, up to their status. */
  ghost predicate SameRepairs(a: seq<RepairRecord>, b: seq<RepairRecord>) {
    |a| == |b| && RepairsGrow(a, b)
  }

  lemma {:induction false} OneMoreRollback(analytics: seq<Analytics>, a: Analytics, id: Id)
    requires a.action == RollbackAction
    ensures RollbacksOf(analytics + [a], id) == RollbacksOf(analytics, id) + if a.repairId == id then 1 else 0
  {
    assert (analytics + [a])[..|analytics|] == analytics;
  }

  /** One more rollback of a repair of the group adds to the signals of the group. */
  lemma {:induction false} RollbackSignals(a: seq<RepairRecord>, b: seq<RepairRecord>, x: seq<Analytics>, r: RepairRecord,
                                           entry: Analytics, scopes: seq<string>)
    requires SameRepairs(a, b) && r in a && SameScopes(r.scopeKeys, scopes)
    requires entry.action == RollbackAction && entry.repairId == r.id
    ensures Rollbacks(b, x + [entry], scopes) > Rollbacks(a, x, scopes)
  {
    var n := |a| - 1;
    OneMoreRollback(x, entry, a[n].id);
    if r == a[n] {
      RollbacksGrow(a[..n], b[..n], x, x + [entry], scopes);
    } else {
      assert r in a[..n];
      RollbackSignals(a[..n], b[..n], x, r, entry, scopes);
    }
  }

  lemma {:induction false} StatusesTwice(facts: seq<Fact>, st: map<Id, Status>)
    ensures WithStatuses(WithStatuses(facts, st), st) == WithStatuses(facts, st)
  {
  }

  lemma {:induction false} StillLastApplied(runs: seq<ActionRun>, run: ActionRun, more: ActionRun)
    requires LastApplied(runs, run) && more.action == RollbackAction
    ensures LastApplied(runs + [more], run)
  {
  }

  /** Apart from statuses, derived records and the logs of applies and rollbacks, the same desk. */
  ghost predicate StatusesOnly(d: Desk, d': Desk) {
    && SameRepairs(d.repairs, d'.repairs)
    && d'.assessments == d.assessments && d'.learning == d.learning && d'.mem.tombstones == d.mem.tombstones
  }

  /** What a rollback leaves of the desk: the repairs are the same up to their status, and the
      signals of the group have grown. */
  ghost predicate RolledBackFrom(d2: Desk, d3: Desk, scopes: seq<string>) {
    && StatusesOnly(d2, d3)
    && Rollbacks(d3.repairs, d3.analytics, scopes) > Rollbacks(d2.repairs, d2.analytics, scopes)
  }

  /** A rollback at an undo point, spelled out. */
  lemma {:induction false} RollsBack(d: Desk, d2: Desk, repair: RepairRecord, run: ActionRun, now: Time)
    requires UndoPoint(d, d2, repair, run)
    ensures RollbackRepair(d2, repair.id, now)
         == Done(RollingBack(d2, repair.id, RepairFacts(d2.mem, repair.factIds), run, now))
  {
    hide RepairFacts, RollingBack, LastApplied, PriorApply;
    LastApplyPrior(d2, repair.id, run);
  }

  lemma {:induction false} StillUndoPoint(d: Desk, d2: Desk, repair: RepairRecord, run: ActionRun, now: Time)
    requires UndoPoint(d, d2, repair, run)
    ensures var d3 := RollingBack(d2, repair.id, RepairFacts(d2.mem, repair.factIds), run, now);
      && UndoPoint(d, d3, repair, run)
      && FindRepair(d3.repairs, repair.id).value.scopeKeys == FindRepair(d2.repairs, repair.id).value.scopeKeys
  {
    hide RepairFacts, LastApplied, RestoredStatuses, WithStatuses, StatusMap;
    var facts := RepairFacts(d2.mem, repair.factIds);
    var d3 := RollingBack(d2, repair.id, facts, run, now);
    FindAfterStatus(d2.repairs, repair.id, RolledBack);
    VisibleAlike(d2.mem, RestoredStatuses(facts, run.previous), repair.factIds);
    StillLastApplied(d2.runs, run, d3.runs[|d2.runs|]);
  }

  lemma {:induction false} Signals(d2: Desk, id: Id, facts: seq<Fact>, run: ActionRun, scopes: seq<string>, now: Time)
    requires FindRepair(d2.repairs, id).Some? && SameScopes(FindRepair(d2.repairs, id).value.scopeKeys, scopes)
    ensures RolledBackFrom(d2, RollingBack(d2, id, facts, run, now), scopes)
  {
    hide RestoredStatuses, WithStatuses, SameScopes;
    var d3 := RollingBack(d2, id, facts, run, now);
    RollbackSignals(d2.repairs, d3.repairs, d2.analytics, FindRepair(d2.repairs, id).value,
                    d3.analytics[|d2.analytics|], scopes);
  }

  /** A rollback can be asked for again and again: each time it writes the same statuses, and each
      time the group gains a signal. */
  lemma {:induction false} RollbackAgain(d: Desk, d2: Desk, repair: RepairRecord, run: ActionRun, scopes: seq<string>, now: Time)
    requires UndoPoint(d, d2, repair, run) && SameScopes(FindRepair(d2.repairs, repair.id).value.scopeKeys, scopes)
    ensures var o := RollbackRepair(d2, repair.id, now);
      && o.Done?
      && o.desk.mem.facts == WithStatuses(d2.mem.facts, StatusMap(RepairFacts(d.mem, repair.factIds)))
      && UndoPoint(d, o.desk, repair, run)
      && FindRepair(o.desk.repairs, repair.id).value.scopeKeys == FindRepair(d2.repairs, repair.id).value.scopeKeys
      && RolledBackFrom(d2, o.desk, scopes)
  {
    hide RepairFacts, RollingBack, RollbackRepair, RolledBackFrom, SameScopes, WithStatuses, LastApplied, SameFacts;
    RollbackUndoes(d, d2, repair, run, now);
    RollsBack(d, d2, repair, run, now);
    StillUndoPoint(d, d2, repair, run, now);
    Signals(d2, repair.id, RepairFacts(d2.mem, repair.factIds), run, scopes, now);
  }

  lemma {:induction false} RunOneMore(d: Desk, run: seq<TimedDesk>, more: TimedDesk)
    ensures DeskRun(d, run + [more]) == DeskStep(DeskRun(d, run), more.event, more.now)
  {
    assert (run + [more])[..|run|] == run;
  }

  ghost predicate OnlyRollbacks(events: seq<TimedDesk>, id: Id) {
    forall i :: 0 <= i < |events| ==> events[i].event == RollbackIt(id)
  }

  /** What any number of rollbacks of one repair leaves. */
  ghost predicate RolledBackOften(d2: Desk, d3: Desk, scopes: seq<string>, previous: map<Id, Status>, n: nat) {
    && StatusesOnly(d2, d3)
    && Rollbacks(d3.repairs, d3.analytics, scopes) >= Rollbacks(d2.repairs, d2.analytics, scopes) + n
    && d3.mem.facts == if n == 0 then d2.mem.facts else WithStatuses(d2.mem.facts, previous)
  }

  lemma {:induction false} OftenOneMore(d2: Desk, d3: Desk, d4: Desk, scopes: seq<string>, previous: map<Id, Status>, n: nat)
    requires RolledBackOften(d2, d3, scopes, previous, n) && RolledBackFrom(d3, d4, scopes)
    requires d4.mem.facts == WithStatuses(d3.mem.facts, previous)
    ensures RolledBackOften(d2, d4, scopes, previous, n + 1)
  {
    hide WithStatuses, Rollbacks;
    StatusesTwice(d2.mem.facts, previous);
  }

  /** Rolling back n times leaves the facts as rolling back once does, and n signals. */
  lemma {:induction false} RollbacksRepeat(d: Desk, d2: Desk, repair: RepairRecord, run: ActionRun, scopes: seq<string>,
                                           events: seq<TimedDesk>)
    requires UndoPoint(d, d2, repair, run) && SameScopes(FindRepair(d2.repairs, repair.id).value.scopeKeys, scopes)
    requires OnlyRollbacks(events, repair.id)
    ensures var d3 := DeskRun(d2, events);
      && UndoPoint(d, d3, repair, run)
      && FindRepair(d3.repairs, repair.id).value.scopeKeys == FindRepair(d2.repairs, repair.id).value.scopeKeys
      && RolledBackOften(d2, d3, scopes, StatusMap(RepairFacts(d.mem, repair.factIds)), |events|)
  {
    hide RepairFacts, RollbackRepair, RolledBackFrom, SameScopes, WithStatuses, LastApplied, SameFacts, UndoPoint;
    if events != [] {
      hide RolledBackOften;
      var n, previous := |events| - 1, StatusMap(RepairFacts(d.mem, repair.factIds));
      assert forall i :: 0 <= i < n ==> events[..n][i] == events[i];
      RollbacksRepeat(d, d2, repair, run, scopes, events[..n]);
      RollbackAgain(d, DeskRun(d2, events[..n]), repair, run, scopes, events[n].now);
      OftenOneMore(d2, DeskRun(d2, events[..n]), DeskRun(d2, events), scopes, previous, n);
    }
  }

  /** Rolling one repair back three times is enough to ratchet its scope group. */
  lemma {:induction false} RollbacksRatchet(d: Desk, d2: Desk, repair: RepairRecord, run: ActionRun, scopes: seq<string>,
                                            events: seq<TimedDesk>)
    requires UndoPoint(d, d2, repair, run) && SameScopes(FindRepair(d2.repairs, repair.id).value.scopeKeys, scopes)
    requires OnlyRollbacks(events, repair.id) && |events| >= 3
    ensures Heavy(Train(DeskRun(d2, events), scopes), scopes)
  {
    hide UndoPoint, DeskRun, SameScopes;
    RollbacksRepeat(d, d2, repair, run, scopes, events);
  }

  // --------------------------------------------------------------- two scopes that disagree

  /** Two visible active facts on the given subject and predicate, in different scopes and states. */
  ghost predicate Disagree(m: Mem, f: Fact, g: Fact, subject: string, pred: string) {
    && ValidMem(m) && m.facts == [f, g] && m.tombstones == []
    && f.scope != g.scope && f.obj != g.obj && f.status.Active? && g.status.Active?
    && f.subject == g.subject == subject && f.pred == g.pred == pred
  }

  lemma {:induction false} FilterPair<T>(x: T, y: T, p: T -> bool)
    ensures Filter([x, y], p) == (if p(x) then [x] else []) + (if p(y) then [y] else [])
  {
    assert [x, y][..1] == [x] && [x][..0] == [];
  }

  lemma {:induction false} ActiveOfOne(m: Mem, f: Fact, line: Line)
    requires VisibleFacts(m, line.scope) == [f] && LineOf(f) == line && f.status.Active?
    ensures ActiveFacts(m, line) == [f]
  {
    assert [f][..0] == [];
    assert ListFacts(m, line.scope) == [f];
    assert OnLine([f], line) == [f];
  }

  lemma {:induction false} ActiveOfPair(m: Mem, f: Fact, g: Fact, subject: string, pred: string)
    requires Disagree(m, f, g, subject, pred)
    ensures ActiveFacts(m, Line(f.scope, subject, pred)) == [f]
    ensures ActiveFacts(m, Line(g.scope, subject, pred)) == [g]
  {
    hide ActiveFacts;
    FilterPair(f, g, (x: Fact) => x.scope == f.scope && FactVisible(m, x));
    FilterPair(f, g, (x: Fact) => x.scope == g.scope && FactVisible(m, x));
    ActiveOfOne(m, f, Line(f.scope, subject, pred));
    ActiveOfOne(m, g, Line(g.scope, subject, pred));
  }

  /** The conflict a detection sees on the two scopes, and on a list that repeats the second. */
  lemma {:induction false} AcrossPair(m: Mem, f: Fact, g: Fact, a: string, b: string, subject: string, pred: string)
    requires Disagree(m, f, g, subject, pred) && a == f.scope && b == g.scope
    ensures ActiveAcross(m, [a, b], subject, pred) == [f, g]
    ensures ActiveAcross(m, [a, b, b], subject, pred) == [f, g, g]
    ensures |StatesOf([f, g])| == 2 && |StatesOf([f, g, g])| == 2
  {
    hide ActiveFacts;
    ActiveOfPair(m, f, g, subject, pred);
    var empty: seq<string> := [];
    assert [a][..0] == empty && [a, b][..1] == [a] && [a, b, b][..2] == [a, b];
    assert ActiveAcross(m, empty, subject, pred) == [];
    assert ActiveAcross(m, [a], subject, pred) == [f];
    assert StatesOf([f, g]) == {f.obj, g.obj};
    assert StatesOf([f, g, g]) == {f.obj, g.obj};
  }

  function Told(scope: string, obj: string, start: Time): Candidate {
    Candidate(0, scope, SemanticLane, "reported", Content(Some("user"), Some("lives_in"), Some(obj), None, Some(start)),
              [], 0.5, 0.5, 0.0, 0.0, 0.0)
  }

  lemma {:induction false} FirstWrite(m: Mem, c: Candidate, now: Time)
    requires ListFacts(m, c.scope) == []
    ensures Pointers.WriteSemantic(m, c, now).facts == m.facts + [NewFact(m, c, now)]
    ensures Pointers.WriteSemantic(m, c, now).tombstones == m.tombstones
    ensures Pointers.WriteSemantic(m, c, now).nextId == m.nextId + 2
  {
    assert ActiveFacts(m, CandidateLine(c)) == [];
    assert Close(m.facts, [], GetOr(c.content.validFrom, now)) == m.facts;
  }

  lemma {:induction false} NoListing(m: Mem, f: Fact, scope: string)
    requires m.facts == [f] && f.scope != scope
    ensures ListFacts(m, scope) == []
  {
    FilterNone(m.facts, (x: Fact) => x.scope == scope && FactVisible(m, x));
  }

  lemma {:induction false} NewFactStates(m: Mem, c: Candidate, now: Time)
    ensures var f := NewFact(m, c, now);
      && LineOf(f) == CandidateLine(c) && f.obj == ObjOf(c) && f.status.Active? && f.id == m.nextId
      && StartOf(f) == GetOr(c.content.validFrom, now)
  {
  }

  /** Two first writes, in different scopes, to an empty memory. */
  lemma {:induction false} TwoWrites(c1: Candidate, c2: Candidate, now1: Time, now2: Time)
    requires c1.scope != c2.scope && ObjOf(c1) != ObjOf(c2) && SubjectOf(c1) == SubjectOf(c2) && PredOf(c1) == PredOf(c2)
    ensures var m1 := Pointers.WriteSemantic(EMPTY, c1, now1);
      var m2 := Pointers.WriteSemantic(m1, c2, now2);
      && Disagree(m2, NewFact(EMPTY, c1, now1), NewFact(m1, c2, now2), SubjectOf(c1), PredOf(c1))
      && m2.nextId == 4 && Runs.Sound(m2)
  {
    hide Pointers.WriteSemantic, NewFact, ListFacts, Runs.Step;
    var m1 := Pointers.WriteSemantic(EMPTY, c1, now1);
    var m2 := Pointers.WriteSemantic(m1, c2, now2);
    Runs.SemanticSound(EMPTY, c1, now1);
    Runs.SemanticSound(m1, c2, now2);
    EmptyListing(EMPTY, c1.scope);
    FirstWrite(EMPTY, c1, now1);
    var f := NewFact(EMPTY, c1, now1);
    NewFactStates(EMPTY, c1, now1);
    NoListing(m1, f, c2.scope);
    FirstWrite(m1, c2, now2);
    NewFactStates(m1, c2, now2);
  }

  lemma {:induction false} EmptyListing(m: Mem, scope: string)
    requires m.facts == []
    ensures ListFacts(m, scope) == []
  {
  }

  // ------------------------------------------------------ a ratcheted group, and how it slips

  lemma {:induction false} AppliedFrame(d: Desk, repairId: Id, now: Time)
    requires ApplyRepair(d, repairId, now).Done?
    ensures var d' := ApplyRepair(d, repairId, now).desk;
      && StatusesOnly(d, d')
      && FindRepair(d'.repairs, repairId).Some?
      && FindRepair(d'.repairs, repairId).value.scopeKeys == FindRepair(d.repairs, repairId).value.scopeKeys
  {
    hide RepairFacts, AppliedStatuses, LatestAssessment, Refreshed, StatusMap, CountActive, WithStatuses;
    var repair := FindRepair(d.repairs, repairId).value;
    var facts := RepairFacts(d.mem, repair.factIds);
    RefreshedDerived(AppliedMem(d.mem, facts), repair.scopeKeys, facts, now);
    FindAfterStatus(d.repairs, repairId, Applied);
  }

  lemma {:induction false} StillValid(d: Desk, d2: Desk, repair: RepairRecord, run: ActionRun)
    requires UndoPoint(d, d2, repair, run)
    ensures ValidMem(d2.mem)
  {
  }

  lemma {:induction false} UndoneOften(d: Desk, d2: Desk, d3: Desk, ids: seq<Id>, scopes: seq<string>, n: nat)
    requires ValidMem(d.mem) && RepairFacts(d.mem, ids) != [] && StatusesOnly(d, d2) && n > 0
    requires d2.mem.facts == AppliedMem(d.mem, RepairFacts(d.mem, ids)).facts
    requires RolledBackOften(d2, d3, scopes, StatusMap(RepairFacts(d.mem, ids)), n)
    ensures d3.mem.facts == d.mem.facts && StatusesOnly(d, d3)
    ensures Rollbacks(d3.repairs, d3.analytics, scopes) >= n
  {
    hide AppliedMem, StatusMap, RepairFacts, WithStatuses;
    StatusesUndone(d.mem, RepairFacts(d.mem, ids), ids);
  }

  /** After an apply, rolling back any number of times, at least once, restores the facts. */
  lemma {:induction false} ApplyThenRollbacks(d: Desk, id: Id, applied: Time, events: seq<TimedDesk>, scopes: seq<string>)
    requires ValidMem(d.mem) && d.runs == [] && ApplyRepair(d, id, applied).Done?
    requires SameScopes(FindRepair(d.repairs, id).value.scopeKeys, scopes)
    requires OnlyRollbacks(events, id) && events != []
    ensures var d3 := DeskRun(ApplyRepair(d, id, applied).desk, events);
      && d3.mem.facts == d.mem.facts && StatusesOnly(d, d3) && ValidMem(d3.mem)
      && Rollbacks(d3.repairs, d3.analytics, scopes) >= |events|
  {
    var d2, repair := ApplyRepair(d, id, applied).desk, FindRepair(d.repairs, id).value;
    AppliedFacts(d, id, applied);
    var facts := RepairFacts(d.mem, repair.factIds);
    var run := ActionRun(id, ApplyAction, StatusMap(facts), AppliedStatuses(facts, Latest(facts)), applied);
    hide *;
    AppliedFrame(d, id, applied);
    UndoPointAfterApply(d, id, applied);
    RollbacksRepeat(d, d2, repair, run, scopes, events);
    StillValid(d, DeskRun(d2, events), repair, run);
    UndoneOften(d, d2, DeskRun(d2, events), repair.factIds, scopes, |events|);
  }

  lemma {:induction false} NoSignals(repairs: seq<RepairRecord>, analytics: seq<Analytics>, scopes: seq<string>)
    requires forall r :: r in repairs ==> !SameScopes(r.scopeKeys, scopes)
    ensures Rollbacks(repairs, analytics, scopes) == 0
  {
    if repairs != [] {
      NoSignals(repairs[..|repairs| - 1], analytics, scopes);
    }
  }

  lemma {:induction false} PairDetected(d: Desk, f: Fact, g: Fact, a: string, b: string, subject: string, pred: string)
    requires Disagree(d.mem, f, g, subject, pred) && a == f.scope && b == g.scope
    ensures var r := Detected(d, [a, b], subject, pred);
      r.Some? && r.value.id == d.mem.nextId && SameScopes(r.value.scopeKeys, [a, b])
  {
    hide ActiveAcross, StatesOf, SortStrings;
    AcrossPair(d.mem, f, g, a, b, subject, pred);
    SortStringsMembers([a, b]);
  }

  /** Detection on a desk without records over two facts that disagree. */
  lemma {:induction false} DetectPair(d: Desk, f: Fact, g: Fact, a: string, b: string, subject: string, pred: string, applied: Time)
    requires Disagree(d.mem, f, g, subject, pred) && a == f.scope && b == g.scope
    requires d == Desk(d.mem, [], [], [], [], map[])
    ensures var d1 := Detect(d, [a, b], subject, pred);
      && d1.mem.facts == [f, g] && d1.mem.tombstones == [] && ValidMem(d1.mem)
      && d1.assessments == [] && d1.runs == [] && d1.learning == map[]
      && |d1.repairs| == 1 && SameScopes(d1.repairs[0].scopeKeys, [a, b])
      && FindRepair(d1.repairs, d.mem.nextId) == Some(d1.repairs[0])
      && ApplyRepair(d1, d.mem.nextId, applied).Done?
  {
    hide Detected, ApplyRepair, ActiveAcross, SoleActive, SameScopes, LatestAssessment, RepairFacts;
    PairDetected(d, f, g, a, b, subject, pred);
    RepairConverges(d, [a, b], subject, pred, applied);
    AfterDetect(d, [a, b], subject, pred);
    DetectKeepsValid(d, [a, b], subject, pred);
  }

  /** After an apply and rollbacks, the facts stand as before, the group has the signals, and a
      group of other scopes has none. */
  ghost predicate Signalled(d: Desk, f: Fact, g: Fact, subject: string, pred: string, scopes: seq<string>, n: nat) {
    && Disagree(d.mem, f, g, subject, pred)
    && d.learning == map[]
    && Rollbacks(d.repairs, d.analytics, scopes) >= n
    && (forall other :: !SameScopes(scopes, other) ==> Weight(d, other) == 0)
  }

  lemma {:induction false} SignalPair(d: Desk, f: Fact, g: Fact, a: string, b: string, subject: string, pred: string,
                                      applied: Time, events: seq<TimedDesk>)
    requires Disagree(d.mem, f, g, subject, pred) && a == f.scope && b == g.scope
    requires d == Desk(d.mem, [], [], [], [], map[])
    requires OnlyRollbacks(events, d.mem.nextId) && events != []
    ensures var o := ApplyRepair(Detect(d, [a, b], subject, pred), d.mem.nextId, applied);
      o.Done? && Signalled(DeskRun(o.desk, events), f, g, subject, pred, [a, b], |events|)
  {
    hide ApplyRepair, Detect, DeskRun, Rollbacks, FindRepair;
    var d1 := Detect(d, [a, b], subject, pred);
    DetectPair(d, f, g, a, b, subject, pred, applied);
    ApplyThenRollbacks(d1, d.mem.nextId, applied, events, [a, b]);
    var d3 := DeskRun(ApplyRepair(d1, d.mem.nextId, applied).desk, events);
    forall other | !SameScopes([a, b], other)
      ensures Weight(d3, other) == 0
    {
      assert d3.repairs[0].scopeKeys == d1.repairs[0].scopeKeys;
      NoSignals(d3.repairs, d3.analytics, other);
    }
  }

  /** From there, training the group makes its canaries hold; training a group of other scopes that
      is filed under the same key makes them apply again; and a list that repeats a scope is filed
      apart, so its canary applies all along. */
  lemma {:induction false} SlipsFrom(d: Desk, f: Fact, g: Fact, a: string, b: string, other: seq<string>, subject: string,
                                     pred: string, now: Time)
    requires a == f.scope && b == g.scope && Signalled(d, f, g, subject, pred, [a, b], 3)
    requires GroupKey(other) == GroupKey([a, b]) && !SameScopes([a, b], other)
    requires GroupKey([a, b, b]) != GroupKey([a, b])
    ensures var d1 := Train(d, [a, b]);
      && Heavy(d1, [a, b])
      && CanaryVerdict(d1, [a, b], subject, pred, now).recommendation == Hold
      && CanaryVerdict(Train(d1, other), [a, b], subject, pred, now).recommendation == Apply
      && CanaryVerdict(d1, [a, b, b], subject, pred, now).recommendation == Apply
  {
    hide ActiveAcross, GroupKey, CanaryVerdict, StatesOf, Rollbacks, Holds;
    var d1 := Train(d, [a, b]);
    AcrossPair(d.mem, f, g, a, b, subject, pred);
    TrainingDecides(d, [a, b], [a, b], subject, pred, now);
    TrainingDecides(d1, [a, b], other, subject, pred, now);
    VerdictRule(d1, [a, b, b], subject, pred, now);
    AdviceRule(3, 2, 0, 0);
  }

  /** Two writes to two scopes, and the detection of their conflict. */
  function Opening(c1: Candidate, c2: Candidate): seq<TimedDesk> {
    [On(Memory(Runs.Semantic(c1)), 1), On(Memory(Runs.Semantic(c2)), 2),
     On(DetectIt([c1.scope, c2.scope], SubjectOf(c1), PredOf(c1)), 3)]
  }

  /** The conflict is repaired, rolled back three times, and the group trained. */
  function Ratcheting(c1: Candidate, c2: Candidate): seq<TimedDesk> {
    Opening(c1, c2)
    + [On(ApplyIt(4), 4)]
    + ThreeRollbacks(4)
    + [On(TrainIt([c1.scope, c2.scope]), 8)]
  }

  lemma {:induction false} RunConcat(d: Desk, run: seq<TimedDesk>, more: seq<TimedDesk>)
    ensures DeskRun(d, run + more) == DeskRun(DeskRun(d, run), more)
  {
    if more == [] {
      assert run + more == run;
    } else {
      hide DeskStep;
      var n := |more| - 1;
      assert (run + more)[..|run| + n] == run + more[..n];
      RunConcat(d, run, more[..n]);
    }
  }

  lemma {:induction false} RunOne(d: Desk, more: TimedDesk)
    ensures DeskRun(d, [more]) == DeskStep(d, more.event, more.now)
  {
    assert [more][..0] == [];
  }

  ghost predicate Opposed(c1: Candidate, c2: Candidate) {
    c1.scope != c2.scope && ObjOf(c1) != ObjOf(c2) && SubjectOf(c1) == SubjectOf(c2) && PredOf(c1) == PredOf(c2)
  }

  /** The desk after the two writes. */
  function Written(c1: Candidate, c2: Candidate): Desk {
    FRESH.(mem := Pointers.WriteSemantic(Pointers.WriteSemantic(EMPTY, c1, 1), c2, 2))
  }

  lemma {:induction false} OpeningRun(c1: Candidate, c2: Candidate)
    ensures DeskRun(FRESH, Opening(c1, c2)) == Detect(Written(c1, c2), [c1.scope, c2.scope], SubjectOf(c1), PredOf(c1))
  {
    hide Detect, Pointers.WriteSemantic;
    var run := Opening(c1, c2);
    assert run == [run[0]] + [run[1]] + [run[2]];
    RunOne(FRESH, run[0]);
    RunOneMore(FRESH, [run[0]], run[1]);
    RunOneMore(FRESH, [run[0]] + [run[1]], run[2]);
  }

  function ThreeRollbacks(id: Id): seq<TimedDesk> {
    [On(RollbackIt(id), 5), On(RollbackIt(id), 6), On(RollbackIt(id), 7)]
  }

  lemma {:induction false} RatchetingUnrolls(c1: Candidate, c2: Candidate)
    ensures var pair := [c1.scope, c2.scope];
      var d1 := Detect(Written(c1, c2), pair, SubjectOf(c1), PredOf(c1));
      DeskRun(FRESH, Ratcheting(c1, c2))
      == Train(DeskRun(AfterOutcome(d1, ApplyRepair(d1, 4, 4)), ThreeRollbacks(4)), pair)
  {
    hide Opening, Written, DeskRun, ApplyRepair, Detect, Train, ThreeRollbacks, AfterOutcome;
    var opening, rollbacks := Opening(c1, c2), ThreeRollbacks(4);
    OpeningRun(c1, c2);
    RunOneMore(FRESH, opening, On(ApplyIt(4), 4));
    RunConcat(FRESH, opening + [On(ApplyIt(4), 4)], rollbacks);
    RunOneMore(FRESH, opening + [On(ApplyIt(4), 4)] + rollbacks, On(TrainIt([c1.scope, c2.scope]), 8));
  }

  lemma {:induction false} WrittenDisagree(c1: Candidate, c2: Candidate) returns (f: Fact, g: Fact)
    requires Opposed(c1, c2)
    ensures var d := Written(c1, c2);
      && LineOf(f) == CandidateLine(c1) && LineOf(g) == CandidateLine(c2) && d.mem.nextId == 4
      && StartOf(f) == GetOr(c1.content.validFrom, 1) && StartOf(g) == GetOr(c2.content.validFrom, 2)
      && d == Desk(d.mem, [], [], [], [], map[])
      && Disagree(d.mem, f, g, SubjectOf(c1), PredOf(c1))
  {
    hide Pointers.WriteSemantic, NewFact, Disagree;
    var m1 := Pointers.WriteSemantic(EMPTY, c1, 1);
    f, g := NewFact(EMPTY, c1, 1), NewFact(m1, c2, 2);
    TwoWrites(c1, c2, 1, 2);
    NewFactStates(EMPTY, c1, 1);
    NewFactStates(m1, c2, 2);
  }

  lemma {:induction false} SignalledDesk(c1: Candidate, c2: Candidate) returns (d: Desk, f: Fact, g: Fact)
    requires Opposed(c1, c2)
    ensures f.scope == c1.scope && g.scope == c2.scope
    ensures Signalled(d, f, g, SubjectOf(c1), PredOf(c1), [c1.scope, c2.scope], 3)
    ensures DeskRun(FRESH, Ratcheting(c1, c2)) == Train(d, [c1.scope, c2.scope])
  {
    hide Ratcheting, DeskRun, ApplyRepair, Signalled, Detect, Train, Written, Disagree;
    f, g := WrittenDisagree(c1, c2);
    SignalPair(Written(c1, c2), f, g, c1.scope, c2.scope, SubjectOf(c1), PredOf(c1), 4, ThreeRollbacks(4));
    RatchetingUnrolls(c1, c2);
    var d1 := Detect(Written(c1, c2), [c1.scope, c2.scope], SubjectOf(c1), PredOf(c1));
    d := DeskRun(AfterOutcome(d1, ApplyRepair(d1, 4, 4)), ThreeRollbacks(4));
  }

  lemma {:induction false} RatchetingRun(c1: Candidate, c2: Candidate, other: seq<string>, now: Time)
    requires Opposed(c1, c2)
    requires GroupKey(other) == GroupKey([c1.scope, c2.scope]) && !SameScopes([c1.scope, c2.scope], other)
    requires GroupKey([c1.scope, c2.scope, c2.scope]) != GroupKey([c1.scope, c2.scope])
    ensures var d, pair := DeskRun(FRESH, Ratcheting(c1, c2)), [c1.scope, c2.scope];
      && Heavy(d, pair)
      && CanaryVerdict(d, pair, SubjectOf(c1), PredOf(c1), now).recommendation == Hold
      && CanaryVerdict(Train(d, other), pair, SubjectOf(c1), PredOf(c1), now).recommendation == Apply
      && CanaryVerdict(d, [c1.scope, c2.scope, c2.scope], SubjectOf(c1), PredOf(c1), now).recommendation == Apply
  {
    hide Ratcheting, DeskRun, Signalled, Heavy, CanaryVerdict, GroupKey, SameScopes, Train;
    var d, f, g := SignalledDesk(c1, c2);
    SlipsFrom(d, f, g, c1.scope, c2.scope, other, SubjectOf(c1), PredOf(c1), now);
  }

  lemma {:induction false} KeysCollide()
    ensures GroupKey(["a|b"]) == GroupKey(["a", "b"]) && !SameScopes(["a", "b"], ["a|b"])
  {
    assert ["a", "b"][..1] == ["a"] && ["a"][..0] == [] && ["a|b"][..0] == [];
    assert SortStrings(["a"]) == ["a"];
    assert StringLe("a", "b");
    assert SortStrings(["a", "b"]) == ["a", "b"];
    assert SortStrings(["a|b"]) == ["a|b"];
    assert ["a", "b"][1..] == ["b"];
    assert JoinBar(["a", "b"]) == "a" + "|" + "b" == "a|b";
    assert "a" in Elements(["a", "b"]);
    assert "a" !in Elements(["a|b"]);
  }

  /** Naming a scope twice changes the key, though not the set of scopes. */
  lemma {:induction false} KeysApart(a: string, b: string)
    requires BarFree(a) && BarFree(b)
    ensures GroupKey([a, b, b]) != GroupKey([a, b]) && SameScopes([a, b, b], [a, b])
  {
    hide GroupKey;
    GroupKeyIff([a, b, b], [a, b]);
    assert |multiset([a, b, b])| == 3 && |multiset([a, b])| == 2;
    assert Elements([a, b, b]) == Elements([a, b]);
  }

  /** Where the ratchet slips. A run makes the controller of the scopes "a" and "b" heavy, so that
      their canary holds. Training the single scope "a|b", whose logs are empty, then overwrites it,
      and the same canary applies. And a list that names "b" twice, though it is the same set of
      scopes, loads no controller and applies even before. */
  lemma {:induction false} RatchetSlips(now: Time)
    ensures var d := DeskRun(FRESH, Ratcheting(Told("a", "Oslo", 1), Told("b", "Rome", 2)));
      && Heavy(d, ["a", "b"])
      && CanaryVerdict(d, ["a", "b"], "user", "lives_in", now).recommendation == Hold
      && CanaryVerdict(DeskStep(d, TrainIt(["a|b"]), now), ["a", "b"], "user", "lives_in", now).recommendation == Apply
      && CanaryVerdict(d, ["a", "b", "b"], "user", "lives_in", now).recommendation == Apply
  {
    hide DeskRun, Ratcheting, CanaryVerdict, Heavy, GroupKey, SameScopes;
    KeysCollide();
    KeysApart("a", "b");
    RatchetingRun(Told("a", "Oslo", 1), Told("b", "Rome", 2), ["a|b"], now);
  }

  // ---------------------------------------------------------- a repair applied after a write

  /** Two visible active facts stand on one storyline. */
  ghost predicate TwoActive(m: Mem, line: Line) {
    exists f, g :: Shown(m, f) && Shown(m, g) && f != g && LineOf(f) == line && LineOf(g) == line
  }

  /** The same fact, up to its status and the end of its interval. */
  ghost predicate SameOne(f: Fact, g: Fact) {
    f.id == g.id && LineOf(f) == LineOf(g) && StartOf(f) == StartOf(g)
  }

  ghost predicate SameOnes(a: seq<Fact>, b: seq<Fact>) {
    |a| == |b| && forall i :: 0 <= i < |a| ==> SameOne(a[i], b[i])
  }

  lemma {:induction false} PickCarried(visible: seq<Fact>, facts: seq<Fact>)
    requires forall i :: 0 <= i < |facts| ==>
      Lookup(visible, facts[i].id).Some? && SameOne(Lookup(visible, facts[i].id).value, facts[i])
    ensures SameOnes(Pick(visible, Ids(facts)), facts)
  {
    if facts != [] {
      var n, ids := |facts| - 1, Ids(facts);
      PickCarried(visible, facts[..n]);
      assert ids[..n] == Ids(facts[..n]);
      assert Pick(visible, ids) == Pick(visible, ids[..n]) + [Lookup(visible, ids[n]).value];
    }
  }

  lemma {:induction false} LatestCarried(a: seq<Fact>, b: seq<Fact>)
    requires a != [] && SameOnes(a, b)
    ensures SameOne(Latest(a), Latest(b))
  {
    if |a| > 1 {
      LatestCarried(a[..|a| - 1], b[..|b| - 1]);
    }
  }

  lemma {:induction false} WriteFrame(m: Mem, c: Candidate, now: Time)
    requires ValidMem(m)
    ensures var m' := Pointers.WriteSemantic(m, c, now);
      && m'.facts == Close(m.facts, Ids(ActiveFacts(m, CandidateLine(c))), GetOr(c.content.validFrom, now)) + [NewFact(m, c, now)]
      && m'.tombstones == m.tombstones && ValidMem(m')
  {
    hide ActiveFacts, NewFact, ValidMem;
    ConsolidateValid(m, c, now);
    Integrity.WritePointerShows(Consolidate(m, c, now), c.scope,
                                Pointers.PointerKey(HeadOf(c), EpisodeSources(c.sources), [m.nextId], []), now);
  }

  /** A write carries every visible fact over. */
  lemma {:induction false} WriteCarries(m: Mem, c: Candidate, now: Time, f: Fact)
    requires ValidMem(m) && f in m.facts && FactVisible(m, f)
    ensures var found := Lookup(AllVisible(Pointers.WriteSemantic(m, c, now)), f.id);
      found.Some? && SameOne(found.value, f)
  {
    hide ActiveFacts, NewFact, ValidMem, Pointers.WriteSemantic, AllVisible;
    var m' := Pointers.WriteSemantic(m, c, now);
    var i :| 0 <= i < |m.facts| && m.facts[i] == f;
    WriteFrame(m, c, now);
    assert SameOne(m'.facts[i], f);
    LookupFinds(m', m'.facts[i]);
  }

  lemma {:induction false} WriteCarriesConflict(m: Mem, c: Candidate, now: Time, facts: seq<Fact>)
    requires ValidMem(m) && forall f :: f in facts ==> f in m.facts && FactVisible(m, f)
    ensures SameOnes(RepairFacts(Pointers.WriteSemantic(m, c, now), Ids(facts)), facts)
  {
    hide Pointers.WriteSemantic, AllVisible, SameOne;
    forall i | 0 <= i < |facts|
      ensures var found := Lookup(AllVisible(Pointers.WriteSemantic(m, c, now)), facts[i].id);
        found.Some? && SameOne(found.value, facts[i])
    {
      WriteCarries(m, c, now, facts[i]);
    }
    PickCarried(AllVisible(Pointers.WriteSemantic(m, c, now)), facts);
  }

  /** Activating a fact of a storyline beside an active one that the repair does not list. */
  lemma {:induction false} AppliedBeside(m: Mem, ids: seq<Id>, g: Fact)
    requires ValidMem(m) && RepairFacts(m, ids) != [] && Shown(m, g) && g.id !in ids
    requires LineOf(g) == LineOf(Latest(RepairFacts(m, ids)))
    ensures TwoActive(AppliedMem(m, RepairFacts(m, ids)), LineOf(g))
  {
    var facts := RepairFacts(m, ids);
    var latest, st := Latest(facts), AppliedStatuses(facts, Latest(facts));
    RepairFactsVisible(m, ids);
    PickVisible(AllVisible(m), ids);
    AppliedRule(facts, latest, latest.id);
    AppliedRule(facts, latest, g.id);
    RewrittenMember(m.facts, st, latest);
    RewrittenMember(m.facts, st, g);
    var m' := AppliedMem(m, facts);
    assert Shown(m', Rewritten(latest, st)) && Shown(m', Rewritten(g, st));
    assert LineOf(Rewritten(latest, st)) == LineOf(g) == LineOf(Rewritten(g, st));
  }

  lemma {:induction false} NewFactShown(m: Mem, c: Candidate, now: Time)
    requires ValidMem(m)
    ensures Shown(Pointers.WriteSemantic(m, c, now), NewFact(m, c, now))
  {
    hide ActiveFacts, NewFact, Pointers.WriteSemantic;
    WriteFrame(m, c, now);
    NewFactStates(m, c, now);
    assert !Hidden(m, c.scope, SemanticFact, Issued(m.nextId));
  }

  lemma {:induction false} ConflictIssued(m: Mem, scopes: seq<string>, subject: string, pred: string)
    requires ValidMem(m)
    ensures var facts := ActiveAcross(m, scopes, subject, pred);
      && (forall f :: f in facts ==> f in m.facts && FactVisible(m, f))
      && forall id :: id in Ids(facts) ==> id < m.nextId
  {
    hide ActiveAcross;
    var facts := ActiveAcross(m, scopes, subject, pred);
    forall f | f in facts
      ensures f in m.facts && FactVisible(m, f)
    {
      AcrossMember(m, scopes, subject, pred, f);
    }
    forall i | 0 <= i < |facts|
      ensures Ids(facts)[i] < m.nextId
    {
      assert facts[i] in facts;
    }
  }

  /** The memory when a repair is applied that was detected before a write to the storyline of the
      fact it is to activate. */
  lemma {:induction false} WriteBetween(m: Mem, scopes: seq<string>, subject: string, pred: string, c: Candidate, now: Time)
    requires ValidMem(m) && ActiveAcross(m, scopes, subject, pred) != []
    requires CandidateLine(c) == LineOf(Latest(ActiveAcross(m, scopes, subject, pred)))
    ensures var m2 := Pointers.WriteSemantic(m, c, now);
      var facts := RepairFacts(m2, Ids(ActiveAcross(m, scopes, subject, pred)));
      facts != [] && TwoActive(AppliedMem(m2, facts), CandidateLine(c))
  {
    hide ActiveAcross, RepairFacts, Pointers.WriteSemantic, NewFact, ValidMem, TwoActive, Shown, AppliedMem;
    var before, m2 := ActiveAcross(m, scopes, subject, pred), Pointers.WriteSemantic(m, c, now);
    var facts := RepairFacts(m2, Ids(before));
    ConflictIssued(m, scopes, subject, pred);
    WriteFrame(m, c, now);
    WriteCarriesConflict(m, c, now, before);
    LatestCarried(facts, before);
    NewFactShown(m, c, now);
    NewFactStates(m, c, now);
    AppliedBeside(m2, Ids(before), NewFact(m, c, now));
  }

  lemma {:induction false} UngatedApply(d1: Desk, d2: Desk, repair: RepairRecord, later: Time)
    requires d2 == d1.(mem := d2.mem) && RepairFacts(d2.mem, repair.factIds) != []
    requires FindRepair(d1.repairs, repair.id) == Some(repair) && LatestAssessment(d1, repair) == None
    ensures var o := ApplyRepair(d2, repair.id, later);
      o.Done? && Upkeep.Derived(AppliedMem(d2.mem, RepairFacts(d2.mem, repair.factIds)), o.desk.mem)
  {
    var facts := RepairFacts(d2.mem, repair.factIds);
    assert LatestAssessment(d2, repair) == None;
    hide RepairFacts, LatestAssessment, StatusMap, AppliedMem, FindRepair;
    RefreshedDerived(AppliedMem(d2.mem, facts), repair.scopeKeys, facts, later);
  }

  /** Whenever a write to the storyline of the fact a repair recommends comes between detection and
      apply, the apply succeeds and leaves two active facts on that storyline. */
  lemma {:induction false} LateApplyBreaks(d: Desk, scopes: seq<string>, subject: string, pred: string, c: Candidate, now: Time, later: Time)
    requires ValidDesk(d) && Detected(d, scopes, subject, pred).Some?
    requires var facts := ActiveAcross(d.mem, scopes, subject, pred); facts != [] && CandidateLine(c) == LineOf(Latest(facts))
    ensures var d1 := Detect(d, scopes, subject, pred);
      var o := ApplyRepair(d1.(mem := Pointers.WriteSemantic(d1.mem, c, now)), Detected(d, scopes, subject, pred).value.id, later);
      o.Done? && TwoActive(o.desk.mem, CandidateLine(c))
  {
    var d1, repair := Detect(d, scopes, subject, pred), Detected(d, scopes, subject, pred).value;
    assert d1.mem.facts == d.mem.facts && d1.mem.tombstones == d.mem.tombstones;
    assert repair.factIds == Ids(ActiveAcross(d.mem, scopes, subject, pred));
    var d2 := d1.(mem := Pointers.WriteSemantic(d1.mem, c, now));
    AfterDetect(d, scopes, subject, pred);
    SameAcrossList(d.mem, d1.mem, scopes, subject, pred);
    DetectKeepsValid(d, scopes, subject, pred);
    assert ValidMem(d1.mem);
    hide *;
    WriteBetween(d1.mem, scopes, subject, pred, c, now);
    UngatedApply(d1, d2, repair, later);
    TwoActiveDerived(AppliedMem(d2.mem, RepairFacts(d2.mem, repair.factIds)), ApplyRepair(d2, repair.id, later).desk.mem,
                     CandidateLine(c));
  }

  lemma {:induction false} TwoActiveDerived(m: Mem, m': Mem, line: Line)
    requires Upkeep.Derived(m, m') && TwoActive(m, line)
    ensures TwoActive(m', line)
  {
    var f, g :| Shown(m, f) && Shown(m, g) && f != g && LineOf(f) == line && LineOf(g) == line;
    assert Shown(m', f) && Shown(m', g);
  }

  lemma {:induction false} SameAcrossList(m: Mem, m': Mem, scopes: seq<string>, subject: string, pred: string)
    requires m'.facts == m.facts && m'.tombstones == m.tombstones
    ensures ActiveAcross(m', scopes, subject, pred) == ActiveAcross(m, scopes, subject, pred)
  {
    if scopes != [] {
      var n := |scopes| - 1;
      SameAcrossList(m, m', scopes[..n], subject, pred);
      FilterCongruence(m.facts, (f: Fact) => f.scope == scopes[n] && FactVisible(m, f),
                                (f: Fact) => f.scope == scopes[n] && FactVisible(m', f));
    }
  }

  /** Two writes, the detection of their conflict, another write, and the apply of the repair. */
  function LateApply(c1: Candidate, c2: Candidate, c3: Candidate): seq<TimedDesk> {
    Opening(c1, c2) + [On(Memory(Runs.Semantic(c3)), 4)] + [On(ApplyIt(4), 5)]
  }

  lemma {:induction false} LatestOfPair(f: Fact, g: Fact)
    requires StartOf(f) < StartOf(g)
    ensures Latest([f, g]) == g
  {
    assert [f, g][..1] == [f];
  }

  lemma {:induction false} SemanticStep(d: Desk, c: Candidate, now: Time)
    ensures DeskStep(d, Memory(Runs.Semantic(c)), now) == d.(mem := Pointers.WriteSemantic(d.mem, c, now))
  {
    hide Pointers.WriteSemantic;
  }

  lemma {:induction false} ApplyStep(d: Desk, id: Id, now: Time)
    ensures DeskStep(d, ApplyIt(id), now) == AfterOutcome(d, ApplyRepair(d, id, now))
  {
    hide ApplyRepair, AfterOutcome;
  }

  lemma {:induction false} LateApplyUnrolls(c1: Candidate, c2: Candidate, c3: Candidate)
    ensures var d1 := Detect(Written(c1, c2), [c1.scope, c2.scope], SubjectOf(c1), PredOf(c1));
      var d2 := d1.(mem := Pointers.WriteSemantic(d1.mem, c3, 4));
      DeskRun(FRESH, LateApply(c1, c2, c3)) == AfterOutcome(d2, ApplyRepair(d2, 4, 5))
  {
    var opening, wrote := Opening(c1, c2), On(Memory(Runs.Semantic(c3)), 4);
    assert LateApply(c1, c2, c3) == opening + [wrote] + [On(ApplyIt(4), 5)];
    hide *;
    OpeningRun(c1, c2);
    RunOneMore(FRESH, opening, wrote);
    RunOneMore(FRESH, opening + [wrote], On(ApplyIt(4), 5));
    SemanticStep(DeskRun(FRESH, opening), c3, 4);
    ApplyStep(DeskRun(FRESH, opening + [wrote]), 4, 5);
  }

  lemma {:induction false} LateApplyRun(c1: Candidate, c2: Candidate, c3: Candidate)
    requires Opposed(c1, c2) && CandidateLine(c3) == CandidateLine(c2)
    requires GetOr(c1.content.validFrom, 1) < GetOr(c2.content.validFrom, 2)
    ensures TwoActive(DeskRun(FRESH, LateApply(c1, c2, c3)).mem, CandidateLine(c3))
  {
    var d, a, b, subject, pred := Written(c1, c2), c1.scope, c2.scope, SubjectOf(c1), PredOf(c1);
    hide DeskRun, LateApply, Written, TwoActive, Detect, Detected, ApplyRepair, ActiveAcross, Pointers.WriteSemantic;
    var f, g := WrittenDisagree(c1, c2);
    AcrossPair(d.mem, f, g, a, b, subject, pred);
    LatestOfPair(f, g);
    PairDetected(d, f, g, a, b, subject, pred);
    LateApplyBreaks(d, [a, b], subject, pred, c3, 4, 5);
    LateApplyUnrolls(c1, c2, c3);
  }

  /** A reachable case: the conflict of Oslo and Rome is detected, Bonn supersedes Rome, and
      applying the old repair makes Rome active again beside Bonn. */
  lemma {:induction false} LateApplyHappens()
    ensures TwoActive(DeskRun(FRESH, LateApply(Told("a", "Oslo", 1), Told("b", "Rome", 2), Told("b", "Bonn", 3))).mem,
                      Line("b", "user", "lives_in"))
  {
    hide DeskRun, LateApply, TwoActive;
    LateApplyRun(Told("a", "Oslo", 1), Told("b", "Rome", 2), Told("b", "Bonn", 3));
  }
}
