/** What detecting, applying and rolling back a contradiction repair does: it converges, it can
    be undone, and when it keeps one active fact per storyline. */
module RepairLaws {
  import opened Prelude
  import opened Records
  import opened FactStore
  import opened Repair
  import opened RepairLearning
  import Runs
  import Upkeep

  // ------------------------------------------------------------------- written statuses

  /** Facts that agree on an id are the same fact. */
  ghost predicate OneEach(facts: seq<Fact>) {
    forall f, g :: f in facts && g in facts && f.id == g.id ==> f == g
  }

  lemma {:induction false} AppliedRule(facts: seq<Fact>, latest: Fact, id: Id)
    ensures id in AppliedStatuses(facts, latest) <==> exists f :: f in facts && f.id == id
    ensures id in AppliedStatuses(facts, latest) ==>
      AppliedStatuses(facts, latest)[id] == if id == latest.id then Active else Superseded
  {
    if facts != [] {
      var front, last := facts[..|facts| - 1], facts[|facts| - 1];
      AppliedRule(front, latest, id);
      assert facts == front + [last];
      if id in AppliedStatuses(front, latest) {
        var f :| f in front && f.id == id;
        assert f in facts;
      }
      if exists f :: f in facts && f.id == id {
        var f :| f in facts && f.id == id;
        assert f in front || f == last;
      }
    }
  }

  lemma {:induction false} StatusRule(facts: seq<Fact>, f: Fact)
    requires OneEach(facts) && f in facts
    ensures f.id in StatusMap(facts) && StatusMap(facts)[f.id] == f.status
  {
    var front, last := facts[..|facts| - 1], facts[|facts| - 1];
    assert facts == front + [last];
    if f.id != last.id {
      StatusRule(front, f);
    }
  }

  lemma {:induction false} StatusKeys(facts: seq<Fact>, id: Id)
    requires id in StatusMap(facts)
    ensures exists f :: f in facts && f.id == id
  {
    var front, last := facts[..|facts| - 1], facts[|facts| - 1];
    assert facts == front + [last];
    if id == last.id {
      assert last in facts;
    } else {
      StatusKeys(front, id);
      var f :| f in front && f.id == id;
      assert f in facts;
    }
  }

  lemma {:induction false} RestoredRule(facts: seq<Fact>, previous: map<Id, Status>, f: Fact)
    requires OneEach(facts) && f in facts
    ensures f.id in RestoredStatuses(facts, previous)
    ensures RestoredStatuses(facts, previous)[f.id] == if f.id in previous then previous[f.id] else f.status
  {
    var front, last := facts[..|facts| - 1], facts[|facts| - 1];
    assert facts == front + [last];
    if f.id != last.id {
      RestoredRule(front, previous, f);
    }
  }

  lemma {:induction false} RestoredKeys(facts: seq<Fact>, previous: map<Id, Status>, id: Id)
    requires id in RestoredStatuses(facts, previous)
    ensures exists f :: f in facts && f.id == id
  {
    var front, last := facts[..|facts| - 1], facts[|facts| - 1];
    assert facts == front + [last];
    if id == last.id {
      assert last in facts;
    } else {
      RestoredKeys(front, previous, id);
      var f :| f in front && f.id == id;
      assert f in facts;
    }
  }

  /** The status of a fact after a status write. */
  function Rewritten(f: Fact, st: map<Id, Status>): Fact {
    if f.id in st then f.(status := st[f.id]) else f
  }

  lemma {:induction false} RewrittenMember(facts: seq<Fact>, st: map<Id, Status>, f: Fact)
    requires f in facts
    ensures Rewritten(f, st) in WithStatuses(facts, st)
  {
    var i :| 0 <= i < |facts| && facts[i] == f;
    assert WithStatuses(facts, st)[i] == Rewritten(f, st);
  }

  lemma {:induction false} RewrittenOrigin(facts: seq<Fact>, st: map<Id, Status>, g: Fact) returns (f: Fact)
    requires g in WithStatuses(facts, st)
    ensures f in facts && g == Rewritten(f, st)
  {
    var i :| 0 <= i < |facts| && WithStatuses(facts, st)[i] == g;
    f := facts[i];
  }

  lemma {:induction false} PickVisible(visible: seq<Fact>, ids: seq<Id>)
    ensures forall f :: f in Pick(visible, ids) ==> f in visible && f.id in ids
  {
    if ids != [] {
      PickVisible(visible, ids[..|ids| - 1]);
      assert ids == ids[..|ids| - 1] + [ids[|ids| - 1]];
    }
  }

  /** A repair's facts are visible facts of the memory. */
  lemma {:induction false} RepairFactsVisible(m: Mem, ids: seq<Id>)
    requires ValidMem(m)
    ensures var facts := RepairFacts(m, ids);
      && OneEach(facts)
      && forall f :: f in facts ==> f in m.facts && FactVisible(m, f)
  {
    var facts := RepairFacts(m, ids);
    PickVisible(AllVisible(m), ids);
    forall f, g | f in facts && g in facts && f.id == g.id
      ensures f == g
    {
      IncreasingInjective(m.facts, FactId, f, g);
    }
  }

  // ----------------------------------------------------------------------- convergence

  /** Applying to all active facts of a conflict leaves the latest as the only active one. */
  lemma {:induction false} OnlyLatestActive(m: Mem, scopes: seq<string>, subject: string, pred: string, g: Fact)
    requires ValidMem(m) && ActiveAcross(m, scopes, subject, pred) != []
    ensures var facts := ActiveAcross(m, scopes, subject, pred);
      g in ActiveAcross(AppliedMem(m, facts), scopes, subject, pred) <==> g == Latest(facts)
  {
    var facts := ActiveAcross(m, scopes, subject, pred);
    var m', latest := AppliedMem(m, facts), Latest(facts);
    var st := AppliedStatuses(facts, latest);
    AcrossMember(m', scopes, subject, pred, g);
    AcrossMember(m, scopes, subject, pred, latest);
    AppliedRule(facts, latest, latest.id);
    RewrittenMember(m.facts, st, latest);
    assert FactVisible(m', latest);
    assert Rewritten(latest, st) == latest;
    if g in ActiveAcross(m', scopes, subject, pred) {
      var f := RewrittenOrigin(m.facts, st, g);
      AppliedRule(facts, latest, f.id);
      AcrossMember(m, scopes, subject, pred, f);
      assert FactVisible(m, f);
      IncreasingInjective(m.facts, FactId, f, if f.id == latest.id then latest else f);
    }
  }

  /** f is the one active fact for the subject and predicate across the scopes. */
  ghost predicate SoleActive(m: Mem, scopes: seq<string>, subject: string, pred: string, f: Fact) {
    forall g :: g in ActiveAcross(m, scopes, subject, pred) <==> g == f
  }

  lemma {:induction false} ConflictGone(d: Desk, scopes: seq<string>, subject: string, pred: string, f: Fact)
    requires SoleActive(d.mem, scopes, subject, pred, f)
    ensures Detected(d, scopes, subject, pred) == None
  {
    assert StatesOf(ActiveAcross(d.mem, scopes, subject, pred)) == {f.obj};
  }

  /** Repair and assessment records name issued ids only. */
  ghost predicate ValidDesk(d: Desk) {
    && ValidMem(d.mem)
    && (forall r :: r in d.repairs ==> r.id < d.mem.nextId)
    && (forall a :: a in d.assessments ==> a.repairId < d.mem.nextId)
  }

  /** The facts of a repair are found as long as the facts and tombstones stay. */
  lemma {:induction false} StandsForConflict(m: Mem, m1: Mem, scopes: seq<string>, subject: string, pred: string)
    requires ValidMem(m) && m1.facts == m.facts && m1.tombstones == m.tombstones
    ensures var facts := ActiveAcross(m, scopes, subject, pred); RepairFacts(m1, Ids(facts)) == facts
  {
    DetectedFacts(m, scopes, subject, pred);
    FilterCongruence(m.facts, (f: Fact) => FactVisible(m, f), (f: Fact) => FactVisible(m1, f));
  }

  lemma {:induction false} SoleAssessment(d: Desk, repair: RepairRecord, a: Assessment)
    requires a in d.assessments && a.repairId == repair.id && SameScopes(a.scopeKeys, repair.scopeKeys)
    requires forall b :: b in d.assessments && b.repairId == repair.id ==> b == a
    ensures LatestAssessment(d, repair) == Some(a)
  {
    var group := Filter(d.assessments, (x: Assessment) => SameScopes(x.scopeKeys, repair.scopeKeys));
    var listed := SortBy(group, NewestAssessmentFirst);
    var own := Filter(listed, (x: Assessment) => x.repairId == repair.id);
    SortMember(group, NewestAssessmentFirst, a);
    assert a in group && a in listed && a in own;
    assert own[0] in own;
    SortMember(group, NewestAssessmentFirst, own[0]);
    assert own[0] in d.assessments && own[0].repairId == repair.id;
  }

  /** The desk right after a canary: its repair is found, and the only assessment of it is the
      one the verdict reports. */
  lemma {:induction false} AfterCanary(d: Desk, scopes: seq<string>, subject: string, pred: string, now: Time)
    requires ValidDesk(d) && Detected(d, scopes, subject, pred).Some?
    ensures var d1, repair := Canary(d, scopes, subject, pred, now), Detected(d, scopes, subject, pred).value;
      var v := CanaryVerdict(d, scopes, subject, pred, now);
      && v.repairIds == [repair.id]
      && FindRepair(d1.repairs, repair.id) == Some(repair)
      && LatestAssessment(d1, repair).Some?
      && LatestAssessment(d1, repair).value.recommendation == v.recommendation
      && RepairFacts(d1.mem, repair.factIds) == ActiveAcross(d.mem, scopes, subject, pred)
  {
    hide ActiveAcross, RepairFacts, StatesOf, SortStrings, LatestAssessment;
    var d0, d1 := Detect(d, scopes, subject, pred), Canary(d, scopes, subject, pred, now);
    var repair := Detected(d, scopes, subject, pred).value;
    var a := AssessmentOf(d0, repair, Load(d, scopes), now);
    SoleAssessment(d1, repair, a);
    StandsForConflict(d.mem, d1.mem, scopes, subject, pred);
  }

  lemma {:induction false} NoAssessment(d: Desk, repair: RepairRecord)
    requires forall a :: a in d.assessments ==> a.repairId != repair.id
    ensures LatestAssessment(d, repair) == None
  {
    var group := Filter(d.assessments, (a: Assessment) => SameScopes(a.scopeKeys, repair.scopeKeys));
    var listed := SortBy(group, NewestAssessmentFirst);
    forall a | a in listed
      ensures a.repairId != repair.id
    {
      SortMember(group, NewestAssessmentFirst, a);
    }
    FilterNone(listed, (a: Assessment) => a.repairId == repair.id);
  }

  /** The desk right after a detection: its repair is found, stands for the conflicting facts, and
      no assessment names it. */
  lemma {:induction false} AfterDetect(d: Desk, scopes: seq<string>, subject: string, pred: string)
    requires ValidDesk(d) && Detected(d, scopes, subject, pred).Some?
    ensures var d1, repair := Detect(d, scopes, subject, pred), Detected(d, scopes, subject, pred).value;
      && FindRepair(d1.repairs, repair.id) == Some(repair)
      && LatestAssessment(d1, repair) == None
      && RepairFacts(d1.mem, repair.factIds) == ActiveAcross(d.mem, scopes, subject, pred)
  {
    hide ActiveAcross, RepairFacts, StatesOf, SortStrings, LatestAssessment;
    var d1 := Detect(d, scopes, subject, pred);
    NoAssessment(d1, Detected(d, scopes, subject, pred).value);
    StandsForConflict(d.mem, d1.mem, scopes, subject, pred);
  }

  /** The call succeeded and left exactly one active fact for the subject and predicate across the
      scopes, which states the object; detecting again finds nothing. */
  ghost predicate Converged(o: Outcome, scopes: seq<string>, subject: string, pred: string, obj: string) {
    && o.Done?
    && Detected(o.desk, scopes, subject, pred) == None
    && exists f :: SoleActive(o.desk.mem, scopes, subject, pred, f) && f.obj == obj
  }

  /** Applying a repair that stands for the conflict of the memory converges. */
  lemma {:induction false} ApplyingConverges(d: Desk, d1: Desk, repair: RepairRecord, scopes: seq<string>, subject: string,
                                             pred: string, later: Time)
    requires ValidMem(d.mem) && Detected(d, scopes, subject, pred) == Some(repair)
    requires d1.mem.facts == d.mem.facts && d1.mem.tombstones == d.mem.tombstones
    ensures var facts := ActiveAcross(d.mem, scopes, subject, pred);
      facts != [] && Converged(Done(Applying(d1, repair, facts, later)), scopes, subject, pred, repair.recommendedObject)
  {
    var facts := ActiveAcross(d.mem, scopes, subject, pred);
    NoFactsNoStates(facts);
    var d2 := Applying(d1, repair, facts, later);
    RefreshedDerived(AppliedMem(d1.mem, facts), repair.scopeKeys, facts, later);
    forall g
      ensures g in ActiveAcross(d2.mem, scopes, subject, pred) <==> g == Latest(facts)
    {
      OnlyLatestActive(d.mem, scopes, subject, pred, g);
      SameAcross(d2.mem, AppliedMem(d.mem, facts), scopes, subject, pred, g);
    }
    assert SoleActive(d2.mem, scopes, subject, pred, Latest(facts));
    ConflictGone(d2, scopes, subject, pred, Latest(facts));
  }

  /** Repair converges: whatever conflict a detection finds, of any size, applying its repair with
      no write in between resolves it. */
  lemma {:induction false} RepairConverges(d: Desk, scopes: seq<string>, subject: string, pred: string, later: Time)
    requires ValidDesk(d) && Detected(d, scopes, subject, pred).Some?
    ensures var repair := Detected(d, scopes, subject, pred).value;
      Converged(ApplyRepair(Detect(d, scopes, subject, pred), repair.id, later), scopes, subject, pred,
                repair.recommendedObject)
  {
    hide ActiveAcross, Converged, Applying, LatestAssessment, FindRepair;
    var d1, repair := Detect(d, scopes, subject, pred), Detected(d, scopes, subject, pred).value;
    AfterDetect(d, scopes, subject, pred);
    ApplyingConverges(d, d1, repair, scopes, subject, pred, later);
  }

  /** The gate of a canary: applying its repair with no write in between resolves the conflict when
      the canary advised to apply, and raises a value error when it did not. */
  lemma {:induction false} CanaryGate(d: Desk, scopes: seq<string>, subject: string, pred: string, now: Time, later: Time)
    requires ValidDesk(d) && Detected(d, scopes, subject, pred).Some?
    ensures var v := CanaryVerdict(d, scopes, subject, pred, now);
      && |v.repairIds| == 1
      && var o := ApplyRepair(Canary(d, scopes, subject, pred, now), v.repairIds[0], later);
         if v.recommendation == Apply
         then Converged(o, scopes, subject, pred, Detected(d, scopes, subject, pred).value.recommendedObject)
         else o == Raised(ValueError)
  {
    hide ActiveAcross, Converged, Applying, LatestAssessment, FindRepair, AssessmentOf;
    var d1, repair := Canary(d, scopes, subject, pred, now), Detected(d, scopes, subject, pred).value;
    AfterCanary(d, scopes, subject, pred, now);
    ApplyingConverges(d, d1, repair, scopes, subject, pred, later);
  }

  lemma {:induction false} SameAcross(m: Mem, m': Mem, scopes: seq<string>, subject: string, pred: string, g: Fact)
    requires m'.facts == m.facts && m'.tombstones == m.tombstones
    ensures g in ActiveAcross(m, scopes, subject, pred) <==> g in ActiveAcross(m', scopes, subject, pred)
  {
    AcrossMember(m, scopes, subject, pred, g);
    AcrossMember(m', scopes, subject, pred, g);
  }

  // ------------------------------------------------------------ the background repair loop

  /** One group of the background loop: train, canary, and apply the canary's first repair. */
  function BackgroundRepair(d: Desk, scopes: seq<string>, subject: string, pred: string, now: Time): Outcome {
    var d1 := Train(d, scopes);
    var v, d2 := CanaryVerdict(d1, scopes, subject, pred, now), Canary(d1, scopes, subject, pred, now);
    if v.recommendation != Apply then Done(d2)
    else if v.repairIds == [] then Raised(IndexError)
    else ApplyRepair(d2, v.repairIds[0], now)
  }

  /** The background loop never raises, and when its canary advises to apply, the conflict is
      gone afterwards. */
  lemma {:induction false} BackgroundNeverRaises(d: Desk, scopes: seq<string>, subject: string, pred: string, now: Time)
    requires ValidDesk(d)
    ensures var o := BackgroundRepair(d, scopes, subject, pred, now);
      && o.Done?
      && (CanaryVerdict(Train(d, scopes), scopes, subject, pred, now).recommendation == Apply ==>
            Detected(o.desk, scopes, subject, pred) == None)
  {
    if CanaryVerdict(Train(d, scopes), scopes, subject, pred, now).recommendation == Apply {
      CanaryGate(Train(d, scopes), scopes, subject, pred, now, now);
    }
  }

  lemma {:induction false} CanaryKeepsValid(d: Desk, scopes: seq<string>, subject: string, pred: string, now: Time)
    requires ValidDesk(d)
    ensures ValidDesk(Canary(d, scopes, subject, pred, now))
  {
    hide ActiveAcross, StatesOf, SortStrings, Load, RepairFacts, Advise, SafetyScore, EffectiveScore;
  }

  lemma {:induction false} ApplyKeepsValid(d: Desk, repairId: Id, now: Time)
    requires ValidDesk(d) && ApplyRepair(d, repairId, now).Done?
    ensures ValidDesk(ApplyRepair(d, repairId, now).desk)
  {
    hide RepairFacts, StatusMap, CountActive, LatestAssessment, AppliedStatuses, Refreshed;
    var repair := FindRepair(d.repairs, repairId).value;
    var facts := RepairFacts(d.mem, repair.factIds);
    var m1 := AppliedMem(d.mem, facts);
    VisibleAlike(d.mem, AppliedStatuses(facts, Latest(facts)), repair.factIds);
    RefreshedDerived(m1, repair.scopeKeys, facts, now);
    Upkeep.DerivedValid(m1, ApplyRepair(d, repairId, now).desk.mem);
  }

  lemma {:induction false} BackgroundKeepsValid(d: Desk, scopes: seq<string>, subject: string, pred: string, now: Time)
    requires ValidDesk(d)
    ensures BackgroundRepair(d, scopes, subject, pred, now).Done?
    ensures ValidDesk(BackgroundRepair(d, scopes, subject, pred, now).desk)
  {
    hide ApplyRepair, Canary, CanaryVerdict, Detected, Advise;
    var d1 := Train(d, scopes);
    BackgroundNeverRaises(d, scopes, subject, pred, now);
    CanaryKeepsValid(d1, scopes, subject, pred, now);
    var v := CanaryVerdict(d1, scopes, subject, pred, now);
    if v.recommendation == Apply {
      ApplyKeepsValid(Canary(d1, scopes, subject, pred, now), v.repairIds[0], now);
    }
  }

  /** The key under which the background loop groups pending repairs. */
  datatype Group = Group(scopes: seq<string>, subject: string, pred: string)

  /** The repair part of run_background_memory_maintenance: group after group, until one raises. */
  function BackgroundRepairs(d: Desk, groups: seq<Group>, now: Time): Outcome {
    if groups == [] then Done(d)
    else
      var last := groups[|groups| - 1];
      match BackgroundRepairs(d, groups[..|groups| - 1], now)
      case Raised(e) => Raised(e)
      case Done(d1) => BackgroundRepair(d1, last.scopes, last.subject, last.pred, now)
  }

  /** Whatever is pending, the repair part of background maintenance never raises. */
  lemma {:induction false} BackgroundLoopNeverRaises(d: Desk, groups: seq<Group>, now: Time)
    requires ValidDesk(d)
    ensures BackgroundRepairs(d, groups, now).Done? && ValidDesk(BackgroundRepairs(d, groups, now).desk)
  {
    if groups != [] {
      var n := |groups| - 1;
      BackgroundLoopNeverRaises(d, groups[..n], now);
      BackgroundKeepsValid(BackgroundRepairs(d, groups[..n], now).desk, groups[n].scopes, groups[n].subject,
                           groups[n].pred, now);
    }
  }

  lemma {:induction false} OthersKeepStatus(repairs: seq<RepairRecord>, id: Id, status: RepairStatus, r: RepairRecord)
    requires r in repairs && r.id != id
    ensures r in WithRepairStatus(repairs, id, status)
  {
    var i :| 0 <= i < |repairs| && repairs[i] == r;
    assert WithRepairStatus(repairs, id, status)[i] == r;
  }

  lemma {:induction false} CanaryKeepsRepairs(d: Desk, scopes: seq<string>, subject: string, pred: string, now: Time, r: RepairRecord)
    requires r in d.repairs
    ensures var d1, v := Canary(d, scopes, subject, pred, now), CanaryVerdict(d, scopes, subject, pred, now);
      && r in d1.repairs && d.mem.nextId <= d1.mem.nextId
      && (v.repairIds == [] || v.repairIds == [d.mem.nextId])
  {
    hide ActiveAcross, StatesOf, AssessmentOf, Load, SortStrings;
  }

  lemma {:induction false} ApplyKeepsOthers(d: Desk, repairId: Id, now: Time, r: RepairRecord)
    requires ApplyRepair(d, repairId, now).Done? && r in d.repairs && r.id != repairId
    ensures var d' := ApplyRepair(d, repairId, now).desk; r in d'.repairs && d.mem.nextId <= d'.mem.nextId
  {
    var repair := FindRepair(d.repairs, repairId).value;
    var facts := RepairFacts(d.mem, repair.factIds);
    RefreshedDerived(AppliedMem(d.mem, facts), repair.scopeKeys, facts, now);
    OthersKeepStatus(d.repairs, repairId, Applied, r);
  }

  lemma {:induction false} GroupKeepsBacklog(d: Desk, scopes: seq<string>, subject: string, pred: string, now: Time, r: RepairRecord)
    requires ValidDesk(d) && r in d.repairs
    ensures var o := BackgroundRepair(d, scopes, subject, pred, now);
      o.Done? && r in o.desk.repairs && d.mem.nextId <= o.desk.mem.nextId
  {
    hide ApplyRepair, Canary, CanaryVerdict, Detected;
    var d1 := Train(d, scopes);
    BackgroundNeverRaises(d, scopes, subject, pred, now);
    CanaryKeepsRepairs(d1, scopes, subject, pred, now, r);
    var v := CanaryVerdict(d1, scopes, subject, pred, now);
    if v.recommendation == Apply {
      ApplyKeepsOthers(Canary(d1, scopes, subject, pred, now), v.repairIds[0], now, r);
    }
  }

  /** The loop never works off its backlog: over any groups it applies only repairs that its own
      canaries record, so every repair that was there before is there afterwards, unchanged. */
  lemma {:induction false} BacklogStays(d: Desk, groups: seq<Group>, now: Time, r: RepairRecord)
    requires ValidDesk(d) && r in d.repairs
    ensures var o := BackgroundRepairs(d, groups, now);
      o.Done? && r in o.desk.repairs && d.mem.nextId <= o.desk.mem.nextId
  {
    if groups != [] {
      hide BackgroundRepair;
      var n := |groups| - 1;
      BacklogStays(d, groups[..n], now, r);
      BackgroundLoopNeverRaises(d, groups[..n], now);
      GroupKeepsBacklog(BackgroundRepairs(d, groups[..n], now).desk, groups[n].scopes, groups[n].subject,
                        groups[n].pred, now, r);
    }
  }

  // ------------------------------------------------------------------------------ undo

  /** The run applied its repair, and no other apply of that repair completed as late. */
  ghost predicate LastApplied(runs: seq<ActionRun>, run: ActionRun) {
    && run in runs && run.action == ApplyAction
    && (forall r :: r in runs && r.repairId == run.repairId && r.action == ApplyAction && r != run
          ==> r.completedAt < run.completedAt)
  }

  /** Rollback undoes the apply run that completed last. */
  lemma {:induction false} LastApplyPrior(d: Desk, repairId: Id, run: ActionRun)
    requires LastApplied(d.runs, run) && run.repairId == repairId
    ensures PriorApply(d, repairId) == Some(run)
  {
    var own := Filter(d.runs, (r: ActionRun) => r.repairId == repairId);
    var listed := SortBy(own, NewestRunFirst);
    var applies := Applies(listed);
    SortSorts(own, NewestRunFirst);
    SortMember(own, NewestRunFirst, run);
    assert run in own && run in listed && run in applies;
    assert applies[0] in applies && applies[0] in listed;
    SortMember(own, NewestRunFirst, applies[0]);
    if applies[0] != run {
      FirstIsNewest(listed, run);
    }
  }

  lemma {:induction false} NewestBefore(listed: seq<ActionRun>, first: ActionRun, run: ActionRun)
    requires SortedBy(listed, NewestRunFirst) && listed != []
    requires first in listed && run == listed[|listed| - 1]
    ensures first.completedAt >= run.completedAt
  {
    var i :| 0 <= i < |listed| && listed[i] == first;
    if i < |listed| - 1 {
      assert KeyLe(NewestRunFirst(listed[i]), NewestRunFirst(listed[|listed| - 1]));
    }
  }

  lemma {:induction false} FirstIsNewest(listed: seq<ActionRun>, run: ActionRun)
    requires SortedBy(listed, NewestRunFirst) && run in Applies(listed)
    ensures Applies(listed)[0].completedAt >= run.completedAt
  {
    var n := |listed| - 1;
    var front := Applies(listed[..n]);
    assert Applies(listed)[0] in Applies(listed);
    if run in front {
      FirstIsNewest(listed[..n], run);
      assert Applies(listed)[0] == front[0];
    } else {
      assert run == listed[n];
      NewestBefore(listed, Applies(listed)[0], run);
    }
  }

  /** The restored statuses of a repair whose facts are still the same are the previous ones. */
  lemma {:induction false} RestoresPrevious(before: seq<Fact>, now_: seq<Fact>)
    requires OneEach(before) && OneEach(now_) && Ids(now_) == Ids(before)
    ensures RestoredStatuses(now_, StatusMap(before)) == StatusMap(before)
  {
    var previous := StatusMap(before);
    var restored := RestoredStatuses(now_, previous);
    forall i | 0 <= i < |now_|
      ensures now_[i].id in previous && now_[i].id in restored && restored[now_[i].id] == previous[now_[i].id]
    {
      assert Ids(now_)[i] == Ids(before)[i];
      StatusRule(before, before[i]);
      RestoredRule(now_, previous, now_[i]);
    }
    forall id
      ensures id in restored <==> id in previous
      ensures id in restored ==> restored[id] == previous[id]
    {
      if id in restored {
        RestoredKeys(now_, previous, id);
        var f :| f in now_ && f.id == id;
        var i :| 0 <= i < |now_| && now_[i] == f;
      }
      if id in previous {
        StatusKeys(before, id);
        var f :| f in before && f.id == id;
        var i :| 0 <= i < |before| && before[i] == f;
        assert Ids(now_)[i] == Ids(before)[i];
      }
    }
  }

  ghost predicate SameFacts(a: seq<Fact>, b: seq<Fact>) {
    Ids(a) == Ids(b) && |a| == |b| && forall i :: 0 <= i < |a| ==> LineOf(a[i]) == LineOf(b[i])
  }

  /** The situation in which a rollback is asked for: the given apply is the last one of the
      repair to have completed, and its facts are still visible, whatever else happened. */
  ghost predicate UndoPoint(d: Desk, d2: Desk, repair: RepairRecord, run: ActionRun) {
    && ValidMem(d.mem) && ValidMem(d2.mem)
    && FindRepair(d2.repairs, repair.id).Some? && FindRepair(d2.repairs, repair.id).value.factIds == repair.factIds
    && LastApplied(d2.runs, run) && run.repairId == repair.id
    && run.previous == StatusMap(RepairFacts(d.mem, repair.factIds))
    && SameFacts(RepairFacts(d.mem, repair.factIds), RepairFacts(d2.mem, repair.factIds))
  }

  /** Undo: rolling back writes every fact of the repair its status from before the apply and
      leaves all other facts alone; the active count returns to the one before the apply, and
      every fact counts as restored. No status needs to have survived in between. */
  lemma {:induction false} RollbackUndoes(d: Desk, d2: Desk, repair: RepairRecord, run: ActionRun, now: Time)
    requires UndoPoint(d, d2, repair, run)
    ensures var o := RollbackRepair(d2, repair.id, now);
      && o.Done?
      && o.desk.mem.facts == WithStatuses(d2.mem.facts, StatusMap(RepairFacts(d.mem, repair.factIds)))
      && o.desk.analytics == d2.analytics
           + [Analytics(repair.id, RollbackAction, CountActive(run.updated), CountActive(run.previous), |run.previous|)]
  {
    LastApplyPrior(d2, repair.id, run);
    RepairFactsVisible(d.mem, repair.factIds);
    RepairFactsVisible(d2.mem, repair.factIds);
    RestoresPrevious(RepairFacts(d.mem, repair.factIds), RepairFacts(d2.mem, repair.factIds));
    AllRestored(run.previous);
  }

  lemma {:induction false} AllRestored(previous: map<Id, Status>)
    ensures CountRestored(previous, previous) == |previous|
  {
    assert (set id | id in previous && id in previous && previous[id] == previous[id]) == previous.Keys;
  }

  lemma {:induction false} FindAfterStatus(repairs: seq<RepairRecord>, id: Id, status: RepairStatus)
    requires FindRepair(repairs, id).Some?
    ensures FindRepair(WithRepairStatus(repairs, id, status), id) == Some(FindRepair(repairs, id).value.(status := status))
  {
    var n := |repairs| - 1;
    if repairs[n].id != id {
      FindAfterStatus(repairs[..n], id, status);
      assert WithRepairStatus(repairs, id, status)[..n] == WithRepairStatus(repairs[..n], id, status);
    }
  }

  ghost predicate SameFound(a: Option<Fact>, b: Option<Fact>) {
    (a.Some? <==> b.Some?) && (a.Some? && b.Some? ==> a.value.id == b.value.id && LineOf(a.value) == LineOf(b.value))
  }

  lemma {:induction false} PickAlike(a: seq<Fact>, b: seq<Fact>, ids: seq<Id>)
    requires forall id :: SameFound(Lookup(a, id), Lookup(b, id))
    ensures SameFacts(Pick(a, ids), Pick(b, ids))
  {
    if ids != [] {
      PickAlike(a, b, ids[..|ids| - 1]);
      assert SameFound(Lookup(a, ids[|ids| - 1]), Lookup(b, ids[|ids| - 1]));
    }
  }

  lemma {:induction false} LookupAlike(m: Mem, m': Mem, st: map<Id, Status>, id: Id)
    requires ValidMem(m) && ValidMem(m') && m'.tombstones == m.tombstones
    requires m'.facts == WithStatuses(m.facts, st)
    ensures SameFound(Lookup(AllVisible(m), id), Lookup(AllVisible(m'), id))
  {
    var a, b := Lookup(AllVisible(m), id), Lookup(AllVisible(m'), id);
    if a.Some? {
      RewrittenMember(m.facts, st, a.value);
      LookupFinds(m', Rewritten(a.value, st));
    }
    if b.Some? {
      var f := RewrittenOrigin(m.facts, st, b.value);
      assert FactVisible(m, f);
      LookupFinds(m, f);
    }
  }

  /** Writing statuses does not change which facts a repair finds. */
  lemma {:induction false} VisibleAlike(m: Mem, st: map<Id, Status>, ids: seq<Id>)
    requires ValidMem(m)
    ensures var m' := m.(facts := WithStatuses(m.facts, st));
      ValidMem(m') && SameFacts(RepairFacts(m, ids), RepairFacts(m', ids))
  {
    var m' := m.(facts := WithStatuses(m.facts, st));
    Runs.StatusesAlike(m.facts, st);
    Runs.AlikeValid(m, m'.facts);
    forall id
      ensures SameFound(Lookup(AllVisible(m), id), Lookup(AllVisible(m'), id))
    {
      LookupAlike(m, m', st, id);
    }
    PickAlike(AllVisible(m), AllVisible(m'), ids);
  }

  /** Right after an apply, a rollback is asked for at its undo point. */
  lemma {:induction false} UndoPointAfterApply(d: Desk, repairId: Id, now: Time)
    requires ValidMem(d.mem) && ApplyRepair(d, repairId, now).Done?
    requires forall r :: r in d.runs && r.repairId == repairId && r.action == ApplyAction ==> r.completedAt < now
    ensures var repair := FindRepair(d.repairs, repairId).value;
      var facts := RepairFacts(d.mem, repair.factIds);
      UndoPoint(d, ApplyRepair(d, repairId, now).desk, repair,
                ActionRun(repairId, ApplyAction, StatusMap(facts), AppliedStatuses(facts, Latest(facts)), now))
  {
    var repair := FindRepair(d.repairs, repairId).value;
    var facts := RepairFacts(d.mem, repair.factIds);
    var st := AppliedStatuses(facts, Latest(facts));
    var d1, run := Applying(d, repair, facts, now), ActionRun(repairId, ApplyAction, StatusMap(facts), st, now);
    var m1 := AppliedMem(d.mem, facts);
    assert ApplyRepair(d, repairId, now) == Done(d1);
    FindAfterStatus(d.repairs, repairId, Applied);
    NewestApplied(d.runs, run);
    VisibleAlike(d.mem, st, repair.factIds);
    RefreshedDerived(m1, repair.scopeKeys, facts, now);
    Upkeep.DerivedValid(m1, d1.mem);
    SameRepairFacts(m1, d1.mem, repair.factIds);
  }

  lemma {:induction false} SameRepairFacts(m: Mem, m': Mem, ids: seq<Id>)
    requires Upkeep.Derived(m, m')
    ensures RepairFacts(m', ids) == RepairFacts(m, ids)
  {
    FilterCongruence(m.facts, (f: Fact) => FactVisible(m', f), (f: Fact) => FactVisible(m, f));
  }

  lemma {:induction false} NewestApplied(runs: seq<ActionRun>, run: ActionRun)
    requires run.action == ApplyAction
    requires forall r :: r in runs && r.repairId == run.repairId && r.action == ApplyAction ==> r.completedAt < run.completedAt
    ensures LastApplied(runs + [run], run)
  {
  }

  /** With no write in between, apply and rollback together leave the facts exactly as they were. */
  lemma {:induction false} ApplyThenRollback(d: Desk, repairId: Id, now: Time, later: Time)
    requires ValidMem(d.mem) && ApplyRepair(d, repairId, now).Done?
    requires forall r :: r in d.runs && r.repairId == repairId && r.action == ApplyAction ==> r.completedAt < now
    ensures var o := RollbackRepair(ApplyRepair(d, repairId, now).desk, repairId, later);
      o.Done? && o.desk.mem.facts == d.mem.facts
  {
    var repair := FindRepair(d.repairs, repairId).value;
    var facts := RepairFacts(d.mem, repair.factIds);
    var run := ActionRun(repairId, ApplyAction, StatusMap(facts), AppliedStatuses(facts, Latest(facts)), now);
    UndoPointAfterApply(d, repairId, now);
    AppliedFacts(d, repairId, now);
    hide ApplyRepair, RollbackRepair, AppliedMem, RepairFacts, WithStatuses;
    RollbackUndoes(d, ApplyRepair(d, repairId, now).desk, repair, run, later);
    StatusesUndone(d.mem, facts, repair.factIds);
  }

  /** An apply that is done changes the facts by its statuses only. */
  lemma {:induction false} AppliedFacts(d: Desk, repairId: Id, now: Time)
    requires ApplyRepair(d, repairId, now).Done?
    ensures var facts := RepairFacts(d.mem, FindRepair(d.repairs, repairId).value.factIds);
      facts != [] && ApplyRepair(d, repairId, now).desk.mem.facts == AppliedMem(d.mem, facts).facts
  {
    var repair := FindRepair(d.repairs, repairId).value;
    var facts := RepairFacts(d.mem, repair.factIds);
    RefreshedDerived(AppliedMem(d.mem, facts), repair.scopeKeys, facts, now);
  }

  lemma {:induction false} StatusesUndone(m: Mem, facts: seq<Fact>, ids: seq<Id>)
    requires ValidMem(m) && facts == RepairFacts(m, ids) && facts != []
    ensures WithStatuses(AppliedMem(m, facts).facts, StatusMap(facts)) == m.facts
  {
    var st := AppliedStatuses(facts, Latest(facts));
    var back := WithStatuses(AppliedMem(m, facts).facts, StatusMap(facts));
    RepairFactsVisible(m, ids);
    forall i | 0 <= i < |m.facts|
      ensures back[i] == m.facts[i]
    {
      var f := m.facts[i];
      AppliedRule(facts, Latest(facts), f.id);
      if f.id in StatusMap(facts) {
        StatusKeys(facts, f.id);
        var g :| g in facts && g.id == f.id;
        IncreasingInjective(m.facts, FactId, f, g);
        StatusRule(facts, f);
      } else if f.id in st {
        var g :| g in facts && g.id == f.id;
        StatusRule(facts, g);
      }
    }
  }

  // ---------------------------------------------------------- one active fact per storyline

  ghost predicate Shown(m: Mem, f: Fact) {
    f in m.facts && FactVisible(m, f) && f.status.Active?
  }

  /** Every storyline has at most one visible active fact. */
  ghost predicate OneActive(m: Mem) {
    forall f, g :: Shown(m, f) && Shown(m, g) && LineOf(f) == LineOf(g) ==> f == g
  }

  predicate Activates(m: Mem, st: map<Id, Status>, f: Fact) {
    f in m.facts && FactVisible(m, f) && f.id in st && st[f.id] == Active
  }

  /** A status write makes f active while g, which it does not write, is active beside it. */
  ghost predicate Clash(m: Mem, st: map<Id, Status>, f: Fact, g: Fact) {
    && Activates(m, st, f)
    && Shown(m, g) && g.id !in st
    && LineOf(f) == LineOf(g)
  }

  lemma {:induction false} ShownAfter(m: Mem, st: map<Id, Status>, f: Fact)
    requires f in m.facts && FactVisible(m, f)
    ensures Shown(m.(facts := WithStatuses(m.facts, st)), Rewritten(f, st)) <==> Rewritten(f, st).status.Active?
  {
    RewrittenMember(m.facts, st, f);
  }

  /** A status write does not itself activate two facts of one storyline. */
  ghost predicate ActivatesOnce(m: Mem, st: map<Id, Status>) {
    forall f, g :: Activates(m, st, f) && Activates(m, st, g) && LineOf(f) == LineOf(g) ==> f == g
  }

  lemma {:induction false} ClashBreaks(m: Mem, st: map<Id, Status>, f: Fact, g: Fact)
    requires ValidMem(m) && Clash(m, st, f, g)
    ensures !OneActive(m.(facts := WithStatuses(m.facts, st)))
  {
    ShownAfter(m, st, f);
    ShownAfter(m, st, g);
    assert LineOf(Rewritten(f, st)) == LineOf(Rewritten(g, st));
    assert Rewritten(f, st).id != Rewritten(g, st).id;
  }

  /** Such a write keeps the storylines unique exactly when it does not clash with an active fact
      that it leaves alone. */
  lemma {:induction false} WriteKeepsOneIff(m: Mem, st: map<Id, Status>)
    requires ValidMem(m) && OneActive(m) && ActivatesOnce(m, st)
    ensures OneActive(m.(facts := WithStatuses(m.facts, st))) <==> !exists f, g :: Clash(m, st, f, g)
  {
    var m' := m.(facts := WithStatuses(m.facts, st));
    if exists f, g :: Clash(m, st, f, g) {
      var f, g :| Clash(m, st, f, g);
      ClashBreaks(m, st, f, g);
    } else {
      forall x, y | Shown(m', x) && Shown(m', y) && LineOf(x) == LineOf(y)
        ensures x == y
      {
        var f := RewrittenOrigin(m.facts, st, x);
        var g := RewrittenOrigin(m.facts, st, y);
        assert FactVisible(m, f) && FactVisible(m, g);
        assert Activates(m, st, f) || Shown(m, f);
        assert Activates(m, st, g) || Shown(m, g);
        assert !Clash(m, st, f, g) && !Clash(m, st, g, f);
      }
    }
  }

  lemma {:induction false} AppliedActivates(m: Mem, ids: seq<Id>, f: Fact)
    requires ValidMem(m) && RepairFacts(m, ids) != [] && f in m.facts
    ensures var facts := RepairFacts(m, ids);
      var st := AppliedStatuses(facts, Latest(facts));
      (f.id in st <==> f.id in Ids(facts)) && (Activates(m, st, f) <==> f == Latest(facts))
  {
    var facts := RepairFacts(m, ids);
    RepairFactsVisible(m, ids);
    AppliedRule(facts, Latest(facts), f.id);
    ListedId(facts, f.id);
    IncreasingInjective(m.facts, FactId, Latest(facts), if f.id == Latest(facts).id then f else Latest(facts));
  }

  /** Applying a repair keeps the storylines unique exactly when no active fact outside the
      repair shares the storyline of the fact it makes active. */
  lemma {:induction false} ApplyKeepsOneIff(m: Mem, ids: seq<Id>)
    requires ValidMem(m) && OneActive(m) && RepairFacts(m, ids) != []
    ensures var facts := RepairFacts(m, ids);
      OneActive(AppliedMem(m, facts))
      <==> !exists g :: Shown(m, g) && g.id !in Ids(facts) && LineOf(g) == LineOf(Latest(facts))
  {
    var facts := RepairFacts(m, ids);
    var latest := Latest(facts);
    var st := AppliedStatuses(facts, latest);
    RepairFactsVisible(m, ids);
    forall f | f in m.facts
      ensures (f.id in st <==> f.id in Ids(facts)) && (Activates(m, st, f) <==> f == latest)
    {
      AppliedActivates(m, ids, f);
    }
    WriteKeepsOneIff(m, st);
    forall g | Shown(m, g) && g.id !in Ids(facts) && LineOf(g) == LineOf(latest)
      ensures Clash(m, st, latest, g)
    {
    }
  }

  lemma {:induction false} ListedId(facts: seq<Fact>, id: Id)
    ensures id in Ids(facts) <==> exists f :: f in facts && f.id == id
  {
    if id in Ids(facts) {
      var i :| 0 <= i < |Ids(facts)| && Ids(facts)[i] == id;
      assert facts[i] in facts;
    }
    if exists f :: f in facts && f.id == id {
      var f :| f in facts && f.id == id;
      var i :| 0 <= i < |facts| && facts[i] == f;
      assert Ids(facts)[i] == id;
    }
  }

  /** A repair of facts that are all still active keeps every storyline unique. */
  lemma {:induction false} ApplyToActiveKeepsOne(m: Mem, ids: seq<Id>)
    requires ValidMem(m) && OneActive(m) && RepairFacts(m, ids) != []
    requires forall f :: f in RepairFacts(m, ids) ==> f.status.Active?
    ensures OneActive(AppliedMem(m, RepairFacts(m, ids)))
  {
    var facts := RepairFacts(m, ids);
    RepairFactsVisible(m, ids);
    ApplyKeepsOneIff(m, ids);
    forall g | Shown(m, g) && LineOf(g) == LineOf(Latest(facts))
      ensures g.id in Ids(facts)
    {
      assert Shown(m, Latest(facts));
      ListedId(facts, g.id);
    }
  }

  lemma {:induction false} RestoredOrigin(d: Desk, d2: Desk, repair: RepairRecord, run: ActionRun, f: Fact) returns (b: Fact)
    requires UndoPoint(d, d2, repair, run) && Activates(d2.mem, run.previous, f)
    ensures Shown(d.mem, b) && b.id == f.id && LineOf(b) == LineOf(f)
  {
    var before, after := RepairFacts(d.mem, repair.factIds), RepairFacts(d2.mem, repair.factIds);
    RepairFactsVisible(d.mem, repair.factIds);
    RepairFactsVisible(d2.mem, repair.factIds);
    StatusKeys(before, f.id);
    b :| b in before && b.id == f.id;
    StatusRule(before, b);
    var i :| 0 <= i < |before| && before[i] == b;
    assert Ids(after)[i] == Ids(before)[i];
    assert after[i] in after;
    IncreasingInjective(d2.mem.facts, FactId, f, after[i]);
  }

  /** Rolling back keeps the storylines unique exactly when no fact written active since then
      shares the storyline of a fact that becomes active again. */
  lemma {:induction false} RollbackKeepsOneIff(d: Desk, d2: Desk, repair: RepairRecord, run: ActionRun, now: Time)
    requires UndoPoint(d, d2, repair, run) && OneActive(d.mem) && OneActive(d2.mem)
    ensures var o := RollbackRepair(d2, repair.id, now);
      o.Done? && (OneActive(o.desk.mem) <==> !exists f, g :: Clash(d2.mem, run.previous, f, g))
  {
    RollbackUndoes(d, d2, repair, run, now);
    forall f, g | Activates(d2.mem, run.previous, f) && Activates(d2.mem, run.previous, g) && LineOf(f) == LineOf(g)
      ensures f == g
    {
      var a := RestoredOrigin(d, d2, repair, run, f);
      var b := RestoredOrigin(d, d2, repair, run, g);
      IncreasingInjective(d2.mem.facts, FactId, f, g);
    }
    WriteKeepsOneIff(d2.mem, run.previous);
  }

  // ------------------------------------------------------------- what a repair does not do

  /** A repair closes no interval: a fact it supersedes still answers every as-of query that it
      answered before, and, if its interval was open, the query without an instant as well. */
  lemma {:induction false} RepairedStaysRelevant(m: Mem, ids: seq<Id>, f: Fact, t: Time)
    requires ValidMem(m) && RepairFacts(m, ids) != [] && f in RepairFacts(m, ids) && f != Latest(RepairFacts(m, ids))
    ensures var m' := AppliedMem(m, RepairFacts(m, ids));
      exists g :: g in m'.facts && g.id == f.id && g.status.Superseded?
        && (RelevantAt(g, t) <==> RelevantAt(f, t))
        && (RelevantNow(g) <==> f.validUntil.None?)
  {
    hide RepairFacts, Latest, AppliedStatuses, ValidMem;
    var facts := RepairFacts(m, ids);
    var st := AppliedStatuses(facts, Latest(facts));
    RepairFactsVisible(m, ids);
    AppliedRule(facts, Latest(facts), f.id);
    RewrittenMember(m.facts, st, f);
  }
}
