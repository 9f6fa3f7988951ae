/** The repair dictionaries beside the memory engine they repair, updated in place. Each method
    leaves exactly the desk that the operation of the same name specifies (memory/matrix.py). */
module RepairEngine {
  import opened Prelude
  import opened Records
  import opened FactStore
  import opened Repair
  import RepairLaws
  import Upkeep
  import Mx = Matrix

  /** The first of the facts that start latest: `max(facts, key=...)`. */
  method FindLatest(facts: seq<Fact>) returns (latest: Fact)
    requires facts != []
    ensures latest == Latest(facts)
  {
    latest := facts[0];
    for i := 1 to |facts|
      invariant latest == Latest(facts[..i])
    {
      assert facts[..i + 1][..i] == facts[..i];
      if StartOf(facts[i]) > StartOf(latest) {
        latest := facts[i];
      }
    }
    assert facts[..|facts|] == facts;
  }

  /** Count the hold signals of a scope group. */
  method CountHolds(assessments: seq<Assessment>, scopes: seq<string>) returns (holds: nat)
    ensures holds == Holds(assessments, scopes)
  {
    holds := 0;
    for i := 0 to |assessments|
      invariant holds == Holds(assessments[..i], scopes)
    {
      assert assessments[..i + 1][..i] == assessments[..i];
      if SameScopes(assessments[i].scopeKeys, scopes) && assessments[i].recommendation != Apply {
        holds := holds + 1;
      }
    }
    assert assessments[..|assessments|] == assessments;
  }

  method CountRollbacksOf(analytics: seq<Analytics>, repairId: Id) returns (rollbacks: nat)
    ensures rollbacks == RollbacksOf(analytics, repairId)
  {
    rollbacks := 0;
    for i := 0 to |analytics|
      invariant rollbacks == RollbacksOf(analytics[..i], repairId)
    {
      assert analytics[..i + 1][..i] == analytics[..i];
      if analytics[i].repairId == repairId && analytics[i].action == RollbackAction {
        rollbacks := rollbacks + 1;
      }
    }
    assert analytics[..|analytics|] == analytics;
  }

  /** Count the rollbacks logged for the repairs of a scope group. */
  method CountRollbacks(repairs: seq<RepairRecord>, analytics: seq<Analytics>, scopes: seq<string>) returns (rollbacks: nat)
    ensures rollbacks == Rollbacks(repairs, analytics, scopes)
  {
    rollbacks := 0;
    for i := 0 to |repairs|
      invariant rollbacks == Rollbacks(repairs[..i], analytics, scopes)
    {
      assert repairs[..i + 1][..i] == repairs[..i];
      if SameScopes(repairs[i].scopeKeys, scopes) {
        var own := CountRollbacksOf(analytics, repairs[i].id);
        rollbacks := rollbacks + own;
      }
    }
    assert repairs[..|repairs|] == repairs;
  }

  class RepairDesk {
    const matrix: Mx.MemoryMatrix
    var repairs: seq<RepairRecord>
    var assessments: seq<Assessment>
    var analytics: seq<Analytics>
    var runs: seq<ActionRun>
    var learning: map<string, Learning>

    constructor (matrix: Mx.MemoryMatrix)
      ensures this.matrix == matrix && View() == Desk(matrix.View(), [], [], [], [], map[])
    {
      this.matrix := matrix;
      repairs, assessments, analytics, runs, learning := [], [], [], [], map[];
    }

    function View(): Desk
      reads this, matrix, matrix.facts.Values, matrix.segments.Values
    {
      Desk(matrix.View(), repairs, assessments, analytics, runs, learning)
    }

    /** The active facts of a subject and predicate, scope by scope. */
    method GatherActive(scopes: seq<string>, subject: string, pred: string) returns (facts: seq<Fact>)
      ensures facts == ActiveAcross(matrix.View(), scopes, subject, pred)
    {
      facts := [];
      for i := 0 to |scopes|
        invariant facts == ActiveAcross(matrix.View(), scopes[..i], subject, pred)
      {
        assert scopes[..i + 1][..i] == scopes[..i];
        facts := facts + ActiveFacts(matrix.View(), Line(scopes[i], subject, pred));
      }
      assert scopes[..|scopes|] == scopes;
    }

    /** repair_cross_scope_contradictions */
    method DetectConflict(scopes: seq<string>, subject: string, pred: string) returns (found: Option<RepairRecord>)
      requires matrix.Valid()
      modifies `repairs, matrix`nextId
      ensures matrix.Valid() && View() == Detect(old(View()), scopes, subject, pred)
      ensures found == Detected(old(View()), scopes, subject, pred)
    {
      hide Mx.MemoryMatrix.View, Mx.MemoryMatrix.Valid, ActiveAcross, StatesOf, SortStrings, Ids, Latest;
      var facts := GatherActive(scopes, subject, pred);
      NoFactsNoStates(facts);
      if |StatesOf(facts)| <= 1 {
        return None;
      }
      var latest := FindLatest(facts);
      var id := matrix.IssueId();
      var repair := RepairRecord(id, SortStrings(scopes), subject, pred, Ids(facts), latest.obj, Recommended);
      repairs := repairs + [repair];
      found := Some(repair);
    }

    /** train_repair_controller */
    method TrainController(scopes: seq<string>)
      modifies `learning
      ensures View() == Train(old(View()), scopes)
    {
      hide Mx.MemoryMatrix.View, Mx.MemoryMatrix.Valid, Holds, Rollbacks, GroupKey, Learn;
      var holds := CountHolds(assessments, scopes);
      var rollbacks := CountRollbacks(repairs, analytics, scopes);
      learning := learning[GroupKey(scopes) := Learn(holds, rollbacks)];
    }

    /** run_contradiction_repair_canary */
    method RunCanary(scopes: seq<string>, subject: string, pred: string, now: Time) returns (verdict: Verdict)
      requires matrix.Valid()
      modifies `repairs, `assessments, matrix`nextId
      ensures matrix.Valid() && View() == Canary(old(View()), scopes, subject, pred, now)
      ensures verdict == CanaryVerdict(old(View()), scopes, subject, pred, now)
    {
      hide Mx.MemoryMatrix.View, Mx.MemoryMatrix.Valid, Detected, AssessmentOf;
      var learned := Load(View(), scopes);
      var found := DetectConflict(scopes, subject, pred);
      if found.None? {
        return Verdict([], Hold);
      }
      var assessment := AssessmentOf(View(), found.value, learned, now);
      assessments := assessments + [assessment];
      verdict := Verdict([found.value.id], assessment.recommendation);
    }

    /** Refresh the project states of a repair's facts, scope by scope. */
    method Refresh(scopes: seq<string>, facts: seq<Fact>, now: Time)
      requires matrix.Valid()
      modifies matrix`segmentOrder, matrix`segments, matrix`nextId, matrix`snapshots, matrix.segments.Values
      ensures matrix.Valid() && matrix.View() == Refreshed(old(matrix.View()), scopes, facts, now)
      ensures forall id :: id in matrix.segments ==>
        matrix.segments[id] in old(matrix.segments).Values || fresh(matrix.segments[id])
    {
      hide Mx.MemoryMatrix.View, Mx.MemoryMatrix.Valid, Upkeep.ProjectStates, Upkeep.Subjects, Filter;
      for i := 0 to |scopes|
        invariant matrix.Valid() && matrix.View() == Refreshed(old(matrix.View()), scopes[..i], facts, now)
        invariant forall id :: id in matrix.segments ==>
          matrix.segments[id] in old(matrix.segments).Values || fresh(matrix.segments[id])
      {
        assert scopes[..i + 1][..i] == scopes[..i];
        var own := Filter(facts, (f: Fact) => f.scope == scopes[i]);
        matrix.ReconstructProjectStates(scopes[i], Upkeep.Subjects(own), now);
      }
      assert scopes[..|scopes|] == scopes;
    }

    /** A repair finds its facts under their ids. */
    lemma {:induction false} Stored(ids: seq<Id>)
      requires matrix.Valid()
      ensures forall id :: id in Ids(RepairFacts(matrix.View(), ids)) ==> id in matrix.facts
    {
      var picked := RepairFacts(matrix.View(), ids);
      RepairLaws.PickVisible(AllVisible(matrix.View()), ids);
      forall i | 0 <= i < |picked|
        ensures picked[i].id in matrix.facts
      {
        assert picked[i] in AllVisible(matrix.View());
        matrix.StoredFact(picked[i]);
      }
    }

    static lemma {:induction false} AppliedKeys(facts: seq<Fact>)
      requires facts != []
      ensures forall id :: id in Ids(facts) <==> id in AppliedStatuses(facts, Latest(facts))
    {
      forall id
        ensures id in Ids(facts) <==> id in AppliedStatuses(facts, Latest(facts))
      {
        RepairLaws.AppliedRule(facts, Latest(facts), id);
        RepairLaws.ListedId(facts, id);
      }
    }

    /** The writes of apply_contradiction_repair once its gate is passed */
    method ApplyTo(repair: RepairRecord, facts: seq<Fact>, now: Time)
      requires matrix.Valid() && facts != [] && facts == RepairFacts(matrix.View(), repair.factIds)
      modifies this, matrix`segmentOrder, matrix`segments, matrix`nextId, matrix`snapshots
      modifies matrix.facts.Values, matrix.segments.Values
      ensures matrix.Valid() && View() == Applying(old(View()), repair, facts, now)
    {
      hide Mx.MemoryMatrix.View, Mx.MemoryMatrix.Valid, RepairFacts, AppliedStatuses, StatusMap, WithRepairStatus, Refreshed, CountActive, Ids,
           WithStatuses;
      var latest := FindLatest(facts);
      var previous, updated := StatusMap(facts), AppliedStatuses(facts, latest);
      Stored(repair.factIds);
      AppliedKeys(facts);
      matrix.WriteStatuses(Ids(facts), updated);
      repairs := WithRepairStatus(repairs, repair.id, Applied);
      Refresh(repair.scopeKeys, facts, now);
      runs := runs + [ActionRun(repair.id, ApplyAction, previous, updated, now)];
      analytics := analytics + [Analytics(repair.id, ApplyAction, CountActive(previous), CountActive(updated), 0)];
    }

    /** apply_contradiction_repair; when it raises, nothing has changed. */
    method ApplyContradictionRepair(repairId: Id, now: Time) returns (raised: Option<Error>)
      requires matrix.Valid()
      modifies this, matrix`segmentOrder, matrix`segments, matrix`nextId, matrix`snapshots
      modifies matrix.facts.Values, matrix.segments.Values
      ensures matrix.Valid()
      ensures match ApplyRepair(old(View()), repairId, now)
        case Done(desk) => raised == None && View() == desk
        case Raised(error) => raised == Some(error) && View() == old(View())
    {
      hide Mx.MemoryMatrix.View, Mx.MemoryMatrix.Valid, RepairFacts, Applying, LatestAssessment;
      var found := FindRepair(repairs, repairId);
      if found.None? {
        return Some(KeyError);
      }
      var assessment := LatestAssessment(View(), found.value);
      if assessment.Some? && assessment.value.recommendation != Apply {
        return Some(ValueError);
      }
      var facts := RepairFacts(matrix.View(), found.value.factIds);
      if facts == [] {
        return Some(KeyError);
      }
      ApplyTo(found.value, facts, now);
      raised := None;
    }

    static lemma {:induction false} RestoredHas(facts: seq<Fact>, previous: map<Id, Status>, f: Fact)
      requires f in facts
      ensures f.id in RestoredStatuses(facts, previous)
    {
      var front, last := facts[..|facts| - 1], facts[|facts| - 1];
      assert facts == front + [last];
      if f != last {
        RestoredHas(front, previous, f);
      }
    }

    static lemma {:induction false} RestoredIds(facts: seq<Fact>, previous: map<Id, Status>)
      ensures forall id :: id in Ids(facts) <==> id in RestoredStatuses(facts, previous)
    {
      forall id
        ensures id in Ids(facts) <==> id in RestoredStatuses(facts, previous)
      {
        RepairLaws.ListedId(facts, id);
        if id in RestoredStatuses(facts, previous) {
          RepairLaws.RestoredKeys(facts, previous, id);
        }
        if exists f :: f in facts && f.id == id {
          var f :| f in facts && f.id == id;
          RestoredHas(facts, previous, f);
        }
      }
    }

    /** rollback_contradiction_repair; when it raises, nothing has changed. */
    method RollbackContradictionRepair(repairId: Id, now: Time) returns (raised: Option<Error>)
      requires matrix.Valid()
      modifies this, matrix.facts.Values
      ensures matrix.Valid()
      ensures match RollbackRepair(old(View()), repairId, now)
        case Done(desk) => raised == None && View() == desk
        case Raised(error) => raised == Some(error) && View() == old(View())
    {
      hide Mx.MemoryMatrix.View, Mx.MemoryMatrix.Valid, RepairFacts, PriorApply, RestoredStatuses, WithRepairStatus, CountActive, CountRestored,
           Ids, WithStatuses;
      var found := FindRepair(repairs, repairId);
      if found.None? {
        return Some(KeyError);
      }
      var prior := PriorApply(View(), repairId);
      if prior.None? {
        return Some(KeyError);
      }
      var facts := RepairFacts(matrix.View(), found.value.factIds);
      var restored := RestoredStatuses(facts, prior.value.previous);
      Stored(found.value.factIds);
      RestoredIds(facts, prior.value.previous);
      matrix.WriteStatuses(Ids(facts), restored);
      repairs := WithRepairStatus(repairs, repairId, RolledBack);
      runs := runs + [ActionRun(repairId, RollbackAction, prior.value.updated, restored, now)];
      analytics := analytics + [Analytics(repairId, RollbackAction, CountActive(prior.value.updated),
                                          CountActive(restored), CountRestored(restored, prior.value.previous))];
      raised := None;
    }
  }
}
