/** What the repair controller learns from: over every run, exactly the canaries that held and the
    rollbacks that were done (memory/matrix.py). */
module RepairSignals {
  import opened Prelude
  import opened Records
  import opened FactStore
  import opened Repair
  import opened RepairLearning
  import opened RepairLaws
  import opened RepairRuns
  import Runs

  // --------------------------------------------------------------------- filed under issued ids

  function RepairId(r: RepairRecord): int { r.id }

  /** Repairs are recorded under ids of their own, in issue order, and logs name issued ids only. */
  ghost predicate Filed(d: Desk) {
    && Increasing(d.repairs, RepairId)
    && (forall r :: r in d.repairs ==> r.id < d.mem.nextId)
    && (forall x :: x in d.analytics ==> x.repairId < d.mem.nextId)
  }

  lemma {:induction false} SameRepairsFiled(a: seq<RepairRecord>, b: seq<RepairRecord>, bound: Id)
    requires SameRepairs(a, b) && Increasing(a, RepairId) && forall r :: r in a ==> r.id < bound
    ensures Increasing(b, RepairId) && forall r :: r in b ==> r.id < bound
  {
    forall r | r in b
      ensures r.id < bound
    {
      var i :| 0 <= i < |b| && b[i] == r;
      assert a[i] in a;
    }
  }

  lemma {:induction false} DetectFiled(d: Desk, scopes: seq<string>, subject: string, pred: string)
    requires Filed(d)
    ensures Filed(Detect(d, scopes, subject, pred))
  {
    hide Detected;
    var d' := Detect(d, scopes, subject, pred);
    if Detected(d, scopes, subject, pred).Some? {
      DetectedId(d, scopes, subject, pred);
      var repair := Detected(d, scopes, subject, pred).value;
      forall i, j | 0 <= i < j < |d'.repairs|
        ensures RepairId(d'.repairs[i]) < RepairId(d'.repairs[j])
      {
        assert d.repairs[i] in d.repairs;
      }
    }
  }

  lemma {:induction false} DetectedId(d: Desk, scopes: seq<string>, subject: string, pred: string)
    requires Detected(d, scopes, subject, pred).Some?
    ensures var repair := Detected(d, scopes, subject, pred).value;
      repair.id == d.mem.nextId && repair.scopeKeys == SortStrings(scopes)
  {
    hide ActiveAcross, StatesOf, SortStrings;
  }

  lemma {:induction false} AppliedLogs(d: Desk, id: Id, now: Time)
    requires ApplyRepair(d, id, now).Done?
    ensures var d' := ApplyRepair(d, id, now).desk;
      && d.mem.nextId <= d'.mem.nextId && |d'.analytics| == |d.analytics| + 1 && d'.analytics[..|d.analytics|] == d.analytics
      && d'.analytics[|d.analytics|].action == ApplyAction && d'.analytics[|d.analytics|].repairId == id
      && FindRepair(d.repairs, id).Some?
  {
    hide RepairFacts, AppliedStatuses, LatestAssessment, Refreshed, StatusMap, CountActive, WithStatuses;
    var repair := FindRepair(d.repairs, id).value;
    var facts := RepairFacts(d.mem, repair.factIds);
    RefreshedDerived(AppliedMem(d.mem, facts), repair.scopeKeys, facts, now);
  }

  lemma {:induction false} RolledBackLogs(d: Desk, id: Id, now: Time)
    requires RollbackRepair(d, id, now).Done?
    ensures var d' := RollbackRepair(d, id, now).desk;
      && d'.mem.nextId == d.mem.nextId && |d'.analytics| == |d.analytics| + 1 && d'.analytics[..|d.analytics|] == d.analytics
      && d'.analytics[|d.analytics|].action == RollbackAction && d'.analytics[|d.analytics|].repairId == id
      && FindRepair(d.repairs, id).Some? && d'.assessments == d.assessments && SameRepairs(d.repairs, d'.repairs)
  {
    hide RepairFacts, RestoredStatuses, CountActive, CountRestored, WithStatuses, PriorApply;
  }

  lemma {:induction false} LoggedFiled(d: Desk, d': Desk, id: Id)
    requires Filed(d) && FindRepair(d.repairs, id).Some? && SameRepairs(d.repairs, d'.repairs) && d.mem.nextId <= d'.mem.nextId
    requires |d'.analytics| == |d.analytics| + 1 && d'.analytics[..|d.analytics|] == d.analytics
    requires d'.analytics[|d.analytics|].repairId == id
    ensures Filed(d')
  {
    SameRepairsFiled(d.repairs, d'.repairs, d.mem.nextId);
    assert d'.analytics == d.analytics + [d'.analytics[|d.analytics|]];
  }

  lemma {:induction false} DeskStepFiled(d: Desk, e: DeskEvent, now: Time)
    requires Runs.Sound(d.mem) && Filed(d)
    ensures Filed(DeskStep(d, e, now))
  {
    hide ApplyRepair, RollbackRepair, Detect, Detected, Runs.Step, AssessmentOf, SameRepairs, Runs.Sound;
    match e
    case Memory(event) => StepCounter(d.mem, event, now);
    case DetectIt(scopes, subject, pred) => DetectFiled(d, scopes, subject, pred);
    case CanaryIt(scopes, subject, pred) => DetectFiled(d, scopes, subject, pred);
    case ApplyIt(id) =>
      if ApplyRepair(d, id, now).Done? {
        AppliedFrame(d, id, now);
        AppliedLogs(d, id, now);
        LoggedFiled(d, ApplyRepair(d, id, now).desk, id);
      }
    case RollbackIt(id) =>
      if RollbackRepair(d, id, now).Done? {
        RolledBackLogs(d, id, now);
        LoggedFiled(d, RollbackRepair(d, id, now).desk, id);
      }
    case TrainIt(_) =>
  }

  // ---------------------------------------------------------------- the signals of one step

  /** One for a canary over the scopes of the group that found a conflict and did not advise to apply. */
  function StepHolds(d: Desk, e: DeskEvent, now: Time, group: seq<string>): nat {
    if e.CanaryIt? && SameScopes(e.scopes, group)
       && CanaryVerdict(d, e.scopes, e.subject, e.pred, now).repairIds != []
       && CanaryVerdict(d, e.scopes, e.subject, e.pred, now).recommendation == Hold then 1 else 0
  }

  /** One for a rollback that was done of a repair over the scopes of the group. */
  function StepRollbacks(d: Desk, e: DeskEvent, now: Time, group: seq<string>): nat {
    if e.RollbackIt? && RollbackRepair(d, e.repairId, now).Done? && FindRepair(d.repairs, e.repairId).Some?
       && SameScopes(FindRepair(d.repairs, e.repairId).value.scopeKeys, group) then 1 else 0
  }

  lemma {:induction false} HoldsOneMore(a: seq<Assessment>, x: Assessment, group: seq<string>)
    ensures Holds(a + [x], group)
         == Holds(a, group) + if SameScopes(x.scopeKeys, group) && x.recommendation == Hold then 1 else 0
  {
    assert (a + [x])[..|a|] == a;
  }

  /** A canary that holds over a conflict is one signal more for exactly the groups of its scopes; one
      that advises to apply, or finds nothing, is none. */
  lemma {:induction false} CanaryTeaches(d: Desk, scopes: seq<string>, subject: string, pred: string, now: Time, group: seq<string>)
    ensures Holds(Canary(d, scopes, subject, pred, now).assessments, group)
         == Holds(d.assessments, group) + StepHolds(d, CanaryIt(scopes, subject, pred), now, group)
  {
    hide ActiveAcross, StatesOf, SortStrings, Load, RepairFacts, Advise, SafetyScore, EffectiveScore;
    if Detected(d, scopes, subject, pred).Some? {
      var repair := Detected(d, scopes, subject, pred).value;
      var a := AssessmentOf(Detect(d, scopes, subject, pred), repair, Load(d, scopes), now);
      SortStringsMembers(scopes);
      assert Elements(repair.scopeKeys) == Elements(scopes);
      HoldsOneMore(d.assessments, a, group);
    }
  }

  lemma {:induction false} NoRollbacksOf(analytics: seq<Analytics>, id: Id)
    requires forall x :: x in analytics ==> x.repairId != id
    ensures RollbacksOf(analytics, id) == 0
  {
    if analytics != [] {
      NoRollbacksOf(analytics[..|analytics| - 1], id);
    }
  }

  lemma {:induction false} LoggedOneMore(x: seq<Analytics>, y: seq<Analytics>, id: Id)
    requires |y| == |x| + 1 && y[..|x|] == x
    ensures RollbacksOf(y, id) == RollbacksOf(x, id) + if y[|x|].repairId == id && y[|x|].action == RollbackAction then 1 else 0
  {
  }

  /** The log entry is a rollback of a repair of the group. */
  ghost predicate Concerns(repairs: seq<RepairRecord>, x: Analytics, group: seq<string>) {
    x.action == RollbackAction && exists r :: r in repairs && r.id == x.repairId && SameScopes(r.scopeKeys, group)
  }

  lemma {:induction false} ConcernsLast(repairs: seq<RepairRecord>, x: Analytics, group: seq<string>)
    requires repairs != [] && Increasing(repairs, RepairId)
    ensures var front, last := repairs[..|repairs| - 1], repairs[|repairs| - 1];
      var own := x.action == RollbackAction && last.id == x.repairId && SameScopes(last.scopeKeys, group);
      && (Concerns(repairs, x, group) <==> Concerns(front, x, group) || own)
      && !(Concerns(front, x, group) && own)
  {
    hide SameScopes;
    var n := |repairs| - 1;
    assert repairs == repairs[..n] + [repairs[n]];
    forall r | r in repairs[..n]
      ensures r.id != repairs[n].id
    {
      assert RepairId(r) < RepairId(repairs[n]);
    }
  }

  /** One more log entry adds to the signals of the group of its repair, and only if it is a rollback. */
  lemma {:induction false} LogTeaches(a: seq<RepairRecord>, b: seq<RepairRecord>, x: seq<Analytics>, y: seq<Analytics>, group: seq<string>)
    requires SameRepairs(a, b) && Increasing(a, RepairId)
    requires |y| == |x| + 1 && y[..|x|] == x
    ensures Rollbacks(b, y, group) == Rollbacks(a, x, group) + if Concerns(a, y[|x|], group) then 1 else 0
  {
    if a != [] {
      hide SameScopes, RollbacksOf, Concerns;
      var n := |a| - 1;
      LogTeaches(a[..n], b[..n], x, y, group);
      LoggedOneMore(x, y, a[n].id);
      ConcernsLast(a, y[|x|], group);
    }
  }

  lemma {:induction false} FoundIsUnique(repairs: seq<RepairRecord>, id: Id, group: seq<string>)
    requires Increasing(repairs, RepairId) && FindRepair(repairs, id).Some?
    ensures (exists r :: r in repairs && r.id == id && SameScopes(r.scopeKeys, group))
       <==> SameScopes(FindRepair(repairs, id).value.scopeKeys, group)
  {
    var found := FindRepair(repairs, id).value;
    forall r | r in repairs && r.id == id
      ensures r == found
    {
      IncreasingInjective(repairs, RepairId, r, found);
    }
  }

  lemma {:induction false} DetectTeachesNothing(d: Desk, scopes: seq<string>, subject: string, pred: string, group: seq<string>)
    requires Filed(d)
    ensures var d' := Detect(d, scopes, subject, pred);
      && Holds(d'.assessments, group) == Holds(d.assessments, group)
      && Rollbacks(d'.repairs, d'.analytics, group) == Rollbacks(d.repairs, d.analytics, group)
  {
    hide Detected;
    if Detected(d, scopes, subject, pred).Some? {
      DetectedId(d, scopes, subject, pred);
      var repair := Detected(d, scopes, subject, pred).value;
      NoRollbacksOf(d.analytics, repair.id);
      assert (d.repairs + [repair])[..|d.repairs|] == d.repairs;
    }
  }

  /** An apply teaches nothing, whatever it applies. */
  lemma {:induction false} ApplyTeachesNothing(d: Desk, id: Id, now: Time, group: seq<string>)
    requires Filed(d) && ApplyRepair(d, id, now).Done?
    ensures var d' := ApplyRepair(d, id, now).desk;
      && d'.assessments == d.assessments
      && Rollbacks(d'.repairs, d'.analytics, group) == Rollbacks(d.repairs, d.analytics, group)
  {
    hide ApplyRepair, Rollbacks, SameScopes;
    AppliedFrame(d, id, now);
    AppliedLogs(d, id, now);
    var d' := ApplyRepair(d, id, now).desk;
    LogTeaches(d.repairs, d'.repairs, d.analytics, d'.analytics, group);
  }

  /** A rollback is one signal more for exactly the groups of the scopes of its repair. */
  lemma {:induction false} RollbackTeaches(d: Desk, id: Id, now: Time, group: seq<string>)
    requires Filed(d) && RollbackRepair(d, id, now).Done?
    ensures var d' := RollbackRepair(d, id, now).desk;
      && FindRepair(d.repairs, id).Some? && d'.assessments == d.assessments
      && Rollbacks(d'.repairs, d'.analytics, group) == Rollbacks(d.repairs, d.analytics, group)
           + if SameScopes(FindRepair(d.repairs, id).value.scopeKeys, group) then 1 else 0
  {
    hide RollbackRepair, Rollbacks, SameScopes;
    RolledBackLogs(d, id, now);
    var d' := RollbackRepair(d, id, now).desk;
    LogTeaches(d.repairs, d'.repairs, d.analytics, d'.analytics, group);
    FoundIsUnique(d.repairs, id, group);
  }

  lemma {:induction false} StepSignals(d: Desk, e: DeskEvent, now: Time, group: seq<string>)
    requires Filed(d)
    ensures var d' := DeskStep(d, e, now);
      && Holds(d'.assessments, group) == Holds(d.assessments, group) + StepHolds(d, e, now, group)
      && Rollbacks(d'.repairs, d'.analytics, group) == Rollbacks(d.repairs, d.analytics, group) + StepRollbacks(d, e, now, group)
  {
    hide ApplyRepair, RollbackRepair, Detect, Detected, Runs.Step, AssessmentOf, CanaryVerdict, Filed, Holds, Rollbacks, SameScopes;
    match e
    case Memory(event) =>
    case DetectIt(scopes, subject, pred) => DetectTeachesNothing(d, scopes, subject, pred, group);
    case CanaryIt(scopes, subject, pred) =>
      DetectTeachesNothing(d, scopes, subject, pred, group);
      CanaryTeaches(d, scopes, subject, pred, now, group);
    case ApplyIt(id) =>
      if ApplyRepair(d, id, now).Done? {
        ApplyTeachesNothing(d, id, now, group);
      }
    case RollbackIt(id) =>
      if RollbackRepair(d, id, now).Done? {
        RollbackTeaches(d, id, now, group);
      }
    case TrainIt(_) =>
  }

  // ------------------------------------------------------------------ the signals of a run

  /** The canaries of the run that held over a conflict in the scopes of the group. */
  function RunHolds(d: Desk, run: seq<TimedDesk>, group: seq<string>): nat {
    if run == [] then 0
    else
      var front, last := run[..|run| - 1], run[|run| - 1];
      RunHolds(d, front, group) + StepHolds(DeskRun(d, front), last.event, last.now, group)
  }

  /** The rollbacks of the run that were done for repairs over the scopes of the group. */
  function RunRollbacks(d: Desk, run: seq<TimedDesk>, group: seq<string>): nat {
    if run == [] then 0
    else
      var front, last := run[..|run| - 1], run[|run| - 1];
      RunRollbacks(d, front, group) + StepRollbacks(DeskRun(d, front), last.event, last.now, group)
  }

  lemma {:induction false} ReachableFiled(run: seq<TimedDesk>)
    ensures Filed(DeskRun(FRESH, run))
  {
    if run != [] {
      hide DeskStep, Filed;
      var n := |run| - 1;
      ReachableFiled(run[..n]);
      DeskRunSound(FRESH, run[..n]);
      DeskStepFiled(DeskRun(FRESH, run[..n]), run[n].event, run[n].now);
    } else {
      assert Filed(FRESH);
    }
  }

  /** The logs of every run of a fresh engine hold exactly its signals: as many holds as canaries
      held, as many rollbacks as were done, group by group. */
  lemma {:induction false} SignalsOfRun(run: seq<TimedDesk>, group: seq<string>)
    ensures var d := DeskRun(FRESH, run);
      && Holds(d.assessments, group) == RunHolds(FRESH, run, group)
      && Rollbacks(d.repairs, d.analytics, group) == RunRollbacks(FRESH, run, group)
  {
    if run != [] {
      hide DeskStep, Filed, StepHolds, StepRollbacks;
      var n := |run| - 1;
      SignalsOfRun(run[..n], group);
      ReachableFiled(run[..n]);
      StepSignals(DeskRun(FRESH, run[..n]), run[n].event, run[n].now, group);
    }
  }

  /** What training after a run decides: over two facts in two states the next canary of the group
      applies exactly when the canaries that held and twice the rollbacks make no more than four. */
  lemma {:induction false} TrainedVerdict(run: seq<TimedDesk>, scopes: seq<string>, subject: string, pred: string, now: Time)
    requires var facts := ActiveAcross(DeskRun(FRESH, run).mem, scopes, subject, pred); |facts| == 2 && |StatesOf(facts)| == 2
    ensures CanaryVerdict(Train(DeskRun(FRESH, run), scopes), scopes, subject, pred, now).recommendation == Apply
       <==> RunHolds(FRESH, run, scopes) + 2 * RunRollbacks(FRESH, run, scopes) <= 4
  {
    hide CanaryVerdict, ActiveAcross, StatesOf, RunHolds, RunRollbacks, Holds, Rollbacks;
    var d := DeskRun(FRESH, run);
    DeskRunSound(FRESH, run);
    SignalsOfRun(run, scopes);
    TrainingDecides(d, scopes, scopes, subject, pred, now);
  }
}
