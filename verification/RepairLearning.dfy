/** The repair controller over whole runs: its logs only grow, so what it has learned against a
    scope group is never unlearned, as long as nothing else is filed under the key of the group. */
module RepairLearning {
  import opened Prelude
  import opened Records
  import opened FactStore
  import opened Repair
  import Runs
  import Upkeep

  // ------------------------------------------------------------------- group keys

  predicate BarFree(s: string) {
    '|' !in s
  }

  /** A scope group whose key can be read back: not empty, no key contains the separator. */
  ghost predicate Readable(scopes: seq<string>) {
    scopes != [] && forall s :: s in scopes ==> BarFree(s)
  }

  lemma {:induction false} JoinPrefix(s: seq<string>)
    requires s != []
    ensures |JoinBar(s)| >= |s[0]| && JoinBar(s)[..|s[0]|] == s[0]
    ensures |JoinBar(s)| == |s[0]| <==> |s| == 1
    ensures |s| > 1 ==> JoinBar(s)[|s[0]|] == '|' && JoinBar(s)[|s[0]| + 1..] == JoinBar(s[1..])
  {
  }

  lemma {:induction false} BarWithin(j: string, n: nat, m: nat)
    ensures n < m <= |j| && j[n] == '|' ==> !BarFree(j[..m])
  {
    if n < m <= |j| {
      assert j[..m][n] == j[n];
    }
  }

  lemma {:induction false} FirstParts(s: seq<string>, t: seq<string>)
    requires Readable(s) && Readable(t) && JoinBar(s) == JoinBar(t) && |s[0]| <= |t[0]|
    ensures s[0] == t[0]
  {
    JoinPrefix(s);
    JoinPrefix(t);
    assert BarFree(t[0]);
    BarWithin(JoinBar(s), |s[0]|, |t[0]|);
  }

  lemma {:induction false} JoinInjective(s: seq<string>, t: seq<string>)
    requires Readable(s) && Readable(t) && JoinBar(s) == JoinBar(t)
    ensures s == t
  {
    if |s[0]| <= |t[0]| {
      FirstParts(s, t);
    } else {
      FirstParts(t, s);
    }
    JoinPrefix(s);
    JoinPrefix(t);
    if |s| > 1 {
      JoinInjective(s[1..], t[1..]);
      assert s == [s[0]] + s[1..] && t == [t[0]] + t[1..];
    }
  }

  /** Readable groups share a key exactly when they list the same scopes equally often. */
  lemma {:induction false} GroupKeyIff(a: seq<string>, b: seq<string>)
    requires Readable(a) && Readable(b)
    ensures GroupKey(a) == GroupKey(b) <==> multiset(a) == multiset(b)
  {
    SortStringsMembers(a);
    SortStringsMembers(b);
    SortedNonEmpty(a);
    SortedNonEmpty(b);
    SortStringsIff(a, b);
    if GroupKey(a) == GroupKey(b) {
      JoinInjective(SortStrings(a), SortStrings(b));
    }
  }

  lemma {:induction false} GroupKeyScopes(a: seq<string>, b: seq<string>)
    requires Readable(a) && Readable(b) && GroupKey(a) == GroupKey(b)
    ensures SameScopes(a, b)
  {
    GroupKeyIff(a, b);
    assert forall s :: s in Elements(a) <==> s in multiset(a);
    assert forall s :: s in Elements(b) <==> s in multiset(b);
  }

  lemma {:induction false} SortedNonEmpty(a: seq<string>)
    requires a != []
    ensures SortStrings(a) != []
  {
    SortStringsMembers(a);
    assert a[0] in SortStrings(a);
  }

  // ----------------------------------------------------------------- logs only grow

  lemma {:induction false} HoldsGrow(a: seq<Assessment>, b: seq<Assessment>, scopes: seq<string>)
    requires a <= b
    ensures Holds(a, scopes) <= Holds(b, scopes)
  {
    if |a| < |b| {
      HoldsGrow(a, b[..|b| - 1], scopes);
    } else {
      assert a == b;
    }
  }

  lemma {:induction false} RollbacksOfGrow(a: seq<Analytics>, b: seq<Analytics>, id: Id)
    requires a <= b
    ensures RollbacksOf(a, id) <= RollbacksOf(b, id)
  {
    if |a| < |b| {
      RollbacksOfGrow(a, b[..|b| - 1], id);
    } else {
      assert a == b;
    }
  }

  /** The repairs of b begin with those of a, up to their status. */
  ghost predicate RepairsGrow(a: seq<RepairRecord>, b: seq<RepairRecord>) {
    |a| <= |b| && forall i :: 0 <= i < |a| ==> b[i].id == a[i].id && b[i].scopeKeys == a[i].scopeKeys
  }

  lemma {:induction false} RollbacksGrow(a: seq<RepairRecord>, b: seq<RepairRecord>, x: seq<Analytics>, y: seq<Analytics>, scopes: seq<string>)
    requires RepairsGrow(a, b) && x <= y
    ensures Rollbacks(a, x, scopes) <= Rollbacks(b, y, scopes)
  {
    if |a| < |b| {
      RollbacksGrow(a, b[..|b| - 1], x, y, scopes);
    } else if a != [] {
      RollbacksGrow(a[..|a| - 1], b[..|b| - 1], x, y, scopes);
      RollbacksOfGrow(x, y, a[|a| - 1].id);
    }
  }

  ghost predicate LogsGrow(d: Desk, d': Desk) {
    d.assessments <= d'.assessments && d.analytics <= d'.analytics && RepairsGrow(d.repairs, d'.repairs)
  }

  // ----------------------------------------------------------------------- whole runs

  /** One step of the repair machinery, or any other operation on the memory. A raised error
      leaves the desk as it was. */
  datatype DeskEvent =
    | Memory(event: Runs.Event)
    | DetectIt(scopes: seq<string>, subject: string, pred: string)
    | CanaryIt(scopes: seq<string>, subject: string, pred: string)
    | ApplyIt(repairId: Id)
    | RollbackIt(repairId: Id)
    | TrainIt(scopes: seq<string>)

  function DeskStep(d: Desk, e: DeskEvent, now: Time): Desk {
    match e
    case Memory(event) => d.(mem := Runs.Step(d.mem, event, now))
    case DetectIt(scopes, subject, pred) => Detect(d, scopes, subject, pred)
    case CanaryIt(scopes, subject, pred) => Canary(d, scopes, subject, pred, now)
    case ApplyIt(id) => AfterOutcome(d, ApplyRepair(d, id, now))
    case RollbackIt(id) => AfterOutcome(d, RollbackRepair(d, id, now))
    case TrainIt(scopes) => Train(d, scopes)
  }

  function AfterOutcome(d: Desk, o: Outcome): Desk {
    if o.Done? then o.desk else d
  }

  datatype TimedDesk = On(event: DeskEvent, now: Time)

  function DeskRun(d: Desk, run: seq<TimedDesk>): Desk {
    if run == [] then d
    else DeskStep(DeskRun(d, run[..|run| - 1]), run[|run| - 1].event, run[|run| - 1].now)
  }

  lemma {:induction false} ApplyingGrowsLogs(d: Desk, repair: RepairRecord, facts: seq<Fact>, now: Time)
    requires facts != []
    ensures LogsGrow(d, Applying(d, repair, facts, now)) && Applying(d, repair, facts, now).learning == d.learning
  {
  }

  lemma {:induction false} RollingBackGrowsLogs(d: Desk, id: Id, facts: seq<Fact>, prior: ActionRun, now: Time)
    ensures LogsGrow(d, RollingBack(d, id, facts, prior, now)) && RollingBack(d, id, facts, prior, now).learning == d.learning
  {
  }

  lemma {:induction false} OutcomeGrowsLogs(d: Desk, id: Id, now: Time)
    ensures LogsGrow(d, AfterOutcome(d, ApplyRepair(d, id, now))) && AfterOutcome(d, ApplyRepair(d, id, now)).learning == d.learning
    ensures LogsGrow(d, AfterOutcome(d, RollbackRepair(d, id, now))) && AfterOutcome(d, RollbackRepair(d, id, now)).learning == d.learning
  {
    var found := FindRepair(d.repairs, id);
    if found.Some? {
      var facts := RepairFacts(d.mem, found.value.factIds);
      if facts != [] {
        ApplyingGrowsLogs(d, found.value, facts, now);
      }
      if PriorApply(d, id).Some? {
        RollingBackGrowsLogs(d, id, facts, PriorApply(d, id).value, now);
      }
    }
  }

  lemma {:induction false} CanaryGrowsLogs(d: Desk, scopes: seq<string>, subject: string, pred: string, now: Time)
    ensures LogsGrow(d, Detect(d, scopes, subject, pred)) && Detect(d, scopes, subject, pred).learning == d.learning
    ensures LogsGrow(d, Canary(d, scopes, subject, pred, now)) && Canary(d, scopes, subject, pred, now).learning == d.learning
  {
  }

  lemma {:induction false} StepGrowsLogs(d: Desk, e: DeskEvent, now: Time)
    ensures LogsGrow(d, DeskStep(d, e, now))
    ensures DeskStep(d, e, now).learning
         == if e.TrainIt?
            then d.learning[GroupKey(e.scopes) := Learn(Holds(d.assessments, e.scopes), Rollbacks(d.repairs, d.analytics, e.scopes))]
            else d.learning
  {
    if e.ApplyIt? || e.RollbackIt? {
      OutcomeGrowsLogs(d, e.repairId, now);
    } else if e.DetectIt? || e.CanaryIt? {
      CanaryGrowsLogs(d, e.scopes, e.subject, e.pred, now);
    }
  }

  // ------------------------------------------------------------------ the memory stays sound

  lemma {:induction false} CountedSound(m: Mem)
    requires Runs.Sound(m)
    ensures Runs.Sound(m.(nextId := m.nextId + 1))
  {
    Runs.SameIndexSound(m, m.(nextId := m.nextId + 1));
  }

  lemma {:induction false} ApplySound(d: Desk, id: Id, now: Time)
    requires Runs.Sound(d.mem)
    ensures Runs.Sound(AfterOutcome(d, ApplyRepair(d, id, now)).mem)
  {
    var o := ApplyRepair(d, id, now);
    if o.Done? {
      var repair := FindRepair(d.repairs, id).value;
      var facts := RepairFacts(d.mem, repair.factIds);
      Runs.StatusesSound(d.mem, AppliedStatuses(facts, Latest(facts)));
      RefreshedDerived(AppliedMem(d.mem, facts), repair.scopeKeys, facts, now);
      DerivedSound(AppliedMem(d.mem, facts), o.desk.mem);
    }
  }

  /** Refreshing project states changes segments and snapshots only. */
  lemma {:induction false} RefreshedDerived(m: Mem, scopes: seq<string>, facts: seq<Fact>, now: Time)
    ensures Upkeep.Derived(m, Refreshed(m, scopes, facts, now))
  {
    if scopes != [] {
      var scope, front := scopes[|scopes| - 1], Refreshed(m, scopes[..|scopes| - 1], facts, now);
      var subjects := Upkeep.Subjects(Filter(facts, (f: Fact) => f.scope == scope));
      RefreshedDerived(m, scopes[..|scopes| - 1], facts, now);
      Upkeep.ProjectStatesDerived(front, scope, subjects, now);
      Upkeep.DerivedTwice(m, front, Upkeep.ProjectStates(front, scope, subjects, now));
    }
  }

  lemma {:induction false} DerivedSound(m: Mem, m': Mem)
    requires Runs.Sound(m) && Upkeep.Derived(m, m')
    ensures Runs.Sound(m')
  {
    Upkeep.DerivedValid(m, m');
    Runs.SameIndexSound(m, m');
  }

  lemma {:induction false} RollbackSound(d: Desk, id: Id, now: Time)
    requires Runs.Sound(d.mem)
    ensures Runs.Sound(AfterOutcome(d, RollbackRepair(d, id, now)).mem)
  {
    var o := RollbackRepair(d, id, now);
    if o.Done? {
      var facts := RepairFacts(d.mem, FindRepair(d.repairs, id).value.factIds);
      Runs.StatusesSound(d.mem, RestoredStatuses(facts, PriorApply(d, id).value.previous));
    }
  }

  lemma {:induction false} DetectSound(d: Desk, scopes: seq<string>, subject: string, pred: string, now: Time)
    requires Runs.Sound(d.mem)
    ensures Runs.Sound(Detect(d, scopes, subject, pred).mem) && Runs.Sound(Canary(d, scopes, subject, pred, now).mem)
  {
    CountedSound(d.mem);
  }

  lemma {:induction false} DeskStepSound(d: Desk, e: DeskEvent, now: Time)
    requires Runs.Sound(d.mem)
    ensures Runs.Sound(DeskStep(d, e, now).mem)
  {
    if e.Memory? {
      Runs.StepSound(d.mem, e.event, now);
    } else if e.ApplyIt? {
      ApplySound(d, e.repairId, now);
    } else if e.RollbackIt? {
      RollbackSound(d, e.repairId, now);
    } else if e.DetectIt? || e.CanaryIt? {
      DetectSound(d, e.scopes, e.subject, e.pred, now);
    }
  }

  lemma {:induction false} DeskRunSound(d: Desk, run: seq<TimedDesk>)
    requires Runs.Sound(d.mem)
    ensures Runs.Sound(DeskRun(d, run).mem)
  {
    if run != [] {
      var n := |run| - 1;
      DeskRunSound(d, run[..n]);
      DeskStepSound(DeskRun(d, run[..n]), run[n].event, run[n].now);
    }
  }

  // ------------------------------------------------------------- what is learned from the logs

  /** The signal weight the logs hold for a scope group. */
  function Weight(d: Desk, scopes: seq<string>): nat {
    Holds(d.assessments, scopes) + 2 * Rollbacks(d.repairs, d.analytics, scopes)
  }

  /** The controller stored for the group has learned a signal weight above four. */
  predicate Heavy(d: Desk, scopes: seq<string>) {
    && GroupKey(scopes) in d.learning
    && d.learning[GroupKey(scopes)].holds + 2 * d.learning[GroupKey(scopes)].rollbacks > 4
  }

  /** The step trains a group that is filed under the key of the given one, while its own logs
      hold a weight of at most four. */
  predicate Slips(d: Desk, scopes: seq<string>, e: DeskEvent) {
    e.TrainIt? && GroupKey(e.scopes) == GroupKey(scopes) && Weight(d, e.scopes) <= 4
  }

  /** Exactly which steps undo a heavy controller. */
  lemma {:induction false} StepKeepsHeavyIff(d: Desk, scopes: seq<string>, e: DeskEvent, now: Time)
    requires Heavy(d, scopes)
    ensures Heavy(DeskStep(d, e, now), scopes) <==> !Slips(d, scopes, e)
  {
    StepGrowsLogs(d, e, now);
  }

  /** The controller stays heavy all through a run exactly when no step of the run slips. */
  lemma {:induction false} RunKeepsHeavyIff(d: Desk, scopes: seq<string>, run: seq<TimedDesk>)
    requires Heavy(d, scopes)
    ensures (forall n :: 0 <= n <= |run| ==> Heavy(DeskRun(d, run[..n]), scopes))
       <==> forall n :: 0 <= n < |run| ==> !Slips(DeskRun(d, run[..n]), scopes, run[n].event)
  {
    hide Heavy, Slips, DeskStep;
    if run != [] {
      var n := |run| - 1;
      RunKeepsHeavyIff(d, scopes, run[..n]);
      assert forall i :: 0 <= i <= n ==> run[..n][..i] == run[..i];
      assert forall i :: 0 <= i < n ==> run[..n][i] == run[i];
      assert run[..|run|] == run;
      if Heavy(DeskRun(d, run[..n]), scopes) {
        StepKeepsHeavyIff(DeskRun(d, run[..n]), scopes, run[n].event, run[n].now);
      }
    }
  }

  lemma {:induction false} SameHolds(a: seq<Assessment>, s: seq<string>, t: seq<string>)
    requires SameScopes(s, t)
    ensures Holds(a, s) == Holds(a, t)
  {
    if a != [] {
      SameHolds(a[..|a| - 1], s, t);
    }
  }

  lemma {:induction false} SameRollbacks(a: seq<RepairRecord>, x: seq<Analytics>, s: seq<string>, t: seq<string>)
    requires SameScopes(s, t)
    ensures Rollbacks(a, x, s) == Rollbacks(a, x, t)
  {
    if a != [] {
      SameRollbacks(a[..|a| - 1], x, s, t);
    }
  }

  /** Every group the run trains under the key of the given one has the same scopes. */
  ghost predicate OwnKey(run: seq<TimedDesk>, scopes: seq<string>) {
    forall i :: 0 <= i < |run| && run[i].event.TrainIt? && GroupKey(run[i].event.scopes) == GroupKey(scopes)
      ==> SameScopes(run[i].event.scopes, scopes)
  }

  /** What is stored for the group was learned from the logs of the group. */
  ghost predicate FromLogs(d: Desk, scopes: seq<string>) {
    GroupKey(scopes) in d.learning ==>
      var l := d.learning[GroupKey(scopes)];
      && l == Learn(l.holds, l.rollbacks)
      && l.holds <= Holds(d.assessments, scopes)
      && l.rollbacks <= Rollbacks(d.repairs, d.analytics, scopes)
  }

  lemma {:induction false} StepFromLogs(d: Desk, scopes: seq<string>, e: DeskEvent, now: Time)
    requires FromLogs(d, scopes)
    requires e.TrainIt? && GroupKey(e.scopes) == GroupKey(scopes) ==> SameScopes(e.scopes, scopes)
    ensures FromLogs(DeskStep(d, e, now), scopes)
    ensures Heavy(d, scopes) ==> Heavy(DeskStep(d, e, now), scopes)
  {
    var d' := DeskStep(d, e, now);
    StepGrowsLogs(d, e, now);
    HoldsGrow(d.assessments, d'.assessments, scopes);
    RollbacksGrow(d.repairs, d'.repairs, d.analytics, d'.analytics, scopes);
    if e.TrainIt? && GroupKey(e.scopes) == GroupKey(scopes) {
      SameHolds(d.assessments, e.scopes, scopes);
      SameRollbacks(d.repairs, d.analytics, e.scopes, scopes);
    }
  }

  lemma {:induction false} RunFromLogs(d: Desk, scopes: seq<string>, run: seq<TimedDesk>)
    requires FromLogs(d, scopes) && OwnKey(run, scopes)
    ensures FromLogs(DeskRun(d, run), scopes)
    ensures Heavy(d, scopes) ==> Heavy(DeskRun(d, run), scopes)
  {
    if run != [] {
      var n := |run| - 1;
      assert forall i :: 0 <= i < n ==> run[..n][i] == run[i];
      RunFromLogs(d, scopes, run[..n]);
      StepFromLogs(DeskRun(d, run[..n]), scopes, run[n].event, run[n].now);
    }
  }

  /** An engine that has just started. */
  const FRESH := Desk(EMPTY, [], [], [], [], map[])

  /** After every run from a fresh desk, what is stored for a group was learned from its logs. */
  lemma {:induction false} ReachableFromLogs(run: seq<TimedDesk>, scopes: seq<string>)
    requires OwnKey(run, scopes)
    ensures FromLogs(DeskRun(FRESH, run), scopes)
  {
    RunFromLogs(FRESH, scopes, run);
  }

  /** No conflict is advised for application over a signal weight above four. */
  lemma {:induction false} HeavySignalsHold(n: nat, k: nat, h: nat, r: nat)
    requires h + 2 * r > 4 && n + k >= 4
    ensures Advise(n, k, Some(Learn(h, r))) == Hold
  {
    var w := h + 2 * r;
    assert h as real * 0.04 + r as real * 0.08 == w as real * 0.04;
    assert w as real * 0.04 >= 0.2;
    assert SafetyScore(n, k) <= 1.0;
  }

  lemma {:induction false} StatesBound(facts: seq<Fact>)
    ensures |StatesOf(facts)| <= |facts|
  {
    if facts == [] {
      assert StatesOf(facts) == {};
    } else {
      var front, last := facts[..|facts| - 1], facts[|facts| - 1];
      StatesBound(front);
      assert facts == front + [last];
      assert StatesOf(facts) == StatesOf(front) + {last.obj};
    }
  }

  lemma {:induction false} LookupFinds(m: Mem, f: Fact)
    requires ValidMem(m) && f in m.facts && FactVisible(m, f)
    ensures Lookup(AllVisible(m), f.id) == Some(f)
  {
    var i :| 0 <= i < |m.facts| && m.facts[i] == f;
    assert m.facts[i] in AllVisible(m);
    var j :| 0 <= j < |AllVisible(m)| && AllVisible(m)[j] == f;
    var r := Lookup(AllVisible(m), f.id);
    IncreasingInjective(m.facts, FactId, f, r.value);
  }

  lemma {:induction false} PickAll(visible: seq<Fact>, facts: seq<Fact>)
    requires forall i :: 0 <= i < |facts| ==> Lookup(visible, facts[i].id) == Some(facts[i])
    ensures Pick(visible, Ids(facts)) == facts
  {
    if facts != [] {
      var n, ids := |facts| - 1, Ids(facts);
      PickAll(visible, facts[..n]);
      assert ids[..n] == Ids(facts[..n]);
      assert Pick(visible, ids) == Pick(visible, ids[..n]) + [facts[n]];
    }
  }

  /** The facts of a repair just detected are the facts it was detected on. */
  lemma {:induction false} DetectedFacts(m: Mem, scopes: seq<string>, subject: string, pred: string)
    requires ValidMem(m)
    ensures var facts := ActiveAcross(m, scopes, subject, pred); RepairFacts(m, Ids(facts)) == facts
  {
    var facts := ActiveAcross(m, scopes, subject, pred);
    forall i | 0 <= i < |facts|
      ensures Lookup(AllVisible(m), facts[i].id) == Some(facts[i])
    {
      AcrossMember(m, scopes, subject, pred, facts[i]);
      LookupFinds(m, facts[i]);
    }
    PickAll(AllVisible(m), facts);
  }

  predicate Conflicting(m: Mem, subject: string, pred: string, f: Fact) {
    f in m.facts && FactVisible(m, f) && f.status.Active? && f.subject == subject && f.pred == pred
  }

  lemma {:induction false} LineMember(m: Mem, scope: string, subject: string, pred: string, f: Fact)
    ensures f in ActiveFacts(m, Line(scope, subject, pred)) <==> Conflicting(m, subject, pred, f) && f.scope == scope
  {
    ActiveFactsMember(m, Line(scope, subject, pred), f);
  }

  lemma {:induction false} AcrossMember(m: Mem, scopes: seq<string>, subject: string, pred: string, f: Fact)
    ensures f in ActiveAcross(m, scopes, subject, pred) <==> Conflicting(m, subject, pred, f) && f.scope in scopes
  {
    hide ActiveFacts, Conflicting;
    if scopes != [] {
      var n := |scopes| - 1;
      AcrossMember(m, scopes[..n], subject, pred, f);
      LineMember(m, scopes[n], subject, pred, f);
      assert scopes == scopes[..n] + [scopes[n]];
    }
  }

  /** The verdict of a canary, in terms of the conflict it finds and the controller it loads. */
  lemma {:induction false} VerdictRule(d: Desk, scopes: seq<string>, subject: string, pred: string, now: Time)
    requires ValidMem(d.mem)
    ensures var facts := ActiveAcross(d.mem, scopes, subject, pred);
      CanaryVerdict(d, scopes, subject, pred, now).recommendation
      == if |StatesOf(facts)| <= 1 then Hold else Advise(|facts|, |StatesOf(facts)|, Load(d, scopes))
  {
    var facts := ActiveAcross(d.mem, scopes, subject, pred);
    if |StatesOf(facts)| > 1 {
      var d1 := Detect(d, scopes, subject, pred);
      FilterCongruence(d.mem.facts, (f: Fact) => FactVisible(d.mem, f), (f: Fact) => FactVisible(d1.mem, f));
      DetectedFacts(d.mem, scopes, subject, pred);
    }
  }

  /** Over a heavy controller every canary that loads it holds, whatever the conflict. */
  lemma {:induction false} HeavyHolds(d: Desk, scopes: seq<string>, again: seq<string>, subject: string, pred: string, now: Time)
    requires ValidMem(d.mem) && Heavy(d, scopes) && FromLogs(d, scopes) && GroupKey(again) == GroupKey(scopes)
    ensures CanaryVerdict(d, again, subject, pred, now).recommendation == Hold
  {
    VerdictRule(d, again, subject, pred, now);
    var facts := ActiveAcross(d.mem, again, subject, pred);
    var l := d.learning[GroupKey(scopes)];
    StatesBound(facts);
    if |StatesOf(facts)| > 1 {
      HeavySignalsHold(|facts|, |StatesOf(facts)|, l.holds, l.rollbacks);
    }
  }

  /** Whatever was learned before, a training of any group filed under the key decides the next
      canary: over two facts in two states it applies exactly when the logs of the trained group
      hold a weight of at most four. */
  lemma {:induction false} TrainingDecides(d: Desk, scopes: seq<string>, trained: seq<string>, subject: string, pred: string, now: Time)
    requires ValidMem(d.mem) && GroupKey(trained) == GroupKey(scopes)
    requires var facts := ActiveAcross(d.mem, scopes, subject, pred); |facts| == 2 && |StatesOf(facts)| == 2
    ensures CanaryVerdict(Train(d, trained), scopes, subject, pred, now).recommendation == Apply
       <==> Weight(d, trained) <= 4
  {
    VerdictRule(Train(d, trained), scopes, subject, pred, now);
    AdviceRule(2, 2, Holds(d.assessments, trained), Rollbacks(d.repairs, d.analytics, trained));
  }

  /** The ratchet: from the moment at which a run of a fresh engine has made the controller of a
      scope group heavy, no canary on a list filed under its key recommends to apply, however the
      run goes on. */
  lemma {:induction false} Ratchet(run: seq<TimedDesk>, later: seq<TimedDesk>, scopes: seq<string>, again: seq<string>,
                                   subject: string, pred: string, now: Time)
    requires OwnKey(run, scopes) && Heavy(DeskRun(FRESH, run), scopes)
    requires OwnKey(later, scopes) && GroupKey(again) == GroupKey(scopes)
    ensures CanaryVerdict(DeskRun(DeskRun(FRESH, run), later), again, subject, pred, now).recommendation == Hold
  {
    var d := DeskRun(FRESH, run);
    ReachableFromLogs(run, scopes);
    RunFromLogs(d, scopes, later);
    DeskRunSound(FRESH, run);
    DeskRunSound(d, later);
    HeavyHolds(DeskRun(d, later), scopes, again, subject, pred, now);
  }

  /** Every group the run trains has scope keys, and none of them contains the separator. */
  ghost predicate ReadableTraining(run: seq<TimedDesk>) {
    forall i :: 0 <= i < |run| && run[i].event.TrainIt? ==> Readable(run[i].event.scopes)
  }

  /** In a run whose groups are readable, every readable group has its key to itself. */
  lemma {:induction false} ReadableOwnKey(run: seq<TimedDesk>, scopes: seq<string>)
    requires ReadableTraining(run) && Readable(scopes)
    ensures OwnKey(run, scopes)
  {
    forall i | 0 <= i < |run| && run[i].event.TrainIt? && GroupKey(run[i].event.scopes) == GroupKey(scopes)
      ensures SameScopes(run[i].event.scopes, scopes)
    {
      GroupKeyScopes(run[i].event.scopes, scopes);
    }
  }
}
