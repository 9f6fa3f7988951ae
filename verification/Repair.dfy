/** Cross-scope contradiction repair: detect, assess, canary, apply and roll back, with a
    controller that learns from the logs of assessments and rollouts (memory/matrix.py). */
module Repair {
  import opened Prelude
  import opened Records
  import opened FactStore
  import Upkeep

  // ---------------------------------------------------------------------- records

  datatype Recommendation = Apply | Hold

  datatype RepairStatus = Recommended | Applied | RolledBack

  datatype Action = ApplyAction | RollbackAction

  datatype RepairRecord = RepairRecord(
    id: Id, scopeKeys: seq<string>, subject: string, pred: string,
    factIds: seq<Id>, recommendedObject: string, status: RepairStatus)

  datatype Assessment = Assessment(
    repairId: Id, scopeKeys: seq<string>, factCount: nat, stateCount: nat,
    safety: real, effective: real, recommendation: Recommendation, createdAt: Time)

  datatype Analytics = Analytics(
    repairId: Id, action: Action, activeBefore: nat, activeAfter: nat, restored: nat)

  datatype ActionRun = ActionRun(
    repairId: Id, action: Action, previous: map<Id, Status>, updated: map<Id, Status>, completedAt: Time)

  /** What train_repair_controller stores for a scope group. */
  datatype Learning = Learning(holds: nat, rollbacks: nat, penalty: real, threshold: real)

  /** The memory and the repair dictionaries; the logs are only ever appended to. */
  datatype Desk = Desk(
    mem: Mem, repairs: seq<RepairRecord>, assessments: seq<Assessment>, analytics: seq<Analytics>,
    runs: seq<ActionRun>, learning: map<string, Learning>)

  datatype Error = KeyError | ValueError | IndexError

  datatype Outcome = Done(desk: Desk) | Raised(error: Error)

  // ------------------------------------------------------------------------ detection

  /** The active facts of a subject and predicate across scopes, scope by scope. */
  function ActiveAcross(m: Mem, scopes: seq<string>, subject: string, pred: string): seq<Fact> {
    if scopes == [] then []
    else
      ActiveAcross(m, scopes[..|scopes| - 1], subject, pred)
      + ActiveFacts(m, Line(scopes[|scopes| - 1], subject, pred))
  }

  function StatesOf(facts: seq<Fact>): set<string> {
    set f | f in facts :: f.obj
  }

  lemma {:induction false} NoFactsNoStates(facts: seq<Fact>)
    ensures facts == [] ==> |StatesOf(facts)| == 0
  {
    if |facts| == 0 {
      assert StatesOf(facts) == {};
    }
  }

  /** `max(facts, key=start)`: the first of those that start latest. */
  function Latest(facts: seq<Fact>): (f: Fact)
    requires facts != []
    ensures f in facts
  {
    var last := facts[|facts| - 1];
    if |facts| == 1 then last
    else
      var before := Latest(facts[..|facts| - 1]);
      if StartOf(last) > StartOf(before) then last else before
  }

  function Detected(d: Desk, scopes: seq<string>, subject: string, pred: string): Option<RepairRecord> {
    var facts := ActiveAcross(d.mem, scopes, subject, pred);
    if |StatesOf(facts)| <= 1 then None
    else
      NoFactsNoStates(facts);
      Some(RepairRecord(d.mem.nextId, SortStrings(scopes), subject, pred, Ids(facts), Latest(facts).obj, Recommended))
  }

  /** repair_cross_scope_contradictions */
  function Detect(d: Desk, scopes: seq<string>, subject: string, pred: string): Desk {
    match Detected(d, scopes, subject, pred)
    case None => d
    case Some(repair) => d.(repairs := d.repairs + [repair], mem := d.mem.(nextId := d.mem.nextId + 1))
  }

  // ---------------------------------------------------------------- the facts of a repair

  function Lookup(facts: seq<Fact>, id: Id): (r: Option<Fact>)
    ensures r.Some? ==> r.value in facts && r.value.id == id
    ensures r.None? <==> forall i :: 0 <= i < |facts| ==> facts[i].id != id
  {
    if facts == [] then None
    else if facts[|facts| - 1].id == id then Some(facts[|facts| - 1])
    else Lookup(facts[..|facts| - 1], id)
  }

  function AllVisible(m: Mem): seq<Fact> {
    Filter(m.facts, (f: Fact) => FactVisible(m, f))
  }

  function Pick(visible: seq<Fact>, ids: seq<Id>): seq<Fact> {
    if ids == [] then []
    else
      var found := Lookup(visible, ids[|ids| - 1]);
      Pick(visible, ids[..|ids| - 1]) + if found.Some? then [found.value] else []
  }

  /** _repair_facts: the visible facts among the listed ids, in the order of the list. */
  function RepairFacts(m: Mem, ids: seq<Id>): seq<Fact> {
    Pick(AllVisible(m), ids)
  }

  // ----------------------------------------------------------------- safety assessment

  /** The score of a conflict of n facts in k states. */
  function SafetyScore(n: nat, k: nat): real {
    Max(0.0, 1.0 - Max(0.0, (n - 2) as real * 0.15 + (k - 2) as real * 0.15))
  }

  /** What the controller learns from h hold and r rollback signals. */
  function Learn(h: nat, r: nat): Learning {
    var penalty := Min(0.3, h as real * 0.04 + r as real * 0.08);
    Learning(h, r, penalty, Min(0.9, 0.75 + penalty / 2.0))
  }

  function PenaltyOf(learning: Option<Learning>): real {
    if learning.Some? then learning.value.penalty else 0.0
  }

  function ThresholdOf(learning: Option<Learning>): real {
    if learning.Some? then learning.value.threshold else 0.75
  }

  function EffectiveScore(n: nat, k: nat, learning: Option<Learning>): real {
    Max(0.0, SafetyScore(n, k) - PenaltyOf(learning))
  }

  function Advise(n: nat, k: nat, learning: Option<Learning>): Recommendation {
    if EffectiveScore(n, k, learning) >= ThresholdOf(learning) then Apply else Hold
  }

  function AssessmentOf(d: Desk, repair: RepairRecord, learning: Option<Learning>, now: Time): Assessment {
    var facts := RepairFacts(d.mem, repair.factIds);
    var n, k := |facts|, |StatesOf(facts)|;
    Assessment(repair.id, repair.scopeKeys, n, k, SafetyScore(n, k), EffectiveScore(n, k, learning),
               Advise(n, k, learning), now)
  }

  /** The exact rule behind the thresholds. An untrained controller applies conflicts of at most
      five facts and states together; a trained one applies two facts in two states up to a signal
      weight of four, three facts in two states up to one, and nothing else. */
  lemma {:induction false} AdviceRule(n: nat, k: nat, h: nat, r: nat)
    requires 2 <= k <= n
    ensures Advise(n, k, None) == Apply <==> n + k <= 5
    ensures Advise(n, k, Some(Learn(h, r))) == Apply
       <==> (n == 2 && k == 2 && h + 2 * r <= 4) || (n == 3 && k == 2 && h + 2 * r <= 1)
  {
    var w := h + 2 * r;
    assert h as real * 0.04 + r as real * 0.08 == w as real * 0.04;
    assert SafetyScore(n, k) == Max(0.0, 1.0 - (n + k - 4) as real * 0.15);
  }

  // ---------------------------------------------------------------- the learned controller

  function JoinBar(s: seq<string>): string {
    if s == [] then "" else if |s| == 1 then s[0] else s[0] + "|" + JoinBar(s[1..])
  }

  /** _repair_scope_group_key */
  function GroupKey(scopes: seq<string>): string {
    JoinBar(SortStrings(scopes))
  }

  predicate SameScopes(a: seq<string>, b: seq<string>) {
    Elements(a) == Elements(b)
  }

  /** The assessments of a scope group that did not recommend to apply. */
  function Holds(assessments: seq<Assessment>, scopes: seq<string>): nat {
    if assessments == [] then 0
    else
      var last := assessments[|assessments| - 1];
      Holds(assessments[..|assessments| - 1], scopes)
      + if SameScopes(last.scopeKeys, scopes) && last.recommendation != Apply then 1 else 0
  }

  function RollbacksOf(analytics: seq<Analytics>, repairId: Id): nat {
    if analytics == [] then 0
    else
      var last := analytics[|analytics| - 1];
      RollbacksOf(analytics[..|analytics| - 1], repairId)
      + if last.repairId == repairId && last.action == RollbackAction then 1 else 0
  }

  /** The rollbacks logged for the repairs of a scope group. */
  function Rollbacks(repairs: seq<RepairRecord>, analytics: seq<Analytics>, scopes: seq<string>): nat {
    if repairs == [] then 0
    else
      var last := repairs[|repairs| - 1];
      Rollbacks(repairs[..|repairs| - 1], analytics, scopes)
      + if SameScopes(last.scopeKeys, scopes) then RollbacksOf(analytics, last.id) else 0
  }

  /** train_repair_controller */
  function Train(d: Desk, scopes: seq<string>): Desk {
    d.(learning := d.learning[GroupKey(scopes) :=
         Learn(Holds(d.assessments, scopes), Rollbacks(d.repairs, d.analytics, scopes))])
  }

  function Load(d: Desk, scopes: seq<string>): Option<Learning> {
    if GroupKey(scopes) in d.learning then Some(d.learning[GroupKey(scopes)]) else None
  }

  /** What run_contradiction_repair_canary recommends, and the repairs it recorded. */
  datatype Verdict = Verdict(repairIds: seq<Id>, recommendation: Recommendation)

  function CanaryVerdict(d: Desk, scopes: seq<string>, subject: string, pred: string, now: Time): Verdict {
    match Detected(d, scopes, subject, pred)
    case None => Verdict([], Hold)
    case Some(repair) =>
      Verdict([repair.id], AssessmentOf(Detect(d, scopes, subject, pred), repair, Load(d, scopes), now).recommendation)
  }

  /** run_contradiction_repair_canary */
  function Canary(d: Desk, scopes: seq<string>, subject: string, pred: string, now: Time): Desk {
    var d1 := Detect(d, scopes, subject, pred);
    match Detected(d, scopes, subject, pred)
    case None => d1
    case Some(repair) => d1.(assessments := d1.assessments + [AssessmentOf(d1, repair, Load(d, scopes), now)])
  }

  // ------------------------------------------------------------------ apply and roll back

  function FindRepair(repairs: seq<RepairRecord>, id: Id): (r: Option<RepairRecord>)
    ensures r.Some? ==> r.value in repairs && r.value.id == id
  {
    if repairs == [] then None
    else if repairs[|repairs| - 1].id == id then Some(repairs[|repairs| - 1])
    else FindRepair(repairs[..|repairs| - 1], id)
  }

  function WithRepairStatus(repairs: seq<RepairRecord>, id: Id, status: RepairStatus): seq<RepairRecord> {
    Map(repairs, (r: RepairRecord) => if r.id == id then r.(status := status) else r)
  }

  /** _latest_repair_safety_assessment: listed newest first, ties in log order. */
  function NewestAssessmentFirst(a: Assessment): SortKey { (-a.createdAt, 0) }

  function LatestAssessment(d: Desk, repair: RepairRecord): Option<Assessment> {
    var listed := SortBy(Filter(d.assessments, (a: Assessment) => SameScopes(a.scopeKeys, repair.scopeKeys)),
                         NewestAssessmentFirst);
    var own := Filter(listed, (a: Assessment) => a.repairId == repair.id);
    if own == [] then None else Some(own[0])
  }

  function StatusMap(facts: seq<Fact>): map<Id, Status> {
    if facts == [] then map[]
    else StatusMap(facts[..|facts| - 1])[facts[|facts| - 1].id := facts[|facts| - 1].status]
  }

  /** The statuses apply writes: the latest fact active, the others superseded. */
  function AppliedStatuses(facts: seq<Fact>, latest: Fact): map<Id, Status> {
    if facts == [] then map[]
    else AppliedStatuses(facts[..|facts| - 1], latest)
           [facts[|facts| - 1].id := if facts[|facts| - 1].id == latest.id then Active else Superseded]
  }

  function CountActive(statuses: map<Id, Status>): nat {
    |set id | id in statuses && statuses[id] == Active|
  }

  /** The project states an apply refreshes: for each scope of the repair, the subjects of its
      facts there. */
  function Refreshed(m: Mem, scopes: seq<string>, facts: seq<Fact>, now: Time): Mem {
    if scopes == [] then m
    else
      var scope := scopes[|scopes| - 1];
      Upkeep.ProjectStates(Refreshed(m, scopes[..|scopes| - 1], facts, now), scope,
                           Upkeep.Subjects(Filter(facts, (f: Fact) => f.scope == scope)), now)
  }

  /** The memory after the statuses of an apply are written. */
  function AppliedMem(m: Mem, facts: seq<Fact>): Mem
    requires facts != []
  {
    m.(facts := WithStatuses(m.facts, AppliedStatuses(facts, Latest(facts))))
  }

  /** The writes of an apply that passed its gate. */
  function Applying(d: Desk, repair: RepairRecord, facts: seq<Fact>, now: Time): Desk
    requires facts != []
  {
    var previous, updated := StatusMap(facts), AppliedStatuses(facts, Latest(facts));
    d.(mem := Refreshed(AppliedMem(d.mem, facts), repair.scopeKeys, facts, now),
       repairs := WithRepairStatus(d.repairs, repair.id, Applied),
       runs := d.runs + [ActionRun(repair.id, ApplyAction, previous, updated, now)],
       analytics := d.analytics + [Analytics(repair.id, ApplyAction, CountActive(previous), CountActive(updated), 0)])
  }

  /** apply_contradiction_repair */
  function ApplyRepair(d: Desk, repairId: Id, now: Time): Outcome {
    var found := FindRepair(d.repairs, repairId);
    if found.None? then Raised(KeyError)
    else
      var assessment := LatestAssessment(d, found.value);
      if assessment.Some? && assessment.value.recommendation != Apply then Raised(ValueError)
      else
        var facts := RepairFacts(d.mem, found.value.factIds);
        if facts == [] then Raised(KeyError) else Done(Applying(d, found.value, facts, now))
  }

  function NewestRunFirst(r: ActionRun): SortKey { (-r.completedAt, 0) }

  function Applies(runs: seq<ActionRun>): seq<ActionRun> {
    Filter(runs, (r: ActionRun) => r.action == ApplyAction)
  }

  /** The apply run that rollback undoes: the first in the newest-first listing. */
  function PriorApply(d: Desk, repairId: Id): Option<ActionRun> {
    var applies := Applies(SortBy(Filter(d.runs, (r: ActionRun) => r.repairId == repairId), NewestRunFirst));
    if applies == [] then None else Some(applies[0])
  }

  /** The statuses rollback writes: the recorded previous one where there is one. */
  function RestoredStatuses(facts: seq<Fact>, previous: map<Id, Status>): map<Id, Status> {
    if facts == [] then map[]
    else
      var last := facts[|facts| - 1];
      RestoredStatuses(facts[..|facts| - 1], previous)
        [last.id := if last.id in previous then previous[last.id] else last.status]
  }

  function CountRestored(statuses: map<Id, Status>, previous: map<Id, Status>): nat {
    |set id | id in statuses && id in previous && previous[id] == statuses[id]|
  }

  /** The writes of a rollback to the statuses a prior apply recorded. */
  function RollingBack(d: Desk, repairId: Id, facts: seq<Fact>, prior: ActionRun, now: Time): Desk {
    var restored := RestoredStatuses(facts, prior.previous);
    d.(mem := d.mem.(facts := WithStatuses(d.mem.facts, restored)),
       repairs := WithRepairStatus(d.repairs, repairId, RolledBack),
       runs := d.runs + [ActionRun(repairId, RollbackAction, prior.updated, restored, now)],
       analytics := d.analytics + [Analytics(repairId, RollbackAction, CountActive(prior.updated),
                                             CountActive(restored), CountRestored(restored, prior.previous))])
  }

  /** rollback_contradiction_repair */
  function RollbackRepair(d: Desk, repairId: Id, now: Time): Outcome {
    var found := FindRepair(d.repairs, repairId);
    if found.None? then Raised(KeyError)
    else
      var prior := PriorApply(d, repairId);
      if prior.None? then Raised(KeyError)
      else Done(RollingBack(d, repairId, RepairFacts(d.mem, found.value.factIds), prior.value, now))
  }
}
