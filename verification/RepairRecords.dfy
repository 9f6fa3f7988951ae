/** What a repair leaves on record: the scores behind an assessment, the fact a repair prefers, and
    the marks and counts of applies and rollbacks (memory/matrix.py). */
module RepairRecords {
  import opened Prelude
  import opened Records
  import opened FactStore
  import opened Repair
  import opened RepairLearning
  import opened RepairLaws
  import Upkeep

  // -------------------------------------------------------------------------- scores

  /** Two facts in two states are perfectly safe to repair; every fact and every state more costs 0.15,
      down to nothing. */
  lemma {:induction false} SafetySteps(n: nat, k: nat)
    requires n >= 2 && k >= 2
    ensures SafetyScore(2, 2) == 1.0
    ensures SafetyScore(n + 1, k) == Max(0.0, SafetyScore(n, k) - 0.15)
    ensures SafetyScore(n, k + 1) == Max(0.0, SafetyScore(n, k) - 0.15)
  {
    assert SafetyScore(n, k) == Max(0.0, 1.0 - (n + k - 4) as real * 0.15);
    assert SafetyScore(n + 1, k) == Max(0.0, 1.0 - (n + k - 3) as real * 0.15);
    assert SafetyScore(n, k + 1) == Max(0.0, 1.0 - (n + k - 3) as real * 0.15);
  }

  /** From no signals the penalty starts at nothing; a hold adds 0.04 and a rollback 0.08, up to 0.3,
      and the bar rises from 0.75 by half the penalty. */
  lemma {:induction false} LearningSteps(h: nat, r: nat)
    ensures Learn(0, 0) == Learning(0, 0, 0.0, 0.75)
    ensures Learn(h, r).holds == h && Learn(h, r).rollbacks == r
    ensures Learn(h + 1, r).penalty == Min(0.3, Learn(h, r).penalty + 0.04)
    ensures Learn(h, r + 1).penalty == Min(0.3, Learn(h, r).penalty + 0.08)
    ensures Learn(h, r).threshold == 0.75 + Learn(h, r).penalty / 2.0
  {
    assert h as real * 0.04 + r as real * 0.08 == (h + 2 * r) as real * 0.04;
    assert (h + 1) as real * 0.04 + r as real * 0.08 == (h + 2 * r + 1) as real * 0.04;
    assert h as real * 0.04 + (r + 1) as real * 0.08 == (h + 2 * r + 2) as real * 0.04;
  }

  /** The assessment a canary records: the sizes of the conflict it found, its safety, that less the
      learned penalty, and the verdict. */
  lemma {:induction false} CanaryAssesses(d: Desk, scopes: seq<string>, subject: string, pred: string, now: Time)
    requires ValidMem(d.mem) && Detected(d, scopes, subject, pred).Some?
    ensures var facts, logs := ActiveAcross(d.mem, scopes, subject, pred), Canary(d, scopes, subject, pred, now).assessments;
      && |logs| == |d.assessments| + 1 && logs[..|d.assessments|] == d.assessments
      && var a := logs[|d.assessments|];
         && a.repairId == Detected(d, scopes, subject, pred).value.id && SameScopes(a.scopeKeys, scopes) && a.createdAt == now
         && a.factCount == |facts| && a.stateCount == |StatesOf(facts)| && a.safety == SafetyScore(|facts|, |StatesOf(facts)|)
         && a.effective == Max(0.0, a.safety - if Load(d, scopes).Some? then Load(d, scopes).value.penalty else 0.0)
         && a.recommendation == CanaryVerdict(d, scopes, subject, pred, now).recommendation
  {
    hide ActiveAcross, StatesOf, SortStrings, Load, RepairFacts, SafetyScore;
    var d1 := Detect(d, scopes, subject, pred);
    StandsForConflict(d.mem, d1.mem, scopes, subject, pred);
    SortStringsMembers(scopes);
    assert Elements(SortStrings(scopes)) == Elements(scopes);
  }

  // ------------------------------------------------------------------- the preferred fact

  /** The preferred fact is the first of those that start latest. */
  lemma {:induction false} LatestIsFirst(facts: seq<Fact>) returns (i: nat)
    requires facts != []
    ensures i < |facts| && facts[i] == Latest(facts)
    ensures forall j :: 0 <= j < |facts| ==> StartOf(facts[j]) <= StartOf(Latest(facts))
    ensures forall j :: 0 <= j < i ==> StartOf(facts[j]) < StartOf(Latest(facts))
  {
    var n := |facts| - 1;
    if n == 0 {
      i := 0;
    } else {
      i := LatestIsFirst(facts[..n]);
      if StartOf(facts[n]) > StartOf(facts[i]) {
        i := n;
      }
    }
  }

  /** What a detection records: the scopes, the active facts across them, the state of the preferred
      one, and that it is only recommended; and it records exactly when they state two or more things. */
  lemma {:induction false} DetectionRecords(d: Desk, scopes: seq<string>, subject: string, pred: string)
    ensures var facts, r := ActiveAcross(d.mem, scopes, subject, pred), Detected(d, scopes, subject, pred);
      && (r.Some? <==> exists f, g :: f in facts && g in facts && f.obj != g.obj)
      && (r.Some? ==>
            && SameScopes(r.value.scopeKeys, scopes) && r.value.subject == subject && r.value.pred == pred
            && r.value.factIds == Ids(facts) && r.value.status == Recommended
            && exists f :: f in facts && f.obj == r.value.recommendedObject
                           && forall g :: g in facts ==> StartOf(g) <= StartOf(f))
  {
    hide ActiveAcross, SortStrings;
    var facts := ActiveAcross(d.mem, scopes, subject, pred);
    SortStringsMembers(scopes);
    assert Elements(SortStrings(scopes)) == Elements(scopes);
    TwoStates(facts);
    if |StatesOf(facts)| > 1 {
      NoFactsNoStates(facts);
      var i := LatestIsFirst(facts);
      assert forall g :: g in facts ==> StartOf(g) <= StartOf(Latest(facts));
    }
  }

  lemma {:induction false} TwoStates(facts: seq<Fact>)
    ensures |StatesOf(facts)| > 1 <==> exists f, g :: f in facts && g in facts && f.obj != g.obj
  {
    var states := StatesOf(facts);
    if exists f, g :: f in facts && g in facts && f.obj != g.obj {
      var f, g :| f in facts && g in facts && f.obj != g.obj;
      assert {f.obj, g.obj} <= states;
      SubsetCount({f.obj, g.obj}, states);
    } else if facts != [] {
      assert states == {facts[0].obj};
    } else {
      assert states == {};
    }
  }

  lemma {:induction false} SubsetCount<T>(a: set<T>, b: set<T>)
    requires a <= b
    ensures |a| <= |b|
    decreases |a|
  {
    if a != {} {
      var x :| x in a;
      SubsetCount(a - {x}, b - {x});
    }
  }

  // ------------------------------------------------------------------- marks and counts

  /** Only the repair itself is marked. */
  lemma {:induction false} StatusMarks(repairs: seq<RepairRecord>, id: Id, status: RepairStatus, i: nat)
    requires i < |repairs|
    ensures var marked := WithRepairStatus(repairs, id, status);
      |marked| == |repairs| && marked[i] == if repairs[i].id == id then repairs[i].(status := status) else repairs[i]
  {
  }

  /** An apply marks its repair applied and logs one action run and one entry: the statuses before, and
      one active fact after. */
  lemma {:induction false} ApplyRecords(d: Desk, id: Id, now: Time)
    requires ValidMem(d.mem) && ApplyRepair(d, id, now).Done?
    ensures var d', repair := ApplyRepair(d, id, now).desk, FindRepair(d.repairs, id).value;
      var facts := RepairFacts(d.mem, repair.factIds);
      && d'.repairs == WithRepairStatus(d.repairs, id, Applied)
      && |d'.runs| == |d.runs| + 1 && d'.runs[..|d.runs|] == d.runs
      && |d'.analytics| == |d.analytics| + 1 && d'.analytics[..|d.analytics|] == d.analytics
      && var run, log := d'.runs[|d.runs|], d'.analytics[|d.analytics|];
         && run.repairId == log.repairId == id && run.action == log.action == ApplyAction && run.completedAt == now
         && (forall f :: f in facts ==> f.id in run.previous && run.previous[f.id] == f.status)
         && (forall f :: f in facts ==> f.id in run.updated
                                        && (run.updated[f.id] == Active <==> f == Latest(facts)))
         && log.activeAfter == 1 && log.restored == 0
         && log.activeBefore == |set f | f in facts && f.status == Active|
  {
    var repair := FindRepair(d.repairs, id).value;
    var facts := RepairFacts(d.mem, repair.factIds);
    RepairFactsVisible(d.mem, repair.factIds);
    hide RepairFacts, LatestAssessment, Refreshed, AppliedMem, FindRepair;
    forall f | f in facts
      ensures f.id in StatusMap(facts) && StatusMap(facts)[f.id] == f.status
      ensures f.id in AppliedStatuses(facts, Latest(facts))
      ensures AppliedStatuses(facts, Latest(facts))[f.id] == Active <==> f == Latest(facts)
    {
      StatusRule(facts, f);
      AppliedRule(facts, Latest(facts), f.id);
    }
    OneActiveAfter(facts);
    ActiveBefore(facts);
  }

  lemma {:induction false} CountIs(st: map<Id, Status>, ids: set<Id>)
    requires forall id :: id in ids <==> id in st && st[id] == Active
    ensures CountActive(st) == |ids|
  {
    assert ids == set id | id in st && st[id] == Active;
  }

  lemma {:induction false} OneActiveAfter(facts: seq<Fact>)
    requires facts != []
    ensures CountActive(AppliedStatuses(facts, Latest(facts))) == 1
  {
    var st, latest := AppliedStatuses(facts, Latest(facts)), Latest(facts);
    AppliedRule(facts, latest, latest.id);
    forall id | id in st
      ensures st[id] == Active <==> id == latest.id
    {
      AppliedRule(facts, latest, id);
    }
    CountIs(st, {latest.id});
  }

  lemma {:induction false} ActiveBefore(facts: seq<Fact>)
    requires OneEach(facts)
    ensures CountActive(StatusMap(facts)) == |set f | f in facts && f.status == Active|
  {
    var st := StatusMap(facts);
    var active := set f | f in facts && f.status == Active;
    var ids := set f | f in active :: f.id;
    forall id
      ensures id in ids <==> id in st && st[id] == Active
    {
      if id in st {
        StatusKeys(facts, id);
        var f :| f in facts && f.id == id;
        StatusRule(facts, f);
      }
      if id in ids {
        var f :| f in active && f.id == id;
        StatusRule(facts, f);
      }
    }
    CountIs(st, ids);
    ImageCount(active);
  }

  lemma {:induction false} ImageCount(s: set<Fact>)
    requires forall f, g :: f in s && g in s && f.id == g.id ==> f == g
    ensures |set f | f in s :: f.id| == |s|
  {
    if s == {} {
      assert (set f | f in s :: f.id) == {};
    } else {
      var x :| x in s;
      ImageCount(s - {x});
      assert (set f | f in s :: f.id) == (set f | f in s - {x} :: f.id) + {x.id};
    }
  }

  /** A rollback marks its repair rolled back and logs one action run and one entry of its own. */
  lemma {:induction false} RollbackRecords(d: Desk, id: Id, now: Time)
    requires RollbackRepair(d, id, now).Done?
    ensures var d', prior := RollbackRepair(d, id, now).desk, PriorApply(d, id);
      && d'.repairs == WithRepairStatus(d.repairs, id, RolledBack)
      && |d'.runs| == |d.runs| + 1 && d'.runs[..|d.runs|] == d.runs
      && |d'.analytics| == |d.analytics| + 1 && d'.analytics[..|d.analytics|] == d.analytics
      && var run, log := d'.runs[|d.runs|], d'.analytics[|d.analytics|];
         && run.repairId == log.repairId == id && run.action == log.action == RollbackAction && run.completedAt == now
         && prior.Some? && run.previous == prior.value.updated
         && log.activeBefore == CountActive(run.previous) && log.activeAfter == CountActive(run.updated)
  {
    hide RepairFacts, WithStatuses, PriorApply, CountActive, RestoredStatuses;
  }
}
