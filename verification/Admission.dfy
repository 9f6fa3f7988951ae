/** The admission controller: what training on lifecycle traces learns, how candidates are scored
    and governed, and which of them can ever be written (memory/matrix.py). Scores are exact reals;
    the text signals of a candidate are given, not computed. */
module Admission {
  import opened Prelude
  import opened Records
  import opened Pointers

  // ----------------------------------------------------------------------- records

  datatype Policy = Policy(quarantine: real, block: real, confirmation: real)

  /** A lifecycle trace: its events, and its memory_poison_signal_rate (zero when absent). */
  datatype Trace = Trace(events: seq<string>, poisonRate: real)

  datatype Weights = Weights(instruction: real, tool: real, contradiction: real, privacy: real, singleSource: real)

  datatype Controller = Controller(
    poisonBoost: real, contradictionBoost: real, privacyBoost: real,
    quarantine: real, block: real, confirmation: real, weights: Weights)

  /** The override and destruction signals found in a candidate's text. */
  datatype Signals = Signals(instruction: real, tool: real, destructive: real)

  datatype Submission = Submission(candidate: Candidate, signals: Signals)

  datatype Admission = Accepted | Blocked | Quarantined | RequiresConfirmation

  /** The action of a governance decision. */
  datatype Action =
    | BlockedAction | QuarantinedAction | ConfirmationAction
    | SemanticMemory | ProceduralMemory | EpisodicOnly | MatrixMemory | ExplicitMemory

  // ---------------------------------------------------------------------- training

  predicate PartAt(text: string, part: string, i: nat) {
    i + |part| <= |text| && text[i..i + |part|] == part
  }

  /** `part in text` for strings */
  predicate Contains(text: string, part: string) {
    exists i :: 0 <= i <= |text| && PartAt(text, part, i)
  }

  predicate IsSuspicious(event: string) {
    event in {"candidate_quarantined", "suspicious_override_detected", "hard_purge_completed", "selective_purge_completed"}
  }

  predicate IsContradiction(event: string) { Contains(event, "contradiction") }

  predicate IsPrivacy(event: string) { Contains(event, "privacy") || Contains(event, "sensitive") }

  predicate IsToolOverride(event: string) { Contains(event, "tool_override") }

  predicate IsInstruction(event: string) { Contains(event, "override") || Contains(event, "approval") }

  function Count(events: seq<string>, p: string -> bool): nat {
    |Filter(events, p)|
  }

  function SuspiciousIn(t: Trace): nat { Count(t.events, IsSuspicious) + if t.poisonRate >= 0.5 then 1 else 0 }

  function ContradictionsIn(t: Trace): nat { Count(t.events, IsContradiction) }

  function PrivacyIn(t: Trace): nat { Count(t.events, IsPrivacy) }

  function ToolsIn(t: Trace): nat { Count(t.events, IsToolOverride) }

  function InstructionsIn(t: Trace): nat { Count(t.events, IsInstruction) }

  function Sum(traces: seq<Trace>, f: Trace -> nat): nat {
    if traces == [] then 0 else Sum(traces[..|traces| - 1], f) + f(traces[|traces| - 1])
  }

  const DEFAULT_POLICY := Policy(0.65, 0.9, 0.8)

  function PolicyOr(policy: Option<Policy>): Policy { GetOr(policy, DEFAULT_POLICY) }

  /** The controller that five event counts and the number of traces lead to. */
  function Learned(suspicious: nat, contradictions: nat, privacy: nat, tools: nat, instructions: nat, n: nat, base: Policy): Controller {
    var poisonBoost := Min(0.25, suspicious as real * 0.05);
    var privacyBoost := Min(0.2, privacy as real * 0.05);
    Controller(
      poisonBoost, Min(0.2, contradictions as real * 0.05), privacyBoost,
      Max(0.35, base.quarantine - poisonBoost), base.block, Max(0.2, base.confirmation - privacyBoost / 2.0),
      Weights(Min(0.25, 0.08 + instructions as real * 0.03), Min(0.2, tools as real * 0.04),
              Min(0.2, contradictions as real * 0.05), Min(0.2, privacy as real * 0.05),
              Min(0.1, Max(0.0, (n - 1) as real) * 0.01)))
  }

  /** train_admission_controller */
  function Train(traces: seq<Trace>, policy: Option<Policy>): Controller {
    Learned(Sum(traces, SuspiciousIn), Sum(traces, ContradictionsIn), Sum(traces, PrivacyIn),
            Sum(traces, ToolsIn), Sum(traces, InstructionsIn), |traces|, PolicyOr(policy))
  }

  // ----------------------------------------------------------------------- scoring

  function SingleSource(c: Candidate): real { if |c.sources| <= 1 then 1.0 else 0.0 }

  /** The weighted sum of the features of a submission. */
  function FeatureSum(s: Submission, learned: Option<Controller>): real {
    var c := s.candidate;
    match learned
    case None => 0.2 * s.signals.destructive
    case Some(l) =>
      l.weights.instruction * s.signals.instruction + l.weights.tool * s.signals.tool + 0.2 * s.signals.destructive
      + Max(l.weights.privacy, l.privacyBoost) * c.privacyRisk
      + Max(l.weights.contradiction, l.contradictionBoost) * c.contradictionRisk
      + l.weights.singleSource * SingleSource(c)
  }

  function WeightedScore(s: Submission, learned: Option<Controller>): real {
    Min(1.0, s.candidate.poisonRisk + FeatureSum(s, learned))
  }

  /** The action _score_admission_features recommends. */
  function ScoredAction(s: Submission, learned: Option<Controller>): Admission {
    match learned
    case None => Accepted
    case Some(l) =>
      if WeightedScore(s, learned) >= l.block then Blocked
      else if WeightedScore(s, learned) >= l.quarantine then Quarantined
      else if s.candidate.privacyRisk >= l.confirmation then RequiresConfirmation
      else Accepted
  }

  // --------------------------------------------------------------------- governing

  function AdjustedPoison(s: Submission, learned: Option<Controller>): real {
    var p := s.candidate.poisonRisk;
    if learned.Some? && p >= 0.5 then Min(1.0, p + learned.value.poisonBoost) else p
  }

  function AdjustedPrivacy(s: Submission, learned: Option<Controller>): real {
    var p := s.candidate.privacyRisk;
    if learned.Some? then Min(1.0, p + learned.value.privacyBoost) else p
  }

  function AdjustedContradiction(s: Submission, learned: Option<Controller>): real {
    var p := s.candidate.contradictionRisk;
    if learned.Some? then Min(1.0, p + learned.value.contradictionBoost) else p
  }

  /** The thresholds in force: a learned one only ever lowers the policy's. */
  function Thresholds(policy: Option<Policy>, learned: Option<Controller>): Policy {
    var p := PolicyOr(policy);
    match learned
    case None => p
    case Some(l) => Policy(Min(p.quarantine, l.quarantine), Min(p.block, l.block), Min(p.confirmation, l.confirmation))
  }

  /** The admission action of govern_candidate. Without a policy, contradiction alone never asks
      for confirmation. */
  function Admit(s: Submission, policy: Option<Policy>, learned: Option<Controller>): Admission {
    var t := Thresholds(policy, learned);
    var poison := Max(AdjustedPoison(s, learned), WeightedScore(s, learned));
    if poison >= t.block then Blocked
    else if poison >= t.quarantine then Quarantined
    else if AdjustedPrivacy(s, learned) >= t.confirmation
         || (policy.Some? && AdjustedContradiction(s, learned) >= t.confirmation) then RequiresConfirmation
    else Accepted
  }

  /** A reason to block a candidate that admission accepted. */
  predicate Objectionable(s: Submission, learned: Option<Controller>) {
    || AdjustedPoison(s, learned) >= 0.8
    || AdjustedPrivacy(s, learned) >= 0.9
    || (ScoredAction(s, learned) in {Quarantined, Blocked} && s.signals.instruction >= 0.5)
    || (ScoredAction(s, learned) in {Quarantined, Blocked} && s.signals.tool >= 0.5)
  }

  function LaneAction(lane: Lane): Action {
    match lane
    case SemanticLane => SemanticMemory
    case ProceduralLane => ProceduralMemory
    case EpisodicLane => EpisodicOnly
    case MatrixLane => MatrixMemory
    case ExplicitLane => ExplicitMemory
    case UnknownLane => EpisodicOnly
  }

  /** govern_candidate */
  function Govern(s: Submission, policy: Option<Policy>, learned: Option<Controller>): Action {
    match Admit(s, policy, learned)
    case Blocked => BlockedAction
    case Quarantined => QuarantinedAction
    case RequiresConfirmation => ConfirmationAction
    case Accepted => if Objectionable(s, learned) then BlockedAction else LaneAction(s.candidate.lane)
  }

  /** The decision does not stop the candidate. */
  predicate Passes(a: Action) {
    a !in {BlockedAction, QuarantinedAction, ConfirmationAction}
  }

  /** Risks are probabilities and signals are not negative. */
  predicate Plausible(s: Submission) {
    && 0.0 <= s.candidate.poisonRisk <= 1.0 && 0.0 <= s.candidate.privacyRisk <= 1.0
    && 0.0 <= s.candidate.contradictionRisk <= 1.0
    && s.signals.instruction >= 0.0 && s.signals.tool >= 0.0 && s.signals.destructive >= 0.0
  }

  /** Exactly which candidates govern_candidate lets through. */
  lemma {:induction false} PassesIff(s: Submission, policy: Option<Policy>, learned: Option<Controller>)
    ensures var t := Thresholds(policy, learned);
      Passes(Govern(s, policy, learned))
      <==> && AdjustedPoison(s, learned) < Min(0.8, Min(t.block, t.quarantine))
           && WeightedScore(s, learned) < Min(t.block, t.quarantine)
           && AdjustedPrivacy(s, learned) < Min(0.9, t.confirmation)
           && (policy.Some? ==> AdjustedContradiction(s, learned) < t.confirmation)
           && (learned.Some? && Max(s.signals.instruction, s.signals.tool) >= 0.5 ==>
                 WeightedScore(s, learned) < Min(learned.value.block, learned.value.quarantine))
  {
  }

  // ------------------------------------------------------- training shrinks the admitted set

  /** One controller is at least as strict as another in everything it learned. */
  ghost predicate AtLeastAsStrict(b: Controller, a: Controller) {
    && b.poisonBoost >= a.poisonBoost && b.contradictionBoost >= a.contradictionBoost && b.privacyBoost >= a.privacyBoost
    && b.quarantine <= a.quarantine && b.block <= a.block && b.confirmation <= a.confirmation
    && b.weights.instruction >= a.weights.instruction && b.weights.tool >= a.weights.tool
    && b.weights.contradiction >= a.weights.contradiction && b.weights.privacy >= a.weights.privacy
    && b.weights.singleSource >= a.weights.singleSource
  }

  /** The boosts and weights of a controller are not negative. */
  ghost predicate Nonnegative(a: Controller) {
    && a.poisonBoost >= 0.0 && a.contradictionBoost >= 0.0 && a.privacyBoost >= 0.0
    && a.weights.instruction >= 0.0 && a.weights.tool >= 0.0 && a.weights.contradiction >= 0.0
    && a.weights.privacy >= 0.0 && a.weights.singleSource >= 0.0
  }

  /** The features that a controller weighs, in the order of its weights. */
  function Features(s: Submission): (r: seq<real>)
    ensures |r| == 5
  {
    [s.signals.instruction, s.signals.tool, s.candidate.privacyRisk, s.candidate.contradictionRisk,
     SingleSource(s.candidate)]
  }

  function Dot(w: seq<real>, x: seq<real>): real
    requires |w| == |x|
  {
    if w == [] then 0.0 else Dot(w[..|w| - 1], x[..|x| - 1]) + w[|w| - 1] * x[|x| - 1]
  }

  lemma {:induction false} Scale(w: real, v: real, x: real)
    requires w <= v && x >= 0.0
    ensures w * x <= v * x
  {
    assert 0.0 <= (v - w) * x;
  }

  lemma {:induction false} DotGrows(w: seq<real>, v: seq<real>, x: seq<real>)
    requires |w| == |v| == |x| && forall i :: 0 <= i < |w| ==> w[i] <= v[i] && x[i] >= 0.0
    ensures Dot(w, x) <= Dot(v, x)
  {
    if w != [] {
      var n := |w| - 1;
      DotGrows(w[..n], v[..n], x[..n]);
      Scale(w[n], v[n], x[n]);
    }
  }

  /** The weights a controller scores with: what it learned, lifted to its boosts. */
  function WeightsOf(l: Controller): (r: seq<real>)
    ensures |r| == 5
  {
    [l.weights.instruction, l.weights.tool, Max(l.weights.privacy, l.privacyBoost),
     Max(l.weights.contradiction, l.contradictionBoost), l.weights.singleSource]
  }

  lemma {:induction false} DotOfThree(w: seq<real>, x: seq<real>)
    requires |w| == |x| == 3
    ensures Dot(w, x) == w[0] * x[0] + w[1] * x[1] + w[2] * x[2]
  {
    assert w[..2][..1] == w[..1] && x[..2][..1] == x[..1];
    assert Dot(w[..1], x[..1]) == w[0] * x[0];
    assert Dot(w[..2], x[..2]) == Dot(w[..1], x[..1]) + w[1] * x[1];
  }

  lemma {:induction false} DotOfFive(w: seq<real>, x: seq<real>)
    requires |w| == |x| == 5
    ensures Dot(w, x) == w[0] * x[0] + w[1] * x[1] + w[2] * x[2] + w[3] * x[3] + w[4] * x[4]
  {
    DotOfThree(w[..3], x[..3]);
    assert w[..4][..3] == w[..3] && x[..4][..3] == x[..3];
    assert Dot(w[..4], x[..4]) == Dot(w[..3], x[..3]) + w[3] * x[3];
  }

  /** The score of a trained controller adds its weighted features to the untrained one. */
  lemma {:induction false} SumOfWeights(s: Submission, l: Controller)
    ensures FeatureSum(s, Some(l)) == Dot(WeightsOf(l), Features(s)) + FeatureSum(s, None)
  {
    DotOfFive(WeightsOf(l), Features(s));
  }

  lemma {:induction false} StricterScore(s: Submission, a: Controller, b: Controller)
    requires Plausible(s) && AtLeastAsStrict(b, a)
    ensures WeightedScore(s, Some(a)) <= WeightedScore(s, Some(b))
  {
    DotGrows(WeightsOf(a), WeightsOf(b), Features(s));
    SumOfWeights(s, a);
    SumOfWeights(s, b);
  }

  lemma {:induction false} TrainedScore(s: Submission, b: Controller)
    requires Plausible(s) && Nonnegative(b)
    ensures WeightedScore(s, None) <= WeightedScore(s, Some(b))
  {
    var none := [0.0, 0.0, 0.0, 0.0, 0.0];
    DotGrows(none, WeightsOf(b), Features(s));
    DotOfFive(none, Features(s));
    SumOfWeights(s, b);
  }

  /** A stricter controller lets through no more. */
  lemma {:induction false} StricterAdmitsLess(s: Submission, policy: Option<Policy>, a: Controller, b: Controller)
    requires Plausible(s) && AtLeastAsStrict(b, a)
    requires Passes(Govern(s, policy, Some(b)))
    ensures Passes(Govern(s, policy, Some(a)))
  {
    StricterScore(s, a, b);
    PassesIff(s, policy, Some(a));
    PassesIff(s, policy, Some(b));
  }

  lemma {:induction false} SumSplit(s: seq<Trace>, i: nat, f: Trace -> nat)
    requires i < |s|
    ensures Sum(s, f) == Sum(s[..i] + s[i + 1..], f) + f(s[i])
    decreases |s|
  {
    var n := |s| - 1;
    var rest := s[..i] + s[i + 1..];
    if i == n {
      assert rest == s[..n];
    } else {
      SumSplit(s[..n], i, f);
      assert s[..n][..i] + s[..n][i + 1..] == rest[..|rest| - 1];
      assert rest[|rest| - 1] == s[n];
    }
  }

  lemma {:induction false} WithoutOne(t: seq<Trace>, i: nat)
    requires i < |t|
    ensures multiset(t) == multiset(t[..i] + t[i + 1..]) + multiset{t[i]}
  {
    assert t == t[..i] + [t[i]] + t[i + 1..];
  }

  lemma {:induction false} Occurrence(s: seq<Trace>, t: seq<Trace>) returns (i: nat)
    requires s != [] && multiset(s) <= multiset(t)
    ensures i < |t| && t[i] == s[|s| - 1]
    ensures multiset(s[..|s| - 1]) <= multiset(t[..i] + t[i + 1..])
  {
    var n := |s| - 1;
    assert s[n] in multiset(s);
    assert s[n] in multiset(t);
    i :| 0 <= i < |t| && t[i] == s[n];
    WithoutOne(t, i);
    PrefixMultiset(s);
  }

  /** More traces, in any order, count no less of anything. */
  lemma {:induction false} SumGrows(s: seq<Trace>, t: seq<Trace>, f: Trace -> nat)
    requires multiset(s) <= multiset(t)
    ensures Sum(s, f) <= Sum(t, f) && |s| <= |t|
    decreases |s|
  {
    if s != [] {
      var i := Occurrence(s, t);
      SumGrows(s[..|s| - 1], t[..i] + t[i + 1..], f);
      SumSplit(t, i, f);
    }
  }

  lemma {:induction false} MoreTracesStricter(s: seq<Trace>, t: seq<Trace>, policy: Option<Policy>)
    requires multiset(s) <= multiset(t)
    ensures AtLeastAsStrict(Train(t, policy), Train(s, policy))
  {
    SumGrows(s, t, SuspiciousIn);
    SumGrows(s, t, ContradictionsIn);
    SumGrows(s, t, PrivacyIn);
    SumGrows(s, t, ToolsIn);
    SumGrows(s, t, InstructionsIn);
  }

  lemma {:induction false} TrainedNonnegative(t: seq<Trace>, policy: Option<Policy>)
    ensures Nonnegative(Train(t, policy))
  {
  }

  /** Training only shrinks the admitted set: under one policy, whatever a controller trained on
      more traces lets through, the one trained on fewer lets through as well. */
  lemma {:induction false} TrainingShrinks(s: Submission, policy: Option<Policy>, fewer: seq<Trace>, more: seq<Trace>)
    requires Plausible(s) && multiset(fewer) <= multiset(more)
    requires Passes(Govern(s, policy, Some(Train(more, policy))))
    ensures Passes(Govern(s, policy, Some(Train(fewer, policy))))
  {
    MoreTracesStricter(fewer, more, policy);
    StricterAdmitsLess(s, policy, Train(fewer, policy), Train(more, policy));
  }

  lemma {:induction false} TrainingOnlyRaises(s: Submission, policy: Option<Policy>, l: Controller)
    requires Plausible(s) && Nonnegative(l) && Passes(Govern(s, policy, Some(l)))
    ensures Passes(Govern(s, policy, None))
  {
    TrainedScore(s, l);
    PassesIff(s, policy, Some(l));
    PassesIff(s, policy, None);
  }

  /** Whatever a trained controller lets through, the untrained one does, even if the controller
      was trained under a policy that has changed since. */
  lemma {:induction false} UntrainedAdmitsMost(s: Submission, policy: Option<Policy>, trained: Option<Policy>, traces: seq<Trace>)
    requires Plausible(s)
    requires Passes(Govern(s, policy, Some(Train(traces, trained))))
    ensures Passes(Govern(s, policy, None))
  {
    TrainedNonnegative(traces, trained);
    TrainingOnlyRaises(s, policy, Train(traces, trained));
  }

  // --------------------------------------------------------------- the governance gate

  predicate Risky(s: Submission) {
    s.candidate.poisonRisk >= 0.8 || s.candidate.privacyRisk >= 0.9
  }

  /** No policy and no controller lets a risky candidate through. */
  lemma {:induction false} RiskyNeverPasses(s: Submission, policy: Option<Policy>, learned: Option<Controller>)
    requires Risky(s) && (learned.Some? ==> Nonnegative(learned.value))
    ensures !Passes(Govern(s, policy, learned))
  {
    PassesIff(s, policy, learned);
  }

  /** The admission part of MemoryMatrix, beside the memory it guards. */
  datatype Gate = Gate(
    mem: Mem, submissions: map<Id, Submission>, decisions: map<Id, Action>,
    policies: map<string, Policy>, controllers: map<string, Controller>, traces: seq<(string, Trace)>)

  function PolicyFor(g: Gate, scope: string): Option<Policy> {
    if scope in g.policies then Some(g.policies[scope]) else None
  }

  function ControllerFor(g: Gate, scope: string): Option<Controller> {
    if scope in g.controllers then Some(g.controllers[scope]) else None
  }

  function TracesOf(traces: seq<(string, Trace)>, scope: string): seq<Trace> {
    if traces == [] then []
    else
      var last := traces[|traces| - 1];
      TracesOf(traces[..|traces| - 1], scope) + if last.0 == scope then [last.1] else []
  }

  /** What a decided action writes: only three of the actions reach the memory. */
  function Written(m: Mem, action: Action, c: Candidate, now: Time): Mem {
    match action
    case SemanticMemory => WriteSemantic(m, c, now)
    case ProceduralMemory => WriteProcedural(m, c, now)
    case ExplicitMemory => WriteExplicit(m, c, now)
    case _ => m
  }

  /** consolidate_candidate: an unknown candidate raises and an undecided one is blocked. */
  function ConsolidateCandidate(g: Gate, id: Id, now: Time): Mem {
    if id !in g.submissions || id !in g.decisions then g.mem
    else Written(g.mem, g.decisions[id], g.submissions[id].candidate, now)
  }

  datatype GateEvent =
    | Submit(candidate: Candidate, signals: Signals)
    | GovernIt(id: Id)
    | ConsolidateIt(id: Id)
    | Configure(scope: string, policy: Policy)
    | RecordTrace(scope: string, trace: Trace)
    | TrainIt(scope: string)
    | Forget(ids: set<Id>, undecide: set<Id>, scopes: set<string>)
    | Elsewhere(mem: Mem)

  /** One step. `Forget` is what purges do to candidates, decisions, controllers and traces;
      `Elsewhere` is any operation that leaves the gate alone and does not rewind the counter. */
  function GateStep(g: Gate, e: GateEvent, now: Time): Gate {
    match e
    case Submit(c, signals) =>
      g.(submissions := g.submissions[g.mem.nextId := Submission(c.(id := g.mem.nextId), signals)],
         mem := g.mem.(nextId := g.mem.nextId + 1))
    case GovernIt(id) =>
      if id !in g.submissions then g
      else
        var s := g.submissions[id];
        g.(decisions := g.decisions[id :=
             Govern(s, PolicyFor(g, s.candidate.scope), ControllerFor(g, s.candidate.scope))])
    case ConsolidateIt(id) => g.(mem := ConsolidateCandidate(g, id, now))
    case Configure(scope, policy) => g.(policies := g.policies[scope := policy])
    case RecordTrace(scope, trace) => g.(traces := g.traces + [(scope, trace)])
    case TrainIt(scope) =>
      g.(controllers := g.controllers[scope := Train(TracesOf(g.traces, scope), PolicyFor(g, scope))])
    case Forget(ids, undecide, scopes) =>
      g.(submissions := g.submissions - ids, decisions := g.decisions - undecide, controllers := g.controllers - scopes)
    case Elsewhere(mem) => if g.mem.nextId <= mem.nextId then g.(mem := mem) else g
  }

  datatype TimedGate = AtGate(event: GateEvent, now: Time)

  const OPEN := Gate(EMPTY, map[], map[], map[], map[], [])

  function GateRun(run: seq<TimedGate>): Gate {
    if run == [] then OPEN
    else GateStep(GateRun(run[..|run| - 1]), run[|run| - 1].event, run[|run| - 1].now)
  }

  /** No standing decision lets a risky candidate through, and ids are not reused. */
  ghost predicate Guarded(g: Gate) {
    && (forall id :: id in g.submissions ==> id < g.mem.nextId)
    && (forall id :: id in g.decisions ==> id < g.mem.nextId)
    && (forall scope :: scope in g.controllers ==> Nonnegative(g.controllers[scope]))
    && (forall id :: id in g.submissions && id in g.decisions && Risky(g.submissions[id]) ==> !Passes(g.decisions[id]))
  }

  lemma {:induction false} CounterGrows(g: Gate, id: Id, now: Time)
    ensures g.mem.nextId <= ConsolidateCandidate(g, id, now).nextId
  {
  }

  lemma {:induction false} GovernGuarded(g: Gate, id: Id)
    requires Guarded(g) && id in g.submissions
    ensures Guarded(GateStep(g, GovernIt(id), 0))
  {
    var s := g.submissions[id];
    if Risky(s) {
      RiskyNeverPasses(s, PolicyFor(g, s.candidate.scope), ControllerFor(g, s.candidate.scope));
    }
  }

  lemma {:induction false} StepGuarded(g: Gate, e: GateEvent, now: Time)
    requires Guarded(g)
    ensures Guarded(GateStep(g, e, now))
  {
    match e
    case GovernIt(id) =>
      if id in g.submissions {
        GovernGuarded(g, id);
      }
    case ConsolidateIt(id) => CounterGrows(g, id, now);
    case TrainIt(scope) => TrainedNonnegative(TracesOf(g.traces, scope), PolicyFor(g, scope));
    case _ =>
  }

  lemma {:induction false} RunGuarded(run: seq<TimedGate>)
    ensures Guarded(GateRun(run))
  {
    if run != [] {
      RunGuarded(run[..|run| - 1]);
      StepGuarded(GateRun(run[..|run| - 1]), run[|run| - 1].event, run[|run| - 1].now);
    }
  }

  /** The governance gate over whole runs: under every policy, training history, purge and number
      of re-governings, consolidating a risky candidate writes no fact, pattern, explicit record
      or pointer: it leaves the memory as it is. */
  lemma {:induction false} RiskyNeverWritten(run: seq<TimedGate>, id: Id, now: Time)
    requires id in GateRun(run).submissions && Risky(GateRun(run).submissions[id])
    ensures ConsolidateCandidate(GateRun(run), id, now) == GateRun(run).mem
  {
    RunGuarded(run);
  }
}
