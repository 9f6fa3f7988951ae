/** What the admission controller learns, signal by signal, and which action a candidate then gets
    (memory/matrix.py). */
module AdmissionLaws {
  import opened Prelude
  import opened Records
  import opened Admission
  import opened FactStore
  import opened Pointers

  // ------------------------------------------------------------------ the action, exactly

  /** Which action govern_candidate takes, for every policy and controller: the poison thresholds
      come first, then confirmation, then the objections, and only then the lane. */
  lemma {:induction false} ActionIff(s: Submission, policy: Option<Policy>, learned: Option<Controller>)
    ensures var a, t := Govern(s, policy, learned), Thresholds(policy, learned);
      var poison := Max(AdjustedPoison(s, learned), WeightedScore(s, learned));
      var clear := poison < t.block && poison < t.quarantine;
      var asks := AdjustedPrivacy(s, learned) >= t.confirmation
               || (policy.Some? && AdjustedContradiction(s, learned) >= t.confirmation);
      && (a == QuarantinedAction <==> t.quarantine <= poison < t.block)
      && (a == ConfirmationAction <==> clear && asks)
      && (a == BlockedAction <==> poison >= t.block || (clear && !asks && Objectionable(s, learned)))
      && (a == SemanticMemory <==> clear && !asks && !Objectionable(s, learned) && s.candidate.lane == SemanticLane)
      && (a == ProceduralMemory <==> clear && !asks && !Objectionable(s, learned) && s.candidate.lane == ProceduralLane)
      && (a == MatrixMemory <==> clear && !asks && !Objectionable(s, learned) && s.candidate.lane == MatrixLane)
      && (a == ExplicitMemory <==> clear && !asks && !Objectionable(s, learned) && s.candidate.lane == ExplicitLane)
      && (a == EpisodicOnly <==> clear && !asks && !Objectionable(s, learned) && s.candidate.lane in {EpisodicLane, UnknownLane})
  {
  }

  /** The untrained gate without a policy, in numbers: destruction signals count a fifth on top of
      the poison risk, which blocks from 0.9 and quarantines from 0.65; privacy asks from 0.8. */
  lemma {:induction false} UntrainedAction(s: Submission)
    requires Plausible(s)
    ensures var a, c := Govern(s, None, None), s.candidate;
      var score := Min(1.0, c.poisonRisk + s.signals.destructive / 5.0);
      && (a == BlockedAction <==> score >= 0.9)
      && (a == QuarantinedAction <==> 0.65 <= score < 0.9)
      && (a == ConfirmationAction <==> score < 0.65 && c.privacyRisk >= 0.8)
      && (Passes(a) ==> a == LaneAction(c.lane))
  {
  }

  /** Risks stay probabilities however much a controller lifts them. */
  lemma {:induction false} AdjustedStayRisks(s: Submission, learned: Option<Controller>)
    requires Plausible(s) && (learned.Some? ==> Nonnegative(learned.value))
    ensures s.candidate.poisonRisk <= AdjustedPoison(s, learned) <= 1.0
    ensures s.candidate.privacyRisk <= AdjustedPrivacy(s, learned) <= 1.0
    ensures s.candidate.contradictionRisk <= AdjustedContradiction(s, learned) <= 1.0
    ensures WeightedScore(s, learned) <= 1.0
  {
  }

  /** Only a candidate without a second source bears the weight of single sources. */
  lemma {:induction false} SingleSourceWeighs(s: Submission, l: Controller, a: string, b: string)
    ensures var two := s.(candidate := s.candidate.(sources := [a, b]));
      FeatureSum(s, Some(l)) == FeatureSum(two, Some(l)) + if |s.candidate.sources| <= 1 then l.weights.singleSource else 0.0
  {
  }

  /** The objections to override signals never decide: what admission accepts was never scored for
      quarantine or blocking, so only high poison or privacy risk can still stop it. */
  lemma {:induction false} OverrideObjectionsIdle(s: Submission, policy: Option<Policy>, learned: Option<Controller>)
    requires Admit(s, policy, learned) == Accepted
    ensures ScoredAction(s, learned) !in {Quarantined, Blocked}
    ensures Govern(s, policy, learned) == BlockedAction
       <==> AdjustedPoison(s, learned) >= 0.8 || AdjustedPrivacy(s, learned) >= 0.9
  {
  }

  /** What consolidation adds to the memory: a fact for a semantic decision, a pattern for a procedural
      one, each with one pointer at it, an explicit record for an explicit one, and nothing otherwise. */
  lemma {:induction false} ConsolidationAdds(g: Gate, id: Id, now: Time)
    requires id in g.submissions && id in g.decisions
    ensures var m, m', a := g.mem, GateStep(g, ConsolidateIt(id), now).mem, g.decisions[id];
      && |m'.facts| == |m.facts| + (if a == SemanticMemory then 1 else 0)
      && |m'.patterns| == |m.patterns| + (if a == ProceduralMemory then 1 else 0)
      && |m'.explicits| == |m.explicits| + (if a == ExplicitMemory then 1 else 0)
      && |m'.pointers| == |m.pointers| + (if a in {SemanticMemory, ProceduralMemory} then 1 else 0)
      && (a in {SemanticMemory, ProceduralMemory} ==>
            var p := m'.pointers[|m.pointers|];
            && p.facts == (if a == SemanticMemory then [m.nextId] else [])
            && p.patterns == (if a == ProceduralMemory then [m.nextId] else [])
            && p.scope == g.submissions[id].candidate.scope && p.createdAt == now
            && p.episodes == EpisodeSources(g.submissions[id].candidate.sources)
            && p.head == (if a == SemanticMemory then HeadOf(g.submissions[id].candidate) else "procedure"))
      && (a !in {SemanticMemory, ProceduralMemory, ExplicitMemory} ==> m' == m)
  {
    hide RefreshDurative;
    var c := g.submissions[id].candidate;
    if g.decisions[id] == SemanticMemory {
      RefreshKeeps(WriteFact(g.mem, c, now), CandidateLine(c), now);
    }
  }

  lemma {:induction false} RefreshKeeps(m: Mem, line: Line, now: Time)
    ensures RefreshDurative(m, line, now) == m.(duratives := RefreshDurative(m, line, now).duratives)
  {
  }

  /** Forgetting takes exactly what it names. */
  lemma {:induction false} ForgetTakes(g: Gate, ids: set<Id>, undecide: set<Id>, scopes: set<string>, now: Time)
    ensures var g' := GateStep(g, Forget(ids, undecide, scopes), now);
      && (forall id :: id in g'.submissions <==> id in g.submissions && id !in ids)
      && (forall id :: id in g'.decisions <==> id in g.decisions && id !in undecide)
      && (forall scope :: scope in g'.controllers <==> scope in g.controllers && scope !in scopes)
      && g'.mem == g.mem && g'.policies == g.policies && g'.traces == g.traces
  {
  }

  // ------------------------------------------------------------- one more trace, exactly

  lemma {:induction false} SumOneMore(t: seq<Trace>, x: Trace, f: Trace -> nat)
    ensures Sum(t + [x], f) == Sum(t, f) + f(x)
  {
    assert (t + [x])[..|t|] == t;
  }

  /** What has been learned from no trace. */
  lemma {:induction false} TrainNone(policy: Option<Policy>)
    ensures var base := PolicyOr(policy);
      Train([], policy) == Controller(0.0, 0.0, 0.0, Max(0.35, base.quarantine), base.block, Max(0.2, base.confirmation),
                                      Weights(0.08, 0.0, 0.0, 0.0, 0.0))
  {
  }

  lemma {:induction false} Capped(cap: real, rate: real, n: nat, k: nat)
    requires rate >= 0.0 && cap >= 0.0
    ensures Min(cap, (n + k) as real * rate) == Min(cap, Min(cap, n as real * rate) + k as real * rate)
  {
    assert (n + k) as real * rate == n as real * rate + k as real * rate;
    assert k as real * rate >= 0.0;
  }

  /** One more trace raises each boost and weight by the events of its own kind, up to its cap:
      suspicion the poison boost, contradictions and privacy events their boost and weight, tool and
      instruction overrides their weight; the thresholds follow their boosts. */
  lemma {:induction false} TrainOneMore(t: seq<Trace>, x: Trace, policy: Option<Policy>)
    ensures var a, b, base := Train(t, policy), Train(t + [x], policy), PolicyOr(policy);
      && b.poisonBoost == Min(0.25, a.poisonBoost + SuspiciousIn(x) as real * 0.05)
      && b.contradictionBoost == Min(0.2, a.contradictionBoost + ContradictionsIn(x) as real * 0.05)
      && b.privacyBoost == Min(0.2, a.privacyBoost + PrivacyIn(x) as real * 0.05)
      && b.weights.contradiction == Min(0.2, a.weights.contradiction + ContradictionsIn(x) as real * 0.05)
      && b.weights.privacy == Min(0.2, a.weights.privacy + PrivacyIn(x) as real * 0.05)
      && b.weights.tool == Min(0.2, a.weights.tool + ToolsIn(x) as real * 0.04)
      && b.weights.instruction == Min(0.25, a.weights.instruction + InstructionsIn(x) as real * 0.03)
      && b.weights.singleSource == Min(0.1, |t| as real * 0.01)
      && b.quarantine == Max(0.35, base.quarantine - b.poisonBoost) && b.block == base.block
      && b.confirmation == Max(0.2, base.confirmation - b.privacyBoost / 2.0)
  {
    hide SuspiciousIn, ContradictionsIn, PrivacyIn, ToolsIn, InstructionsIn, Sum;
    SumOneMore(t, x, SuspiciousIn);
    SumOneMore(t, x, ContradictionsIn);
    SumOneMore(t, x, PrivacyIn);
    SumOneMore(t, x, ToolsIn);
    SumOneMore(t, x, InstructionsIn);
    Capped(0.25, 0.05, Sum(t, SuspiciousIn), SuspiciousIn(x));
    Capped(0.2, 0.05, Sum(t, ContradictionsIn), ContradictionsIn(x));
    Capped(0.2, 0.05, Sum(t, PrivacyIn), PrivacyIn(x));
    Capped(0.2, 0.04, Sum(t, ToolsIn), ToolsIn(x));
    Capped(0.17, 0.03, Sum(t, InstructionsIn), InstructionsIn(x));
  }

  /** A kind of event that a trace does not carry moves nothing that the kind is learned in. */
  lemma {:induction false} SignalsMoveTheirOwn(t: seq<Trace>, x: Trace, policy: Option<Policy>)
    ensures var a, b := Train(t, policy), Train(t + [x], policy);
      && (SuspiciousIn(x) == 0 ==> b.poisonBoost == a.poisonBoost && b.quarantine == a.quarantine)
      && (ContradictionsIn(x) == 0 ==> b.contradictionBoost == a.contradictionBoost && b.weights.contradiction == a.weights.contradiction)
      && (PrivacyIn(x) == 0 ==> b.privacyBoost == a.privacyBoost && b.weights.privacy == a.weights.privacy && b.confirmation == a.confirmation)
      && (ToolsIn(x) == 0 ==> b.weights.tool == a.weights.tool)
      && (InstructionsIn(x) == 0 ==> b.weights.instruction == a.weights.instruction)
      && b.block == a.block
  {
    hide SuspiciousIn, ContradictionsIn, PrivacyIn, ToolsIn, InstructionsIn, Sum;
    SumOneMore(t, x, SuspiciousIn);
    SumOneMore(t, x, ContradictionsIn);
    SumOneMore(t, x, PrivacyIn);
    SumOneMore(t, x, ToolsIn);
    SumOneMore(t, x, InstructionsIn);
  }

  /** A poison signal rate of one half or more counts as one suspicious event beside those named. */
  lemma {:induction false} PoisonRateCounts(x: Trace)
    ensures SuspiciousIn(x) == SuspiciousIn(x.(poisonRate := 0.0)) + if x.poisonRate >= 0.5 then 1 else 0
  {
  }

  // ---------------------------------------------------------------------- counted events

  /** A part is in a text exactly when the text is the part between two others. */
  lemma {:induction false} ContainsIff(text: string, part: string)
    ensures Contains(text, part) <==> exists before, after :: text == before + part + after
  {
    if Contains(text, part) {
      var i :| 0 <= i <= |text| && PartAt(text, part, i);
      assert text == text[..i] + part + text[i + |part|..];
    }
    if exists before, after :: text == before + part + after {
      var before, after :| text == before + part + after;
      assert PartAt(text, part, |before|);
    }
  }

  lemma {:induction false} NotContained(text: string, part: string, c: char)
    requires c in part && c !in text
    ensures !Contains(text, part)
  {
    var k :| 0 <= k < |part| && part[k] == c;
    forall i | 0 <= i <= |text|
      ensures !PartAt(text, part, i)
    {
      assert i + |part| <= |text| ==> text[i..i + |part|][k] == text[i + k];
    }
  }

  lemma {:induction false} NotContainedPair(text: string, part: string, k: nat)
    requires k + 1 < |part| && forall i :: 0 <= i < |text| - 1 ==> !(text[i] == part[k] && text[i + 1] == part[k + 1])
    ensures !Contains(text, part)
  {
    forall i | 0 <= i <= |text|
      ensures !PartAt(text, part, i)
    {
      assert i + |part| <= |text| ==> text[i..i + |part|][k] == text[i + k] && text[i..i + |part|][k + 1] == text[i + k + 1];
    }
  }

  /** Any event that names privacy or sensitivity, a contradiction, a tool override, or an override
      or approval, counts as such. */
  lemma {:induction false} NamedEventsCount(before: string, after: string)
    ensures IsPrivacy(before + "privacy" + after) && IsPrivacy(before + "sensitive" + after)
    ensures IsContradiction(before + "contradiction" + after)
    ensures IsToolOverride(before + "tool_override" + after)
    ensures IsInstruction(before + "override" + after) && IsInstruction(before + "approval" + after)
  {
    ContainsIff(before + "privacy" + after, "privacy");
    ContainsIff(before + "sensitive" + after, "sensitive");
    ContainsIff(before + "contradiction" + after, "contradiction");
    ContainsIff(before + "tool_override" + after, "tool_override");
    ContainsIff(before + "override" + after, "override");
    ContainsIff(before + "approval" + after, "approval");
  }

  // ------------------------------------------------------------------------- whole runs

  /** A trace that carries one event a number of times. */
  function Repeated(event: string, n: nat): Trace { Trace(seq(n, _ => event), 0.0) }

  lemma {:induction false} CountRepeated(event: string, n: nat, p: string -> bool)
    ensures Count(Repeated(event, n).events, p) == if p(event) then n else 0
  {
    if p(event) {
      FilterAll(Repeated(event, n).events, p);
    } else {
      FilterNone(Repeated(event, n).events, p);
    }
  }

  lemma {:induction false} SumOne(x: Trace, f: Trace -> nat)
    ensures Sum([x], f) == f(x)
  {
    assert [x][..0] == [];
    assert Sum([x][..0], f) == 0;
  }

  /** What one event, repeated in a single trace, teaches: its number under every kind it is of. */
  lemma {:induction false} TrainRepeated(event: string, n: nat, policy: Option<Policy>)
    ensures Train([Repeated(event, n)], policy)
         == Learned(if IsSuspicious(event) then n else 0, if IsContradiction(event) then n else 0,
                    if IsPrivacy(event) then n else 0, if IsToolOverride(event) then n else 0,
                    if IsInstruction(event) then n else 0, 1, PolicyOr(policy))
  {
    hide Learned, Count, Sum, IsSuspicious, IsContradiction, IsPrivacy, IsToolOverride, IsInstruction;
    var x := Repeated(event, n);
    SumOne(x, SuspiciousIn);
    SumOne(x, ContradictionsIn);
    SumOne(x, PrivacyIn);
    SumOne(x, ToolsIn);
    SumOne(x, InstructionsIn);
    CountRepeated(event, n, IsSuspicious);
    CountRepeated(event, n, IsContradiction);
    CountRepeated(event, n, IsPrivacy);
    CountRepeated(event, n, IsToolOverride);
    CountRepeated(event, n, IsInstruction);
  }

  /** From an open gate: a trace is recorded, the controller trained, a candidate of the scope
      submitted and governed. */
  function TrainedRun(x: Trace, c: Candidate, signals: Signals): seq<TimedGate> {
    [AtGate(RecordTrace(c.scope, x), 1), AtGate(TrainIt(c.scope), 2), AtGate(Submit(c, signals), 3), AtGate(GovernIt(0), 4)]
  }

  function UntrainedRun(c: Candidate, signals: Signals): seq<TimedGate> {
    [AtGate(Submit(c, signals), 3), AtGate(GovernIt(0), 4)]
  }

  lemma {:induction false} GateOneMore(run: seq<TimedGate>, e: TimedGate)
    ensures GateRun(run + [e]) == GateStep(GateRun(run), e.event, e.now)
  {
    assert (run + [e])[..|run|] == run;
  }

  lemma {:induction false} TrainedDecision(x: Trace, c: Candidate, signals: Signals)
    ensures var g := GateRun(TrainedRun(x, c, signals));
      0 in g.decisions && g.decisions[0] == Govern(Submission(c.(id := 0), signals), None, Some(Train([x], None)))
  {
    hide Govern, Train;
    var run := TrainedRun(x, c, signals);
    var empty: seq<TimedGate> := [];
    assert run == empty + [run[0]] + [run[1]] + [run[2]] + [run[3]];
    GateOneMore(empty, run[0]);
    GateOneMore(empty + [run[0]], run[1]);
    GateOneMore(empty + [run[0]] + [run[1]], run[2]);
    GateOneMore(empty + [run[0]] + [run[1]] + [run[2]], run[3]);
    var traces := [(c.scope, x)];
    assert traces[..0] == [];
    assert TracesOf(traces, c.scope) == [x];
  }

  lemma {:induction false} UntrainedDecision(c: Candidate, signals: Signals)
    ensures var g := GateRun(UntrainedRun(c, signals));
      0 in g.decisions && g.decisions[0] == Govern(Submission(c.(id := 0), signals), None, None)
  {
    hide Govern;
    var run := UntrainedRun(c, signals);
    var empty: seq<TimedGate> := [];
    assert run == empty + [run[0]] + [run[1]];
    GateOneMore(empty, run[0]);
    GateOneMore(empty + [run[0]], run[1]);
  }

  /** A semantic candidate from two sources with the given risks. */
  function Claimed(privacy: real, poison: real, contradiction: real): Candidate {
    Candidate(0, "task", SemanticLane, "note", Content(None, None, None, None, None), ["episode-1", "episode-2"],
              0.5, 0.5, privacy, poison, contradiction)
  }

  const QUIET := Signals(0.0, 0.0, 0.0)

  /** The kinds an event is counted under. */
  ghost predicate Counts(event: string, suspicious: bool, contradiction: bool, privacy: bool, tool: bool, instruction: bool) {
    && IsSuspicious(event) == suspicious && IsContradiction(event) == contradiction && IsPrivacy(event) == privacy
    && IsToolOverride(event) == tool && IsInstruction(event) == instruction
  }

  lemma {:induction false} ContainedAt(text: string, part: string, i: nat)
    requires PartAt(text, part, i)
    ensures Contains(text, part)
  {
  }

  lemma {:induction false} PrivacyKind()
    ensures Counts("privacy", false, false, true, false, false)
  {
    hide Contains;
    ContainedAt("privacy", "privacy", 0);
    NotContained("privacy", "contradiction", 'o');
    NotContained("privacy", "tool_override", 'o');
    NotContained("privacy", "override", 'o');
    NotContained("privacy", "approval", 'o');
  }

  lemma {:induction false} QuarantineKind()
    ensures Counts("candidate_quarantined", true, false, false, false, false)
  {
    hide Contains;
    NotContained("candidate_quarantined", "contradiction", 'o');
    NotContained("candidate_quarantined", "privacy", 'p');
    NotContained("candidate_quarantined", "sensitive", 's');
    NotContained("candidate_quarantined", "tool_override", 'o');
    NotContained("candidate_quarantined", "override", 'o');
    NotContained("candidate_quarantined", "approval", 'o');
  }

  lemma {:induction false} ContradictionKind()
    ensures Counts("contradiction", false, true, false, false, false)
  {
    hide Contains;
    ContainedAt("contradiction", "contradiction", 0);
    NotContained("contradiction", "privacy", 'p');
    NotContained("contradiction", "sensitive", 's');
    NotContained("contradiction", "tool_override", 'v');
    NotContained("contradiction", "override", 'v');
    NotContained("contradiction", "approval", 'p');
  }

  /** A tool override is an instruction override as well. */
  lemma {:induction false} ToolKind()
    ensures Counts("tool_override", false, false, false, true, true)
  {
    hide Contains;
    ContainedAt("tool_override", "tool_override", 0);
    ContainedAt("tool_override", "override", 5);
    NotContained("tool_override", "contradiction", 'n');
    NotContained("tool_override", "privacy", 'p');
    NotContained("tool_override", "sensitive", 's');
  }

  lemma {:induction false} ApprovalKind()
    ensures Counts("approval", false, false, false, false, true)
  {
    hide Contains;
    ContainedAt("approval", "approval", 0);
    NotContained("approval", "contradiction", 'c');
    NotContained("approval", "privacy", 'i');
    NotContained("approval", "sensitive", 'i');
    NotContained("approval", "tool_override", 'i');
  }

  lemma {:induction false} OverrideNamed()
    ensures Contains("suspicious_override_detected", "override")
  {
    ContainedAt("suspicious_override_detected", "override", 11);
  }

  lemma {:induction false} OverrideDetectedKind()
    ensures Counts("suspicious_override_detected", true, false, false, false, true)
  {
    hide Contains;
    OverrideNamed();
    NotContained("suspicious_override_detected", "contradiction", 'n');
    NotContained("suspicious_override_detected", "privacy", 'a');
    NotContained("suspicious_override_detected", "sensitive", 'n');
    NotContained("suspicious_override_detected", "tool_override", 'l');
  }

  lemma {:induction false} HardPurgeKind()
    ensures Counts("hard_purge_completed", true, false, false, false, false)
  {
    hide Contains;
    NotContained("hard_purge_completed", "contradiction", 'i');
    NotContained("hard_purge_completed", "privacy", 'i');
    NotContained("hard_purge_completed", "sensitive", 's');
    NotContained("hard_purge_completed", "tool_override", 'v');
    NotContained("hard_purge_completed", "override", 'v');
    NotContained("hard_purge_completed", "approval", 'v');
  }

  lemma {:induction false} SelectivePurgeKind()
    ensures Counts("selective_purge_completed", true, false, false, false, false)
  {
    hide Contains;
    NotContained("selective_purge_completed", "contradiction", 'n');
    NotContained("selective_purge_completed", "privacy", 'a');
    NotContained("selective_purge_completed", "sensitive", 'n');
    NotContainedPair("selective_purge_completed", "tool_override", 5);
    NotContainedPair("selective_purge_completed", "override", 0);
    NotContained("selective_purge_completed", "approval", 'a');
  }

  /** Training on the repeated event changes the decision of the candidate from a semantic write. */
  ghost predicate Changes(event: string, n: nat, c: Candidate, signals: Signals, to: Action) {
    var trained, untrained := GateRun(TrainedRun(Repeated(event, n), c, signals)), GateRun(UntrainedRun(c, signals));
    && 0 in untrained.decisions && untrained.decisions[0] == SemanticMemory
    && 0 in trained.decisions && trained.decisions[0] == to
  }

  /** The same for the counts that the event stands for. */
  ghost predicate Decides(suspicious: nat, contradictions: nat, privacy: nat, tools: nat, instructions: nat,
                          c: Candidate, signals: Signals, to: Action)
  {
    var s := Submission(c.(id := 0), signals);
    && Govern(s, None, None) == SemanticMemory
    && Govern(s, None, Some(Learned(suspicious, contradictions, privacy, tools, instructions, 1, DEFAULT_POLICY))) == to
  }

  lemma {:induction false} ChangesTo(event: string, n: nat, kinds: (bool, bool, bool, bool, bool), c: Candidate, signals: Signals, to: Action)
    requires Counts(event, kinds.0, kinds.1, kinds.2, kinds.3, kinds.4)
    requires Decides(if kinds.0 then n else 0, if kinds.1 then n else 0, if kinds.2 then n else 0,
                     if kinds.3 then n else 0, if kinds.4 then n else 0, c, signals, to)
    ensures Changes(event, n, c, signals, to)
  {
    hide Govern, Train, GateRun, TrainedRun, UntrainedRun, Repeated, Learned, IsSuspicious, IsContradiction, IsPrivacy,
         IsToolOverride, IsInstruction;
    TrainRepeated(event, n, None);
    TrainedDecision(Repeated(event, n), c, signals);
    UntrainedDecision(c, signals);
  }

  lemma {:induction false} CountsDecide()
    ensures Decides(0, 0, 4, 0, 0, Claimed(0.55, 0.05, 0.0), QUIET, ConfirmationAction)
    ensures Decides(4, 0, 0, 0, 0, Claimed(0.0, 0.5, 0.0), QUIET, QuarantinedAction)
    ensures Decides(4, 0, 0, 0, 4, Claimed(0.0, 0.5, 0.0), QUIET, QuarantinedAction)
    ensures Decides(0, 4, 0, 0, 0, Claimed(0.0, 0.5, 0.9), QUIET, QuarantinedAction)
  {
  }

  lemma {:induction false} OverridesDecide()
    ensures Decides(0, 0, 0, 5, 5, Claimed(0.0, 0.5, 0.0), QUIET.(tool := 0.9), QuarantinedAction)
    ensures Decides(0, 0, 0, 0, 5, Claimed(0.0, 0.5, 0.0), QUIET.(instruction := 0.9), QuarantinedAction)
  {
  }

  /** Each kind of signal decides in its own way, over whole runs: four privacy events make a privacy
      risk of 0.55 ask for confirmation, four suspicious ones, of any name, quarantine a poison risk of
      one half, and contradictions, tool overrides and approvals quarantine it where the candidate carries the
      same signal. Without the training each of the candidates is written. */
  lemma {:induction false} SignalsDecide()
    ensures Changes("privacy", 4, Claimed(0.55, 0.05, 0.0), QUIET, ConfirmationAction)
    ensures Changes("candidate_quarantined", 4, Claimed(0.0, 0.5, 0.0), QUIET, QuarantinedAction)
    ensures Changes("suspicious_override_detected", 4, Claimed(0.0, 0.5, 0.0), QUIET, QuarantinedAction)
    ensures Changes("hard_purge_completed", 4, Claimed(0.0, 0.5, 0.0), QUIET, QuarantinedAction)
    ensures Changes("selective_purge_completed", 4, Claimed(0.0, 0.5, 0.0), QUIET, QuarantinedAction)
    ensures Changes("contradiction", 4, Claimed(0.0, 0.5, 0.9), QUIET, QuarantinedAction)
    ensures Changes("tool_override", 5, Claimed(0.0, 0.5, 0.0), QUIET.(tool := 0.9), QuarantinedAction)
    ensures Changes("approval", 5, Claimed(0.0, 0.5, 0.0), QUIET.(instruction := 0.9), QuarantinedAction)
  {
    hide *;
    PrivacyKind();
    QuarantineKind();
    OverrideDetectedKind();
    HardPurgeKind();
    SelectivePurgeKind();
    ContradictionKind();
    ToolKind();
    ApprovalKind();
    CountsDecide();
    OverridesDecide();
    ChangesTo("privacy", 4, (false, false, true, false, false), Claimed(0.55, 0.05, 0.0), QUIET, ConfirmationAction);
    ChangesTo("candidate_quarantined", 4, (true, false, false, false, false), Claimed(0.0, 0.5, 0.0), QUIET, QuarantinedAction);
    ChangesTo("suspicious_override_detected", 4, (true, false, false, false, true), Claimed(0.0, 0.5, 0.0), QUIET, QuarantinedAction);
    ChangesTo("hard_purge_completed", 4, (true, false, false, false, false), Claimed(0.0, 0.5, 0.0), QUIET, QuarantinedAction);
    ChangesTo("selective_purge_completed", 4, (true, false, false, false, false), Claimed(0.0, 0.5, 0.0), QUIET, QuarantinedAction);
    ChangesTo("contradiction", 4, (false, true, false, false, false), Claimed(0.0, 0.5, 0.9), QUIET, QuarantinedAction);
    ChangesTo("tool_override", 5, (false, false, false, true, true), Claimed(0.0, 0.5, 0.0), QUIET.(tool := 0.9), QuarantinedAction);
    ChangesTo("approval", 5, (false, false, false, false, true), Claimed(0.0, 0.5, 0.0), QUIET.(instruction := 0.9), QuarantinedAction);
  }
}
