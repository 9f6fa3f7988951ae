/** The admission dictionaries beside the memory engine they guard, updated in place. Each method
    leaves exactly the gate that the operation of the same name specifies (memory/matrix.py). */
module AdmissionEngine {
  import opened Prelude
  import opened Records
  import opened Admission
  import Mx = Matrix

  /** Add up what the traces of a scope count. */
  method CountTraces(traces: seq<Trace>)
    returns (suspicious: nat, contradictions: nat, privacy: nat, tools: nat, instructions: nat)
    ensures suspicious == Sum(traces, SuspiciousIn) && contradictions == Sum(traces, ContradictionsIn)
    ensures privacy == Sum(traces, PrivacyIn) && tools == Sum(traces, ToolsIn)
    ensures instructions == Sum(traces, InstructionsIn)
  {
    suspicious, contradictions, privacy, tools, instructions := 0, 0, 0, 0, 0;
    for i := 0 to |traces|
      invariant suspicious == Sum(traces[..i], SuspiciousIn) && contradictions == Sum(traces[..i], ContradictionsIn)
      invariant privacy == Sum(traces[..i], PrivacyIn) && tools == Sum(traces[..i], ToolsIn)
      invariant instructions == Sum(traces[..i], InstructionsIn)
    {
      assert traces[..i + 1][..i] == traces[..i];
      var events := traces[i].events;
      suspicious := suspicious + Count(events, IsSuspicious);
      contradictions := contradictions + Count(events, IsContradiction);
      privacy := privacy + Count(events, IsPrivacy);
      tools := tools + Count(events, IsToolOverride);
      instructions := instructions + Count(events, IsInstruction);
      suspicious := suspicious + if traces[i].poisonRate >= 0.5 then 1 else 0;
    }
    assert traces[..|traces|] == traces;
  }

  /** What consolidate_candidate reports. */
  datatype Report = Consolidated | Stopped | Skipped | UnknownCandidate

  class AdmissionDesk {
    const matrix: Mx.MemoryMatrix
    var submissions: map<Id, Submission>
    var decisions: map<Id, Action>
    var policies: map<string, Policy>
    var controllers: map<string, Controller>
    var traces: seq<(string, Trace)>

    constructor (matrix: Mx.MemoryMatrix)
      ensures this.matrix == matrix && View() == Gate(matrix.View(), map[], map[], map[], map[], [])
    {
      this.matrix := matrix;
      submissions, decisions, policies, controllers, traces := map[], map[], map[], map[], [];
    }

    function View(): Gate
      reads this, matrix, matrix.facts.Values, matrix.segments.Values
    {
      Gate(matrix.View(), submissions, decisions, policies, controllers, traces)
    }

    /** Accept a candidate under a fresh identifier. */
    method SubmitCandidate(c: Candidate, signals: Signals) returns (id: Id)
      requires matrix.Valid()
      modifies `submissions, matrix`nextId
      ensures matrix.Valid() && View() == GateStep(old(View()), Submit(c, signals), 0)
      ensures id == old(View()).mem.nextId
    {
      hide Mx.MemoryMatrix.View, Mx.MemoryMatrix.Valid;
      id := matrix.IssueId();
      submissions := submissions[id := Submission(c.(id := id), signals)];
    }

    /** train_admission_controller */
    method TrainAdmission(scope: string)
      modifies `controllers
      ensures View() == GateStep(old(View()), TrainIt(scope), 0)
    {
      hide Mx.MemoryMatrix.View, TracesOf, Sum, Learned;
      var own := TracesOf(traces, scope);
      var suspicious, contradictions, privacy, tools, instructions := CountTraces(own);
      var base := PolicyOr(PolicyFor(View(), scope));
      controllers := controllers[scope :=
        Learned(suspicious, contradictions, privacy, tools, instructions, |own|, base)];
    }

    /** govern_candidate; an unknown candidate raises. */
    method GovernCandidate(id: Id) returns (raised: bool)
      modifies `decisions
      ensures View() == GateStep(old(View()), GovernIt(id), 0) && raised == (id !in submissions)
    {
      hide Mx.MemoryMatrix.View, Govern;
      if id !in submissions {
        return true;
      }
      var s := submissions[id];
      decisions := decisions[id := Govern(s, PolicyFor(View(), s.candidate.scope), ControllerFor(View(), s.candidate.scope))];
      raised := false;
    }

    /** consolidate_candidate */
    method Consolidate(id: Id, now: Time) returns (report: Report)
      requires matrix.Valid()
      modifies matrix`factOrder, matrix`facts, matrix`nextId, matrix`duratives, matrix`pointers, matrix`patterns,
               matrix`explicits, matrix.facts.Values
      ensures matrix.Valid() && matrix.View() == ConsolidateCandidate(old(View()), id, now)
      ensures report == UnknownCandidate <==> id !in submissions
      ensures report == Stopped <==> id in submissions && (id !in decisions || !Passes(decisions[id]))
      ensures report == Consolidated <==>
        id in submissions && id in decisions && decisions[id] in {SemanticMemory, ProceduralMemory, ExplicitMemory}
    {
      hide Mx.MemoryMatrix.View, Mx.MemoryMatrix.Valid;
      if id !in submissions {
        return UnknownCandidate;
      }
      if id !in decisions || !Passes(decisions[id]) {
        return Stopped;
      }
      var c := submissions[id].candidate;
      report := Consolidated;
      match decisions[id]
      case SemanticMemory => matrix.ConsolidateFact(c, now);
      case ProceduralMemory => matrix.ConsolidatePattern(c, now);
      case ExplicitMemory => matrix.ConsolidateExplicit(c, now);
      case _ => report := Skipped;
    }
  }
}
