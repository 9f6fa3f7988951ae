/** The temporal fact store: how a consolidated candidate supersedes the active fact of its
    storyline, and what the as-of query then answers (memory/matrix.py). */
module FactStore {
  import opened Prelude
  import opened Records

  // ---------------------------------------------------------------------- the writer

  function LineOf(f: Fact): Line { Line(f.scope, f.subject, f.pred) }

  function OnLine(facts: seq<Fact>, line: Line): seq<Fact> {
    Filter(facts, (f: Fact) => f.subject == line.subject && f.pred == line.pred)
  }

  function OnlyActive(facts: seq<Fact>): seq<Fact> {
    Filter(facts, (f: Fact) => f.status.Active?)
  }

  /** The active facts of a storyline, in listing order. */
  function ActiveFacts(m: Mem, line: Line): seq<Fact> {
    OnlyActive(OnLine(ListFacts(m, line.scope), line))
  }

  function Ids(facts: seq<Fact>): (r: seq<Id>)
    ensures |r| == |facts|
    ensures forall i :: 0 <= i < |facts| ==> r[i] == facts[i].id
  {
    seq(|facts|, i requires 0 <= i < |facts| => facts[i].id)
  }

  /** Supersede every fact whose identifier is listed, closing its interval at `until`. */
  function Close(facts: seq<Fact>, ids: seq<Id>, until: Time): seq<Fact> {
    Map(facts, (f: Fact) =>
      if f.id in ids then f.(validUntil := Some(until), status := Superseded) else f)
  }

  /** The fact dictionary after a repair wrote the listed statuses. */
  function WithStatuses(facts: seq<Fact>, statuses: map<Id, Status>): seq<Fact> {
    Map(facts, (f: Fact) => if f.id in statuses then f.(status := statuses[f.id]) else f)
  }

  function ClampConfidence(c: Candidate): real {
    Max(0.5, Min(0.99, c.importance + c.utility - c.contradictionRisk / 2.0))
  }

  function NewFact(m: Mem, c: Candidate, now: Time): Fact {
    var existing := ActiveFacts(m, CandidateLine(c));
    Fact(m.nextId, c.scope, SubjectOf(c), PredOf(c), ObjOf(c), HeadOf(c),
         ClampConfidence(c), c.sources, now, Some(GetOr(c.content.validFrom, now)), None, Active,
         if existing == [] then None else Some(existing[|existing| - 1].id))
  }

  /** The fact dictionary after _consolidate_semantic_candidate. */
  function WriteFact(m: Mem, c: Candidate, now: Time): Mem {
    var existing := Ids(ActiveFacts(m, CandidateLine(c)));
    m.(facts := Close(m.facts, existing, GetOr(c.content.validFrom, now)) + [NewFact(m, c, now)],
       nextId := m.nextId + 1)
  }

  /** What a written fact says: the content of its candidate, with the summary standing in only for a
      missing object; it starts when the content says, or now, and is open and active. */
  lemma {:induction false} NewFactSays(m: Mem, c: Candidate, now: Time)
    ensures var f, content := NewFact(m, c, now), c.content;
      && f.scope == c.scope && f.provenance == c.sources && f.observedAt == now
      && content.subject in {Some(f.subject), None} && (content.subject == None ==> f.subject == "unknown")
      && content.pred in {Some(f.pred), None} && (content.pred == None ==> f.pred == "related_to")
      && content.obj in {Some(f.obj), None} && (content.obj == None ==> f.obj == c.summary)
      && content.head in {Some(f.head), None} && (content.head == None ==> f.head == "semantic")
      && content.validFrom in {f.validFrom, None} && (content.validFrom == None ==> f.validFrom == Some(now))
      && f.status == Active && f.validUntil == None
      && 0.5 <= f.confidence <= 0.99
      && (0.5 <= c.importance + c.utility - c.contradictionRisk / 2.0 <= 0.99 ==>
            f.confidence == c.importance + c.utility - c.contradictionRisk / 2.0)
  {
  }

  /** The sources that a pointer names as episodes: those that begin with the episode prefix. */
  lemma {:induction false} EpisodeSourcesIff(sources: seq<string>, x: string)
    ensures x in EpisodeSources(sources) <==> x in sources && |x| >= 8 && x[..8] == "episode-"
  {
  }

  function Spaceless(s: string): (r: string)
    ensures |r| == |s|
  {
    seq(|s|, i requires 0 <= i < |s| => if s[i] == ' ' then '-' else s[i])
  }

  /** `f"durative-{subject}-{predicate}".replace(" ", "-")`: the scope is not part of it. */
  function DurativeId(subject: string, pred: string): string {
    Spaceless("durative-" + subject + "-" + pred)
  }

  /** The durative record over a storyline of at least two facts. */
  function DurativeOf(line: Line, related: seq<Fact>, now: Time): Durative
    requires related != []
  {
    var ordered := SortBy(related, ByStart);
    Durative(DurativeId(line.subject, line.pred), line.scope, line.subject, line.pred,
             Ids(ordered), ordered[0].validFrom, ordered[|ordered| - 1].validUntil, now)
  }

  /** `durative_records[record.durative_id] = record`: replace in place, or append. */
  function PutDurative(s: seq<Durative>, d: Durative): seq<Durative> {
    if exists i :: 0 <= i < |s| && s[i].durativeId == d.durativeId
    then Map(s, (x: Durative) => if x.durativeId == d.durativeId then d else x)
    else s + [d]
  }

  /** Record a storyline of at least two facts as durative. */
  function RecordDurative(m: Mem, line: Line, related: seq<Fact>, now: Time): Mem {
    if |related| < 2 then m
    else m.(duratives := PutDurative(m.duratives, DurativeOf(line, related, now)))
  }

  /** _refresh_durative_memory */
  function RefreshDurative(m: Mem, line: Line, now: Time): Mem {
    RecordDurative(m, line, OnLine(ListFacts(m, line.scope), line), now)
  }

  /** _consolidate_semantic_candidate */
  function Consolidate(m: Mem, c: Candidate, now: Time): Mem {
    RefreshDurative(WriteFact(m, c, now), CandidateLine(c), now)
  }

  /** A durative record of another scope survives a refresh exactly when its derived name differs
      or the refreshed storyline has fewer than two facts: names leave the scope out, so otherwise
      the record is replaced. */
  lemma {:induction false} OtherDurativeSurvivesIff(m: Mem, line: Line, now: Time, d: Durative)
    requires d in m.duratives && d.scope != line.scope
    ensures d in RefreshDurative(m, line, now).duratives
       <==> d.durativeId != DurativeId(line.subject, line.pred) || |OnLine(ListFacts(m, line.scope), line)| < 2
  {
    hide DurativeId, OnLine, ListFacts;
    var related := OnLine(ListFacts(m, line.scope), line);
    var i :| 0 <= i < |m.duratives| && m.duratives[i] == d;
    if |related| >= 2 {
      var put := PutDurative(m.duratives, DurativeOf(line, related, now));
      if d.durativeId != DurativeId(line.subject, line.pred) {
        assert put[i] == d;
      } else {
        forall x | x in put
          ensures x != d
        {
          var j :| 0 <= j < |put| && put[j] == x;
        }
      }
    }
  }

  // ------------------------------------------------------------------ supersession chains

  /** The visible facts of a storyline in the order they were written. */
  function Storyline(m: Mem, line: Line): seq<Fact> {
    Filter(m.facts, (f: Fact) => LineOf(f) == line && FactVisible(m, f))
  }

  /** Each fact supersedes the one before it and starts where that one was closed;
      only the newest is active and open. */
  ghost predicate IsChain(s: seq<Fact>) {
    && (forall i :: 0 <= i < |s| ==> s[i].validFrom.Some?)
    && (s != [] ==> s[0].supersedes.None?)
    && (forall i :: 1 <= i < |s| ==> s[i].supersedes == Some(s[i - 1].id))
    && (forall i :: 0 <= i < |s| - 1 ==> s[i].status.Superseded? && s[i].validUntil == s[i + 1].validFrom)
    && (s != [] ==> s[|s| - 1].status.Active? && s[|s| - 1].validUntil.None?)
  }

  ghost predicate Chains(m: Mem) {
    forall line :: IsChain(Storyline(m, line))
  }

  lemma {:induction false} StorylineIncreasing(m: Mem, line: Line)
    requires ValidMem(m)
    ensures Increasing(Storyline(m, line), FactId)
  {
    FilterIncreasing(m.facts, (f: Fact) => LineOf(f) == line && FactVisible(m, f), FactId);
  }

  lemma {:induction false} ActiveFactsMember(m: Mem, line: Line, f: Fact)
    ensures f in ActiveFacts(m, line) <==> f in Storyline(m, line) && f.status.Active?
  {
    ListFactsMember(m, line.scope, f);
  }

  /** In a chain the only active fact is the newest. */
  lemma {:induction false} ActiveIsNewest(m: Mem, line: Line)
    requires IsChain(Storyline(m, line))
    ensures var chain, active := Storyline(m, line), ActiveFacts(m, line);
      && (chain == [] <==> active == [])
      && (forall f :: f in active ==> f == chain[|chain| - 1])
  {
    hide ActiveFacts, Storyline;
    var chain, active := Storyline(m, line), ActiveFacts(m, line);
    forall f | f in active
      ensures chain != [] && f == chain[|chain| - 1]
    {
      ActiveFactsMember(m, line, f);
      var i :| 0 <= i < |chain| && chain[i] == f;
    }
    if chain != [] {
      ActiveFactsMember(m, line, chain[|chain| - 1]);
    }
    if active != [] {
      assert active[0] in active;
    }
  }

  // ----------------------------------------------------------- what one write does to a chain

  function CloseOne(ids: seq<Id>, until: Time): Fact -> Fact {
    (f: Fact) => if f.id in ids then f.(validUntil := Some(until), status := Superseded) else f
  }

  lemma {:induction false} StorylineAfterWrite(m: Mem, c: Candidate, now: Time, line: Line)
    requires ValidMem(m)
    ensures Storyline(WriteFact(m, c, now), line)
         == Close(Storyline(m, line), Ids(ActiveFacts(m, CandidateLine(c))), GetOr(c.content.validFrom, now))
            + if line == CandidateLine(c) then [NewFact(m, c, now)] else []
  {
    var m', fact := WriteFact(m, c, now), NewFact(m, c, now);
    var ids, until := Ids(ActiveFacts(m, CandidateLine(c))), GetOr(c.content.validFrom, now);
    var g := CloseOne(ids, until);
    var shown := (f: Fact) => LineOf(f) == line && FactVisible(m, f);
    var shown' := (f: Fact) => LineOf(f) == line && FactVisible(m', f);
    assert Close(m.facts, ids, until) == Map(m.facts, g);
    assert Close(Storyline(m, line), ids, until) == Map(Storyline(m, line), g);
    FilterAppend(Map(m.facts, g), [fact], shown');
    FilterMap(m.facts, g, shown');
    FilterCongruence(m.facts, shown, shown');
    assert FactVisible(m', fact);
    assert [fact][..0] == [];
    assert Filter([fact], shown') == if line == CandidateLine(c) then [fact] else [];
    assert m'.facts == Map(m.facts, g) + [fact];
  }

  /** A write leaves every other storyline as it was. */
  lemma {:induction false} OtherStorylineKept(m: Mem, c: Candidate, now: Time, line: Line)
    requires ValidMem(m) && line != CandidateLine(c)
    ensures Storyline(WriteFact(m, c, now), line) == Storyline(m, line)
  {
    StorylineAfterWrite(m, c, now, line);
    var ids := Ids(ActiveFacts(m, CandidateLine(c)));
    forall f | f in Storyline(m, line)
      ensures f.id !in ids
    {
      if f.id in ids {
        var i :| 0 <= i < |ids| && ids[i] == f.id;
        var a := ActiveFacts(m, CandidateLine(c))[i];
        ActiveFactsMember(m, CandidateLine(c), a);
        IncreasingInjective(m.facts, FactId, a, f);
      }
    }
  }

  /** A chain with its newest fact closed at the start of one more fact. */
  function Extended(chain: seq<Fact>, fact: Fact): seq<Fact> {
    if chain == [] then [fact]
    else
      var n := |chain| - 1;
      chain[..n] + [chain[n].(validUntil := fact.validFrom, status := Superseded), fact]
  }

  /** An open, active fact that names the newest of the chain as the one it supersedes. */
  ghost predicate Succeeds(chain: seq<Fact>, fact: Fact) {
    && fact.validFrom.Some? && fact.validUntil.None? && fact.status.Active?
    && fact.supersedes == if chain == [] then None else Some(chain[|chain| - 1].id)
  }

  /** Among the facts of a chained storyline a write closes the newest only. */
  lemma {:induction false} OnlyNewestActive(m: Mem, line: Line, i: nat)
    requires ValidMem(m) && IsChain(Storyline(m, line)) && i < |Storyline(m, line)|
    ensures Storyline(m, line)[i].id in Ids(ActiveFacts(m, line)) <==> i == |Storyline(m, line)| - 1
  {
    var chain, active := Storyline(m, line), ActiveFacts(m, line);
    var ids := Ids(active);
    ActiveIsNewest(m, line);
    StorylineIncreasing(m, line);
    if i < |chain| - 1 {
      assert FactId(chain[i]) < FactId(chain[|chain| - 1]);
      forall j | 0 <= j < |ids|
        ensures ids[j] == chain[|chain| - 1].id
      {
        assert active[j] in active;
      }
    } else {
      assert active[0] in active;
      assert ids[0] == chain[i].id;
    }
  }

  lemma {:induction false} NewFactSucceeds(m: Mem, c: Candidate, now: Time)
    requires IsChain(Storyline(m, CandidateLine(c)))
    ensures Succeeds(Storyline(m, CandidateLine(c)), NewFact(m, c, now))
  {
    var active := ActiveFacts(m, CandidateLine(c));
    ActiveIsNewest(m, CandidateLine(c));
    if active != [] {
      assert active[|active| - 1] in active;
    }
  }

  lemma {:induction false} ClosingTheNewest(chain: seq<Fact>, ids: seq<Id>, fact: Fact)
    requires fact.validFrom.Some?
    requires forall i :: 0 <= i < |chain| ==> (chain[i].id in ids <==> i == |chain| - 1)
    ensures Close(chain, ids, fact.validFrom.value) + [fact] == Extended(chain, fact)
  {
  }

  /** A write to a chained storyline closes its newest fact at the new start and appends
      a fact that supersedes it. */
  lemma {:induction false} OwnStorylineGrows(m: Mem, c: Candidate, now: Time)
    requires ValidMem(m) && IsChain(Storyline(m, CandidateLine(c)))
    ensures Storyline(WriteFact(m, c, now), CandidateLine(c))
         == Extended(Storyline(m, CandidateLine(c)), NewFact(m, c, now))
    ensures Succeeds(Storyline(m, CandidateLine(c)), NewFact(m, c, now))
  {
    var line := CandidateLine(c);
    var chain, active := Storyline(m, line), ActiveFacts(m, line);
    NewFactSucceeds(m, c, now);
    forall i | 0 <= i < |chain|
      ensures chain[i].id in Ids(active) <==> i == |chain| - 1
    {
      OnlyNewestActive(m, line, i);
    }
    StorylineAfterWrite(m, c, now, line);
    ClosingTheNewest(chain, Ids(active), NewFact(m, c, now));
  }

  lemma {:induction false} ExtendedIsChain(chain: seq<Fact>, fact: Fact)
    requires IsChain(chain) && Succeeds(chain, fact)
    ensures IsChain(Extended(chain, fact))
  {
    var s, n := Extended(chain, fact), |chain| - 1;
    if chain != [] {
      assert forall i :: 0 <= i < n ==> s[i] == chain[i];
      forall i | 1 <= i < |s|
        ensures s[i].supersedes == Some(s[i - 1].id)
      {
        if i <= n {
          assert s[i - 1] == chain[i - 1];
        }
      }
    }
  }

  lemma {:induction false} DurativesUnseen(m: Mem, duratives: seq<Durative>, line: Line)
    ensures Storyline(m.(duratives := duratives), line) == Storyline(m, line)
  {
    var m' := m.(duratives := duratives);
    FilterCongruence(m.facts, (f: Fact) => LineOf(f) == line && FactVisible(m, f),
                              (f: Fact) => LineOf(f) == line && FactVisible(m', f));
  }

  lemma {:induction false} OwnChainGrows(m: Mem, c: Candidate, now: Time)
    requires ValidMem(m) && IsChain(Storyline(m, CandidateLine(c)))
    ensures IsChain(Storyline(WriteFact(m, c, now), CandidateLine(c)))
  {
    OwnStorylineGrows(m, c, now);
    ExtendedIsChain(Storyline(m, CandidateLine(c)), NewFact(m, c, now));
  }

  lemma {:induction false} WriteKeepsChain(m: Mem, c: Candidate, now: Time, line: Line)
    requires ValidMem(m) && IsChain(Storyline(m, line))
    ensures IsChain(Storyline(WriteFact(m, c, now), line))
  {
    if line == CandidateLine(c) {
      OwnChainGrows(m, c, now);
    } else {
      OtherStorylineKept(m, c, now, line);
    }
  }

  lemma {:induction false} ConsolidateStoryline(m: Mem, c: Candidate, now: Time, line: Line)
    ensures Storyline(Consolidate(m, c, now), line) == Storyline(WriteFact(m, c, now), line)
  {
    var m1, m' := WriteFact(m, c, now), Consolidate(m, c, now);
    assert m' == m1.(duratives := m'.duratives);
    DurativesUnseen(m1, m'.duratives, line);
  }

  /** Every write keeps every storyline a chain. */
  lemma {:induction false} WriteKeepsChains(m: Mem, c: Candidate, now: Time)
    requires ValidMem(m) && Chains(m)
    ensures Chains(Consolidate(m, c, now))
  {
    forall line
      ensures IsChain(Storyline(Consolidate(m, c, now), line))
    {
      ConsolidateStoryline(m, c, now, line);
      WriteKeepsChain(m, c, now, line);
    }
  }

  lemma {:induction false} WriteValid(m: Mem, c: Candidate, now: Time)
    requires ValidMem(m)
    ensures ValidMem(WriteFact(m, c, now))
  {
    hide ActiveFacts;
    var closed := Close(m.facts, Ids(ActiveFacts(m, CandidateLine(c))), GetOr(c.content.validFrom, now));
    var m' := WriteFact(m, c, now);
    assert m'.facts == closed + [NewFact(m, c, now)];
    forall i | 0 <= i < |closed|
      ensures closed[i].id == m.facts[i].id < m.nextId
    {
      assert m.facts[i] in m.facts;
    }
    forall i, j | 0 <= i < j < |m'.facts|
      ensures FactId(m'.facts[i]) < FactId(m'.facts[j])
    {
      if j < |closed| {
        assert FactId(m.facts[i]) < FactId(m.facts[j]);
      }
    }
    forall f | f in m'.facts
      ensures f.id < m'.nextId
    {
      var i :| 0 <= i < |m'.facts| && m'.facts[i] == f;
    }
  }

  lemma {:induction false} ConsolidateValid(m: Mem, c: Candidate, now: Time)
    requires ValidMem(m)
    ensures ValidMem(Consolidate(m, c, now))
  {
    WriteValid(m, c, now);
  }

  // -------------------------------------------------------------------- the as-of query

  /** _fact_is_relevant_at_time for a given instant */
  predicate RelevantAt(f: Fact, t: Time) {
    && !(f.validFrom.Some? && f.validFrom.value > t)
    && !(f.validUntil.Some? && f.validUntil.value < t)
  }

  /** _fact_is_relevant_at_time without an instant */
  predicate RelevantNow(f: Fact) {
    f.status.Active? || f.validUntil.None?
  }

  function AsOf(facts: seq<Fact>, t: Time): seq<Fact> {
    Filter(facts, (f: Fact) => RelevantAt(f, t))
  }

  /** The steps of a chain at which the start instants pass t on the way down. */
  function Straddles(s: seq<Fact>, t: Time): nat
  {
    if |s| < 2 then 0
    else Straddles(s[..|s| - 1], t) + if StartOf(s[|s| - 1]) < t < StartOf(s[|s| - 2]) then 1 else 0
  }

  /** An instant at which some fact of the chain after the first one starts. */
  ghost predicate Boundary(s: seq<Fact>, t: Time) {
    exists i :: 1 <= i < |s| && StartOf(s[i]) == t
  }

  /** The facts of the chain arrived in the order of their start instants. */
  ghost predicate InOrder(s: seq<Fact>) {
    forall i, j :: 0 <= i < j < |s| ==> StartOf(s[i]) <= StartOf(s[j])
  }

  lemma {:induction false} AsOfPrefixCount(s: seq<Fact>, n: nat, t: Time)
    requires IsChain(s) && n < |s| && StartOf(s[0]) <= t && !Boundary(s, t)
    ensures |AsOf(s[..n], t)| + (if StartOf(s[n]) <= t then 1 else 0) == 1 + Straddles(s[..n + 1], t)
  {
    if n > 0 {
      AsOfPrefixCount(s, n - 1, t);
      assert s[..n][..n - 1] == s[..n - 1] && s[..n + 1][..n] == s[..n];
      assert RelevantAt(s[n - 1], t) <==> StartOf(s[n - 1]) <= t <= StartOf(s[n]);
      assert StartOf(s[n]) != t;
    }
  }

  /** Away from boundaries a chain with any arrival order answers an as-of query with one fact
      more than the number of out-of-order arrivals that straddle the instant: every instant
      after the first start is covered, and covered once exactly when no arrival straddles it. */
  lemma {:induction false} AsOfCount(s: seq<Fact>, t: Time)
    requires IsChain(s) && s != [] && StartOf(s[0]) <= t && !Boundary(s, t)
    ensures |AsOf(s, t)| == 1 + Straddles(s, t)
  {
    var n := |s| - 1;
    AsOfPrefixCount(s, n, t);
    assert s[..n + 1] == s;
    assert RelevantAt(s[n], t) <==> StartOf(s[n]) <= t;
  }

  lemma {:induction false} InOrderNeverStraddles(s: seq<Fact>, t: Time)
    requires InOrder(s)
    ensures Straddles(s, t) == 0
  {
    if |s| >= 2 {
      InOrderNeverStraddles(s[..|s| - 1], t);
    }
  }

  /** The newest fact started by t. */
  ghost predicate LastStarted(s: seq<Fact>, t: Time, f: Fact) {
    exists i :: 0 <= i < |s| && s[i] == f && StartOf(s[i]) <= t
             && forall j :: i < j < |s| ==> StartOf(s[j]) > t
  }

  /** At the start of a superseding fact both it and the fact it closed are relevant. */
  lemma {:induction false} BoundaryAnswersTwice(s: seq<Fact>, j: nat)
    requires IsChain(s) && Increasing(s, FactId) && InOrder(s) && 1 <= j < |s|
    ensures var answers := AsOf(s, StartOf(s[j]));
      && s[j - 1] in answers && s[j] in answers && s[j].supersedes == Some(s[j - 1].id) != Some(s[j].id)
      && |answers| > 1
  {
    var t := StartOf(s[j]);
    assert StartOf(s[j - 1]) <= t;
    assert RelevantAt(s[j - 1], t);
    assert RelevantAt(s[j], t) by {
      if j < |s| - 1 {
        assert t <= StartOf(s[j + 1]);
      }
    }
    assert FactId(s[j - 1]) < FactId(s[j]);
    assert s[j - 1] in AsOf(s, t) && s[j] in AsOf(s, t);
  }

  /** With in-order arrival the as-of answer is unique exactly away from boundaries,
      and then it is the fact that started last. */
  lemma {:induction false} AsOfUnique(s: seq<Fact>, t: Time)
    requires IsChain(s) && Increasing(s, FactId) && s != [] && StartOf(s[0]) <= t && InOrder(s)
    ensures |AsOf(s, t)| == 1 <==> !Boundary(s, t)
    ensures !Boundary(s, t) ==> LastStarted(s, t, AsOf(s, t)[0])
  {
    if Boundary(s, t) {
      var j :| 1 <= j < |s| && StartOf(s[j]) == t;
      BoundaryAnswersTwice(s, j);
    } else {
      InOrderNeverStraddles(s, t);
      AsOfCount(s, t);
      RelevantStartedLast(s, t, AsOf(s, t)[0]);
    }
  }

  lemma {:induction false} RelevantStartedLast(s: seq<Fact>, t: Time, f: Fact)
    requires IsChain(s) && InOrder(s) && !Boundary(s, t)
    requires f in s && RelevantAt(f, t)
    ensures LastStarted(s, t, f)
  {
    var i :| 0 <= i < |s| && s[i] == f;
    if i < |s| - 1 {
      assert StartOf(s[i + 1]) > t;
    }
  }

  // ------------------------------------------------------------------ interval consistency

  /** The consistency the evaluation harness measures: no interval ends before it starts. */
  ghost predicate Consistent(s: seq<Fact>) {
    forall f :: f in s ==> f.validUntil.Some? && f.validFrom.Some? ==> f.validFrom.value <= f.validUntil.value
  }

  /** A chain has only well-formed intervals exactly when its facts arrived in order. */
  lemma {:induction false} ConsistentIffInOrder(s: seq<Fact>)
    requires IsChain(s)
    ensures Consistent(s) <==> InOrder(s)
  {
    if Consistent(s) {
      forall i, j | 0 <= i < j < |s|
        ensures StartOf(s[i]) <= StartOf(s[j])
      {
        StartsClimb(s, i, j);
      }
    } else {
      var f :| f in s && f.validUntil.Some? && f.validFrom.Some? && f.validFrom.value > f.validUntil.value;
      var i :| 0 <= i < |s| && s[i] == f;
      assert i < |s| - 1;
      assert StartOf(s[i]) > StartOf(s[i + 1]);
    }
  }

  lemma {:induction false} StartsClimb(s: seq<Fact>, i: nat, j: nat)
    requires IsChain(s) && Consistent(s) && i < j < |s|
    ensures StartOf(s[i]) <= StartOf(s[j])
    decreases j
  {
    if i < j - 1 {
      StartsClimb(s, i, j - 1);
    }
    assert s[j - 1] in s;
  }

  lemma {:induction false} ExtendedConsistentIff(chain: seq<Fact>, fact: Fact)
    requires IsChain(chain) && Consistent(chain) && fact.validFrom.Some? && fact.validUntil.None?
    ensures Consistent(Extended(chain, fact))
       <==> chain == [] || StartOf(chain[|chain| - 1]) <= fact.validFrom.value
  {
    var s, n := Extended(chain, fact), |chain| - 1;
    if chain != [] {
      assert s[n] in s;
      forall f | f in s
        ensures f in chain || f == s[n] || f == s[n + 1]
      {
        var i :| 0 <= i < |s| && s[i] == f;
        assert i < n ==> f == chain[i];
      }
    }
  }

  /** A write keeps its storyline's intervals well formed exactly when the new fact starts no
      earlier than the fact it supersedes. */
  lemma {:induction false} WriteConsistentIff(m: Mem, c: Candidate, now: Time)
    requires ValidMem(m)
    requires var chain := Storyline(m, CandidateLine(c)); IsChain(chain) && Consistent(chain)
    ensures var chain := Storyline(m, CandidateLine(c));
      Consistent(Storyline(WriteFact(m, c, now), CandidateLine(c)))
      <==> chain == [] || StartOf(chain[|chain| - 1]) <= GetOr(c.content.validFrom, now)
  {
    OwnStorylineGrows(m, c, now);
    ExtendedConsistentIff(Storyline(m, CandidateLine(c)), NewFact(m, c, now));
  }

  function Claim(obj: string, start: Time): Candidate {
    Candidate(0, "task", SemanticLane, "reported", Content(Some("user"), Some("lives_in"), Some(obj), None, Some(start)),
              [], 0.5, 0.5, 0.0, 0.0, 0.0)
  }

  lemma {:induction false} StraddleOfThree(s: seq<Fact>, t: Time)
    requires |s| == 3 && StartOf(s[0]) < t && StartOf(s[2]) < t < StartOf(s[1])
    ensures Straddles(s, t) == 1 && !Boundary(s, t)
  {
    assert s[..2][..1] == s[..1] && Straddles(s[..1], t) == 0;
    assert Straddles(s[..2], t) == 0;
  }

  lemma {:induction false} GrowOnce(m: Mem, c: Candidate, now: Time)
    requires ValidMem(m) && IsChain(Storyline(m, CandidateLine(c)))
    ensures var m' := WriteFact(m, c, now);
      && ValidMem(m')
      && IsChain(Storyline(m', CandidateLine(c)))
      && Storyline(m', CandidateLine(c)) == Extended(Storyline(m, CandidateLine(c)), NewFact(m, c, now))
  {
    OwnStorylineGrows(m, c, now);
    OwnChainGrows(m, c, now);
    WriteValid(m, c, now);
  }

  /** Starts 1, 5, 3 in that order of arrival: at instant 4 two facts are relevant. */
  lemma {:induction false} OutOfOrderAnswersTwice()
    ensures var m := WriteFact(WriteFact(WriteFact(EMPTY, Claim("Oslo", 1), 10), Claim("Rome", 5), 11), Claim("Bonn", 3), 12);
      |AsOf(Storyline(m, Line("task", "user", "lives_in")), 4)| == 2
  {
    var c1, c2, c3 := Claim("Oslo", 1), Claim("Rome", 5), Claim("Bonn", 3);
    GrowOnce(EMPTY, c1, 10);
    var m1 := WriteFact(EMPTY, c1, 10);
    GrowOnce(m1, c2, 11);
    var m2 := WriteFact(m1, c2, 11);
    GrowOnce(m2, c3, 12);
    var s := Storyline(WriteFact(m2, c3, 12), CandidateLine(c3));
    StraddleOfThree(s, 4);
    AsOfCount(s, 4);
  }
}
