/** Whole runs of the memory engine: any sequence of writes, deletions, purges, upkeep and
    queries, and what every reachable memory satisfies. */
module Runs {
  import opened Prelude
  import opened Records
  import opened FactStore
  import opened Timeline
  import opened Pointers
  import opened Integrity
  import opened Restoration
  import opened Deduplication
  import opened Upkeep

  datatype Event =
    | RecordEpisode(scope: string)
    | Semantic(c: Candidate)
    | Procedural(c: Candidate)
    | ExplicitWrite(c: Candidate)
    | Delete(scope: string)
    | Purge(scope: string, kinds: seq<Kind>)
    | Maintain(job: Job)
    | SetStatuses(statuses: map<Id, Status>)

  function Step(m: Mem, e: Event, now: Time): Mem {
    match e
    case RecordEpisode(scope) => m.(episodes := m.episodes + [Episode(m.nextId, scope, now)], nextId := m.nextId + 1)
    case Semantic(c) => WriteSemantic(m, c, now)
    case Procedural(c) => WriteProcedural(m, c, now)
    case ExplicitWrite(c) => WriteExplicit(m, c, now)
    case Delete(scope) => TombstoneScope(m, scope)
    case Purge(scope, kinds) => HardPurge(m, scope, kinds)
    case Maintain(job) => Perform(m, job, now)
    case SetStatuses(statuses) => m.(facts := WithStatuses(m.facts, statuses))
  }

  datatype Timed = At(event: Event, now: Time)

  function Run(m: Mem, run: seq<Timed>): Mem {
    if run == [] then m
    else
      var last := run[|run| - 1];
      Step(Run(m, run[..|run| - 1]), last.event, last.now)
  }

  /** What each step writes where a reader sees it: an episode of its scope, a fact, a pattern or an
      explicit record, or new statuses of exactly the listed facts. */
  lemma {:induction false} StepWrites(m: Mem, e: Event, now: Time)
    requires ValidMem(m)
    ensures var m' := Step(m, e, now);
      && (e.RecordEpisode? ==> m'.episodes == m.episodes + [Episode(m.nextId, e.scope, now)]
                               && EpisodeVisible(m', m'.episodes[|m.episodes|]))
      && (e.Semantic? ==> |m'.facts| == |m.facts| + 1 && FactVisible(m', m'.facts[|m.facts|])
                          && LineOf(m'.facts[|m.facts|]) == CandidateLine(e.c))
      && (e.Procedural? ==> |m'.patterns| == |m.patterns| + 1 && PatternVisible(m', m'.patterns[|m.patterns|])
                            && m'.patterns[|m.patterns|].scope == e.c.scope)
      && (e.ExplicitWrite? ==> m'.explicits == m.explicits + [Explicit(m.nextId, e.c.scope, e.c.summary, now)])
      && (e.SetStatuses? ==> |m'.facts| == |m.facts| && forall i :: 0 <= i < |m.facts| ==>
            m'.facts[i] == if m.facts[i].id in e.statuses then m.facts[i].(status := e.statuses[m.facts[i].id]) else m.facts[i])
  {
    hide RefreshDurative, ActiveFacts, Perform, TombstoneScope, HardPurge, ClampConfidence;
    if e.Semantic? {
      var _ := ConsolidateFrame(m, e.c, now);
    }
  }

  // ---------------------------------------------------------------- the lasting invariant

  ghost predicate Sound(m: Mem) {
    ValidMem(m) && Grounded(m) && UniqueTombstones(m)
  }

  lemma {:induction false} StatusesAlike(facts: seq<Fact>, statuses: map<Id, Status>)
    ensures FactsAlike(facts, WithStatuses(facts, statuses))
  {
  }

  lemma {:induction false} AlikeValid(m: Mem, facts: seq<Fact>)
    requires ValidMem(m) && FactsAlike(m.facts, facts)
    ensures ValidMem(m.(facts := facts))
  {
    forall i, j | 0 <= i < j < |facts|
      ensures FactId(facts[i]) < FactId(facts[j])
    {
      assert FactId(m.facts[i]) < FactId(m.facts[j]);
    }
    forall f | f in facts
      ensures f.id < m.nextId
    {
      var i :| 0 <= i < |facts| && facts[i] == f;
      assert m.facts[i] in m.facts;
    }
  }

  lemma {:induction false} StatusesSound(m: Mem, statuses: map<Id, Status>)
    requires Sound(m)
    ensures var m' := m.(facts := WithStatuses(m.facts, statuses)); Sound(m') && KeepsComplete(m, m')
  {
    var facts := WithStatuses(m.facts, statuses);
    StatusesAlike(m.facts, statuses);
    AlikeValid(m, facts);
    AlikeKeeps(m, facts, "");
    forall scope | Complete(m, scope)
      ensures Complete(m.(facts := facts), scope)
    {
      AlikeKeeps(m, facts, scope);
    }
  }

  lemma {:induction false} SameIndexSound(m: Mem, m': Mem)
    requires Sound(m) && ValidMem(m') && SameIndex(m, m')
    ensures Sound(m') && KeepsComplete(m, m')
  {
    SameIndexKeeps(m, m', "");
    forall scope | Complete(m, scope)
      ensures Complete(m', scope)
    {
      SameIndexKeeps(m, m', scope);
    }
  }

  lemma {:induction false} SemanticSound(m: Mem, c: Candidate, now: Time)
    requires Sound(m)
    ensures Sound(WriteSemantic(m, c, now)) && KeepsComplete(m, WriteSemantic(m, c, now))
  {
    WriteSemanticGrounded(m, c, now);
    var _ := ConsolidateFrame(m, c, now);
    forall scope | Complete(m, scope)
      ensures Complete(WriteSemantic(m, c, now), scope)
    {
      WriteSemanticComplete(m, c, now, scope);
    }
  }

  lemma {:induction false} ProceduralSound(m: Mem, c: Candidate, now: Time)
    requires Sound(m)
    ensures Sound(WriteProcedural(m, c, now)) && KeepsComplete(m, WriteProcedural(m, c, now))
  {
    WriteProceduralKeeps(m, c, now, "");
    forall scope | Complete(m, scope)
      ensures Complete(WriteProcedural(m, c, now), scope)
    {
      WriteProceduralKeeps(m, c, now, scope);
    }
  }

  lemma {:induction false} DeleteSound(m: Mem, scope: string)
    requires Sound(m)
    ensures Sound(TombstoneScope(m, scope)) && KeepsComplete(m, TombstoneScope(m, scope))
  {
    TombstoneScopeDeletes(m, scope);
    TombstoneScopeUnique(m, scope);
    TombstoneScopeKeeps(m, scope, scope);
    forall other | Complete(m, other)
      ensures Complete(TombstoneScope(m, scope), other)
    {
      TombstoneScopeKeeps(m, scope, other);
    }
  }

  lemma {:induction false} PurgeSound(m: Mem, scope: string, kinds: seq<Kind>)
    requires Sound(m)
    ensures Sound(HardPurge(m, scope, kinds))
    ensures TakesFactsToo(kinds) ==> KeepsComplete(m, HardPurge(m, scope, kinds))
  {
    HardPurgeValid(m, scope, kinds);
    HardPurgeGrounded(m, scope, kinds);
    PurgeKindsEffect(m, scope, Requested(kinds));
    if TakesFactsToo(kinds) {
      forall other | Complete(m, other)
        ensures Complete(HardPurge(m, scope, kinds), other)
      {
        HardPurgeComplete(m, scope, kinds, other);
      }
    }
  }

  /** Every step keeps the memory sound. */
  lemma {:induction false} StepSound(m: Mem, e: Event, now: Time)
    requires Sound(m)
    ensures Sound(Step(m, e, now))
    ensures (e.Purge? ==> TakesFactsToo(e.kinds)) ==> KeepsComplete(m, Step(m, e, now))
  {
    if e.Maintain? {
      PerformMaintains(m, e.job, now);
    } else if e.Semantic? {
      SemanticSound(m, e.c, now);
    } else if e.Procedural? {
      ProceduralSound(m, e.c, now);
    } else if e.Delete? {
      DeleteSound(m, e.scope);
    } else if e.Purge? {
      PurgeSound(m, e.scope, e.kinds);
    } else if e.SetStatuses? {
      StatusesSound(m, e.statuses);
    } else {
      SameIndexSound(m, Step(m, e, now));
    }
  }

  lemma {:induction false} RunSound(m: Mem, run: seq<Timed>)
    requires Sound(m)
    ensures Sound(Run(m, run))
  {
    if run != [] {
      var n := |run| - 1;
      RunSound(m, run[..n]);
      StepSound(Run(m, run[..n]), run[n].event, run[n].now);
    }
  }

  /** Referential integrity: in every reachable memory, whatever was written, deleted, purged
      or repaired, every visible pointer's fact targets are visible facts of its own scope. */
  lemma {:induction false} ReachableTargets(run: seq<Timed>, p: Pointer, id: Id)
    requires var m := Run(EMPTY, run); p in m.pointers && PointerVisible(m, p) && id in p.facts
    ensures var m := Run(EMPTY, run);
      exists f :: f in m.facts && FactVisible(m, f) && f.scope == p.scope && f.id == id
  {
    RunSound(EMPTY, run);
    GroundedTargets(Run(EMPTY, run), p, id);
  }

  // ------------------------------------------------------------ completeness over whole runs

  /** No purge of the run takes pointers without the facts they stand for. */
  ghost predicate NoPointerOnlyPurge(run: seq<Timed>) {
    forall i :: 0 <= i < |run| && run[i].event.Purge? ==> TakesFactsToo(run[i].event.kinds)
  }

  lemma {:induction false} RunComplete(run: seq<Timed>, scope: string)
    requires NoPointerOnlyPurge(run)
    ensures Complete(Run(EMPTY, run), scope)
  {
    if run != [] {
      var n := |run| - 1;
      assert forall i :: 0 <= i < n ==> run[..n][i] == run[i];
      RunComplete(run[..n], scope);
      RunSound(EMPTY, run[..n]);
      StepSound(Run(EMPTY, run[..n]), run[n].event, run[n].now);
    }
  }

  /** Pointer restoration on every reachable memory: whatever ran, as long as pointers were not
      purged alone before, purging the pointers of a scope and rebuilding restores exactly the
      fact pointer keys, and a second rebuild writes nothing. */
  lemma {:induction false} ReachableRestoration(run: seq<Timed>, scope: string, now: Time, later: Time)
    requires NoPointerOnlyPurge(run)
    ensures var m := Run(EMPTY, run);
      var rebuilt := Rebuild(HardPurge(m, scope, [MatrixPointer]), scope, now);
      && FactPointerKeys(rebuilt, scope) == FactPointerKeys(m, scope)
      && RebuildCount(rebuilt, scope) == 0
      && Rebuild(rebuilt, scope, later) == rebuilt
  {
    RunSound(EMPTY, run);
    RunComplete(run, scope);
    PurgeThenRebuild(Run(EMPTY, run), scope, now, later);
    RestoresIffComplete(Run(EMPTY, run), scope, now);
  }

  // ---------------------------------------------------------------- deletion is permanent

  /** The step writes a new record into the scope. */
  predicate WritesTo(e: Event, scope: string) {
    || (e.RecordEpisode? && e.scope == scope)
    || ((e.Semantic? || e.Procedural? || e.ExplicitWrite?) && e.c.scope == scope)
  }

  lemma {:induction false} MaintainsDeleted(m: Mem, m': Mem, on: string, scope: string)
    requires Maintains(m, m', on) && Deleted(m, scope)
    ensures Deleted(m', scope)
  {
    assert on == scope ==> m'.pointers == m.pointers && m'.duratives == m.duratives;
    assert forall p :: p in m'.pointers && p.scope == scope ==> p in m.pointers;
    assert forall d :: d in m'.duratives && d.scope == scope ==> d in m.duratives;
  }

  lemma {:induction false} DurativesElsewhere(m: Mem, line: Line, now: Time, d: Durative)
    requires d in RefreshDurative(m, line, now).duratives
    ensures d in m.duratives || d.scope == line.scope
  {
    var related := OnLine(ListFacts(m, line.scope), line);
    if |related| >= 2 {
      PutDurativeMember(m.duratives, DurativeOf(line, related, now));
    }
  }

  lemma {:induction false} ConsolidateElsewhere(m: Mem, c: Candidate, now: Time, scope: string)
    requires Deleted(m, scope) && c.scope != scope
    ensures Deleted(Consolidate(m, c, now), scope)
  {
    var closed := ConsolidateFrame(m, c, now);
    var m' := Consolidate(m, c, now);
    forall f | f in m'.facts && f.scope == scope
      ensures !FactVisible(m', f)
    {
      assert f in closed;
      var g := AlikeBack(m.facts, closed, f);
      assert !FactVisible(m, g);
    }
    forall d | d in m'.duratives && d.scope == scope
      ensures !DurativeVisible(m', d)
    {
      DurativesElsewhere(WriteFact(m, c, now), CandidateLine(c), now, d);
    }
  }

  lemma {:induction false} PointerElsewhere(m: Mem, on: string, key: PointerKey, now: Time, scope: string)
    requires Deleted(m, scope) && on != scope
    ensures Deleted(WritePointer(m, on, key, now), scope)
  {
  }

  lemma {:induction false} PurgeKindsShrink(m: Mem, scope: string, kinds: seq<Kind>)
    ensures forall d :: d in PurgeKinds(m, scope, kinds).duratives ==> d in m.duratives
  {
    if kinds != [] {
      PurgeKindsShrink(m, scope, kinds[..|kinds| - 1]);
    }
  }

  lemma {:induction false} BuriedDeleted(m: Mem, m': Mem, on: string, scope: string)
    requires Buried(m, m', on) && Deleted(m, scope)
    ensures Deleted(m', scope)
  {
  }

  lemma {:induction false} PurgeKeepsDeleted(m: Mem, on: string, kinds: seq<Kind>, scope: string)
    requires Deleted(m, scope)
    ensures Deleted(HardPurge(m, on, kinds), scope)
  {
    var m', m1 := HardPurge(m, on, kinds), PurgeKinds(m, on, Requested(kinds));
    PurgeKindsEffect(m, on, Requested(kinds));
    PurgeKindsShrink(m, on, Requested(kinds));
    assert forall f :: f in m1.facts ==> f in m.facts;
    assert forall p :: p in m1.pointers ==> p in m.pointers;
    assert forall p :: p in m'.pointers ==> p in m1.pointers;
    assert m' == m1.(pointers := m'.pointers);
  }

  lemma {:induction false} StatusesKeepDeleted(m: Mem, statuses: map<Id, Status>, scope: string)
    requires Deleted(m, scope)
    ensures Deleted(m.(facts := WithStatuses(m.facts, statuses)), scope)
  {
    var m' := m.(facts := WithStatuses(m.facts, statuses));
    StatusesAlike(m.facts, statuses);
    forall f | f in m'.facts && f.scope == scope
      ensures !FactVisible(m', f)
    {
      var g := AlikeBack(m.facts, m'.facts, f);
      assert !FactVisible(m, g);
    }
  }

  lemma {:induction false} SemanticElsewhere(m: Mem, c: Candidate, now: Time, scope: string)
    requires Deleted(m, scope) && c.scope != scope
    ensures Deleted(WriteSemantic(m, c, now), scope)
  {
    ConsolidateElsewhere(m, c, now, scope);
    PointerElsewhere(Consolidate(m, c, now), c.scope,
                     PointerKey(HeadOf(c), EpisodeSources(c.sources), [m.nextId], []), now, scope);
  }

  lemma {:induction false} ProceduralElsewhere(m: Mem, c: Candidate, now: Time, scope: string)
    requires Deleted(m, scope) && c.scope != scope
    ensures Deleted(WriteProcedural(m, c, now), scope)
  {
  }

  lemma {:induction false} DeleteKeepsDeleted(m: Mem, on: string, scope: string)
    requires ValidMem(m) && Deleted(m, scope)
    ensures Deleted(TombstoneScope(m, on), scope)
  {
    TombstoneScopeDeletes(m, on);
    BuriedDeleted(m, TombstoneScope(m, on), on, scope);
  }

  lemma {:induction false} JobKeepsDeleted(m: Mem, job: Job, now: Time, scope: string)
    requires Sound(m) && Deleted(m, scope)
    ensures Deleted(Perform(m, job, now), scope)
  {
    PerformMaintains(m, job, now);
    MaintainsDeleted(m, Perform(m, job, now), job.scope, scope);
  }

  lemma {:induction false} StepKeepsDeleted(m: Mem, e: Event, now: Time, scope: string)
    requires Sound(m) && Deleted(m, scope) && !WritesTo(e, scope)
    ensures Deleted(Step(m, e, now), scope)
  {
    if e.Maintain? {
      JobKeepsDeleted(m, e.job, now, scope);
    } else if e.Delete? {
      DeleteKeepsDeleted(m, e.scope, scope);
    } else if e.Purge? {
      PurgeKeepsDeleted(m, e.scope, e.kinds, scope);
    } else if e.SetStatuses? {
      StatusesKeepDeleted(m, e.statuses, scope);
    } else if e.Semantic? {
      SemanticElsewhere(m, e.c, now, scope);
    } else if e.Procedural? {
      ProceduralElsewhere(m, e.c, now, scope);
    }
  }

  lemma {:induction false} DeletedStays(m: Mem, scope: string, run: seq<Timed>)
    requires Sound(m) && Deleted(m, scope)
    requires forall i :: 0 <= i < |run| ==> !WritesTo(run[i].event, scope)
    ensures Deleted(Run(m, run), scope)
  {
    if run != [] {
      hide Step, Deleted, Sound;
      var n := |run| - 1;
      assert forall i :: 0 <= i < n ==> run[..n][i] == run[i];
      DeletedStays(m, scope, run[..n]);
      RunSound(m, run[..n]);
      StepKeepsDeleted(Run(m, run[..n]), run[n].event, run[n].now, scope);
    }
  }

  /** Once a scope is deleted, its visible episodes, facts, pointers, patterns and durative
      records stay empty under every run that writes no new record into it: sleep, rebuilds,
      the operations loop, resumption, queries, purges, repairs and work on other scopes. */
  lemma {:induction false} DeletionIsPermanent(m: Mem, scope: string, run: seq<Timed>)
    requires Sound(m)
    requires forall i :: 0 <= i < |run| ==> !WritesTo(run[i].event, scope)
    ensures Deleted(Run(TombstoneScope(m, scope), run), scope)
  {
    TombstoneScopeDeletes(m, scope);
    DeleteSound(m, scope);
    DeletedStays(TombstoneScope(m, scope), scope, run);
  }

  lemma {:induction false} DeletedRunSound(m: Mem, scope: string, run: seq<Timed>)
    requires Sound(m)
    ensures Sound(Run(TombstoneScope(m, scope), run))
  {
    DeleteSound(m, scope);
    RunSound(TombstoneScope(m, scope), run);
  }

  /** Deleting again after such a run counts zero records and changes nothing. */
  lemma {:induction false} SecondDeletionCountsZero(m: Mem, scope: string, run: seq<Timed>)
    requires Sound(m)
    requires forall i :: 0 <= i < |run| ==> !WritesTo(run[i].event, scope)
    ensures var m' := Run(TombstoneScope(m, scope), run);
      VisibleCount(m', scope) == 0 && TombstoneScope(m', scope) == m' && UniqueTombstones(m')
  {
    var m' := Run(TombstoneScope(m, scope), run);
    DeletedRunSound(m, scope, run);
    DeletionIsPermanent(m, scope, run);
    DeletedCountsZero(m', scope);
  }

  lemma {:induction false} StepBuries(m: Mem, e: Event, now: Time, t: Tombstone)
    requires Sound(m) && t in m.tombstones
    ensures t in Step(m, e, now).tombstones
  {
    if e.Maintain? {
      PerformMaintains(m, e.job, now);
    } else if e.Delete? {
      TombstoneScopeDeletes(m, e.scope);
    } else if e.Purge? {
      PurgeKindsEffect(m, e.scope, Requested(e.kinds));
    } else if e.Semantic? {
      var _ := ConsolidateFrame(m, e.c, now);
    }
  }

  /** A tombstone is never lifted. Since durative names do not name a run or a time, a durative
      record written after the deletion of its scope is hidden from its first day. */
  lemma {:induction false} DeletedDurativeNeverReturns(m: Mem, run: seq<Timed>, scope: string, subject: string, pred: string)
    requires Sound(m) && Hidden(m, scope, DurativeRecord, Named(DurativeId(subject, pred)))
    ensures var m' := Run(m, run);
      forall d :: d in m'.duratives && d.scope == scope && d.durativeId == DurativeId(subject, pred) ==> !DurativeVisible(m', d)
  {
    var t := Tombstone(scope, DurativeRecord, Named(DurativeId(subject, pred)));
    TombstoneStays(m, run, t);
  }

  lemma {:induction false} TombstoneStays(m: Mem, run: seq<Timed>, t: Tombstone)
    requires Sound(m) && t in m.tombstones
    ensures t in Run(m, run).tombstones
  {
    if run != [] {
      var n := |run| - 1;
      TombstoneStays(m, run[..n], t);
      RunSound(m, run[..n]);
      StepBuries(Run(m, run[..n]), run[n].event, run[n].now, t);
    }
  }

  // ------------------------------------------------------------- storylines over whole runs

  lemma {:induction false} StorylineSame(m: Mem, m': Mem, line: Line)
    requires m'.facts == m.facts
    requires forall f :: f in m.facts && LineOf(f) == line ==> FactVisible(m', f) == FactVisible(m, f)
    ensures Storyline(m', line) == Storyline(m, line)
  {
    FilterCongruence(m.facts, (f: Fact) => LineOf(f) == line && FactVisible(m, f),
                              (f: Fact) => LineOf(f) == line && FactVisible(m', f));
  }

  lemma {:induction false} StorylineGone(m: Mem, line: Line)
    requires NoFacts(m, line.scope)
    ensures Storyline(m, line) == []
  {
    FilterNone(m.facts, (f: Fact) => LineOf(f) == line && FactVisible(m, f));
  }

  lemma {:induction false} StorylineAfterDelete(m: Mem, scope: string, line: Line)
    requires ValidMem(m)
    ensures Storyline(TombstoneScope(m, scope), line) == if line.scope == scope then [] else Storyline(m, line)
  {
    TombstoneScopeDeletes(m, scope);
    if line.scope == scope {
      StorylineGone(TombstoneScope(m, scope), line);
    } else {
      StorylineSame(m, TombstoneScope(m, scope), line);
    }
  }

  lemma {:induction false} StorylineAfterPurge(m: Mem, scope: string, kinds: seq<Kind>, line: Line)
    ensures Storyline(HardPurge(m, scope, kinds), line)
         == if line.scope == scope && SemanticFact in Requested(kinds) then [] else Storyline(m, line)
  {
    var m' := HardPurge(m, scope, kinds);
    PurgeKindsEffect(m, scope, Requested(kinds));
    if SemanticFact !in Requested(kinds) {
      StorylineSame(m, m', line);
    } else {
      PurgedStoryline(m, m', scope, line);
    }
  }

  lemma {:induction false} PurgedStoryline(m: Mem, m': Mem, scope: string, line: Line)
    requires m'.facts == FactsAfterPurge(m, scope) && m'.tombstones == m.tombstones
    ensures Storyline(m', line) == if line.scope == scope then [] else Storyline(m, line)
  {
    var keep := (f: Fact) => !(f.scope == scope && FactVisible(m, f));
    var shown := (f: Fact) => LineOf(f) == line && FactVisible(m, f);
    FilterCongruence(m'.facts, shown, (f: Fact) => LineOf(f) == line && FactVisible(m', f));
    if line.scope == scope {
      FilterNone(m'.facts, shown);
    } else {
      FilterFilter(m.facts, keep, shown, shown);
    }
  }

  lemma {:induction false} StorylineAfterSemantic(m: Mem, c: Candidate, now: Time, line: Line)
    requires ValidMem(m) && Chains(m)
    ensures var s := Storyline(WriteSemantic(m, c, now), line);
      s == if line == CandidateLine(c) then Extended(Storyline(m, line), NewFact(m, c, now)) else Storyline(m, line)
    ensures Succeeds(Storyline(m, CandidateLine(c)), NewFact(m, c, now))
  {
    assert IsChain(Storyline(m, CandidateLine(c)));
    StorylineSame(Consolidate(m, c, now), WriteSemantic(m, c, now), line);
    ConsolidateStoryline(m, c, now, line);
    OwnStorylineGrows(m, c, now);
    if line != CandidateLine(c) {
      OtherStorylineKept(m, c, now, line);
    }
  }

  /** Apart from repairs, a step leaves a storyline alone, wipes it, or extends it by a write. */
  lemma {:induction false} StorylineStep(m: Mem, e: Event, now: Time, line: Line)
    requires Sound(m) && Chains(m) && !e.SetStatuses?
    ensures var s, s' := Storyline(m, line), Storyline(Step(m, e, now), line);
      || s' == s
      || s' == []
      || (e.Semantic? && CandidateLine(e.c) == line && Succeeds(s, NewFact(m, e.c, now))
          && s' == Extended(s, NewFact(m, e.c, now)))
  {
    if e.Maintain? {
      PerformMaintains(m, e.job, now);
      StorylineSame(m, Step(m, e, now), line);
    } else if e.Semantic? {
      StorylineAfterSemantic(m, e.c, now, line);
    } else if e.Delete? {
      StorylineAfterDelete(m, e.scope, line);
    } else if e.Purge? {
      StorylineAfterPurge(m, e.scope, e.kinds, line);
    } else {
      StorylineSame(m, Step(m, e, now), line);
    }
  }

  ghost predicate NoRepair(run: seq<Timed>) {
    forall i :: 0 <= i < |run| ==> !run[i].event.SetStatuses?
  }

  /** In every memory reached without repairs each storyline is one chain of superseding facts:
      one active fact, the newest, and every earlier one closed at its successor's start. */
  lemma {:induction false} ReachableChains(run: seq<Timed>)
    requires NoRepair(run)
    ensures Chains(Run(EMPTY, run))
  {
    if run == [] {
      forall line
        ensures IsChain(Storyline(EMPTY, line))
      {
        assert Storyline(EMPTY, line) == [];
      }
    } else {
      var n := |run| - 1;
      assert forall i :: 0 <= i < n ==> run[..n][i] == run[i];
      ReachableChains(run[..n]);
      RunSound(EMPTY, run[..n]);
      var m := Run(EMPTY, run[..n]);
      forall line
        ensures IsChain(Storyline(Run(EMPTY, run), line))
      {
        StorylineStep(m, run[n].event, run[n].now, line);
        assert IsChain(Storyline(m, line));
        if run[n].event.Semantic? && CandidateLine(run[n].event.c) == line
           && Succeeds(Storyline(m, line), NewFact(m, run[n].event.c, run[n].now)) {
          ExtendedIsChain(Storyline(m, line), NewFact(m, run[n].event.c, run[n].now));
        }
      }
    }
  }

  // ------------------------------------------------------------- timelines over whole runs

  lemma {:induction false} WriteKeepsSegments(m: Mem, e: Event, now: Time)
    requires !e.Maintain? && !e.Purge?
    ensures SameSegments(m, Step(m, e, now))
  {
    if e.Delete? {
      SegmentsSurvive(m, e.scope, e.scope);
    } else if e.Semantic? {
      var _ := ConsolidateFrame(m, e.c, now);
    }
  }

  lemma {:induction false} WritesKeepSegments(m: Mem, run: seq<Timed>)
    requires forall i :: 0 <= i < |run| ==> !run[i].event.Maintain? && !run[i].event.Purge?
    ensures SameSegments(m, Run(m, run))
  {
    if run != [] {
      hide Step, SegmentVisible;
      var n := |run| - 1;
      assert forall i :: 0 <= i < n ==> run[..n][i] == run[i];
      WritesKeepSegments(m, run[..n]);
      WriteKeepsSegments(Run(m, run[..n]), run[n].event, run[n].now);
    }
  }

  /** Once the timeline of a subject is stored, no run of writes, deletions and repairs changes it
      or the contradiction count that the project state reads off it. */
  lemma {:induction false} StoredTimelineFrozen(m: Mem, run: seq<Timed>, scope: string, subject: string, now: Time)
    requires StoredSegments(m, scope, subject) != []
    requires forall i :: 0 <= i < |run| ==> !run[i].event.Maintain? && !run[i].event.Purge?
    ensures StoredSegments(Run(m, run), scope, subject) == StoredSegments(m, scope, subject)
    ensures ProjectSnapshot(Run(m, run), scope, subject, now).contradictionCount
         == ProjectSnapshot(m, scope, subject, now).contradictionCount
         == CountResumed(StoredSegments(m, scope, subject))
  {
    WritesKeepSegments(m, run);
    ProjectStateFrozen(m, Run(m, run), scope, subject, now);
  }

  // ------------------------------------------------------------------- in-order arrival

  /** The start and observation instants of the fact a step writes. */
  function ArrivalKey(t: Timed): SortKey
    requires t.event.Semantic?
  {
    (GetOr(t.event.c.content.validFrom, t.now), t.now)
  }

  predicate Arrives(t: Timed, line: Line) {
    t.event.Semantic? && CandidateLine(t.event.c) == line
  }

  /** The facts of a storyline arrive with non-decreasing starts under a clock that does not
      run backwards. */
  ghost predicate Orderly(run: seq<Timed>, line: Line) {
    forall i, j :: 0 <= i < j < |run| && Arrives(run[i], line) && Arrives(run[j], line)
      ==> KeyLe(ArrivalKey(run[i]), ArrivalKey(run[j]))
  }

  ghost predicate Arrived(run: seq<Timed>, line: Line, f: Fact) {
    exists i :: 0 <= i < |run| && Arrives(run[i], line) && ArrivalKey(run[i]) == ByStartThenObserved(f)
  }

  lemma {:induction false} ArrivedEarlier(run: seq<Timed>, line: Line, f: Fact)
    requires run != [] && Arrived(run[..|run| - 1], line, f)
    ensures Arrived(run, line, f)
  {
    var i :| 0 <= i < |run| - 1 && Arrives(run[..|run| - 1][i], line) && ArrivalKey(run[..|run| - 1][i]) == ByStartThenObserved(f);
    assert run[i] == run[..|run| - 1][i];
  }

  lemma {:induction false} ExtendedMembers(chain: seq<Fact>, fact: Fact, f: Fact) returns (g: Fact)
    requires f in Extended(chain, fact) && f != fact
    ensures g in chain && ByStartThenObserved(g) == ByStartThenObserved(f)
  {
    var i :| 0 <= i < |Extended(chain, fact)| && Extended(chain, fact)[i] == f;
    assert chain != [] && i < |chain|;
    g := chain[i];
  }

  lemma {:induction false} StorylineArrived(run: seq<Timed>, line: Line, f: Fact)
    requires NoRepair(run) && f in Storyline(Run(EMPTY, run), line)
    ensures Arrived(run, line, f)
  {
    hide Step, Succeeds, Chains, IsChain;
    var n := |run| - 1;
    assert run != [] by {
      assert Storyline(EMPTY, line) == [];
    }
    assert forall i :: 0 <= i < n ==> run[..n][i] == run[i];
    ReachableChains(run[..n]);
    RunSound(EMPTY, run[..n]);
    var m, e, now := Run(EMPTY, run[..n]), run[n].event, run[n].now;
    StorylineStep(m, e, now, line);
    var s := Storyline(m, line);
    if f in s {
      StorylineArrived(run[..n], line, f);
      ArrivedEarlier(run, line, f);
    } else {
      assert e.Semantic? && CandidateLine(e.c) == line;
      var fact := NewFact(m, e.c, now);
      if f == fact {
        assert ArrivalKey(run[n]) == ByStartThenObserved(f);
      } else {
        var g := ExtendedMembers(s, fact, f);
        StorylineArrived(run[..n], line, g);
        ArrivedEarlier(run, line, g);
      }
    }
  }

  lemma {:induction false} ExtendedInOrder(chain: seq<Fact>, fact: Fact)
    requires ArrivedInOrder(chain)
    requires forall g :: g in chain ==> KeyLe(ByStartThenObserved(g), ByStartThenObserved(fact))
    ensures ArrivedInOrder(Extended(chain, fact))
  {
    var s, n := Extended(chain, fact), |chain|;
    forall i, j | 0 <= i < j < |s|
      ensures KeyLe(ByStartThenObserved(s[i]), ByStartThenObserved(s[j]))
    {
      assert ByStartThenObserved(s[i]) == ByStartThenObserved(chain[i]);
      assert chain[i] in chain;
      assert j < n ==> ByStartThenObserved(s[j]) == ByStartThenObserved(chain[j]);
    }
  }

  /** In an orderly run the facts that stood before the last arrival have no later key. */
  lemma {:induction false} EarlierArrivalKey(run: seq<Timed>, line: Line, g: Fact)
    requires run != [] && NoRepair(run) && Orderly(run, line) && Arrives(run[|run| - 1], line)
    requires g in Storyline(Run(EMPTY, run[..|run| - 1]), line)
    ensures KeyLe(ByStartThenObserved(g), ArrivalKey(run[|run| - 1]))
  {
    hide Run, Storyline, ArrivalKey, KeyLe;
    var n := |run| - 1;
    StorylineArrived(run[..n], line, g);
    var i :| 0 <= i < n && Arrives(run[..n][i], line) && ArrivalKey(run[..n][i]) == ByStartThenObserved(g);
    assert Arrives(run[i], line) && Arrives(run[n], line);
  }

  /** A storyline whose facts arrived in order stands in order, whatever else ran. */
  lemma {:induction false} OrderlyRunInOrder(run: seq<Timed>, line: Line)
    requires NoRepair(run) && Orderly(run, line)
    ensures ArrivedInOrder(Storyline(Run(EMPTY, run), line))
  {
    if run == [] {
      assert Storyline(EMPTY, line) == [];
    } else {
      var n := |run| - 1;
      assert forall i :: 0 <= i < n ==> run[..n][i] == run[i];
      OrderlyRunInOrder(run[..n], line);
      ReachableChains(run[..n]);
      RunSound(EMPTY, run[..n]);
      var m, e, now := Run(EMPTY, run[..n]), run[n].event, run[n].now;
      StorylineStep(m, e, now, line);
      if e.Semantic? && CandidateLine(e.c) == line {
        var fact := NewFact(m, e.c, now);
        forall g | g in Storyline(m, line)
          ensures KeyLe(ByStartThenObserved(g), ByStartThenObserved(fact))
        {
          EarlierArrivalKey(run, line, g);
        }
        ExtendedInOrder(Storyline(m, line), fact);
      }
    }
  }

  lemma {:induction false} ArrivedStarts(s: seq<Fact>)
    requires ArrivedInOrder(s)
    ensures InOrder(s)
  {
    forall i, j | 0 <= i < j < |s|
      ensures StartOf(s[i]) <= StartOf(s[j])
    {
      assert KeyLe(ByStartThenObserved(s[i]), ByStartThenObserved(s[j]));
    }
  }

  /** A run that is orderly for a storyline leaves it in both orders that the results below ask
      for: by start, and by start and observation. */
  lemma {:induction false} OrderlyRunOrders(run: seq<Timed>, line: Line)
    requires NoRepair(run) && Orderly(run, line)
    ensures var s := Storyline(Run(EMPTY, run), line); ArrivedInOrder(s) && InOrder(s)
  {
    OrderlyRunInOrder(run, line);
    ArrivedStarts(Storyline(Run(EMPTY, run), line));
  }

  /** As-of queries on every reachable memory: where the standing facts of a storyline arrived in
      order of their starts, an instant at or after the first start has one relevant fact exactly
      when no later fact starts at it, and that fact is the one that started last. */
  lemma {:induction false} ReachableAsOf(run: seq<Timed>, line: Line, t: Time)
    requires NoRepair(run)
    requires var s := Storyline(Run(EMPTY, run), line); s != [] && StartOf(s[0]) <= t && InOrder(s)
    ensures var s := Storyline(Run(EMPTY, run), line);
      && (|AsOf(s, t)| == 1 <==> !Boundary(s, t))
      && (!Boundary(s, t) ==> LastStarted(s, t, AsOf(s, t)[0]))
  {
    var m := Run(EMPTY, run);
    var s := Storyline(m, line);
    ReachableChains(run);
    assert IsChain(s);
    RunSound(EMPTY, run);
    StorylineIncreasing(m, line);
    AsOfUnique(s, t);
  }

  /** Timelines on every reachable memory: where the standing facts of a storyline arrived in
      order, rebuilding its timeline tiles it, each segment ending where the next one starts. */
  lemma {:induction false} ReachableTiling(run: seq<Timed>, line: Line, now: Time, k: nat)
    requires NoRepair(run) && ArrivedInOrder(Storyline(Run(EMPTY, run), line))
    requires k + 1 < |FreshSegments(Run(EMPTY, run), line.scope, Some(line.subject), Some(line.pred), now)|
    ensures var s := FreshSegments(Run(EMPTY, run), line.scope, Some(line.subject), Some(line.pred), now);
      s[k].endAt == s[k + 1].startAt
  {
    var m := Run(EMPTY, run);
    RunSound(EMPTY, run);
    ReachableChains(run);
    assert IsChain(Storyline(m, line));
    StorylineIsTimeline(m, line);
    SegmentsTile(Storyline(m, line), line.scope, m.nextId, now, k);
  }
}
