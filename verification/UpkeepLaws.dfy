/** What upkeep records: durative records over storylines, one project state per subject, and which
    parts of a rebuild a request reaches (memory/matrix.py). */
module UpkeepLaws {
  import opened Prelude
  import opened Records
  import opened FactStore
  import opened Timeline
  import opened Pointers
  import opened Integrity
  import opened Restoration
  import opened Deduplication
  import opened Upkeep
  import opened TimelineStore

  // --------------------------------------------------------------------------- listings

  /** Facts are listed by their observation, the newest first, and of equally new ones the one written
      first. */
  lemma {:induction false} FactsNewestFirst(m: Mem, scope: string, i: nat, j: nat)
    requires ValidMem(m) && i < j < |ListFacts(m, scope)|
    ensures var f, g := ListFacts(m, scope)[i], ListFacts(m, scope)[j];
      f.observedAt > g.observedAt || (f.observedAt == g.observedAt && f.id < g.id)
  {
    var visible := VisibleFacts(m, scope);
    FilterIncreasing(m.facts, (f: Fact) => f.scope == scope && FactVisible(m, f), FactId);
    SortSorts(visible, NewestFactFirst);
    SortStable(visible, NewestFactFirst, FactId);
    assert KeyLe(NewestFactFirst(ListFacts(m, scope)[i]), NewestFactFirst(ListFacts(m, scope)[j]));
  }

  /** The stored segments of a subject are listed by their start, and then by their creation. */
  lemma {:induction false} SegmentsByStart(m: Mem, scope: string, subject: string, i: nat, j: nat)
    requires i < j < |StoredSegments(m, scope, subject)|
    ensures var s, t := StoredSegments(m, scope, subject)[i], StoredSegments(m, scope, subject)[j];
      s.startAt < t.startAt || (s.startAt == t.startAt && s.createdAt <= t.createdAt)
  {
    var listed := ListSegments(m, scope);
    SortSorts(VisibleSegments(m, scope), SegmentStart);
    FilterSorted(listed, (s: Segment) => s.subject == subject, SegmentStart);
  }

  lemma {:induction false} FilterSorted<T>(s: seq<T>, p: T -> bool, key: T -> SortKey)
    requires SortedBy(s, key)
    ensures SortedBy(Filter(s, p), key)
  {
    hide KeyLe;
    if s != [] {
      var n := |s| - 1;
      var front := Filter(s[..n], p);
      FilterSorted(s[..n], p, key);
      forall x | x in front
        ensures KeyLe(key(x), key(s[n]))
      {
        var i :| 0 <= i < n && s[i] == x;
      }
      AppendSorted(front, s[n], key);
    }
  }

  // ------------------------------------------------------------------- durative records

  /** The facts in an order of their starts. */
  ghost predicate Orders(ordered: seq<Fact>, facts: seq<Fact>) {
    ordered != [] && multiset(ordered) == multiset(facts) && SortedBy(ordered, ByStart)
  }

  /** A durative record over the facts: all of them as events in the order of their starts, from the
      start of the first to the end of the last. */
  ghost predicate Spans(d: Durative, line: Line, facts: seq<Fact>, now: Time) {
    && d.durativeId == DurativeId(line.subject, line.pred) && d.createdAt == now
    && d.scope == line.scope && d.subject == line.subject && d.pred == line.pred
    && exists ordered :: Orders(ordered, facts) && Covers(d, ordered)
  }

  ghost predicate Covers(d: Durative, ordered: seq<Fact>)
    requires ordered != []
  {
    d.events == Ids(ordered) && d.validFrom == ordered[0].validFrom && d.validUntil == ordered[|ordered| - 1].validUntil
  }

  lemma {:induction false} DurativeSpans(line: Line, related: seq<Fact>, now: Time)
    requires related != []
    ensures Spans(DurativeOf(line, related, now), line, related, now)
  {
    hide DurativeId;
    var ordered := SortBy(related, ByStart);
    SortPermutes(related, ByStart);
    SortSorts(related, ByStart);
    assert Orders(ordered, related) && Covers(DurativeOf(line, related, now), ordered);
  }

  /** A put record is there, and is the only one of its name. */
  lemma {:induction false} PutOnce(s: seq<Durative>, d: Durative)
    ensures d in PutDurative(s, d)
    ensures forall x :: x in PutDurative(s, d) && x.durativeId == d.durativeId ==> x == d
    ensures forall x :: x in s && x.durativeId != d.durativeId ==> x in PutDurative(s, d)
  {
    var r := PutDurative(s, d);
    if exists i :: 0 <= i < |s| && s[i].durativeId == d.durativeId {
      var i :| 0 <= i < |s| && s[i].durativeId == d.durativeId;
      assert r[i] == d;
      forall x | x in s && x.durativeId != d.durativeId
        ensures x in r
      {
        var j :| 0 <= j < |s| && s[j] == x;
        assert r[j] == x;
      }
    }
  }

  /** Refreshing a storyline of two or more listed facts leaves exactly one record of its name, which
      spans them; a shorter storyline records nothing. */
  lemma {:induction false} RefreshSpans(m: Mem, line: Line, now: Time)
    ensures var related, ds := OnLine(ListFacts(m, line.scope), line), RefreshDurative(m, line, now).duratives;
      && (|related| < 2 ==> ds == m.duratives)
      && (|related| >= 2 ==>
            exists d :: d in ds && Spans(d, line, related, now)
                        && forall x :: x in ds && x.durativeId == d.durativeId ==> x == d)
  {
    hide PutDurative, DurativeOf, OnLine, ListFacts;
    var related := OnLine(ListFacts(m, line.scope), line);
    if |related| >= 2 {
      var d := DurativeOf(line, related, now);
      DurativeSpans(line, related, now);
      PutOnce(m.duratives, d);
    }
  }

  /** The name of a record: blanks become hyphens, so different storylines can share one. */
  lemma {:induction false} DurativeNames()
    ensures DurativeId("plan", "next step") == "durative-plan-next-step" == DurativeId("plan-next", "step")
  {
  }

  // ------------------------------------------------------------------------- storylines

  /** The storylines of a listing, each once. */
  lemma {:induction false} LinesListed(facts: seq<Fact>)
    ensures Distinct(Lines(facts))
    ensures forall line :: line in Lines(facts) <==> exists f :: f in facts && LineOf(f) == line
  {
    if facts != [] {
      var n := |facts| - 1;
      LinesListed(facts[..n]);
      assert facts == facts[..n] + [facts[n]];
    }
  }

  lemma {:induction false} DistinctlyOnce(s: seq<string>)
    ensures Distinct(Distinctly(s))
    ensures forall x :: x in Distinctly(s) <==> x in s
  {
    if s != [] {
      var n := |s| - 1;
      DistinctlyOnce(s[..n]);
      assert s == s[..n] + [s[n]];
    }
  }

  /** The subjects of a listing, each once, in Python's order on strings. */
  lemma {:induction false} SubjectsListed(facts: seq<Fact>)
    ensures Distinct(Subjects(facts)) && SortedStrings(Subjects(facts))
    ensures forall x :: x in Subjects(facts) <==> exists f :: f in facts && f.subject == x
  {
    var all := Map(facts, (f: Fact) => f.subject);
    var once := Distinctly(all);
    DistinctlyOnce(all);
    SortStringsSorts(once);
    SortStringsMembers(once);
    DistinctOfMultiset(once, SortStrings(once));
    forall x
      ensures x in all <==> exists f :: f in facts && f.subject == x
    {
      if x in all {
        var i :| 0 <= i < |all| && all[i] == x;
        assert facts[i] in facts;
      }
      if exists f :: f in facts && f.subject == x {
        var f :| f in facts && f.subject == x;
        var i :| 0 <= i < |facts| && facts[i] == f;
        assert all[i] == x;
      }
    }
  }

  // ---------------------------------------------------------------------- project states

  ghost predicate Standing(m: Mem, scope: string, subject: string, f: Fact) {
    f in m.facts && FactVisible(m, f) && f.scope == scope && f.subject == subject && f.status == Active
  }

  function ActiveOf(m: Mem, scope: string, subject: string): seq<Fact> {
    OnlyActive(Filter(ListFacts(m, scope), (f: Fact) => f.subject == subject))
  }

  lemma {:induction false} ActiveStands(m: Mem, scope: string, subject: string, f: Fact)
    ensures f in ActiveOf(m, scope, subject) <==> Standing(m, scope, subject, f)
  {
    ListFactsMember(m, scope, f);
  }

  /** What a snapshot says of its subject: its states and ids are, side by side, those of exactly its
      visible active facts in the scope. */
  lemma {:induction false} SnapshotStates(m: Mem, scope: string, subject: string, now: Time)
    ensures var s, active := ProjectSnapshot(m, scope, subject, now), ActiveOf(m, scope, subject);
      && s.scope == scope && s.subject == subject
      && |s.activeStates| == |s.supporting| == |active|
      && (forall i :: 0 <= i < |active| ==> s.supporting[i] == active[i].id && s.activeStates[i] == active[i].obj)
      && (forall f :: f in active <==> Standing(m, scope, subject, f))
  {
    hide ProjectTimeline, AfterTimeline, ListFacts, Filter, Standing;
    forall f
      ensures f in ActiveOf(m, scope, subject) <==> Standing(m, scope, subject, f)
    {
      ActiveStands(m, scope, subject, f);
    }
  }

  /** The snapshots of before, and then one per subject, in order. */
  ghost predicate OneEach(was: seq<Snapshot>, all: seq<Snapshot>, scope: string, subjects: seq<string>) {
    && |all| == |was| + |subjects| && all[..|was|] == was
    && forall i :: |was| <= i < |all| ==> all[i].scope == scope && all[i].subject == subjects[i - |was|]
  }

  lemma {:induction false} EachOneMore(was: seq<Snapshot>, all: seq<Snapshot>, scope: string, subjects: seq<string>, next: Snapshot)
    requires subjects != [] && OneEach(was, all, scope, subjects[..|subjects| - 1])
    requires next.scope == scope && next.subject == subjects[|subjects| - 1]
    ensures OneEach(was, all + [next], scope, subjects)
  {
  }

  /** One snapshot per subject is added, in order, and none is lost. */
  lemma {:induction false} OneSnapshotEach(m: Mem, scope: string, subjects: seq<string>, now: Time)
    ensures OneEach(m.snapshots, ProjectStates(m, scope, subjects, now).snapshots, scope, subjects)
  {
    if subjects != [] {
      hide ProjectState, ProjectSnapshot, OneEach;
      var n := |subjects| - 1;
      var before := ProjectStates(m, scope, subjects[..n], now);
      OneSnapshotEach(m, scope, subjects[..n], now);
      ProjectStateAdds(before, scope, subjects[n], now);
      EachOneMore(m.snapshots, before.snapshots, scope, subjects, ProjectSnapshot(before, scope, subjects[n], now));
    }
  }

  lemma {:induction false} ProjectStateAdds(m: Mem, scope: string, subject: string, now: Time)
    ensures ProjectState(m, scope, subject, now).snapshots == m.snapshots + [ProjectSnapshot(m, scope, subject, now)]
    ensures ProjectSnapshot(m, scope, subject, now).scope == scope && ProjectSnapshot(m, scope, subject, now).subject == subject
  {
    hide FreshSegments, StoredSegments;
  }

  /** Materializing makes the snapshots of a scope exactly when it has none. */
  lemma {:induction false} MaterializesIff(m: Mem, scope: string, now: Time)
    ensures |Materialize(m, scope, now).snapshots| == |m.snapshots|
      + if exists s :: s in m.snapshots && s.scope == scope then 0 else |Subjects(ListFacts(m, scope))|
  {
    hide ProjectStates, Subjects, ListFacts;
    OneSnapshotEach(m, scope, Subjects(ListFacts(m, scope)), now);
  }

  // ---------------------------------------------------------------- sleep, loops and rebuilds

  /** A record of the time stands under the name of the storyline. */
  ghost predicate Recorded(m: Mem, line: Line, now: Time) {
    exists d :: d in m.duratives && d.durativeId == DurativeId(line.subject, line.pred) && d.createdAt == now
  }

  lemma {:induction false} RecordedNames(m: Mem, facts: seq<Fact>, lines: seq<Line>, now: Time, line: Line)
    requires line in lines && |OnLine(facts, line)| >= 2
    ensures Recorded(RecordDuratives(m, facts, lines, now), line, now)
  {
    hide DurativeId, PutDurative, OnLine;
    var n := |lines| - 1;
    var before, last := RecordDuratives(m, facts, lines[..n], now), lines[n];
    var related := OnLine(facts, last);
    assert lines == lines[..n] + [last];
    if |related| >= 2 {
      PutOnce(before.duratives, DurativeOf(last, related, now));
    }
    if line != last {
      RecordedNames(m, facts, lines[..n], now, line);
      var d :| d in before.duratives && d.durativeId == DurativeId(line.subject, line.pred) && d.createdAt == now;
    }
  }

  /** Sleep leaves a fresh record under the name of every storyline of two or more facts, a snapshot for
      every subject, and no two visible pointers with one key. */
  lemma {:induction false} SleepRecords(m: Mem, scope: string, now: Time, line: Line)
    requires ValidMem(m)
    ensures var m' := Sleep(m, scope, now);
      && (line.scope == scope && |OnLine(ListFacts(m, scope), line)| >= 2 ==> Recorded(m', line, now))
      && |m'.snapshots| == |m.snapshots| + |Subjects(ListFacts(m, scope))|
      && forall p, q :: p in VisiblePointers(m', scope) && q in VisiblePointers(m', scope) && KeyOf(p) == KeyOf(q) ==> p == q
  {
    hide OnLine, DurativeId, RecordDuratives, Deduplicate, ProjectStates, KeyOf, Lines, Subjects;
    var facts := ListFacts(m, scope);
    var m1 := RecordDuratives(m, facts, Lines(facts), now);
    var m2 := Deduplicate(m1, scope);
    if line.scope == scope && |OnLine(facts, line)| >= 2 {
      LineListed(m, scope, line);
      RecordedNames(m, facts, Lines(facts), now, line);
    }
    LinesListed(facts);
    LinesAre(m, scope);
    RecordDurativesDerived(m, facts, Lines(facts), scope, now);
    RecordedSnapshots(m, facts, Lines(facts), now);
    DerivedValid(m, m1);
    DeduplicateFrame(m1, scope);
    DeduplicateKeepsKeys(m1, scope);
    ProjectStatesDerived(m2, scope, Subjects(facts), now);
    OneSnapshotEach(m2, scope, Subjects(facts), now);
    FilterCongruence(m2.pointers, (p: Pointer) => p.scope == scope && PointerVisible(m2, p),
                     (p: Pointer) => p.scope == scope && PointerVisible(Sleep(m, scope, now), p));
  }

  lemma {:induction false} RecordedSnapshots(m: Mem, facts: seq<Fact>, lines: seq<Line>, now: Time)
    ensures RecordDuratives(m, facts, lines, now).snapshots == m.snapshots
  {
    if lines != [] {
      RecordedSnapshots(m, facts, lines[..|lines| - 1], now);
    }
  }

  lemma {:induction false} LinesAre(m: Mem, scope: string)
    ensures forall line :: line in Lines(ListFacts(m, scope)) ==> line.scope == scope
  {
    forall f | f in ListFacts(m, scope)
      ensures f.scope == scope
    {
      ListFactsMember(m, scope, f);
    }
    LinesOfScope(ListFacts(m, scope), scope);
  }

  lemma {:induction false} LineListed(m: Mem, scope: string, line: Line)
    requires line.scope == scope && OnLine(ListFacts(m, scope), line) != []
    ensures line in Lines(ListFacts(m, scope))
  {
    var facts := ListFacts(m, scope);
    var f := OnLine(facts, line)[0];
    ListFactsMember(m, scope, f);
    LinesListed(facts);
    assert f in facts && LineOf(f) == line;
  }

  /** An interrupted operations loop, resumed, ends where an uninterrupted one does. */
  lemma {:induction false} InterruptedThenResumed(m: Mem, scope: string, now: Time)
    ensures ResumeLoop(OperationsLoop(m, scope, true, now), scope, now) == OperationsLoop(m, scope, false, now)
  {
  }

  /** A selective rebuild reaches exactly what it is asked for: pointers are completed or left alone;
      snapshots are made when asked for, or when artifacts are and there are none. */
  lemma {:induction false} SelectiveRebuildReaches(m: Mem, scope: string, targets: Targets, now: Time)
    requires ValidMem(m) && Grounded(m)
    ensures var m', made := SelectiveRebuild(m, scope, targets, now), |Subjects(ListFacts(m, scope))|;
      && (targets.pointers ==> Complete(m', scope))
      && (!targets.pointers ==> m'.pointers == m.pointers)
      && (targets.snapshots && !targets.artifacts ==> |m'.snapshots| == |m.snapshots| + made)
      && (!targets.snapshots && !targets.artifacts ==> m'.snapshots == m.snapshots)
      && (!targets.snapshots && targets.artifacts ==>
            |m'.snapshots| == |m.snapshots| + if exists s :: s in m.snapshots && s.scope == scope then 0 else made)
  {
    hide RebuildFrom, ProjectStates, Subjects, Materialize, Complete, ListFacts, ListPointers;
    var m1 := if targets.pointers then Rebuild(m, scope, now) else m;
    var m2 := if targets.snapshots then RebuildSnapshots(m1, scope, now) else m1;
    RebuildCompletes(m, scope, now);
    RebuiltFrame(m, scope, ListFacts(m, scope), IndexKeys(ListPointers(m, scope)), now);
    SameListing(m, m1, scope);
    ProjectStatesDerived(m1, scope, Subjects(ListFacts(m1, scope)), now);
    OneSnapshotEach(m1, scope, Subjects(ListFacts(m1, scope)), now);
    SameListing(m1, m2, scope);
    MaterializesIff(m2, scope, now);
    MaterializeDerived(m2, scope, now);
    DerivedComplete(m1, m2, scope);
    DerivedComplete(m2, SelectiveRebuild(m, scope, targets, now), scope);
  }

  /** What each job leaves: a sleep no duplicate pointers, a reindexing a complete index and snapshots, a
      timeline query the fresh segments it asked for, a project query one snapshot of its subject. */
  lemma {:induction false} JobsLeave(m: Mem, job: Job, now: Time)
    requires ValidMem(m) && Grounded(m)
    ensures var m', scope := Perform(m, job, now), job.scope;
      && (job.SleepOn? ==> forall p, q :: p in VisiblePointers(m', scope) && q in VisiblePointers(m', scope) && KeyOf(p) == KeyOf(q) ==> p == q)
      && (job.SleepOn? ==> |m'.snapshots| == |m.snapshots| + |Subjects(ListFacts(m, scope))|)
      && (job.Reindex? ==> Complete(m', scope))
      && (job.Reindex? ==>
            |m'.snapshots| == |m.snapshots| + if exists s :: s in m.snapshots && s.scope == scope then 0 else |Subjects(ListFacts(m, scope))|)
      && (job.Resume? || (job.Reselect? && job.targets.pointers) ==> Complete(m', scope))
      && (job.Reselect? && !job.targets.pointers ==> m'.pointers == m.pointers)
      && (job.Operate? && !job.interrupted ==> Complete(m', scope))
      && (job.ShowTimeline? ==> Matched(m', scope, job.subject, job.pred) == FreshSegments(m, scope, job.subject, job.pred, now))
      && (job.ShowProject? ==> m'.snapshots == m.snapshots + [ProjectSnapshot(m, scope, job.of, now)])
  {
    hide Sleep, RebuildIndexes, SelectiveRebuild, Reconstruct, ProjectState, FreshSegments, Complete, Subjects;
    var scope := job.scope;
    match job
    case SleepOn(_) => SleepRecords(m, scope, now, Line(scope, "", ""));
    case Reindex(_) => ReindexLeaves(m, scope, now);
    case Reselect(_, targets) => SelectiveRebuildReaches(m, scope, targets, now);
    case Operate(_, interrupted) =>
      SleepMaintains(m, scope, now);
      SelectiveRebuildReaches(Sleep(m, scope, now), scope, Targets(true, true, true), now);
    case Resume(_) => SelectiveRebuildReaches(m, scope, Targets(true, true, true), now);
    case ShowTimeline(_, subject, pred) => ReconstructStores(m, scope, subject, pred, now);
    case ShowProject(_, of) => ProjectStateAdds(m, scope, of, now);
  }

  lemma {:induction false} ReindexLeaves(m: Mem, scope: string, now: Time)
    requires ValidMem(m) && Grounded(m)
    ensures var m' := RebuildIndexes(m, scope, now);
      && Complete(m', scope)
      && |m'.snapshots| == |m.snapshots| + if exists s :: s in m.snapshots && s.scope == scope then 0 else |Subjects(ListFacts(m, scope))|
  {
    hide RebuildFrom, Materialize, Complete, ListFacts, ListPointers, Subjects;
    var m1 := Rebuild(m, scope, now);
    RebuildCompletes(m, scope, now);
    RebuiltFrame(m, scope, ListFacts(m, scope), IndexKeys(ListPointers(m, scope)), now);
    SameListing(m, m1, scope);
    MaterializesIff(m1, scope, now);
    MaterializeDerived(m1, scope, now);
    DerivedComplete(m1, Materialize(m1, scope, now), scope);
  }

  lemma {:induction false} SameListing(m: Mem, m': Mem, scope: string)
    requires m'.facts == m.facts && m'.tombstones == m.tombstones
    ensures ListFacts(m', scope) == ListFacts(m, scope)
  {
    FilterCongruence(m.facts, (f: Fact) => f.scope == scope && FactVisible(m, f),
                              (f: Fact) => f.scope == scope && FactVisible(m', f));
  }

  lemma {:induction false} RebuiltFrame(m: Mem, scope: string, facts: seq<Fact>, existing: set<IndexKey>, now: Time)
    ensures var m' := RebuildFrom(m, scope, facts, existing, now);
      m' == m.(pointers := m'.pointers, nextId := m'.nextId)
  {
    if facts != [] {
      RebuiltFrame(m, scope, facts[..|facts| - 1], existing, now);
    }
  }

  lemma {:induction false} DerivedComplete(m: Mem, m': Mem, scope: string)
    requires Derived(m, m') || m' == m
    ensures Complete(m, scope) ==> Complete(m', scope)
  {
    if Derived(m, m') {
      SameIndexKeeps(m, m', scope);
    }
  }
}
