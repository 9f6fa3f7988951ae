/** What reconstruction leaves stored: the asked timeline is replaced by the fresh one, everything
    else stays, and a project state read afterwards counts that timeline (memory/matrix.py). */
module TimelineStore {
  import opened Prelude
  import opened Records
  import opened FactStore
  import opened Timeline

  /** A visible segment of the scope about the asked subject and predicate. */
  predicate Matches(m: Mem, scope: string, subject: Option<string>, pred: Option<string>, s: Segment) {
    && s.scope == scope && SegmentVisible(m, s)
    && (subject == None || subject == Some(s.subject))
    && (pred == None || pred == Some(s.pred))
  }

  function Matched(m: Mem, scope: string, subject: Option<string>, pred: Option<string>): seq<Segment> {
    Filter(m.segments, (s: Segment) => Matches(m, scope, subject, pred, s))
  }

  function Unmatched(m: Mem, scope: string, subject: Option<string>, pred: Option<string>): seq<Segment> {
    Filter(m.segments, (s: Segment) => !Matches(m, scope, subject, pred, s))
  }

  lemma {:induction false} TimelineFact(m: Mem, scope: string, subject: Option<string>, pred: Option<string>, f: Fact)
    ensures f in TimelineFacts(m, scope, subject, pred)
       <==> f in m.facts && f.scope == scope && FactVisible(m, f) && Asked(f, subject, pred)
  {
    ListFactsMember(m, scope, f);
    SortMember(Matching(ListFacts(m, scope), subject, pred), ByStartThenObserved, f);
  }

  lemma {:induction false} InConcat(groups: seq<seq<Fact>>, k: nat, f: Fact)
    requires k < |groups| && f in groups[k]
    ensures f in Concat(groups)
  {
    if k < |groups| - 1 {
      InConcat(groups[..|groups| - 1], k, f);
    }
  }

  /** A fresh segment is about what was asked, and carries an id that nothing buries. */
  lemma {:induction false} FreshMatches(m: Mem, m': Mem, scope: string, subject: Option<string>, pred: Option<string>, now: Time, k: nat)
    requires ValidMem(m) && m'.tombstones == m.tombstones && k < |FreshSegments(m, scope, subject, pred, now)|
    ensures Matches(m', scope, subject, pred, FreshSegments(m, scope, subject, pred, now)[k])
  {
    hide TimelineFacts, Groups;
    var facts := TimelineFacts(m, scope, subject, pred);
    var groups := Groups(ByState, facts);
    GroupsPartition(ByState, facts);
    InConcat(groups, k, groups[k][0]);
    TimelineFact(m, scope, subject, pred, groups[k][0]);
    assert FreshSegments(m, scope, subject, pred, now)[k] == SegmentAt(ByState, groups, k, scope, m.nextId, now);
  }

  lemma {:induction false} Replaced<T>(s: seq<T>, built: seq<T>, stays: T -> bool, matching: T -> bool, rest: T -> bool)
    requires forall x :: x in s ==> stays(x) == !matching(x)
    requires forall x :: x in s || x in built ==> rest(x) == !matching(x)
    requires forall x :: x in built ==> matching(x)
    ensures Filter(Filter(s, stays) + built, matching) == built
    ensures Filter(Filter(s, stays) + built, rest) == Filter(s, rest)
  {
    var others := Filter(s, stays);
    FilterCongruence(s, stays, rest);
    FilterAppend(others, built, matching);
    FilterAppend(others, built, rest);
    FilterAll(built, matching);
    FilterNone(built, rest);
    FilterNone(others, matching);
    FilterAll(others, rest);
  }

  /** The segments about the asked subject and predicate are exactly the fresh ones, in order, and
      every other segment stays as it was. */
  lemma {:induction false} ReconstructStores(m: Mem, scope: string, subject: Option<string>, pred: Option<string>, now: Time)
    requires ValidMem(m)
    ensures var m' := Reconstruct(m, scope, subject, pred, now);
      && Matched(m', scope, subject, pred) == FreshSegments(m, scope, subject, pred, now)
      && Unmatched(m', scope, subject, pred) == Unmatched(m, scope, subject, pred)
      && m' == m.(segments := m'.segments, nextId := m.nextId + |FreshSegments(m, scope, subject, pred, now)|)
  {
    hide FreshSegments, ValidMem, Filter;
    var m', built := Reconstruct(m, scope, subject, pred, now), FreshSegments(m, scope, subject, pred, now);
    forall s | s in built
      ensures Matches(m', scope, subject, pred, s)
    {
      var k :| 0 <= k < |built| && built[k] == s;
      FreshMatches(m, m', scope, subject, pred, now, k);
    }
    assert forall s :: Matches(m', scope, subject, pred, s) == Matches(m, scope, subject, pred, s);
    FilterCongruence(m.segments, (s: Segment) => !Matches(m', scope, subject, pred, s),
                                 (s: Segment) => !Matches(m, scope, subject, pred, s));
    Replaced(m.segments, built, (s: Segment) => !Stale(m, scope, subject, pred, s),
             (s: Segment) => Matches(m', scope, subject, pred, s), (s: Segment) => !Matches(m', scope, subject, pred, s));
  }

  // ----------------------------------------------------------------------- once and again

  lemma {:induction false} PartsCount<T>(s: seq<T>, p: T -> bool, q: T -> bool)
    requires forall x :: x in s ==> q(x) == !p(x)
    ensures |s| == |Filter(s, p)| + |Filter(s, q)|
  {
    if s != [] {
      PartsCount(s[..|s| - 1], p, q);
    }
  }

  lemma {:induction false} SameTimelineFacts(m: Mem, m': Mem, scope: string, subject: Option<string>, pred: Option<string>)
    requires m'.facts == m.facts && m'.tombstones == m.tombstones
    ensures TimelineFacts(m', scope, subject, pred) == TimelineFacts(m, scope, subject, pred)
  {
    FilterCongruence(m.facts, (f: Fact) => f.scope == scope && FactVisible(m, f),
                              (f: Fact) => f.scope == scope && FactVisible(m', f));
  }

  lemma {:induction false} ReconstructValid(m: Mem, scope: string, subject: Option<string>, pred: Option<string>, now: Time)
    requires ValidMem(m)
    ensures ValidMem(Reconstruct(m, scope, subject, pred, now))
  {
    hide TimelineFacts, Groups, Filter;
    var built := FreshSegments(m, scope, subject, pred, now);
    forall s | s in built
      ensures s.id < m.nextId + |built|
    {
      var k :| 0 <= k < |built| && built[k] == s;
    }
  }

  /** Reconstructing once more stores the same timeline under fresh ids: no segment more, the same
      states, the same supporting facts, in the same order. */
  lemma {:induction false} ReconstructTwice(m: Mem, scope: string, subject: Option<string>, pred: Option<string>, now: Time, later: Time)
    requires ValidMem(m)
    ensures var m1 := Reconstruct(m, scope, subject, pred, now);
      var m2 := Reconstruct(m1, scope, subject, pred, later);
      var once, twice := Matched(m1, scope, subject, pred), Matched(m2, scope, subject, pred);
      && |m2.segments| == |m1.segments| && |twice| == |once|
      && (forall k :: 0 <= k < |once| ==> twice[k].state == once[k].state && twice[k].supporting == once[k].supporting)
      && Unmatched(m2, scope, subject, pred) == Unmatched(m, scope, subject, pred)
  {
    hide TimelineFacts, Groups, Reconstruct, ValidMem;
    var m1 := Reconstruct(m, scope, subject, pred, now);
    var m2 := Reconstruct(m1, scope, subject, pred, later);
    ReconstructStores(m, scope, subject, pred, now);
    ReconstructValid(m, scope, subject, pred, now);
    ReconstructStores(m1, scope, subject, pred, later);
    SameTimelineFacts(m, m1, scope, subject, pred);
    PartsCount(m1.segments, (s: Segment) => Matches(m1, scope, subject, pred, s), (s: Segment) => !Matches(m1, scope, subject, pred, s));
    PartsCount(m2.segments, (s: Segment) => Matches(m2, scope, subject, pred, s), (s: Segment) => !Matches(m2, scope, subject, pred, s));
  }

  // ------------------------------------------------------------- a project state afterwards

  lemma {:induction false} CountRearranged(s: seq<Segment>, t: seq<Segment>)
    requires multiset(s) == multiset(t)
    ensures CountResumed(s) == CountResumed(t)
  {
    var resumed := (x: Segment) => x.mergeReason == ResumedAfterContradiction;
    CountIsFilter(s, resumed);
    CountIsFilter(t, resumed);
    FilterMultiset(s, t, resumed);
    assert |multiset(Filter(s, resumed))| == |multiset(Filter(t, resumed))|;
  }

  lemma {:induction false} CountIsFilter(s: seq<Segment>, resumed: Segment -> bool)
    requires forall x :: resumed(x) <==> x.mergeReason == ResumedAfterContradiction
    ensures CountResumed(s) == |Filter(s, resumed)|
  {
    if s != [] {
      CountIsFilter(s[..|s| - 1], resumed);
    }
  }

  /** The stored segments of a subject are its matched segments, listed by start. */
  lemma {:induction false} StoredIsMatched(m: Mem, scope: string, subject: string)
    ensures multiset(StoredSegments(m, scope, subject)) == multiset(Matched(m, scope, Some(subject), None))
  {
    var visible, of := VisibleSegments(m, scope), (s: Segment) => s.subject == subject;
    SortPermutes(visible, SegmentStart);
    FilterMultiset(ListSegments(m, scope), visible, of);
    FilterFilter(m.segments, (s: Segment) => s.scope == scope && SegmentVisible(m, s), of,
                 (s: Segment) => Matches(m, scope, Some(subject), None, s));
  }

  /** All visible facts and segments of the scope are about the subject. */
  ghost predicate OnlyAbout(m: Mem, scope: string, subject: string) {
    && (forall f :: f in m.facts && f.scope == scope && FactVisible(m, f) ==> f.subject == subject)
    && (forall s :: s in m.segments && s.scope == scope && SegmentVisible(m, s) ==> s.subject == subject)
  }

  /** The timeline is asked for the subject, or for a scope that is all about it. */
  ghost predicate AsksFor(m: Mem, scope: string, subject: string, asked: Option<string>) {
    asked == Some(subject) || (asked == None && OnlyAbout(m, scope, subject))
  }

  lemma {:induction false} FreshAbout(m: Mem, scope: string, subject: string, now: Time, k: nat)
    requires OnlyAbout(m, scope, subject) && k < |FreshSegments(m, scope, None, None, now)|
    ensures FreshSegments(m, scope, None, None, now)[k].subject == subject
  {
    hide TimelineFacts, Groups;
    var facts := TimelineFacts(m, scope, None, None);
    var groups := Groups(ByState, facts);
    GroupsPartition(ByState, facts);
    InConcat(groups, k, groups[k][0]);
    TimelineFact(m, scope, None, None, groups[k][0]);
  }

  lemma {:induction false} MatchedAlike(m: Mem, m1: Mem, scope: string, subject: string, now: Time)
    requires OnlyAbout(m, scope, subject) && m1 == Reconstruct(m, scope, None, None, now)
    ensures Matched(m1, scope, Some(subject), None) == Matched(m1, scope, None, None)
  {
    hide FreshSegments;
    var built := FreshSegments(m, scope, None, None, now);
    forall s | s in m1.segments && Matches(m1, scope, None, None, s)
      ensures s.subject == subject
    {
      if s in built {
        var k :| 0 <= k < |built| && built[k] == s;
        FreshAbout(m, scope, subject, now, k);
      } else {
        assert s in m.segments && SegmentVisible(m, s);
      }
    }
    FilterCongruence(m1.segments, (s: Segment) => Matches(m1, scope, Some(subject), None, s),
                                  (s: Segment) => Matches(m1, scope, None, None, s));
  }

  lemma {:induction false} NothingBuilt(m: Mem, m1: Mem, scope: string, subject: string, asked: Option<string>, now: Time, later: Time)
    requires AsksFor(m, scope, subject, asked) && m1.facts == m.facts && m1.tombstones == m.tombstones
    requires FreshSegments(m, scope, asked, None, now) == []
    ensures FreshSegments(m1, scope, Some(subject), None, later) == []
  {
    hide TimelineFacts;
    var facts := TimelineFacts(m, scope, asked, None);
    GroupsPartition(ByState, facts);
    var facts1 := TimelineFacts(m1, scope, Some(subject), None);
    if facts1 != [] {
      TimelineFact(m1, scope, Some(subject), None, facts1[0]);
      TimelineFact(m, scope, asked, None, facts1[0]);
    }
  }

  /** A timeline reconstructed for a subject, or for a scope whose facts are all about it, is what
      the next project state of the subject reads: it counts its segments less its distinct states,
      and names each of its segments. */
  lemma {:induction false} ProjectStateAfter(m: Mem, scope: string, subject: string, asked: Option<string>, now: Time, later: Time)
    requires ValidMem(m) && AsksFor(m, scope, subject, asked)
    ensures var m1 := Reconstruct(m, scope, asked, None, now);
      var built := FreshSegments(m, scope, asked, None, now);
      var snapshot := ProjectSnapshot(m1, scope, subject, later);
      && snapshot.contradictionCount == |built| - |Objects(TimelineFacts(m, scope, asked, None))|
      && |snapshot.segmentIds| == |built|
  {
    var m1, built := Reconstruct(m, scope, asked, None, now), FreshSegments(m, scope, asked, None, now);
    var stored := StoredSegments(m1, scope, subject);
    ContradictionCount(TimelineFacts(m, scope, asked, None), scope, m.nextId, now);
    ReconstructStores(m, scope, asked, None, now);
    if asked == None {
      MatchedAlike(m, m1, scope, subject, now);
    }
    hide Reconstruct, ValidMem, StoredSegments, FreshSegments, Matched, OnlyAbout;
    StoredIsMatched(m1, scope, subject);
    CountRearranged(stored, built);
    assert |multiset(stored)| == |multiset(built)|;
    if stored == [] {
      NothingBuilt(m, m1, scope, subject, asked, now, later);
    }
  }

  /** Reading a project state stores a timeline of the subject exactly when there is none: then the
      snapshot names the segments that were just stored, in order; otherwise the stored ones, and no
      segment changes. */
  lemma {:induction false} ProjectStateStores(m: Mem, scope: string, subject: string, now: Time)
    requires ValidMem(m)
    ensures var m', stored := ProjectState(m, scope, subject, now), StoredSegments(m, scope, subject);
      && m'.facts == m.facts && m'.tombstones == m.tombstones
      && |m'.snapshots| == |m.snapshots| + 1 && m'.snapshots[..|m.snapshots|] == m.snapshots
      && (stored != [] ==> m'.segments == m.segments && m'.snapshots[|m.snapshots|].segmentIds == SegmentIds(stored))
      && (stored == [] ==>
            Matched(m', scope, Some(subject), None) == FreshSegments(m, scope, Some(subject), None, now)
            && m'.snapshots[|m.snapshots|].segmentIds == SegmentIds(Matched(m', scope, Some(subject), None)))
  {
    hide FreshSegments, StoredSegments, ListFacts, ValidMem;
    var m' := ProjectState(m, scope, subject, now);
    if StoredSegments(m, scope, subject) == [] {
      var m1 := Reconstruct(m, scope, Some(subject), None, now);
      ReconstructStores(m, scope, Some(subject), None, now);
      FilterCongruence(m1.segments, (s: Segment) => Matches(m', scope, Some(subject), None, s),
                                    (s: Segment) => Matches(m1, scope, Some(subject), None, s));
    }
  }
}
