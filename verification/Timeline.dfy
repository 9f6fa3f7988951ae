/** Timeline reconstruction: sorted facts are run-length grouped into a doubly linked list of
    segments with contradiction bookkeeping, and project state counts the contradictions
    (memory/matrix.py). */
module Timeline {
  import opened Prelude
  import opened Records
  import opened FactStore

  // ------------------------------------------------------------------- ordered facts

  predicate Asked(f: Fact, subject: Option<string>, pred: Option<string>) {
    (subject.Some? ==> f.subject == subject.value) && (pred.Some? ==> f.pred == pred.value)
  }

  function Matching(facts: seq<Fact>, subject: Option<string>, pred: Option<string>): seq<Fact> {
    Filter(facts, (f: Fact) => Asked(f, subject, pred))
  }

  /** The facts a timeline is built from, in timeline order. */
  function TimelineFacts(m: Mem, scope: string, subject: Option<string>, pred: Option<string>): seq<Fact> {
    SortBy(Matching(ListFacts(m, scope), subject, pred), ByStartThenObserved)
  }

  // ----------------------------------------------------------------- run-length groups

  /** A timeline groups by state; a cross-scope timeline by state and scope. */
  datatype Grouping = ByState | ByStateAndScope

  predicate SameRun(g: Grouping, a: Fact, b: Fact) {
    a.obj == b.obj && (g.ByStateAndScope? ==> a.scope == b.scope)
  }

  function Last<T>(s: seq<T>): T
    requires s != []
  {
    s[|s| - 1]
  }

  /** Append a fact to the last group if it continues its run, else open a group. */
  function Place(g: Grouping, groups: seq<seq<Fact>>, f: Fact): (r: seq<seq<Fact>>)
    requires forall k :: 0 <= k < |groups| ==> groups[k] != []
    ensures forall k :: 0 <= k < |r| ==> r[k] != []
  {
    if groups == [] || !SameRun(g, Last(Last(groups)), f) then groups + [[f]]
    else groups[..|groups| - 1] + [Last(groups) + [f]]
  }

  function Groups(g: Grouping, facts: seq<Fact>): (r: seq<seq<Fact>>)
    ensures forall k :: 0 <= k < |r| ==> r[k] != []
  {
    if facts == [] then []
    else Place(g, Groups(g, facts[..|facts| - 1]), facts[|facts| - 1])
  }

  function Concat<T>(groups: seq<seq<T>>): seq<T> {
    if groups == [] then [] else Concat(groups[..|groups| - 1]) + groups[|groups| - 1]
  }

  ghost predicate Run(g: Grouping, group: seq<Fact>) {
    group != [] && forall i :: 0 <= i < |group| ==> SameRun(g, group[0], group[i])
  }

  /** Every group is one run, and neighbours are never of the same run. */
  ghost predicate Runs(g: Grouping, groups: seq<seq<Fact>>) {
    && (forall k :: 0 <= k < |groups| ==> Run(g, groups[k]))
    && (forall k :: 0 <= k < |groups| - 1 ==> !SameRun(g, groups[k][0], groups[k + 1][0]))
  }

  lemma {:induction false} OpenGroup(g: Grouping, groups: seq<seq<Fact>>, f: Fact)
    requires Runs(g, groups)
    requires groups == [] || !SameRun(g, Last(Last(groups)), f)
    ensures Runs(g, groups + [[f]])
  {
    var r := groups + [[f]];
    if groups != [] {
      var last := Last(groups);
      assert Run(g, last);
      assert SameRun(g, last[0], Last(last));
    }
    assert forall k :: 0 <= k < |groups| ==> r[k] == groups[k];
  }

  lemma {:induction false} ExtendGroup(g: Grouping, groups: seq<seq<Fact>>, f: Fact)
    requires groups != [] && Runs(g, groups)
    requires SameRun(g, Last(Last(groups)), f)
    ensures Runs(g, groups[..|groups| - 1] + [Last(groups) + [f]])
  {
    var n := |groups| - 1;
    var last := groups[n];
    var r := groups[..n] + [last + [f]];
    assert Run(g, last);
    assert SameRun(g, last[0], Last(last));
    assert Run(g, last + [f]);
    assert forall k :: 0 <= k < n ==> r[k] == groups[k];
    assert r[n][0] == groups[n][0];
  }

  lemma {:induction false} PlaceRuns(g: Grouping, groups: seq<seq<Fact>>, f: Fact)
    requires Runs(g, groups)
    ensures Runs(g, Place(g, groups, f))
    ensures Concat(Place(g, groups, f)) == Concat(groups) + [f]
  {
    var r := Place(g, groups, f);
    if groups == [] || !SameRun(g, Last(Last(groups)), f) {
      OpenGroup(g, groups, f);
      assert r[..|r| - 1] == groups;
    } else {
      ExtendGroup(g, groups, f);
      assert r[..|r| - 1] == groups[..|groups| - 1];
    }
  }

  /** The groups partition the sorted facts into maximal runs. */
  lemma {:induction false} GroupsPartition(g: Grouping, facts: seq<Fact>)
    ensures Runs(g, Groups(g, facts))
    ensures Concat(Groups(g, facts)) == facts
  {
    if facts != [] {
      var n := |facts| - 1;
      GroupsPartition(g, facts[..n]);
      PlaceRuns(g, Groups(g, facts[..n]), facts[n]);
      assert facts[..n] + [facts[n]] == facts;
    }
  }

  // --------------------------------------------------------------- the states seen so far

  /** `seen_states`: a dictionary from state to fact ids, in insertion order. */
  type SeenStates = seq<(string, seq<Id>)>

  predicate HasSeen(seen: SeenStates, state: string) {
    exists i :: 0 <= i < |seen| && seen[i].0 == state
  }

  /** `seen_states.setdefault(state, []).extend(ids)` */
  function Remember(seen: SeenStates, state: string, ids: seq<Id>): SeenStates {
    if seen == [] then [(state, ids)]
    else if seen[0].0 == state then [(state, seen[0].1 + ids)] + seen[1..]
    else [seen[0]] + Remember(seen[1..], state, ids)
  }

  function StateOf(group: seq<Fact>): string
    requires group != []
  {
    group[|group| - 1].obj
  }

  predicate AllNonEmpty(groups: seq<seq<Fact>>) {
    forall k :: 0 <= k < |groups| ==> groups[k] != []
  }

  function Seen(groups: seq<seq<Fact>>): SeenStates
    requires AllNonEmpty(groups)
  {
    if groups == [] then []
    else Remember(Seen(groups[..|groups| - 1]), StateOf(Last(groups)), Ids(Last(groups)))
  }

  /** The remembered fact ids of every other state. */
  function Contradicted(seen: SeenStates, state: string): seq<Id> {
    if seen == [] then []
    else (if seen[0].0 != state then seen[0].1 else []) + Contradicted(seen[1..], state)
  }

  function MergeReasonOf(seen: SeenStates, state: string): MergeReason {
    if !HasSeen(seen, state) then Fresh
    else if Contradicted(seen, state) != [] then ResumedAfterContradiction
    else ResumedPriorState
  }

  function TransitionOf(g: Grouping, groups: seq<seq<Fact>>, k: nat): Transition
    requires AllNonEmpty(groups) && k < |groups|
  {
    if k + 1 == |groups| then Terminal
    else if g.ByStateAndScope? && groups[k + 1][0].scope != Last(groups[k]).scope then ScopeChange
    else if groups[k + 1][0].obj != StateOf(groups[k]) then StateChange
    else Continued
  }

  /** The segment built from group k, with both links in place; ids are issued from `base`. */
  function SegmentAt(g: Grouping, groups: seq<seq<Fact>>, k: nat, scope: string, base: Id, now: Time): Segment
    requires AllNonEmpty(groups) && k < |groups|
  {
    var items := groups[k];
    var state := StateOf(items);
    var seen := Seen(groups[..k]);
    Segment(base + k, if g.ByState? then scope else items[0].scope, items[0].subject, items[0].pred, state,
            StartOf(items[0]), EndOf(Last(items)), Ids(items),
            if k == 0 then None else Some(base + k - 1),
            if k + 1 == |groups| then None else Some(base + k + 1),
            TransitionOf(g, groups, k), Contradicted(seen, state), MergeReasonOf(seen, state), now)
  }

  function SegmentsOf(g: Grouping, groups: seq<seq<Fact>>, scope: string, base: Id, now: Time): (r: seq<Segment>)
    requires AllNonEmpty(groups)
    ensures |r| == |groups|
    ensures forall k :: 0 <= k < |groups| ==> r[k] == SegmentAt(g, groups, k, scope, base, now)
  {
    seq(|groups|, k requires 0 <= k < |groups| => SegmentAt(g, groups, k, scope, base, now))
  }

  // -------------------------------------------------------------- links and transitions

  /** A doubly linked list whose elements are exactly s, in order. */
  ghost predicate Linked(s: seq<Segment>) {
    && (forall k, l :: 0 <= k < |s| && 0 <= l < |s| && s[k].id == s[l].id ==> k == l)
    && (s != [] ==> s[0].previous.None? && s[|s| - 1].next.None?)
    && (forall k :: 0 <= k < |s| - 1 ==> s[k].next == Some(s[k + 1].id) && s[k + 1].previous == Some(s[k].id))
  }

  lemma {:induction false} NumberedIsLinked(s: seq<Segment>, base: Id)
    requires forall k :: 0 <= k < |s| ==> s[k].id == base + k
    requires forall k :: 0 <= k < |s| ==> s[k].previous == if k == 0 then None else Some(base + k - 1)
    requires forall k :: 0 <= k < |s| ==> s[k].next == if k + 1 == |s| then None else Some(base + k + 1)
    ensures Linked(s)
  {
  }

  lemma {:induction false} SegmentsLinked(g: Grouping, groups: seq<seq<Fact>>, scope: string, base: Id, now: Time)
    requires AllNonEmpty(groups)
    ensures Linked(SegmentsOf(g, groups, scope, base, now))
  {
    NumberedIsLinked(SegmentsOf(g, groups, scope, base, now), base);
  }

  function Supporting(segments: seq<Segment>): seq<Id> {
    if segments == [] then [] else Supporting(segments[..|segments| - 1]) + Last(segments).supporting
  }

  lemma {:induction false} IdsConcat(s: seq<Fact>, t: seq<Fact>)
    ensures Ids(s + t) == Ids(s) + Ids(t)
  {
  }

  lemma {:induction false} SupportingOfPrefix(g: Grouping, groups: seq<seq<Fact>>, scope: string, base: Id, now: Time, n: nat)
    requires AllNonEmpty(groups) && n <= |groups|
    ensures Supporting(SegmentsOf(g, groups, scope, base, now)[..n]) == Ids(Concat(groups[..n]))
  {
    if n > 0 {
      var s := SegmentsOf(g, groups, scope, base, now);
      SupportingOfPrefix(g, groups, scope, base, now, n - 1);
      assert s[..n][..n - 1] == s[..n - 1] && groups[..n][..n - 1] == groups[..n - 1];
      IdsConcat(Concat(groups[..n - 1]), groups[n - 1]);
    }
  }

  lemma {:induction false} SegmentsSupport(g: Grouping, facts: seq<Fact>, scope: string, base: Id, now: Time)
    ensures Supporting(SegmentsOf(g, Groups(g, facts), scope, base, now)) == Ids(facts)
  {
    var groups := Groups(g, facts);
    var s := SegmentsOf(g, groups, scope, base, now);
    GroupsPartition(g, facts);
    SupportingOfPrefix(g, groups, scope, base, now, |groups|);
    assert s[..|groups|] == s && groups[..|groups|] == groups;
  }

  lemma {:induction false} SegmentState(g: Grouping, groups: seq<seq<Fact>>, k: nat, scope: string, base: Id, now: Time)
    requires Runs(g, groups) && AllNonEmpty(groups) && k < |groups|
    ensures var s := SegmentAt(g, groups, k, scope, base, now);
      && s.state == groups[k][0].obj
      && (g.ByStateAndScope? ==> s.scope == Last(groups[k]).scope)
      && (k + 1 < |groups| && g.ByState? ==> s.transition == StateChange && s.state != groups[k + 1][0].obj)
      && (k + 1 < |groups| && g.ByStateAndScope? ==>
            s.transition == if groups[k + 1][0].scope != s.scope then ScopeChange else StateChange)
      && (k + 1 < |groups| && g.ByStateAndScope? ==>
            s.state != groups[k + 1][0].obj || s.scope != groups[k + 1][0].scope)
      && (k + 1 == |groups| ==> s.transition == Terminal)
  {
    assert Run(g, groups[k]);
    assert SameRun(g, groups[k][0], Last(groups[k]));
    if k + 1 < |groups| {
      assert !SameRun(g, groups[k][0], groups[k + 1][0]);
    }
  }

  /** A rebuilt timeline: the supporting ids read in segment order are the sorted facts, the
      segments form a doubly linked list, neighbours differ in state, and every transition but
      the last is a state change: `continued` never occurs. */
  lemma {:induction false} TimelineShape(facts: seq<Fact>, scope: string, base: Id, now: Time)
    ensures var s := SegmentsOf(ByState, Groups(ByState, facts), scope, base, now);
      && Supporting(s) == Ids(facts)
      && Linked(s)
      && (forall k :: 0 <= k < |s| - 1 ==> s[k].state != s[k + 1].state)
      && (forall k :: 0 <= k < |s| ==> s[k].transition == if k == |s| - 1 then Terminal else StateChange)
  {
    var groups := Groups(ByState, facts);
    var s := SegmentsOf(ByState, groups, scope, base, now);
    GroupsPartition(ByState, facts);
    SegmentsSupport(ByState, facts, scope, base, now);
    SegmentsLinked(ByState, groups, scope, base, now);
    forall k | 0 <= k < |s|
      ensures s[k].transition == if k == |s| - 1 then Terminal else StateChange
      ensures k < |s| - 1 ==> s[k].state != s[k + 1].state
    {
      SegmentState(ByState, groups, k, scope, base, now);
      if k < |s| - 1 {
        SegmentState(ByState, groups, k + 1, scope, base, now);
      }
    }
  }

  /** A cross-scope timeline partitions its facts too; neighbours differ in state or in scope,
      a transition says which, a change of scope taking precedence, and never `continued`. */
  lemma {:induction false} CrossScopeShape(facts: seq<Fact>, base: Id, now: Time)
    ensures var s := SegmentsOf(ByStateAndScope, Groups(ByStateAndScope, facts), "", base, now);
      && Supporting(s) == Ids(facts)
      && Linked(s)
      && (forall k :: 0 <= k < |s| - 1 ==> s[k].state != s[k + 1].state || s[k].scope != s[k + 1].scope)
      && (forall k :: 0 <= k < |s| - 1 ==>
            s[k].transition == if s[k].scope != s[k + 1].scope then ScopeChange else StateChange)
  {
    var groups := Groups(ByStateAndScope, facts);
    var s := SegmentsOf(ByStateAndScope, groups, "", base, now);
    GroupsPartition(ByStateAndScope, facts);
    SegmentsSupport(ByStateAndScope, facts, "", base, now);
    SegmentsLinked(ByStateAndScope, groups, "", base, now);
    forall k | 0 <= k < |s| - 1
      ensures s[k].state != s[k + 1].state || s[k].scope != s[k + 1].scope
      ensures s[k].transition == if s[k].scope != s[k + 1].scope then ScopeChange else StateChange
    {
      SegmentState(ByStateAndScope, groups, k, "", base, now);
      SegmentState(ByStateAndScope, groups, k + 1, "", base, now);
      assert s[k + 1].scope == groups[k + 1][0].scope;
    }
  }

  // --------------------------------------------------------------- contradiction bookkeeping

  function OtherStates(facts: seq<Fact>, state: string): seq<Fact> {
    Filter(facts, (f: Fact) => f.obj != state)
  }

  lemma {:induction false} RememberContradicted(seen: SeenStates, state: string, ids: seq<Id>, asked: string)
    ensures multiset(Contradicted(Remember(seen, state, ids), asked))
         == multiset(Contradicted(seen, asked)) + if state != asked then multiset(ids) else multiset{}
  {
    var r := Remember(seen, state, ids);
    if seen == [] {
      assert r[1..] == [];
    } else if seen[0].0 == state {
      assert r[1..] == seen[1..];
    } else {
      assert r[1..] == Remember(seen[1..], state, ids);
      RememberContradicted(seen[1..], state, ids, asked);
    }
  }

  lemma {:induction false} RememberKeys(seen: SeenStates, state: string, ids: seq<Id>, asked: string)
    ensures HasSeen(Remember(seen, state, ids), asked) <==> HasSeen(seen, asked) || asked == state
  {
    var r := Remember(seen, state, ids);
    if seen != [] && seen[0].0 != state {
      RememberKeys(seen[1..], state, ids, asked);
      assert r[1..] == Remember(seen[1..], state, ids);
      assert HasSeen(r, asked) <==> r[0].0 == asked || HasSeen(r[1..], asked) by { HeadOrTail(r, asked); }
      HeadOrTail(seen, asked);
    } else if seen != [] {
      HeadOrTail(seen, asked);
      HeadOrTail(r, asked);
      assert r[1..] == seen[1..];
    } else {
      HeadOrTail(r, asked);
    }
  }

  lemma {:induction false} HeadOrTail(seen: SeenStates, asked: string)
    requires seen != []
    ensures HasSeen(seen, asked) <==> seen[0].0 == asked || HasSeen(seen[1..], asked)
  {
    if HasSeen(seen, asked) {
      var i :| 0 <= i < |seen| && seen[i].0 == asked;
      if i > 0 {
        assert seen[1..][i - 1].0 == asked;
      }
    }
    if HasSeen(seen[1..], asked) {
      var i :| 0 <= i < |seen[1..]| && seen[1..][i].0 == asked;
      assert seen[i + 1].0 == asked;
    }
  }

  lemma {:induction false} OtherStatesOfRun(group: seq<Fact>, state: string)
    requires Run(ByState, group)
    ensures Ids(OtherStates(group, state)) == if StateOf(group) != state then Ids(group) else []
  {
    assert SameRun(ByState, group[0], Last(group));
    forall f | f in group
      ensures f.obj == StateOf(group)
    {
      var i :| 0 <= i < |group| && group[i] == f;
      assert SameRun(ByState, group[0], group[i]);
    }
    if StateOf(group) != state {
      FilterAll(group, (f: Fact) => f.obj != state);
    } else {
      FilterNone(group, (f: Fact) => f.obj != state);
    }
  }

  function OtherIds(groups: seq<seq<Fact>>, state: string): seq<Id> {
    Ids(OtherStates(Concat(groups), state))
  }

  lemma {:induction false} OtherIdsStep(groups: seq<seq<Fact>>, state: string)
    requires groups != [] && Run(ByState, Last(groups))
    ensures OtherIds(groups, state)
         == OtherIds(groups[..|groups| - 1], state)
            + if StateOf(Last(groups)) != state then Ids(Last(groups)) else []
  {
    var front, last := groups[..|groups| - 1], Last(groups);
    FilterAppend(Concat(front), last, (f: Fact) => f.obj != state);
    OtherStatesOfRun(last, state);
    IdsConcat(OtherStates(Concat(front), state), OtherStates(last, state));
  }

  /** What a segment contradicts is exactly what the earlier groups of other states support. */
  lemma {:induction false} ContradictedIsOthers(groups: seq<seq<Fact>>, state: string)
    requires AllNonEmpty(groups) && forall k :: 0 <= k < |groups| ==> Run(ByState, groups[k])
    ensures multiset(Contradicted(Seen(groups), state)) == multiset(OtherIds(groups, state))
  {
    if groups != [] {
      var front, last := groups[..|groups| - 1], Last(groups);
      ContradictedIsOthers(front, state);
      RememberContradicted(Seen(front), StateOf(last), Ids(last), state);
      OtherIdsStep(groups, state);
    }
  }

  lemma {:induction false} SeenIffEarlier(groups: seq<seq<Fact>>, state: string)
    requires AllNonEmpty(groups)
    ensures HasSeen(Seen(groups), state) <==> exists k :: 0 <= k < |groups| && StateOf(groups[k]) == state
  {
    if groups != [] {
      var n := |groups| - 1;
      var front := groups[..n];
      assert forall k :: 0 <= k < n ==> front[k] == groups[k];
      SeenIffEarlier(front, state);
      RememberKeys(Seen(front), StateOf(groups[n]), Ids(groups[n]), state);
    }
  }

  lemma {:induction false} StateOfRun(group: seq<Fact>, i: nat)
    requires Run(ByState, group) && i < |group|
    ensures group[i].obj == StateOf(group)
  {
    assert SameRun(ByState, group[0], group[i]) && SameRun(ByState, group[0], Last(group));
  }

  /** A state that returns always returns over a contradiction: right before it stood another
      state. So a segment resumes after contradiction exactly when its state was seen. */
  lemma {:induction false} ResumesOverContradiction(groups: seq<seq<Fact>>, k: nat)
    requires Runs(ByState, groups) && k < |groups|
    ensures AllNonEmpty(groups)
    ensures MergeReasonOf(Seen(groups[..k]), StateOf(groups[k]))
         == if exists j :: 0 <= j < k && StateOf(groups[j]) == StateOf(groups[k])
            then ResumedAfterContradiction else Fresh
  {
    assert forall j :: 0 <= j < |groups| ==> Run(ByState, groups[j]);
    var earlier, state := groups[..k], StateOf(groups[k]);
    assert forall j :: 0 <= j < k ==> earlier[j] == groups[j];
    SeenIffEarlier(earlier, state);
    if HasSeen(Seen(earlier), state) {
      ContradictedIsOthers(earlier, state);
      NeighbourContradicts(groups, k);
      assert OtherIds(earlier, state)[0] in multiset(OtherIds(earlier, state));
    }
  }

  lemma {:induction false} NeighbourContradicts(groups: seq<seq<Fact>>, k: nat)
    requires Runs(ByState, groups) && 0 < k < |groups|
    ensures groups[k] != [] && OtherIds(groups[..k], StateOf(groups[k])) != []
  {
    assert Run(ByState, groups[k - 1]) && Run(ByState, groups[k]);
    var f := groups[k - 1][0];
    StateOfRun(groups[k], 0);
    assert !SameRun(ByState, groups[k - 1][0], groups[k][0]);
    assert groups[..k][..k - 1] == groups[..k - 1];
    assert f in Concat(groups[..k]);
    assert f in OtherStates(Concat(groups[..k]), StateOf(groups[k]));
  }

  /** Across scopes a segment resumes a state without contradiction exactly when that state
      was seen and every earlier fact states it too. */
  lemma {:induction false} CrossScopeResumes(groups: seq<seq<Fact>>, k: nat)
    requires Runs(ByStateAndScope, groups) && k < |groups|
    ensures AllNonEmpty(groups)
    ensures MergeReasonOf(Seen(groups[..k]), StateOf(groups[k])) == ResumedPriorState
       <==> k > 0 && forall f :: f in Concat(groups[..k]) ==> f.obj == StateOf(groups[k])
  {
    hide Seen, Contradicted;
    assert forall j :: 0 <= j < |groups| ==> Run(ByStateAndScope, groups[j]);
    var earlier, state := groups[..k], StateOf(groups[k]);
    assert forall j :: 0 <= j < k ==> earlier[j] == groups[j];
    SeenIffEarlier(earlier, state);
    forall j | 0 <= j < k
      ensures Run(ByState, earlier[j])
    {
      RunOfState(earlier[j]);
    }
    ContradictedIsOthers(earlier, state);
    var others := OtherStates(Concat(earlier), state);
    if others != [] {
      assert others[0] in Concat(earlier);
      assert OtherIds(earlier, state)[0] in multiset(OtherIds(earlier, state));
    } else if k > 0 {
      LastFactConcat(earlier);
      var f := Last(Last(earlier));
      assert f !in others;
      assert StateOf(earlier[k - 1]) == state;
      assert |Contradicted(Seen(earlier), state)| == |multiset(Contradicted(Seen(earlier), state))| == 0;
    }
  }

  lemma {:induction false} RunOfState(group: seq<Fact>)
    requires Run(ByStateAndScope, group)
    ensures Run(ByState, group)
  {
    forall i | 0 <= i < |group|
      ensures SameRun(ByState, group[0], group[i])
    {
      assert SameRun(ByStateAndScope, group[0], group[i]);
    }
  }

  lemma {:induction false} LastFactConcat(groups: seq<seq<Fact>>)
    requires groups != [] && Last(groups) != []
    ensures Last(Last(groups)) in Concat(groups)
  {
  }

  // -------------------------------------------------------------- counting contradictions

  function CountResumed(segments: seq<Segment>): nat {
    if segments == [] then 0
    else CountResumed(segments[..|segments| - 1])
         + if Last(segments).mergeReason == ResumedAfterContradiction then 1 else 0
  }

  ghost function States(groups: seq<seq<Fact>>): set<string>
    requires AllNonEmpty(groups)
  {
    set k | 0 <= k < |groups| :: StateOf(groups[k])
  }

  lemma {:induction false} ResumedIffSeen(groups: seq<seq<Fact>>, k: nat, scope: string, base: Id, now: Time)
    requires Runs(ByState, groups) && AllNonEmpty(groups) && k < |groups|
    ensures SegmentAt(ByState, groups, k, scope, base, now).mergeReason == ResumedAfterContradiction
       <==> StateOf(groups[k]) in States(groups[..k])
  {
    ResumesOverContradiction(groups, k);
    assert forall j :: 0 <= j < k ==> groups[..k][j] == groups[j];
  }

  lemma {:induction false} NoStates()
    ensures States([]) == {}
  {
  }

  lemma {:induction false} CountOfPrefix(groups: seq<seq<Fact>>, scope: string, base: Id, now: Time, n: nat)
    requires Runs(ByState, groups) && AllNonEmpty(groups) && n <= |groups|
    ensures CountResumed(SegmentsOf(ByState, groups, scope, base, now)[..n]) == n - |States(groups[..n])|
  {
    hide SegmentAt, Runs, States, MergeReasonOf, Seen;
    var s := SegmentsOf(ByState, groups, scope, base, now);
    if n == 0 {
      NoStates();
    } else {
      CountOfPrefix(groups, scope, base, now, n - 1);
      ResumedIffSeen(groups, n - 1, scope, base, now);
      NewState(groups[..n]);
      assert groups[..n][..n - 1] == groups[..n - 1] && s[..n][..n - 1] == s[..n - 1];
      assert Last(s[..n]) == SegmentAt(ByState, groups, n - 1, scope, base, now);
    }
  }

  lemma {:induction false} NewState(groups: seq<seq<Fact>>)
    requires groups != [] && AllNonEmpty(groups)
    ensures States(groups) == States(groups[..|groups| - 1]) + {StateOf(Last(groups))}
  {
    var front := groups[..|groups| - 1];
    forall x | x in States(groups)
      ensures x in States(front) + {StateOf(Last(groups))}
    {
      var k :| 0 <= k < |groups| && StateOf(groups[k]) == x;
      assert k < |front| ==> front[k] == groups[k];
    }
    forall x | x in States(front)
      ensures x in States(groups)
    {
      var k :| 0 <= k < |front| && StateOf(front[k]) == x;
      assert groups[k] == front[k];
    }
  }

  /** The state objects of a list of facts. */
  ghost function Objects(facts: seq<Fact>): set<string> {
    set f | f in facts :: f.obj
  }

  lemma {:induction false} StatesAreObjects(groups: seq<seq<Fact>>)
    requires AllNonEmpty(groups) && forall k :: 0 <= k < |groups| ==> Run(ByState, groups[k])
    ensures States(groups) == Objects(Concat(groups))
  {
    if groups != [] {
      var front, last := groups[..|groups| - 1], Last(groups);
      StatesAreObjects(front);
      NewState(groups);
      assert Objects(last) == {StateOf(last)} by {
        forall f | f in last
          ensures f.obj == StateOf(last)
        {
          var i :| 0 <= i < |last| && last[i] == f;
          StateOfRun(last, i);
        }
        assert Last(last) in last;
      }
      assert Objects(Concat(front) + last) == Objects(Concat(front)) + Objects(last);
    }
  }

  /** In a freshly rebuilt timeline the contradictions number the segments beyond the first
      for each distinct state. */
  lemma {:induction false} ContradictionCount(facts: seq<Fact>, scope: string, base: Id, now: Time)
    ensures var s := SegmentsOf(ByState, Groups(ByState, facts), scope, base, now);
      CountResumed(s) == |s| - |Objects(facts)|
  {
    var groups := Groups(ByState, facts);
    var s := SegmentsOf(ByState, groups, scope, base, now);
    GroupsPartition(ByState, facts);
    CountOfPrefix(groups, scope, base, now, |groups|);
    assert s[..|groups|] == s && groups[..|groups|] == groups;
    StatesAreObjects(groups);
  }

  /** In a freshly rebuilt timeline a segment contradicts exactly the earlier facts of other
      states, and never merely resumes. */
  lemma {:induction false} SegmentContradicts(facts: seq<Fact>, k: nat, scope: string, base: Id, now: Time)
    requires k < |Groups(ByState, facts)|
    ensures var groups := Groups(ByState, facts);
      var s := SegmentsOf(ByState, groups, scope, base, now)[k];
      && multiset(s.contradicted) == multiset(OtherIds(groups[..k], s.state))
      && s.mergeReason != ResumedPriorState
      && Concat(groups[..k]) <= facts
  {
    var groups := Groups(ByState, facts);
    GroupsPartition(ByState, facts);
    ContradictedIsOthers(groups[..k], StateOf(groups[k]));
    ResumesOverContradiction(groups, k);
    ConcatPrefix(groups, k);
  }

  lemma {:induction false} ConcatPrefix(groups: seq<seq<Fact>>, k: nat)
    requires k <= |groups|
    ensures Concat(groups[..k]) <= Concat(groups)
    decreases |groups|
  {
    if k < |groups| {
      ConcatPrefix(groups[..|groups| - 1], k);
      assert groups[..|groups| - 1][..k] == groups[..k];
    } else {
      assert groups[..k] == groups;
    }
  }

  // ------------------------------------------------------------ tiling of an in-order chain

  /** Written under a clock that does not run backwards, starts not running backwards either. */
  ghost predicate ArrivedInOrder(s: seq<Fact>) {
    SortedBy(s, ByStartThenObserved)
  }

  lemma {:induction false} MultisetCount<T>(s: seq<T>, p: T -> bool, x: T)
    ensures multiset(Filter(s, p))[x] == if p(x) then multiset(s)[x] else 0
  {
    if s != [] {
      MultisetCount(s[..|s| - 1], p, x);
      assert s == s[..|s| - 1] + [s[|s| - 1]];
    }
  }

  lemma {:induction false} FilterMultiset<T>(s: seq<T>, t: seq<T>, p: T -> bool)
    requires multiset(s) == multiset(t)
    ensures multiset(Filter(s, p)) == multiset(Filter(t, p))
  {
    forall x: T
      ensures multiset(Filter(s, p))[x] == multiset(Filter(t, p))[x]
    {
      MultisetCount(s, p, x);
      MultisetCount(t, p, x);
    }
  }

  lemma {:induction false} FilterTies<T>(s: seq<T>, p: T -> bool, key: T -> SortKey, rank: T -> int)
    requires TiesByRank(s, key, rank)
    ensures TiesByRank(Filter(s, p), key, rank)
  {
    if s != [] {
      var n := |s| - 1;
      FilterTies(s[..n], p, key, rank);
      forall x | x in Filter(s[..n], p) && key(x) == key(s[n])
        ensures rank(x) < rank(s[n])
      {
        assert x in s[..n];
      }
    }
  }

  /** The timeline order of a storyline that arrived in order is its order of arrival. */
  lemma {:induction false} StorylineIsTimeline(m: Mem, line: Line)
    requires ValidMem(m) && ArrivedInOrder(Storyline(m, line))
    ensures TimelineFacts(m, line.scope, Some(line.subject), Some(line.pred)) == Storyline(m, line)
  {
    var onLine := (f: Fact) => Asked(f, Some(line.subject), Some(line.pred));
    var visible := VisibleFacts(m, line.scope);
    var listed := ListFacts(m, line.scope);
    var matched := Matching(listed, Some(line.subject), Some(line.pred));
    var chain := Storyline(m, line);
    FilterCongruence(listed, onLine, (f: Fact) => Asked(f, Some(line.subject), Some(line.pred)));
    assert multiset(matched) == multiset(chain) by {
      SortPermutes(visible, NewestFactFirst);
      FilterMultiset(listed, visible, onLine);
      FilterFilter(m.facts, (f: Fact) => f.scope == line.scope && FactVisible(m, f), onLine,
                   (f: Fact) => LineOf(f) == line && FactVisible(m, f));
    }
    TimelineTies(m, line, onLine);
    StorylineIncreasing(m, line);
    SortOfArranged(matched, chain, ByStartThenObserved, FactId);
  }

  lemma {:induction false} TiesRefine(s: seq<Fact>)
    requires TiesByRank(s, NewestFactFirst, FactId)
    ensures TiesByRank(s, ByStartThenObserved, FactId)
  {
    forall i, j | 0 <= i < j < |s| && ByStartThenObserved(s[i]) == ByStartThenObserved(s[j])
      ensures FactId(s[i]) < FactId(s[j])
    {
      assert NewestFactFirst(s[i]) == NewestFactFirst(s[j]);
    }
  }

  lemma {:induction false} ListedTies(m: Mem, scope: string)
    requires ValidMem(m)
    ensures TiesByRank(ListFacts(m, scope), NewestFactFirst, FactId)
  {
    FilterIncreasing(m.facts, (f: Fact) => f.scope == scope && FactVisible(m, f), FactId);
    SortStable(VisibleFacts(m, scope), NewestFactFirst, FactId);
  }

  lemma {:induction false} TimelineTies(m: Mem, line: Line, p: Fact -> bool)
    requires ValidMem(m)
    ensures TiesByRank(Filter(ListFacts(m, line.scope), p), ByStartThenObserved, FactId)
  {
    ListedTies(m, line.scope);
    FilterTies(ListFacts(m, line.scope), p, NewestFactFirst, FactId);
    TiesRefine(Filter(ListFacts(m, line.scope), p));
  }

  lemma {:induction false} GroupBoundary(groups: seq<seq<Fact>>, k: nat)
    requires AllNonEmpty(groups) && k + 1 < |groups|
    ensures var at := |Concat(groups[..k + 1])|;
      && 0 < at < |Concat(groups)|
      && Concat(groups)[at - 1] == Last(groups[k])
      && Concat(groups)[at] == groups[k + 1][0]
    decreases |groups|
  {
    var n := |groups| - 1;
    if k + 1 < n {
      GroupBoundary(groups[..n], k);
      assert groups[..n][..k + 1] == groups[..k + 1];
    } else {
      assert groups[..k + 1][..k] == groups[..k];
    }
  }

  /** On a storyline written in order the segments tile: each ends where the next one starts. */
  lemma {:induction false} SegmentsTile(chain: seq<Fact>, scope: string, base: Id, now: Time, k: nat)
    requires IsChain(chain) && k + 1 < |Groups(ByState, chain)|
    ensures var s := SegmentsOf(ByState, Groups(ByState, chain), scope, base, now);
      s[k].endAt == s[k + 1].startAt
  {
    var groups := Groups(ByState, chain);
    GroupsPartition(ByState, chain);
    GroupBoundary(groups, k);
    var at := |Concat(groups[..k + 1])|;
    assert chain[at - 1].validUntil == chain[at].validFrom;
  }

  // ---------------------------------------------------------------------- the operations

  /** The segments reconstruct_timeline returns. */
  function FreshSegments(m: Mem, scope: string, subject: Option<string>, pred: Option<string>, now: Time): seq<Segment> {
    SegmentsOf(ByState, Groups(ByState, TimelineFacts(m, scope, subject, pred)), scope, m.nextId, now)
  }

  predicate Stale(m: Mem, scope: string, subject: Option<string>, pred: Option<string>, s: Segment) {
    && s.scope == scope && SegmentVisible(m, s)
    && (subject.Some? ==> s.subject == subject.value)
    && (pred.Some? ==> s.pred == pred.value)
  }

  /** reconstruct_timeline: the stale segments make way for the fresh ones. */
  function Reconstruct(m: Mem, scope: string, subject: Option<string>, pred: Option<string>, now: Time): Mem {
    var rebuilt := FreshSegments(m, scope, subject, pred, now);
    m.(segments := Filter(m.segments, (s: Segment) => !Stale(m, scope, subject, pred, s)) + rebuilt,
       nextId := m.nextId + |rebuilt|)
  }

  /** The stored segments of a subject. */
  function StoredSegments(m: Mem, scope: string, subject: string): seq<Segment> {
    Filter(ListSegments(m, scope), (s: Segment) => s.subject == subject)
  }

  /** The timeline reconstruct_project_state reads: the stored one if there is any. */
  function ProjectTimeline(m: Mem, scope: string, subject: string, now: Time): seq<Segment> {
    var stored := StoredSegments(m, scope, subject);
    if stored != [] then stored else FreshSegments(m, scope, Some(subject), None, now)
  }

  function AfterTimeline(m: Mem, scope: string, subject: string, now: Time): Mem {
    if StoredSegments(m, scope, subject) != [] then m else Reconstruct(m, scope, Some(subject), None, now)
  }

  function StateObjects(facts: seq<Fact>): seq<string> {
    Map(facts, (f: Fact) => f.obj)
  }

  function SegmentIds(s: seq<Segment>): seq<Id> {
    Map(s, (x: Segment) => x.id)
  }

  /** The snapshot reconstruct_project_state returns. */
  function ProjectSnapshot(m: Mem, scope: string, subject: string, now: Time): Snapshot {
    var timeline := ProjectTimeline(m, scope, subject, now);
    var m1 := AfterTimeline(m, scope, subject, now);
    var active := OnlyActive(Filter(ListFacts(m, scope), (f: Fact) => f.subject == subject));
    Snapshot(m1.nextId, scope, subject, StateObjects(active), CountResumed(timeline), SegmentIds(timeline), Ids(active))
  }

  /** reconstruct_project_state */
  function ProjectState(m: Mem, scope: string, subject: string, now: Time): Mem {
    var m1 := AfterTimeline(m, scope, subject, now);
    m1.(snapshots := m1.snapshots + [ProjectSnapshot(m, scope, subject, now)], nextId := m1.nextId + 1)
  }

  /** Without a stored timeline, the project state counts the segments beyond the first for
      each distinct state of the subject. */
  lemma {:induction false} ProjectStateCount(m: Mem, scope: string, subject: string, now: Time)
    requires StoredSegments(m, scope, subject) == []
    ensures ProjectSnapshot(m, scope, subject, now).contradictionCount
         == |FreshSegments(m, scope, Some(subject), None, now)|
            - |Objects(TimelineFacts(m, scope, Some(subject), None))|
  {
    ContradictionCount(TimelineFacts(m, scope, Some(subject), None), scope, m.nextId, now);
  }

  /** The segments and their visibility are those of before. */
  ghost predicate SameSegments(m: Mem, m': Mem) {
    m'.segments == m.segments && forall s :: s in m.segments ==> SegmentVisible(m', s) == SegmentVisible(m, s)
  }

  /** With a stored timeline the count is frozen: what happens to the facts does not matter. */
  lemma {:induction false} ProjectStateFrozen(m: Mem, m': Mem, scope: string, subject: string, now: Time)
    requires SameSegments(m, m') && StoredSegments(m, scope, subject) != []
    ensures StoredSegments(m', scope, subject) == StoredSegments(m, scope, subject)
    ensures ProjectSnapshot(m', scope, subject, now).contradictionCount
         == ProjectSnapshot(m, scope, subject, now).contradictionCount
         == CountResumed(StoredSegments(m, scope, subject))
  {
    FilterCongruence(m.segments, (s: Segment) => s.scope == scope && SegmentVisible(m, s),
                                 (s: Segment) => s.scope == scope && SegmentVisible(m', s));
    assert ListSegments(m', scope) == ListSegments(m, scope);
  }
}
