/** Laws of the maintenance lease protocol: what one cycle does exactly, the bookkeeping that
    every run keeps, lease exclusion, failover after a reclaim, and the edges where the protocol
    gives a schedule away too early. */
module LeaseLaws {
  import opened Prelude
  import opened Lease

  // -------------------------------------------------------------------- well-formedness

  function Rank(id: Id): int { id }

  /** Dictionaries and their key orders agree; issued identifiers stay below the counter. */
  ghost predicate Valid(o: Office) {
    && Increasing(o.order, Rank)
    && (forall id :: id in o.order <==> id in o.schedules)
    && (forall id :: id in o.schedules ==> id < o.nextId)
    && (forall w :: w in o.roster <==> w in o.workers)
    && (forall w, r :: w in o.workers && r in o.workers[w].active ==> r < o.nextId)
    && (forall w, id :: w in o.workers && id in o.workers[w].claimed ==> id < o.nextId)
  }

  lemma {:induction false} ListedOnce(o: Office)
    requires Valid(o)
    ensures Distinct(Listed(o)) && forall id :: id in Listed(o) <==> id in o.schedules
  {
    SortPermutes(o.order, LatestUpdateFirst(o.schedules));
    assert forall i, j :: 0 <= i < j < |o.order| ==> Rank(o.order[i]) < Rank(o.order[j]);
    DistinctOfMultiset(o.order, Listed(o));
    forall id
      ensures id in Listed(o) <==> id in o.schedules
    {
      SortMember(o.order, LatestUpdateFirst(o.schedules), id);
    }
  }

  // --------------------------------------------------------------- the loop over schedules

  /** A schedule after the call, if the loop reaches it. */
  function After(s: Schedule, reached: bool, c: Call): Schedule {
    if reached && Takes(s, c) then Taken(s, c) else s
  }

  lemma {:induction false} VisitAllSchedules(o: Office, ids: seq<Id>, c: Call)
    requires Distinct(ids)
    ensures var o' := VisitAll(o, ids, c);
      && o'.schedules.Keys == o.schedules.Keys
      && (forall id :: id in o.schedules ==> o'.schedules[id] == After(o.schedules[id], id in ids, c))
      && o'.order == o.order && o'.roster == o.roster && o'.workers.Keys == o.workers.Keys
  {
    if ids != [] {
      VisitAllSchedules(o, ids[..|ids| - 1], c);
      assert ids[|ids| - 1] !in ids[..|ids| - 1];
    }
  }

  /** The run records that a call appends. */
  function NewRuns(o: Office, taken: seq<Id>, c: Call): seq<MaintenanceRun> {
    seq(|taken|, i requires 0 <= i < |taken| =>
      MaintenanceRun(o.nextId + i, taken[i], if taken[i] in o.schedules then o.schedules[taken[i]].scope else "",
                     c.interrupt, c.worker, None))
  }

  /** When the loop reaches a schedule it finds it as it was at the start. */
  lemma {:induction false} VisitLast(o: Office, ids: seq<Id>, c: Call)
    requires Distinct(ids) && ids != []
    ensures var n := |ids| - 1;
      var before, id := VisitAll(o, ids[..n], c), ids[n];
      && VisitAll(o, ids, c) == Visit(before, id, c)
      && before.workers.Keys == o.workers.Keys
      && (id in before.schedules <==> id in o.schedules)
      && (id in o.schedules ==> before.schedules[id] == o.schedules[id])
      && TakenIds(o, ids, c) == TakenIds(o, ids[..n], c)
           + (if id in o.schedules && Takes(o.schedules[id], c) then [id] else [])
  {
    VisitAllSchedules(o, ids[..|ids| - 1], c);
    assert ids[|ids| - 1] !in ids[..|ids| - 1];
  }

  ghost predicate Recorded(o: Office, runs: seq<MaintenanceRun>, nextId: Id, taken: seq<Id>, c: Call) {
    runs == o.runs + NewRuns(o, taken, c) && nextId == o.nextId + |taken|
  }

  lemma {:induction false} OneMoreRun(o: Office, runs: seq<MaintenanceRun>, nextId: Id, taken: seq<Id>, id: Id, c: Call)
    requires id in o.schedules && Recorded(o, runs, nextId, taken, c)
    ensures Recorded(o, runs + [MaintenanceRun(nextId, id, o.schedules[id].scope, c.interrupt, c.worker, None)],
                     nextId + 1, taken + [id], c)
  {
    assert NewRuns(o, taken + [id], c) == NewRuns(o, taken, c)
      + [MaintenanceRun(nextId, id, o.schedules[id].scope, c.interrupt, c.worker, None)];
  }

  lemma {:induction false} VisitAllRuns(o: Office, ids: seq<Id>, c: Call)
    requires Distinct(ids)
    ensures Recorded(o, VisitAll(o, ids, c).runs, VisitAll(o, ids, c).nextId, TakenIds(o, ids, c), c)
  {
    if ids != [] {
      var n := |ids| - 1;
      var before := VisitAll(o, ids[..n], c);
      VisitAllRuns(o, ids[..n], c);
      VisitLast(o, ids, c);
      if ids[n] in o.schedules && Takes(o.schedules[ids[n]], c) {
        OneMoreRun(o, before.runs, before.nextId, TakenIds(o, ids[..n], c), ids[n], c);
      }
    }
  }

  /** The identifiers a call issues. */
  ghost function IssuedFrom(first: Id, count: nat): set<Id> {
    if count == 0 then {} else IssuedFrom(first, count - 1) + {first + count - 1}
  }

  /** What a call leaves in the books of the worker that made it. */
  ghost predicate Booked(was: Worker, now: Worker, taken: set<Id>, first: Id, count: nat, c: Call) {
    && now.stale == was.stale
    && now.claimed == (if c.interrupt then was.claimed + taken else was.claimed - taken)
    && now.active == (if c.interrupt then was.active + IssuedFrom(first, count) else was.active)
  }

  /** The whole roster after a call took the listed schedules. */
  ghost predicate Roster(o: Office, workers: map<string, Worker>, taken: seq<Id>, c: Call) {
    && workers.Keys == o.workers.Keys
    && (forall w :: w in o.workers && Some(w) != c.worker ==> workers[w] == o.workers[w])
    && (c.worker.Some? && c.worker.value in o.workers ==>
          Booked(o.workers[c.worker.value], workers[c.worker.value], Elements(taken), o.nextId, |taken|, c))
  }

  ghost predicate IssuedActive(o: Office) {
    forall w, r :: w in o.workers && r in o.workers[w].active ==> r < o.nextId
  }

  lemma {:induction false} RosterOneMore(o: Office, before: Office, taken: seq<Id>, id: Id, c: Call)
    requires IssuedActive(o) && Roster(o, before.workers, taken, c) && before.nextId == o.nextId + |taken|
    ensures Roster(o, WithWorked(before, id, c), taken + [id], c)
  {
    assert Elements(taken + [id]) == Elements(taken) + {id};
    if c.worker.Some? && c.worker.value in o.workers {
      BookedOneMore(o.workers[c.worker.value], before.workers[c.worker.value], Elements(taken), o.nextId, |taken|, id, c);
    }
  }

  lemma {:induction false} VisitAllWorkers(o: Office, ids: seq<Id>, c: Call)
    requires Distinct(ids) && IssuedActive(o)
    ensures Roster(o, VisitAll(o, ids, c).workers, TakenIds(o, ids, c), c)
  {
    if ids != [] {
      var n := |ids| - 1;
      VisitAllWorkers(o, ids[..n], c);
      VisitAllRuns(o, ids[..n], c);
      VisitLast(o, ids, c);
      if ids[n] in o.schedules && Takes(o.schedules[ids[n]], c) {
        RosterOneMore(o, VisitAll(o, ids[..n], c), TakenIds(o, ids[..n], c), ids[n], c);
      }
    }
  }

  lemma {:induction false} BookedOneMore(was: Worker, now: Worker, taken: set<Id>, first: Id, count: nat, id: Id, c: Call)
    requires Booked(was, now, taken, first, count, c)
    requires forall r :: r in was.active ==> r < first
    ensures Booked(was, Worked(now, id, first + count, c), taken + {id}, first, count + 1, c)
  {
  }

  // ----------------------------------------------------------------------- one cycle

  /** The schedules a call runs. */
  ghost function TakenSet(o: Office, c: Call): set<Id> {
    set id | id in o.schedules && Takes(o.schedules[id], c)
  }

  lemma {:induction false} TakenElements(o: Office, c: Call)
    requires Valid(o)
    ensures Elements(TakenIds(o, Listed(o), c)) == TakenSet(o, c)
    ensures Distinct(TakenIds(o, Listed(o), c))
  {
    ListedOnce(o);
    FilterDistinct(Listed(o), (id: Id) => id in o.schedules && Takes(o.schedules[id], c));
  }

  lemma {:induction false} FilterDistinct<T>(s: seq<T>, p: T -> bool)
    requires Distinct(s)
    ensures Distinct(Filter(s, p))
  {
    if s != [] {
      FilterDistinct(s[..|s| - 1], p);
      assert s[|s| - 1] !in s[..|s| - 1];
    }
  }

  /** Each schedule that is due and not under another worker's live lease gets one run, in listing
      order, and moves on; every other schedule stays. */
  ghost predicate Ran(o: Office, o': Office, c: Call) {
    var taken := TakenIds(o, Listed(o), c);
    && o'.order == o.order && o'.roster == o.roster
    && o'.schedules.Keys == o.schedules.Keys
    && (forall id :: id in o.schedules ==> o'.schedules[id] == After(o.schedules[id], true, c))
    && Recorded(o, o'.runs, o'.nextId, taken, c)
  }

  /** The calling worker's books move on, every other worker's stay. */
  ghost predicate Booking(o: Office, workers: map<string, Worker>, c: Call) {
    && workers.Keys == o.workers.Keys
    && (forall w :: w in o.workers && Some(w) != c.worker ==> workers[w] == o.workers[w])
    && (c.worker.Some? && c.worker.value in o.workers ==>
          Booked(o.workers[c.worker.value], workers[c.worker.value], TakenSet(o, c), o.nextId,
                 |TakenIds(o, Listed(o), c)|, c))
  }

  /** The three bookkeeping fields of a worker agree. */
  ghost predicate SameBooks(a: Worker, b: Worker) {
    a.claimed == b.claimed && a.active == b.active && a.stale == b.stale
  }

  /** Due runs by nobody or by a known worker, exactly. */
  lemma {:induction false} RunDueEffect(o: Office, c: Call)
    requires Valid(o) && (c.worker.Some? ==> c.worker.value in o.workers)
    ensures RunDue(o, c).Returned?
    ensures Ran(o, RunDue(o, c).office, c)
    ensures Booking(o, RunDue(o, c).office.workers, c)
  {
    ListedOnce(o);
    TakenElements(o, c);
    VisitAllSchedules(o, Listed(o), c);
    VisitAllRuns(o, Listed(o), c);
    VisitAllWorkers(o, Listed(o), c);
  }

  /** A call by an unknown worker claims a schedule for it and raises, unless none is due. */
  lemma {:induction false} ClaimFirstEffect(o: Office, c: Call)
    requires Valid(o) && c.worker.Some? && c.worker.value !in o.workers
    ensures TakenSet(o, c) == {} ==> RunDue(o, c) == Returned(o)
    ensures TakenSet(o, c) != {} ==> var taken := TakenIds(o, Listed(o), c);
      && taken != [] && taken[0] in TakenSet(o, c)
      && RunDue(o, c) == Raised(o.(schedules := o.schedules[taken[0] := Claimed(o.schedules[taken[0]], c)]))
  {
    TakenElements(o, c);
    var taken := TakenIds(o, Listed(o), c);
    if taken == [] {
      assert Elements(taken) == {};
    } else {
      assert taken[0] in Elements(taken);
    }
  }

  lemma {:induction false} HeartbeatKeeps(o: Office, w: string, mode: Option<Mode>, clock: Time)
    requires Valid(o) && w in o.workers
    ensures var o' := Heartbeat(o, w, mode, clock).office;
      && Valid(o')
      && o' == o.(workers := o'.workers) && Beat(o.workers, o'.workers, w)
  {
    BeatBooks(o, w, mode, clock);
    BeatValidly(o, Heartbeat(o, w, mode, clock).office, w);
  }

  lemma {:induction false} BeatValidly(o: Office, o': Office, w: string)
    requires Valid(o) && o' == o.(workers := o'.workers) && Beat(o.workers, o'.workers, w)
    ensures Valid(o')
  {
    forall v | v in o.workers
      ensures SameBooks(o.workers[v], o'.workers[v])
    {
      assert v == w || o'.workers[v] == o.workers[v];
    }
  }

  function By(w: string, c: Call): Call { c.(worker := Some(w)) }

  /** A call does not look at the workers to choose what it runs. */
  lemma {:induction false} WorkersUnseen(o: Office, o': Office, after: Office, c: Call)
    requires o' == o.(workers := o'.workers) && Ran(o', after, c)
    ensures Ran(o, after, c)
    ensures Listed(o') == Listed(o) && TakenIds(o', Listed(o'), c) == TakenIds(o, Listed(o), c)
    ensures TakenSet(o', c) == TakenSet(o, c)
  {
    FilterCongruence(Listed(o), (id: Id) => id in o'.schedules && Takes(o'.schedules[id], c),
                                (id: Id) => id in o.schedules && Takes(o.schedules[id], c));
    var taken := TakenIds(o, Listed(o), c);
    assert NewRuns(o', taken, c) == NewRuns(o, taken, c);
  }

  lemma {:induction false} BookingBetweenBeats(o: Office, begun: Office, workers: map<string, Worker>,
                                                last: map<string, Worker>, c: Call)
    requires c.worker.Some? && begun == o.(workers := begun.workers)
    requires Beat(o.workers, begun.workers, c.worker.value) && Beat(workers, last, c.worker.value)
    requires Booking(begun, workers, c)
    requires TakenIds(begun, Listed(begun), c) == TakenIds(o, Listed(o), c) && TakenSet(begun, c) == TakenSet(o, c)
    ensures Booking(o, last, c)
  {
  }

  /** A cycle of a known worker, exactly: it returns, runs the due schedules and books them. */
  lemma {:induction false} CycleEffect(o: Office, w: string, c: Call)
    requires Valid(o) && w in o.workers
    ensures Cycle(o, w, c).Returned?
    ensures Ran(o, Cycle(o, w, c).office, By(w, c))
    ensures Booking(o, Cycle(o, w, c).office.workers, By(w, c))
  {
    var begun := Heartbeat(o, w, Some(Busy), c.clock).office;
    HeartbeatKeeps(o, w, Some(Busy), c.clock);
    RunDueEffect(begun, By(w, c));
    var ran := RunDue(begun, By(w, c)).office;
    WorkersUnseen(o, begun, ran, By(w, c));
    var mode := if |ran.runs| > |begun.runs| then Busy else Idle;
    BeatBooks(ran, w, Some(mode), c.clock);
    BookingBetweenBeats(o, begun, ran.workers, Cycle(o, w, c).office.workers, By(w, c));
  }

  lemma {:induction false} BeatBooks(o: Office, w: string, mode: Option<Mode>, clock: Time)
    requires w in o.workers
    ensures var o' := Heartbeat(o, w, mode, clock).office;
      && o' == o.(workers := o'.workers) && Beat(o.workers, o'.workers, w)
  {
  }

  /** A heartbeat changes one worker, and not its books. */
  ghost predicate Beat(was: map<string, Worker>, now: map<string, Worker>, w: string) {
    && now.Keys == was.Keys
    && (forall v :: v in was && v != w ==> now[v] == was[v])
    && (w in was ==> SameBooks(was[w], now[w]))
  }

  /** An uninterrupted cycle at time t completes each due schedule that is not under another
      worker's live lease exactly once, gives up exactly those claims and leaves the worker's
      active runs unchanged; what it ran is no longer due exactly when its cadence is positive. */
  lemma {:induction false} UninterruptedCycle(o: Office, w: string, c: Call)
    requires Valid(o) && w in o.workers && !c.interrupt
    ensures var o', ran := Cycle(o, w, c).office, TakenSet(o, By(w, c));
      && o'.schedules.Keys == o.schedules.Keys && o'.workers.Keys == o.workers.Keys
      && (forall id :: id in ran ==> o'.schedules[id] == Completed(o.schedules[id], c.at, c.clock))
      && (forall id :: id in ran ==> (!Due(o'.schedules[id], c.at) <==> o.schedules[id].cadenceHours > 0))
      && (forall id :: id in o.schedules && id !in ran ==> o'.schedules[id] == o.schedules[id])
      && (forall id :: id in o.schedules ==> RunsOf(o'.runs, id) == RunsOf(o.runs, id) + if id in ran then 1 else 0)
      && o'.workers[w].claimed == o.workers[w].claimed - ran
      && o'.workers[w].active == o.workers[w].active
  {
    CycleEffect(o, w, c);
    forall id | id in o.schedules
      ensures RunsOf(Cycle(o, w, c).office.runs, id) == RunsOf(o.runs, id) + if id in TakenSet(o, By(w, c)) then 1 else 0
    {
      OneRunEach(o, By(w, c), id);
    }
  }

  lemma {:induction false} OneRunEach(o: Office, c: Call, id: Id)
    requires Valid(o)
    ensures RunsOf(o.runs + NewRuns(o, TakenIds(o, Listed(o), c), c), id)
         == RunsOf(o.runs, id) + if id in TakenSet(o, c) then 1 else 0
  {
    var taken := TakenIds(o, Listed(o), c);
    TakenElements(o, c);
    RunsOfConcat(o.runs, NewRuns(o, taken, c), id);
    RunsOfNew(o, taken, c, id);
    assert id in Elements(taken) <==> id in TakenSet(o, c);
  }

  /** How many runs of a schedule a log holds. */
  function RunsOf(runs: seq<MaintenanceRun>, id: Id): nat {
    if runs == [] then 0
    else RunsOf(runs[..|runs| - 1], id) + if runs[|runs| - 1].schedule == id then 1 else 0
  }

  lemma {:induction false} RunsOfConcat(a: seq<MaintenanceRun>, b: seq<MaintenanceRun>, id: Id)
    ensures RunsOf(a + b, id) == RunsOf(a, id) + RunsOf(b, id)
  {
    if b == [] {
      assert a + b == a;
    } else {
      assert (a + b)[..|a + b| - 1] == a + b[..|b| - 1];
      RunsOfConcat(a, b[..|b| - 1], id);
    }
  }

  lemma {:induction false} RunsOfNew(o: Office, taken: seq<Id>, c: Call, id: Id)
    requires Distinct(taken)
    ensures RunsOf(NewRuns(o, taken, c), id) == if id in taken then 1 else 0
  {
    if taken != [] {
      var n := |taken| - 1;
      RunsOfNew(o, taken[..n], c, id);
      assert NewRuns(o, taken, c)[..n] == NewRuns(o, taken[..n], c);
      assert taken[n] !in taken[..n];
      assert id in taken <==> id in taken[..n] || id == taken[n];
    }
  }

  // ------------------------------------------------------------------------ reclaiming

  /** Worker w is about to be reclaimed and lists the schedule. */
  ghost predicate Frees(o: Office, w: string, id: Id, cutoff: Time) {
    w in o.workers && Reclaims(o.workers[w], cutoff) && id in o.workers[w].claimed
  }

  ghost predicate FreedBy(o: Office, names: seq<string>, id: Id, cutoff: Time) {
    exists w :: w in names && Frees(o, w, id, cutoff)
  }

  function Unclaimed(s: Schedule, clock: Time): Schedule {
    s.(claimedBy := None, lease := None, updatedAt := clock)
  }

  function Retired(w: Worker): Worker {
    w.(stale := true, mode := Reclaimed, claimed := {}, active := {})
  }

  ghost predicate ReclaimedRoster(o: Office, workers: map<string, Worker>, names: seq<string>, cutoff: Time) {
    && workers.Keys == o.workers.Keys
    && (forall w :: w in o.workers ==>
          workers[w] == if w in names && Reclaims(o.workers[w], cutoff) then Retired(o.workers[w]) else o.workers[w])
  }

  ghost predicate FreedSchedules(o: Office, schedules: map<Id, Schedule>, names: seq<string>, cutoff: Time, clock: Time) {
    && schedules.Keys == o.schedules.Keys
    && (forall id :: id in o.schedules ==>
          schedules[id] == if FreedBy(o, names, id, cutoff) then Unclaimed(o.schedules[id], clock) else o.schedules[id])
  }

  lemma {:induction false} FreedByOneMore(o: Office, names: seq<string>, id: Id, cutoff: Time)
    requires names != []
    ensures FreedBy(o, names, id, cutoff)
       <==> FreedBy(o, names[..|names| - 1], id, cutoff) || Frees(o, names[|names| - 1], id, cutoff)
  {
    var front := names[..|names| - 1];
    if FreedBy(o, names, id, cutoff) {
      var w :| w in names && Frees(o, w, id, cutoff);
      assert w in front || w == names[|names| - 1];
    }
    if FreedBy(o, front, id, cutoff) {
      var w :| w in front && Frees(o, w, id, cutoff);
      assert w in names;
    }
  }

  lemma {:induction false} ReclaimAllEffect(o: Office, names: seq<string>, cutoff: Time, clock: Time)
    ensures var o' := ReclaimAll(o, names, cutoff, clock);
      && ReclaimedRoster(o, o'.workers, names, cutoff)
      && FreedSchedules(o, o'.schedules, names, cutoff, clock)
      && o' == o.(workers := o'.workers, schedules := o'.schedules)
  {
    if names != [] {
      var n := |names| - 1;
      ReclaimAllEffect(o, names[..n], cutoff, clock);
      forall id | id in o.schedules
        ensures FreedBy(o, names, id, cutoff) <==> FreedBy(o, names[..n], id, cutoff) || Frees(o, names[n], id, cutoff)
      {
        FreedByOneMore(o, names, id, cutoff);
      }
      RosterShrinks(o, ReclaimAll(o, names[..n], cutoff, clock), names, cutoff, clock);
      SchedulesShrink(o, ReclaimAll(o, names[..n], cutoff, clock), names, cutoff, clock);
    }
  }

  lemma {:induction false} RosterShrinks(o: Office, before: Office, names: seq<string>, cutoff: Time, clock: Time)
    requires names != [] && ReclaimedRoster(o, before.workers, names[..|names| - 1], cutoff)
    ensures ReclaimedRoster(o, ReclaimOne(before, names[|names| - 1], cutoff, clock).workers, names, cutoff)
  {
    var n := |names| - 1;
    assert forall w :: w in names <==> w in names[..n] || w == names[n];
  }

  lemma {:induction false} SchedulesShrink(o: Office, before: Office, names: seq<string>, cutoff: Time, clock: Time)
    requires names != [] && ReclaimedRoster(o, before.workers, names[..|names| - 1], cutoff)
    requires FreedSchedules(o, before.schedules, names[..|names| - 1], cutoff, clock)
    requires forall id :: id in o.schedules ==> (FreedBy(o, names, id, cutoff)
      <==> FreedBy(o, names[..|names| - 1], id, cutoff) || Frees(o, names[|names| - 1], id, cutoff))
    ensures FreedSchedules(o, ReclaimOne(before, names[|names| - 1], cutoff, clock).schedules, names, cutoff, clock)
  {
    var n := |names| - 1;
    if names[n] in names[..n] && names[n] in o.workers && Reclaims(o.workers[names[n]], cutoff) {
      forall id | id in o.schedules && Frees(o, names[n], id, cutoff)
        ensures FreedBy(o, names[..n], id, cutoff)
      {
      }
    }
  }

  /** A reclaim, exactly: each live worker whose heartbeat is too old is retired with empty books,
      and each schedule that one of them lists is freed, whoever holds it by then. */
  lemma {:induction false} ReclaimEffect(o: Office, at: Time, expiry: int, clock: Time)
    requires Valid(o)
    ensures var o', cutoff := Reclaim(o, at, expiry, clock), at - expiry;
      && o'.workers.Keys == o.workers.Keys && o'.schedules.Keys == o.schedules.Keys
      && (forall w :: w in o.workers ==>
            o'.workers[w] == if Reclaims(o.workers[w], cutoff) then Retired(o.workers[w]) else o.workers[w])
      && FreedSchedules(o, o'.schedules, o.roster, cutoff, clock)
      && o' == o.(workers := o'.workers, schedules := o'.schedules)
  {
    var cutoff := at - expiry;
    ReclaimAllEffect(o, ListedWorkers(o), cutoff, clock);
    forall w
      ensures w in ListedWorkers(o) <==> w in o.roster
    {
      SortMember(o.roster, LatestHeartbeatFirst(o.workers), w);
    }
    forall id | id in o.schedules
      ensures FreedBy(o, ListedWorkers(o), id, cutoff) <==> FreedBy(o, o.roster, id, cutoff)
    {
      if FreedBy(o, ListedWorkers(o), id, cutoff) {
        var w :| w in ListedWorkers(o) && Frees(o, w, id, cutoff);
        assert w in o.roster;
      }
      if FreedBy(o, o.roster, id, cutoff) {
        var w :| w in o.roster && Frees(o, w, id, cutoff);
        assert w in ListedWorkers(o);
      }
    }
  }
}
