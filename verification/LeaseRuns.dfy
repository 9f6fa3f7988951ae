/** The lease protocol over whole runs: bookkeeping, lease exclusion, failover, and how often a
    schedule can be run (memory/maintenance_service.py and memory/matrix.py). */
module LeaseRuns {
  import opened Prelude
  import opened Lease
  import opened LeaseLaws

  // ---------------------------------------------------------------------- well-formedness

  lemma {:induction false} RegisterValid(o: Office, w: string, clock: Time)
    requires Valid(o)
    ensures Valid(Register(o, w, clock))
  {
    var o' := Register(o, w, clock);
    assert forall v :: v in o'.roster <==> v in o'.workers;
  }

  lemma {:induction false} PlanValid(o: Office, scope: string, cadence: int, startAt: Option<Time>, clock: Time)
    requires Valid(o)
    ensures Valid(Plan(o, scope, cadence, startAt, clock))
  {
    var o' := Plan(o, scope, cadence, startAt, clock);
    assert forall i, j :: 0 <= i < j < |o.order| ==> Rank(o.order[i]) < Rank(o.order[j]);
    forall i, j | 0 <= i < j < |o'.order|
      ensures Rank(o'.order[i]) < Rank(o'.order[j])
    {
      if j == |o.order| {
        assert o.order[i] in o.schedules;
      }
    }
    assert forall id :: id in o'.order <==> id in o.order || id == o.nextId;
  }

  lemma {:induction false} IssuedBelow(first: Id, count: nat)
    ensures forall r :: r in IssuedFrom(first, count) ==> r < first + count
  {
    if count > 0 {
      IssuedBelow(first, count - 1);
    }
  }

  lemma {:induction false} BookedValid(o: Office, was: Worker, now: Worker, taken: set<Id>, count: nat, c: Call)
    requires Booked(was, now, taken, o.nextId, count, c)
    requires (forall r :: r in was.active ==> r < o.nextId) && (forall id :: id in was.claimed ==> id < o.nextId)
    requires forall id :: id in taken ==> id < o.nextId
    ensures forall r :: r in now.active ==> r < o.nextId + count
    ensures forall id :: id in now.claimed ==> id < o.nextId + count
  {
    IssuedBelow(o.nextId, count);
  }

  /** The identifiers in the books of all workers are below a bound. */
  ghost predicate BooksBelow(workers: map<string, Worker>, bound: Id) {
    && (forall w, r :: w in workers && r in workers[w].active ==> r < bound)
    && (forall w, id :: w in workers && id in workers[w].claimed ==> id < bound)
  }

  lemma {:induction false} BookingBelow(o: Office, workers: map<string, Worker>, c: Call)
    requires Booking(o, workers, c) && BooksBelow(o.workers, o.nextId)
    requires forall id :: id in o.schedules ==> id < o.nextId
    ensures BooksBelow(workers, o.nextId + |TakenIds(o, Listed(o), c)|)
  {
    hide TakenIds, Listed, Booked, Takes;
    if c.worker.Some? && c.worker.value in o.workers {
      BookedValid(o, o.workers[c.worker.value], workers[c.worker.value], TakenSet(o, c), |TakenIds(o, Listed(o), c)|, c);
    }
    forall w | w in workers
      ensures Some(w) != c.worker ==> workers[w] == o.workers[w]
    {
    }
  }

  lemma {:induction false} RanValid(o: Office, o': Office, c: Call)
    requires Valid(o) && Ran(o, o', c) && o'.workers.Keys == o.workers.Keys && BooksBelow(o'.workers, o'.nextId)
    ensures Valid(o')
  {
    hide TakenIds, Listed, After, NewRuns;
  }

  lemma {:induction false} RescheduledValid(o: Office, id: Id, s: Schedule)
    requires Valid(o) && id in o.schedules
    ensures Valid(o.(schedules := o.schedules[id := s]))
  {
  }

  lemma {:induction false} ValidBelow(o: Office)
    requires Valid(o)
    ensures BooksBelow(o.workers, o.nextId) && forall id :: id in o.schedules ==> id < o.nextId
  {
  }

  lemma {:induction false} KnownRunValid(o: Office, c: Call)
    requires Valid(o) && (c.worker.Some? ==> c.worker.value in o.workers)
    ensures Valid(RunDue(o, c).office)
  {
    hide RunDue, BooksBelow, TakenIds, Listed, Valid, Takes, After, NewRuns, Booked, TakenSet;
    ValidBelow(o);
    RunDueEffect(o, c);
    BookingBelow(o, RunDue(o, c).office.workers, c);
    RanValid(o, RunDue(o, c).office, c);
  }

  lemma {:induction false} UnknownRunValid(o: Office, c: Call)
    requires Valid(o) && c.worker.Some? && c.worker.value !in o.workers
    ensures Valid(RunDue(o, c).office)
  {
    hide RunDue, Takes, TakenIds, Listed, Valid;
    ClaimFirstEffect(o, c);
    if TakenSet(o, c) != {} {
      var id := TakenIds(o, Listed(o), c)[0];
      RescheduledValid(o, id, Claimed(o.schedules[id], c));
    }
  }

  lemma {:induction false} RunDueValid(o: Office, c: Call)
    requires Valid(o)
    ensures Valid(RunDue(o, c).office)
  {
    hide RunDue, Valid;
    if c.worker.Some? && c.worker.value !in o.workers {
      UnknownRunValid(o, c);
    } else {
      KnownRunValid(o, c);
    }
  }

  lemma {:induction false} CycleValid(o: Office, w: string, c: Call)
    requires Valid(o)
    ensures Valid(Cycle(o, w, c).office)
  {
    if w in o.workers {
      var begun := Heartbeat(o, w, Some(Busy), c.clock).office;
      HeartbeatKeeps(o, w, Some(Busy), c.clock);
      RunDueValid(begun, By(w, c));
      RunDueEffect(begun, By(w, c));
      var ran := RunDue(begun, By(w, c)).office;
      HeartbeatKeeps(ran, w, Some(if |ran.runs| > |begun.runs| then Busy else Idle), c.clock);
    }
  }

  lemma {:induction false} ResumeValid(o: Office, run: Id, w: Option<string>, clock: Time)
    requires Valid(o)
    ensures Valid(Resume(o, run, w, clock).office)
  {
  }

  lemma {:induction false} BeatValid(o: Office, w: string, mode: Option<Mode>, clock: Time)
    requires Valid(o)
    ensures Valid(Heartbeat(o, w, mode, clock).office)
  {
    if w in o.workers {
      HeartbeatKeeps(o, w, mode, clock);
    }
  }

  lemma {:induction false} ReclaimValid(o: Office, at: Time, expiry: int, clock: Time)
    requires Valid(o)
    ensures Valid(Reclaim(o, at, expiry, clock))
  {
    ReclaimEffect(o, at, expiry, clock);
  }

  lemma {:induction false} StepValid(o: Office, t: Timed)
    requires Valid(o)
    ensures Valid(Step(o, t))
  {
    match t.event
    case RegisterIt(w) => RegisterValid(o, w, t.clock);
    case BeatIt(w, mode) => BeatValid(o, w, mode, t.clock);
    case PlanIt(scope, cadence, startAt) => PlanValid(o, scope, cadence, startAt, t.clock);
    case CycleIt(w, c) => CycleValid(o, w, c.(clock := t.clock));
    case RunIt(c) => RunDueValid(o, c.(clock := t.clock));
    case ResumeIt(run, w) => ResumeValid(o, run, w, t.clock);
    case ReclaimIt(at, expiry) => ReclaimValid(o, at, expiry, t.clock);
  }

  // ----------------------------------------------------------------------- bookkeeping

  /** Whoever claims the schedule is registered, lists it, and holds it under a lease. */
  ghost predicate Kept(o: Office, id: Id)
    requires id in o.schedules
  {
    var s := o.schedules[id];
    s.claimedBy.Some? ==>
      s.lease.Some? && s.claimedBy.value in o.workers && id in o.workers[s.claimedBy.value].claimed
  }

  ghost predicate Bookkept(o: Office) {
    forall id :: id in o.schedules ==> Kept(o, id)
  }

  ghost predicate ClaimsNothing(o: Office, w: string) {
    forall id :: id in o.schedules ==> o.schedules[id].claimedBy != Some(w)
  }

  /** Registering a worker keeps the books exactly when no schedule is claimed under its name. */
  lemma {:induction false} RegisterKeepsBooksIff(o: Office, w: string, clock: Time)
    requires Bookkept(o)
    ensures Bookkept(Register(o, w, clock)) <==> ClaimsNothing(o, w)
  {
    var o' := Register(o, w, clock);
    if ClaimsNothing(o, w) {
      forall id | id in o'.schedules
        ensures Kept(o', id)
      {
        assert Kept(o, id);
      }
    } else {
      var id :| id in o.schedules && o.schedules[id].claimedBy == Some(w);
      assert !Kept(o', id);
    }
  }

  lemma {:induction false} RunDueKeepsBooks(o: Office, c: Call)
    requires Valid(o) && Bookkept(o) && (c.worker.Some? ==> c.worker.value in o.workers)
    ensures Bookkept(RunDue(o, c).office)
  {
    hide RunDue, Valid, Recorded;
    RunDueEffect(o, c);
    var o' := RunDue(o, c).office;
    forall id | id in o'.schedules
      ensures Kept(o', id)
    {
      assert Kept(o, id);
      assert id in TakenSet(o, c) <==> Takes(o.schedules[id], c);
    }
  }

  /** A due run by an unknown worker keeps the books exactly when there is nothing to run. */
  lemma {:induction false} UnknownKeepsBooksIff(o: Office, c: Call)
    requires Valid(o) && Bookkept(o) && c.worker.Some? && c.worker.value !in o.workers
    ensures Bookkept(RunDue(o, c).office) <==> TakenSet(o, c) == {}
  {
    ClaimFirstEffect(o, c);
    if TakenSet(o, c) != {} {
      assert !Kept(RunDue(o, c).office, TakenIds(o, Listed(o), c)[0]);
    }
  }

  lemma {:induction false} BooksCarryOver(o: Office, o': Office, w: string)
    requires Bookkept(o) && o'.schedules == o.schedules && Beat(o.workers, o'.workers, w)
    ensures Bookkept(o')
  {
    forall id | id in o'.schedules
      ensures Kept(o', id)
    {
      assert Kept(o, id);
    }
  }

  lemma {:induction false} CycleKeepsBooks(o: Office, w: string, c: Call)
    requires Valid(o) && Bookkept(o)
    ensures Bookkept(Cycle(o, w, c).office)
  {
    if w in o.workers {
      var begun := Heartbeat(o, w, Some(Busy), c.clock).office;
      HeartbeatKeeps(o, w, Some(Busy), c.clock);
      BooksCarryOver(o, begun, w);
      RunDueKeepsBooks(begun, By(w, c));
      RunDueValid(begun, By(w, c));
      RunDueEffect(begun, By(w, c));
      var ran := RunDue(begun, By(w, c)).office;
      HeartbeatKeeps(ran, w, Some(if |ran.runs| > |begun.runs| then Busy else Idle), c.clock);
      BooksCarryOver(ran, Cycle(o, w, c).office, w);
    }
  }

  lemma {:induction false} ResumeKeepsBooks(o: Office, run: Id, w: Option<string>, clock: Time)
    requires Bookkept(o)
    ensures Bookkept(Resume(o, run, w, clock).office)
  {
    var o' := Resume(o, run, w, clock).office;
    forall id | id in o'.schedules
      ensures Kept(o', id)
    {
      assert Kept(o, id);
    }
  }

  lemma {:induction false} ReclaimKeepsBooks(o: Office, at: Time, expiry: int, clock: Time)
    requires Valid(o) && Bookkept(o)
    ensures Bookkept(Reclaim(o, at, expiry, clock))
  {
    ReclaimEffect(o, at, expiry, clock);
    var o' := Reclaim(o, at, expiry, clock);
    forall id | id in o'.schedules
      ensures Kept(o', id)
    {
      assert Kept(o, id);
      if o.schedules[id].claimedBy.Some? && Reclaims(o.workers[o.schedules[id].claimedBy.value], at - expiry) {
        ListedClaimIsFreed(o, id, at - expiry);
      }
    }
  }

  /** A schedule that a reclaimed worker claims is on that worker's list, so it is freed. */
  lemma {:induction false} ListedClaimIsFreed(o: Office, id: Id, cutoff: Time)
    requires Valid(o) && id in o.schedules && Kept(o, id)
    requires o.schedules[id].claimedBy.Some? && Reclaims(o.workers[o.schedules[id].claimedBy.value], cutoff)
    ensures FreedBy(o, o.roster, id, cutoff)
  {
    assert Frees(o, o.schedules[id].claimedBy.value, id, cutoff);
  }

  /** The steps that keep the books: a registration under a name that claims nothing, and a direct
      run by nobody, by a known worker, or with nothing to run. All other steps always do. */
  ghost predicate Fair(o: Office, t: Timed) {
    match t.event
    case RegisterIt(w) => ClaimsNothing(o, w)
    case RunIt(c) =>
      (c.worker.Some? ==> c.worker.value in o.workers) || TakenSet(o, c.(clock := t.clock)) == {}
    case _ => true
  }

  lemma {:induction false} BeatKeepsBooks(o: Office, w: string, mode: Option<Mode>, clock: Time)
    requires Bookkept(o)
    ensures Bookkept(Heartbeat(o, w, mode, clock).office)
  {
    if w in o.workers {
      BeatBooks(o, w, mode, clock);
      BooksCarryOver(o, Heartbeat(o, w, mode, clock).office, w);
    }
  }

  lemma {:induction false} PlanKeepsBooks(o: Office, scope: string, cadence: int, startAt: Option<Time>, clock: Time)
    requires Bookkept(o)
    ensures Bookkept(Plan(o, scope, cadence, startAt, clock))
  {
    var o' := Plan(o, scope, cadence, startAt, clock);
    forall id | id in o'.schedules
      ensures Kept(o', id)
    {
      assert id != o.nextId ==> Kept(o, id);
    }
  }

  lemma {:induction false} DirectKeepsBooksIff(o: Office, c: Call)
    requires Valid(o) && Bookkept(o)
    ensures Bookkept(RunDue(o, c).office)
       <==> (c.worker.Some? ==> c.worker.value in o.workers) || TakenSet(o, c) == {}
  {
    if c.worker.Some? && c.worker.value !in o.workers {
      UnknownKeepsBooksIff(o, c);
    } else {
      RunDueKeepsBooks(o, c);
    }
  }

  /** A step keeps the books exactly when it is fair. */
  lemma {:induction false} StepKeepsBooksIff(o: Office, t: Timed)
    requires Valid(o) && Bookkept(o)
    ensures Bookkept(Step(o, t)) <==> Fair(o, t)
  {
    match t.event
    case RegisterIt(w) => RegisterKeepsBooksIff(o, w, t.clock);
    case BeatIt(w, mode) => BeatKeepsBooks(o, w, mode, t.clock);
    case PlanIt(scope, cadence, startAt) => PlanKeepsBooks(o, scope, cadence, startAt, t.clock);
    case CycleIt(w, c) => CycleKeepsBooks(o, w, c.(clock := t.clock));
    case RunIt(c) => DirectKeepsBooksIff(o, c.(clock := t.clock));
    case ResumeIt(run, w) => ResumeKeepsBooks(o, run, w, t.clock);
    case ReclaimIt(at, expiry) => ReclaimKeepsBooks(o, at, expiry, t.clock);
  }

  ghost predicate FairRun(o: Office, run: seq<Timed>) {
    run != [] ==> FairRun(o, run[..|run| - 1]) && Fair(Run(o, run[..|run| - 1]), run[|run| - 1])
  }

  lemma {:induction false} RunValid(o: Office, run: seq<Timed>)
    requires Valid(o)
    ensures Valid(Run(o, run))
  {
    if run != [] {
      RunValid(o, run[..|run| - 1]);
      StepValid(Run(o, run[..|run| - 1]), run[|run| - 1]);
    }
  }

  /** Lease bookkeeping over whole runs: after any fair run a claimed schedule is claimed by a
      registered worker that lists it, under a lease. */
  lemma {:induction false} RunKeepsBooks(run: seq<Timed>)
    requires FairRun(NOBODY, run)
    ensures Bookkept(Run(NOBODY, run))
  {
    if run != [] {
      var front := run[..|run| - 1];
      RunKeepsBooks(front);
      RunValid(NOBODY, front);
      StepKeepsBooksIff(Run(NOBODY, front), run[|run| - 1]);
    }
  }

  /** A fresh name claims nothing while the books are kept, so registering it is fair. */
  lemma {:induction false} FreshIsFair(o: Office, w: string)
    requires Bookkept(o) && w !in o.workers
    ensures ClaimsNothing(o, w)
  {
    forall id | id in o.schedules
      ensures o.schedules[id].claimedBy != Some(w)
    {
      assert Kept(o, id);
    }
  }

  /** After a reclaim in a fair run no schedule is claimed by any worker it marked stale. */
  lemma {:induction false} ReclaimedClaimNothing(run: seq<Timed>, at: Time, expiry: int, clock: Time, w: string)
    requires FairRun(NOBODY, run)
    requires w in Run(NOBODY, run).workers && Reclaims(Run(NOBODY, run).workers[w], at - expiry)
    ensures ClaimsNothing(Reclaim(Run(NOBODY, run), at, expiry, clock), w)
  {
    RunKeepsBooks(run);
    RunValid(NOBODY, run);
    ReclaimClears(Run(NOBODY, run), at, expiry, clock, w);
  }

  lemma {:induction false} ReclaimClears(o: Office, at: Time, expiry: int, clock: Time, w: string)
    requires Valid(o) && Bookkept(o) && w in o.workers && Reclaims(o.workers[w], at - expiry)
    ensures ClaimsNothing(Reclaim(o, at, expiry, clock), w)
  {
    ReclaimEffect(o, at, expiry, clock);
    var o' := Reclaim(o, at, expiry, clock);
    forall id | id in o'.schedules
      ensures o'.schedules[id].claimedBy != Some(w)
    {
      assert Kept(o, id);
      if o.schedules[id].claimedBy == Some(w) {
        ListedClaimIsFreed(o, id, at - expiry);
      }
    }
  }

  /** Failover: once its worker is reclaimed, a schedule is taken by the next cycle of any other
      worker that finds it due, however long the lost worker's lease still had to run. */
  lemma {:induction false} FailoverAfterReclaim(o: Office, id: Id, lost: string, at: Time, expiry: int, clock: Time, w: string, c: Call)
    requires Valid(o) && Bookkept(o) && id in o.schedules && o.schedules[id].claimedBy == Some(lost)
    requires Reclaims(o.workers[lost], at - expiry)
    requires w in o.workers && Due(o.schedules[id], c.at) && !c.interrupt
    ensures var o' := Cycle(Reclaim(o, at, expiry, clock), w, c).office;
      id in o'.schedules && o'.schedules[id].last == Some(c.at) && o'.schedules[id].claimedBy.None?
  {
    hide Valid, Cycle, Reclaim, Booking, Recorded;
    ReclaimEffect(o, at, expiry, clock);
    ReclaimValid(o, at, expiry, clock);
    assert Kept(o, id);
    ListedClaimIsFreed(o, id, at - expiry);
    CycleEffect(Reclaim(o, at, expiry, clock), w, c);
  }

  // -------------------------------------------------------------------- releasing too much

  /** A live worker's claim survives a reclaim exactly when no reclaimed worker still lists it. */
  lemma {:induction false} ClaimSurvivesIff(o: Office, id: Id, w: string, at: Time, expiry: int, clock: Time)
    requires Valid(o) && id in o.schedules && o.schedules[id].claimedBy == Some(w)
    ensures Reclaim(o, at, expiry, clock).schedules.Keys == o.schedules.Keys
    ensures Reclaim(o, at, expiry, clock).schedules[id].claimedBy == Some(w)
       <==> !FreedBy(o, o.roster, id, at - expiry)
  {
    ReclaimEffect(o, at, expiry, clock);
  }

  /** Worker w holds the schedule under a lease until an instant. */
  ghost predicate HeldBy(o: Office, id: Id, w: string, until: Time) {
    id in o.schedules && o.schedules[id].claimedBy == Some(w) && o.schedules[id].lease == Some(until)
  }

  /** An interrupted cycle holds every schedule it took. */
  lemma {:induction false} InterruptedHolds(o: Office, id: Id, w: string, c: Call)
    requires Valid(o) && w in o.workers && c.interrupt
    requires id in o.schedules && Takes(o.schedules[id], By(w, c))
    ensures HeldBy(Cycle(o, w, c).office, id, w, c.at + c.leaseSeconds)
  {
    hide Cycle, Valid, Booking, Recorded;
    CycleEffect(o, w, c);
  }

  /** So after a takeover the reclaim of the old holder frees the new holder's live claim. */
  lemma {:induction false} OverRelease(o: Office, id: Id, lost: string, w: string, at: Time, expiry: int, clock: Time, until: Time)
    requires Valid(o) && HeldBy(o, id, w, until) && at < until
    requires lost in o.workers && w != lost && id in o.workers[lost].claimed && Reclaims(o.workers[lost], at - expiry)
    ensures var o' := Reclaim(o, at, expiry, clock); id in o'.schedules && o'.schedules[id].claimedBy.None?
  {
    assert Frees(o, lost, id, at - expiry);
    ReclaimEffect(o, at, expiry, clock);
  }

  const FIRST := Call(None, true, 10, 0, 0)
  const SECOND := Call(None, true, 1000, 400, 400)

  const OVER: seq<Timed> := [
    At(RegisterIt("a"), 0), At(RegisterIt("b"), 0), At(PlanIt("task", 1, Some(0)), 0),
    At(CycleIt("a", FIRST), 0), At(CycleIt("b", SECOND), 400)]

  lemma {:induction false} RunOn(o: Office, run: seq<Timed>, n: nat)
    requires n < |run|
    ensures Run(o, run[..n + 1]) == Step(Run(o, run[..n]), run[n])
  {
    assert run[..n + 1][..n] == run[..n];
  }

  /** The first three steps: two workers and one schedule due at once. */
  lemma {:induction false} OverStart()
    ensures var o := Run(NOBODY, OVER[..3]);
      && o.schedules == map[0 := Schedule("task", 1, true, 0, None, 0, None, None)]
      && o.workers == map["a" := Worker(false, Idle, 0, {}, {}), "b" := Worker(false, Idle, 0, {}, {})]
  {
    assert OVER[..0] == [];
    RunOn(NOBODY, OVER, 0);
    RunOn(NOBODY, OVER, 1);
    RunOn(NOBODY, OVER, 2);
  }

  lemma {:induction false} OverCycles()
    ensures Run(NOBODY, OVER[..4]) == Cycle(Run(NOBODY, OVER[..3]), "a", FIRST).office
    ensures Run(NOBODY, OVER) == Cycle(Run(NOBODY, OVER[..4]), "b", SECOND).office
  {
    hide RunDue, Listed, Heartbeat, Register, Plan, Cycle;
    RunOn(NOBODY, OVER, 3);
    RunOn(NOBODY, OVER, 4);
    assert OVER[..5] == OVER;
  }

  /** An interrupted cycle lists what it took, beats, and leaves the other workers alone. */
  lemma {:induction false} InterruptedLists(o: Office, id: Id, w: string, c: Call)
    requires Valid(o) && w in o.workers && c.interrupt
    requires id in o.schedules && Takes(o.schedules[id], By(w, c))
    ensures var o' := Cycle(o, w, c).office;
      && o'.workers.Keys == o.workers.Keys
      && id in o'.workers[w].claimed && o'.workers[w].heartbeat == c.clock
      && o'.workers[w].stale == o.workers[w].stale
      && (forall v :: v in o.workers && v != w ==> o'.workers[v] == o.workers[v])
  {
    CycleEffect(o, w, c);
    assert id in TakenSet(o, By(w, c));
  }

  /** An interrupted cycle leaves what it took due as before. */
  lemma {:induction false} InterruptedStaysDue(o: Office, id: Id, w: string, c: Call, at: Time)
    requires Valid(o) && w in o.workers && c.interrupt
    requires id in o.schedules && Takes(o.schedules[id], By(w, c)) && c.at <= at
    ensures id in Cycle(o, w, c).office.schedules && Due(Cycle(o, w, c).office.schedules[id], at)
  {
    CycleEffect(o, w, c);
  }

  /** A held schedule whose lease has run out is taken over by another worker's cycle, which
      stays on the lists of both. */
  lemma {:induction false} TakenOver(o: Office, id: Id, lost: string, w: string, until: Time, c: Call)
    requires Valid(o) && HeldBy(o, id, lost, until) && until <= c.at && Due(o.schedules[id], c.at) && c.interrupt
    requires w in o.workers && lost in o.workers && w != lost && id in o.workers[lost].claimed
    ensures var o' := Cycle(o, w, c).office;
      && HeldBy(o', id, w, c.at + c.leaseSeconds)
      && lost in o'.workers && o'.workers[lost] == o.workers[lost]
  {
    InterruptedHolds(o, id, w, c);
    InterruptedLists(o, id, w, c);
  }

  /** The schedule is due, held by an unmarked worker that lists it and last beat at an instant. */
  ghost predicate Lapsing(o: Office, id: Id, lost: string, until: Time, beat: Time, at: Time) {
    && HeldBy(o, id, lost, until) && Due(o.schedules[id], at)
    && lost in o.workers && id in o.workers[lost].claimed
    && !o.workers[lost].stale && o.workers[lost].heartbeat == beat
  }

  lemma {:induction false} FirstHolder(o: Office, id: Id, w: string, c: Call, at: Time)
    requires Valid(o) && w in o.workers && !o.workers[w].stale && c.interrupt
    requires id in o.schedules && Takes(o.schedules[id], By(w, c)) && c.at <= at
    ensures Lapsing(Cycle(o, w, c).office, id, w, c.at + c.leaseSeconds, c.clock, at)
  {
    InterruptedHolds(o, id, w, c);
    InterruptedLists(o, id, w, c);
    InterruptedStaysDue(o, id, w, c, at);
  }

  lemma {:induction false} SecondHolder(o: Office, id: Id, lost: string, w: string, until: Time, beat: Time, c: Call, expiry: int)
    requires Valid(o) && Lapsing(o, id, lost, until, beat, c.at) && until <= c.at && c.interrupt
    requires w in o.workers && w != lost && beat < c.at - expiry && c.leaseSeconds > 0
    ensures HeldBy(Cycle(o, w, c).office, id, w, c.at + c.leaseSeconds)
    ensures var o' := Reclaim(Cycle(o, w, c).office, c.at, expiry, c.clock);
      id in o'.schedules && o'.schedules[id].claimedBy.None?
  {
    TakenOver(o, id, lost, w, until, c);
    CycleValid(o, w, c);
    OverRelease(Cycle(o, w, c).office, id, lost, w, c.at, expiry, c.clock, c.at + c.leaseSeconds);
  }

  /** A reachable case: b took the schedule over under a lease until 1400, and the reclaim of a
      at instant 400 frees it. */
  lemma {:induction false} OverReleaseHappens()
    ensures HeldBy(Run(NOBODY, OVER), 0, "b", 1400)
    ensures var o' := Reclaim(Run(NOBODY, OVER), 400, 300, 400); 0 in o'.schedules && o'.schedules[0].claimedBy.None?
  {
    OverStart();
    OverCycles();
    RunValid(NOBODY, OVER[..3]);
    OverReleaseFrom(Run(NOBODY, OVER[..3]), Run(NOBODY, OVER[..4]), Run(NOBODY, OVER), FIRST, SECOND);
  }

  lemma {:induction false} OverReleaseFrom(o3: Office, o4: Office, o5: Office, first: Call, second: Call)
    requires Valid(o3) && 0 in o3.schedules && o3.schedules[0] == Schedule("task", 1, true, 0, None, 0, None, None)
    requires "a" in o3.workers && !o3.workers["a"].stale && "b" in o3.workers
    requires first.interrupt && first.at == 0 && first.clock == 0 && first.leaseSeconds == 10
    requires second.interrupt && second.at == 400 && second.clock == 400 && second.leaseSeconds == 1000
    requires o4 == Cycle(o3, "a", first).office && o5 == Cycle(o4, "b", second).office
    ensures HeldBy(o5, 0, "b", 1400)
    ensures var o' := Reclaim(o5, 400, 300, 400); 0 in o'.schedules && o'.schedules[0].claimedBy.None?
  {
    hide Cycle, Valid, Reclaim;
    FirstHolder(o3, 0, "a", first, 400);
    CycleKeepsRoster(o3, "a", first);
    CycleValid(o3, "a", first);
    SecondHolder(o4, 0, "a", "b", 10, 0, second, 300);
  }

  lemma {:induction false} CycleKeepsRoster(o: Office, w: string, c: Call)
    requires Valid(o)
    ensures Cycle(o, w, c).office.workers.Keys == o.workers.Keys
  {
    if w in o.workers {
      CycleEffect(o, w, c);
    }
  }
}
