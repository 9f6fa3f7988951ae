/** Time in the lease protocol: who can touch a schedule while a lease runs, and how often a
    schedule can be run (memory/matrix.py and memory/maintenance_service.py). */
module LeaseTiming {
  import opened Prelude
  import opened Lease
  import opened LeaseLaws
  import opened LeaseRuns

  // ------------------------------------------------------------------- lease exclusion

  /** Steps of other parties at instants before the lease runs out: registrations, heartbeats,
      new schedules, and cycles and direct runs in the name of other workers. */
  predicate Foreign(e: Event, w: string, until: Time) {
    match e
    case RegisterIt(_) => true
    case BeatIt(_, _) => true
    case PlanIt(_, _, _) => true
    case CycleIt(v, c) => v != w && c.at < until
    case RunIt(c) => c.worker.Some? && c.worker.value != w && c.at < until
    case ResumeIt(_, _) => false
    case ReclaimIt(_, _) => false
  }

  lemma {:induction false} DirectExcluded(o: Office, id: Id, w: string, until: Time, c: Call)
    requires Valid(o) && HeldBy(o, id, w, until)
    requires c.worker.Some? && c.worker.value != w && c.at < until
    ensures id in RunDue(o, c).office.schedules && RunDue(o, c).office.schedules[id] == o.schedules[id]
  {
    assert id !in TakenSet(o, c);
    if c.worker.value in o.workers {
      RunDueEffect(o, c);
    } else {
      ClaimFirstEffect(o, c);
    }
  }

  lemma {:induction false} CycleExcluded(o: Office, id: Id, w: string, until: Time, v: string, c: Call)
    requires Valid(o) && HeldBy(o, id, w, until) && v != w && c.at < until
    ensures id in Cycle(o, v, c).office.schedules && Cycle(o, v, c).office.schedules[id] == o.schedules[id]
  {
    if v in o.workers {
      CycleEffect(o, v, c);
    }
  }

  lemma {:induction false} StepExcluded(o: Office, id: Id, w: string, until: Time, t: Timed)
    requires Valid(o) && HeldBy(o, id, w, until) && Foreign(t.event, w, until)
    ensures id in Step(o, t).schedules && Step(o, t).schedules[id] == o.schedules[id]
  {
    match t.event
    case CycleIt(v, c) => CycleExcluded(o, id, w, until, v, c.(clock := t.clock));
    case RunIt(c) => DirectExcluded(o, id, w, until, c.(clock := t.clock));
    case _ =>
  }

  /** Lease exclusion: while w's lease runs, no sequence of foreign steps touches the schedule. */
  lemma {:induction false} LeaseExcludes(o: Office, run: seq<Timed>, id: Id, w: string, until: Time)
    requires Valid(o) && HeldBy(o, id, w, until)
    requires forall i :: 0 <= i < |run| ==> Foreign(run[i].event, w, until)
    ensures id in Run(o, run).schedules && Run(o, run).schedules[id] == o.schedules[id]
  {
    if run != [] {
      var n := |run| - 1;
      LeaseExcludes(o, run[..n], id, w, until);
      RunValid(o, run[..n]);
      StepExcluded(Run(o, run[..n]), id, w, until, run[n]);
    }
  }

  /** The lease is exact: another worker's cycle touches a due schedule exactly once the lease has
      run out. */
  lemma {:induction false} OthersTakeIff(o: Office, id: Id, w: string, until: Time, v: string, c: Call)
    requires Valid(o) && HeldBy(o, id, w, until) && v in o.workers && v != w && Due(o.schedules[id], c.at)
    ensures id in Cycle(o, v, c).office.schedules
    ensures Cycle(o, v, c).office.schedules[id] != o.schedules[id] <==> until <= c.at
  {
    CycleEffect(o, v, c);
  }

  /** The holder renews its own lease, even while it runs. */
  lemma {:induction false} HolderRenews(o: Office, id: Id, w: string, until: Time, c: Call)
    requires Valid(o) && HeldBy(o, id, w, until) && w in o.workers && Due(o.schedules[id], c.at) && c.interrupt
    ensures HeldBy(Cycle(o, w, c).office, id, w, c.at + c.leaseSeconds)
  {
    InterruptedHolds(o, id, w, c);
  }

  /** A resume asks for no lease: whoever holds the schedule, resuming an interrupted run of it
      completes it and drops the claim. The resumed run stays interrupted, so this repeats. */
  lemma {:induction false} ResumeIgnoresLease(o: Office, run: Id, prior: MaintenanceRun, w: Option<string>, clock: Time)
    requires FindRun(o.runs, run) == Some(prior) && prior.interrupted && prior.schedule in o.schedules
    requires w.Some? ==> w.value in o.workers
    requires prior.claimedBy.Some? ==> prior.claimedBy.value in o.workers
    requires run < o.nextId
    ensures var o' := Resume(o, run, w, clock).office;
      && o'.schedules == o.schedules[prior.schedule := Completed(o.schedules[prior.schedule], clock, clock)]
      && FindRun(o'.runs, run) == Some(prior)
  {
    var o' := Resume(o, run, w, clock).office;
    assert o'.runs[..|o'.runs| - 1] == o.runs;
  }

  /** A resume without a worker leaves the new run among the active runs of the prior holder;
      with a worker, that worker ends with neither run active and without the claim. */
  lemma {:induction false} ResumeBooks(o: Office, run: Id, prior: MaintenanceRun, w: Option<string>, clock: Time)
    requires FindRun(o.runs, run) == Some(prior) && prior.interrupted
    requires var holder := if w.Some? then w else prior.claimedBy; holder.Some? && holder.value in o.workers
    ensures var holder := if w.Some? then w.value else prior.claimedBy.value;
      var was, o' := o.workers[holder], Resume(o, run, w, clock).office;
      && holder in o'.workers
      && (w.None? ==> o'.workers[holder] == was.(active := was.active + {o.nextId}))
      && (w.Some? ==> o'.workers[holder].claimed == was.claimed - {prior.schedule})
      && (w.Some? && o.nextId !in was.active ==> o'.workers[holder].active == was.active - {run})
  {
  }

  /** The run is interrupted, its schedule exists, and its holder, if any, is registered. */
  ghost predicate Resumable(o: Office, run: Id, prior: MaintenanceRun) {
    && FindRun(o.runs, run) == Some(prior) && prior.interrupted && prior.schedule in o.schedules && run < o.nextId
    && (prior.claimedBy.Some? ==> prior.claimedBy.value in o.workers)
  }

  /** A resume of the run, by nobody or by a known worker. */
  predicate ResumesIt(o: Office, run: Id, e: Event) {
    e.ResumeIt? && e.run == run && (e.worker.Some? ==> e.worker.value in o.workers)
  }

  lemma {:induction false} ResumeStep(o: Office, run: Id, prior: MaintenanceRun, t: Timed)
    requires Resumable(o, run, prior) && ResumesIt(o, run, t.event)
    ensures var o' := Step(o, t);
      && Resumable(o', run, prior) && o'.workers.Keys == o.workers.Keys && |o'.runs| == |o.runs| + 1
      && o'.schedules == o.schedules[prior.schedule := Completed(o.schedules[prior.schedule], t.clock, t.clock)]
  {
    ResumeIgnoresLease(o, run, prior, t.event.worker, t.clock);
  }

  /** The schedules after some resumes: as if only the last of them had completed the schedule. */
  function Postponed(schedules: map<Id, Schedule>, id: Id, steps: seq<Timed>): map<Id, Schedule>
    requires id in schedules
  {
    if steps == [] then schedules
    else
      var last := steps[|steps| - 1].clock;
      schedules[id := Completed(schedules[id], last, last)]
  }

  lemma {:induction false} PostponedOnce(schedules: map<Id, Schedule>, id: Id, steps: seq<Timed>)
    requires id in schedules && steps != []
    ensures var before, last := Postponed(schedules, id, steps[..|steps| - 1]), steps[|steps| - 1].clock;
      id in before && before[id := Completed(before[id], last, last)] == Postponed(schedules, id, steps)
  {
  }

  /** Resuming the same interrupted run again and again: every resume books one more run and
      completes the schedule once more, so the schedule is next due a cadence after the last resume,
      however often a resume has completed it before. */
  lemma {:induction false} ResumesPostpone(o: Office, run: Id, prior: MaintenanceRun, steps: seq<Timed>)
    requires Resumable(o, run, prior) && forall i :: 0 <= i < |steps| ==> ResumesIt(o, run, steps[i].event)
    ensures var o' := Run(o, steps);
      && Resumable(o', run, prior) && o'.workers.Keys == o.workers.Keys && |o'.runs| == |o.runs| + |steps|
      && o'.schedules == Postponed(o.schedules, prior.schedule, steps)
  {
    if steps != [] {
      var n := |steps| - 1;
      assert prior.schedule in o.schedules;
      hide Step, Postponed, Resumable;
      assert forall i :: 0 <= i < n ==> steps[..n][i] == steps[i];
      ResumesPostpone(o, run, prior, steps[..n]);
      ResumeStep(Run(o, steps[..n]), run, prior, steps[n]);
      PostponedOnce(o.schedules, prior.schedule, steps);
    }
  }

  // ------------------------------------------------------------------ runs that stay active

  /** A run that is over is still among the active runs of the worker. */
  ghost predicate Lingers(o: Office, w: string, r: Id) {
    && w in o.workers && r in o.workers[w].active && r < o.nextId
    && FindRun(o.runs, r).Some? && !FindRun(o.runs, r).value.interrupted
  }

  /** A resume without a worker leaves the run it made, which is over, active with the prior holder. */
  lemma {:induction false} ResumeLingers(o: Office, run: Id, prior: MaintenanceRun, clock: Time)
    requires FindRun(o.runs, run) == Some(prior) && prior.interrupted
    requires prior.claimedBy.Some? && prior.claimedBy.value in o.workers
    ensures Lingers(Resume(o, run, None, clock).office, prior.claimedBy.value, o.nextId)
  {
  }

  /** The steps that empty the books of a worker. */
  predicate Clears(o: Office, t: Timed, w: string) {
    || t.event == RegisterIt(w)
    || (t.event.ReclaimIt? && w in o.workers && Reclaims(o.workers[w], t.event.at - t.event.expirySeconds))
  }

  lemma {:induction false} FindAppended(runs: seq<MaintenanceRun>, more: seq<MaintenanceRun>, id: Id)
    requires forall x :: x in more ==> x.id != id
    ensures FindRun(runs + more, id) == FindRun(runs, id)
  {
    if more == [] {
      assert runs + more == runs;
    } else {
      var n := |more| - 1;
      assert (runs + more)[..|runs| + n] == runs + more[..n];
      FindAppended(runs, more[..n], id);
    }
  }

  lemma {:induction false} RanLingers(o: Office, o': Office, c: Call, w: string, r: Id)
    requires Lingers(o, w, r) && Ran(o, o', c) && Booking(o, o'.workers, c)
    ensures Lingers(o', w, r)
  {
    hide TakenIds, Listed, After, TakenSet;
    FindAppended(o.runs, NewRuns(o, TakenIds(o, Listed(o), c), c), r);
  }

  lemma {:induction false} CycleLingers(o: Office, v: string, c: Call, w: string, r: Id)
    requires Valid(o) && Lingers(o, w, r)
    ensures Lingers(Cycle(o, v, c).office, w, r)
  {
    if v in o.workers {
      hide Ran, Booking, Valid;
      CycleEffect(o, v, c);
      RanLingers(o, Cycle(o, v, c).office, By(v, c), w, r);
    }
  }

  lemma {:induction false} DirectLingers(o: Office, c: Call, w: string, r: Id)
    requires Valid(o) && Lingers(o, w, r)
    ensures Lingers(RunDue(o, c).office, w, r)
  {
    hide Ran, Booking, Valid, RunDue;
    if c.worker.Some? && c.worker.value !in o.workers {
      ClaimFirstEffect(o, c);
    } else {
      RunDueEffect(o, c);
      RanLingers(o, RunDue(o, c).office, c, w, r);
    }
  }

  lemma {:induction false} OtherResumeLingers(o: Office, run: Id, v: Option<string>, clock: Time, w: string, r: Id)
    requires Lingers(o, w, r)
    ensures Lingers(Resume(o, run, v, clock).office, w, r)
  {
    var o' := Resume(o, run, v, clock).office;
    if |o'.runs| > |o.runs| {
      FindAppended(o.runs, o'.runs[|o.runs|..], r);
      assert o'.runs == o.runs + o'.runs[|o.runs|..];
    }
  }

  lemma {:induction false} ReclaimLingersIff(o: Office, at: Time, expiry: int, clock: Time, w: string, r: Id)
    requires Valid(o) && Lingers(o, w, r)
    ensures Lingers(Reclaim(o, at, expiry, clock), w, r) <==> !Reclaims(o.workers[w], at - expiry)
  {
    ReclaimEffect(o, at, expiry, clock);
  }

  /** Nothing that the worker does clears such a run: it stays active until exactly the step at
      which the worker registers anew or is reclaimed. */
  lemma {:induction false} StepLingersIff(o: Office, t: Timed, w: string, r: Id)
    requires Valid(o) && Lingers(o, w, r)
    ensures Lingers(Step(o, t), w, r) <==> !Clears(o, t, w)
  {
    match t.event
    case CycleIt(v, c) => CycleLingers(o, v, c.(clock := t.clock), w, r);
    case RunIt(c) => DirectLingers(o, c.(clock := t.clock), w, r);
    case ResumeIt(run, v) => OtherResumeLingers(o, run, v, t.clock, w, r);
    case ReclaimIt(at, expiry) => ReclaimLingersIff(o, at, expiry, t.clock, w, r);
    case _ =>
  }

  ghost predicate NeverCleared(o: Office, run: seq<Timed>, w: string) {
    forall i :: 0 <= i < |run| ==> !Clears(Run(o, run[..i]), run[i], w)
  }

  lemma {:induction false} ClearedBefore(o: Office, run: seq<Timed>, w: string)
    requires run != [] && NeverCleared(o, run, w)
    ensures var n := |run| - 1; NeverCleared(o, run[..n], w) && !Clears(Run(o, run[..n]), run[n], w)
  {
    hide Clears, Run;
    var n := |run| - 1;
    forall i | 0 <= i < n
      ensures !Clears(Run(o, run[..n][..i]), run[..n][i], w)
    {
      assert run[..n][..i] == run[..i];
      assert !Clears(Run(o, run[..i]), run[i], w);
    }
  }

  /** Over a whole run it stays active as long as no step clears the books of the worker. */
  lemma {:induction false} RunLingers(o: Office, run: seq<Timed>, w: string, r: Id)
    requires Valid(o) && Lingers(o, w, r) && NeverCleared(o, run, w)
    ensures Lingers(Run(o, run), w, r)
  {
    if run != [] {
      hide Clears, Lingers, Step, Valid, NeverCleared;
      var n := |run| - 1;
      ClearedBefore(o, run, w);
      RunLingers(o, run[..n], w, r);
      RunValid(o, run[..n]);
      StepLingersIff(Run(o, run[..n]), run[n], w, r);
    }
  }

  // -------------------------------------------------------------- a worker that acts is not stale

  /** A heartbeat, a cycle and a resume by the worker itself all leave its heartbeat at their clock. */
  lemma {:induction false} ActingBeats(o: Office, t: Timed, w: string)
    requires Valid(o) && w in o.workers
    requires (t.event.BeatIt? && t.event.name == w) || (t.event.CycleIt? && t.event.name == w)
          || (t.event.ResumeIt? && t.event.worker == Some(w) && FindRun(o.runs, t.event.run).Some?
              && FindRun(o.runs, t.event.run).value.interrupted)
    ensures w in Step(o, t).workers && Step(o, t).workers[w].heartbeat == t.clock
  {
    if t.event.CycleIt? {
      var c := t.event.call.(clock := t.clock);
      var begun := Heartbeat(o, w, Some(Busy), c.clock).office;
      HeartbeatKeeps(o, w, Some(Busy), c.clock);
      RunDueEffect(begun, By(w, c));
    }
  }

  /** So a reclaim no later than the expiry after it leaves the record of the worker alone. */
  lemma {:induction false} ActingIsNotReclaimed(o: Office, t: Timed, w: string, at: Time, expiry: int, clock: Time)
    requires Valid(o) && Valid(Step(o, t)) && w in Step(o, t).workers && Step(o, t).workers[w].heartbeat == t.clock
    requires at <= t.clock + expiry
    ensures w in Reclaim(Step(o, t), at, expiry, clock).workers
    ensures Reclaim(Step(o, t), at, expiry, clock).workers[w] == Step(o, t).workers[w]
  {
    hide Step, Valid;
    ReclaimEffect(Step(o, t), at, expiry, clock);
  }

  // -------------------------------------------------------------------- stale for good

  ghost predicate IsStale(o: Office, w: string) {
    w in o.workers && o.workers[w].stale
  }

  lemma {:induction false} DirectStale(o: Office, c: Call, w: string)
    requires Valid(o) && IsStale(o, w)
    ensures IsStale(RunDue(o, c).office, w)
  {
    if c.worker.Some? && c.worker.value !in o.workers {
      ClaimFirstEffect(o, c);
    } else {
      RunDueEffect(o, c);
    }
  }

  lemma {:induction false} CycleStale(o: Office, v: string, c: Call, w: string)
    requires Valid(o) && IsStale(o, w)
    ensures IsStale(Cycle(o, v, c).office, w)
  {
    if v in o.workers {
      CycleEffect(o, v, c);
    }
  }

  lemma {:induction false} ReclaimStale(o: Office, at: Time, expiry: int, clock: Time, w: string)
    requires Valid(o) && IsStale(o, w)
    ensures w in Reclaim(o, at, expiry, clock).workers && Reclaim(o, at, expiry, clock).workers[w] == o.workers[w]
  {
    ReclaimEffect(o, at, expiry, clock);
  }

  lemma {:induction false} StepStale(o: Office, t: Timed, w: string)
    requires Valid(o) && IsStale(o, w) && t.event != RegisterIt(w)
    ensures IsStale(Step(o, t), w)
  {
    match t.event
    case CycleIt(v, c) => CycleStale(o, v, c.(clock := t.clock), w);
    case RunIt(c) => DirectStale(o, c.(clock := t.clock), w);
    case ReclaimIt(at, expiry) => ReclaimStale(o, at, expiry, t.clock, w);
    case _ =>
  }

  lemma {:induction false} RunStale(o: Office, run: seq<Timed>, w: string)
    requires Valid(o) && IsStale(o, w)
    requires forall i :: 0 <= i < |run| ==> run[i].event != RegisterIt(w)
    ensures IsStale(Run(o, run), w)
  {
    if run != [] {
      var n := |run| - 1;
      RunStale(o, run[..n], w);
      RunValid(o, run[..n]);
      StepStale(Run(o, run[..n]), run[n], w);
    }
  }

  /** A worker once marked stale may go on claiming schedules, but until it registers again no
      reclaim ever empties its books. */
  lemma {:induction false} StaleNeverReclaimed(o: Office, run: seq<Timed>, w: string, at: Time, expiry: int, clock: Time)
    requires Valid(o) && IsStale(o, w)
    requires forall i :: 0 <= i < |run| ==> run[i].event != RegisterIt(w)
    ensures var o' := Run(o, run);
      && w in o'.workers
      && w in Reclaim(o', at, expiry, clock).workers
      && Reclaim(o', at, expiry, clock).workers[w] == o'.workers[w]
  {
    RunStale(o, run, w);
    RunValid(o, run);
    ReclaimStale(Run(o, run), at, expiry, clock, w);
  }

  // ------------------------------------------------------------------------- rate bound

  /** The step completes the schedule because it was due. */
  predicate CompletesDue(o: Office, e: Event, id: Id) {
    id in o.schedules &&
    match e
    case CycleIt(w, c) => w in o.workers && !c.interrupt && Takes(o.schedules[id], By(w, c))
    case RunIt(c) => (c.worker.Some? ==> c.worker.value in o.workers) && !c.interrupt && Takes(o.schedules[id], c)
    case _ => false
  }

  /** The instant at which a step that can complete schedules does so. */
  function InstantOf(t: Timed): Option<Time> {
    match t.event
    case CycleIt(_, c) => Some(c.at)
    case RunIt(c) => Some(c.at)
    case ResumeIt(_, _) => Some(t.clock)
    case _ => None
  }

  function Completions(o: Office, run: seq<Timed>, id: Id): seq<Time> {
    if run == [] then []
    else
      var front, last := run[..|run| - 1], run[|run| - 1];
      var before := Completions(o, front, id);
      if InstantOf(last).Some? && CompletesDue(Run(o, front), last.event, id)
      then before + [InstantOf(last).value] else before
  }

  /** The clock never runs backwards over the steps that can complete schedules. */
  ghost predicate Monotone(run: seq<Timed>) {
    forall i, j :: 0 <= i < j < |run| && InstantOf(run[i]).Some? && InstantOf(run[j]).Some?
      ==> InstantOf(run[i]).value <= InstantOf(run[j]).value
  }

  function Gap(s: Schedule): int { s.cadenceHours * HOUR }

  /** How one step moves a schedule: a due completion happens no earlier than its next instant
      and sets the next one a cadence later, a resume too, and no other step moves it. */
  ghost predicate Moves(o: Office, o': Office, t: Timed, id: Id)
    requires id in o.schedules
  {
    && id in o'.schedules && o'.schedules[id].cadenceHours == o.schedules[id].cadenceHours
    && (CompletesDue(o, t.event, id) ==> InstantOf(t).Some? && o.schedules[id].next <= InstantOf(t).value)
    && (CompletesDue(o, t.event, id) ==> o'.schedules[id].next == InstantOf(t).value + Gap(o.schedules[id]))
    && (!CompletesDue(o, t.event, id) && !t.event.ResumeIt? ==> o'.schedules[id].next == o.schedules[id].next)
    && (t.event.ResumeIt? ==> o'.schedules[id].next in {o.schedules[id].next, t.clock + Gap(o.schedules[id])})
  }

  lemma {:induction false} RanMoves(o: Office, o': Office, c: Call, t: Timed, id: Id)
    requires id in o.schedules && Ran(o, o', c) && InstantOf(t) == Some(c.at) && !t.event.ResumeIt?
    requires CompletesDue(o, t.event, id) <==> !c.interrupt && Takes(o.schedules[id], c)
    ensures Moves(o, o', t, id)
  {
    hide Recorded, TakenIds, Blocked, CompletesDue;
  }

  lemma {:induction false} UnchangedMoves(o: Office, o': Office, t: Timed, id: Id)
    requires id in o.schedules && id in o'.schedules && !CompletesDue(o, t.event, id)
    requires o'.schedules[id].next == o.schedules[id].next && o'.schedules[id].cadenceHours == o.schedules[id].cadenceHours
    ensures Moves(o, o', t, id)
  {
    hide CompletesDue;
  }

  lemma {:induction false} CycleMoves(o: Office, w: string, c: Call, t: Timed, id: Id)
    requires Valid(o) && id in o.schedules && t.event == CycleIt(w, c)
    ensures Moves(o, Cycle(o, w, c.(clock := t.clock)).office, t, id)
  {
    hide Valid, Moves, Ran, Booking;
    var c' := c.(clock := t.clock);
    if w in o.workers {
      CycleEffect(o, w, c');
      RanMoves(o, Cycle(o, w, c').office, By(w, c'), t, id);
    } else {
      UnchangedMoves(o, Cycle(o, w, c').office, t, id);
    }
  }

  lemma {:induction false} DirectMoves(o: Office, c: Call, t: Timed, id: Id)
    requires Valid(o) && id in o.schedules && t.event == RunIt(c)
    ensures Moves(o, RunDue(o, c.(clock := t.clock)).office, t, id)
  {
    hide Valid, Moves, Ran, Booking, RunDue;
    var c' := c.(clock := t.clock);
    if c'.worker.Some? && c'.worker.value !in o.workers {
      ClaimFirstEffect(o, c');
      UnchangedMoves(o, RunDue(o, c').office, t, id);
    } else {
      RunDueEffect(o, c');
      RanMoves(o, RunDue(o, c').office, c', t, id);
    }
  }

  lemma {:induction false} ReclaimMoves(o: Office, t: Timed, id: Id)
    requires Valid(o) && id in o.schedules && t.event.ReclaimIt?
    ensures Moves(o, Reclaim(o, t.event.at, t.event.expirySeconds, t.clock), t, id)
  {
    ReclaimEffect(o, t.event.at, t.event.expirySeconds, t.clock);
  }

  lemma {:induction false} StepMoves(o: Office, t: Timed, id: Id)
    requires Valid(o) && id in o.schedules
    ensures Moves(o, Step(o, t), t, id)
  {
    match t.event
    case CycleIt(w, c) => CycleMoves(o, w, c, t, id);
    case RunIt(c) => DirectMoves(o, c, t, id);
    case ReclaimIt(at, expiry) => ReclaimMoves(o, t, id);
    case _ =>
  }

  /** Consecutive completions are a cadence apart, and the next due instant is one after the last. */
  ghost predicate Spaced(times: seq<Time>, gap: int) {
    forall i :: 0 <= i < |times| - 1 ==> times[i + 1] >= times[i] + gap
  }

  lemma {:induction false} CompletionsBefore(o: Office, run: seq<Timed>, id: Id, k: nat)
    requires k < |Completions(o, run, id)|
    ensures exists i :: 0 <= i < |run| && InstantOf(run[i]) == Some(Completions(o, run, id)[k])
  {
    var n := |run| - 1;
    if k < |Completions(o, run[..n], id)| {
      CompletionsBefore(o, run[..n], id, k);
      var i :| 0 <= i < n && InstantOf(run[..n][i]) == Some(Completions(o, run[..n], id)[k]);
      assert InstantOf(run[i]) == Some(Completions(o, run, id)[k]);
    } else {
      assert InstantOf(run[n]) == Some(Completions(o, run, id)[k]);
    }
  }

  /** The completions so far are spaced, and the next due instant is a cadence after the last. */
  ghost predicate OnSchedule(s: Schedule, times: seq<Time>, gap: int) {
    && Gap(s) == gap && Spaced(times, gap)
    && (times != [] ==> s.next >= times[|times| - 1] + gap)
  }

  lemma {:induction false} SpacedOneMore(times: seq<Time>, gap: int, t: Time)
    requires Spaced(times, gap) && (times != [] ==> t >= times[|times| - 1] + gap)
    ensures Spaced(times + [t], gap)
  {
  }

  lemma {:induction false} StepOnSchedule(o: Office, o': Office, t: Timed, id: Id, times: seq<Time>, gap: int)
    requires id in o.schedules && Moves(o, o', t, id) && OnSchedule(o.schedules[id], times, gap) && gap > 0
    requires times != [] && InstantOf(t).Some? ==> times[|times| - 1] <= InstantOf(t).value
    ensures OnSchedule(o'.schedules[id],
      if InstantOf(t).Some? && CompletesDue(o, t.event, id) then times + [InstantOf(t).value] else times, gap)
  {
    hide CompletesDue, Spaced;
    if InstantOf(t).Some? && CompletesDue(o, t.event, id) {
      SpacedOneMore(times, gap, InstantOf(t).value);
    }
  }

  lemma {:induction false} RunSpaced(o: Office, run: seq<Timed>, id: Id)
    requires Valid(o) && id in o.schedules && o.schedules[id].cadenceHours > 0 && Monotone(run)
    ensures id in Run(o, run).schedules
    ensures OnSchedule(Run(o, run).schedules[id], Completions(o, run, id), Gap(o.schedules[id]))
  {
    if run == [] {
      hide Step, CompletesDue;
    } else {
      var n := |run| - 1;
      var front := run[..n];
      assert forall i :: 0 <= i < n ==> front[i] == run[i];
      RunSpaced(o, front, id);
      RunValid(o, front);
      hide Step, CompletesDue, OnSchedule, Moves;
      StepMoves(Run(o, front), run[n], id);
      var times := Completions(o, front, id);
      if times != [] {
        CompletionsBefore(o, front, id, |times| - 1);
      }
      StepOnSchedule(Run(o, front), Run(o, run), run[n], id, times, Gap(o.schedules[id]));
    }
  }

  lemma {:induction false} SpacedApart(times: seq<Time>, gap: int, i: nat, j: nat)
    requires Spaced(times, gap) && i <= j < |times|
    ensures times[j] - times[i] >= (j - i) * gap
    decreases j
  {
    if i < j {
      SpacedApart(times, gap, i, j - 1);
      assert times[j - 1 + 1] >= times[j - 1] + gap;
      assert (j - i) * gap == (j - 1 - i) * gap + gap;
    }
  }

  function Within(times: seq<Time>, a: Time, b: Time): seq<Time> {
    Filter(times, (t: Time) => a <= t <= b)
  }

  lemma {:induction false} LaterByGap(times: seq<Time>, gap: int, i: nat, j: nat)
    requires Spaced(times, gap) && gap > 0 && i < j < |times|
    ensures times[i] <= times[j] - gap
    decreases j
  {
    assert times[j - 1 + 1] >= times[j - 1] + gap;
    if i < j - 1 {
      LaterByGap(times, gap, i, j - 1);
    }
  }

  lemma {:induction false} EarlierByGap(times: seq<Time>, gap: int)
    requires Spaced(times, gap) && gap > 0 && times != []
    ensures forall i :: 0 <= i < |times| - 1 ==> times[i] <= times[|times| - 1] - gap
  {
    forall i | 0 <= i < |times| - 1
      ensures times[i] <= times[|times| - 1] - gap
    {
      LaterByGap(times, gap, i, |times| - 1);
    }
  }

  /** k gaps, added up. */
  function Gaps(k: nat, gap: int): int {
    if k == 0 then 0 else Gaps(k - 1, gap) + gap
  }

  lemma {:induction false} GapsMultiply(k: nat, gap: int)
    ensures Gaps(k, gap) == k * gap
  {
    if k > 0 {
      GapsMultiply(k - 1, gap);
      assert k * gap == (k - 1) * gap + gap;
    }
  }

  /** Spaced completions fill a window of length b - a at most once per gap, and once more. */
  lemma {:induction false} WindowCount(times: seq<Time>, gap: int, a: Time, b: Time)
    requires Spaced(times, gap) && gap > 0
    ensures Within(times, a, b) != [] ==> Gaps(|Within(times, a, b)| - 1, gap) <= b - a
  {
    if times != [] {
      var n := |times| - 1;
      var front, last := times[..n], times[n];
      if a <= last <= b {
        EarlierByGap(times, gap);
        FilterCongruence(front, (t: Time) => a <= t <= b, (t: Time) => a <= t <= last - gap);
        WindowCount(front, gap, a, last - gap);
      } else {
        WindowCount(front, gap, a, b);
      }
    }
  }

  lemma {:induction false} WholeGaps(k: int, gap: int, length: nat)
    requires gap > 0 && k * gap <= length
    ensures k <= length / gap
  {
    var q := length / gap;
    if k > q {
      assert length == q * gap + length % gap;
      MoreGaps(q + 1, k, gap);
    }
  }

  lemma {:induction false} MoreGaps(q: int, k: int, gap: int)
    requires gap > 0 && q <= k
    ensures q * gap <= k * gap
  {
    assert 0 <= (k - q) * gap;
  }

  /** Rate bound: whoever calls, under a clock that does not run backwards due completions of a
      schedule with a positive cadence are at least a cadence apart, and at most
      floor(T / cadence) + 1 of them fall into a window of length T. */
  lemma {:induction false} RateBound(o: Office, run: seq<Timed>, id: Id, a: Time, length: nat)
    requires Valid(o) && id in o.schedules && o.schedules[id].cadenceHours > 0 && Monotone(run)
    ensures var times, gap := Completions(o, run, id), Gap(o.schedules[id]);
      && (forall i, j :: 0 <= i <= j < |times| ==> times[j] - times[i] >= (j - i) * gap)
      && gap > 0 && |Within(times, a, a + length)| <= length / gap + 1
  {
    var times, gap := Completions(o, run, id), Gap(o.schedules[id]);
    RunSpaced(o, run, id);
    SpacedBound(times, gap, a, length);
  }

  /** A cadence counts hours of 3600 seconds: an uninterrupted cycle at an instant leaves what it
      ran due again exactly from that many seconds on. */
  lemma {:induction false} DueAfterCycle(o: Office, id: Id, w: string, c: Call, at: Time)
    requires Valid(o) && w in o.workers && !c.interrupt && id in o.schedules && Takes(o.schedules[id], By(w, c))
    ensures var o' := Cycle(o, w, c).office;
      && id in o'.schedules
      && (Due(o'.schedules[id], at) <==> c.at + 3600 * o.schedules[id].cadenceHours <= at)
  {
    CycleEffect(o, w, c);
  }

  /** The same after a resume. */
  lemma {:induction false} DueAfterResume(o: Office, run: Id, prior: MaintenanceRun, w: Option<string>, clock: Time, at: Time)
    requires Resumable(o, run, prior) && (w.Some? ==> w.value in o.workers) && o.schedules[prior.schedule].enabled
    ensures var o', id := Resume(o, run, w, clock).office, prior.schedule;
      && id in o'.schedules
      && (Due(o'.schedules[id], at) <==> clock + 3600 * o.schedules[id].cadenceHours <= at)
  {
    ResumeIgnoresLease(o, run, prior, w, clock);
  }

  /** Whoever calls, a daily schedule has at most one due completion in any window shorter than a
      day of 86400 seconds. */
  lemma {:induction false} DailyOnce(o: Office, run: seq<Timed>, id: Id, a: Time, length: nat)
    requires Valid(o) && id in o.schedules && o.schedules[id].cadenceHours == 24 && Monotone(run)
    requires length < 86400
    ensures |Within(Completions(o, run, id), a, a + length)| <= 1
  {
    RateBound(o, run, id, a, length);
  }

  lemma {:induction false} SpacedBound(times: seq<Time>, gap: int, a: Time, length: nat)
    requires Spaced(times, gap) && gap > 0
    ensures forall i, j :: 0 <= i <= j < |times| ==> times[j] - times[i] >= (j - i) * gap
    ensures |Within(times, a, a + length)| <= length / gap + 1
  {
    forall i, j | 0 <= i <= j < |times|
      ensures times[j] - times[i] >= (j - i) * gap
    {
      SpacedApart(times, gap, i, j);
    }
    WindowCount(times, gap, a, a + length);
    var count := |Within(times, a, a + length)|;
    if count > 0 {
      GapsMultiply(count - 1, gap);
      WholeGaps(count - 1, gap, length);
    } else {
      WholeGaps(0, gap, length);
    }
  }
}
