/** The maintenance lease protocol: workers claim due schedules under expiring leases, run them,
    are interrupted and resumed, and are reclaimed when their heartbeat goes stale
    (memory/maintenance_service.py and memory/matrix.py). Instants count seconds. */
module Lease {
  import opened Prelude

  // ---------------------------------------------------------------------- records

  datatype Schedule = Schedule(
    scope: string, cadenceHours: int, enabled: bool, next: Time, last: Option<Time>, updatedAt: Time,
    claimedBy: Option<string>, lease: Option<Time>)

  datatype Mode = Idle | Busy | Reclaimed

  datatype Worker = Worker(stale: bool, mode: Mode, heartbeat: Time, claimed: set<Id>, active: set<Id>)

  datatype MaintenanceRun = MaintenanceRun(
    id: Id, schedule: Id, scope: string, interrupted: bool, claimedBy: Option<string>, resumedFrom: Option<Id>)

  /** The maintenance dictionaries; `order` and `roster` list their keys in insertion order. */
  datatype Office = Office(
    order: seq<Id>, schedules: map<Id, Schedule>, roster: seq<string>, workers: map<string, Worker>,
    runs: seq<MaintenanceRun>, nextId: Id)

  /** What a call leaves behind, whether it returned or raised. */
  datatype Reply = Returned(office: Office) | Raised(office: Office)

  // ------------------------------------------------------------------------ workers

  /** register_maintenance_worker: a known worker's record starts afresh. */
  function Register(o: Office, w: string, clock: Time): Office {
    o.(roster := if w in o.workers then o.roster else o.roster + [w],
       workers := o.workers[w := Worker(false, Idle, clock, {}, {})])
  }

  /** heartbeat_maintenance_worker */
  function Heartbeat(o: Office, w: string, mode: Option<Mode>, clock: Time): Reply {
    if w !in o.workers then Raised(o)
    else
      var worker := o.workers[w];
      Returned(o.(workers := o.workers[w := worker.(heartbeat := clock,
        mode := if mode.Some? then mode.value else worker.mode)]))
  }

  // ---------------------------------------------------------------------- schedules

  const HOUR := 3600

  /** schedule_background_maintenance */
  function Plan(o: Office, scope: string, cadenceHours: int, startAt: Option<Time>, clock: Time): Office {
    var s := Schedule(scope, cadenceHours, true, if startAt.Some? then startAt.value else clock, None, clock, None, None);
    o.(order := o.order + [o.nextId], schedules := o.schedules[o.nextId := s], nextId := o.nextId + 1)
  }

  /** list_memory_maintenance_schedules: latest update first, ties in insertion order. */
  function LatestUpdateFirst(schedules: map<Id, Schedule>): Id -> SortKey {
    (id: Id) => if id in schedules then (-schedules[id].updatedAt, 0) else (0, 0)
  }

  function Listed(o: Office): seq<Id> {
    SortBy(o.order, LatestUpdateFirst(o.schedules))
  }

  // --------------------------------------------------------------------- due runs

  /** The arguments of run_due_background_maintenance, and the clock it reads. */
  datatype Call = Call(worker: Option<string>, interrupt: bool, leaseSeconds: int, at: Time, clock: Time)

  predicate Due(s: Schedule, at: Time) {
    s.enabled && s.next <= at
  }

  /** Another worker holds a lease that has not run out. */
  predicate Blocked(s: Schedule, w: string, at: Time) {
    s.claimedBy.Some? && s.claimedBy.value != w && s.lease.Some? && s.lease.value > at
  }

  predicate Takes(s: Schedule, c: Call) {
    Due(s, c.at) && (c.worker.Some? ==> !Blocked(s, c.worker.value, c.at))
  }

  function Claimed(s: Schedule, c: Call): Schedule {
    if c.worker.None? then s
    else s.(claimedBy := c.worker, lease := Some(c.at + c.leaseSeconds), updatedAt := c.clock)
  }

  function Completed(s: Schedule, at: Time, clock: Time): Schedule {
    s.(last := Some(at), next := at + s.cadenceHours * HOUR, claimedBy := None, lease := None, updatedAt := clock)
  }

  /** A schedule after the call has run it. */
  function Taken(s: Schedule, c: Call): Schedule {
    if c.interrupt then Claimed(s, c) else Completed(Claimed(s, c), c.at, c.clock)
  }

  /** The calling worker after it ran a schedule: an interrupted run stays active and claimed. */
  function Worked(w: Worker, id: Id, run: Id, c: Call): Worker {
    if c.interrupt
    then w.(mode := Busy, heartbeat := c.clock, claimed := w.claimed + {id}, active := w.active + {run})
    else w.(mode := Idle, heartbeat := c.clock, claimed := w.claimed + {id} - {id}, active := w.active + {run} - {run})
  }

  function WithWorked(o: Office, id: Id, c: Call): map<string, Worker> {
    if c.worker.Some? && c.worker.value in o.workers
    then o.workers[c.worker.value := Worked(o.workers[c.worker.value], id, o.nextId, c)]
    else o.workers
  }

  /** One turn of the loop over the listed schedules. */
  function Visit(o: Office, id: Id, c: Call): Office {
    if id !in o.schedules || !Takes(o.schedules[id], c) then o
    else
      var s := o.schedules[id];
      o.(schedules := o.schedules[id := Taken(s, c)], workers := WithWorked(o, id, c),
         runs := o.runs + [MaintenanceRun(o.nextId, id, s.scope, c.interrupt, c.worker, None)], nextId := o.nextId + 1)
  }

  function VisitAll(o: Office, ids: seq<Id>, c: Call): Office {
    if ids == [] then o else Visit(VisitAll(o, ids[..|ids| - 1], c), ids[|ids| - 1], c)
  }

  function TakenIds(o: Office, ids: seq<Id>, c: Call): seq<Id> {
    Filter(ids, (id: Id) => id in o.schedules && Takes(o.schedules[id], c))
  }

  /** An unknown worker claims the first schedule it would run, and then fails. */
  function ClaimFirst(o: Office, c: Call): Reply {
    var taken := TakenIds(o, Listed(o), c);
    if taken == [] then Returned(o)
    else Raised(o.(schedules := o.schedules[taken[0] := Claimed(o.schedules[taken[0]], c)]))
  }

  /** run_due_background_maintenance */
  function RunDue(o: Office, c: Call): Reply {
    if c.worker.Some? && c.worker.value !in o.workers then ClaimFirst(o, c)
    else Returned(VisitAll(o, Listed(o), c))
  }

  /** run_maintenance_worker_cycle */
  function Cycle(o: Office, w: string, c: Call): Reply {
    if w !in o.workers then Raised(o)
    else
      var begun := Heartbeat(o, w, Some(Busy), c.clock).office;
      var ran := RunDue(begun, c.(worker := Some(w))).office;
      Returned(Heartbeat(ran, w, Some(if |ran.runs| > |begun.runs| then Busy else Idle), c.clock).office)
  }

  // ------------------------------------------------------------------------- resuming

  function FindRun(runs: seq<MaintenanceRun>, id: Id): (r: Option<MaintenanceRun>)
    ensures r.Some? ==> r.value in runs && r.value.id == id
    ensures r.None? ==> forall i :: 0 <= i < |runs| ==> runs[i].id != id
  {
    if runs == [] then None
    else if runs[|runs| - 1].id == id then Some(runs[|runs| - 1])
    else FindRun(runs[..|runs| - 1], id)
  }

  function CompleteSchedule(schedules: map<Id, Schedule>, id: Id, clock: Time): map<Id, Schedule> {
    if id in schedules then schedules[id := Completed(schedules[id], clock, clock)] else schedules
  }

  /** The resuming worker lets go of both runs and of the schedule. */
  function Released(w: Worker, prior: MaintenanceRun, resumed: Id, clock: Time): Worker {
    w.(mode := Idle, heartbeat := clock, active := w.active - {prior.id, resumed}, claimed := w.claimed - {prior.schedule})
  }

  /** The writes of resume_background_maintenance for an interrupted run; the holder is registered. */
  function Resuming(o: Office, prior: MaintenanceRun, w: Option<string>, holder: string, clock: Time): Office
    requires holder in o.workers && (w.Some? ==> w.value == holder)
  {
    var worker := o.workers[holder].(active := o.workers[holder].active + {o.nextId});
    o.(schedules := CompleteSchedule(o.schedules, prior.schedule, clock),
       workers := o.workers[holder := if w.Some? then Released(worker, prior, o.nextId, clock) else worker],
       runs := o.runs + [MaintenanceRun(o.nextId, prior.schedule, prior.scope, false, Some(holder), Some(prior.id))],
       nextId := o.nextId + 1)
  }

  /** The same when nobody held the prior run. */
  function ResumingUnheld(o: Office, prior: MaintenanceRun, clock: Time): Office {
    o.(schedules := CompleteSchedule(o.schedules, prior.schedule, clock),
       runs := o.runs + [MaintenanceRun(o.nextId, prior.schedule, prior.scope, false, None, Some(prior.id))],
       nextId := o.nextId + 1)
  }

  /** resume_background_maintenance: an unknown run raises; a run that was not interrupted is
      returned as it is; an unknown worker raises once the new run is recorded. */
  function Resume(o: Office, runId: Id, w: Option<string>, clock: Time): Reply {
    var found := FindRun(o.runs, runId);
    if found.None? then Raised(o)
    else if !found.value.interrupted then Returned(o)
    else
      var prior := found.value;
      var holder := if w.Some? then w else prior.claimedBy;
      if holder.None? then Returned(ResumingUnheld(o, prior, clock))
      else if holder.value in o.workers then Returned(Resuming(o, prior, w, holder.value, clock))
      else Raised(o.(runs := o.runs + [MaintenanceRun(o.nextId, prior.schedule, prior.scope, false, holder, None)],
                     nextId := o.nextId + 1))
  }

  // ----------------------------------------------------------------------- reclaiming

  /** Every schedule in the list is freed, whoever holds it. */
  function Free(schedules: map<Id, Schedule>, ids: set<Id>, clock: Time): map<Id, Schedule> {
    map id | id in schedules ::
      if id in ids then schedules[id].(claimedBy := None, lease := None, updatedAt := clock) else schedules[id]
  }

  predicate Reclaims(w: Worker, cutoff: Time) {
    w.heartbeat < cutoff && !w.stale
  }

  function ReclaimOne(o: Office, w: string, cutoff: Time, clock: Time): Office {
    if w !in o.workers || !Reclaims(o.workers[w], cutoff) then o
    else
      var worker := o.workers[w];
      o.(workers := o.workers[w := worker.(stale := true, mode := Reclaimed, claimed := {}, active := {})],
         schedules := Free(o.schedules, worker.claimed, clock))
  }

  function ReclaimAll(o: Office, names: seq<string>, cutoff: Time, clock: Time): Office {
    if names == [] then o
    else ReclaimOne(ReclaimAll(o, names[..|names| - 1], cutoff, clock), names[|names| - 1], cutoff, clock)
  }

  /** list_memory_maintenance_workers: latest heartbeat first. */
  function LatestHeartbeatFirst(workers: map<string, Worker>): string -> SortKey {
    (w: string) => if w in workers then (-workers[w].heartbeat, 0) else (0, 0)
  }

  function ListedWorkers(o: Office): seq<string> {
    SortBy(o.roster, LatestHeartbeatFirst(o.workers))
  }

  /** reclaim_stale_maintenance_workers */
  function Reclaim(o: Office, at: Time, expirySeconds: int, clock: Time): Office {
    ReclaimAll(o, ListedWorkers(o), at - expirySeconds, clock)
  }

  // ---------------------------------------------------------------------------- runs

  datatype Event =
    | RegisterIt(name: string)
    | BeatIt(name: string, mode: Option<Mode>)
    | PlanIt(scope: string, cadenceHours: int, startAt: Option<Time>)
    | CycleIt(name: string, call: Call)
    | RunIt(call: Call)
    | ResumeIt(run: Id, worker: Option<string>)
    | ReclaimIt(at: Time, expirySeconds: int)

  datatype Timed = At(event: Event, clock: Time)

  /** The office a call leaves behind. A cycle and a direct run read the event's clock. */
  function Step(o: Office, t: Timed): Office {
    match t.event
    case RegisterIt(w) => Register(o, w, t.clock)
    case BeatIt(w, mode) => Heartbeat(o, w, mode, t.clock).office
    case PlanIt(scope, cadence, startAt) => Plan(o, scope, cadence, startAt, t.clock)
    case CycleIt(w, c) => Cycle(o, w, c.(clock := t.clock)).office
    case RunIt(c) => RunDue(o, c.(clock := t.clock)).office
    case ResumeIt(run, w) => Resume(o, run, w, t.clock).office
    case ReclaimIt(at, expiry) => Reclaim(o, at, expiry, t.clock)
  }

  const NOBODY := Office([], map[], [], map[], [], 0)

  function Run(o: Office, run: seq<Timed>): Office {
    if run == [] then o else Step(Run(o, run[..|run| - 1]), run[|run| - 1])
  }
}
