/** The maintenance dictionaries as the service keeps them: schedule and worker records updated
    in place. Each method leaves exactly the office that the lease protocol specifies
    (memory/maintenance_service.py and memory/matrix.py). */
module LeaseEngine {
  import opened Prelude
  import opened Lease
  import opened LeaseLaws

  class ScheduleRecord {
    const scope: string
    const cadenceHours: int
    var enabled: bool
    var next: Time
    var last: Option<Time>
    var updatedAt: Time
    var claimedBy: Option<string>
    var lease: Option<Time>

    constructor (scope: string, cadenceHours: int, next: Time, clock: Time)
      ensures Rec() == Schedule(scope, cadenceHours, true, next, None, clock, None, None)
    {
      this.scope, this.cadenceHours, this.next := scope, cadenceHours, next;
      enabled, last, updatedAt, claimedBy, lease := true, None, clock, None, None;
    }

    function Rec(): Schedule
      reads this
    {
      Schedule(scope, cadenceHours, enabled, next, last, updatedAt, claimedBy, lease)
    }

    method Claim(c: Call)
      requires c.worker.Some?
      modifies this
      ensures Rec() == Claimed(old(Rec()), c)
    {
      claimedBy, lease, updatedAt := c.worker, Some(c.at + c.leaseSeconds), c.clock;
    }

    method Complete(at: Time, clock: Time)
      modifies this
      ensures Rec() == Completed(old(Rec()), at, clock)
    {
      last, next := Some(at), at + cadenceHours * HOUR;
      claimedBy, lease, updatedAt := None, None, clock;
    }

    method Release(clock: Time)
      modifies this
      ensures Rec() == Unclaimed(old(Rec()), clock)
    {
      claimedBy, lease, updatedAt := None, None, clock;
    }
  }

  class WorkerRecord {
    var stale: bool
    var mode: Mode
    var heartbeat: Time
    var claimed: set<Id>
    var active: set<Id>

    constructor (clock: Time)
      ensures Rec() == Worker(false, Idle, clock, {}, {})
    {
      stale, mode, heartbeat, claimed, active := false, Idle, clock, {}, {};
    }

    function Rec(): Worker
      reads this
    {
      Worker(stale, mode, heartbeat, claimed, active)
    }

    method Beat(mode: Option<Mode>, clock: Time)
      modifies this
      ensures Rec() == old(Rec()).(heartbeat := clock, mode := if mode.Some? then mode.value else old(this.mode))
    {
      heartbeat := clock;
      if mode.Some? {
        this.mode := mode.value;
      }
    }

    /** Run a schedule: list it and the run, and drop both again when the run completed. */
    method Work(id: Id, run: Id, c: Call)
      modifies this
      ensures Rec() == Worked(old(Rec()), id, run, c)
    {
      mode, heartbeat, claimed := Busy, c.clock, claimed + {id};
      active := active + {run};
      if !c.interrupt {
        mode, heartbeat := Idle, c.clock;
        active, claimed := active - {run}, claimed - {id};
      }
    }

    method Start(run: Id)
      modifies this
      ensures Rec() == old(Rec()).(active := old(active) + {run})
    {
      active := active + {run};
    }

    method LetGo(prior: MaintenanceRun, resumed: Id, clock: Time)
      modifies this
      ensures Rec() == Released(old(Rec()), prior, resumed, clock)
    {
      mode := Idle;
      active := active - {prior.id, resumed};
      claimed := claimed - {prior.schedule};
      heartbeat := clock;
    }

    method Retire() returns (listed: set<Id>)
      modifies this
      ensures Rec() == Retired(old(Rec())) && listed == old(claimed)
    {
      stale, mode, active := true, Reclaimed, {};
      listed := claimed;
      claimed := {};
    }
  }

  class Engine {
    var order: seq<Id>
    var schedules: map<Id, ScheduleRecord>
    var roster: seq<string>
    var workers: map<string, WorkerRecord>
    var runs: seq<MaintenanceRun>
    var nextId: Id

    constructor ()
      ensures Separate() && View() == NOBODY && schedules == map[] && workers == map[]
    {
      order, schedules, roster, workers, runs, nextId := [], map[], [], map[], [], 0;
    }

    /** No two keys share a record. */
    ghost predicate Separate()
      reads `schedules, `workers
    {
      && (forall a, b :: a in schedules && b in schedules && a != b ==> schedules[a] != schedules[b])
      && (forall a, b :: a in workers && b in workers && a != b ==> workers[a] != workers[b])
    }

    function ScheduleView(): map<Id, Schedule>
      reads `schedules, schedules.Values
    {
      map id | id in schedules :: schedules[id].Rec()
    }

    function WorkerView(): map<string, Worker>
      reads `workers, workers.Values
    {
      map w | w in workers :: workers[w].Rec()
    }

    /** The dictionaries with each record's current fields. */
    function View(): Office
      reads this, schedules.Values, workers.Values
    {
      Office(order, ScheduleView(), roster, WorkerView(), runs, nextId)
    }

    /** Only the record under one key changed. */
    twostate lemma {:induction false} ScheduleChanged(id: Id)
      requires old(Separate()) && schedules == old(schedules) && id in schedules
      requires forall other :: other in schedules && other != id ==> unchanged(schedules[other])
      ensures ScheduleView() == old(ScheduleView())[id := schedules[id].Rec()]
    {
    }

    twostate lemma {:induction false} WorkerChanged(w: string)
      requires old(Separate()) && workers == old(workers) && w in workers
      requires forall other :: other in workers && other != w ==> unchanged(workers[other])
      ensures WorkerView() == old(WorkerView())[w := workers[w].Rec()]
    {
    }

    /** One key was added, or given another record. */
    twostate lemma {:induction false} ScheduleAdded(id: Id, new record: ScheduleRecord)
      requires schedules == old(schedules)[id := record]
      requires forall other :: other in old(schedules) ==> unchanged(old(schedules)[other])
      ensures ScheduleView() == old(ScheduleView())[id := record.Rec()]
    {
    }

    twostate lemma {:induction false} WorkerAdded(w: string, new record: WorkerRecord)
      requires workers == old(workers)[w := record]
      requires forall other :: other in old(workers) ==> unchanged(old(workers)[other])
      ensures WorkerView() == old(WorkerView())[w := record.Rec()]
    {
    }

    /** register_maintenance_worker */
    method Register(w: string, clock: Time)
      requires Separate()
      modifies this
      ensures Separate() && View() == Lease.Register(old(View()), w, clock)
      ensures w in workers && fresh(workers[w]) && workers == old(workers)[w := workers[w]]
      ensures schedules == old(schedules)
    {
      var record := new WorkerRecord(clock);
      if w !in workers {
        roster := roster + [w];
      }
      workers := workers[w := record];
      WorkerAdded(w, record);
      assert ScheduleView() == old(ScheduleView());
    }

    /** heartbeat_maintenance_worker */
    method Heartbeat(w: string, mode: Option<Mode>, clock: Time) returns (raised: bool)
      requires Separate()
      modifies workers.Values
      ensures var reply := Lease.Heartbeat(old(View()), w, mode, clock);
        View() == reply.office && raised == reply.Raised?
    {
      if w !in workers {
        return true;
      }
      workers[w].Beat(mode, clock);
      WorkerChanged(w);
      assert ScheduleView() == old(ScheduleView());
      raised := false;
    }

    /** schedule_background_maintenance; the identifier it issues is fresh. */
    method Plan(scope: string, cadenceHours: int, startAt: Option<Time>, clock: Time) returns (id: Id)
      requires Separate() && nextId !in schedules
      modifies this
      ensures Separate() && View() == Lease.Plan(old(View()), scope, cadenceHours, startAt, clock)
      ensures id in schedules && fresh(schedules[id]) && schedules == old(schedules)[id := schedules[id]]
      ensures workers == old(workers)
    {
      var next := if startAt.Some? then startAt.value else clock;
      var record := new ScheduleRecord(scope, cadenceHours, next, clock);
      id := nextId;
      order := order + [id];
      schedules := schedules[id := record];
      nextId := nextId + 1;
      ScheduleAdded(id, record);
      assert WorkerView() == old(WorkerView());
    }

    /** The schedule's side of a due run: claim it, and complete it unless the run is interrupted. */
    method Take(id: Id, c: Call)
      requires Separate() && id in schedules && Takes(schedules[id].Rec(), c)
      modifies schedules.Values
      ensures ScheduleView() == old(ScheduleView())[id := Taken(old(schedules[id].Rec()), c)]
      ensures WorkerView() == old(WorkerView())
    {
      if c.worker.Some? {
        schedules[id].Claim(c);
      }
      if !c.interrupt {
        schedules[id].Complete(c.at, c.clock);
      }
      ScheduleChanged(id);
    }

    /** The worker's side of a due run. */
    method Book(id: Id, run: Id, c: Call)
      requires Separate() && c.worker.Some? && c.worker.value in workers
      modifies workers.Values
      ensures WorkerView() == old(WorkerView())[c.worker.value := Worked(old(workers[c.worker.value].Rec()), id, run, c)]
      ensures ScheduleView() == old(ScheduleView())
    {
      workers[c.worker.value].Work(id, run, c);
      WorkerChanged(c.worker.value);
    }

    /** A due schedule is run. */
    method RunTaken(id: Id, c: Call)
      requires Separate() && (c.worker.Some? ==> c.worker.value in workers)
      requires id in schedules && Takes(schedules[id].Rec(), c)
      modifies `runs, `nextId, schedules.Values, workers.Values
      ensures ScheduleView() == old(ScheduleView())[id := Taken(old(schedules[id].Rec()), c)]
      ensures c.worker.None? ==> WorkerView() == old(WorkerView())
      ensures c.worker.Some? ==>
        WorkerView() == old(WorkerView())[c.worker.value := Worked(old(workers[c.worker.value].Rec()), id, old(nextId), c)]
      ensures runs == old(runs) + [MaintenanceRun(old(nextId), id, schedules[id].scope, c.interrupt, c.worker, None)]
      ensures nextId == old(nextId) + 1
    {
      var run := MaintenanceRun(nextId, id, schedules[id].scope, c.interrupt, c.worker, None);
      nextId, runs := nextId + 1, runs + [run];
      Take(id, c);
      if c.worker.Some? {
        Book(id, run.id, c);
      }
    }

    /** One turn of the loop: run the schedule if it is due and free. */
    method RunOne(id: Id, c: Call)
      requires Separate() && (c.worker.Some? ==> c.worker.value in workers)
      modifies `runs, `nextId, schedules.Values, workers.Values
      ensures View() == Visit(old(View()), id, c)
    {
      if id in schedules && Takes(schedules[id].Rec(), c) {
        RunTaken(id, c);
      }
    }

    method ClaimOnly(id: Id, c: Call)
      requires Separate() && id in schedules && c.worker.Some?
      modifies schedules.Values
      ensures ScheduleView() == old(ScheduleView())[id := Claimed(old(schedules[id].Rec()), c)]
      ensures WorkerView() == old(WorkerView())
    {
      schedules[id].Claim(c);
      ScheduleChanged(id);
    }

    /** run_due_background_maintenance: an unknown worker claims the first schedule it would run,
        and then raises. */
    method RunDue(c: Call) returns (raised: bool)
      requires Separate()
      modifies `runs, `nextId, schedules.Values, workers.Values
      ensures View() == Lease.RunDue(old(View()), c).office
      ensures raised == Lease.RunDue(old(View()), c).Raised?
    {
      hide Visit, Listed, Takes;
      ghost var start := View();
      var listed := Listed(View());
      var known := c.worker.Some? ==> c.worker.value in workers;
      for i := 0 to |listed|
        invariant order == old(order) && schedules == old(schedules) && roster == old(roster) && workers == old(workers)
        invariant known ==> View() == VisitAll(start, listed[..i], c)
        invariant !known ==> View() == start && TakenIds(start, listed[..i], c) == []
      {
        assert listed[..i + 1][..i] == listed[..i];
        if known {
          RunOne(listed[i], c);
        } else if listed[i] in schedules && Takes(schedules[listed[i]].Rec(), c) {
          FirstTaken(start, i, c);
          ClaimOnly(listed[i], c);
          return true;
        }
      }
      assert listed[..|listed|] == listed;
      raised := false;
    }

    static lemma {:induction false} FirstTaken(o: Office, i: nat, c: Call)
      requires c.worker.Some? && c.worker.value !in o.workers
      requires i < |Listed(o)| && TakenIds(o, Listed(o)[..i], c) == []
      requires Listed(o)[i] in o.schedules && Takes(o.schedules[Listed(o)[i]], c)
      ensures var id := Listed(o)[i];
        Lease.RunDue(o, c) == Raised(o.(schedules := o.schedules[id := Claimed(o.schedules[id], c)]))
    {
      var ids := Listed(o);
      var p := (id: Id) => id in o.schedules && Takes(o.schedules[id], c);
      assert ids == ids[..i] + ([ids[i]] + ids[i + 1..]);
      FilterAppend(ids[..i], [ids[i]] + ids[i + 1..], p);
      FilterAppend([ids[i]], ids[i + 1..], p);
      assert TakenIds(o, ids, c)[0] == ids[i];
    }

    /** run_maintenance_worker_cycle */
    method RunCycle(w: string, c: Call) returns (raised: bool)
      requires Separate()
      modifies `runs, `nextId, schedules.Values, workers.Values
      ensures View() == Cycle(old(View()), w, c).office
      ensures raised == Cycle(old(View()), w, c).Raised?
    {
      raised := Heartbeat(w, Some(Busy), c.clock);
      if raised {
        return;
      }
      var before := |runs|;
      var failed := RunDue(c.(worker := Some(w)));
      var again := Heartbeat(w, Some(if |runs| > before then Busy else Idle), c.clock);
    }

    method CompleteResumed(id: Id, clock: Time)
      requires Separate()
      modifies schedules.Values
      ensures ScheduleView() == CompleteSchedule(old(ScheduleView()), id, clock)
      ensures WorkerView() == old(WorkerView())
    {
      if id in schedules {
        schedules[id].Complete(clock, clock);
        ScheduleChanged(id);
      }
    }

    /** The holder takes the resumed run up, and a resuming worker lets go of it again. */
    method Hold(prior: MaintenanceRun, w: Option<string>, holder: string, resumed: Id, clock: Time)
      requires Separate() && holder in workers
      modifies workers.Values
      ensures var worker := old(workers[holder].Rec()).(active := old(workers[holder].active) + {resumed});
        WorkerView() == old(WorkerView())[holder := if w.Some? then Released(worker, prior, resumed, clock) else worker]
      ensures ScheduleView() == old(ScheduleView())
    {
      workers[holder].Start(resumed);
      if w.Some? {
        workers[holder].LetGo(prior, resumed, clock);
      }
      WorkerChanged(holder);
    }

    /** Resume an interrupted run. */
    method Continue(prior: MaintenanceRun, w: Option<string>, holder: Option<string>, clock: Time)
      requires Separate() && (w.Some? ==> holder == w) && (holder.Some? ==> holder.value in workers)
      modifies `runs, `nextId, schedules.Values, workers.Values
      ensures View() == if holder.None? then ResumingUnheld(old(View()), prior, clock)
                        else Resuming(old(View()), prior, w, holder.value, clock)
    {
      hide CompleteSchedule, Released, FindRun, Separate;
      var resumed := MaintenanceRun(nextId, prior.schedule, prior.scope, false, holder, Some(prior.id));
      nextId, runs := nextId + 1, runs + [resumed];
      CompleteResumed(prior.schedule, clock);
      if holder.Some? {
        Hold(prior, w, holder.value, resumed.id, clock);
      }
    }

    /** resume_background_maintenance */
    method Resume(runId: Id, w: Option<string>, clock: Time) returns (raised: bool)
      requires Separate()
      modifies `runs, `nextId, schedules.Values, workers.Values
      ensures View() == Lease.Resume(old(View()), runId, w, clock).office
      ensures raised == Lease.Resume(old(View()), runId, w, clock).Raised?
    {
      hide Resuming, ResumingUnheld, ScheduleView;
      var found := FindRun(runs, runId);
      if found.None? {
        return true;
      }
      var prior := found.value;
      if !prior.interrupted {
        return false;
      }
      var holder := if w.Some? then w else prior.claimedBy;
      if holder.Some? && holder.value !in workers {
        runs := runs + [MaintenanceRun(nextId, prior.schedule, prior.scope, false, holder, None)];
        nextId := nextId + 1;
        return true;
      }
      Continue(prior, w, holder, clock);
      raised := false;
    }

    method FreeOne(id: Id, clock: Time)
      requires Separate()
      modifies schedules.Values
      ensures ScheduleView() == Free(old(ScheduleView()), {id}, clock)
      ensures WorkerView() == old(WorkerView())
    {
      if id in schedules {
        schedules[id].Release(clock);
        ScheduleChanged(id);
      }
    }

    /** Free the listed schedules one by one. */
    method FreeAll(ids: set<Id>, clock: Time)
      requires Separate()
      modifies schedules.Values
      ensures ScheduleView() == Free(old(ScheduleView()), ids, clock)
      ensures WorkerView() == old(WorkerView())
    {
      var todo := ids;
      assert ids - todo == {};
      while todo != {}
        invariant todo <= ids
        invariant ScheduleView() == Free(old(ScheduleView()), ids - todo, clock)
        invariant WorkerView() == old(WorkerView())
        decreases todo
      {
        var id :| id in todo;
        FreeOne(id, clock);
        FreeOneMore(old(ScheduleView()), ids - todo, id, clock);
        assert ids - (todo - {id}) == (ids - todo) + {id};
        todo := todo - {id};
      }
      assert ids - todo == ids;
    }

    static lemma {:induction false} FreeOneMore(schedules: map<Id, Schedule>, freed: set<Id>, id: Id, clock: Time)
      ensures Free(Free(schedules, freed, clock), {id}, clock) == Free(schedules, freed + {id}, clock)
    {
    }

    method ReclaimWorker(w: string, cutoff: Time, clock: Time)
      requires Separate()
      modifies schedules.Values, workers.Values
      ensures View() == ReclaimOne(old(View()), w, cutoff, clock)
    {
      if w in workers && Reclaims(workers[w].Rec(), cutoff) {
        var listed := workers[w].Retire();
        WorkerChanged(w);
        assert ScheduleView() == old(ScheduleView());
        FreeAll(listed, clock);
      }
    }

    /** reclaim_stale_maintenance_workers */
    method Reclaim(at: Time, expirySeconds: int, clock: Time)
      requires Separate()
      modifies schedules.Values, workers.Values
      ensures View() == Lease.Reclaim(old(View()), at, expirySeconds, clock)
    {
      var cutoff := at - expirySeconds;
      var names := ListedWorkers(View());
      ghost var start := View();
      for i := 0 to |names|
        invariant View() == ReclaimAll(start, names[..i], cutoff, clock)
      {
        assert names[..i + 1][..i] == names[..i];
        ReclaimWorker(names[i], cutoff, clock);
      }
      assert names[..|names|] == names;
    }
  }
}
