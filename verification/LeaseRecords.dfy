/** What the lease protocol leaves on record: planned, claimed and completed schedules, the runs of a
    call and of a resume, and the state of the worker (memory/maintenance_service.py, memory/matrix.py). */
module LeaseRecords {
  import opened Prelude
  import opened Lease
  import opened LeaseLaws
  import opened LeaseTiming

  /** A planned schedule is enabled, free and never run, and is due from its start, or from now, on. */
  lemma {:induction false} PlanRecords(o: Office, scope: string, cadence: int, startAt: Option<Time>, clock: Time, at: Time)
    ensures var o', start := Plan(o, scope, cadence, startAt, clock), if startAt.Some? then startAt.value else clock;
      && o.nextId in o'.schedules && o'.order == o.order + [o.nextId] && o'.nextId == o.nextId + 1
      && (forall id :: id in o.schedules && id != o.nextId ==> id in o'.schedules && o'.schedules[id] == o.schedules[id])
      && o'.workers == o.workers && o'.runs == o.runs
      && var s := o'.schedules[o.nextId];
         && s.scope == scope && s.cadenceHours == cadence && s.enabled && s.updatedAt == clock
         && s.claimedBy == None && s.lease == None && s.last == None
         && (Due(s, at) <==> start <= at)
  {
  }

  /** A registration, of a known or a new worker, leaves a fresh idle record and touches nothing else. */
  lemma {:induction false} RegisterRecords(o: Office, w: string, clock: Time)
    ensures var o' := Register(o, w, clock);
      && w in o'.workers && o'.workers[w].heartbeat == clock && o'.workers[w].mode == Idle && !o'.workers[w].stale
      && o'.workers[w].claimed == {} && o'.workers[w].active == {}
      && (forall v :: v in o.workers && v != w ==> v in o'.workers && o'.workers[v] == o.workers[v])
      && o'.roster == o.roster + (if w in o.workers then [] else [w])
      && o'.schedules == o.schedules && o'.runs == o.runs && o'.nextId == o.nextId
  {
  }

  /** A heartbeat moves the clock of one worker, and its mode where it names one. */
  lemma {:induction false} HeartbeatRecords(o: Office, w: string, mode: Option<Mode>, clock: Time)
    ensures w !in o.workers ==> Heartbeat(o, w, mode, clock) == Raised(o)
    ensures w in o.workers ==> var r := Heartbeat(o, w, mode, clock);
      && r.Returned? && r.office == o.(workers := r.office.workers) && r.office.workers.Keys == o.workers.Keys
      && (forall v :: v in o.workers && v != w ==> r.office.workers[v] == o.workers[v])
      && var was, now := o.workers[w], r.office.workers[w];
         && now.heartbeat == clock && mode in {Some(now.mode), None} && (mode == None ==> now.mode == was.mode)
         && now.stale == was.stale && now.claimed == was.claimed && now.active == was.active
  {
  }

  /** What a cycle leaves of a schedule it runs: completed, it is free again and remembers the instant;
      interrupted, it is held by the worker under a lease of the asked length and stays due. */
  lemma {:induction false} CycleRecords(o: Office, w: string, c: Call, id: Id)
    requires Valid(o) && w in o.workers && id in o.schedules && Takes(o.schedules[id], By(w, c))
    ensures var o' := Cycle(o, w, c).office;
      && id in o'.schedules
      && var was, now := o.schedules[id], o'.schedules[id];
         && now.scope == was.scope && now.cadenceHours == was.cadenceHours && now.enabled && now.updatedAt == c.clock
         && (!c.interrupt ==> now.last == Some(c.at) && now.claimedBy == None && now.lease == None)
         && (c.interrupt ==> now.last == was.last && now.next == was.next
                             && now.claimedBy == Some(w) && now.lease == Some(c.at + c.leaseSeconds))
  {
    CycleEffect(o, w, c);
  }

  /** A cycle leaves its worker busy exactly when it ran something. */
  lemma {:induction false} CycleLeavesBusyIff(o: Office, w: string, c: Call)
    requires Valid(o) && w in o.workers
    ensures var o' := Cycle(o, w, c).office;
      && w in o'.workers && o'.workers[w].heartbeat == c.clock
      && o'.workers[w].mode == if |o'.runs| > |o.runs| then Busy else Idle
  {
    var begun := Heartbeat(o, w, Some(Busy), c.clock).office;
    HeartbeatKeeps(o, w, Some(Busy), c.clock);
    RunDueEffect(begun, By(w, c));
  }

  lemma {:induction false} VisitAllBeats(o: Office, ids: seq<Id>, c: Call, w: string)
    requires Distinct(ids) && c.worker == Some(w) && w in o.workers
    ensures var was, after := o.workers[w], VisitAll(o, ids, c).workers;
      && w in after
      && (TakenIds(o, ids, c) == [] ==> after[w] == was)
      && (TakenIds(o, ids, c) != [] ==>
            after[w].heartbeat == c.clock && after[w].mode == (if c.interrupt then Busy else Idle))
  {
    if ids != [] {
      VisitAllBeats(o, ids[..|ids| - 1], c, w);
      VisitLast(o, ids, c);
    }
  }

  /** A direct run by a known worker moves its heartbeat and mode exactly when it runs something. */
  lemma {:induction false} DirectRunBeatsIff(o: Office, c: Call, w: string)
    requires Valid(o) && c.worker == Some(w) && w in o.workers
    ensures var was, o' := o.workers[w], RunDue(o, c).office;
      && w in o'.workers
      && (TakenSet(o, c) == {} ==> o'.workers[w] == was)
      && (TakenSet(o, c) != {} ==>
            o'.workers[w].heartbeat == c.clock && o'.workers[w].mode == (if c.interrupt then Busy else Idle))
  {
    ListedOnce(o);
    TakenElements(o, c);
    VisitAllBeats(o, Listed(o), c, w);
    var taken := TakenIds(o, Listed(o), c);
    if taken != [] {
      assert taken[0] in Elements(taken);
    }
  }

  /** Schedules are run in the order of their last update, the latest first, and of equally late ones
      the one planned first. */
  lemma {:induction false} ListedLatestFirst(o: Office, i: nat, j: nat)
    requires Valid(o) && i < j < |Listed(o)|
    ensures Listed(o)[i] in o.schedules && Listed(o)[j] in o.schedules
    ensures var a, b := Listed(o)[i], Listed(o)[j];
      o.schedules[a].updatedAt > o.schedules[b].updatedAt
      || (o.schedules[a].updatedAt == o.schedules[b].updatedAt && a < b)
  {
    ListedOnce(o);
    var key := LatestUpdateFirst(o.schedules);
    SortSorts(o.order, key);
    assert TiesByRank(o.order, key, Rank) by {
      assert forall k, l :: 0 <= k < l < |o.order| ==> Rank(o.order[k]) < Rank(o.order[l]);
    }
    SortStable(o.order, key, Rank);
    assert KeyLe(key(Listed(o)[i]), key(Listed(o)[j]));
    assert Listed(o)[i] in Listed(o) && Listed(o)[j] in Listed(o);
  }

  /** The run a resume records: over the schedule and scope of the interrupted run, in the name of the
      worker that resumes or else of the one that held it, not interrupted, and naming the run resumed. */
  lemma {:induction false} ResumeRecords(o: Office, run: Id, prior: MaintenanceRun, w: Option<string>, clock: Time)
    requires Resumable(o, run, prior) && (w.Some? ==> w.value in o.workers)
    ensures var o' := Resume(o, run, w, clock).office;
      && |o'.runs| == |o.runs| + 1 && o'.runs[..|o.runs|] == o.runs
      && var r := o'.runs[|o.runs|];
         && r.id == o.nextId && r.schedule == prior.schedule && r.scope == prior.scope && !r.interrupted
         && r.resumedFrom == Some(run) && r.claimedBy == (if w.Some? then w else prior.claimedBy)
  {
  }

  /** A resume by a worker leaves it idle, with neither run active and without the claim; a resume of a
      run that was not interrupted changes nothing, and of an unknown run raises. */
  lemma {:induction false} ResumeLeaves(o: Office, run: Id, w: Option<string>, clock: Time)
    ensures FindRun(o.runs, run).None? ==> Resume(o, run, w, clock) == Raised(o)
    ensures FindRun(o.runs, run).Some? && !FindRun(o.runs, run).value.interrupted ==> Resume(o, run, w, clock) == Returned(o)
    ensures FindRun(o.runs, run).Some? && FindRun(o.runs, run).value.interrupted && w.Some? && w.value in o.workers ==>
      var r := Resume(o, run, w, clock);
      && r.Returned? && w.value in r.office.workers
      && var now := r.office.workers[w.value];
         now.mode == Idle && run !in now.active && o.nextId !in now.active && FindRun(o.runs, run).value.schedule !in now.claimed
  {
  }
}
