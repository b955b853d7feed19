/**
 How jobs get on: what a worker does next from every reachable state, how a job
 is resumed after a restart, and that every acceptable job that fits the budget
 and the disk can be completed.
 */
module QueueProgress {
  import opened JobStore
  import opened QueueDisk
  import opened QueueInvariant
  import opened QueueOps
  import opened QueueProtocol
  import opened QueueQuiet
  import opened QueueSafety
  import opened QueueStops
  import opened QueueTheorems
  import opened Reservation
  import opened Sums
  import opened Wrappers

  /** The mutex is free, and worker `w` is at `pc` with this record of its job, which has a row. */
  predicate Stands(s: State, w: nat, id: Id, pc: PC, t: Task) {
    && s.scan == None && w < |s.workers| && s.workers[w].id == id && s.workers[w].pc == pc
    && id in s.mem.tasks && s.mem.tasks[id] == t && t.job.id == id && t.running && id in s.db.rows
  }

  function Restaged(t: Task, stage: Stage): Task {
    t.(job := t.job.(status := stage, stage := stage))
  }

  // -------------------------------------------------------------------------- single steps

  lemma ReadJobGoes(c: Config, s: State, w: nat, id: Id, t: Task)
    requires Stands(s, w, id, Launched, t)
    ensures Stands(Step(c, s, ReadJob(w)), w, id, if t.job.status in {Stopped, Failed, Completed}
                                                  then Finishing(t.job.status) else Preparing, t)
  {
  }

  lemma SaveGoes(c: Config, s: State, w: nat, id: Id, pc: PC, t: Task, stage: Stage, next: PC)
    requires Stands(s, w, id, pc, t) && t.job.status != Stopped
    ensures Stands(SaveStep(s, w, stage, next, NoFault), w, id, next, Restaged(t, stage))
    ensures SaveStep(s, w, stage, next, NoFault).db.metrics == s.db.metrics
  {
  }

  lemma StartGoes(c: Config, s: State, w: nat, id: Id, t: Task)
    requires Stands(s, w, id, Preparing, t) && t.job.status != Stopped
    ensures Stands(Step(c, s, SaveStarted(w, NoFault)), w, id, AwaitingInfo, Restaged(t, Started))
  {
    hide SaveStep;
    SaveGoes(c, s, w, id, Preparing, t, Started, AwaitingInfo);
  }

  lemma MeasureGoes(c: Config, s: State, w: nat, id: Id, t: Task, info: Info)
    requires Stands(s, w, id, AwaitingInfo, t) && Measured(t.job, info).Some?
    ensures var (size, reserve) := Measured(t.job, info).value;
            Stands(Step(c, s, Measure(w, info)), w, id,
                   if reserve <= c.maxActive then AwaitingCapacity else Exiting(Failed),
                   t.(job := t.job.(name := c.text(info.name), size := size as int, reserved := reserve as int)))
  {
    hide Measured;
  }

  lemma DownloadGoes(c: Config, s: State, w: nat, id: Id, t: Task)
    requires Stands(s, w, id, Admitted, t) && t.job.status != Stopped
    ensures Stands(Step(c, s, SaveDownloading(w, NoFault)), w, id, Fetching, Restaged(t, Downloading))
    ensures Step(c, s, SaveDownloading(w, NoFault)).db.metrics == s.db.metrics
  {
    hide SaveStep;
    SaveGoes(c, s, w, id, Admitted, t, Downloading, Fetching);
  }

  lemma ZipGoes(c: Config, s: State, w: nat, id: Id, t: Task)
    requires Stands(s, w, id, Fetching, t) && t.job.status != Stopped && t.job.zipped
    ensures Stands(Step(c, s, SaveZipping(w, NoFault)), w, id, Packing, Restaged(t, Zipping))
    ensures Step(c, s, SaveZipping(w, NoFault)).db.metrics == s.db.metrics
  {
    hide SaveStep;
    SaveGoes(c, s, w, id, Fetching, t, Zipping, Packing);
  }

  lemma UploadGoes(c: Config, s: State, w: nat, id: Id, pc: PC, t: Task)
    requires Stands(s, w, id, pc, t) && t.job.status != Stopped
    requires pc == Packing || (pc == Fetching && !t.job.zipped)
    ensures Stands(Step(c, s, SaveUploading(w, NoFault)), w, id, UploadPersisted, Restaged(t, Uploading))
    ensures Step(c, s, SaveUploading(w, NoFault)).db.metrics == s.db.metrics
  {
    hide SaveStep;
    SaveGoes(c, s, w, id, pc, t, Uploading, UploadPersisted);
  }

  lemma BeginGoes(c: Config, s: State, w: nat, id: Id, t: Task)
    requires Stands(s, w, id, UploadPersisted, t)
    ensures Stands(Step(c, s, BeginUpload(w)), w, id, Sending, t)
    ensures Step(c, s, BeginUpload(w)).db.metrics == s.db.metrics
  {
  }

  lemma AnswerGoes(c: Config, s: State, w: nat, id: Id, t: Task)
    requires Stands(s, w, id, Sending, t)
    ensures Stands(Step(c, s, UploadDone(w)), w, id, Exiting(Completed), t)
    ensures Step(c, s, UploadDone(w)).db == s.db && id in Step(c, s, UploadDone(w)).hist.answered
  {
  }

  lemma FailGoes(c: Config, s: State, w: nat, id: Id, pc: PC, t: Task)
    requires Stands(s, w, id, pc, t) && CanFail(pc)
    ensures Stands(Step(c, s, Fail(w)), w, id, Exiting(Failed), t)
    ensures Step(c, s, Fail(w)).db == s.db
  {
  }

  lemma LookGoes(c: Config, s: State, w: nat, id: Id, outcome: Stage, t: Task)
    requires Stands(s, w, id, Exiting(outcome), t)
    ensures Stands(Step(c, s, CheckStopped(w)), w, id,
                   Finishing(if t.job.status == Stopped then Stopped else outcome), t)
    ensures Step(c, s, CheckStopped(w)).db == s.db
  {
  }

  lemma FinishGoes(c: Config, s: State, w: nat, id: Id, outcome: Stage, t: Task, day: int)
    requires Stands(s, w, id, Finishing(outcome), t) && outcome in {Stopped, Failed, Completed}
    ensures var s', key := Step(c, s, Finish(w, NoFault, NoFault, day)), MetricKey(day, outcome);
            && id !in s'.mem.tasks && id !in s'.db.rows && id in s'.hist.removed
            && s'.hist.removed[id] == Removal(key, t.job.size)
            && JobsCounted(s'.db, key) == JobsCounted(s.db, key) + 1
            && BytesCounted(s'.db, key) == BytesCounted(s.db, key) + t.job.size
            && (forall k :: k != key ==> JobsCounted(s'.db, k) == JobsCounted(s.db, k)
                                         && BytesCounted(s'.db, k) == BytesCounted(s.db, k))
            && s'.workers[w].pc == Cleaning(outcome)
  {
  }

  // ---------------------------------------------------------------------------- how jobs end

  /** What a reachable state says about a live worker whose job is not stopped. */
  lemma StandsHere(c: Config, s: State, w: nat)
    requires ValidConfig(c) && Reachable(c, s) && s.scan == None && w < |s.workers| && Live(s.workers[w].pc)
    requires s.workers[w].id in s.mem.tasks ==> s.mem.tasks[s.workers[w].id].job.status !in {Stopped, Failed, Completed}
    ensures s.workers[w].id in s.mem.tasks
    ensures Stands(s, w, s.workers[w].id, s.workers[w].pc, s.mem.tasks[s.workers[w].id])
    ensures WorkerInv(c, ViewOf(s, s.workers[w].id), s.workers[w].pc)
  {
    ReachableWorker(c, s, w);
    ReachableId(c, s, s.workers[w].id);
    hide Reachable;
  }

  /** An upload that is answered ends as completed, and is counted once, with its size. */
  lemma AnswerCompletes(c: Config, s: State, w: nat, day: int)
    requires ValidConfig(c) && Reachable(c, s) && s.scan == None && w < |s.workers| && s.workers[w].pc == Sending
    ensures var id, key := s.workers[w].id, MetricKey(day, Completed);
            var s' := Step(c, Step(c, Step(c, s, UploadDone(w)), CheckStopped(w)), Finish(w, NoFault, NoFault, day));
            && id in s.mem.tasks && id in s'.hist.removed
            && s'.hist.removed[id] == Removal(key, s.mem.tasks[id].job.size)
            && JobsCounted(s'.db, key) == JobsCounted(s.db, key) + 1
            && BytesCounted(s'.db, key) == BytesCounted(s.db, key) + s.mem.tasks[id].job.size
  {
    hide Reachable, Step, Stands, JobsCounted, BytesCounted;
    var id := s.workers[w].id;
    SendingUploads(c, s, w);
    StandsHere(c, s, w);
    var t := s.mem.tasks[id];
    AnswerGoes(c, s, w, id, t);
    var s1 := Step(c, s, UploadDone(w));
    LookGoes(c, s1, w, id, Completed, t);
    var s2 := Step(c, s1, CheckStopped(w));
    FinishGoes(c, s2, w, id, Completed, t, day);
    SameCounts(s.db, s1.db, MetricKey(day, Completed));
    SameCounts(s.db, s2.db, MetricKey(day, Completed));
  }

  lemma SendingUploads(c: Config, s: State, w: nat)
    requires ValidConfig(c) && Reachable(c, s) && w < |s.workers| && s.workers[w].pc == Sending
    ensures s.workers[w].id in s.mem.tasks && s.mem.tasks[s.workers[w].id].job.status == Uploading
  {
    ReachableWorker(c, s, w);
    hide Reachable;
  }

  lemma SameCounts(a: Db, b: Db, key: MetricKey)
    requires a.metrics == b.metrics
    ensures JobsCounted(a, key) == JobsCounted(b, key) && BytesCounted(a, key) == BytesCounted(b, key)
  {
  }

  /** A worker that gives up ends its job as failed, unless the job has been stopped. */
  lemma FailureCounts(c: Config, s: State, w: nat, day: int)
    requires ValidConfig(c) && Reachable(c, s) && s.scan == None && w < |s.workers| && CanFail(s.workers[w].pc)
    requires s.workers[w].id in s.mem.tasks && s.workers[w].id in s.db.rows
    ensures var id, t := s.workers[w].id, s.mem.tasks[s.workers[w].id];
            var key := MetricKey(day, if t.job.status == Stopped then Stopped else Failed);
            var s' := Step(c, Step(c, Step(c, s, Fail(w)), CheckStopped(w)), Finish(w, NoFault, NoFault, day));
            && id in s'.hist.removed && s'.hist.removed[id] == Removal(key, t.job.size)
            && JobsCounted(s'.db, key) == JobsCounted(s.db, key) + 1
  {
    hide Reachable, Step, Stands, JobsCounted, BytesCounted;
    var id := s.workers[w].id;
    var t := s.mem.tasks[id];
    WorkerStands(c, s, w);
    FailGoes(c, s, w, id, s.workers[w].pc, t);
    var s1 := Step(c, s, Fail(w));
    LookGoes(c, s1, w, id, Failed, t);
    var s2 := Step(c, s1, CheckStopped(w));
    FinishGoes(c, s2, w, id, if t.job.status == Stopped then Stopped else Failed, t, day);
    SameCounts(s.db, s2.db, MetricKey(day, if t.job.status == Stopped then Stopped else Failed));
  }

  lemma WorkerStands(c: Config, s: State, w: nat)
    requires ValidConfig(c) && Reachable(c, s) && s.scan == None && w < |s.workers| && Live(s.workers[w].pc)
    requires s.workers[w].id in s.mem.tasks && s.workers[w].id in s.db.rows
    ensures Stands(s, w, s.workers[w].id, s.workers[w].pc, s.mem.tasks[s.workers[w].id])
  {
    ReachableWorker(c, s, w);
    ReachableId(c, s, s.workers[w].id);
    hide Reachable;
  }

  /** Afterwards the directory of the job goes, unless the job has failed. */
  lemma CleanExact(c: Config, s: State, w: nat)
    requires w < |s.workers| && s.workers[w].pc.Cleaning?
    ensures var id, s' := s.workers[w].id, Step(c, s, Clean(w));
            && s'.workers[w].pc == Done
            && OnDisk(s'.disk.onDisk, id) ==
               (if s.workers[w].pc.outcome == Failed then OnDisk(s.disk.onDisk, id) else 0)
            && s'.disk.free + OnDisk(s'.disk.onDisk, id) == s.disk.free + OnDisk(s.disk.onDisk, id)
            && forall o :: o != id ==> OnDisk(s'.disk.onDisk, o) == OnDisk(s.disk.onDisk, o)
  {
  }

  /** After a pass of the scheduler every task is running and has a worker. */
  lemma TickStartsAll(c: Config, s: State, order: seq<Id>)
    requires ValidConfig(c) && Reachable(c, s) && s.scan == None && s.mem.configured
    requires Enumerates(order, set id | id in s.mem.tasks && !s.mem.tasks[id].running)
    ensures var s' := Step(c, s, Tick(order));
            && s'.mem.tasks.Keys == s.mem.tasks.Keys
            && forall id :: id in s'.mem.tasks ==>
                 && s'.mem.tasks[id].job == s.mem.tasks[id].job && s'.mem.tasks[id].running
                 && exists w :: 0 <= w < |s'.workers| && Live(s'.workers[w].pc) && s'.workers[w].id == id
  {
    hide Reachable, Enumerates;
    var s' := Step(c, s, Tick(order));
    ReachableNext(c, s, Tick(order));
    assert Idle(s.mem.tasks) == set id | id in s.mem.tasks && !s.mem.tasks[id].running;
    forall id | id in s'.mem.tasks
      ensures exists w :: 0 <= w < |s'.workers| && Live(s'.workers[w].pc) && s'.workers[w].id == id
    {
      RunningIsAttended(c, s', id);
    }
  }

  // ------------------------------------------------------------------------------ restart

  /** The worker of a task after a restart and one pass of the scheduler. */
  lemma RelaunchedAt(c: Config, s: State, order: seq<Id>, w: nat)
    requires s.scan == None && s.workers == [] && s.mem.configured && w < |order|
    requires forall id :: id in s.mem.tasks ==> !s.mem.tasks[id].running
    requires Enumerates(order, s.mem.tasks.Keys) && order[w] in s.db.rows && s.mem.tasks[order[w]].job.id == order[w]
    ensures var s' := Step(c, s, Tick(order));
            && |s'.workers| == |order|
            && Stands(s', w, order[w], Launched, s.mem.tasks[order[w]].(running := true))
  {
    hide Enumerates, Idle;
    AllIdle(s.mem.tasks);
    OrderAt(order, s.mem.tasks.Keys, w);
  }

  lemma AllIdle(tasks: map<Id, Task>)
    requires forall id :: id in tasks ==> !tasks[id].running
    ensures Idle(tasks) == tasks.Keys
  {
    forall id ensures id in Idle(tasks) <==> id in tasks.Keys {
    }
  }

  lemma OrderAt(order: seq<Id>, ids: set<Id>, w: nat)
    requires Enumerates(order, ids) && w < |order|
    ensures order[w] in ids
  {
  }

  /**
   After a crash at any moment every row gets a worker again: unfinished jobs
   start over, interrupted uploads are about to be counted as failed, and finished
   jobs as what they are.
   */
  lemma ResumedAfterCrash(c: Config, s: State, order: seq<Id>, w: nat)
    requires ValidConfig(c) && Reachable(c, s) && Enumerates(order, s.db.rows.Keys) && w < |order|
    ensures var down := Step(c, s, Crash);
            var s' := Step(c, Step(c, Step(c, down, Configure(order, NoFault)), Tick(order)), ReadJob(w));
            && order[w] in s.db.rows && |s'.workers| == |order| && s'.workers[w].id == order[w]
            && s'.workers[w].pc == match s.db.rows[order[w]].stage
                                   case Pending | Started | Downloading | Zipping => Preparing
                                   case Uploading => Finishing(Failed)
                                   case Stopped => Finishing(Stopped)
                                   case Failed => Finishing(Failed)
                                   case Completed => Finishing(Completed)
    ensures var down := Step(c, s, Crash);
            var s' := Step(c, Step(c, Step(c, down, Configure(order, NoFault)), Tick(order)), ReadJob(w));
            order[w] in s'.mem.tasks && Stands(s', w, order[w], s'.workers[w].pc, s'.mem.tasks[order[w]])
  {
    hide Reachable, Step, ConfigureStep, Stands, System, Core, RecoveredJob;
    var down := Step(c, s, Crash);
    DownAfterCrash(c, s);
    ReachableNext(c, s, Crash);
    RecoveryIsTotal(c, down, order);
    UnlockedConfigure(c, down, order);
    var up := Step(c, down, Configure(order, NoFault));
    var id := order[w];
    assert id in down.db.rows && up.mem.tasks.Keys == down.db.rows.Keys;
    ReachableId(c, s, id);
    RowHasStage(c, s, id);
    RelaunchedAt(c, up, order, w);
    ReadJobGoes(c, Step(c, up, Tick(order)), w, id, up.mem.tasks[id].(running := true));
    KeepsWorkers(c, Step(c, up, Tick(order)), w);
    AtPc(Step(c, Step(c, up, Tick(order)), ReadJob(w)), w, id);
    TaskThere(Step(c, Step(c, up, Tick(order)), ReadJob(w)), w, id);
  }

  lemma TaskThere(s: State, w: nat, id: Id)
    ensures forall pc, t :: Stands(s, w, id, pc, t) ==> id in s.mem.tasks && s.mem.tasks[id] == t
  {
  }

  lemma DownAfterCrash(c: Config, s: State)
    ensures var s' := Step(c, s, Crash); !s'.mem.configured && s'.workers == [] && s'.scan == None && s'.db == s.db
  {
  }

  lemma UnlockedConfigure(c: Config, s: State, order: seq<Id>)
    requires s.scan == None
    ensures var s' := ConfigureStep(c, s, order, NoFault);
            && Step(c, s, Configure(order, NoFault)) == s' && s'.scan == s.scan && s'.db == s.db
            && (s.workers == [] ==> s'.workers == [])
  {
    hide ConfigureOp, Enumerates;
  }

  lemma RowHasStage(c: Config, s: State, id: Id)
    requires IdInv(c, id, ViewOf(s, id)) && id in s.db.rows
    ensures s.db.rows[id].status == s.db.rows[id].stage && s.db.rows[id].id == id
  {
  }

  lemma KeepsWorkers(c: Config, s: State, w: nat)
    ensures |Step(c, s, ReadJob(w)).workers| == |s.workers|
  {
  }

  lemma AtPc(s: State, w: nat, id: Id)
    ensures forall pc, t :: Stands(s, w, id, pc, t) ==>
              w < |s.workers| && s.workers[w].id == id && s.workers[w].pc == pc
  {
  }

  // -------------------------------------------------------------------- the capacity check

  /** Reachable, by a run that goes through `s0`. */
  ghost predicate Reached(c: Config, s0: State, s: State) {
    Leads(c, s0, s) && Reachable(c, s)
  }

  lemma ReachedStart(c: Config, s: State)
    requires Reachable(c, s)
    ensures Reached(c, s, s)
  {
    hide Reachable, Step;
    assert Run(c, [s], []);
  }

  lemma ReachedNext(c: Config, s0: State, s: State, a: Action)
    requires Reached(c, s0, s)
    ensures Reached(c, s0, Step(c, s, a))
  {
    hide Step, Reachable;
    ReachableNext(c, s, a);
    var states, actions :| Run(c, states, actions) && s0 == states[0] && s == states[|actions|];
    var states', actions' := states + [Step(c, s, a)], actions + [a];
    forall i {:trigger actions'[i]} | 0 <= i < |actions'| ensures states'[i + 1] == Step(c, states'[i], actions'[i]) {
      if i < |actions| {
        assert actions'[i] == actions[i] && states'[i] == states[i] && states'[i + 1] == states[i + 1];
      }
    }
    assert Run(c, states', actions');
  }

  /** With measurements and a representable sum a check never ends a job; it admits it exactly when it fits. */
  lemma CheckAnswers(c: Config, s: State, w: nat)
    requires ValidConfig(c) && Reachable(c, s) && w < |s.workers| && s.workers[w].pc.Scanning?
    requires s.workers[w].id in s.mem.tasks && Inspected(s.mem.tasks, s.workers[w].id, s.disk.check.measured)
    requires Sum(Obligations(s.mem.tasks, s.workers[w].id, s.disk.check.measured)) <= MAX_INT64
    ensures var s', t := Step(c, s, DecideCapacity(w, true)), s.mem.tasks[s.workers[w].id];
            var need := Sum(Obligations(s.mem.tasks, s.workers[w].id, s.disk.check.measured));
            && s'.scan == None
            && s'.workers[w].pc == (if s.mem.active + t.job.reserved <= c.maxActive as int
                                       && need <= s.workers[w].pc.sample then Admitted else AwaitingCapacity)
            && s'.mem == if s'.workers[w].pc == Admitted then AdmitOp(s.mem, s.workers[w].id) else s.mem
  {
    hide Reachable, Sum, Obligations, AdmitOp, Inspected, Missed;
  }

  predicate Scans(s: State, w: nat, id: Id, sample: nat) {
    && s.scan == Some(w) && w < |s.workers| && s.workers[w].id == id && s.workers[w].pc == Scanning(sample)
    && id in s.mem.tasks
  }

  /** What has been measured is what is there. */
  ghost predicate Accurate(s: State) {
    forall o :: o in s.disk.check.measured ==> s.disk.check.measured[o] == OnDisk(s.disk.onDisk, o)
  }

  lemma InspectGoes(c: Config, s: State, w: nat, id: Id, sample: nat, o: Id)
    requires Scans(s, w, id, sample) && Accurate(s) && o !in s.disk.check.measured
    requires o in s.mem.tasks && (o == id || s.mem.tasks[o].reserved)
    ensures var s' := Step(c, s, Inspect(o, OnDisk(s.disk.onDisk, o)));
            && s' == s.(disk := s.disk.(check := s'.disk.check)) && Scans(s', w, id, sample) && Accurate(s')
            && s'.disk.check.measured.Keys == s.disk.check.measured.Keys + {o}
  {
  }

  /** One directory after the other is walked, while nobody gets in the way. */
  lemma {:induction false} InspectAll(c: Config, s0: State, s: State, w: nat, id: Id, sample: nat, rest: set<Id>)
    returns (s': State)
    requires Reached(c, s0, s) && Scans(s, w, id, sample) && Accurate(s)
    requires forall o :: o in rest ==> o in s.mem.tasks && (o == id || s.mem.tasks[o].reserved)
    requires forall o :: o in s.mem.tasks && (o == id || s.mem.tasks[o].reserved) ==>
               o in rest || o in s.disk.check.measured
    ensures Reached(c, s0, s') && s' == s.(disk := s.disk.(check := s'.disk.check))
    ensures Scans(s', w, id, sample) && Accurate(s') && Inspected(s'.mem.tasks, id, s'.disk.check.measured)
    decreases |rest|
  {
    hide Reached, Step, Accurate;
    if rest == {} {
      s' := s;
    } else {
      var o :| o in rest;
      if o in s.disk.check.measured {
        s' := InspectAll(c, s0, s, w, id, sample, rest - {o});
      } else {
        InspectGoes(c, s, w, id, sample, o);
        ReachedNext(c, s0, s, Inspect(o, OnDisk(s.disk.onDisk, o)));
        s' := InspectAll(c, s0, Step(c, s, Inspect(o, OnDisk(s.disk.onDisk, o))), w, id, sample, rest - {o});
      }
    }
  }

  lemma StatfsGoes(c: Config, s: State, w: nat, id: Id, t: Task)
    requires Stands(s, w, id, AwaitingCapacity, t)
    ensures var s' := Step(c, s, Statfs(w));
            && Scans(s', w, id, s.disk.free) && Accurate(s') && s'.disk.check.measured == map[]
            && s'.mem == s.mem && s'.db == s.db && s'.disk.onDisk == s.disk.onDisk && s'.disk.free == s.disk.free
  {
    hide AnyAdmitted;
  }

  lemma AccurateObligations(s: State, id: Id)
    requires Accurate(s) && Inspected(s.mem.tasks, id, s.disk.check.measured)
    ensures Obligations(s.mem.tasks, id, s.disk.check.measured) == Obligations(s.mem.tasks, id, s.disk.onDisk)
  {
    var m, m' := Obligations(s.mem.tasks, id, s.disk.check.measured), Obligations(s.mem.tasks, id, s.disk.onDisk);
    forall o ensures (o in m <==> o in m') && (o in m ==> m[o] == m'[o]) {
    }
  }

  lemma DecideGoes(c: Config, s: State, w: nat, id: Id, t: Task)
    requires Scans(s, w, id, s.disk.free) && s.mem.tasks[id] == t && t.job.id == id && t.running && id in s.db.rows
    requires Inspected(s.mem.tasks, id, s.disk.check.measured) && !t.reserved
    requires Sum(Obligations(s.mem.tasks, id, s.disk.check.measured)) <= MAX_INT64
    ensures var s' := Step(c, s, DecideCapacity(w, true));
            var fits := s.mem.active + t.job.reserved <= c.maxActive as int
                        && Sum(Obligations(s.mem.tasks, id, s.disk.check.measured)) <= s.disk.free;
            && Stands(s', w, id, if fits then Admitted else AwaitingCapacity, t.(reserved := fits)) && s'.db == s.db
  {
    hide Sum, Obligations, Inspected, Missed;
  }

  /** The next check of a waiting worker, undisturbed: it is admitted exactly when its job fits. */
  lemma CheckRuns(c: Config, s0: State, s: State, w: nat, id: Id, t: Task) returns (s': State)
    requires Reached(c, s0, s) && Stands(s, w, id, AwaitingCapacity, t) && !t.reserved
    requires Sum(Obligations(s.mem.tasks, id, s.disk.onDisk)) <= MAX_INT64
    ensures Reached(c, s0, s') && s'.db == s.db
    ensures var fits := s.mem.active + t.job.reserved <= c.maxActive as int
                        && Sum(Obligations(s.mem.tasks, id, s.disk.onDisk)) <= s.disk.free;
            Stands(s', w, id, if fits then Admitted else AwaitingCapacity, t.(reserved := fits))
  {
    hide Reached, Step, Accurate, Sum, Obligations, Inspected;
    StatfsGoes(c, s, w, id, t);
    ReachedNext(c, s0, s, Statfs(w));
    var s1 := Step(c, s, Statfs(w));
    TaskFacts(s, w, id, t);
    var counted := set o | o in s1.mem.tasks && (o == id || s1.mem.tasks[o].reserved);
    var s2 := InspectAll(c, s0, s1, w, id, s.disk.free, counted);
    AccurateObligations(s2, id);
    DecideGoes(c, s2, w, id, t);
    ReachedNext(c, s0, s2, DecideCapacity(w, true));
    s' := Step(c, s2, DecideCapacity(w, true));
  }

  lemma TaskFacts(s: State, w: nat, id: Id, t: Task)
    requires exists pc :: Stands(s, w, id, pc, t)
    ensures id in s.mem.tasks && s.mem.tasks[id] == t && t.job.id == id && t.running && id in s.db.rows
  {
  }

  /** With no reservation held and enough free space a waiting job is admitted by its next check. */
  lemma WaitingIsAdmitted(c: Config, s: State, w: nat) returns (s': State)
    requires ValidConfig(c) && Reachable(c, s) && s.scan == None && w < |s.workers|
    requires s.workers[w].pc == AwaitingCapacity
    requires forall id :: id in s.mem.tasks ==> !s.mem.tasks[id].reserved
    requires s.workers[w].id in s.mem.tasks && s.mem.tasks[s.workers[w].id].job.status != Stopped
    requires s.mem.tasks[s.workers[w].id].job.reserved <= s.disk.free + OnDisk(s.disk.onDisk, s.workers[w].id)
    ensures Reached(c, s, s') && w < |s'.workers| && s'.workers[w].pc == Admitted
  {
    hide Reached, Reachable, Sum, Obligations, Stands, Step;
    var id := s.workers[w].id;
    WaitingReserves(c, s, w);
    StandsHere(c, s, w);
    NoBudgetDeadlock(c, s, w);
    AloneOwes(s.mem.tasks, id, s.disk.onDisk);
    ReachedStart(c, s);
    s' := CheckRuns(c, s, s, w, id, s.mem.tasks[id]);
    AtPc(s', w, id);
  }

  lemma WaitingReserves(c: Config, s: State, w: nat)
    requires ValidConfig(c) && Reachable(c, s) && w < |s.workers| && s.workers[w].pc == AwaitingCapacity
    ensures s.workers[w].id in s.mem.tasks
    ensures 0 <= s.mem.tasks[s.workers[w].id].job.reserved <= c.maxActive as int <= MAX_INT64
    ensures s.mem.tasks[s.workers[w].id].job.status in {Started, Stopped}
  {
    ReachableWorker(c, s, w);
    hide Reachable;
  }

  lemma AloneOwes(tasks: map<Id, Task>, id: Id, onDisk: map<Id, nat>)
    requires id in tasks && forall o :: o in tasks ==> !tasks[o].reserved
    ensures Sum(Obligations(tasks, id, onDisk)) == Remaining(tasks[id].job.reserved, OnDisk(onDisk, id))
  {
    hide Sum;
    assert Obligations(tasks, id, onDisk) == map[][id := Remaining(tasks[id].job.reserved, OnDisk(onDisk, id))];
    SumInsert(map[], id, Remaining(tasks[id].job.reserved, OnDisk(onDisk, id)));
    SumEmpty<Id>(map[]);
  }

  // ------------------------------------------------------------------ from Add to completed

  /** Budget and disk have room for `reserve` more bytes. */
  ghost predicate Room(c: Config, s: State, reserve: int) {
    && s.mem.active + reserve <= c.maxActive as int
    && Sum(Outstanding(s.mem.tasks, s.disk.onDisk)) + reserve <= s.disk.free
    && Sum(Outstanding(s.mem.tasks, s.disk.onDisk)) + reserve <= MAX_INT64
  }

  lemma RoomStays(c: Config, s0: State, s: State, a: Action, reserve: int)
    requires ValidConfig(c) && Reached(c, s0, s) && Room(c, s, reserve) && !Loud(a)
    ensures Reached(c, s0, Step(c, s, a)) && Room(c, Step(c, s, a), reserve)
  {
    hide System, Core, Step, Sum, Outstanding, Reachable, Leads;
    ReachedNext(c, s0, s, a);
    ReachableSystem(c, s);
    SystemCore(c, s);
    StepQuiet(c, s, a);
    QuietOutstanding(s, Step(c, s, a));
    QuietRoom(s, Step(c, s, a));
  }

  lemma QuietRoom(s: State, s': State)
    requires Quiet(s, s')
    ensures s'.mem.active == s.mem.active && s'.disk == s.disk
  {
  }

  lemma RoomFits(c: Config, s: State, id: Id, reserve: int)
    requires Room(c, s, reserve) && id in s.mem.tasks && !s.mem.tasks[id].reserved
    requires s.mem.tasks[id].job.reserved == reserve && 0 <= reserve
    ensures Sum(Obligations(s.mem.tasks, id, s.disk.onDisk)) <= s.disk.free
    ensures Sum(Obligations(s.mem.tasks, id, s.disk.onDisk)) <= MAX_INT64
  {
    hide Sum;
    var m := Outstanding(s.mem.tasks, s.disk.onDisk);
    var owes := Remaining(reserve, OnDisk(s.disk.onDisk, id));
    SumInsert(m, id, owes);
    assert Obligations(s.mem.tasks, id, s.disk.onDisk) == m[id := owes];
  }

  /** The request can be added under this ID. */
  ghost predicate Addable(c: Config, s: State, req: Request, id: Id) {
    && s.scan == None && Acceptable(c, s.mem, req) && c.canonical(id) && id !in s.hist.used
    && forall o :: o in s.db.rows ==> s.db.rows[o].infoHash != c.parse(req.magnet).value.hash
  }

  lemma AddGoes(c: Config, s: State, req: Request, id: Id)
    requires Core(c, s) && Addable(c, s, req, id)
    ensures var s', j := Step(c, s, Add(req, id, NoFault)), NewJob(id, c.parse(req.magnet).value, req);
            && s'.scan == None && s'.mem.configured && id in s'.mem.tasks && s'.mem.tasks[id] == Task(j, false, false)
            && id in s'.db.rows && s'.db.metrics == s.db.metrics
  {
    hide Core, Acceptable, NewJob;
    CoreId(c, s, id);
    AcceptableParts(c, s.mem, req);
    assert NewJob(id, c.parse(req.magnet).value, req).id == id
           && NewJob(id, c.parse(req.magnet).value, req).infoHash == c.parse(req.magnet).value.hash by {
      JobParts(id, c.parse(req.magnet).value, req);
    }
  }

  lemma AcceptableParts(c: Config, mem: Mem, req: Request)
    requires Acceptable(c, mem, req)
    ensures c.parse(req.magnet).Some? && mem.configured
  {
  }

  lemma AddableParts(c: Config, s: State, req: Request, id: Id)
    requires Addable(c, s, req, id)
    ensures c.parse(req.magnet).Some? && s.scan == None
  {
    hide Active, AddableSelection;
  }

  lemma JobParts(id: Id, magnet: Magnet, req: Request)
    ensures var j := NewJob(id, magnet, req);
            && j.id == id && j.infoHash == magnet.hash && j.status == Pending && j.stage == Pending
            && j.selected == req.selected && j.zipped == req.zipped && j.userID == req.userID
  {
  }

  lemma TickGoes(c: Config, s: State, id: Id) returns (order: seq<Id>, w: nat)
    requires s.scan == None && s.mem.configured && id in s.mem.tasks && !s.mem.tasks[id].running
    requires s.mem.tasks[id].job.id == id && id in s.db.rows
    ensures Stands(Step(c, s, Tick(order)), w, id, Launched, s.mem.tasks[id].(running := true))
    ensures Step(c, s, Tick(order)).db == s.db
  {
    order := SomeOrder(Idle(s.mem.tasks));
    assert id in Idle(s.mem.tasks);
    var i :| 0 <= i < |order| && order[i] == id;
    w := |s.workers| + i;
    hide Enumerates, Idle;
  }

  /** A new job up to the capacity check. */
  lemma JobWaits(c: Config, s: State, req: Request, id: Id, info: Info, reserve: int)
    returns (s': State, w: nat, t: Task)
    requires ValidConfig(c) && Reachable(c, s) && Addable(c, s, req, id) && Room(c, s, reserve)
    requires var measured := Measured(NewJob(id, c.parse(req.magnet).value, req), info);
             measured.Some? && measured.value.1 as int == reserve && measured.value.1 <= c.maxActive
    ensures Reached(c, s, s') && Room(c, s', reserve) && Stands(s', w, id, AwaitingCapacity, t)
    ensures !t.reserved && t.job.status == Started && t.job.reserved == reserve && t.job.zipped == req.zipped
    ensures t.job.size == Measured(NewJob(id, c.parse(req.magnet).value, req), info).value.0 as int
    ensures s'.db.metrics == s.db.metrics
  {
    hide Reached, Reachable, Step, Stands, Room, Core, System, NewJob, Addable, Measured;
    AddableParts(c, s, req, id);
    var j := NewJob(id, c.parse(req.magnet).value, req);
    JobParts(id, c.parse(req.magnet).value, req);
    ReachableSystem(c, s);
    SystemCore(c, s);
    ReachedStart(c, s);
    AddGoes(c, s, req, id);
    RoomStays(c, s, s, Add(req, id, NoFault), reserve);
    var s1 := Step(c, s, Add(req, id, NoFault));
    var order;
    order, w := TickGoes(c, s1, id);
    RoomStays(c, s, s1, Tick(order), reserve);
    var s2 := Step(c, s1, Tick(order));
    ReadJobGoes(c, s2, w, id, Task(j, true, false));
    RoomStays(c, s, s2, ReadJob(w), reserve);
    SameMetrics(c, s2, ReadJob(w));
    var s3 := Step(c, s2, ReadJob(w));
    StartGoes(c, s3, w, id, Task(j, true, false));
    RoomStays(c, s, s3, SaveStarted(w, NoFault), reserve);
    SameMetrics(c, s3, SaveStarted(w, NoFault));
    var s4 := Step(c, s3, SaveStarted(w, NoFault));
    var t4 := Restaged(Task(j, true, false), Started);
    SameMeasure(j, info);
    MeasureGoes(c, s4, w, id, t4, info);
    RoomStays(c, s, s4, Measure(w, info), reserve);
    SameMetrics(c, s4, Measure(w, info));
    s' := Step(c, s4, Measure(w, info));
    t := t4.(job := t4.job.(name := c.text(info.name), size := Measured(j, info).value.0 as int, reserved := reserve));
  }

  lemma SameMeasure(j: Job, info: Info)
    ensures Measured(j.(status := Started, stage := Started), info) == Measured(j, info)
  {
  }

  lemma SameMetrics(c: Config, s: State, a: Action)
    requires a.ReadJob? || a.SaveStarted? || a.Measure?
    ensures Step(c, s, a).db.metrics == s.db.metrics
  {
    hide Measured, MeasureOp;
  }

  /** An admitted job up to the upload. */
  lemma JobSends(c: Config, s0: State, s: State, w: nat, id: Id, t: Task) returns (s': State, t': Task)
    requires Reached(c, s0, s) && Stands(s, w, id, Admitted, t) && t.job.status == Started
    ensures Reached(c, s0, s') && Stands(s', w, id, Sending, t') && s'.db.metrics == s.db.metrics
    ensures t'.job.size == t.job.size && t'.job.status == Uploading
  {
    hide Reached, Step, Stands;
    DownloadGoes(c, s, w, id, t);
    ReachedNext(c, s0, s, SaveDownloading(w, NoFault));
    var s1, t1, pc := Step(c, s, SaveDownloading(w, NoFault)), Restaged(t, Downloading), Fetching;
    if t1.job.zipped {
      ZipGoes(c, s1, w, id, t1);
      ReachedNext(c, s0, s1, SaveZipping(w, NoFault));
      s1, t1, pc := Step(c, s1, SaveZipping(w, NoFault)), Restaged(t1, Zipping), Packing;
    }
    UploadGoes(c, s1, w, id, pc, t1);
    ReachedNext(c, s0, s1, SaveUploading(w, NoFault));
    var s2 := Step(c, s1, SaveUploading(w, NoFault));
    t' := Restaged(t1, Uploading);
    BeginGoes(c, s2, w, id, t');
    ReachedNext(c, s0, s2, BeginUpload(w));
    s' := Step(c, s2, BeginUpload(w));
  }

  /**
   In every reachable state, an acceptable request whose reservation fits the
   budget and the disk can be added and run to its end: it is counted as
   completed, with the size of what was selected.
   */
  lemma JobCompletes(c: Config, s: State, req: Request, id: Id, info: Info, day: int) returns (s': State)
    requires ValidConfig(c) && Reachable(c, s) && Addable(c, s, req, id)
    requires var measured := Measured(NewJob(id, c.parse(req.magnet).value, req), info);
             measured.Some? && Room(c, s, measured.value.1 as int) && measured.value.1 <= c.maxActive
    ensures Leads(c, s, s') && Reachable(c, s') && id in s'.hist.removed
    ensures var key := MetricKey(day, Completed);
            && s'.hist.removed[id] ==
               Removal(key, Measured(NewJob(id, c.parse(req.magnet).value, req), info).value.0 as int)
            && JobsCounted(s'.db, key) == JobsCounted(s.db, key) + 1
  {
    hide Reachable, Leads, Step, Stands, Room, NewJob, Addable, Measured, Sum, Obligations, JobsCounted, BytesCounted;
    AddableParts(c, s, req, id);
    var measured := Measured(NewJob(id, c.parse(req.magnet).value, req), info).value;
    MeasuredNonNegative(NewJob(id, c.parse(req.magnet).value, req), info);
    var s1, w, t := JobWaits(c, s, req, id, info, measured.1 as int);
    WaitsThere(s1, w, id, t);
    RoomFits(c, s1, id, measured.1 as int);
    RoomBudget(c, s1, measured.1 as int);
    var s2 := CheckRuns(c, s, s1, w, id, t);
    var s3, t3 := JobSends(c, s, s2, w, id, t.(reserved := true));
    AnswerGoes(c, s3, w, id, t3);
    ReachedNext(c, s, s3, UploadDone(w));
    var s4 := Step(c, s3, UploadDone(w));
    LookGoes(c, s4, w, id, Completed, t3);
    ReachedNext(c, s, s4, CheckStopped(w));
    var s5 := Step(c, s4, CheckStopped(w));
    FinishGoes(c, s5, w, id, Completed, t3, day);
    ReachedNext(c, s, s5, Finish(w, NoFault, NoFault, day));
    s' := Step(c, s5, Finish(w, NoFault, NoFault, day));
    SameCounts(s.db, s5.db, MetricKey(day, Completed));
  }

  lemma WaitsThere(s: State, w: nat, id: Id, t: Task)
    requires Stands(s, w, id, AwaitingCapacity, t)
    ensures id in s.mem.tasks && s.mem.tasks[id] == t
  {
  }

  lemma RoomBudget(c: Config, s: State, reserve: int)
    requires Room(c, s, reserve)
    ensures s.mem.active + reserve <= c.maxActive as int
  {
  }

  lemma AnswersStay(c: Config, s: State, a: Action)
    ensures s.hist.answered <= Step(c, s, a).hist.answered
    ensures s.hist.interrupted <= Step(c, s, a).hist.interrupted
  {
    hide StopOp, AddOp, SaveStageOp, MeasureOp, Decide, FinishOp, ConfigureOp, LaunchOp, AdmitOp, Missed, Covered;
  }

  lemma CrashInterrupts(c: Config, s: State, id: Id)
    requires id in s.db.rows && s.db.rows[id].stage == Uploading
    ensures id in Step(c, s, Crash).hist.interrupted
  {
  }

  lemma SendingRow(c: Config, s: State, w: nat)
    requires ValidConfig(c) && Reachable(c, s) && w < |s.workers| && s.workers[w].pc == Sending
    ensures s.workers[w].id in s.db.rows && s.db.rows[s.workers[w].id].stage == Uploading
  {
    UploadIsDurable(c, s, w);
    hide Reachable;
  }

  /** From the answer over a crash to the count as failed. */
  lemma LostAnswer(c: Config, s0: State, s: State, w: nat, day: int) returns (s': State)
    requires ValidConfig(c) && Reached(c, s0, s) && s.scan == None && w < |s.workers| && s.workers[w].pc == Sending
    ensures Reached(c, s0, s')
    ensures var id := s.workers[w].id;
            && id in s'.hist.answered && id in s'.hist.interrupted
            && id in s'.hist.removed && s'.hist.removed[id].key == MetricKey(day, Failed)
  {
    hide Step, Stands, Leads, Reachable;
    var id := s.workers[w].id;
    SendingRow(c, s, w);
    SendingUploads(c, s, w);
    StandsHere(c, s, w);
    AnswerGoes(c, s, w, id, s.mem.tasks[id]);
    ReachedNext(c, s0, s, UploadDone(w));
    var s1 := Step(c, s, UploadDone(w));
    var order := SomeOrder(s1.db.rows.Keys);
    var i := OrderOf(order, s1.db.rows.Keys, id);
    ResumedAfterCrash(c, s1, order, i);
    CrashInterrupts(c, s1, id);
    s' := Step(c, Step(c, Step(c, Step(c, s1, Crash), Configure(order, NoFault)), Tick(order)), ReadJob(i));
    FourSteps(c, s0, s1, order, i);
    FinishGoes(c, s', i, id, Failed, s'.mem.tasks[id], day);
    ReachedNext(c, s0, s', Finish(i, NoFault, NoFault, day));
    AnswersStay(c, s', Finish(i, NoFault, NoFault, day));
    s' := Step(c, s', Finish(i, NoFault, NoFault, day));
  }

  lemma OrderOf(order: seq<Id>, ids: set<Id>, id: Id) returns (i: nat)
    requires Enumerates(order, ids) && id in ids
    ensures i < |order| && order[i] == id
  {
    i :| i < |order| && order[i] == id;
  }

  lemma FourSteps(c: Config, s0: State, s: State, order: seq<Id>, i: nat)
    requires Reached(c, s0, s)
    ensures var down := Step(c, s, Crash);
            var s' := Step(c, Step(c, Step(c, down, Configure(order, NoFault)), Tick(order)), ReadJob(i));
            && Reached(c, s0, s') && s.hist.answered <= s'.hist.answered
            && down.hist.interrupted <= s'.hist.interrupted
  {
    hide Step, Reached;
    var s1 := Step(c, s, Crash);
    var s2 := Step(c, s1, Configure(order, NoFault));
    var s3 := Step(c, s2, Tick(order));
    ReachedNext(c, s0, s, Crash);
    AnswersStay(c, s, Crash);
    ReachedNext(c, s0, s1, Configure(order, NoFault));
    AnswersStay(c, s1, Configure(order, NoFault));
    ReachedNext(c, s0, s2, Tick(order));
    AnswersStay(c, s2, Tick(order));
    ReachedNext(c, s0, s3, ReadJob(i));
    AnswersStay(c, s3, ReadJob(i));
  }

  /**
   A crash between the answer and the terminal save makes a delivered job count
   as failed; this can happen to every job that could be completed.
   */
  lemma AnsweredButFailed(c: Config, s: State, req: Request, id: Id, info: Info, day: int) returns (s': State)
    requires ValidConfig(c) && Reachable(c, s) && Addable(c, s, req, id)
    requires var measured := Measured(NewJob(id, c.parse(req.magnet).value, req), info);
             measured.Some? && Room(c, s, measured.value.1 as int) && measured.value.1 <= c.maxActive
    ensures Reached(c, s, s') && id in s'.hist.answered && id in s'.hist.interrupted
    ensures id in s'.hist.removed && s'.hist.removed[id].key == MetricKey(day, Failed)
  {
    hide Reachable, Reached, Step, Stands, Room, NewJob, Addable, Measured, Sum, Obligations;
    AddableParts(c, s, req, id);
    var measured := Measured(NewJob(id, c.parse(req.magnet).value, req), info).value;
    MeasuredNonNegative(NewJob(id, c.parse(req.magnet).value, req), info);
    var s1, w, t := JobWaits(c, s, req, id, info, measured.1 as int);
    WaitsThere(s1, w, id, t);
    RoomFits(c, s1, id, measured.1 as int);
    RoomBudget(c, s1, measured.1 as int);
    var s2 := CheckRuns(c, s, s1, w, id, t);
    var s3, t3 := JobSends(c, s, s2, w, id, t.(reserved := true));
    AtPc(s3, w, id);
    StandsFree(s3, w, id, Sending, t3);
    s' := LostAnswer(c, s, s3, w, day);
  }

  lemma StandsFree(s: State, w: nat, id: Id, pc: PC, t: Task)
    requires Stands(s, w, id, pc, t)
    ensures s.scan == None
  {
  }
}
