/**
 What the queue guarantees over every run, whatever the order of its steps, the
 faults of the database and the crashes in between.
 */
module QueueTheorems {
  import opened JobStore
  import opened QueueBudget
  import opened QueueDisk
  import opened QueueInvariant
  import opened QueueLedger
  import opened QueueOps
  import opened QueueProtocol
  import opened QueueQuiet
  import opened QueueSafety
  import opened Sums
  import opened Wrappers

  ghost predicate System(c: Config, s: State) {
    && Core(c, s)
    && Budget(c, s.mem)
    && Ledger(s.db.metrics, s.hist.removed)
    && DiskSafe(s)
  }

  lemma InitialSystem(c: Config, free: nat)
    requires ValidConfig(c)
    ensures System(c, Initial(free))
  {
    InitialCore(c, free);
    hide Core;
    assert Reservations(map[]) == map[] && Outstanding(map[], map[]) == map[];
    assert Jobs(map[]) == map[] && Bytes(map[]) == map[] && Sizes(map[]) == map[];
    forall key ensures JobsWith(map[], key) == map[] && SizesWith(map[], key) == map[] {
    }
  }

  lemma StepSystem(c: Config, s: State, a: Action)
    requires System(c, s)
    ensures System(c, Step(c, s, a))
  {
    hide Core, Budget, Ledger, DiskSafe, Step;
    StepCore(c, s, a);
    StepBudget(c, s, a);
    StepLedger(c, s, a);
    StepDisk(c, s, a);
  }

  lemma {:induction false} TraceSystem(c: Config, states: seq<State>, actions: seq<Action>, i: nat)
    requires ValidConfig(c) && Trace(c, states, actions) && i <= |actions|
    ensures System(c, states[i])
  {
    if i == 0 {
      var free :| states[0] == Initial(free);
      InitialSystem(c, free);
    } else {
      TraceSystem(c, states, actions, i - 1);
      var a := actions[i - 1];
      StepSystem(c, states[i - 1], a);
      hide System, Step;
    }
  }

  lemma ReachableStart(c: Config, free: nat)
    ensures Reachable(c, Initial(free))
  {
    assert Trace(c, [Initial(free)], []);
  }

  lemma ReachableNext(c: Config, s: State, a: Action)
    requires Reachable(c, s)
    ensures Reachable(c, Step(c, s, a))
  {
    hide Step;
    var states, actions :| Trace(c, states, actions) && s == states[|actions|];
    var states', actions' := states + [Step(c, s, a)], actions + [a];
    forall i {:trigger actions'[i]} | 0 <= i < |actions'| ensures states'[i + 1] == Step(c, states'[i], actions'[i]) {
      if i < |actions| {
        assert actions'[i] == actions[i] && states'[i] == states[i] && states'[i + 1] == states[i + 1];
      }
    }
    assert Trace(c, states', actions');
  }

  lemma ReachableSystem(c: Config, s: State)
    requires ValidConfig(c) && Reachable(c, s)
    ensures System(c, s)
  {
    var states, actions :| Trace(c, states, actions) && s == states[|actions|];
    TraceSystem(c, states, actions, |actions|);
  }

  lemma ReachableId(c: Config, s: State, id: Id)
    requires ValidConfig(c) && Reachable(c, s)
    ensures IdInv(c, id, ViewOf(s, id))
  {
    ReachableSystem(c, s);
    hide Reachable;
    CoreId(c, s, id);
  }

  lemma ReachableWorker(c: Config, s: State, w: nat)
    requires ValidConfig(c) && Reachable(c, s) && w < |s.workers|
    ensures WrittenInv(s.workers[w]) && (s.workers[w].pc.Scanning? <==> s.scan == Some(w))
    ensures Live(s.workers[w].pc) ==>
              s.workers[w].id in s.mem.tasks && WorkerInv(c, ViewOf(s, s.workers[w].id), s.workers[w].pc)
  {
    ReachableSystem(c, s);
    hide Reachable;
    CoreWorker(c, s, w);
  }

  // ------------------------------------------------------------------------- uploads

  /** No job is handed to the remote side twice, and none counts as completed without. */
  lemma AtMostOnceUpload(c: Config, s: State, id: Id)
    requires ValidConfig(c) && Reachable(c, s)
    ensures s.hist.uploads[id] <= 1
    ensures id in s.hist.removed && s.hist.removed[id].key.status == Completed ==> s.hist.uploads[id] == 1
    ensures s.hist.uploads[id] == 1 && id in s.db.rows ==> Late(s.db.rows[id].stage)
  {
    ReachableId(c, s, id);
  }

  /** The uploading stage is durable whenever a remote upload is in flight. */
  lemma UploadIsDurable(c: Config, s: State, w: nat)
    requires ValidConfig(c) && Reachable(c, s) && w < |s.workers| && s.workers[w].pc == Sending
    ensures s.workers[w].id in s.db.rows && s.db.rows[s.workers[w].id].stage == Uploading
    ensures s.hist.uploads[s.workers[w].id] == 1
  {
    ReachableWorker(c, s, w);
  }

  /** Within one worker run the persisted stages only move forward. */
  lemma StagesMoveForward(c: Config, s: State, w: nat)
    requires ValidConfig(c) && Reachable(c, s) && w < |s.workers|
    ensures Forward(s.workers[w].written)
  {
    ReachableWorker(c, s, w);
  }

  // ---------------------------------------------------------------------- accounting

  /** Every inserted row is live or counted, exactly once, with its own size. */
  lemma ExactAccounting(c: Config, s: State)
    requires ValidConfig(c) && Reachable(c, s)
    ensures s.hist.inserted == s.db.rows.Keys + s.hist.removed.Keys
    ensures |s.hist.inserted| == |s.db.rows| + Sum(Jobs(s.db.metrics))
    ensures Sum(Bytes(s.db.metrics)) == Sum(Sizes(s.hist.removed))
    ensures forall key :: Agrees(s.db.metrics, s.hist.removed, key)
  {
    ReachableSystem(c, s);
    hide Reachable;
    forall id ensures id in s.hist.inserted <==> id in s.db.rows.Keys + s.hist.removed.Keys {
      CoreId(c, s, id);
    }
    forall id | id in s.db.rows ensures id !in s.hist.removed {
      CoreId(c, s, id);
    }
    hide Core;
    assert s.hist.inserted == s.db.rows.Keys + s.hist.removed.Keys;
    assert |s.hist.inserted| == |s.db.rows.Keys| + |s.hist.removed.Keys|;
  }

  // --------------------------------------------------------------------- reservations

  /** The running total is the sum of the held reservations and stays within the budget. */
  lemma ReservationConservation(c: Config, s: State)
    requires ValidConfig(c) && Reachable(c, s)
    ensures s.mem.active == Sum(Reservations(s.mem.tasks))
    ensures 0 <= s.mem.active <= c.maxActive as int
  {
    ReachableSystem(c, s);
    hide Reachable;
    forall id | id in Reservations(s.mem.tasks) ensures 0 <= Reservations(s.mem.tasks)[id] {
      CoreId(c, s, id);
    }
    hide Core;
    SumNonNegative(Reservations(s.mem.tasks));
  }

  /** With no reservation held, every waiting worker passes the budget test. */
  lemma NoBudgetDeadlock(c: Config, s: State, w: nat)
    requires ValidConfig(c) && Reachable(c, s) && w < |s.workers| && s.workers[w].pc == AwaitingCapacity
    requires forall id :: id in s.mem.tasks ==> !s.mem.tasks[id].reserved
    ensures s.workers[w].id in s.mem.tasks
    ensures s.mem.active <= c.maxActive as int - s.mem.tasks[s.workers[w].id].job.reserved
  {
    ReachableSystem(c, s);
    ReachableWorker(c, s, w);
    hide Reachable, Core;
    assert Reservations(s.mem.tasks) == map[];
  }

  // ------------------------------------------------------------------------------- disk

  /**
   What the admitted jobs may still write exceeds the free space by no more than
   what raced past the last check that admitted a job and what others have written
   since its sample, or jobs beyond their reservations, less what others have freed.
   */
  lemma DiskSafety(c: Config, s: State)
    requires ValidConfig(c) && Reachable(c, s)
    ensures Sum(Outstanding(s.mem.tasks, s.disk.onDisk)) <= s.disk.free + s.disk.foreign
  {
    ReachableSystem(c, s);
  }

  lemma SystemDisk(c: Config, s: State)
    requires System(c, s)
    ensures Core(c, s) && DiskSafe(s)
    ensures Sum(Outstanding(s.mem.tasks, s.disk.onDisk)) <= s.disk.free + s.disk.foreign
  {
  }

  // ----------------------------------------------------------------------- two stores

  /** The in-memory table and the durable one tell the same story. */
  lemma StoresAgree(c: Config, s: State, id: Id)
    requires ValidConfig(c) && Reachable(c, s)
    ensures id in s.mem.tasks && !Terminal(s.mem.tasks[id].job.status) ==> id in s.db.rows
    ensures s.mem.configured && id in s.db.rows ==> id in s.mem.tasks || id in s.hist.rejected
    ensures id in s.db.rows ==> s.db.rows[id].id == id && s.db.rows[id].status == s.db.rows[id].stage
    ensures id in s.mem.tasks ==>
              var j := s.mem.tasks[id].job;
              j.status == j.stage || (j.status == Pending && !Late(j.stage))
  {
    ReachableId(c, s, id);
  }

  /**
   A worker lets go of its task exactly when both store calls have worked, and
   then the row is gone and counted. A lost reply leaves the task behind even
   when the row is gone: the next worker then finds nothing to delete.
   */
  lemma ForgottenWhenGone(c: Config, s: State, w: nat, saveFault: Fault, finishFault: Fault, day: int)
    requires ValidConfig(c) && Reachable(c, s) && w < |s.workers| && s.workers[w].pc.Finishing?
    ensures var s', id := FinishStep(s, w, saveFault, finishFault, day), s.workers[w].id;
            && (id !in s'.mem.tasks <==> saveFault == NoFault && finishFault == NoFault)
            && (id in s'.mem.tasks ==>
                  !s'.mem.tasks[id].running && s'.mem.tasks[id].job.status == s.workers[w].pc.outcome)
            && (id !in s'.db.rows <==> id !in s.db.rows || (saveFault == NoFault && finishFault != Lost))
            && (id !in s'.db.rows ==> id in s'.hist.removed)
  {
    ReachableWorker(c, s, w);
    ReachableId(c, s, s.workers[w].id);
    hide Reachable;
    FinishDb(s.mem, s.db, s.workers[w].id, s.workers[w].pc.outcome, saveFault, finishFault, day);
  }

  /** Nothing but a finish or a crash forgets a task. */
  lemma NeverForgotten(c: Config, s: State, a: Action)
    requires ValidConfig(c) && Reachable(c, s) && !a.Finish? && !a.Crash?
    ensures s.mem.tasks.Keys <= Step(c, s, a).mem.tasks.Keys
  {
    hide Reachable, System, Core, Step;
    ReachableSystem(c, s);
    SystemCore(c, s);
    if !Loud(a) {
      StepQuiet(c, s, a);
    } else if DiskOnly(a) {
      StepDiskOnly(c, s, a);
    } else {
      AdmitOrConfigureKeys(c, s, a);
    }
  }

  lemma SystemCore(c: Config, s: State)
    requires System(c, s)
    ensures Core(c, s)
  {
  }

  lemma AdmitOrConfigureKeys(c: Config, s: State, a: Action)
    requires Core(c, s) && (a.DecideCapacity? || a.Configure?)
    ensures s.mem.tasks.Keys <= Step(c, s, a).mem.tasks.Keys
  {
    hide Core, AddStep, StopStep, TickStep, ReadJobStep, FailStep, SaveStep, MeasureStep, StatfsStep, Decide,
      FinishStep;
    hide BeginUploadStep, UploadDoneStep, CheckStoppedStep, ConfigureStep, CleanStep, JobWriteStep, JobFreeStep;
    if a.Configure? {
      ConfigureOnce(c, s, a.order, a.fault);
    }
  }

  /** A queue is configured once; before that it has no tasks. */
  lemma ConfigureOnce(c: Config, s: State, order: seq<Id>, fault: Fault)
    requires Core(c, s)
    ensures s.mem.configured ==> ConfigureStep(c, s, order, fault) == s
    ensures !s.mem.configured ==> s.mem.tasks == map[]
  {
  }

  /** At most one worker is in the pipeline of a task, and only while it is marked as running. */
  lemma OneWorkerPerTask(c: Config, s: State, w: nat, u: nat)
    requires ValidConfig(c) && Reachable(c, s) && w < |s.workers| && u < |s.workers|
    requires Live(s.workers[w].pc) && Live(s.workers[u].pc)
    ensures s.workers[w].id in s.mem.tasks && s.mem.tasks[s.workers[w].id].running
    ensures s.workers[w].id == s.workers[u].id ==> w == u
  {
    ReachableSystem(c, s);
    hide Reachable;
    CoreWorker(c, s, w);
  }

  /** No running task is without a worker, so a task is never stuck waiting for nobody. */
  lemma RunningIsAttended(c: Config, s: State, id: Id)
    requires ValidConfig(c) && Reachable(c, s) && id in s.mem.tasks && s.mem.tasks[id].running
    ensures Attended(s, id)
  {
    ReachableSystem(c, s);
  }

  /** Recovery accepts every durable state of a run and starts with nothing admitted. */
  lemma RecoveryIsTotal(c: Config, s: State, order: seq<Id>)
    requires ValidConfig(c) && Reachable(c, s) && !s.mem.configured && Enumerates(order, s.db.rows.Keys)
    ensures var s' := ConfigureStep(c, s, order, NoFault);
            && s'.mem == Mem(true, map id | id in s.db.rows :: Task(RecoveredJob(s.db.rows[id]), false, false), 0)
            && s'.db == s.db && System(c, s')
    ensures forall id :: id in s.db.rows ==>
              var row, t := s.db.rows[id], ConfigureStep(c, s, order, NoFault).mem.tasks[id];
              && t.job.(status := row.status, stage := row.stage) == row && !t.running && !t.reserved
              && (row.stage == Uploading ==> t.job.status == t.job.stage == Failed)
              && (row.stage in {Stopped, Failed, Completed} ==> t.job == row)
              && (row.stage in {Pending, Started, Downloading, Zipping} ==>
                    t.job.status == Pending && t.job.stage == row.stage)
  {
    hide Reachable, System, Core, RecoveredTasks, Recoverable, Step, RecoveredJob, Resumes;
    ReachableSystem(c, s);
    Unconfigured(c, s);
    StepSystem(c, s, Configure(order, NoFault));
    ConfigureResult(c, s, order);
    forall id | id in s.db.rows
      ensures var row, t := s.db.rows[id], ConfigureStep(c, s, order, NoFault).mem.tasks[id];
              && t.job.(status := row.status, stage := row.stage) == row && !t.running && !t.reserved
              && (row.stage == Uploading ==> t.job.status == t.job.stage == Failed)
              && (row.stage in {Stopped, Failed, Completed} ==> t.job == row)
              && (row.stage in {Pending, Started, Downloading, Zipping} ==>
                    t.job.status == Pending && t.job.stage == row.stage)
    {
      ReachableId(c, s, id);
      RowResumes(c, s, id);
    }
  }

  lemma RowResumes(c: Config, s: State, id: Id)
    requires IdInv(c, id, ViewOf(s, id)) && id in s.db.rows
    ensures var row, j := s.db.rows[id], RecoveredJob(s.db.rows[id]);
            && row.status == row.stage && j.(status := row.status, stage := row.stage) == row
            && (row.stage == Uploading ==> j.status == j.stage == Failed)
            && (row.stage in {Stopped, Failed, Completed} ==> j == row)
            && (row.stage in {Pending, Started, Downloading, Zipping} ==> j.status == Pending && j.stage == row.stage)
  {
  }

  lemma Unconfigured(c: Config, s: State)
    requires System(c, s) && !s.mem.configured
    ensures Core(c, s) && s.mem == Mem(false, map[], 0) && s.scan == None
    ensures forall order :: Step(c, s, Configure(order, NoFault)) == ConfigureStep(c, s, order, NoFault)
  {
    hide Budget, Ledger, DiskSafe, ConfigureStep;
    hide AddStep, StopStep, TickStep, ReadJobStep, FailStep, SaveStep, MeasureStep, StatfsStep, DecideStep, FinishStep;
    hide BeginUploadStep, UploadDoneStep, CheckStoppedStep, CleanStep, JobWriteStep, JobFreeStep;
  }

  // ---------------------------------------------------------------------- queue length

  lemma StepKeys(c: Config, s: State, a: Action)
    requires !a.Add? && !a.Configure?
    ensures Step(c, s, a).mem.tasks.Keys <= s.mem.tasks.Keys
  {
    hide Decide, Measured, SaveRow, FinishRow, Stoppable, Enumerates, OnDisk, WithStage;
  }

  lemma AddOpKeys(c: Config, mem: Mem, db: Db, req: Request, id: Id, fault: Fault)
    ensures var tasks' := AddOp(c, mem, db, req, id, fault).0.tasks;
            tasks' == mem.tasks || (|mem.tasks| < MAX_QUEUE_SIZE && tasks'.Keys == mem.tasks.Keys + {id})
  {
    hide CreateRow, NewJob, Active, AddableSelection;
  }

  lemma AddKeys(c: Config, s: State, req: Request, id: Id, fault: Fault)
    ensures var tasks' := AddStep(c, s, req, id, fault).mem.tasks;
            tasks' == s.mem.tasks
            || (|s.mem.tasks| < MAX_QUEUE_SIZE && tasks'.Keys == s.mem.tasks.Keys + {id})
  {
    hide AddOp;
    AddOpKeys(c, s.mem, s.db, req, id, fault);
  }

  /** Only a restart can leave more tasks than `Add` allows. */
  lemma QueueStaysBounded(c: Config, s: State, a: Action)
    requires |s.mem.tasks| <= MAX_QUEUE_SIZE && !a.Configure?
    ensures |Step(c, s, a).mem.tasks| <= MAX_QUEUE_SIZE
  {
    hide StopStep, TickStep, ReadJobStep, FailStep, SaveStep, MeasureStep, StatfsStep, DecideStep, FinishStep;
    hide AddStep, BeginUploadStep, UploadDoneStep, CheckStoppedStep, CleanStep, JobWriteStep, JobFreeStep,
      ConfigureStep;
    var before, after := s.mem.tasks, Step(c, s, a).mem.tasks;
    if a.Add? {
      AddKeys(c, s, a.req, a.id, a.fault);
      assert |after.Keys| <= |before.Keys| + 1;
    } else {
      StepKeys(c, s, a);
      SubsetSize(after.Keys, before.Keys);
    }
  }

  lemma SubsetSize(a: set<Id>, b: set<Id>)
    requires a <= b
    ensures |a| <= |b|
  {
    assert |b| == |a| + |b - a| by {
      assert b == a + (b - a);
    }
  }

  // -------------------------------------------------------------- acknowledged stops

  /** An HTTP caller stops a job only if it is theirs and stoppable, and changes nothing else. */
  lemma OwnedStop(mem: Mem, db: Db, id: Id, user: Text, fault: Fault)
    ensures var (mem', db', ok) := StopOp(mem, db, id, user, true, fault);
            && (ok ==> id in mem.tasks && mem.tasks[id].job.userID == user != EMPTY && Stoppable(mem.tasks[id].job)
                       && mem'.tasks[id].job.status == Stopped)
            && (id in mem.tasks && mem.tasks[id].job.userID != user ==> mem' == mem && db' == db)
            && mem'.tasks.Keys == mem.tasks.Keys && db'.rows.Keys == db.rows.Keys
            && mem'.active == mem.active && db'.metrics == db.metrics
            && (forall o :: o in mem.tasks && o != id ==> mem'.tasks[o] == mem.tasks[o])
            && ((id in mem.tasks ==> mem.tasks[id].job.id == id) ==>
                  forall o :: o in db.rows && o != id ==> db'.rows[o] == db.rows[o])
  {
  }

  lemma StepKeepsAcks(c: Config, s: State, a: Action)
    ensures s.hist.acked <= Step(c, s, a).hist.acked
  {
    hide StopOp, AddOp, SaveStageOp, MeasureOp, Decide, FinishOp, ConfigureOp, LaunchOp, AdmitOp;
  }

  lemma {:induction false} TraceKeepsAcks(c: Config, states: seq<State>, actions: seq<Action>, i: nat, j: nat)
    requires Trace(c, states, actions) && i <= j <= |actions|
    ensures states[i].hist.acked <= states[j].hist.acked
    decreases j
  {
    if i < j {
      TraceKeepsAcks(c, states, actions, i, j - 1);
      var a := actions[j - 1];
      StepKeepsAcks(c, states[j - 1], a);
      hide Step;
    }
  }

  /** Once a stop is acknowledged the job is never uploaded or completed, across restarts too. */
  lemma AcknowledgedStop(c: Config, states: seq<State>, actions: seq<Action>, i: nat, j: nat, id: Id)
    requires ValidConfig(c) && Trace(c, states, actions) && i <= j <= |actions|
    requires id in states[i].hist.acked
    ensures var s := states[j];
            && s.hist.uploads[id] == 0
            && (id in s.mem.tasks ==> Abandoned(s.mem.tasks[id].job.status))
            && (id in s.db.rows ==> Abandoned(s.db.rows[id].stage))
            && (id in s.hist.removed ==> Abandoned(s.hist.removed[id].key.status))
            && (id in s.db.rows || id in s.hist.removed)
  {
    TraceKeepsAcks(c, states, actions, i, j);
    TraceSystem(c, states, actions, j);
    hide Trace;
    CoreId(c, states[j], id);
  }
}
