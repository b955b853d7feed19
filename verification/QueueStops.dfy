/**
 How an acknowledged stop ends. The worker of the job looks for a stop once,
 before it locks for the terminal state: a stop that comes before that look
 lasts, whatever happens afterwards, and one that comes after it can be
 overwritten.
 */
module QueueStops {
  import opened JobStore
  import opened QueueInvariant
  import opened QueueOps
  import opened QueueProtocol
  import opened QueueSafety
  import opened QueueTheorems
  import opened Wrappers

  /** Every record of the job says that it is stopped, and no worker is about to write anything else. */
  ghost predicate Sticks(s: State, id: Id) {
    && id in s.hist.acked
    && (id in s.mem.tasks ==> s.mem.tasks[id].job.status == s.mem.tasks[id].job.stage == Stopped)
    && (id in s.db.rows ==> s.db.rows[id].status == s.db.rows[id].stage == Stopped)
    && (id in s.hist.removed ==> s.hist.removed[id].key.status == Stopped)
    && forall w :: 0 <= w < |s.workers| && s.workers[w].id == id && s.workers[w].pc.Finishing? ==>
         s.workers[w].pc.outcome == Stopped
  }

  /** The records of the job. */
  function Records(s: State, id: Id): (Option<Job>, Option<Job>, Option<Removal>) {
    (if id in s.mem.tasks then Some(s.mem.tasks[id].job) else None,
     if id in s.db.rows then Some(s.db.rows[id]) else None,
     if id in s.hist.removed then Some(s.hist.removed[id]) else None)
  }

  /** A worker that goes on, with the records of the job as they were. */
  lemma MovedSticks(s: State, s': State, id: Id, w: nat)
    requires Sticks(s, id) && Records(s', id) == Records(s, id) && s'.hist.acked == s.hist.acked
    requires w < |s.workers| == |s'.workers| && s'.workers == s.workers[w := s'.workers[w]]
    requires s'.workers[w].id == s.workers[w].id
    requires s'.workers[w].id == id && s'.workers[w].pc.Finishing? ==> s'.workers[w].pc.outcome == Stopped
    ensures Sticks(s', id)
  {
  }

  lemma AddSticks(c: Config, s: State, req: Request, o: Id, fault: Fault, id: Id)
    requires Core(c, s) && Sticks(s, id)
    ensures Sticks(AddStep(c, s, req, o, fault), id)
  {
    hide Core, Acceptable;
    CoreId(c, s, id);
  }

  lemma StopSticks(c: Config, s: State, o: Id, user: Text, owned: bool, fault: Fault, id: Id)
    requires Core(c, s) && Sticks(s, id)
    ensures Sticks(StopStep(s, o, user, owned, fault), id)
  {
    hide Core;
    CoreId(c, s, o);
  }

  /** A save changes no record of another job, and none of a stopped one. */
  lemma SaveRecords(mem: Mem, db: Db, o: Id, stage: Stage, fault: Fault, id: Id)
    requires o in mem.tasks && mem.tasks[o].job.id == o && (o == id ==> mem.tasks[o].job.status == Stopped)
    ensures var (mem', db', ok) := SaveStageOp(mem, db, o, stage, fault);
            && (id in mem'.tasks <==> id in mem.tasks) && (id in mem.tasks ==> mem'.tasks[id] == mem.tasks[id])
            && (id in db'.rows <==> id in db.rows) && (id in db.rows ==> db'.rows[id] == db.rows[id])
  {
    hide Updated;
  }

  lemma SaveSticks(c: Config, s: State, w: nat, stage: Stage, next: PC, fault: Fault, id: Id)
    requires Core(c, s) && Sticks(s, id) && w < |s.workers| && Live(s.workers[w].pc) && !next.Finishing?
    ensures s.workers[w].id in s.mem.tasks && Sticks(SaveStep(s, w, stage, next, fault), id)
  {
    hide Core, SaveStageOp;
    CoreWorker(c, s, w);
    SaveRecords(s.mem, s.db, s.workers[w].id, stage, fault, id);
    MovedSticks(s, SaveStep(s, w, stage, next, fault), id, w);
  }

  lemma MeasureSticks(c: Config, s: State, w: nat, info: Info, id: Id)
    requires Core(c, s) && Sticks(s, id)
    ensures Sticks(MeasureStep(c, s, w, info), id)
  {
    hide Core, Measured;
    if At(s, w, AwaitingInfo) {
      CoreWorker(c, s, w);
    }
  }

  lemma FinishSticks(c: Config, s: State, w: nat, saveFault: Fault, finishFault: Fault, day: int, id: Id)
    requires Core(c, s) && Sticks(s, id)
    ensures Sticks(FinishStep(s, w, saveFault, finishFault, day), id)
  {
    hide Core;
    if w < |s.workers| && s.workers[w].pc.Finishing? {
      CoreWorker(c, s, w);
      MovedSticksFinish(s, w, saveFault, finishFault, day, id);
    }
  }

  lemma MovedSticksFinish(s: State, w: nat, saveFault: Fault, finishFault: Fault, day: int, id: Id)
    requires Sticks(s, id) && w < |s.workers| && s.workers[w].pc.Finishing? && s.workers[w].id in s.mem.tasks
    requires s.mem.tasks[s.workers[w].id].job.id == s.workers[w].id && Terminal(s.workers[w].pc.outcome)
    ensures Sticks(FinishStep(s, w, saveFault, finishFault, day), id)
  {
    hide FinishOp;
    FinishDb(s.mem, s.db, s.workers[w].id, s.workers[w].pc.outcome, saveFault, finishFault, day);
  }

  lemma ConfigureSticks(c: Config, s: State, order: seq<Id>, fault: Fault, id: Id)
    requires Core(c, s) && Sticks(s, id)
    ensures Sticks(ConfigureStep(c, s, order, fault), id)
  {
    hide Core, RecoveredTasks, Recoverable;
    if Enumerates(order, s.db.rows.Keys) {
      ConfigureResult(c, s, order);
    }
  }

  lemma DecideSticks(c: Config, s: State, w: nat, inspected: bool, id: Id)
    requires Sticks(s, id)
    ensures Sticks(DecideStep(c, s, w, inspected), id)
  {
    hide Decide, Inspected, Missed, Sticks;
    var s' := DecideStep(c, s, w, inspected);
    if s' != s {
      MovedSticks(s, s', id, w);
    }
  }

  lemma StatfsSticks(s: State, w: nat, id: Id)
    requires Sticks(s, id)
    ensures Sticks(StatfsStep(s, w), id) && Sticks(CleanStep(s, w), id)
  {
    hide AnyAdmitted, Freed;
  }

  lemma BeginSticks(s: State, w: nat, id: Id)
    requires Sticks(s, id)
    ensures Sticks(BeginUploadStep(s, w), id) && Sticks(UploadDoneStep(s, w), id) && Sticks(FailStep(s, w), id)
  {
  }

  /** The two looks at the state of the task. */
  lemma LookSticks(s: State, w: nat, id: Id)
    requires Sticks(s, id)
    ensures Sticks(ReadJobStep(s, w), id) && Sticks(CheckStoppedStep(s, w), id)
  {
  }

  lemma SaveStepsSticks(c: Config, s: State, a: Action, id: Id)
    requires Core(c, s) && Sticks(s, id)
    requires a.SaveStarted? || a.SaveDownloading? || a.SaveZipping? || a.SaveUploading?
    ensures Sticks(Step(c, s, a), id)
  {
    hide Core, SaveStep, Sticks;
    match a
    case SaveStarted(w, fault) =>
      if At(s, w, Preparing) { SaveSticks(c, s, w, Started, AwaitingInfo, fault, id); }
    case SaveDownloading(w, fault) =>
      if At(s, w, Admitted) { SaveSticks(c, s, w, Downloading, Fetching, fault, id); }
    case SaveZipping(w, fault) =>
      if At(s, w, Fetching) { SaveSticks(c, s, w, Zipping, Packing, fault, id); }
    case SaveUploading(w, fault) =>
      if At(s, w, Packing) || At(s, w, Fetching) { SaveSticks(c, s, w, Uploading, UploadPersisted, fault, id); }
  }

  lemma TickSticks(s: State, order: seq<Id>, id: Id)
    requires Sticks(s, id)
    ensures Sticks(TickStep(s, order), id)
  {
    hide Enumerates, Idle;
  }

  lemma RestSticks(c: Config, s: State, a: Action, id: Id)
    requires Sticks(s, id)
    requires DiskStep(a)
    ensures Sticks(Step(c, s, a), id)
  {
    hide Step;
    DiskStepFrame(c, s, a);
  }

  lemma CrashSticks(c: Config, s: State, id: Id)
    requires Sticks(s, id)
    ensures Sticks(Step(c, s, Crash), id)
  {
    hide UploadingRows;
  }

  lemma StepSticks(c: Config, s: State, a: Action, id: Id)
    requires Core(c, s) && Sticks(s, id)
    ensures Sticks(Step(c, s, a), id)
  {
    hide Core, Sticks, AddStep, StopStep, TickStep, ReadJobStep, FailStep, SaveStep, MeasureStep, StatfsStep;
    hide DecideStep, BeginUploadStep, UploadDoneStep, CheckStoppedStep, FinishStep, CleanStep, ConfigureStep, At;
    hide JobWriteStep, JobFreeStep, InspectStep;
    match a
    case Crash => CrashSticks(c, s, id);
    case Add(req, o, fault) => AddSticks(c, s, req, o, fault, id);
    case Stop(o, user, owned, fault) => StopSticks(c, s, o, user, owned, fault, id);
    case Tick(order) => TickSticks(s, order, id);
    case Measure(w, info) => MeasureSticks(c, s, w, info, id);
    case Finish(w, saveFault, finishFault, day) => FinishSticks(c, s, w, saveFault, finishFault, day, id);
    case Configure(order, fault) => ConfigureSticks(c, s, order, fault, id);
    case DecideCapacity(w, inspected) => DecideSticks(c, s, w, inspected, id);
    case Statfs(w) => StatfsSticks(s, w, id);
    case Clean(w) => StatfsSticks(s, w, id);
    case BeginUpload(w) => BeginSticks(s, w, id);
    case UploadDone(w) => BeginSticks(s, w, id);
    case Fail(w) => BeginSticks(s, w, id);
    case ReadJob(w) => LookSticks(s, w, id);
    case CheckStopped(w) => LookSticks(s, w, id);
    case _ =>
      hide Step;
      if a.SaveStarted? || a.SaveDownloading? || a.SaveZipping? || a.SaveUploading? {
        SaveStepsSticks(c, s, a, id);
      } else {
        RestSticks(c, s, a, id);
      }
  }

  // ------------------------------------------------------------------------ whole runs

  /** Some run leads from the one state to the other. */
  ghost predicate Leads(c: Config, s: State, s': State) {
    exists states, actions :: Run(c, states, actions) && s == states[0] && s' == states[|actions|]
  }

  lemma {:induction false} RunSticks(c: Config, states: seq<State>, actions: seq<Action>, i: nat, id: Id)
    requires Run(c, states, actions) && i <= |actions| && Core(c, states[0]) && Sticks(states[0], id)
    ensures Core(c, states[i]) && Sticks(states[i], id)
  {
    hide Core, Sticks, Step;
    if i > 0 {
      RunSticks(c, states, actions, i - 1, id);
      assert states[i - 1 + 1] == Step(c, states[i - 1], actions[i - 1]);
      StepCore(c, states[i - 1], actions[i - 1]);
      StepSticks(c, states[i - 1], actions[i - 1], id);
    }
  }

  /** The step answers a stop of the job with success. */
  ghost predicate Acknowledges(c: Config, s: State, a: Action, id: Id) {
    id !in s.hist.acked && id in Step(c, s, a).hist.acked
  }

  /** A worker of the job has looked for a stop, and is about to lock for another terminal state. */
  predicate Closing(s: State, id: Id) {
    exists w :: 0 <= w < |s.workers| && s.workers[w].id == id && s.workers[w].pc.Finishing?
  }

  /** Only a stop acknowledges. */
  lemma AcknowledgesStop(c: Config, s: State, a: Action, id: Id)
    requires Acknowledges(c, s, a, id)
    ensures a.Stop? && a.id == id && s.scan == None
    ensures StopOp(s.mem, s.db, a.id, a.user, a.owned, a.fault).2
    ensures Step(c, s, a) == StopStep(s, a.id, a.user, a.owned, a.fault)
  {
    hide StopOp, AddOp, SaveStageOp, MeasureOp, Decide, FinishOp, ConfigureOp, LaunchOp, AdmitOp, Missed, Covered;
  }

  /** At that moment memory and row say "stopped". */
  lemma StopOpResult(mem: Mem, db: Db, id: Id, user: Text, owned: bool, fault: Fault)
    requires StopOp(mem, db, id, user, owned, fault).2 && mem.tasks[id].job.id == id
    ensures id in mem.tasks && Stoppable(mem.tasks[id].job) && id in db.rows
    ensures StopOp(mem, db, id, user, owned, fault) ==
            (WithJob(mem, id, WithStage(mem.tasks[id].job, Stopped)),
             db.(rows := db.rows[id := Updated(db.rows[id], WithStage(mem.tasks[id].job, Stopped))]), true)
  {
  }

  lemma LateStop(s: State, w: nat, day: int)
    requires w < |s.workers| && s.workers[w].id in s.mem.tasks && s.workers[w].id in s.db.rows
    requires s.mem.tasks[s.workers[w].id].job.id == s.workers[w].id
    requires s.workers[w].pc.Exiting? || (s.workers[w].pc.Finishing? && Terminal(s.workers[w].pc.outcome))
    requires Stoppable(s.mem.tasks[s.workers[w].id].job)
    ensures var id := s.workers[w].id;
            var stopped := StopStep(s, id, EMPTY, false, NoFault);
            var s' := FinishStep(CheckStoppedStep(stopped, w), w, NoFault, NoFault, day);
            && id in stopped.hist.acked && id in s'.hist.removed
            && s'.hist.removed[id].key.status == if s.workers[w].pc.Exiting? then Stopped else s.workers[w].pc.outcome
  {
    var id := s.workers[w].id;
    var stopped := StopStep(s, id, EMPTY, false, NoFault);
    assert stopped.mem.tasks[id].job.status == Stopped && id in stopped.db.rows;
    hide StopStep;
    var checked := CheckStoppedStep(stopped, w);
    assert checked.mem == stopped.mem && checked.db == stopped.db;
    hide CheckStoppedStep;
  }

  lemma StoppedSticks(c: Config, s: State, a: Action, id: Id)
    requires Core(c, s) && Acknowledges(c, s, a, id) && !Closing(s, id)
    ensures Sticks(Step(c, s, a), id)
  {
    hide Core, Step, StopOp, Acknowledges;
    CoreId(c, s, id);
    AcknowledgesStop(c, s, a, id);
    TaskHere(s.mem, s.db, id, a.user, a.owned, a.fault);
    StopOpResult(s.mem, s.db, id, a.user, a.owned, a.fault);
  }

  lemma TaskHere(mem: Mem, db: Db, id: Id, user: Text, owned: bool, fault: Fault)
    requires StopOp(mem, db, id, user, owned, fault).2
    ensures id in mem.tasks
  {
  }

  /**
   A stop that is acknowledged while no worker of the job is closing lasts: in
   every later state, across failures, retries, lost replies and restarts, all
   records of the job say that it is stopped.
   */
  lemma StopLasts(c: Config, s: State, a: Action, id: Id, s': State)
    requires ValidConfig(c) && Reachable(c, s) && Acknowledges(c, s, a, id) && !Closing(s, id)
    requires Leads(c, Step(c, s, a), s')
    ensures Sticks(s', id) && (id in s'.db.rows || id in s'.hist.removed)
  {
    hide Reachable, System, Core, Sticks, Step, Acknowledges, Closing;
    ReachableSystem(c, s);
    SystemCore(c, s);
    StoppedSticks(c, s, a, id);
    StepCore(c, s, a);
    var states, actions :| Run(c, states, actions) && Step(c, s, a) == states[0] && s' == states[|actions|];
    RunSticks(c, states, actions, |actions|, id);
    StuckCounted(c, s', id);
  }

  lemma StuckCounted(c: Config, s: State, id: Id)
    requires Core(c, s) && Sticks(s, id)
    ensures id in s.db.rows || id in s.hist.removed
  {
    hide Core;
    CoreId(c, s, id);
  }

  lemma LeadsNext(c: Config, s: State, a: Action)
    ensures Leads(c, s, Step(c, s, a))
  {
    hide Step;
    assert Run(c, [s, Step(c, s, a)], [a]);
  }

  /** A closing worker overwrites the stop with its own outcome, if its store calls work. */
  lemma ClosingOverwrites(c: Config, s: State, a: Action, id: Id) returns (s': State)
    requires ValidConfig(c) && Reachable(c, s) && Acknowledges(c, s, a, id) && Closing(s, id)
    ensures Leads(c, Step(c, s, a), s')
    ensures id in s'.hist.removed && s'.hist.removed[id].key.status != Stopped
  {
    hide Reachable, System, Step, StopOp, Acknowledges, Leads, FinishStep, CheckStoppedStep, StopStep;
    var w :| 0 <= w < |s.workers| && s.workers[w].id == id && s.workers[w].pc.Finishing?;
    ReachableId(c, s, id);
    ReachableWorker(c, s, w);
    AcknowledgesStop(c, s, a, id);
    TaskHere(s.mem, s.db, id, a.user, a.owned, a.fault);
    StopOpResult(s.mem, s.db, id, a.user, a.owned, a.fault);
    SameStop(s, a, id);
    LateStop(s, w, 0);
    s' := Step(c, Step(c, s, a), Finish(w, NoFault, NoFault, 0));
    ClosingFinish(c, StopStep(s, id, EMPTY, false, NoFault), s, w);
    LeadsNext(c, Step(c, s, a), Finish(w, NoFault, NoFault, 0));
  }

  /** Who asks makes no difference to a stop that works. */
  lemma SameStop(s: State, a: Action, id: Id)
    requires a.Stop? && a.id == id && StopOp(s.mem, s.db, id, a.user, a.owned, a.fault).2
    ensures StopStep(s, id, a.user, a.owned, a.fault) == StopStep(s, id, EMPTY, false, NoFault)
  {
  }

  lemma ClosingFinish(c: Config, stopped: State, s: State, w: nat)
    requires s.scan == None && w < |s.workers| && s.workers[w].pc.Finishing?
    requires stopped == StopStep(s, s.workers[w].id, EMPTY, false, NoFault)
    ensures Step(c, stopped, Finish(w, NoFault, NoFault, 0)) ==
            FinishStep(CheckStoppedStep(stopped, w), w, NoFault, NoFault, 0)
  {
    hide StopOp, FinishOp;
  }

  /**
   Some continuation counts the acknowledged stop as something else if and only
   if a worker of the job was closing when it was acknowledged.
   */
  lemma StopOverwritten(c: Config, s: State, a: Action, id: Id)
    requires ValidConfig(c) && Reachable(c, s) && Acknowledges(c, s, a, id)
    ensures (exists s' :: Leads(c, Step(c, s, a), s') && id in s'.hist.removed
                          && s'.hist.removed[id].key.status != Stopped)
            <==> Closing(s, id)
  {
    hide Reachable, Step, Acknowledges, Closing, Leads;
    if Closing(s, id) {
      var s' := ClosingOverwrites(c, s, a, id);
    } else {
      forall s' | Leads(c, Step(c, s, a), s') && id in s'.hist.removed
        ensures s'.hist.removed[id].key.status == Stopped
      {
        StopLasts(c, s, a, id, s');
      }
    }
  }
}
