/** Whatever is recorded about a job is what was asked for with it, restarts included. */
module QueueRequests {
  import opened JobStore
  import opened QueueInvariant
  import opened QueueOps
  import opened QueueProtocol
  import opened QueueSafety
  import opened QueueTheorems
  import opened Wrappers

  predicate Asked(j: Job, req: Request) {
    j.magnet == req.magnet && j.selected == req.selected && j.zipped == req.zipped && j.userID == req.userID
  }

  /** Name and sizes, as the metadata gives them. */
  predicate SameSizes(j: Job, row: Job) {
    row.name == j.name && row.size == j.size && row.reserved == j.reserved
  }

  predicate Working(stage: Stage) {
    stage == Downloading || stage == Zipping || stage == Uploading
  }

  ghost predicate Remembers(s: State, id: Id) {
    && (id in s.db.rows || id in s.mem.tasks ==> id in s.hist.requests)
    && (id in s.db.rows ==> Asked(s.db.rows[id], s.hist.requests[id]))
    && (id in s.mem.tasks ==> Asked(s.mem.tasks[id].job, s.hist.requests[id]))
    && (id in s.db.rows && id in s.mem.tasks && Working(s.db.rows[id].stage) ==>
          SameSizes(s.mem.tasks[id].job, s.db.rows[id]))
    && forall w :: 0 <= w < |s.workers| && s.workers[w].id == id && s.workers[w].pc == AwaitingInfo ==>
         id in s.db.rows ==> !Working(s.db.rows[id].stage)
  }

  /** The records are the same. */
  predicate SameRecords(s: State, s': State, id: Id) {
    && (id in s'.mem.tasks <==> id in s.mem.tasks)
    && (id in s.mem.tasks ==> s'.mem.tasks[id].job == s.mem.tasks[id].job)
    && (id in s'.db.rows <==> id in s.db.rows)
    && (id in s.db.rows ==> s'.db.rows[id] == s.db.rows[id])
    && (id in s.hist.requests ==> id in s'.hist.requests && s'.hist.requests[id] == s.hist.requests[id])
  }

  lemma MovedRemembers(s: State, s': State, id: Id, w: nat)
    requires Remembers(s, id) && SameRecords(s, s', id)
    requires w < |s.workers| == |s'.workers| && s'.workers == s.workers[w := s'.workers[w]]
    requires s'.workers[w].id == s.workers[w].id
    requires s.workers[w].id == id && s'.workers[w].pc == AwaitingInfo && id in s.db.rows ==>
               !Working(s.db.rows[id].stage)
    ensures Remembers(s', id)
  {
    forall u | 0 <= u < |s'.workers| && s'.workers[u].id == id && s'.workers[u].pc == AwaitingInfo && id in s'.db.rows
      ensures !Working(s'.db.rows[id].stage)
    {
      if u != w {
        assert s'.workers[u] == s.workers[u];
      }
    }
  }

  lemma SameRemembers(s: State, s': State, id: Id)
    requires Remembers(s, id) && SameRecords(s, s', id) && s'.workers == s.workers
    ensures Remembers(s', id)
  {
  }

  lemma OthersSame(c: Config, s: State, req: Request, o: Id, fault: Fault, id: Id)
    requires id != o
    ensures var s' := AddStep(c, s, req, o, fault); SameRecords(s, s', id) && s'.workers == s.workers
  {
    hide Acceptable;
  }

  lemma AddedRemembers(c: Config, s: State, req: Request, o: Id, fault: Fault)
    requires IdInv(c, o, ViewOf(s, o)) && Remembers(s, o)
    ensures Remembers(AddStep(c, s, req, o, fault), o)
  {
    hide Acceptable, SoundRow;
  }

  lemma AddRemembers(c: Config, s: State, req: Request, o: Id, fault: Fault, id: Id)
    requires Core(c, s) && Remembers(s, id)
    ensures Remembers(AddStep(c, s, req, o, fault), id)
  {
    hide Core, Remembers, AddStep;
    CoreId(c, s, o);
    if id == o {
      AddedRemembers(c, s, req, o, fault);
    } else {
      OthersSame(c, s, req, o, fault, id);
      SameRemembers(s, AddStep(c, s, req, o, fault), id);
    }
  }

  lemma StopRemembers(c: Config, s: State, o: Id, user: Text, owned: bool, fault: Fault, id: Id)
    requires Core(c, s) && Remembers(s, id)
    ensures Remembers(StopStep(s, o, user, owned, fault), id)
  {
    hide Core;
    CoreId(c, s, o);
  }

  /** One save: row and task say the same afterwards, if the row was written. */
  lemma SaveRecords(mem: Mem, db: Db, o: Id, stage: Stage, fault: Fault, id: Id)
    requires o in mem.tasks && mem.tasks[o].job.id == o
    ensures var (mem', db', ok) := SaveStageOp(mem, db, o, stage, fault);
            && (id in mem'.tasks <==> id in mem.tasks) && (id in db'.rows <==> id in db.rows)
            && (id in mem.tasks ==> mem'.tasks[id].job.(status := Pending, stage := Pending)
                                    == mem.tasks[id].job.(status := Pending, stage := Pending))
            && (id in db.rows && id != o ==> db'.rows[id] == db.rows[id])
            && (id in db.rows && id == o && db'.rows[id] != db.rows[id] ==>
                  db'.rows[id] == Updated(db.rows[id], WithStage(mem.tasks[o].job, stage)))
            && (ok ==> o in db.rows && db'.rows[o] == Updated(db.rows[o], WithStage(mem.tasks[o].job, stage)))
  {
    hide Updated, Terminal;
    if id == o {
      assert mem.tasks[id].job.(status := Pending, stage := Pending)
          == WithStage(mem.tasks[id].job, stage).(status := Pending, stage := Pending);
    }
  }

  lemma SaveRemembers(c: Config, s: State, w: nat, stage: Stage, next: PC, fault: Fault, id: Id)
    requires Core(c, s) && Remembers(s, id) && w < |s.workers| && Live(s.workers[w].pc)
    requires next == AwaitingInfo ==> stage == Started
    ensures s.workers[w].id in s.mem.tasks && Remembers(SaveStep(s, w, stage, next, fault), id)
  {
    hide Core, SaveStageOp;
    CoreWorker(c, s, w);
    SaveRecords(s.mem, s.db, s.workers[w].id, stage, fault, id);
    var s' := SaveStep(s, w, stage, next, fault);
    forall u | 0 <= u < |s'.workers| && s'.workers[u].id == id && s'.workers[u].pc == AwaitingInfo && id in s'.db.rows
      ensures !Working(s'.db.rows[id].stage)
    {
      if u != w {
        assert s'.workers[u] == s.workers[u];
        if s.workers[w].id == id { OnlyWorker(c, s, w, u); }
      }
    }
  }

  lemma MeasureRemembers(c: Config, s: State, w: nat, info: Info, id: Id)
    requires Core(c, s) && Remembers(s, id)
    ensures Remembers(MeasureStep(c, s, w, info), id)
  {
    hide Core, Measured;
    if At(s, w, AwaitingInfo) {
      CoreWorker(c, s, w);
    }
  }

  lemma DecideRemembers(c: Config, s: State, w: nat, inspected: bool, id: Id)
    requires Remembers(s, id)
    ensures Remembers(DecideStep(c, s, w, inspected), id)
  {
    hide Decide, Inspected, Missed, Remembers;
    if DecideStep(c, s, w, inspected) != s {
      MovedRemembers(s, DecideStep(c, s, w, inspected), id, w);
    }
  }

  lemma MoveRemembers(s: State, w: nat, id: Id)
    requires Remembers(s, id)
    ensures Remembers(BeginUploadStep(s, w), id) && Remembers(UploadDoneStep(s, w), id) && Remembers(FailStep(s, w), id)
  {
    hide Remembers;
    if BeginUploadStep(s, w) != s { MovedRemembers(s, BeginUploadStep(s, w), id, w); }
    if UploadDoneStep(s, w) != s { MovedRemembers(s, UploadDoneStep(s, w), id, w); }
    if FailStep(s, w) != s { MovedRemembers(s, FailStep(s, w), id, w); }
  }

  lemma LookRemembers(s: State, w: nat, id: Id)
    requires Remembers(s, id)
    ensures Remembers(ReadJobStep(s, w), id) && Remembers(CheckStoppedStep(s, w), id)
    ensures Remembers(StatfsStep(s, w), id) && Remembers(CleanStep(s, w), id)
  {
    hide Remembers, AnyAdmitted, Freed;
    if ReadJobStep(s, w) != s { MovedRemembers(s, ReadJobStep(s, w), id, w); }
    if CheckStoppedStep(s, w) != s { MovedRemembers(s, CheckStoppedStep(s, w), id, w); }
    if StatfsStep(s, w) != s { MovedRemembers(s, StatfsStep(s, w), id, w); }
    if CleanStep(s, w) != s { MovedRemembers(s, CleanStep(s, w), id, w); }
  }

  lemma FinishRemembers(c: Config, s: State, w: nat, saveFault: Fault, finishFault: Fault, day: int, id: Id)
    requires Core(c, s) && Remembers(s, id)
    ensures Remembers(FinishStep(s, w, saveFault, finishFault, day), id)
  {
    hide Core;
    if w < |s.workers| && s.workers[w].pc.Finishing? {
      CoreWorker(c, s, w);
      FinishRecords(s, w, saveFault, finishFault, day, id);
    }
  }

  lemma FinishRecords(s: State, w: nat, saveFault: Fault, finishFault: Fault, day: int, id: Id)
    requires Remembers(s, id) && w < |s.workers| && s.workers[w].pc.Finishing? && s.workers[w].id in s.mem.tasks
    requires s.mem.tasks[s.workers[w].id].job.id == s.workers[w].id && Terminal(s.workers[w].pc.outcome)
    ensures Remembers(FinishStep(s, w, saveFault, finishFault, day), id)
  {
    FinishDb(s.mem, s.db, s.workers[w].id, s.workers[w].pc.outcome, saveFault, finishFault, day);
    hide FinishOp, SaveRow;
  }

  lemma ConfigureRemembers(c: Config, s: State, order: seq<Id>, fault: Fault, id: Id)
    requires Core(c, s) && Remembers(s, id)
    ensures Remembers(ConfigureStep(c, s, order, fault), id)
  {
    hide Core, RecoveredTasks, Recoverable;
    CoreId(c, s, id);
    if Enumerates(order, s.db.rows.Keys) {
      ConfigureResult(c, s, order);
    }
  }

  lemma TickRemembers(s: State, order: seq<Id>, id: Id)
    requires Remembers(s, id)
    ensures Remembers(TickStep(s, order), id)
  {
    hide Enumerates, Idle;
  }

  lemma RestRemembers(c: Config, s: State, a: Action, id: Id)
    requires Remembers(s, id)
    requires DiskStep(a)
    ensures Remembers(Step(c, s, a), id)
  {
    hide Remembers, Step;
    DiskStepFrame(c, s, a);
    SameRemembers(s, Step(c, s, a), id);
  }

  lemma CrashRemembers(c: Config, s: State, id: Id)
    requires Remembers(s, id)
    ensures Remembers(Step(c, s, Crash), id)
  {
    hide UploadingRows;
  }

  lemma SaveStepsRemember(c: Config, s: State, a: Action, id: Id)
    requires Core(c, s) && Remembers(s, id)
    requires a.SaveStarted? || a.SaveDownloading? || a.SaveZipping? || a.SaveUploading?
    ensures Remembers(Step(c, s, a), id)
  {
    hide Core, SaveStep, Remembers;
    match a
    case SaveStarted(w, fault) =>
      if At(s, w, Preparing) { SaveRemembers(c, s, w, Started, AwaitingInfo, fault, id); }
    case SaveDownloading(w, fault) =>
      if At(s, w, Admitted) { SaveRemembers(c, s, w, Downloading, Fetching, fault, id); }
    case SaveZipping(w, fault) =>
      if At(s, w, Fetching) { SaveRemembers(c, s, w, Zipping, Packing, fault, id); }
    case SaveUploading(w, fault) =>
      if At(s, w, Packing) || At(s, w, Fetching) { SaveRemembers(c, s, w, Uploading, UploadPersisted, fault, id); }
  }

  lemma StepRemembers(c: Config, s: State, a: Action, id: Id)
    requires Core(c, s) && Remembers(s, id)
    ensures Remembers(Step(c, s, a), id)
  {
    hide Core, Remembers, AddStep, StopStep, TickStep, ReadJobStep, FailStep, SaveStep, MeasureStep, StatfsStep;
    hide DecideStep, BeginUploadStep, UploadDoneStep, CheckStoppedStep, FinishStep, CleanStep, ConfigureStep, At;
    hide JobWriteStep, JobFreeStep, InspectStep;
    match a
    case Add(req, o, fault) => AddRemembers(c, s, req, o, fault, id);
    case Stop(o, user, owned, fault) => StopRemembers(c, s, o, user, owned, fault, id);
    case Tick(order) => TickRemembers(s, order, id);
    case Measure(w, info) => MeasureRemembers(c, s, w, info, id);
    case Finish(w, saveFault, finishFault, day) => FinishRemembers(c, s, w, saveFault, finishFault, day, id);
    case Configure(order, fault) => ConfigureRemembers(c, s, order, fault, id);
    case DecideCapacity(w, inspected) => DecideRemembers(c, s, w, inspected, id);
    case Crash => CrashRemembers(c, s, id);
    case Statfs(w) => LookRemembers(s, w, id);
    case Clean(w) => LookRemembers(s, w, id);
    case BeginUpload(w) => MoveRemembers(s, w, id);
    case UploadDone(w) => MoveRemembers(s, w, id);
    case Fail(w) => MoveRemembers(s, w, id);
    case ReadJob(w) => LookRemembers(s, w, id);
    case CheckStopped(w) => LookRemembers(s, w, id);
    case _ =>
      hide Step;
      if a.SaveStarted? || a.SaveDownloading? || a.SaveZipping? || a.SaveUploading? {
        SaveStepsRemember(c, s, a, id);
      } else {
        RestRemembers(c, s, a, id);
      }
  }

  // ------------------------------------------------------------------------ whole runs

  lemma InitialRemembers(free: nat, id: Id)
    ensures Remembers(Initial(free), id)
  {
  }

  lemma {:induction false} TraceRemembers(c: Config, states: seq<State>, actions: seq<Action>, i: nat, id: Id)
    requires ValidConfig(c) && Trace(c, states, actions) && i <= |actions|
    ensures Remembers(states[i], id)
  {
    hide Step, System, Remembers;
    if i == 0 {
      var free :| states[0] == Initial(free);
      InitialRemembers(free, id);
    } else {
      TraceRemembers(c, states, actions, i - 1, id);
      TraceSystem(c, states, actions, i - 1);
      SystemCore(c, states[i - 1]);
      assert states[i - 1 + 1] == Step(c, states[i - 1], actions[i - 1]);
      StepRemembers(c, states[i - 1], actions[i - 1], id);
    }
  }

  /**
   Row and task of a job carry the magnet, the selection, the ZIP flag and the
   owner of the request it was inserted for; and while the row says that work is
   under way, it has the name and the sizes of the task.
   */
  lemma RequestSurvives(c: Config, s: State, id: Id)
    requires ValidConfig(c) && Reachable(c, s)
    ensures id in s.db.rows ==>
              && id in s.hist.requests
              && var row, req := s.db.rows[id], s.hist.requests[id];
                 && row.magnet == req.magnet && row.selected == req.selected
                 && row.zipped == req.zipped && row.userID == req.userID
    ensures id in s.mem.tasks ==>
              && id in s.hist.requests
              && var j, req := s.mem.tasks[id].job, s.hist.requests[id];
                 && j.magnet == req.magnet && j.selected == req.selected
                 && j.zipped == req.zipped && j.userID == req.userID
    ensures id in s.db.rows && id in s.mem.tasks && s.db.rows[id].stage in {Downloading, Zipping, Uploading} ==>
              var row, j := s.db.rows[id], s.mem.tasks[id].job;
              row.name == j.name && row.size == j.size && row.reserved == j.reserved
  {
    hide Step;
    var states, actions :| Trace(c, states, actions) && s == states[|actions|];
    TraceRemembers(c, states, actions, |actions|, id);
  }
}
