/**
 What becomes of a job: it is counted as completed exactly when the remote side
 has answered its upload and no crash came before that was written down, and
 whatever is recorded about it is what was asked for.
 */
module QueueOutcome {
  import opened JobStore
  import opened QueueInvariant
  import opened QueueOps
  import opened QueueProtocol
  import opened QueueSafety
  import opened QueueTheorems
  import opened Wrappers

  /** The upload was answered, and no crash has found its row still uploading. */
  predicate Fulfilled(s: State, id: Id) {
    id in s.hist.answered && id !in s.hist.interrupted
  }

  predicate RowOutcome(s: State, id: Id) {
    id in s.db.rows ==>
      var stage := s.db.rows[id].stage;
      && (stage == Completed ==> Fulfilled(s, id))
      && (Fulfilled(s, id) ==> stage == Uploading || stage == Completed)
      && (id in s.hist.interrupted ==> stage == Uploading || stage == Failed)
      && (!s.mem.configured && stage == Uploading ==> id in s.hist.interrupted)
  }

  predicate TaskOutcome(s: State, id: Id) {
    id in s.mem.tasks ==>
      var status := s.mem.tasks[id].job.status;
      && (status == Completed ==> Fulfilled(s, id))
      && (Fulfilled(s, id) ==> status == Uploading || status == Completed)
      && (id in s.hist.interrupted ==> status == Failed)
  }

  /** Where a worker of the job can be. */
  predicate WorkerOutcome(s: State, id: Id, pc: PC) {
    match pc
    case Exiting(outcome) => id !in s.hist.interrupted && (outcome == Completed <==> Fulfilled(s, id))
    case Finishing(outcome) =>
      (outcome == Completed <==> Fulfilled(s, id)) && (id in s.hist.interrupted ==> outcome == Failed)
    case Launched | Cleaning(_) | Done => true
    case _ => !Fulfilled(s, id) && id !in s.hist.interrupted
  }

  ghost predicate OutcomeInv(s: State, id: Id) {
    && (id in s.hist.answered ==> s.hist.uploads[id] == 1)
    && (id in s.hist.interrupted ==> id in s.hist.inserted)
    && RowOutcome(s, id) && TaskOutcome(s, id)
    && (id in s.hist.removed ==> (s.hist.removed[id].key.status == Completed <==> Fulfilled(s, id)))
    && forall w :: 0 <= w < |s.workers| && s.workers[w].id == id ==> WorkerOutcome(s, id, s.workers[w].pc)
  }

  // ------------------------------------------------------------------ what a worker keeps

  /** Everything the invariant looks at, but for the workers. */
  predicate SameStory(s: State, s': State, id: Id) {
    && (id in s'.mem.tasks <==> id in s.mem.tasks)
    && (id in s.mem.tasks ==> s'.mem.tasks[id].job.status == s.mem.tasks[id].job.status)
    && (id in s'.db.rows <==> id in s.db.rows)
    && (id in s.db.rows ==> s'.db.rows[id].stage == s.db.rows[id].stage)
    && s'.mem.configured == s.mem.configured
    && (id in s'.hist.answered <==> id in s.hist.answered)
    && (id in s'.hist.interrupted <==> id in s.hist.interrupted)
    && (id in s.hist.inserted ==> id in s'.hist.inserted)
    && (id in s'.hist.removed <==> id in s.hist.removed)
    && (id in s.hist.removed ==> s'.hist.removed[id] == s.hist.removed[id])
    && (id in s.hist.answered ==> s'.hist.uploads[id] == s.hist.uploads[id])
  }

  lemma MovedOutcome(s: State, s': State, id: Id, w: nat)
    requires OutcomeInv(s, id) && SameStory(s, s', id)
    requires w < |s.workers| == |s'.workers| && s'.workers == s.workers[w := s'.workers[w]]
    requires s'.workers[w].id == s.workers[w].id
    requires s.workers[w].id == id ==> WorkerOutcome(s, id, s'.workers[w].pc)
    ensures OutcomeInv(s', id)
  {
    forall u | 0 <= u < |s'.workers| && s'.workers[u].id == id ensures WorkerOutcome(s', id, s'.workers[u].pc) {
      if u != w {
        assert s'.workers[u] == s.workers[u];
      }
    }
  }

  lemma SameOutcome(s: State, s': State, id: Id)
    requires OutcomeInv(s, id) && SameStory(s, s', id) && s'.workers == s.workers
    ensures OutcomeInv(s', id)
  {
  }

  lemma OutcomeAt(s: State, id: Id, w: nat)
    requires OutcomeInv(s, id) && w < |s.workers| && s.workers[w].id == id
    ensures WorkerOutcome(s, id, s.workers[w].pc) && TaskOutcome(s, id) && RowOutcome(s, id)
  {
  }

  // ----------------------------------------------------------------------------- the steps

  lemma AddOutcome(c: Config, s: State, req: Request, o: Id, fault: Fault, id: Id)
    requires Core(c, s) && OutcomeInv(s, id)
    ensures OutcomeInv(AddStep(c, s, req, o, fault), id)
  {
    hide Core, Acceptable, HashesInv, StoppedInv;
    CoreId(c, s, id);
    CoreId(c, s, o);
  }

  lemma StopOutcome(c: Config, s: State, o: Id, user: Text, owned: bool, fault: Fault, id: Id)
    requires Core(c, s) && OutcomeInv(s, id)
    ensures OutcomeInv(StopStep(s, o, user, owned, fault), id)
  {
    hide Core;
    CoreId(c, s, o);
  }

  /** A save writes one of the four working stages, for a job that is neither answered nor interrupted. */
  lemma SaveOutcome(c: Config, s: State, w: nat, stage: Stage, next: PC, fault: Fault, id: Id)
    requires Core(c, s) && OutcomeInv(s, id) && w < |s.workers| && Live(s.workers[w].pc)
    requires !Terminal(stage)
    requires s.workers[w].id == id ==> !Fulfilled(s, id) && id !in s.hist.interrupted
    requires !next.Exiting? && !next.Finishing?
    ensures s.workers[w].id in s.mem.tasks && OutcomeInv(SaveStep(s, w, stage, next, fault), id)
  {
    hide Core;
    CoreWorker(c, s, w);
    var s' := SaveStep(s, w, stage, next, fault);
    if s.workers[w].id != id {
      SaveElsewhere(s, w, stage, next, fault, id);
      MovedOutcome(s, s', id, w);
    } else {
      SaveHere(s, w, stage, next, fault);
    }
  }

  lemma SaveElsewhere(s: State, w: nat, stage: Stage, next: PC, fault: Fault, id: Id)
    requires w < |s.workers| && s.workers[w].id in s.mem.tasks && s.workers[w].id != id
    requires s.mem.tasks[s.workers[w].id].job.id == s.workers[w].id
    ensures SameStory(s, SaveStep(s, w, stage, next, fault), id)
  {
  }

  lemma SaveHere(s: State, w: nat, stage: Stage, next: PC, fault: Fault)
    requires w < |s.workers| && s.workers[w].id in s.mem.tasks && s.mem.configured && !Terminal(stage)
    requires s.mem.tasks[s.workers[w].id].job.id == s.workers[w].id
    requires OutcomeInv(s, s.workers[w].id) && !next.Exiting? && !next.Finishing?
    requires !Fulfilled(s, s.workers[w].id) && s.workers[w].id !in s.hist.interrupted
    ensures OutcomeInv(SaveStep(s, w, stage, next, fault), s.workers[w].id)
  {
    hide Updated;
    var id, s' := s.workers[w].id, SaveStep(s, w, stage, next, fault);
    assert id in s'.db.rows ==> id in s.db.rows && s'.db.rows[id].stage in {s.db.rows[id].stage, stage} by {
      UpdatedStage(s.db, s.mem.tasks[id].job, stage);
    }
    forall u | 0 <= u < |s'.workers| && s'.workers[u].id == id ensures WorkerOutcome(s', id, s'.workers[u].pc) {
      if u != w {
        assert s'.workers[u] == s.workers[u];
      }
    }
  }

  lemma UpdatedStage(db: Db, j: Job, stage: Stage)
    ensures forall id :: id in db.rows ==> Updated(db.rows[id], WithStage(j, stage)).stage == stage
  {
  }

  lemma MeasureOutcome(c: Config, s: State, w: nat, info: Info, id: Id)
    requires Core(c, s) && OutcomeInv(s, id)
    ensures OutcomeInv(MeasureStep(c, s, w, info), id)
  {
    hide Core, Measured, OutcomeInv;
    if At(s, w, AwaitingInfo) {
      if s.workers[w].id == id { OutcomeAt(s, id, w); }
      MovedOutcome(s, MeasureStep(c, s, w, info), id, w);
    }
  }

  lemma DecideOutcome(c: Config, s: State, w: nat, inspected: bool, id: Id)
    requires OutcomeInv(s, id)
    ensures OutcomeInv(DecideStep(c, s, w, inspected), id)
  {
    hide Decide, Inspected, Missed, OutcomeInv;
    var s' := DecideStep(c, s, w, inspected);
    if s' != s {
      if s.workers[w].id == id { OutcomeAt(s, id, w); }
      MovedOutcome(s, s', id, w);
    }
  }

  lemma StatfsOutcome(s: State, w: nat, id: Id)
    requires OutcomeInv(s, id)
    ensures OutcomeInv(StatfsStep(s, w), id)
  {
    hide AnyAdmitted, OutcomeInv;
    if StatfsStep(s, w) != s {
      if s.workers[w].id == id { OutcomeAt(s, id, w); }
      MovedOutcome(s, StatfsStep(s, w), id, w);
    }
  }

  lemma CleanOutcome(s: State, w: nat, id: Id)
    requires OutcomeInv(s, id)
    ensures OutcomeInv(CleanStep(s, w), id)
  {
    hide Freed, OutcomeInv;
    if CleanStep(s, w) != s {
      MovedOutcome(s, CleanStep(s, w), id, w);
    }
  }

  lemma MoveOutcome(c: Config, s: State, w: nat, id: Id)
    requires Core(c, s) && OutcomeInv(s, id)
    ensures OutcomeInv(BeginUploadStep(s, w), id) && OutcomeInv(FailStep(s, w), id)
    ensures OutcomeInv(ReadJobStep(s, w), id) && OutcomeInv(CheckStoppedStep(s, w), id)
  {
    hide Core, OutcomeInv;
    if w < |s.workers| {
      CoreWorker(c, s, w);
      if s.workers[w].id == id { OutcomeAt(s, id, w); }
      if BeginUploadStep(s, w) != s { BeginOutcome(c, s, w, id); }
      if FailStep(s, w) != s { MovedOutcome(s, FailStep(s, w), id, w); }
      if ReadJobStep(s, w) != s { MovedOutcome(s, ReadJobStep(s, w), id, w); }
      if CheckStoppedStep(s, w) != s { MovedOutcome(s, CheckStoppedStep(s, w), id, w); }
    }
  }

  lemma BeginOutcome(c: Config, s: State, w: nat, id: Id)
    requires Core(c, s) && OutcomeInv(s, id) && At(s, w, UploadPersisted)
    ensures OutcomeInv(BeginUploadStep(s, w), id)
  {
    hide Core;
    CoreWorker(c, s, w);
    if s.workers[w].id == id { OutcomeAt(s, id, w); }
    MovedOutcome(s, BeginUploadStep(s, w), id, w);
  }

  lemma DoneOutcome(c: Config, s: State, w: nat, id: Id)
    requires Core(c, s) && OutcomeInv(s, id)
    ensures OutcomeInv(UploadDoneStep(s, w), id)
  {
    hide Core;
    if At(s, w, Sending) {
      CoreWorker(c, s, w);
      CoreId(c, s, id);
      var s' := UploadDoneStep(s, w);
      if s.workers[w].id != id {
        MovedOutcome(s, s', id, w);
      } else {
        OutcomeAt(s, id, w);
        forall u | 0 <= u < |s'.workers| && s'.workers[u].id == id ensures WorkerOutcome(s', id, s'.workers[u].pc) {
          if u != w {
            assert s'.workers[u] == s.workers[u];
            if Live(s.workers[u].pc) { OnlyWorker(c, s, w, u); }
          }
        }
      }
    }
  }

  lemma FinishElsewhere(s: State, w: nat, saveFault: Fault, finishFault: Fault, day: int, id: Id)
    requires w < |s.workers| && s.workers[w].id in s.mem.tasks && s.workers[w].id != id && s.workers[w].pc.Finishing?
    requires s.mem.tasks[s.workers[w].id].job.id == s.workers[w].id && Terminal(s.workers[w].pc.outcome)
    ensures SameStory(s, FinishStep(s, w, saveFault, finishFault, day), id)
  {
    FinishDb(s.mem, s.db, s.workers[w].id, s.workers[w].pc.outcome, saveFault, finishFault, day);
    hide FinishOp, SaveRow;
  }

  lemma FinishHere(s: State, w: nat, saveFault: Fault, finishFault: Fault, day: int)
    requires w < |s.workers| && s.workers[w].id in s.mem.tasks && s.workers[w].pc.Finishing? && s.mem.configured
    requires s.mem.tasks[s.workers[w].id].job.id == s.workers[w].id && Terminal(s.workers[w].pc.outcome)
    requires OutcomeInv(s, s.workers[w].id)
    ensures OutcomeInv(FinishStep(s, w, saveFault, finishFault, day), s.workers[w].id)
  {
    var id, outcome := s.workers[w].id, s.workers[w].pc.outcome;
    FinishDb(s.mem, s.db, id, outcome, saveFault, finishFault, day);
    UpdatedStage(s.db, s.mem.tasks[id].job, outcome);
    hide FinishOp, SaveRow, Updated;
    var s' := FinishStep(s, w, saveFault, finishFault, day);
    forall u | 0 <= u < |s'.workers| && s'.workers[u].id == id ensures WorkerOutcome(s', id, s'.workers[u].pc) {
      if u != w {
        assert s'.workers[u] == s.workers[u];
      }
    }
  }

  lemma FinishOutcome(c: Config, s: State, w: nat, saveFault: Fault, finishFault: Fault, day: int, id: Id)
    requires Core(c, s) && OutcomeInv(s, id)
    ensures OutcomeInv(FinishStep(s, w, saveFault, finishFault, day), id)
  {
    hide Core, OutcomeInv, FinishOp, SaveRow;
    if w < |s.workers| && s.workers[w].pc.Finishing? {
      CoreWorker(c, s, w);
      if s.workers[w].id == id {
        FinishHere(s, w, saveFault, finishFault, day);
      } else {
        FinishElsewhere(s, w, saveFault, finishFault, day, id);
        MovedOutcome(s, FinishStep(s, w, saveFault, finishFault, day), id, w);
      }
    }
  }

  lemma ConfigureOutcome(c: Config, s: State, order: seq<Id>, fault: Fault, id: Id)
    requires Core(c, s) && OutcomeInv(s, id)
    ensures OutcomeInv(ConfigureStep(c, s, order, fault), id)
  {
    hide Core, RecoveredTasks, Recoverable;
    CoreId(c, s, id);
    if Enumerates(order, s.db.rows.Keys) {
      ConfigureResult(c, s, order);
    }
  }

  lemma CrashOutcome(c: Config, s: State, id: Id)
    requires Core(c, s) && OutcomeInv(s, id)
    ensures OutcomeInv(Step(c, s, Crash), id)
  {
    hide Core;
    CoreId(c, s, id);
  }

  lemma TickOutcome(s: State, order: seq<Id>, id: Id)
    requires OutcomeInv(s, id)
    ensures OutcomeInv(TickStep(s, order), id)
  {
    hide Enumerates, Idle;
  }

  lemma RestOutcome(c: Config, s: State, a: Action, id: Id)
    requires OutcomeInv(s, id)
    requires DiskStep(a)
    ensures OutcomeInv(Step(c, s, a), id)
  {
    hide OutcomeInv, Step;
    DiskStepFrame(c, s, a);
    SameOutcome(s, Step(c, s, a), id);
  }

  lemma SaveStepsOutcome(c: Config, s: State, a: Action, id: Id)
    requires Core(c, s) && OutcomeInv(s, id)
    requires a.SaveStarted? || a.SaveDownloading? || a.SaveZipping? || a.SaveUploading?
    ensures OutcomeInv(Step(c, s, a), id)
  {
    hide Core, SaveStep, OutcomeInv;
    if a.w < |s.workers| && s.workers[a.w].id == id { OutcomeAt(s, id, a.w); }
    match a
    case SaveStarted(w, fault) =>
      if At(s, w, Preparing) { SaveOutcome(c, s, w, Started, AwaitingInfo, fault, id); }
    case SaveDownloading(w, fault) =>
      if At(s, w, Admitted) { SaveOutcome(c, s, w, Downloading, Fetching, fault, id); }
    case SaveZipping(w, fault) =>
      if At(s, w, Fetching) { SaveOutcome(c, s, w, Zipping, Packing, fault, id); }
    case SaveUploading(w, fault) =>
      if At(s, w, Packing) || At(s, w, Fetching) { SaveOutcome(c, s, w, Uploading, UploadPersisted, fault, id); }
  }

  lemma StepOutcome(c: Config, s: State, a: Action, id: Id)
    requires Core(c, s) && OutcomeInv(s, id)
    ensures OutcomeInv(Step(c, s, a), id)
  {
    hide Core, OutcomeInv, AddStep, StopStep, TickStep, ReadJobStep, FailStep, SaveStep, MeasureStep, StatfsStep;
    hide DecideStep, BeginUploadStep, UploadDoneStep, CheckStoppedStep, FinishStep, CleanStep, ConfigureStep, At;
    hide JobWriteStep, JobFreeStep, InspectStep;
    match a
    case Add(req, o, fault) => AddOutcome(c, s, req, o, fault, id);
    case Stop(o, user, owned, fault) => StopOutcome(c, s, o, user, owned, fault, id);
    case Tick(order) => TickOutcome(s, order, id);
    case Measure(w, info) => MeasureOutcome(c, s, w, info, id);
    case Finish(w, saveFault, finishFault, day) => FinishOutcome(c, s, w, saveFault, finishFault, day, id);
    case Configure(order, fault) => ConfigureOutcome(c, s, order, fault, id);
    case DecideCapacity(w, inspected) => DecideOutcome(c, s, w, inspected, id);
    case Statfs(w) => StatfsOutcome(s, w, id);
    case Clean(w) => CleanOutcome(s, w, id);
    case BeginUpload(w) => MoveOutcome(c, s, w, id);
    case UploadDone(w) => DoneOutcome(c, s, w, id);
    case Fail(w) => MoveOutcome(c, s, w, id);
    case ReadJob(w) => MoveOutcome(c, s, w, id);
    case CheckStopped(w) => MoveOutcome(c, s, w, id);
    case _ =>
      hide Step;
      if a.SaveStarted? || a.SaveDownloading? || a.SaveZipping? || a.SaveUploading? {
        SaveStepsOutcome(c, s, a, id);
      } else if a.Crash? {
        CrashOutcome(c, s, id);
      } else {
        RestOutcome(c, s, a, id);
      }
  }

  // ------------------------------------------------------------------------ whole runs

  lemma {:induction false} TraceOutcome(c: Config, states: seq<State>, actions: seq<Action>, i: nat, id: Id)
    requires ValidConfig(c) && Trace(c, states, actions) && i <= |actions|
    ensures OutcomeInv(states[i], id)
  {
    hide Step, System, OutcomeInv;
    if i == 0 {
      var free :| states[0] == Initial(free);
      InitialOutcome(free, id);
    } else {
      TraceOutcome(c, states, actions, i - 1, id);
      TraceSystem(c, states, actions, i - 1);
      SystemCore(c, states[i - 1]);
      assert states[i - 1 + 1] == Step(c, states[i - 1], actions[i - 1]);
      StepOutcome(c, states[i - 1], actions[i - 1], id);
    }
  }

  lemma InitialOutcome(free: nat, id: Id)
    ensures OutcomeInv(Initial(free), id)
  {
  }

  lemma ReachableOutcome(c: Config, s: State, id: Id)
    requires ValidConfig(c) && Reachable(c, s)
    ensures OutcomeInv(s, id)
  {
    hide OutcomeInv;
    var states, actions :| Trace(c, states, actions) && s == states[|actions|];
    TraceOutcome(c, states, actions, |actions|, id);
  }

  /**
   A job is counted as completed if and only if the remote side has answered its
   upload and no crash came while the row still said "uploading".
   */
  lemma CompletedExact(c: Config, s: State, id: Id)
    requires ValidConfig(c) && Reachable(c, s) && id in s.hist.removed
    ensures s.hist.removed[id].key.status == Completed <==> id in s.hist.answered && id !in s.hist.interrupted
  {
    hide Reachable;
    ReachableOutcome(c, s, id);
  }
}
