/**
 Most steps leave every total of the system alone: they neither admit nor
 release a reservation, forget a task, count a row, nor write to the disk.
 */
module QueueQuiet {
  import opened JobStore
  import opened QueueInvariant
  import opened QueueOps
  import opened QueueProtocol
  import opened QueueSafety
  import opened Wrappers

  function Held(tasks: map<Id, Task>, id: Id): Option<int> {
    if id in tasks && tasks[id].reserved then Some(tasks[id].job.reserved) else None
  }

  ghost predicate SameHeld(mem: Mem, mem': Mem) {
    mem'.active == mem.active && forall id :: Held(mem'.tasks, id) == Held(mem.tasks, id)
  }

  /** A capacity check is in progress. */
  predicate Checking(s: State) {
    s.scan.Some? && s.scan.value < |s.workers| && s.workers[s.scan.value].pc.Scanning?
  }

  /** The free space it has sampled. */
  function Sample(s: State): nat {
    if Checking(s) then s.workers[s.scan.value].pc.sample else 0
  }

  /** For whom it is. */
  function Candidate(s: State): Option<Id> {
    if Checking(s) then Some(s.workers[s.scan.value].id) else None
  }

  ghost predicate Quiet(s: State, s': State) {
    && SameHeld(s.mem, s'.mem)
    && s.mem.tasks.Keys <= s'.mem.tasks.Keys
    && s'.db.metrics == s.db.metrics
    && s'.hist.removed == s.hist.removed
    && s'.disk == s.disk
    && (Checking(s') ==> Checking(s) && Sample(s') == Sample(s) && Candidate(s') == Candidate(s))
  }

  predicate Loud(a: Action) {
    a.DecideCapacity? || a.Finish? || a.Clean? || a.Statfs? || a.Inspect? || a.Crash? || a.Configure?
    || a.JobWrite? || a.JobFree? || a.ForeignWrite? || a.ForeignFree?
  }

  lemma AddQuiet(c: Config, s: State, req: Request, id: Id, fault: Fault)
    requires id !in s.hist.used ==> id !in s.mem.tasks
    ensures Quiet(s, AddStep(c, s, req, id, fault))
  {
    hide Acceptable;
  }

  lemma StopQuiet(s: State, id: Id, user: Text, owned: bool, fault: Fault)
    ensures Quiet(s, StopStep(s, id, user, owned, fault))
  {
  }

  lemma TickQuiet(s: State, order: seq<Id>)
    ensures Quiet(s, TickStep(s, order))
  {
    hide Enumerates;
  }

  lemma GotoQuiet(s: State, w: nat, pc: PC)
    requires w < |s.workers| && !pc.Scanning?
    ensures Quiet(s, Goto(s, w, pc))
  {
  }

  lemma SaveQuiet(s: State, w: nat, stage: Stage, next: PC, fault: Fault)
    requires w < |s.workers| && s.workers[w].id in s.mem.tasks && !next.Scanning?
    ensures Quiet(s, SaveStep(s, w, stage, next, fault))
  {
  }

  lemma MeasureQuiet(c: Config, s: State, w: nat, info: Info)
    requires At(s, w, AwaitingInfo) ==> !s.mem.tasks[s.workers[w].id].reserved
    ensures Quiet(s, MeasureStep(c, s, w, info))
  {
    hide Measured;
  }

  lemma BeginUploadQuiet(s: State, w: nat)
    ensures Quiet(s, BeginUploadStep(s, w))
  {
  }

  lemma MoveQuiet(s: State, w: nat)
    ensures Quiet(s, ReadJobStep(s, w)) && Quiet(s, FailStep(s, w))
    ensures Quiet(s, UploadDoneStep(s, w)) && Quiet(s, CheckStoppedStep(s, w))
  {
    forall pc: PC | w < |s.workers| && !pc.Scanning? ensures Quiet(s, Goto(s, w, pc)) {
      GotoQuiet(s, w, pc);
    }
    assert Quiet(s, s);
    hide Quiet, Goto;
  }

  lemma SameQuiet(s: State)
    ensures Quiet(s, s)
  {
  }

  lemma SaveStepsQuiet(c: Config, s: State, a: Action)
    requires a.SaveStarted? || a.SaveDownloading? || a.SaveZipping? || a.SaveUploading?
    ensures Quiet(s, Step(c, s, a))
  {
    hide AddStep, StopStep, TickStep, ReadJobStep, FailStep, SaveStep, MeasureStep, StatfsStep, InspectStep, DecideStep;
    hide BeginUploadStep, UploadDoneStep, CheckStoppedStep, FinishStep, CleanStep, ConfigureStep;
    hide JobWriteStep, JobFreeStep, Quiet;
    SameQuiet(s);
    match a
    case SaveStarted(w, fault) =>
      if At(s, w, Preparing) { SaveQuiet(s, w, Started, AwaitingInfo, fault); }
    case SaveDownloading(w, fault) =>
      if At(s, w, Admitted) { SaveQuiet(s, w, Downloading, Fetching, fault); }
    case SaveZipping(w, fault) =>
      if At(s, w, Fetching) { SaveQuiet(s, w, Zipping, Packing, fault); }
    case SaveUploading(w, fault) =>
      if At(s, w, Packing) || At(s, w, Fetching) { SaveQuiet(s, w, Uploading, UploadPersisted, fault); }
  }

  lemma StepQuiet(c: Config, s: State, a: Action)
    requires Core(c, s) && !Loud(a)
    ensures Quiet(s, Step(c, s, a))
  {
    hide AddStep, StopStep, TickStep, ReadJobStep, FailStep, SaveStep, MeasureStep, StatfsStep, InspectStep, DecideStep;
    hide BeginUploadStep, UploadDoneStep, CheckStoppedStep, FinishStep, CleanStep, ConfigureStep;
    hide JobWriteStep, JobFreeStep, Core, Quiet;
    SameQuiet(s);
    match a
    case Add(req, id, fault) =>
      CoreId(c, s, id);
      AddQuiet(c, s, req, id, fault);
    case Stop(id, user, owned, fault) => StopQuiet(s, id, user, owned, fault);
    case Tick(order) => TickQuiet(s, order);
    case Measure(w, info) =>
      if At(s, w, AwaitingInfo) { CoreWorker(c, s, w); }
      MeasureQuiet(c, s, w, info);
    case BeginUpload(w) => BeginUploadQuiet(s, w);
    case ReadJob(w) => MoveQuiet(s, w);
    case Fail(w) => MoveQuiet(s, w);
    case UploadDone(w) => MoveQuiet(s, w);
    case CheckStopped(w) => MoveQuiet(s, w);
    case _ =>
      hide Step;
      SaveStepsQuiet(c, s, a);
  }

  /** The other steps that touch the disk leave both task tables alone. */
  predicate DiskOnly(a: Action) {
    a.Clean? || a.Statfs? || a.Inspect? || a.JobWrite? || a.JobFree? || a.ForeignWrite? || a.ForeignFree?
  }

  lemma StepDiskOnly(c: Config, s: State, a: Action)
    requires DiskOnly(a)
    ensures var s' := Step(c, s, a); s'.mem == s.mem && s'.db == s.db && s'.hist == s.hist
  {
    hide AddStep, StopStep, TickStep, ReadJobStep, FailStep, SaveStep, MeasureStep, DecideStep;
    hide BeginUploadStep, UploadDoneStep, CheckStoppedStep, FinishStep, ConfigureStep;
  }
}
