/**
 What holds in addition when the surroundings of the queue behave: nobody else
 uses the disk, the walks of the capacity check are exact, or no reply of an
 insert is lost.
 */
module QueueRuns {
  import opened JobStore
  import opened QueueDisk
  import opened QueueInvariant
  import opened QueueOps
  import opened QueueProtocol
  import opened QueueQuiet
  import opened QueueSafety
  import opened QueueTheorems
  import opened Sums
  import opened Wrappers

  datatype Discipline = Contained | Measuring | Replied

  /** A check that is about to admit a job. */
  ghost predicate Admitting(c: Config, s: State, w: nat) {
    && w < |s.workers| && s.workers[w].pc.Scanning? && s.workers[w].id in s.mem.tasks
    && Inspected(s.mem.tasks, s.workers[w].id, s.disk.check.measured)
    && Decide(c, s.mem, s.workers[w].id, s.workers[w].pc.sample, s.disk.check.measured) == Admit
  }

  /**
   `Contained`: nobody else writes, jobs stay within their reservations, and no
   check with raced bytes admits a job. `Measuring`: a walk counts what is there
   at its end, and afterwards the job stays within its reservation. `Replied`: an
   insert that is applied is also acknowledged.
   */
  ghost predicate Allowed(c: Config, d: Discipline, s: State, a: Action) {
    match d
    case Contained =>
      && (a.ForeignWrite? ==> a.bytes == 0)
      && (a.JobWrite? ==> Covered(s, a.id, a.bytes) == a.bytes)
      && (a.DecideCapacity? && a.inspected && Admitting(c, s, a.w) ==> s.disk.check.raced == map[])
    case Measuring =>
      && (a.Inspect? ==> a.bytes == OnDisk(s.disk.onDisk, a.id))
      && (a.JobWrite? && s.scan.Some? && a.id in s.disk.check.measured ==> Covered(s, a.id, a.bytes) == a.bytes)
    case Replied =>
      a.Add? ==> a.fault != LostReply
  }

  /** A run that takes such steps only. */
  ghost predicate Disciplined(c: Config, d: Discipline, states: seq<State>, actions: seq<Action>) {
    && Trace(c, states, actions)
    && forall k {:trigger actions[k]} :: 0 <= k < |actions| ==> Allowed(c, d, states[k], actions[k])
  }

  ghost predicate ReachableBy(c: Config, d: Discipline, s: State) {
    exists states, actions :: Disciplined(c, d, states, actions) && s == states[|actions|]
  }

  /** What was counted is there, or gone since; what came later was not counted. */
  ghost predicate WalksExact(disk: Disk) {
    && (forall o :: o in disk.check.later || o in disk.check.gone ==> o in disk.check.measured)
    && forall o :: o in disk.check.measured ==>
         disk.check.measured[o] + OnDisk(disk.check.later, o) == OnDisk(disk.onDisk, o) + OnDisk(disk.check.gone, o)
  }

  /** No row without a task, and no more than ten of either. */
  predicate Bounded(mem: Mem, db: Db) {
    && |db.rows| <= MAX_QUEUE_SIZE && |mem.tasks| <= MAX_QUEUE_SIZE
    && (mem.configured ==> db.rows.Keys <= mem.tasks.Keys)
  }

  ghost predicate Keeps(d: Discipline, s: State) {
    match d
    case Contained => s.disk.foreign == 0
    case Measuring => s.scan.Some? ==> WalksExact(s.disk)
    case Replied => Bounded(s.mem, s.db)
  }

  // ---------------------------------------------------------------------- single steps

  lemma DecideForeign(c: Config, s: State, w: nat, inspected: bool)
    ensures DecideStep(c, s, w, inspected).disk ==
            if inspected && Admitting(c, s, w) then s.disk.(foreign := Missed(s.disk.check)) else s.disk
    ensures DecideStep(c, s, w, inspected).scan in {None, s.scan}
  {
    hide Decide, AdmitOp, Inspected, Missed;
  }

  /** An admission settles what earlier ones left open. */
  lemma MissedBound(s: State)
    requires DiskSafe(s) && Checking(s)
    ensures Missed(s.disk.check) <= s.disk.foreign + TotalBytes(s.disk.check.raced)
    ensures s.disk.check.raced == map[] ==> TotalBytes(s.disk.check.raced) == 0
  {
  }

  lemma ContainedStep(c: Config, s: State, a: Action)
    requires Core(c, s) && DiskSafe(s) && s.disk.foreign == 0 && Allowed(c, Contained, s, a)
    ensures Step(c, s, a).disk.foreign == 0
  {
    hide AddOp, StopOp, SaveStageOp, MeasureOp, Decide, FinishOp, ConfigureOp, LaunchOp, Covered, Written, Enumerates;
    hide DecideStep, Core, DiskSafe, Missed, TotalBytes, Inspected;
    if a.DecideCapacity? {
      DecideForeign(c, s, a.w, a.inspected);
      if a.w < |s.workers| {
        CoreWorker(c, s, a.w);
        if Checking(s) {
          MissedBound(s);
        }
      }
    }
  }

  lemma InspectExact(s: State, id: Id, bytes: nat)
    requires s.scan.Some? ==> WalksExact(s.disk)
    requires bytes == OnDisk(s.disk.onDisk, id)
    ensures s.scan.Some? ==> WalksExact(InspectStep(s, id, bytes).disk)
  {
  }

  lemma WriteExact(s: State, id: Id, bytes: nat)
    requires WalksExact(s.disk) && (id in s.disk.check.measured ==> Covered(s, id, bytes) == bytes)
    ensures WalksExact(JobWriteStep(s, id, bytes).disk)
  {
    hide Covered;
  }

  lemma FreeExact(disk: Disk, id: Id, bytes: nat)
    requires WalksExact(disk) && bytes <= OnDisk(disk.onDisk, id)
    ensures WalksExact(Freed(disk, id, bytes))
  {
  }

  /** The other steps leave directories and walks alone, or start a new check. */
  lemma SameWalks(c: Config, s: State, a: Action)
    requires !a.Inspect? && !a.JobWrite? && !a.JobFree? && !a.Clean? && !a.DecideCapacity?
    ensures var s' := Step(c, s, a);
            || s'.disk.check == NO_CHECK || s'.scan == None
            || (s'.scan == s.scan && s'.disk.onDisk == s.disk.onDisk && s'.disk.check.measured == s.disk.check.measured
                && s'.disk.check.later == s.disk.check.later && s'.disk.check.gone == s.disk.check.gone)
  {
    if a.SaveStarted? || a.SaveDownloading? || a.SaveZipping? || a.SaveUploading? {
      hide SaveStageOp;
    } else {
      hide AddOp, StopOp, MeasureOp, FinishOp, ConfigureOp, LaunchOp, Enumerates, AnyAdmitted;
    }
  }

  lemma MeasuringStep(c: Config, s: State, a: Action)
    requires s.scan.Some? ==> WalksExact(s.disk)
    requires Allowed(c, Measuring, s, a)
    ensures Step(c, s, a).scan.Some? ==> WalksExact(Step(c, s, a).disk)
  {
    hide AddStep, StopStep, TickStep, ReadJobStep, FailStep, SaveStep, MeasureStep, StatfsStep, InspectStep;
    hide BeginUploadStep, UploadDoneStep, CheckStoppedStep, FinishStep, ConfigureStep, JobWriteStep, DecideStep, Freed;
    match a
    case Inspect(id, bytes) =>
      InspectExact(s, id, bytes);
      OnlyDisk(s, id, bytes);
    case JobWrite(id, bytes) =>
      if s.scan.Some? { WriteExact(s, id, bytes); }
      OnlyDisk(s, id, bytes);
    case JobFree(id, bytes) =>
      if s.scan.Some? && bytes <= OnDisk(s.disk.onDisk, id) { FreeExact(s.disk, id, bytes); }
    case Clean(w) =>
      if s.scan.Some? && w < |s.workers| { FreeExact(s.disk, s.workers[w].id, OnDisk(s.disk.onDisk, s.workers[w].id)); }
    case DecideCapacity(w, inspected) => DecideForeign(c, s, w, inspected);
    case _ =>
      hide Step;
      SameWalks(c, s, a);
  }

  lemma OnlyDisk(s: State, id: Id, bytes: nat)
    ensures InspectStep(s, id, bytes).scan == s.scan && JobWriteStep(s, id, bytes).scan == s.scan
  {
    hide Covered, Written;
  }

  lemma StopKeys(mem: Mem, db: Db, id: Id, user: Text, owned: bool, fault: Fault)
    ensures var (mem', db', ok) := StopOp(mem, db, id, user, owned, fault);
            && db'.rows.Keys == db.rows.Keys && mem'.tasks.Keys == mem.tasks.Keys && mem'.configured == mem.configured
  {
    hide Stoppable, WithStage, Updated;
  }

  lemma SaveKeys(mem: Mem, db: Db, id: Id, stage: Stage, fault: Fault)
    requires id in mem.tasks
    ensures var (mem', db', ok) := SaveStageOp(mem, db, id, stage, fault);
            && db'.rows.Keys == db.rows.Keys && mem'.tasks.Keys == mem.tasks.Keys && mem'.configured == mem.configured
  {
    hide WithStage, Updated;
  }

  lemma MeasureKeys(c: Config, mem: Mem, id: Id, info: Info)
    requires id in mem.tasks
    ensures var mem' := MeasureOp(c, mem, id, info).0;
            mem'.tasks.Keys == mem.tasks.Keys && mem'.configured == mem.configured
  {
    hide Measured;
  }

  /** Rows and tasks keep their keys, but for four kinds of steps. */
  lemma SameKeys(c: Config, s: State, a: Action)
    requires !a.Add? && !a.Finish? && !a.Crash? && !a.Configure?
    ensures var s' := Step(c, s, a);
            && s'.db.rows.Keys == s.db.rows.Keys && s'.mem.tasks.Keys == s.mem.tasks.Keys
            && s'.mem.configured == s.mem.configured
  {
    hide StopOp, SaveStageOp, MeasureOp, Decide, Inspected, Enumerates, Missed, Covered, Written, Freed, InspectStep;
    if a.Stop? {
      StopKeys(s.mem, s.db, a.id, a.user, a.owned, a.fault);
    } else if a.Measure? {
      if At(s, a.w, AwaitingInfo) { MeasureKeys(c, s.mem, s.workers[a.w].id, a.info); }
    } else if a.SaveStarted? || a.SaveDownloading? || a.SaveZipping? || a.SaveUploading? {
      if a.w < |s.workers| && s.workers[a.w].id in s.mem.tasks {
        forall stage ensures var (mem', db', ok) := SaveStageOp(s.mem, s.db, s.workers[a.w].id, stage, a.fault);
                             && db'.rows.Keys == s.db.rows.Keys && mem'.tasks.Keys == s.mem.tasks.Keys
                             && mem'.configured == s.mem.configured
        {
          SaveKeys(s.mem, s.db, s.workers[a.w].id, stage, a.fault);
        }
      }
    } else {
      OtherKeys(c, s, a);
    }
  }

  lemma OtherKeys(c: Config, s: State, a: Action)
    requires !a.Add? && !a.Finish? && !a.Crash? && !a.Configure? && !a.Stop? && !a.Measure?
    requires !a.SaveStarted? && !a.SaveDownloading? && !a.SaveZipping? && !a.SaveUploading?
    ensures var s' := Step(c, s, a);
            && s'.db == s.db && s'.mem.tasks.Keys == s.mem.tasks.Keys && s'.mem.configured == s.mem.configured
  {
    hide Decide, Inspected, Enumerates, Missed, Covered, Written, Freed, InspectStep;
    if a.Inspect? {
      InspectKeys(s, a.id, a.bytes);
    }
  }

  lemma InspectKeys(s: State, id: Id, bytes: nat)
    ensures InspectStep(s, id, bytes).mem == s.mem && InspectStep(s, id, bytes).db == s.db
  {
  }

  lemma SameSizes(mem: Mem, db: Db, mem': Mem, db': Db)
    requires db'.rows.Keys == db.rows.Keys && mem'.tasks.Keys == mem.tasks.Keys && mem'.configured == mem.configured
    ensures Bounded(mem, db) <==> Bounded(mem', db')
  {
    assert |db'.rows| == |db'.rows.Keys| && |db.rows| == |db.rows.Keys|;
    assert |mem'.tasks| == |mem'.tasks.Keys| && |mem.tasks| == |mem.tasks.Keys|;
  }

  /** While it is configured a queue has a task for every row, so the bound on tasks is one on rows. */
  lemma BoundedRows(mem: Mem, db: Db)
    requires mem.configured && |mem.tasks| <= MAX_QUEUE_SIZE && db.rows.Keys <= mem.tasks.Keys
    ensures Bounded(mem, db)
  {
    SubsetSize(db.rows.Keys, mem.tasks.Keys);
    assert |db.rows| == |db.rows.Keys| && |mem.tasks| == |mem.tasks.Keys|;
  }

  lemma AddKeysBoth(c: Config, mem: Mem, db: Db, req: Request, id: Id, fault: Fault)
    requires fault != LostReply
    ensures var (mem', db', ok) := AddOp(c, mem, db, req, id, fault);
            if ok then
              && mem.configured == mem'.configured == true && |mem.tasks| < MAX_QUEUE_SIZE
              && mem'.tasks.Keys == mem.tasks.Keys + {id} && db'.rows.Keys == db.rows.Keys + {id}
            else mem' == mem && db' == db
  {
    hide Active, AddableSelection;
  }

  lemma OneMore(a: set<Id>, id: Id)
    ensures |a + {id}| <= |a| + 1
  {
    if id in a {
      assert a + {id} == a;
    }
  }

  lemma AddBounded(c: Config, mem: Mem, db: Db, req: Request, id: Id, fault: Fault)
    requires Bounded(mem, db) && fault != LostReply
    ensures var (mem', db', ok) := AddOp(c, mem, db, req, id, fault); Bounded(mem', db')
  {
    hide AddOp, Bounded;
    var (mem', db', ok) := AddOp(c, mem, db, req, id, fault);
    AddKeysBoth(c, mem, db, req, id, fault);
    if ok {
      BoundedParts(mem, db);
      OneMore(mem.tasks.Keys, id);
      assert |mem'.tasks| == |mem'.tasks.Keys| && |mem.tasks| == |mem.tasks.Keys|;
      BoundedRows(mem', db');
    }
  }

  lemma FinishBounded(mem: Mem, db: Db, id: Id, outcome: Stage, saveFault: Fault, finishFault: Fault, day: int)
    requires Bounded(mem, db) && mem.configured && id in mem.tasks && mem.tasks[id].job.id == id && Terminal(outcome)
    ensures var (mem', db', ok) := FinishOp(mem, db, id, outcome, saveFault, finishFault, day); Bounded(mem', db')
  {
    FinishDb(mem, db, id, outcome, saveFault, finishFault, day);
    hide FinishOp, Bounded, Updated, WithStage;
    var (mem', db', ok) := FinishOp(mem, db, id, outcome, saveFault, finishFault, day);
    BoundedParts(mem, db);
    SubsetSize(mem'.tasks.Keys, mem.tasks.Keys);
    assert |mem'.tasks| == |mem'.tasks.Keys| && |mem.tasks| == |mem.tasks.Keys|;
    BoundedRows(mem', db');
  }

  lemma BoundedParts(mem: Mem, db: Db)
    requires Bounded(mem, db)
    ensures |mem.tasks| <= MAX_QUEUE_SIZE && (mem.configured ==> db.rows.Keys <= mem.tasks.Keys)
  {
  }

  lemma ConfigureBounded(c: Config, s: State, order: seq<Id>, fault: Fault)
    requires Core(c, s) && Bounded(s.mem, s.db)
    ensures Bounded(ConfigureStep(c, s, order, fault).mem, ConfigureStep(c, s, order, fault).db)
  {
    hide Core, RecoveredTasks, RecoveredJob, Recoverable;
    var s' := ConfigureStep(c, s, order, fault);
    if s' != s {
      ConfigureResult(c, s, order);
      assert s'.mem.tasks.Keys == s.db.rows.Keys;
      assert |s'.mem.tasks| == |s'.mem.tasks.Keys| && |s.db.rows| == |s.db.rows.Keys|;
    }
  }

  lemma RepliedStep(c: Config, s: State, a: Action)
    requires Core(c, s) && Bounded(s.mem, s.db) && Allowed(c, Replied, s, a)
    ensures Bounded(Step(c, s, a).mem, Step(c, s, a).db)
  {
    hide Core, Bounded, AddOp, FinishOp, ConfigureStep, StopStep, TickStep, ReadJobStep, FailStep, SaveStep;
    hide MeasureStep, StatfsStep, DecideStep, BeginUploadStep, UploadDoneStep, CheckStoppedStep, CleanStep;
    hide JobWriteStep, JobFreeStep, InspectStep;
    match a
    case Add(req, id, fault) => AddBounded(c, s.mem, s.db, req, id, fault);
    case Finish(w, saveFault, finishFault, day) =>
      if w < |s.workers| && s.workers[w].pc.Finishing? {
        CoreWorker(c, s, w);
        FinishBounded(s.mem, s.db, s.workers[w].id, s.workers[w].pc.outcome, saveFault, finishFault, day);
      }
    case Crash => CrashBounded(s.mem, s.db);
    case Configure(order, fault) => ConfigureBounded(c, s, order, fault);
    case _ =>
      hide Step;
      SameKeys(c, s, a);
      SameSizes(s.mem, s.db, Step(c, s, a).mem, Step(c, s, a).db);
  }

  lemma CrashBounded(mem: Mem, db: Db)
    requires Bounded(mem, db)
    ensures Bounded(Mem(false, map[], 0), db)
  {
  }

  // ------------------------------------------------------------------------ whole runs

  lemma StepKeeps(c: Config, d: Discipline, s: State, a: Action)
    requires System(c, s) && Keeps(d, s) && Allowed(c, d, s, a)
    ensures Keeps(d, Step(c, s, a))
  {
    hide Step, System, Core, DiskSafe, Allowed, WalksExact, Bounded;
    SystemDisk(c, s);
    match d
    case Contained => ContainedStep(c, s, a);
    case Measuring => MeasuringStep(c, s, a);
    case Replied => RepliedStep(c, s, a);
  }

  lemma {:induction false} TraceKeeps(c: Config, d: Discipline, states: seq<State>, actions: seq<Action>, i: nat)
    requires ValidConfig(c) && Trace(c, states, actions) && i <= |actions|
    requires forall k :: 0 <= k < i ==> Allowed(c, d, states[k], actions[k])
    ensures Keeps(d, states[i])
  {
    hide Allowed, Step, System;
    if i == 0 {
      var free :| states[0] == Initial(free);
    } else {
      TraceKeeps(c, d, states, actions, i - 1);
      TraceSystem(c, states, actions, i - 1);
      assert states[i - 1 + 1] == Step(c, states[i - 1], actions[i - 1]);
      StepKeeps(c, d, states[i - 1], actions[i - 1]);
    }
  }

  lemma ReachableKeeps(c: Config, d: Discipline, s: State)
    requires ValidConfig(c) && ReachableBy(c, d, s)
    ensures Reachable(c, s) && Keeps(d, s)
  {
    hide Allowed, Step, Keeps;
    var states, actions :| Disciplined(c, d, states, actions) && s == states[|actions|];
    TraceKeeps(c, d, states, actions, |actions|);
  }

  /** If nobody gets in the way, the free space alone covers what the admitted jobs may still write. */
  lemma PlainBound(c: Config, s: State)
    requires ValidConfig(c) && ReachableBy(c, Contained, s)
    ensures Sum(Outstanding(s.mem.tasks, s.disk.onDisk)) <= s.disk.free
  {
    hide ReachableBy, Reachable, Sum, Outstanding;
    ReachableKeeps(c, Contained, s);
    DiskSafety(c, s);
  }

  /** If the reply of no insert is lost, there are never more than ten tasks or rows, restarts included. */
  lemma TenTasks(c: Config, s: State)
    requires ValidConfig(c) && ReachableBy(c, Replied, s)
    ensures |s.mem.tasks| <= MAX_QUEUE_SIZE && |s.db.rows| <= MAX_QUEUE_SIZE
    ensures s.mem.configured ==> s.db.rows.Keys <= s.mem.tasks.Keys
  {
    hide ReachableBy, Reachable;
    ReachableKeeps(c, Replied, s);
  }

  // ------------------------------------------------------------------------- admissions

  /**
   An admission settles the debts of earlier ones: afterwards the admitted jobs
   overrun the free space by no more than what this check has missed.
   */
  lemma AdmissionSettles(c: Config, s: State, w: nat)
    requires ValidConfig(c) && Reachable(c, s) && Admitting(c, s, w)
    ensures var s' := DecideStep(c, s, w, true);
            && s'.workers[w].pc == Admitted
            && s'.disk.foreign == Missed(s.disk.check) <= s.disk.foreign + TotalBytes(s.disk.check.raced)
            && Sum(Outstanding(s'.mem.tasks, s'.disk.onDisk)) <= s'.disk.free + Missed(s.disk.check)
  {
    hide System, Reachable, Core, DiskSafe, Decide, Inspected, Sum, Outstanding, AdmitOp, Missed, TotalBytes;
    ReachableSystem(c, s);
    SystemDisk(c, s);
    CoreWorker(c, s, w);
    MissedBound(s);
    DecideDisk(c, s, w, true);
    DecideForeign(c, s, w, true);
    SafeCovers(DecideStep(c, s, w, true));
  }

  lemma SafeCovers(s: State)
    requires DiskSafe(s)
    ensures Sum(Outstanding(s.mem.tasks, s.disk.onDisk)) <= s.disk.free + s.disk.foreign
  {
  }

  /** What the admission of a job leaves, from the balance of its check. */
  lemma AdmissionBalance(c: Config, s: State, w: nat)
    requires ValidConfig(c) && Reachable(c, s) && Admitting(c, s, w)
    ensures var s', id, check := DecideStep(c, s, w, true), s.workers[w].id, s.disk.check;
            Sum(Outstanding(s'.mem.tasks, s'.disk.onDisk)) - s'.disk.free ==
            Sum(Obligations(s.mem.tasks, id, check.measured)) + Sum(check.raced) + check.outside
            - s.workers[w].pc.sample - Sum(check.freed) - Sum(WalkError(s.mem.tasks, id, s.disk))
  {
    hide System, Reachable, Core, CheckInv, Decide, Inspected, Sum, WalkError, Outstanding, Obligations, AdmitOp;
    ReachableSystem(c, s);
    SystemDisk(c, s);
    CoreWorker(c, s, w);
    CheckExact(s.mem.tasks, s.workers[w].id, s.disk, s.workers[w].pc.sample);
    AdmittedOwe(s.mem, s.workers[w].id, s.disk.onDisk);
  }

  /** The counted jobs hold, and held when they were walked, no more than they reserved. */
  predicate WithinReservations(tasks: map<Id, Task>, id: Id, disk: Disk) {
    forall o :: o in tasks && (o == id || tasks[o].reserved) ==>
      OnDisk(disk.check.measured, o) <= tasks[o].job.reserved && OnDisk(disk.onDisk, o) <= tasks[o].job.reserved
  }

  lemma NoErrorAt(tasks: map<Id, Task>, id: Id, disk: Disk, o: Id)
    requires WalksExact(disk) && WithinReservations(tasks, id, disk) && Inspected(tasks, id, disk.check.measured)
    requires o in WalkError(tasks, id, disk)
    ensures WalkError(tasks, id, disk)[o] == 0
  {
  }

  lemma NoError(tasks: map<Id, Task>, id: Id, disk: Disk)
    requires WalksExact(disk) && WithinReservations(tasks, id, disk) && Inspected(tasks, id, disk.check.measured)
    ensures Sum(WalkError(tasks, id, disk)) == 0
  {
    var error := WalkError(tasks, id, disk);
    hide Sum, WalkError, WalksExact, WithinReservations, Inspected;
    forall o | o in error ensures error[o] == 0 {
      NoErrorAt(tasks, id, disk, o);
    }
    SumZero(error);
  }

  /**
   When the walks of a run are exact, an admission leaves the plain bound if and
   only if the measured obligations, the bytes raced per job and the bytes of
   others fit the sample and the bytes freed before the walks. What happens in a
   directory after its walk makes no difference.
   */
  lemma AdmissionExact(c: Config, s: State, w: nat)
    requires ValidConfig(c) && ReachableBy(c, Measuring, s) && Admitting(c, s, w)
    requires WithinReservations(s.mem.tasks, s.workers[w].id, s.disk)
    ensures var s', check := DecideStep(c, s, w, true), s.disk.check;
            Sum(Outstanding(s'.mem.tasks, s'.disk.onDisk)) <= s'.disk.free <==>
              Sum(Obligations(s.mem.tasks, s.workers[w].id, check.measured)) + Sum(check.raced) + check.outside
              <= s.workers[w].pc.sample + Sum(check.freed)
  {
    hide ReachableBy, Reachable, System, Core, Decide, Inspected, Sum, WalkError, Outstanding, Obligations;
    hide WalksExact, WithinReservations, DecideStep, DiskSafe;
    ReachableKeeps(c, Measuring, s);
    ReachableSystem(c, s);
    SystemDisk(c, s);
    CoreWorker(c, s, w);
    AdmissionBalance(c, s, w);
    NoError(s.mem.tasks, s.workers[w].id, s.disk);
  }
}
