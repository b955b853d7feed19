/**
 Disk safety: what the admitted jobs may still write always fits into the free
 space, up to what the last check that admitted a job has missed and what others
 have written since. A capacity check samples the free space first and then walks
 one directory after the other, while other workers write and free. A byte that an
 admitted job writes before its own directory has been walked is in the sample and
 in the measurement as well, so a check that admits a job on such a measurement
 overbooks the disk: see `CheckExact`.
 */
module QueueDisk {
  import opened JobStore
  import opened QueueInvariant
  import opened QueueOps
  import opened QueueProtocol
  import opened QueueQuiet
  import opened QueueSafety
  import opened Reservation
  import opened Sums
  import opened Wrappers

  function Outstanding(tasks: map<Id, Task>, onDisk: map<Id, nat>): map<Id, int> {
    map id | id in tasks && tasks[id].reserved :: Remaining(tasks[id].job.reserved, OnDisk(onDisk, id))
  }

  ghost predicate Covers(tasks: map<Id, Task>, disk: Disk) {
    Sum(Outstanding(tasks, disk.onDisk)) <= disk.free + disk.foreign
  }

  // -------------------------------------------------------------- the check in progress

  /** Where every byte has gone since the sample. */
  ghost predicate Balanced(disk: Disk, sample: nat) {
    disk.free + Sum(disk.check.raced) + Sum(disk.check.later) + disk.check.outside ==
    sample + Sum(disk.check.freed) + Sum(disk.check.gone)
  }

  /** What a measured job may still write has not grown by more than it has freed. */
  predicate JobLedger(t: Task, disk: Disk, o: Id) {
    o in disk.check.measured ==>
      Remaining(t.job.reserved, OnDisk(disk.onDisk, o)) + OnDisk(disk.check.later, o) <=
      Remaining(t.job.reserved, disk.check.measured[o]) + OnDisk(disk.check.freed, o) + OnDisk(disk.check.gone, o)
  }

  /** Its directory belongs to the check for `id`. */
  predicate Counted(tasks: map<Id, Task>, id: Option<Id>, o: Id) {
    o in tasks && (tasks[o].reserved || id == Some(o))
  }

  ghost predicate CheckInv(tasks: map<Id, Task>, disk: Disk, id: Option<Id>, sample: nat) {
    && Balanced(disk, sample)
    && disk.check.outside <= disk.foreign
    && (forall o :: o in disk.check.measured ==> Counted(tasks, id, o))
    && (forall o :: o in disk.check.gone ==> o in disk.check.measured)
    && (forall o :: o in disk.check.later ==> o in disk.check.measured && o in tasks && tasks[o].reserved)
    && forall o :: o in tasks ==> JobLedger(tasks[o], disk, o)
  }

  ghost predicate DiskSafe(s: State) {
    Covers(s.mem.tasks, s.disk) && (Checking(s) ==> CheckInv(s.mem.tasks, s.disk, Candidate(s), Sample(s)))
  }

  // ------------------------------------------------------------------ writes and frees

  lemma PlusSum(m: map<Id, nat>, id: Id, bytes: nat)
    ensures Sum(Plus(m, id, bytes)) == Sum(m) + bytes
  {
    if id in m {
      SumUpdate(m, id, m[id] + bytes);
      assert bytes == 0 ==> m[id := m[id] + bytes] == m;
    } else {
      SumInsert(m, id, bytes);
    }
  }

  /** Changing what one job has on disk changes only its own share. */
  lemma OutstandingChange(tasks: map<Id, Task>, onDisk: map<Id, nat>, id: Id, bytes: nat)
    ensures Sum(Outstanding(tasks, onDisk[id := bytes])) == Sum(Outstanding(tasks, onDisk)) +
              if id in tasks && tasks[id].reserved
              then Remaining(tasks[id].job.reserved, bytes) - Remaining(tasks[id].job.reserved, OnDisk(onDisk, id))
              else 0
  {
    hide Sum;
    var m, m' := Outstanding(tasks, onDisk), Outstanding(tasks, onDisk[id := bytes]);
    if id in m {
      SumUpdate(m, id, m'[id]);
      assert m' == m[id := m'[id]];
    } else {
      assert m' == m;
    }
  }

  lemma WriteCovers(s: State, id: Id, bytes: nat)
    requires Covers(s.mem.tasks, s.disk)
    ensures Covers(s.mem.tasks, JobWriteStep(s, id, bytes).disk)
  {
    hide Sum, Outstanding, Written;
    OutstandingChange(s.mem.tasks, s.disk.onDisk, id, OnDisk(s.disk.onDisk, id) + bytes);
  }

  lemma WriteBalance(check: Check, id: Id, covered: nat, rest: nat)
    ensures var check' := Written(check, id, covered, rest);
            && Sum(check'.raced) + Sum(check'.later) == Sum(check.raced) + Sum(check.later) + covered
            && check'.outside == check.outside + rest && check'.freed == check.freed && check'.gone == check.gone
            && check'.measured == check.measured
  {
    hide Sum, Plus;
    PlusSum(check.later, id, covered);
    PlusSum(check.raced, id, covered);
  }

  lemma WriteLedger(s: State, id: Id, bytes: nat, o: Id)
    requires o in s.mem.tasks && JobLedger(s.mem.tasks[o], s.disk, o)
    ensures JobLedger(s.mem.tasks[o], JobWriteStep(s, id, bytes).disk, o)
  {
  }

  lemma WriteLater(s: State, id: Id, bytes: nat, o: Id)
    requires o in JobWriteStep(s, id, bytes).disk.check.later
    ensures o in s.disk.check.later
            || (o in s.disk.check.measured && o in s.mem.tasks && s.mem.tasks[o].reserved)
  {
  }

  lemma WriteCheck(s: State, id: Id, bytes: nat, candidate: Option<Id>, sample: nat)
    requires CheckInv(s.mem.tasks, s.disk, candidate, sample)
    ensures CheckInv(s.mem.tasks, JobWriteStep(s, id, bytes).disk, candidate, sample)
  {
    hide Sum, JobLedger, Remaining, Written;
    var covered := Covered(s, id, bytes);
    if bytes <= s.disk.free {
      WriteBalance(s.disk.check, id, covered, bytes - covered);
      forall o | o in s.mem.tasks ensures JobLedger(s.mem.tasks[o], JobWriteStep(s, id, bytes).disk, o) {
        WriteLedger(s, id, bytes, o);
      }
      forall o | o in Written(s.disk.check, id, covered, bytes - covered).later
        ensures o in s.disk.check.later
                || (o in s.disk.check.measured && o in s.mem.tasks && s.mem.tasks[o].reserved)
      {
        WriteLater(s, id, bytes, o);
      }
    }
  }

  lemma FreeCovers(tasks: map<Id, Task>, disk: Disk, id: Id, bytes: nat)
    requires Covers(tasks, disk) && bytes <= OnDisk(disk.onDisk, id)
    ensures Covers(tasks, Freed(disk, id, bytes))
  {
    hide Sum, Outstanding, Plus;
    OutstandingChange(tasks, disk.onDisk, id, OnDisk(disk.onDisk, id) - bytes);
  }

  lemma FreeBalance(disk: Disk, id: Id, bytes: nat)
    requires bytes <= OnDisk(disk.onDisk, id)
    ensures var check, check' := disk.check, Freed(disk, id, bytes).check;
            && Sum(check'.freed) + Sum(check'.gone) == Sum(check.freed) + Sum(check.gone) + bytes
            && check' == check.(freed := check'.freed, gone := check'.gone)
            && forall o :: o in check'.gone ==> o in check.gone || o in check.measured
  {
    hide Sum;
    PlusSum(disk.check.freed, id, bytes);
    PlusSum(disk.check.gone, id, bytes);
  }

  lemma FreeLedger(t: Task, disk: Disk, id: Id, bytes: nat, o: Id)
    requires bytes <= OnDisk(disk.onDisk, id) && JobLedger(t, disk, o)
    ensures JobLedger(t, Freed(disk, id, bytes), o)
  {
  }

  lemma FreeCheck(tasks: map<Id, Task>, disk: Disk, id: Id, bytes: nat, candidate: Option<Id>, sample: nat)
    requires CheckInv(tasks, disk, candidate, sample) && bytes <= OnDisk(disk.onDisk, id)
    ensures CheckInv(tasks, Freed(disk, id, bytes), candidate, sample)
  {
    hide Sum, JobLedger, Plus, Remaining, Counted;
    FreeBalance(disk, id, bytes);
    forall o | o in tasks ensures JobLedger(tasks[o], Freed(disk, id, bytes), o) {
      FreeLedger(tasks[o], disk, id, bytes, o);
    }
  }

  lemma ForeignDisk(c: Config, s: State, a: Action)
    requires DiskSafe(s) && (a.ForeignWrite? || a.ForeignFree?)
    ensures DiskSafe(Step(c, s, a))
  {
    hide Sum, Outstanding;
  }

  lemma CrashDisk(c: Config, s: State)
    ensures DiskSafe(Step(c, s, Crash))
  {
    assert Outstanding(map[], s.disk.onDisk) == map[];
  }

  lemma StatfsDisk(s: State, w: nat)
    requires DiskSafe(s)
    ensures DiskSafe(StatfsStep(s, w))
  {
    if !AnyAdmitted(s.mem.tasks) {
      assert Outstanding(s.mem.tasks, s.disk.onDisk) == map[];
    }
  }

  lemma InspectDisk(s: State, id: Id, bytes: nat)
    requires DiskSafe(s)
    ensures DiskSafe(InspectStep(s, id, bytes))
  {
    hide Sum, Outstanding;
  }

  // ------------------------------------------------------------------------ the decision

  /**
   Per job, how far the measured obligation is above the present one, apart from
   what was written and freed after the walk: zero if the walk has counted exactly
   what was there and the job stays within its reservation.
   */
  function WalkError(tasks: map<Id, Task>, id: Id, disk: Disk): map<Id, int> {
    var now, seen := Obligations(tasks, id, disk.onDisk), Obligations(tasks, id, disk.check.measured);
    map o | o in now :: ValueAt(seen, o) + OnDisk(disk.check.gone, o) - now[o] - OnDisk(disk.check.later, o)
  }

  /** The obligations of now against those of the measurement, byte by byte. */
  lemma CheckExact(tasks: map<Id, Task>, id: Id, disk: Disk, sample: nat)
    requires CheckInv(tasks, disk, Some(id), sample) && Inspected(tasks, id, disk.check.measured) && id in tasks
    ensures Sum(Obligations(tasks, id, disk.onDisk)) - disk.free ==
            Sum(Obligations(tasks, id, disk.check.measured)) + Sum(disk.check.raced) + disk.check.outside
            - sample - Sum(disk.check.freed) - Sum(WalkError(tasks, id, disk))
    ensures forall o :: o in WalkError(tasks, id, disk) ==>
              0 <= WalkError(tasks, id, disk)[o] + OnDisk(disk.check.freed, o)
  {
    hide Sum;
    var now, seen := Obligations(tasks, id, disk.onDisk), Obligations(tasks, id, disk.check.measured);
    forall o | o in disk.check.gone || o in disk.check.later ensures o in WalkError(tasks, id, disk) {
      assert Counted(tasks, Some(id), o);
    }
    SumBalance(now, disk.check.later, seen, disk.check.gone, WalkError(tasks, id, disk));
  }

  /** The walks cannot be wrong by more than what was freed before their ends. */
  lemma ErrorBound(tasks: map<Id, Task>, id: Id, disk: Disk)
    requires forall o :: o in WalkError(tasks, id, disk) ==>
               0 <= WalkError(tasks, id, disk)[o] + OnDisk(disk.check.freed, o)
    ensures 0 <= Sum(disk.check.freed) + Sum(WalkError(tasks, id, disk))
  {
    var error := WalkError(tasks, id, disk);
    hide Sum, WalkError;
    var both := map o | o in error.Keys + disk.check.freed.Keys :: ValueAt(error, o) + OnDisk(disk.check.freed, o);
    SumBalance(map[], map[], error, disk.check.freed, both);
    SumEmpty<Id>(map[]);
    SumNonNegative(both);
  }

  lemma AdmitCovers(c: Config, mem: Mem, id: Id, disk: Disk, sample: nat)
    requires CheckInv(mem.tasks, disk, Some(id), sample)
    requires Inspected(mem.tasks, id, disk.check.measured) && id in mem.tasks
    requires Decide(c, mem, id, sample, disk.check.measured) == Admit
    ensures Covers(AdmitOp(mem, id).tasks, disk.(foreign := Missed(disk.check)))
  {
    hide Sum, Outstanding, Obligations, WalkError, AdmitOp, Inspected;
    CheckExact(mem.tasks, id, disk, sample);
    ErrorBound(mem.tasks, id, disk);
    AdmittedOwe(mem, id, disk.onDisk);
  }

  lemma AdmittedOwe(mem: Mem, id: Id, onDisk: map<Id, nat>)
    requires id in mem.tasks
    ensures Outstanding(AdmitOp(mem, id).tasks, onDisk) == Obligations(mem.tasks, id, onDisk)
  {
  }

  lemma DecideDisk(c: Config, s: State, w: nat, inspected: bool)
    requires Core(c, s) && DiskSafe(s)
    ensures DiskSafe(DecideStep(c, s, w, inspected))
  {
    hide Core, Covers, CheckInv, AdmitOp, Decide, Inspected, Missed;
    if w < |s.workers| && s.workers[w].pc.Scanning? {
      CoreWorker(c, s, w);
      var id, sample := s.workers[w].id, s.workers[w].pc.sample;
      if Inspected(s.mem.tasks, id, s.disk.check.measured)
         && Decide(c, s.mem, id, sample, s.disk.check.measured) == Admit {
        AdmitCovers(c, s.mem, id, s.disk, sample);
      }
    }
  }

  // ------------------------------------------------------------------------- other steps

  lemma QuietOutstanding(s: State, s': State)
    requires Quiet(s, s')
    ensures Outstanding(s'.mem.tasks, s'.disk.onDisk) == Outstanding(s.mem.tasks, s.disk.onDisk)
  {
    var m, m' := Outstanding(s.mem.tasks, s.disk.onDisk), Outstanding(s'.mem.tasks, s.disk.onDisk);
    forall id ensures (id in m <==> id in m') && (id in m ==> m[id] == m'[id]) {
      assert Held(s'.mem.tasks, id) == Held(s.mem.tasks, id);
    }
    assert m' == m;
  }

  lemma QuietDisk(s: State, s': State)
    requires DiskSafe(s) && Quiet(s, s') && (Checking(s) ==> s'.mem == s.mem)
    ensures DiskSafe(s')
  {
    hide Sum, CheckInv, Outstanding;
    QuietOutstanding(s, s');
  }

  /** While a check holds the mutex, the task table stays as it is. */
  lemma LockedMem(c: Config, s: State, a: Action)
    requires s.scan.Some? && !Loud(a)
    ensures Step(c, s, a).mem == s.mem
  {
  }

  lemma FinishOutstanding(mem: Mem, db: Db, onDisk: map<Id, nat>, id: Id, status: Stage, saveFault: Fault,
                          finishFault: Fault, day: int)
    requires id in mem.tasks && mem.tasks[id].job.id == id && Terminal(status)
    ensures var m := Outstanding(mem.tasks, onDisk);
            var m' := Outstanding(FinishOp(mem, db, id, status, saveFault, finishFault, day).0.tasks, onDisk);
            m' == m || m' == m - {id}
  {
    var tasks' := FinishOp(mem, db, id, status, saveFault, finishFault, day).0.tasks;
    FinishDb(mem, db, id, status, saveFault, finishFault, day);
    hide FinishOp;
    if id in tasks' {
      assert Outstanding(tasks', onDisk) == Outstanding(mem.tasks, onDisk);
    } else {
      assert Outstanding(tasks', onDisk) == Outstanding(mem.tasks, onDisk) - {id};
    }
  }

  lemma FinishCovers(mem: Mem, db: Db, disk: Disk, id: Id, status: Stage, saveFault: Fault, finishFault: Fault,
                     day: int)
    requires Covers(mem.tasks, disk) && id in mem.tasks && mem.tasks[id].job.id == id && Terminal(status)
    ensures Covers(FinishOp(mem, db, id, status, saveFault, finishFault, day).0.tasks, disk)
  {
    hide Sum;
    FinishOutstanding(mem, db, disk.onDisk, id, status, saveFault, finishFault, day);
    hide FinishOp;
    var m := Outstanding(mem.tasks, disk.onDisk);
    if id in m {
      SumRemove(m, id);
    } else {
      assert m - {id} == m;
    }
  }

  lemma FinishDisk(c: Config, s: State, w: nat, saveFault: Fault, finishFault: Fault, day: int)
    requires Core(c, s) && DiskSafe(s) && s.scan == None
    ensures DiskSafe(FinishStep(s, w, saveFault, finishFault, day))
  {
    hide Core, FinishOp, Covers, CheckInv;
    if w < |s.workers| && s.workers[w].pc.Finishing? {
      CoreWorker(c, s, w);
      FinishCovers(s.mem, s.db, s.disk, s.workers[w].id, s.workers[w].pc.outcome, saveFault, finishFault, day);
    }
  }

  lemma ConfigureDisk(c: Config, s: State, order: seq<Id>, fault: Fault)
    requires Core(c, s) && DiskSafe(s) && s.scan == None
    ensures DiskSafe(ConfigureStep(c, s, order, fault))
  {
    var s' := ConfigureStep(c, s, order, fault);
    if s' != s {
      ConfigureResult(c, s, order);
      assert Outstanding(s'.mem.tasks, s.disk.onDisk) == map[];
    }
  }

  lemma JobWriteDisk(s: State, id: Id, bytes: nat)
    requires DiskSafe(s)
    ensures DiskSafe(JobWriteStep(s, id, bytes))
  {
    hide Covers, CheckInv, Covered, Written;
    WriteCovers(s, id, bytes);
    if Checking(s) {
      WriteCheck(s, id, bytes, Candidate(s), Sample(s));
    }
  }

  lemma FreeDisk(s: State, s': State, id: Id, bytes: nat)
    requires DiskSafe(s) && bytes <= OnDisk(s.disk.onDisk, id)
    requires s'.mem == s.mem && s'.disk == Freed(s.disk, id, bytes)
    requires Checking(s') ==> Checking(s) && Sample(s') == Sample(s) && Candidate(s') == Candidate(s)
    ensures DiskSafe(s')
  {
    hide Covers, CheckInv, Freed;
    FreeCovers(s.mem.tasks, s.disk, id, bytes);
    if Checking(s) {
      FreeCheck(s.mem.tasks, s.disk, id, bytes, Candidate(s), Sample(s));
    }
  }

  lemma CleanDisk(s: State, w: nat)
    requires DiskSafe(s)
    ensures DiskSafe(CleanStep(s, w))
  {
    hide Covers, CheckInv, Freed;
    var s' := CleanStep(s, w);
    if s'.disk != s.disk {
      var id := s.workers[w].id;
      FreeDisk(s, s', id, OnDisk(s.disk.onDisk, id));
    }
  }

  lemma JobFreeDisk(s: State, id: Id, bytes: nat)
    requires DiskSafe(s)
    ensures DiskSafe(JobFreeStep(s, id, bytes))
  {
    hide Covers, CheckInv, Freed;
    if bytes <= OnDisk(s.disk.onDisk, id) {
      FreeDisk(s, JobFreeStep(s, id, bytes), id, bytes);
    }
  }

  lemma StepDisk(c: Config, s: State, a: Action)
    requires Core(c, s) && DiskSafe(s)
    ensures DiskSafe(Step(c, s, a))
  {
    hide AddStep, StopStep, TickStep, ReadJobStep, FailStep, SaveStep, MeasureStep, DecideStep, StatfsStep;
    hide BeginUploadStep, UploadDoneStep, CheckStoppedStep, ConfigureStep, FinishStep, CleanStep, DiskSafe;
    hide JobWriteStep, JobFreeStep, InspectStep, Core;
    if !Loud(a) {
      StepQuiet(c, s, a);
      if s.scan.Some? {
        LockedMem(c, s, a);
      }
      QuietDisk(s, Step(c, s, a));
    } else if s.scan == None || !NeedsMutex(a) {
      match a
      case Statfs(w) => StatfsDisk(s, w);
      case Inspect(id, bytes) => InspectDisk(s, id, bytes);
      case DecideCapacity(w, inspected) => DecideDisk(c, s, w, inspected);
      case Finish(w, saveFault, finishFault, day) => FinishDisk(c, s, w, saveFault, finishFault, day);
      case Configure(order, fault) => ConfigureDisk(c, s, order, fault);
      case Clean(w) => CleanDisk(s, w);
      case JobWrite(id, bytes) => JobWriteDisk(s, id, bytes);
      case JobFree(id, bytes) => JobFreeDisk(s, id, bytes);
      case Crash => CrashDisk(c, s);
      case _ => ForeignDisk(c, s, a);
    }
  }
}
