/** Reservation conservation: the running total is the sum over the admitted tasks. */
module QueueBudget {
  import opened JobStore
  import opened QueueInvariant
  import opened QueueOps
  import opened QueueProtocol
  import opened QueueQuiet
  import opened QueueSafety
  import opened Sums
  import opened Wrappers

  function Reservations(tasks: map<Id, Task>): map<Id, int> {
    map id | id in tasks && tasks[id].reserved :: tasks[id].job.reserved
  }

  ghost predicate Budget(c: Config, mem: Mem) {
    mem.active == Sum(Reservations(mem.tasks)) && mem.active <= c.maxActive as int
  }

  lemma AdmitBudget(c: Config, mem: Mem, id: Id, free: nat, onDisk: map<Id, nat>)
    requires Budget(c, mem) && id in mem.tasks && !mem.tasks[id].reserved
    requires Decide(c, mem, id, free, onDisk) == Admit
    ensures Budget(c, AdmitOp(mem, id))
  {
    hide Sum;
    var mem' := AdmitOp(mem, id);
    SumInsert(Reservations(mem.tasks), id, mem.tasks[id].job.reserved);
    assert Reservations(mem'.tasks) == Reservations(mem.tasks)[id := mem.tasks[id].job.reserved];
  }

  /** A finish releases what the task holds; a failed finish keeps it. */
  lemma FinishBudget(c: Config, mem: Mem, db: Db, id: Id, status: Stage, saveFault: Fault, finishFault: Fault, day: int)
    requires Budget(c, mem) && id in mem.tasks && mem.tasks[id].job.id == id && Terminal(status)
    requires mem.tasks[id].reserved ==> 0 <= mem.tasks[id].job.reserved
    ensures Budget(c, FinishOp(mem, db, id, status, saveFault, finishFault, day).0)
  {
    hide Sum;
    var mem' := FinishOp(mem, db, id, status, saveFault, finishFault, day).0;
    FinishDb(mem, db, id, status, saveFault, finishFault, day);
    hide FinishOp;
    var r := Reservations(mem.tasks);
    if id in mem'.tasks {
      assert Reservations(mem'.tasks) == r;
    } else {
      assert Reservations(mem'.tasks) == r - {id};
      if id in r {
        SumRemove(r, id);
      } else {
        assert r - {id} == r;
      }
    }
  }

  lemma SameBudget(c: Config, mem: Mem, mem': Mem)
    requires Budget(c, mem) && SameHeld(mem, mem')
    ensures Budget(c, mem')
  {
    var r, r' := Reservations(mem.tasks), Reservations(mem'.tasks);
    forall id ensures (id in r <==> id in r') && (id in r ==> r[id] == r'[id]) {
      assert Held(mem'.tasks, id) == Held(mem.tasks, id);
    }
    assert r' == r;
  }

  lemma DecideBudget(c: Config, s: State, w: nat, inspected: bool)
    requires Core(c, s) && Budget(c, s.mem)
    ensures Budget(c, DecideStep(c, s, w, inspected).mem)
  {
    if w < |s.workers| && s.workers[w].pc.Scanning? {
      CoreWorker(c, s, w);
      hide Core;
      var id := s.workers[w].id;
      if Decide(c, s.mem, id, s.workers[w].pc.sample, s.disk.check.measured) == Admit {
        AdmitBudget(c, s.mem, id, s.workers[w].pc.sample, s.disk.check.measured);
      }
      hide Decide, Budget;
    }
  }

  lemma ConfigureBudget(c: Config, s: State, order: seq<Id>, fault: Fault)
    requires Core(c, s) && s.scan == None && Budget(c, s.mem)
    ensures Budget(c, ConfigureStep(c, s, order, fault).mem)
  {
    var s' := ConfigureStep(c, s, order, fault);
    if s' != s {
      ConfigureResult(c, s, order);
      assert Reservations(s'.mem.tasks) == map[];
    }
  }

  lemma FinishStepBudget(c: Config, s: State, w: nat, saveFault: Fault, finishFault: Fault, day: int)
    requires Core(c, s) && Budget(c, s.mem)
    ensures Budget(c, FinishStep(s, w, saveFault, finishFault, day).mem)
  {
    if w < |s.workers| && s.workers[w].pc.Finishing? {
      CoreWorker(c, s, w);
      FinishBudget(c, s.mem, s.db, s.workers[w].id, s.workers[w].pc.outcome, saveFault, finishFault, day);
      hide Core, Budget, FinishOp;
    }
  }

  lemma CrashBudget(c: Config, s: State)
    requires Core(c, s)
    ensures Budget(c, Mem(false, map[], 0))
  {
    assert Reservations(map[]) == map[];
  }

  lemma StepBudget(c: Config, s: State, a: Action)
    requires Core(c, s) && Budget(c, s.mem)
    ensures Budget(c, Step(c, s, a).mem)
  {
    hide Core, Budget;
    if !Loud(a) {
      hide Step;
      StepQuiet(c, s, a);
      SameBudget(c, s.mem, Step(c, s, a).mem);
    } else if DiskOnly(a) {
      hide Step;
      StepDiskOnly(c, s, a);
    } else if s.scan == None || !NeedsMutex(a) {
      hide AddStep, StopStep, TickStep, ReadJobStep, FailStep, SaveStep, MeasureStep, DecideStep, StatfsStep;
      hide BeginUploadStep, UploadDoneStep, CheckStoppedStep, ConfigureStep, FinishStep, CleanStep;
      hide JobWriteStep, JobFreeStep, At;
      match a
      case DecideCapacity(w, inspected) => DecideBudget(c, s, w, inspected);
      case Finish(w, saveFault, finishFault, day) => FinishStepBudget(c, s, w, saveFault, finishFault, day);
      case Configure(order, fault) => ConfigureBudget(c, s, order, fault);
      case Crash => CrashBudget(c, s);
    }
  }
}
