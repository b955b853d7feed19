/** Every step keeps the core invariant. */
module QueueSafety {
  import opened JobStore
  import opened QueueInvariant
  import opened QueueOps
  import opened QueueProtocol
  import opened Wrappers

  lemma InitialCore(c: Config, free: nat)
    requires ValidConfig(c)
    ensures Core(c, Initial(free))
  {
  }

  lemma CoreId(c: Config, s: State, id: Id)
    requires Core(c, s)
    ensures IdInv(c, id, ViewOf(s, id)) && HashesInv(s.db) && StoppedInv(s)
  {
  }

  lemma CoreWorker(c: Config, s: State, w: nat)
    requires Core(c, s) && w < |s.workers|
    ensures WrittenInv(s.workers[w]) && (s.workers[w].pc.Scanning? <==> s.scan == Some(w))
    ensures HashesInv(s.db) && StoppedInv(s) && s.mem.configured
    ensures IdInv(c, s.workers[w].id, ViewOf(s, s.workers[w].id))
    ensures Live(s.workers[w].pc) ==>
              && s.workers[w].id in s.mem.tasks && s.mem.tasks[s.workers[w].id].job.id == s.workers[w].id
              && WorkerInv(c, ViewOf(s, s.workers[w].id), s.workers[w].pc)
  {
  }

  /** Live workers of one job are the same worker. */
  lemma OnlyWorker(c: Config, s: State, w: nat, u: nat)
    requires Core(c, s) && w < |s.workers| && u < |s.workers| && s.workers[w].id == s.workers[u].id
    requires Live(s.workers[w].pc) && Live(s.workers[u].pc)
    ensures w == u
  {
  }

  // ------------------------------------------------------------------------- framing

  /** Only the view of `id` changed. */
  ghost predicate Confined(s: State, s': State, id: Id) {
    && (forall o :: o != id ==> ViewOf(s', o) == ViewOf(s, o))
    && s'.mem.configured == s.mem.configured
    && (!s.mem.configured ==> s'.mem == s.mem)
  }

  /** A step without a worker: whatever worker runs `id` has to live with the new view. */
  lemma KeepCore(c: Config, s: State, s': State, id: Id)
    requires Core(c, s) && Confined(s, s', id)
    requires s'.workers == s.workers && s'.scan == s.scan && HashesInv(s'.db)
    requires IdInv(c, id, ViewOf(s', id))
    requires id in s'.mem.tasks && s'.mem.tasks[id].running ==> id in s.mem.tasks && s.mem.tasks[id].running
    requires forall pc :: WorkerInv(c, ViewOf(s, id), pc) ==> WorkerInv(c, ViewOf(s', id), pc)
    ensures Core(c, s')
  {
    forall o ensures IdInv(c, o, ViewOf(s', o)) {
      assert IdInv(c, o, ViewOf(s, o));
    }
    forall o | o in s'.mem.tasks && s'.mem.tasks[o].running ensures Attended(s', o) {
      assert ViewOf(s', o).task.Some?;
      assert o != id ==> ViewOf(s', o) == ViewOf(s, o);
      assert Attended(s, o);
    }
  }

  /** A step of worker `w`: it is the only live worker of its job. */
  ghost predicate Moved(c: Config, s: State, s': State, w: nat) {
    && w < |s.workers| == |s'.workers|
    && (forall u :: 0 <= u < |s.workers| && u != w ==> s'.workers[u] == s.workers[u])
    && s'.workers[w].id == s.workers[w].id
    && Live(s.workers[w].pc)
    && WrittenInv(s'.workers[w])
    && (s.workers[w].pc.Scanning? <==> s.scan == Some(w))
    && (s'.workers[w].pc.Scanning? <==> s'.scan == Some(w))
    && (s'.scan != s.scan ==> {s.scan, s'.scan} == {None, Some(w)})
  }

  lemma MoveAttended(c: Config, s: State, s': State, w: nat, o: Id)
    requires Moved(c, s, s', w) && Confined(s, s', s.workers[w].id)
    requires o in s'.mem.tasks && s'.mem.tasks[o].running
    requires o in s.mem.tasks && s.mem.tasks[o].running ==> Attended(s, o)
    requires s.workers[w].id in s'.mem.tasks && s'.mem.tasks[s.workers[w].id].running ==> Live(s'.workers[w].pc)
    ensures Attended(s', o)
  {
    var id := s.workers[w].id;
    if o == id {
      assert s'.workers[w].id == o;
    } else {
      assert ViewOf(s', o) == ViewOf(s, o) && ViewOf(s', o).task.Some?;
      var u :| 0 <= u < |s.workers| && Live(s.workers[u].pc) && s.workers[u].id == o;
      assert u != w && s'.workers[u] == s.workers[u];
    }
  }

  lemma MoveWorkers(c: Config, s: State, s': State, w: nat)
    requires WorkersInv(c, s) && Moved(c, s, s', w) && Confined(s, s', s.workers[w].id)
    requires if Live(s'.workers[w].pc)
             then WorkerInv(c, ViewOf(s', s.workers[w].id), s'.workers[w].pc)
             else s.workers[w].id in s'.mem.tasks ==> !s'.mem.tasks[s.workers[w].id].running
    ensures WorkersInv(c, s')
  {
    forall u | 0 <= u < |s'.workers|
      ensures WrittenInv(s'.workers[u]) && (s'.workers[u].pc.Scanning? <==> s'.scan == Some(u))
      ensures Live(s'.workers[u].pc) ==> WorkerInv(c, ViewOf(s', s'.workers[u].id), s'.workers[u].pc)
    {
      if u != w {
        assert s'.workers[u] == s.workers[u];
        assert s'.scan == Some(u) <==> s.scan == Some(u);
        if Live(s.workers[u].pc) {
          assert s.workers[u].id != s.workers[w].id;
          assert ViewOf(s', s.workers[u].id) == ViewOf(s, s.workers[u].id);
        }
      }
    }
    forall o | o in s'.mem.tasks && s'.mem.tasks[o].running ensures Attended(s', o) {
      MoveAttended(c, s, s', w, o);
    }
  }

  lemma MoveCore(c: Config, s: State, s': State, w: nat)
    requires Core(c, s) && Moved(c, s, s', w) && Confined(s, s', s.workers[w].id)
    requires HashesInv(s'.db) && s.mem.configured
    requires IdInv(c, s.workers[w].id, ViewOf(s', s.workers[w].id))
    requires if Live(s'.workers[w].pc)
             then WorkerInv(c, ViewOf(s', s.workers[w].id), s'.workers[w].pc)
             else s.workers[w].id in s'.mem.tasks ==> !s'.mem.tasks[s.workers[w].id].running
    ensures Core(c, s')
  {
    MoveWorkers(c, s, s', w);
    forall o ensures IdInv(c, o, ViewOf(s', o)) {
      assert IdInv(c, o, ViewOf(s, o));
    }
  }

  // --------------------------------------------------------------- steps without a worker

  /** Steps that see nothing but the disk. */
  predicate DiskStep(a: Action) {
    a.Inspect? || a.JobWrite? || a.JobFree? || a.ForeignWrite? || a.ForeignFree?
  }

  lemma DiskStepFrame(c: Config, s: State, a: Action)
    requires DiskStep(a)
    ensures Step(c, s, a) == s.(disk := Step(c, s, a).disk)
  {
    hide Covered, Written, Freed, OnDisk;
    match a
    case Inspect(id, bytes) => assert Step(c, s, a) == InspectStep(s, id, bytes);
    case JobWrite(id, bytes) => assert Step(c, s, a) == JobWriteStep(s, id, bytes);
    case JobFree(id, bytes) => assert Step(c, s, a) == JobFreeStep(s, id, bytes);
    case ForeignWrite(bytes) =>
    case ForeignFree(bytes) =>
  }

  lemma AddCore(c: Config, s: State, req: Request, id: Id, fault: Fault)
    requires Core(c, s)
    ensures Core(c, AddStep(c, s, req, id, fault))
  {
    CoreId(c, s, id);
    hide Core;
    var s' := AddStep(c, s, req, id, fault);
    if s' != s {
      assert ViewOf(s, id).task == None && ViewOf(s, id).row == None;
      AddLocal(c, s, req, id, fault);
      KeepCore(c, s, s', id);
    }
  }

  lemma AddLocal(c: Config, s: State, req: Request, id: Id, fault: Fault)
    requires IdInv(c, id, ViewOf(s, id)) && HashesInv(s.db)
    requires c.canonical(id) && id !in s.hist.used && id !in s.mem.tasks && id !in s.db.rows
    ensures var s' := AddStep(c, s, req, id, fault);
            Confined(s, s', id) && HashesInv(s'.db) && IdInv(c, id, ViewOf(s', id))
  {
    var s' := AddStep(c, s, req, id, fault);
    if Acceptable(c, s.mem, req) {
      CreateHashes(s.db, NewJob(id, c.parse(req.magnet).value, req), fault);
    }
    hide HashesInv, Acceptable;
    assert Confined(s, s', id) by {
      hide IdInv, NewJob;
    }
    hide Confined;
    var v, v' := ViewOf(s, id), ViewOf(s', id);
    assert v'.row.Some? ==> v'.row.value == NewJob(id, c.parse(req.magnet).value, req);
    hide AddStep, ViewOf;
  }

  // The unique key on the hash survives every operation of the store.

  lemma CreateHashes(db: Db, j: Job, fault: Fault)
    requires HashesInv(db)
    ensures HashesInv(CreateRow(db, j, fault).0)
  {
  }

  lemma SaveHashes(db: Db, j: Job, fault: Fault)
    requires HashesInv(db)
    ensures HashesInv(SaveRow(db, j, fault).0)
  {
  }

  lemma StopCore(c: Config, s: State, id: Id, user: Text, owned: bool, fault: Fault)
    requires Core(c, s)
    ensures Core(c, StopStep(s, id, user, owned, fault))
  {
    CoreId(c, s, id);
    hide Core;
    if Addressed(s.mem, id, user, owned) && Stoppable(s.mem.tasks[id].job) {
      assert ViewOf(s, id).task.Some? && ViewOf(s, id).row.Some?;
      StopLocal(c, s, id, user, owned, fault);
      StopView(c, s, id, user, owned, fault);
      KeepCore(c, s, StopStep(s, id, user, owned, fault), id);
    }
  }

  lemma StopLocal(c: Config, s: State, id: Id, user: Text, owned: bool, fault: Fault)
    requires IdInv(c, id, ViewOf(s, id)) && HashesInv(s.db) && id in s.db.rows
    requires Addressed(s.mem, id, user, owned) && Stoppable(s.mem.tasks[id].job)
    ensures var s' := StopStep(s, id, user, owned, fault);
            && Confined(s, s', id) && HashesInv(s'.db)
            && s'.workers == s.workers && s'.scan == s.scan
            && id in s'.mem.tasks && s'.mem.tasks[id].running == s.mem.tasks[id].running
  {
    SaveHashes(s.db, WithStage(s.mem.tasks[id].job, Stopped), fault);
    hide HashesInv;
  }

  lemma StopView(c: Config, s: State, id: Id, user: Text, owned: bool, fault: Fault)
    requires IdInv(c, id, ViewOf(s, id)) && id in s.db.rows
    requires Addressed(s.mem, id, user, owned) && Stoppable(s.mem.tasks[id].job)
    ensures var s' := StopStep(s, id, user, owned, fault);
            && IdInv(c, id, ViewOf(s', id))
            && forall pc :: WorkerInv(c, ViewOf(s, id), pc) ==> WorkerInv(c, ViewOf(s', id), pc)
  {
    var v, v' := ViewOf(s, id), ViewOf(StopStep(s, id, user, owned, fault), id);
    assert v' == v || v' == SavedRow(v, Stopped) || v' == SavedBoth(v, Stopped).(acked := true);
  }

  lemma CrashCore(c: Config, s: State)
    requires Core(c, s)
    ensures Core(c, Step(c, s, Crash))
  {
    var s' := Step(c, s, Crash);
    forall o ensures IdInv(c, o, ViewOf(s', o)) {
      assert IdInv(c, o, ViewOf(s, o));
    }
  }

  /** A launched task is an idle one with a new worker. */
  lemma LaunchView(c: Config, s: State, s': State, o: Id)
    requires Core(c, s) && s'.mem == LaunchOp(s.mem) && s'.db == s.db && s'.hist == s.hist
    ensures IdInv(c, o, ViewOf(s', o))
    ensures o in Idle(s.mem.tasks) ==> WorkerInv(c, ViewOf(s', o), Launched)
    ensures forall pc :: WorkerInv(c, ViewOf(s, o), pc) ==> WorkerInv(c, ViewOf(s', o), pc)
  {
    var v, v' := ViewOf(s, o), ViewOf(s', o);
    assert IdInv(c, o, v);
    assert v' == if v.task.Some? then v.(task := Some(v.task.value.(running := true))) else v;
  }

  lemma TickCore(c: Config, s: State, order: seq<Id>)
    requires Core(c, s) && s.scan == None
    ensures Core(c, TickStep(s, order))
  {
    var s' := TickStep(s, order);
    var n := |s.workers|;
    if s' != s {
      forall o ensures IdInv(c, o, ViewOf(s', o)) {
        LaunchView(c, s, s', o);
      }
      forall u | 0 <= u < |s'.workers|
        ensures WrittenInv(s'.workers[u]) && !s'.workers[u].pc.Scanning?
        ensures Live(s'.workers[u].pc) ==> WorkerInv(c, ViewOf(s', s'.workers[u].id), s'.workers[u].pc)
      {
        LaunchView(c, s, s', s'.workers[u].id);
        if u < n {
          assert s'.workers[u] == s.workers[u] && WrittenInv(s.workers[u]);
        } else {
          assert s'.workers[u] == Worker(order[u - n], Launched, []);
        }
      }
      forall o | o in s'.mem.tasks ensures Attended(s', o) {
        LaunchAttended(s, s', order, o);
      }
      forall u | 0 <= u < n && Live(s.workers[u].pc) ensures s.workers[u].id !in Idle(s.mem.tasks) {
        assert WorkerInv(c, ViewOf(s, s.workers[u].id), s.workers[u].pc);
      }
      LaunchDistinct(s, s', order);
    }
  }

  lemma LaunchDistinct(s: State, s': State, order: seq<Id>)
    requires s' == TickStep(s, order) && s' != s
    requires forall u :: 0 <= u < |s.workers| && Live(s.workers[u].pc) ==> s.workers[u].id !in Idle(s.mem.tasks)
    requires forall w, u :: 0 <= w < u < |s.workers| && Live(s.workers[w].pc) && Live(s.workers[u].pc) ==>
               s.workers[w].id != s.workers[u].id
    ensures forall w, u :: 0 <= w < u < |s'.workers| && Live(s'.workers[w].pc) && Live(s'.workers[u].pc) ==>
              s'.workers[w].id != s'.workers[u].id
  {
  }

  lemma LaunchAttended(s: State, s': State, order: seq<Id>, o: Id)
    requires s' == TickStep(s, order) && s' != s && o in s.mem.tasks
    requires s.mem.tasks[o].running ==> Attended(s, o)
    ensures Attended(s', o)
  {
    var n := |s.workers|;
    if s.mem.tasks[o].running {
      var u :| 0 <= u < n && Live(s.workers[u].pc) && s.workers[u].id == o;
      assert s'.workers[u] == s.workers[u];
    } else {
      assert o in order;
      var i :| 0 <= i < |order| && order[i] == o;
      assert s'.workers[n + i].id == o;
    }
  }

  lemma RowsRecoverable(c: Config, s: State, order: seq<Id>)
    requires Core(c, s) && Enumerates(order, s.db.rows.Keys)
    ensures Recoverable(c, RowsIn(s.db, order))
    ensures forall i :: 0 <= i < |order| ==> RowsIn(s.db, order)[i].id == order[i]
  {
    hide Core, SoundRow;
    var rows := RowsIn(s.db, order);
    forall i | 0 <= i < |rows| ensures rows[i].id == order[i] && SoundRow(c, rows[i]) {
      CoreId(c, s, order[i]);
    }
    if order != [] {
      CoreId(c, s, order[0]);
    }
  }

  /** What `configure` builds from a durable state of a run. */
  lemma ConfigureResult(c: Config, s: State, order: seq<Id>)
    requires Core(c, s) && Enumerates(order, s.db.rows.Keys)
    ensures Recoverable(c, RowsIn(s.db, order))
    ensures RecoveredTasks(RowsIn(s.db, order)) ==
            map id | id in s.db.rows :: Task(RecoveredJob(s.db.rows[id]), false, false)
  {
    hide Core, RecoveredJob, Resumes, Recoverable;
    RowsRecoverable(c, s, order);
    var rows := RowsIn(s.db, order);
    RecoveredTasksAt(rows);
    var tasks := RecoveredTasks(rows);
    hide RecoveredTasks, SoundRow;
    forall id | id in s.db.rows
      ensures id in tasks && tasks[id] == Task(RecoveredJob(s.db.rows[id]), false, false)
    {
      var i :| 0 <= i < |order| && order[i] == id;
      assert rows[i] == s.db.rows[id];
    }
    forall id | id in tasks ensures id in s.db.rows {
      var i :| 0 <= i < |rows| && rows[i].id == id;
      assert order[i] == id;
    }
  }

  lemma ConfigureCore(c: Config, s: State, order: seq<Id>, fault: Fault)
    requires Core(c, s) && s.scan == None
    ensures Core(c, ConfigureStep(c, s, order, fault))
  {
    var s' := ConfigureStep(c, s, order, fault);
    if s' != s {
      ConfigureResult(c, s, order);
      forall o ensures IdInv(c, o, ViewOf(s', o)) {
        assert IdInv(c, o, ViewOf(s, o));
      }
    }
  }

  // -------------------------------------------------------------------- steps of workers

  /** A worker that only moves on. */
  lemma GotoCore(c: Config, s: State, w: nat, pc: PC)
    requires Core(c, s) && w < |s.workers| && Live(s.workers[w].pc)
    requires !s.workers[w].pc.Scanning? && !pc.Scanning? && Reached(s.workers[w].pc) <= Reached(pc)
    requires Live(pc) && WorkerInv(c, ViewOf(s, s.workers[w].id), pc)
    ensures Core(c, Goto(s, w, pc))
  {
    CoreWorker(c, s, w);
    hide Core;
    assert ViewOf(Goto(s, w, pc), s.workers[w].id) == ViewOf(s, s.workers[w].id);
    MoveCore(c, s, Goto(s, w, pc), w);
  }

  lemma ReadJobCore(c: Config, s: State, w: nat)
    requires Core(c, s)
    ensures Core(c, ReadJobStep(s, w))
  {
    if At(s, w, Launched) {
      CoreWorker(c, s, w);
      hide Core;
      var status := s.mem.tasks[s.workers[w].id].job.status;
      GotoCore(c, s, w, if Terminal(status) then Finishing(status) else Preparing);
    }
  }

  lemma FailCore(c: Config, s: State, w: nat)
    requires Core(c, s)
    ensures Core(c, FailStep(s, w))
  {
    if w < |s.workers| && CanFail(s.workers[w].pc) {
      CoreWorker(c, s, w);
      hide Core;
      GotoCore(c, s, w, Exiting(Failed));
    }
  }

  lemma CheckStoppedCore(c: Config, s: State, w: nat)
    requires Core(c, s)
    ensures Core(c, CheckStoppedStep(s, w))
  {
    var s' := CheckStoppedStep(s, w);
    if s' != s {
      CoreWorker(c, s, w);
      hide Core;
      GotoCore(c, s, w, s'.workers[w].pc);
    }
  }

  lemma AnsweredCore(c: Config, s: State, answered: set<Id>)
    requires Core(c, s)
    ensures Core(c, s.(hist := s.hist.(answered := answered)))
  {
    var s' := s.(hist := s.hist.(answered := answered));
    forall o ensures ViewOf(s', o) == ViewOf(s, o) {
    }
    forall o | o in s'.mem.tasks && s'.mem.tasks[o].running ensures Attended(s', o) {
      assert Attended(s, o);
    }
  }

  lemma UploadDoneCore(c: Config, s: State, w: nat)
    requires Core(c, s)
    ensures Core(c, UploadDoneStep(s, w))
  {
    if At(s, w, Sending) {
      CoreWorker(c, s, w);
      var s0 := s.(hist := s.hist.(answered := s.hist.answered + {s.workers[w].id}));
      AnsweredCore(c, s, s0.hist.answered);
      hide Core;
      assert ViewOf(s0, s.workers[w].id) == ViewOf(s, s.workers[w].id);
      GotoCore(c, s0, w, Exiting(Completed));
    }
  }

  lemma BeginLocal(c: Config, id: Id, v: View)
    requires IdInv(c, id, v) && WorkerInv(c, v, UploadPersisted)
    ensures v.uploads == 0 && IdInv(c, id, v.(uploads := 1)) && WorkerInv(c, v.(uploads := 1), Sending)
  {
  }

  lemma BeginUploadCore(c: Config, s: State, w: nat)
    requires Core(c, s)
    ensures Core(c, BeginUploadStep(s, w))
  {
    if At(s, w, UploadPersisted) {
      CoreWorker(c, s, w);
      hide Core, IdInv, WorkerInv;
      var s' := BeginUploadStep(s, w);
      var id := s.workers[w].id;
      BeginLocal(c, id, ViewOf(s, id));
      assert ViewOf(s', id) == ViewOf(s, id).(uploads := 1);
      hide ViewOf;
      MoveCore(c, s, s', w);
    }
  }

  /** The stage a worker may persist next, and where that leads. */
  predicate Stages(from: PC, zipped: bool, stage: Stage, next: PC) {
    || (from == Preparing && stage == Started && next == AwaitingInfo)
    || (from == Admitted && stage == Downloading && next == Fetching)
    || (from == Fetching && zipped && stage == Zipping && next == Packing)
    || (from == Packing && stage == Uploading && next == UploadPersisted)
    || (from == Fetching && !zipped && stage == Uploading && next == UploadPersisted)
  }

  /** The three outcomes of a save. */
  lemma SaveCases(mem: Mem, db: Db, id: Id, stage: Stage, fault: Fault)
    requires id in mem.tasks && mem.tasks[id].job.id == id
    requires id in db.rows || mem.tasks[id].job.status == Stopped
    ensures SaveStageOp(mem, db, id, stage, fault) ==
            var j := WithStage(mem.tasks[id].job, stage);
            if mem.tasks[id].job.status == Stopped || fault == Lost then (mem, db, false)
            else
              var db' := db.(rows := db.rows[id := Updated(db.rows[id], j)]);
              if fault == LostReply then (mem, db', false) else (WithJob(mem, id, j), db', true)
  {
  }

  lemma SaveLocal(s: State, w: nat, stage: Stage, next: PC, fault: Fault)
    requires w < |s.workers| && s.workers[w].id in s.mem.tasks && next != Exiting(Failed)
    requires s.workers[w].id in s.db.rows || s.mem.tasks[s.workers[w].id].job.status == Stopped
    requires s.mem.tasks[s.workers[w].id].job.id == s.workers[w].id
    ensures var s' := SaveStep(s, w, stage, next, fault);
            var v, v' := ViewOf(s, s.workers[w].id), ViewOf(s', s.workers[w].id);
            && (v' != v || s'.workers[w].pc == next ==> v.row.Some? && v.task.value.job.status != Stopped)
            && if s'.workers[w].pc == next then v' == SavedBoth(v, stage)
               else s'.workers[w].pc == Exiting(Failed) && (v' == v || v' == SavedRow(v, stage))
  {
    SaveCases(s.mem, s.db, s.workers[w].id, stage, fault);
    hide SaveStageOp, SaveRow, WithStage, Updated;
  }

  lemma SaveFrame(c: Config, s: State, w: nat, stage: Stage, next: PC, fault: Fault)
    requires w < |s.workers| && s.workers[w].id in s.mem.tasks && s.mem.configured
    requires s.mem.tasks[s.workers[w].id].job.id == s.workers[w].id
    requires Stages(s.workers[w].pc, s.mem.tasks[s.workers[w].id].job.zipped, stage, next)
    requires WrittenInv(s.workers[w]) && s.scan != Some(w) && HashesInv(s.db)
    ensures var s' := SaveStep(s, w, stage, next, fault);
            Confined(s, s', s.workers[w].id) && Moved(c, s, s', w) && HashesInv(s'.db)
  {
    var s' := SaveStep(s, w, stage, next, fault);
    SaveHashes(s.db, WithStage(s.mem.tasks[s.workers[w].id].job, stage), fault);
    hide HashesInv;
    assert Confined(s, s', s.workers[w].id) by {
      hide WrittenInv;
    }
    hide Confined, ViewOf, SaveStageOp;
  }

  lemma SaveInv(c: Config, s: State, w: nat, stage: Stage, next: PC, fault: Fault)
    requires w < |s.workers| && s.workers[w].id in s.mem.tasks
    requires s.mem.tasks[s.workers[w].id].job.id == s.workers[w].id
    requires Stages(s.workers[w].pc, s.mem.tasks[s.workers[w].id].job.zipped, stage, next)
    requires IdInv(c, s.workers[w].id, ViewOf(s, s.workers[w].id))
    requires WorkerInv(c, ViewOf(s, s.workers[w].id), s.workers[w].pc)
    ensures var s' := SaveStep(s, w, stage, next, fault);
            && IdInv(c, s.workers[w].id, ViewOf(s', s.workers[w].id))
            && Live(s'.workers[w].pc)
            && WorkerInv(c, ViewOf(s', s.workers[w].id), s'.workers[w].pc)
  {
    hide IdInv, WorkerInv, SaveStep, SavedRow, SavedBoth;
    SaveView(c, s.workers[w].id, ViewOf(s, s.workers[w].id), s.workers[w].pc, stage, next);
    SaveLocal(s, w, stage, next, fault);
  }

  lemma SaveCore(c: Config, s: State, w: nat, stage: Stage, next: PC, fault: Fault)
    requires Core(c, s)
    requires w < |s.workers| && s.workers[w].id in s.mem.tasks
    requires Stages(s.workers[w].pc, s.mem.tasks[s.workers[w].id].job.zipped, stage, next)
    ensures Core(c, SaveStep(s, w, stage, next, fault))
  {
    CoreWorker(c, s, w);
    hide Core, IdInv, WorkerInv, SaveStep, WrittenInv, HashesInv;
    SaveInv(c, s, w, stage, next, fault);
    SaveFrame(c, s, w, stage, next, fault);
    hide ViewOf, Confined, Moved;
    MoveCore(c, s, SaveStep(s, w, stage, next, fault), w);
  }

  function SavedRow(v: View, stage: Stage): View
    requires v.task.Some? && v.row.Some?
  {
    v.(row := Some(Updated(v.row.value, WithStage(v.task.value.job, stage))))
  }

  function SavedBoth(v: View, stage: Stage): View
    requires v.task.Some? && v.row.Some?
  {
    SavedRow(v, stage).(task := Some(v.task.value.(job := WithStage(v.task.value.job, stage))))
  }

  /** A lost, an unacknowledged and an acknowledged save all keep the view sound. */
  lemma SaveView(c: Config, id: Id, v: View, from: PC, stage: Stage, next: PC)
    requires IdInv(c, id, v) && WorkerInv(c, v, from)
    requires Stages(from, v.task.value.job.zipped, stage, next)
    ensures WorkerInv(c, v, Exiting(Failed))
    ensures v.task.value.job.status != Stopped ==>
              && v.row.Some?
              && IdInv(c, id, SavedRow(v, stage)) && WorkerInv(c, SavedRow(v, stage), Exiting(Failed))
              && IdInv(c, id, SavedBoth(v, stage)) && WorkerInv(c, SavedBoth(v, stage), next)
  {
  }

  lemma MeasureCore(c: Config, s: State, w: nat, info: Info)
    requires Core(c, s)
    ensures Core(c, MeasureStep(c, s, w, info))
  {
    if At(s, w, AwaitingInfo) {
      CoreWorker(c, s, w);
      hide Core;
      MeasureLocal(c, s, w, info);
      hide MeasureStep;
      MoveCore(c, s, MeasureStep(c, s, w, info), w);
    }
  }

  lemma MeasureLocal(c: Config, s: State, w: nat, info: Info)
    requires At(s, w, AwaitingInfo) && s.mem.configured && WrittenInv(s.workers[w]) && s.scan != Some(w)
    requires IdInv(c, s.workers[w].id, ViewOf(s, s.workers[w].id))
    requires WorkerInv(c, ViewOf(s, s.workers[w].id), AwaitingInfo)
    ensures var s' := MeasureStep(c, s, w, info);
            && Confined(s, s', s.workers[w].id) && Moved(c, s, s', w) && s'.db == s.db
            && Live(s'.workers[w].pc)
            && IdInv(c, s.workers[w].id, ViewOf(s', s.workers[w].id))
            && WorkerInv(c, ViewOf(s', s.workers[w].id), s'.workers[w].pc)
  {
    var j := s.mem.tasks[s.workers[w].id].job;
    if Measured(j, info).Some? {
      MeasuredNonNegative(j, info);
    }
    hide Measured;
    assert Confined(s, MeasureStep(c, s, w, info), s.workers[w].id) by {
      hide WrittenInv, IdInv, WorkerInv;
    }
    hide Confined;
  }

  lemma MeasuredNonNegative(j: Job, info: Info)
    requires Measured(j, info).Some?
    ensures 0 <= Measured(j, info).value.1
  {
  }

  lemma StatfsCore(c: Config, s: State, w: nat)
    requires Core(c, s) && s.scan == None
    ensures Core(c, StatfsStep(s, w))
  {
    if At(s, w, AwaitingCapacity) {
      CoreWorker(c, s, w);
      hide Core;
      assert ViewOf(StatfsStep(s, w), s.workers[w].id) == ViewOf(s, s.workers[w].id);
      MoveCore(c, s, StatfsStep(s, w), w);
    }
  }

  lemma DecideLocal(c: Config, s: State, w: nat, inspected: bool)
    requires w < |s.workers| && s.workers[w].id in s.mem.tasks && s.mem.configured
    requires s.workers[w].pc.Scanning? && WrittenInv(s.workers[w]) && s.scan == Some(w)
    requires inspected ==> Inspected(s.mem.tasks, s.workers[w].id, s.disk.check.measured)
    ensures var s' := DecideStep(c, s, w, inspected);
            var v := ViewOf(s, s.workers[w].id);
            var pc := s'.workers[w].pc;
            && Confined(s, s', s.workers[w].id) && Moved(c, s, s', w) && s'.db == s.db
            && (pc == Admitted || pc == AwaitingCapacity || pc == Exiting(Failed))
            && ViewOf(s', s.workers[w].id) ==
               if pc == Admitted then v.(task := Some(v.task.value.(reserved := true))) else v
  {
    hide Decide;
    assert Confined(s, DecideStep(c, s, w, inspected), s.workers[w].id) by {
      hide WrittenInv;
    }
    hide Confined;
  }

  lemma DecideCore(c: Config, s: State, w: nat, inspected: bool)
    requires Core(c, s)
    ensures Core(c, DecideStep(c, s, w, inspected))
  {
    var s' := DecideStep(c, s, w, inspected);
    if w < |s.workers| && s.workers[w].pc.Scanning? && s.workers[w].id in s.mem.tasks
       && (inspected ==> Inspected(s.mem.tasks, s.workers[w].id, s.disk.check.measured)) {
      CoreWorker(c, s, w);
      hide Core;
      DecideLocal(c, s, w, inspected);
      MoveCore(c, s, s', w);
    }
  }

  /** The three things a finish can leave behind for its job. */
  function FinishView(v: View, outcome: Stage, row: Option<Job>, removed: Option<Removal>, ok: bool): View
    requires v.task.Some?
  {
    var t := v.task.value;
    v.(task := if ok then None else Some(t.(job := WithStage(t.job, outcome), running := false)),
       row := row, removed := removed)
  }

  lemma FinishViewInv(c: Config, id: Id, v: View, outcome: Stage, row: Option<Job>, removed: Option<Removal>, ok: bool)
    requires IdInv(c, id, v) && WorkerInv(c, v, Finishing(outcome))
    requires ok ==> row == None
    requires
      || (row == v.row && removed == v.removed)
      || (v.row.Some? && removed == v.removed
          && row == Some(Updated(v.row.value, WithStage(v.task.value.job, outcome))))
      || (v.row.Some? && row == None && removed.Some? && removed.value.key.status == outcome)
    ensures IdInv(c, id, FinishView(v, outcome, row, removed, ok))
  {
  }

  /** The durable effect of a finish: nothing, the terminal stage, or the row is gone. */
  lemma FinishDb(mem: Mem, db: Db, id: Id, outcome: Stage, saveFault: Fault, finishFault: Fault, day: int)
    requires id in mem.tasks && mem.tasks[id].job.id == id && Terminal(outcome)
    ensures var (mem', db', ok) := FinishOp(mem, db, id, outcome, saveFault, finishFault, day);
            && (|| db'.rows == db.rows
                || (id in db.rows && db'.rows == db.rows - {id})
                || (id in db.rows
                    && db'.rows == db.rows[id := Updated(db.rows[id], WithStage(mem.tasks[id].job, outcome))]))
            && (ok ==> id !in db'.rows && mem'.tasks == mem.tasks - {id})
            && (!ok ==> mem'.tasks == mem.tasks[id :=
                  mem.tasks[id].(job := WithStage(mem.tasks[id].job, outcome), running := false)])
            && mem'.configured == mem.configured
            && mem'.active == if ok
              && mem.tasks[id].reserved then mem.active - mem.tasks[id].job.reserved else mem.active
  {
  }

  lemma FinishLocal(c: Config, s: State, w: nat, saveFault: Fault, finishFault: Fault, day: int)
    requires w < |s.workers| && s.workers[w].id in s.mem.tasks && s.mem.configured
    requires s.workers[w].pc.Finishing? && WrittenInv(s.workers[w]) && s.scan != Some(w)
    requires s.mem.tasks[s.workers[w].id].job.id == s.workers[w].id && Terminal(s.workers[w].pc.outcome)
    ensures var s' := FinishStep(s, w, saveFault, finishFault, day);
            && Confined(s, s', s.workers[w].id) && Moved(c, s, s', w) && (HashesInv(s.db) ==> HashesInv(s'.db))
            && !Live(s'.workers[w].pc)
  {
    FinishDb(s.mem, s.db, s.workers[w].id, s.workers[w].pc.outcome, saveFault, finishFault, day);
    hide FinishOp;
    var s' := FinishStep(s, w, saveFault, finishFault, day);
    assert Confined(s, s', s.workers[w].id) by {
      hide WrittenInv, HashesInv;
    }
    assert HashesInv(s.db) ==> HashesInv(s'.db) by {
      hide Confined, WrittenInv;
    }
    hide Confined, HashesInv, ViewOf;
  }

  lemma FinishLocalView(s: State, w: nat, saveFault: Fault, finishFault: Fault, day: int)
    requires w < |s.workers| && s.workers[w].id in s.mem.tasks && s.workers[w].pc.Finishing?
    requires s.mem.tasks[s.workers[w].id].job.id == s.workers[w].id && Terminal(s.workers[w].pc.outcome)
    ensures var s' := FinishStep(s, w, saveFault, finishFault, day);
            var v, v' := ViewOf(s, s.workers[w].id), ViewOf(s', s.workers[w].id);
            var outcome := s.workers[w].pc.outcome;
            && v' == FinishView(v, outcome, v'.row, v'.removed, v'.task == None)
            && (v'.task == None ==> v'.row == None)
            && (|| (v'.row == v.row && v'.removed == v.removed)
                || (v.row.Some? && v'.removed == v.removed
                    && v'.row == Some(Updated(v.row.value, WithStage(v.task.value.job, outcome))))
                || (v.row.Some? && v'.row == None && v'.removed.Some? && v'.removed.value.key.status == outcome))
  {
    FinishDb(s.mem, s.db, s.workers[w].id, s.workers[w].pc.outcome, saveFault, finishFault, day);
  }

  lemma FinishCore(c: Config, s: State, w: nat, saveFault: Fault, finishFault: Fault, day: int)
    requires Core(c, s)
    ensures Core(c, FinishStep(s, w, saveFault, finishFault, day))
  {
    var s' := FinishStep(s, w, saveFault, finishFault, day);
    if w < |s.workers| && s.workers[w].pc.Finishing? && s.workers[w].id in s.mem.tasks {
      var id, outcome := s.workers[w].id, s.workers[w].pc.outcome;
      var v := ViewOf(s, id);
      CoreWorker(c, s, w);
      hide Core;
      FinishLocal(c, s, w, saveFault, finishFault, day);
      FinishLocalView(s, w, saveFault, finishFault, day);
      var v' := ViewOf(s', id);
      FinishViewInv(c, id, v, outcome, v'.row, v'.removed, v'.task == None);
      MoveCore(c, s, s', w);
    }
  }

  /** The disk is nobody's business but the capacity test's. */
  lemma DiskCore(c: Config, s: State, disk: Disk)
    requires Core(c, s)
    ensures Core(c, s.(disk := disk))
  {
    var s' := s.(disk := disk);
    forall o ensures ViewOf(s', o) == ViewOf(s, o) {
    }
    forall o | o in s'.mem.tasks && s'.mem.tasks[o].running ensures Attended(s', o) {
      assert Attended(s, o);
    }
  }

  lemma RetireWorkers(c: Config, s: State, w: nat)
    requires WorkersInv(c, s) && w < |s.workers| && s.workers[w].pc.Cleaning?
    ensures WorkersInv(c, Goto(s, w, Done))
  {
    var s' := Goto(s, w, Done);
    hide IdInv;
    forall u | 0 <= u < |s'.workers| && Live(s'.workers[u].pc)
      ensures WorkerInv(c, ViewOf(s', s'.workers[u].id), s'.workers[u].pc)
    {
      assert ViewOf(s', s.workers[u].id) == ViewOf(s, s.workers[u].id);
    }
    hide WorkerInv;
    assert WrittenInv(s.workers[w]);
    forall o | o in s'.mem.tasks && s'.mem.tasks[o].running ensures Attended(s', o) {
      var u :| 0 <= u < |s.workers| && Live(s.workers[u].pc) && s.workers[u].id == o;
      assert s'.workers[u] == s.workers[u];
    }
  }

  lemma CleanCore(c: Config, s: State, w: nat)
    requires Core(c, s)
    ensures Core(c, CleanStep(s, w))
  {
    if w < |s.workers| && s.workers[w].pc.Cleaning? {
      var s' := Goto(s, w, Done);
      RetireWorkers(c, s, w);
      assert Core(c, s') by {
        hide WorkersInv, IdInv;
        forall o ensures IdInv(c, o, ViewOf(s', o)) {
          assert IdInv(c, o, ViewOf(s, o)) && ViewOf(s', o) == ViewOf(s, o);
        }
      }
      hide Core;
      DiskCore(c, s', CleanStep(s, w).disk);
    }
  }

  /** The steps of the worker that happen to be a save. */
  lemma SaveStepsCore(c: Config, s: State, a: Action)
    requires Core(c, s) && (a.SaveStarted? || a.SaveDownloading? || a.SaveZipping? || a.SaveUploading?)
    ensures Core(c, Step(c, s, a))
  {
    hide Core, SaveStep;
    if s.scan == None {
      match a
      case SaveStarted(w, fault) =>
        if At(s, w, Preparing) { SaveCore(c, s, w, Started, AwaitingInfo, fault); }
      case SaveDownloading(w, fault) =>
        if At(s, w, Admitted) { SaveCore(c, s, w, Downloading, Fetching, fault); }
      case SaveZipping(w, fault) =>
        if At(s, w, Fetching) && s.mem.tasks[s.workers[w].id].job.zipped {
          SaveCore(c, s, w, Zipping, Packing, fault);
        }
      case SaveUploading(w, fault) =>
        if At(s, w, Packing) || (At(s, w, Fetching) && !s.mem.tasks[s.workers[w].id].job.zipped) {
          SaveCore(c, s, w, Uploading, UploadPersisted, fault);
        }
    }
  }

  /** The core invariant is inductive. */
  lemma StepCore(c: Config, s: State, a: Action)
    requires Core(c, s)
    ensures Core(c, Step(c, s, a))
  {
    hide Core, AddStep, StopStep, TickStep, ReadJobStep, FailStep, SaveStep, MeasureStep, StatfsStep, DecideStep;
    hide BeginUploadStep, UploadDoneStep, CheckStoppedStep, FinishStep, CleanStep, ConfigureStep, At;
    if a.SaveStarted? || a.SaveDownloading? || a.SaveZipping? || a.SaveUploading? {
      hide Step;
      SaveStepsCore(c, s, a);
    } else if s.scan == None || !NeedsMutex(a) {
      match a
      case Add(req, id, fault) => AddCore(c, s, req, id, fault);
      case Stop(id, user, owned, fault) => StopCore(c, s, id, user, owned, fault);
      case Tick(order) => TickCore(c, s, order);
      case ReadJob(w) => ReadJobCore(c, s, w);
      case Fail(w) => FailCore(c, s, w);
      case Measure(w, info) => MeasureCore(c, s, w, info);
      case Statfs(w) => StatfsCore(c, s, w);
      case Inspect(id, bytes) => DiskCore(c, s, InspectStep(s, id, bytes).disk);
      case DecideCapacity(w, inspected) => DecideCore(c, s, w, inspected);
      case BeginUpload(w) => BeginUploadCore(c, s, w);
      case UploadDone(w) => UploadDoneCore(c, s, w);
      case CheckStopped(w) => CheckStoppedCore(c, s, w);
      case Finish(w, saveFault, finishFault, day) => FinishCore(c, s, w, saveFault, finishFault, day);
      case Clean(w) => CleanCore(c, s, w);
      case JobWrite(id, bytes) => DiskCore(c, s, JobWriteStep(s, id, bytes).disk);
      case JobFree(id, bytes) => DiskCore(c, s, JobFreeStep(s, id, bytes).disk);
      case ForeignWrite(bytes) => DiskCore(c, s, Step(c, s, a).disk);
      case ForeignFree(bytes) => DiskCore(c, s, Step(c, s, a).disk);
      case Crash => CrashCore(c, s);
      case Configure(order, fault) => ConfigureCore(c, s, order, fault);
    }
  }
}
