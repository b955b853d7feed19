/**
 The queue as a transition system. Workers, HTTP callers, the scheduler, other
 users of the disk and crashes interleave; one step is one critical section, or
 one piece of work a worker does without the mutex. Everything the environment
 decides (faults, timing, torrent metadata, new IDs) is part of the action, so
 `Step` is a function and a run is a sequence of actions. An action that is not
 enabled changes nothing.
 */
module QueueProtocol {
  import opened JobStore
  import opened QueueOps
  import opened Reservation
  import opened Sums
  import opened Wrappers

  /** Where a worker is in `run`. */
  datatype PC =
    | Launched
    | Preparing
    | AwaitingInfo
    | AwaitingCapacity
    | Scanning(sample: nat)      // holds the mutex, has sampled the free space
    | Admitted
    | Fetching
    | Packing
    | UploadPersisted
    | Sending                    // the remote upload is in flight
    | Exiting(outcome: Stage)    // about to look for a stop
    | Finishing(outcome: Stage)  // about to lock for the terminal state
    | Cleaning(outcome: Stage)
    | Done

  /** `written` records the stages this worker has tried to persist. */
  datatype Worker = Worker(id: Id, pc: PC, written: seq<Stage>)

  /**
   The capacity check in progress: what its walks have measured, and what has
   happened since it sampled the free space. `freed` counts, per job, the bytes
   freed before the walk over that job was over, `gone` those freed after it;
   `raced` counts those written within a reservation before the walk was over,
   `later` those written after it, and `outside` all other bytes written, less
   the bytes that others have freed.
   */
  datatype Check = Check(
    measured: map<Id, nat>,
    freed: map<Id, nat>,
    gone: map<Id, nat>,
    raced: map<Id, nat>,
    later: map<Id, nat>,
    outside: int)

  const NO_CHECK := Check(map[], map[], map[], map[], map[], 0)

  /**
   `foreign` is by how much the admitted jobs can overrun the free space: the
   bytes raced past the last check that admitted a job, and the bytes written
   since its sample by others or beyond a reservation, less those that others
   have freed. It is zero from a check that starts with nobody admitted.
   */
  datatype Disk = Disk(free: nat, foreign: nat, onDisk: map<Id, nat>, check: Check)

  datatype Removal = Removal(key: MetricKey, size: int)

  /** What has happened so far; no step reads it, except that new IDs are new. */
  datatype History = History(
    used: set<Id>,
    requests: map<Id, Request>, // what was asked for with the inserted rows
    inserted: set<Id>,
    rejected: set<Id>,          // IDs whose Add returned an error
    acked: set<Id>,             // IDs whose stop was acknowledged
    uploads: multiset<Id>,      // remote uploads begun
    answered: set<Id>,          // remote uploads that returned without an error
    interrupted: set<Id>,       // IDs whose row a crash left at the uploading stage
    removed: map<Id, Removal>)  // rows deleted, with the size they had

  datatype State = State(mem: Mem, db: Db, workers: seq<Worker>, scan: Option<nat>, disk: Disk, hist: History)

  datatype Action =
    | Add(req: Request, id: Id, fault: Fault)
    | Stop(id: Id, user: Text, owned: bool, fault: Fault)
    | Tick(order: seq<Id>)
    | ReadJob(w: nat)
    | Fail(w: nat)
    | SaveStarted(w: nat, fault: Fault)
    | Measure(w: nat, info: Info)
    | Statfs(w: nat)
    | Inspect(id: Id, bytes: nat)
    | DecideCapacity(w: nat, inspected: bool)
    | SaveDownloading(w: nat, fault: Fault)
    | SaveZipping(w: nat, fault: Fault)
    | SaveUploading(w: nat, fault: Fault)
    | BeginUpload(w: nat)
    | UploadDone(w: nat)
    | CheckStopped(w: nat)
    | Finish(w: nat, saveFault: Fault, finishFault: Fault, day: int)
    | Clean(w: nat)
    | JobWrite(id: Id, bytes: nat)
    | JobFree(id: Id, bytes: nat)
    | ForeignWrite(bytes: nat)
    | ForeignFree(bytes: nat)
    | Crash
    | Configure(order: seq<Id>, fault: Fault)

  /** Steps that take the mutex wait for the worker that holds it. */
  predicate NeedsMutex(a: Action) {
    match a
    case Fail(_) | DecideCapacity(_, _) | BeginUpload(_) | UploadDone(_) | Clean(_) => false
    case Inspect(_, _) | JobWrite(_, _) | JobFree(_, _) | ForeignWrite(_) | ForeignFree(_) | Crash => false
    case _ => true
  }

  predicate Live(pc: PC) {
    !pc.Cleaning? && !pc.Done?
  }

  /** Between the start of its work and its end a worker can give up, except while scanning. */
  predicate CanFail(pc: PC) {
    match pc
    case Preparing | AwaitingInfo | AwaitingCapacity | Admitted | Fetching | Packing | UploadPersisted | Sending => true
    case _ => false
  }

  predicate At(s: State, w: nat, pc: PC) {
    w < |s.workers| && s.workers[w].pc == pc && s.workers[w].id in s.mem.tasks
  }

  function Goto(s: State, w: nat, pc: PC): State
    requires w < |s.workers|
  {
    s.(workers := s.workers[w := s.workers[w].(pc := pc)])
  }

  function Initial(free: nat): State {
    State(Mem(false, map[], 0), Db(map[], map[]), [], None, Disk(free, 0, map[], NO_CHECK),
          History({}, map[], {}, {}, {}, multiset{}, {}, {}, map[]))
  }

  ghost function Step(c: Config, s: State, a: Action): State {
    if s.scan.Some? && NeedsMutex(a) then s
    else
      match a
      case Add(req, id, fault) => AddStep(c, s, req, id, fault)
      case Stop(id, user, owned, fault) => StopStep(s, id, user, owned, fault)
      case Tick(order) => TickStep(s, order)
      case ReadJob(w) => ReadJobStep(s, w)
      case Fail(w) => FailStep(s, w)
      case SaveStarted(w, fault) =>
        if At(s, w, Preparing) then SaveStep(s, w, Started, AwaitingInfo, fault) else s
      case Measure(w, info) => MeasureStep(c, s, w, info)
      case Statfs(w) => StatfsStep(s, w)
      case Inspect(id, bytes) => InspectStep(s, id, bytes)
      case DecideCapacity(w, inspected) => DecideStep(c, s, w, inspected)
      case SaveDownloading(w, fault) =>
        if At(s, w, Admitted) then SaveStep(s, w, Downloading, Fetching, fault) else s
      case SaveZipping(w, fault) =>
        if At(s, w, Fetching) && s.mem.tasks[s.workers[w].id].job.zipped
        then SaveStep(s, w, Zipping, Packing, fault) else s
      case SaveUploading(w, fault) =>
        if At(s, w, Packing) || (At(s, w, Fetching) && !s.mem.tasks[s.workers[w].id].job.zipped)
        then SaveStep(s, w, Uploading, UploadPersisted, fault) else s
      case BeginUpload(w) => BeginUploadStep(s, w)
      case UploadDone(w) => UploadDoneStep(s, w)
      case CheckStopped(w) => CheckStoppedStep(s, w)
      case Finish(w, saveFault, finishFault, day) => FinishStep(s, w, saveFault, finishFault, day)
      case Clean(w) => CleanStep(s, w)
      case JobWrite(id, bytes) => JobWriteStep(s, id, bytes)
      case JobFree(id, bytes) => JobFreeStep(s, id, bytes)
      case ForeignWrite(bytes) =>
        if bytes <= s.disk.free
        then s.(disk := s.disk.(free := s.disk.free - bytes, foreign := s.disk.foreign + bytes,
                                check := s.disk.check.(outside := s.disk.check.outside + bytes))) else s
      case ForeignFree(bytes) =>
        s.(disk := s.disk.(free := s.disk.free + bytes,
                           foreign := if bytes <= s.disk.foreign then s.disk.foreign - bytes else 0,
                           check := s.disk.check.(outside := s.disk.check.outside - bytes)))
      case Crash =>
        s.(mem := Mem(false, map[], 0), workers := [], scan := None, disk := s.disk.(foreign := 0),
           hist := s.hist.(interrupted := s.hist.interrupted + UploadingRows(s.db)))
      case Configure(order, fault) => ConfigureStep(c, s, order, fault)
  }

  function UploadingRows(db: Db): set<Id> {
    set id | id in db.rows && db.rows[id].stage == Uploading
  }

  /** IDs come from a generator of fresh canonical UUIDs. */
  function AddStep(c: Config, s: State, req: Request, id: Id, fault: Fault): State {
    if id in s.hist.used || !c.canonical(id) then s
    else
      var (mem, db, ok) := AddOp(c, s.mem, s.db, req, id, fault);
      s.(mem := mem, db := db, hist := s.hist.(
           used := s.hist.used + {id},
           requests := if id in db.rows then s.hist.requests[id := req] else s.hist.requests,
           inserted := if id in db.rows then s.hist.inserted + {id} else s.hist.inserted,
           rejected := if ok then s.hist.rejected else s.hist.rejected + {id}))
  }

  function StopStep(s: State, id: Id, user: Text, owned: bool, fault: Fault): State {
    var (mem, db, ok) := StopOp(s.mem, s.db, id, user, owned, fault);
    s.(mem := mem, db := db, hist := s.hist.(acked := if ok then s.hist.acked + {id} else s.hist.acked))
  }

  function TickStep(s: State, order: seq<Id>): State {
    if s.mem.configured && Enumerates(order, Idle(s.mem.tasks)) then
      s.(mem := LaunchOp(s.mem),
         workers := s.workers + seq(|order|, i requires 0 <= i < |order| => Worker(order[i], Launched, [])))
    else s
  }

  function ReadJobStep(s: State, w: nat): State {
    if At(s, w, Launched) then
      var status := s.mem.tasks[s.workers[w].id].job.status;
      Goto(s, w, if Terminal(status) then Finishing(status) else Preparing)
    else s
  }

  function FailStep(s: State, w: nat): State {
    if w < |s.workers| && CanFail(s.workers[w].pc) then Goto(s, w, Exiting(Failed)) else s
  }

  function SaveStep(s: State, w: nat, stage: Stage, next: PC, fault: Fault): State
    requires w < |s.workers| && s.workers[w].id in s.mem.tasks
  {
    var worker := s.workers[w];
    var (mem, db, ok) := SaveStageOp(s.mem, s.db, worker.id, stage, fault);
    s.(mem := mem, db := db, workers := s.workers[w :=
         Worker(worker.id, if ok then next else Exiting(Failed), worker.written + [stage])])
  }

  ghost function MeasureStep(c: Config, s: State, w: nat, info: Info): State {
    if At(s, w, AwaitingInfo) then
      var (mem, ok) := MeasureOp(c, s.mem, s.workers[w].id, info);
      Goto(s.(mem := mem), w, if ok then AwaitingCapacity else Exiting(Failed))
    else s
  }

  predicate AnyAdmitted(tasks: map<Id, Task>) {
    exists id :: id in tasks && tasks[id].reserved
  }

  function StatfsStep(s: State, w: nat): State {
    if At(s, w, AwaitingCapacity) then
      Goto(s.(scan := Some(w), disk := s.disk.(
                foreign := if AnyAdmitted(s.mem.tasks) then s.disk.foreign else 0, check := NO_CHECK)),
           w, Scanning(s.disk.free))
    else s
  }

  /**
   The directories of the candidate and of the admitted jobs are walked one after
   the other, file by file, while other workers go on writing and freeing. A walk
   cannot count more than what is there at its end and what was freed since the
   check began.
   */
  function InspectStep(s: State, id: Id, bytes: nat): State {
    if s.scan.Some? && s.scan.value < |s.workers| && id !in s.disk.check.measured
       && id in s.mem.tasks && (s.mem.tasks[id].reserved || id == s.workers[s.scan.value].id)
       && bytes <= OnDisk(s.disk.onDisk, id) + OnDisk(s.disk.check.freed, id)
    then s.(disk := s.disk.(check := s.disk.check.(measured := s.disk.check.measured[id := bytes])))
    else s
  }

  ghost function TotalBytes(m: map<Id, nat>): nat {
    SumNonNegative(m);
    Sum(m)
  }

  /** What a check has missed: the raced bytes and those that others have written since the sample. */
  ghost function Missed(check: Check): nat {
    var missed := TotalBytes(check.raced) + check.outside;
    if missed < 0 then 0 else missed
  }

  /** The check ends with a decision, or gives up when a directory cannot be inspected. */
  ghost function DecideStep(c: Config, s: State, w: nat, inspected: bool): State {
    if w < |s.workers| && s.workers[w].pc.Scanning? && s.workers[w].id in s.mem.tasks then
      var id := s.workers[w].id;
      var released := s.(scan := None);
      if !inspected then Goto(released, w, Exiting(Failed))
      else if !Inspected(s.mem.tasks, id, s.disk.check.measured) then s
      else
        match Decide(c, s.mem, id, s.workers[w].pc.sample, s.disk.check.measured)
        case Refuse => Goto(released, w, Exiting(Failed))
        case Wait => Goto(released, w, AwaitingCapacity)
        case Admit =>
          Goto(released.(mem := AdmitOp(s.mem, id),
                         disk := s.disk.(foreign := Missed(s.disk.check))),
               w, Admitted)
    else s
  }

  function BeginUploadStep(s: State, w: nat): State {
    if At(s, w, UploadPersisted) then
      Goto(s.(hist := s.hist.(uploads := s.hist.uploads + multiset{s.workers[w].id})), w, Sending)
    else s
  }

  function UploadDoneStep(s: State, w: nat): State {
    if At(s, w, Sending) then
      Goto(s.(hist := s.hist.(answered := s.hist.answered + {s.workers[w].id})), w, Exiting(Completed))
    else s
  }

  function CheckStoppedStep(s: State, w: nat): State {
    if w < |s.workers| && s.workers[w].pc.Exiting? && s.workers[w].id in s.mem.tasks then
      var status := s.mem.tasks[s.workers[w].id].job.status;
      Goto(s, w, Finishing(if status == Stopped then Stopped else s.workers[w].pc.outcome))
    else s
  }

  function FinishStep(s: State, w: nat, saveFault: Fault, finishFault: Fault, day: int): State {
    if w < |s.workers| && s.workers[w].pc.Finishing? && s.workers[w].id in s.mem.tasks then
      var worker := s.workers[w];
      var id, outcome := worker.id, worker.pc.outcome;
      var (mem, db, ok) := FinishOp(s.mem, s.db, id, outcome, saveFault, finishFault, day);
      var deleted := id in s.db.rows && id !in db.rows;
      s.(mem := mem, db := db,
         workers := s.workers[w := Worker(id, if ok then Cleaning(outcome) else Done, worker.written + [outcome])],
         hist := if !deleted then s.hist
                 else
                   var (saved, _) := SaveRow(s.db, WithStage(s.mem.tasks[id].job, outcome), saveFault);
                   s.hist.(removed := s.hist.removed[id :=
                               Removal(MetricKey(day, outcome), saved.rows[id].size)]))
    else s
  }

  function Plus(m: map<Id, nat>, id: Id, bytes: nat): map<Id, nat> {
    if bytes == 0 then m else m[id := OnDisk(m, id) + bytes]
  }

  /** A job gives bytes back. */
  function Freed(disk: Disk, id: Id, bytes: nat): Disk
    requires bytes <= OnDisk(disk.onDisk, id)
  {
    disk.(free := disk.free + bytes,
          onDisk := disk.onDisk[id := OnDisk(disk.onDisk, id) - bytes],
          check := if id in disk.check.measured then disk.check.(gone := Plus(disk.check.gone, id, bytes))
                   else disk.check.(freed := Plus(disk.check.freed, id, bytes)))
  }

  /** Artifacts of failed jobs are kept. */
  function CleanStep(s: State, w: nat): State {
    if w < |s.workers| && s.workers[w].pc.Cleaning? then
      var id := s.workers[w].id;
      var s' := Goto(s, w, Done);
      if s.workers[w].pc.outcome == Failed then s'
      else s'.(disk := Freed(s.disk, id, OnDisk(s.disk.onDisk, id)))
    else s
  }

  /** The part of a write that the reservation of an admitted job has accounted for. */
  function Covered(s: State, id: Id, bytes: nat): nat {
    if id !in s.mem.tasks || !s.mem.tasks[id].reserved then 0
    else
      var room := Remaining(s.mem.tasks[id].job.reserved, OnDisk(s.disk.onDisk, id));
      if bytes <= room then bytes else room
  }

  /** A check in progress sees `covered` bytes within the reservation and `rest` beyond it. */
  function Written(check: Check, id: Id, covered: nat, rest: nat): Check {
    if id in check.measured then
      check.(later := Plus(check.later, id, covered), outside := check.outside + rest)
    else
      check.(raced := Plus(check.raced, id, covered), outside := check.outside + rest)
  }

  function JobWriteStep(s: State, id: Id, bytes: nat): State {
    if bytes <= s.disk.free then
      var covered := Covered(s, id, bytes);
      s.(disk := Disk(s.disk.free - bytes,
                      s.disk.foreign + (bytes - covered),
                      s.disk.onDisk[id := OnDisk(s.disk.onDisk, id) + bytes],
                      Written(s.disk.check, id, covered, bytes - covered)))
    else s
  }

  function JobFreeStep(s: State, id: Id, bytes: nat): State {
    if bytes <= OnDisk(s.disk.onDisk, id) then s.(disk := Freed(s.disk, id, bytes)) else s
  }

  function ConfigureStep(c: Config, s: State, order: seq<Id>, fault: Fault): State {
    if Enumerates(order, s.db.rows.Keys) then
      var (mem, ok) := ConfigureOp(c, s.mem, if fault == NoFault then Some(RowsIn(s.db, order)) else None);
      s.(mem := mem)
    else s
  }

  /** Every state follows from the one before by the action between them. */
  ghost predicate Run(c: Config, states: seq<State>, actions: seq<Action>) {
    && |states| == |actions| + 1
    && forall i {:trigger actions[i]} :: 0 <= i < |actions| ==> states[i + 1] == Step(c, states[i], actions[i])
  }

  /** A run from the start. */
  ghost predicate Trace(c: Config, states: seq<State>, actions: seq<Action>) {
    Run(c, states, actions) && exists free :: states[0] == Initial(free)
  }

  ghost predicate Reachable(c: Config, s: State) {
    exists states, actions :: Trace(c, states, actions) && s == states[|actions|]
  }
}
