/**
 The critical sections of the download queue as functions of what they read:
 the in-memory task table, the durable tables and the faults of the store calls
 they make. `DownloadQueue` carries them out in place; `QueueProtocol`
 interleaves them.
 */
module QueueOps {
  import opened JobStore
  import opened Paths
  import opened Reservation
  import opened Sums
  import opened Wrappers

  const MAX_QUEUE_SIZE := 10

  datatype Magnet = Magnet(hash: Text, name: Text)

  /** The budget, and the external functions the queue relies on; `text` turns a name into a number. */
  datatype Config = Config(
    maxActive: int64,
    canonical: Id -> bool,
    parse: Text -> Option<Magnet>,
    clean: string -> string,
    text: string -> Text)

  ghost predicate ValidConfig(c: Config) {
    0 < c.maxActive
  }

  datatype Task = Task(job: Job, running: bool, reserved: bool)

  datatype Mem = Mem(configured: bool, tasks: map<Id, Task>, active: int)

  datatype Request = Request(magnet: Text, selected: Option<seq<int>>, zipped: bool, userID: Text)

  // ------------------------------------------------------------------ admission of jobs

  /** `Add` does not know the number of files yet. */
  predicate AddableSelection(selected: Option<seq<int>>) {
    selected.Some? ==>
      && selected.value != []
      && Distinct(selected.value)
      && forall i :: 0 <= i < |selected.value| ==> 0 <= selected.value[i]
  }

  predicate Active(mem: Mem, hash: Text) {
    exists id :: id in mem.tasks && mem.tasks[id].job.infoHash == hash
  }

  function NewJob(id: Id, magnet: Magnet, req: Request): Job {
    Job(id, magnet.hash, req.magnet, magnet.name, Pending, Pending, req.userID, req.zipped, req.selected, 0, 0)
  }

  predicate Acceptable(c: Config, mem: Mem, req: Request) {
    && c.parse(req.magnet).Some?
    && AddableSelection(req.selected)
    && mem.configured
    && |mem.tasks| < MAX_QUEUE_SIZE
    && !Active(mem, c.parse(req.magnet).value.hash)
  }

  function AddOp(c: Config, mem: Mem, db: Db, req: Request, id: Id, fault: Fault): (Mem, Db, bool) {
    if !Acceptable(c, mem, req) then (mem, db, false)
    else
      var j := NewJob(id, c.parse(req.magnet).value, req);
      var (db', out) := CreateRow(db, j, fault);
      if out != Ok then (mem, db', false)
      else (mem.(tasks := mem.tasks[id := Task(j, false, false)]), db', true)
  }

  // ---------------------------------------------------------------------------- stop

  predicate Stoppable(j: Job) {
    !Terminal(j.status) && j.stage != Uploading && j.stage != Zipping
  }

  predicate Addressed(mem: Mem, id: Id, user: Text, owned: bool) {
    id in mem.tasks && (owned ==> user != EMPTY && mem.tasks[id].job.userID == user)
  }

  function WithStage(j: Job, stage: Stage): Job {
    j.(status := stage, stage := stage)
  }

  function StopOp(mem: Mem, db: Db, id: Id, user: Text, owned: bool, fault: Fault): (Mem, Db, bool) {
    if !Addressed(mem, id, user, owned) || !Stoppable(mem.tasks[id].job) then (mem, db, false)
    else
      var j := WithStage(mem.tasks[id].job, Stopped);
      var (db', out) := SaveRow(db, j, fault);
      if out != Ok then (mem, db', false)
      else (WithJob(mem, id, j), db', true)
  }

  function WithJob(mem: Mem, id: Id, j: Job): Mem
    requires id in mem.tasks
  {
    mem.(tasks := mem.tasks[id := mem.tasks[id].(job := j)])
  }

  // --------------------------------------------------------------------------- stages

  function SaveStageOp(mem: Mem, db: Db, id: Id, stage: Stage, fault: Fault): (Mem, Db, bool)
    requires id in mem.tasks
  {
    if mem.tasks[id].job.status == Stopped then (mem, db, false)
    else
      var j := WithStage(mem.tasks[id].job, stage);
      var (db', out) := SaveRow(db, j, fault);
      if out != Ok then (mem, db', false)
      else (WithJob(mem, id, j), db', true)
  }

  // ---------------------------------------------------------------- sizes and capacity

  datatype FileInfo = FileInfo(path: seq<string>, length: int64, symlink: bool)

  /** What the torrent client reports once the metadata is there. */
  datatype Info = Info(name: string, full: int64, files: seq<FileInfo>)

  function Lengths(files: seq<FileInfo>): (r: seq<int64>)
    ensures |r| == |files| && forall i :: 0 <= i < |files| ==> r[i] == files[i].length
  {
    seq(|files|, i requires 0 <= i < |files| => files[i].length)
  }

  /** Every part of every path, and the name as a whole, is one component, and nothing is a link. */
  predicate SafeInfo(info: Info) {
    && Component(info.name)
    && forall i :: 0 <= i < |info.files| ==> SafeFile(info.files[i])
  }

  predicate SafeFile(f: FileInfo) {
    !f.symlink && forall k :: 0 <= k < |f.path| ==> Component(f.path[k])
  }

  /** Selected size and reservation of a job, or nothing when the worker gives up. */
  ghost function Measured(j: Job, info: Info): Option<(int64, int64)> {
    var indexes := SelectedIndexes(j.selected, |info.files|);
    if indexes == None || !SafeInfo(info) || |info.files| > MAX_INT64 then None
    else
      var size := SelectedSize(Lengths(info.files), indexes.value);
      if size == None then None
      else
        var r := Reserve(info.full, size.value, j.zipped, |info.files| as int64);
        if r == None then None else Some((size.value, r.value))
  }

  /** The sizes are recorded before the reservation is compared with the budget. */
  ghost function MeasureOp(c: Config, mem: Mem, id: Id, info: Info): (Mem, bool)
    requires id in mem.tasks
  {
    var j := mem.tasks[id].job;
    match Measured(j, info)
    case None => (mem, false)
    case Some((size, reserve)) =>
      (WithJob(mem, id, j.(name := c.text(info.name), size := size as int, reserved := reserve as int)),
       reserve <= c.maxActive)
  }

  function OnDisk(onDisk: map<Id, nat>, id: Id): nat {
    if id in onDisk then onDisk[id] else 0
  }

  /** What the admitted jobs, and the candidate `id`, may still write. */
  function Obligations(tasks: map<Id, Task>, id: Id, onDisk: map<Id, nat>): map<Id, int> {
    map o | o in tasks && (o == id || tasks[o].reserved) :: Remaining(tasks[o].job.reserved, OnDisk(onDisk, o))
  }

  /** Every directory the capacity check looks at could be measured. */
  predicate Inspected(tasks: map<Id, Task>, id: Id, onDisk: map<Id, nat>) {
    forall o :: o in tasks && (o == id || tasks[o].reserved) ==> o in onDisk
  }

  datatype Decision = Admit | Wait | Refuse

  ghost function Decide(c: Config, mem: Mem, id: Id, free: nat, onDisk: map<Id, nat>): Decision
    requires id in mem.tasks
  {
    var need := Sum(Obligations(mem.tasks, id, onDisk));
    if need > MAX_INT64 then Refuse
    else if mem.active <= c.maxActive as int - mem.tasks[id].job.reserved && need <= free then Admit
    else Wait
  }

  function AdmitOp(mem: Mem, id: Id): Mem
    requires id in mem.tasks
  {
    var t := mem.tasks[id];
    mem.(tasks := mem.tasks[id := t.(reserved := true)], active := mem.active + t.job.reserved)
  }

  // --------------------------------------------------------------------------- finish

  function FinishOp(mem: Mem, db: Db, id: Id, status: Stage, saveFault: Fault, finishFault: Fault, day: int)
    : (Mem, Db, bool)
    requires id in mem.tasks
  {
    var t := mem.tasks[id];
    var j := WithStage(t.job, status);
    var (db1, saved) := SaveRow(db, j, saveFault);
    var (db2, out) := if saved == Error then (db1, Error) else FinishRow(db1, j, status, day, finishFault);
    if out != Ok then
      (mem.(tasks := mem.tasks[id := t.(job := j, running := false)]), db2, false)
    else
      (mem.(tasks := mem.tasks - {id}, active := if t.reserved then mem.active - j.reserved else mem.active),
       db2, true)
  }

  // ----------------------------------------------------------------- start and restart

  /** The tasks one pass of the scheduler hands to a new worker. */
  function Idle(tasks: map<Id, Task>): set<Id> {
    set id | id in tasks && !tasks[id].running
  }

  function LaunchOp(mem: Mem): Mem {
    mem.(tasks := map id | id in mem.tasks :: mem.tasks[id].(running := true))
  }

  /** An interrupted upload is failed, never replayed; other work starts over. */
  function RecoveredJob(j: Job): Job {
    if j.stage == Uploading then j.(status := Failed, stage := Failed)
    else if !Terminal(j.status) then j.(status := Pending)
    else j
  }

  /** What a restart makes of a row, field by field. */
  ghost predicate Resumes(row: Job, t: Task) {
    && !t.running && !t.reserved
    && t.job.(status := row.status, stage := row.stage) == row
    && (row.stage == Uploading ==> t.job.status == t.job.stage == Failed)
    && (row.stage != Uploading && row.status in {Stopped, Failed, Completed} ==> t.job == row)
    && (row.stage != Uploading && row.status in {Pending, Started, Downloading, Zipping, Uploading} ==>
          t.job.status == Pending && t.job.stage == row.stage)
  }

  lemma RecoveredResumes(j: Job)
    ensures Resumes(j, Task(RecoveredJob(j), false, false))
  {
  }

  predicate SoundRow(c: Config, j: Job) {
    c.canonical(j.id) && c.parse(j.magnet).Some? && c.parse(j.magnet).value.hash == j.infoHash
  }

  predicate Recoverable(c: Config, rows: seq<Job>) {
    && (forall i :: 0 <= i < |rows| ==> SoundRow(c, rows[i]))
    && (forall i, k :: 0 <= i < k < |rows| ==> rows[i].infoHash != rows[k].infoHash)
  }

  function RecoveredTasks(rows: seq<Job>): map<Id, Task> {
    if rows == [] then map[]
    else
      var j := rows[|rows| - 1];
      RecoveredTasks(rows[..|rows| - 1])[j.id := Task(RecoveredJob(j), false, false)]
  }

  /** Every row becomes one task. */
  lemma {:induction false} RecoveredTasksAt(rows: seq<Job>)
    requires forall i, k :: 0 <= i < k < |rows| ==> rows[i].id != rows[k].id
    ensures forall i :: 0 <= i < |rows| ==>
              rows[i].id in RecoveredTasks(rows) &&
              RecoveredTasks(rows)[rows[i].id] == Task(RecoveredJob(rows[i]), false, false) &&
              Resumes(rows[i], RecoveredTasks(rows)[rows[i].id])
    ensures forall id :: id in RecoveredTasks(rows) ==> exists i :: 0 <= i < |rows| && rows[i].id == id
  {
    hide RecoveredJob, Resumes;
    if rows != [] {
      RecoveredTasksAt(rows[..|rows| - 1]);
      RecoveredResumes(rows[|rows| - 1]);
    }
  }

  lemma {:induction false} RecoveredTasksSize(rows: seq<Job>)
    requires forall i, k :: 0 <= i < k < |rows| ==> rows[i].id != rows[k].id
    ensures |RecoveredTasks(rows)| == |rows|
  {
    if rows != [] {
      var front, last := rows[..|rows| - 1], rows[|rows| - 1];
      RecoveredTasksSize(front);
      RecoveredTasksAt(front);
      assert last.id !in RecoveredTasks(front);
      var all := RecoveredTasks(front)[last.id := Task(RecoveredJob(last), false, false)];
      assert RecoveredTasks(rows) == all;
      hide RecoveredTasks, RecoveredJob, Resumes;
    }
  }

  /** `rows` is what `Active` returned, if it returned at all. */
  function ConfigureOp(c: Config, mem: Mem, rows: Option<seq<Job>>): (Mem, bool) {
    if mem.configured || rows == None || !Recoverable(c, rows.value) then (mem, false)
    else (mem.(configured := true, tasks := RecoveredTasks(rows.value)), true)
  }
}
