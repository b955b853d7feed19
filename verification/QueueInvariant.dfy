/**
 The inductive invariant of the queue. Almost all of it speaks about one job ID
 at a time: `View` collects everything the system knows about an ID, `IdInv` is
 what holds of that view, and `WorkerInv` relates it to the program counter of
 the worker that runs the job.
 */
module QueueInvariant {
  import opened JobStore
  import opened QueueOps
  import opened QueueProtocol
  import opened Wrappers

  datatype View = View(
    configured: bool,
    task: Option<Task>,
    row: Option<Job>,
    used: bool,
    inserted: bool,
    rejected: bool,
    acked: bool,
    uploads: nat,
    removed: Option<Removal>)

  function ViewOf(s: State, id: Id): View {
    View(s.mem.configured,
         if id in s.mem.tasks then Some(s.mem.tasks[id]) else None,
         if id in s.db.rows then Some(s.db.rows[id]) else None,
         id in s.hist.used,
         id in s.hist.inserted,
         id in s.hist.rejected,
         id in s.hist.acked,
         s.hist.uploads[id],
         if id in s.hist.removed then Some(s.hist.removed[id]) else None)
  }

  /** Stages only a job that may have reached the remote side can be in. */
  predicate Late(s: Stage) {
    s == Uploading || Terminal(s)
  }

  predicate Abandoned(s: Stage) {
    s == Stopped || s == Failed
  }

  /** What the history forces on any record of a job's stage. */
  predicate StageInv(v: View, stage: Stage) {
    && (v.uploads > 0 ==> Late(stage))
    && (v.acked ==> Abandoned(stage))
    && (stage == Completed ==> v.uploads == 1)
  }

  predicate RowInv(c: Config, id: Id, v: View, row: Job) {
    && row.id == id
    && SoundRow(c, row)
    && row.status == row.stage
    && StageInv(v, row.stage)
    && v.inserted
    && v.removed == None
    && (v.configured ==> v.task.Some? || v.rejected)
  }

  predicate TaskInv(c: Config, id: Id, v: View, t: Task) {
    && t.job.id == id
    && v.configured
    && v.inserted
    && (!Terminal(t.job.status) ==> v.row.Some?)
    && (t.job.stage != t.job.status ==> t.job.status == Pending && !Late(t.job.stage))
    && StageInv(v, t.job.status)
    && (t.reserved ==> 0 <= t.job.reserved <= c.maxActive as int)
    && (!t.running ==> t.job.status == Pending || Terminal(t.job.status))
    && (!t.running && t.reserved ==> Terminal(t.job.status))
  }

  predicate HistoryInv(v: View) {
    && (v.inserted <==> v.row.Some? || v.removed.Some?)
    && (v.inserted ==> v.used)
    && v.uploads <= 1
    && (v.uploads == 1 ==> v.inserted)
    && (v.acked ==> v.inserted && v.uploads == 0)
    && (v.removed.Some? ==> Terminal(v.removed.value.key.status) && StageInv(v, v.removed.value.key.status))
  }

  predicate IdInv(c: Config, id: Id, v: View) {
    && HistoryInv(v)
    && (v.row.Some? ==> RowInv(c, id, v, v.row.value))
    && (v.task.Some? ==> TaskInv(c, id, v, v.task.value))
  }

  /** The job as seen from the worker that runs it. */
  predicate WorkerInv(c: Config, v: View, pc: PC) {
    && v.task.Some?
    && v.task.value.running
    && var t := v.task.value;
       var status := t.job.status;
       match pc
       case Launched => (status == Pending || Terminal(status)) && (t.reserved ==> Terminal(status))
       case Preparing => (status == Pending || status == Stopped) && !t.reserved && v.uploads == 0
       case AwaitingInfo => (status == Started || status == Stopped) && !t.reserved && v.uploads == 0
       case AwaitingCapacity | Scanning(_) =>
         && (status == Started || status == Stopped) && !t.reserved && v.uploads == 0
         && 0 <= t.job.reserved <= c.maxActive as int
       case Admitted => (status == Started || status == Stopped) && t.reserved && v.uploads == 0
       case Fetching => (status == Downloading || status == Stopped) && t.reserved && v.uploads == 0
       case Packing => status == Zipping && t.reserved && v.uploads == 0
       case UploadPersisted => status == Uploading && RowUploading(v) && v.uploads == 0
       case Sending => status == Uploading && RowUploading(v) && v.uploads == 1
       case Exiting(outcome) =>
         if outcome == Completed then status == Uploading && v.uploads == 1
         else outcome == Failed && (status == Stopped || !Terminal(status))
       case Finishing(outcome) =>
         && Terminal(outcome)
         && (outcome == Completed ==> v.uploads == 1 && !Abandoned(status))
         && (outcome == Stopped ==> status == Stopped)
       case _ => true
  }

  predicate RowUploading(v: View) {
    v.row.Some? && v.row.value.stage == Uploading
  }

  // ------------------------------------------------------ stages written by one worker

  function Rank(s: Stage): nat {
    match s
    case Pending => 0
    case Started => 1
    case Downloading => 2
    case Zipping => 3
    case Uploading => 4
    case _ => 5
  }

  /** The highest stage a worker at `pc` can have written. */
  function Reached(pc: PC): nat {
    match pc
    case Launched | Preparing => 0
    case AwaitingInfo | AwaitingCapacity | Scanning(_) | Admitted => 1
    case Fetching => 2
    case Packing => 3
    case UploadPersisted | Sending | Exiting(_) | Finishing(_) => 4
    case _ => 5
  }

  predicate Forward(written: seq<Stage>) {
    forall i, k :: 0 <= i < k < |written| ==> Rank(written[i]) < Rank(written[k])
  }

  predicate WrittenInv(w: Worker) {
    Forward(w.written) && forall i :: 0 <= i < |w.written| ==> 1 <= Rank(w.written[i]) <= Reached(w.pc)
  }

  // ------------------------------------------------------------------ the whole system

  predicate Attended(s: State, id: Id) {
    exists w :: 0 <= w < |s.workers| && Live(s.workers[w].pc) && s.workers[w].id == id
  }

  predicate WorkersInv(c: Config, s: State) {
    && (forall w :: 0 <= w < |s.workers| ==> WrittenInv(s.workers[w]))
    && (forall w :: 0 <= w < |s.workers| && Live(s.workers[w].pc) ==>
          WorkerInv(c, ViewOf(s, s.workers[w].id), s.workers[w].pc))
    && (forall w, u :: 0 <= w < u < |s.workers| && Live(s.workers[w].pc) && Live(s.workers[u].pc) ==>
          s.workers[w].id != s.workers[u].id)
    && (forall id :: id in s.mem.tasks && s.mem.tasks[id].running ==> Attended(s, id))
    && (forall w :: 0 <= w < |s.workers| ==> (s.workers[w].pc.Scanning? <==> s.scan == Some(w)))
    && (s.scan.Some? ==> s.scan.value < |s.workers|)
  }

  predicate HashesInv(db: Db) {
    forall a, b :: a in db.rows && b in db.rows && a != b ==> db.rows[a].infoHash != db.rows[b].infoHash
  }

  predicate StoppedInv(s: State) {
    !s.mem.configured ==> s.mem.tasks == map[] && s.mem.active == 0 && s.workers == []
  }

  ghost predicate Core(c: Config, s: State) {
    && ValidConfig(c)
    && (forall id :: IdInv(c, id, ViewOf(s, id)))
    && WorkersInv(c, s)
    && HashesInv(s.db)
    && StoppedInv(s)
  }
}
