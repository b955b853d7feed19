/**
 Runs that reach the states in which the queue falls short of what one might
 expect: a stop that is acknowledged and lost, a restart with too many tasks, and
 an admission that overbooks the disk.
 */
module QueueWitness {
  import opened JobStore
  import opened QueueDisk
  import opened QueueOps
  import opened QueueProtocol
  import opened QueueStops
  import opened QueueTheorems
  import opened Reservation
  import opened Sums
  import opened Wrappers

  lemma ReachableTwice(c: Config, s: State, first: Action, second: Action)
    requires Reachable(c, s)
    ensures Reachable(c, Step(c, Step(c, s, first), second))
  {
    hide Step, Reachable;
    ReachableNext(c, s, first);
    ReachableNext(c, Step(c, s, first), second);
  }

  datatype Submission = Submission(id: Id, req: Request)

  predicate Submittable(c: Config, sub: Submission) {
    c.canonical(sub.id) && c.parse(sub.req.magnet).Some? && AddableSelection(sub.req.selected)
  }

  function JobOf(c: Config, sub: Submission): Job
    requires Submittable(c, sub)
  {
    NewJob(sub.id, c.parse(sub.req.magnet).value, sub.req)
  }

  // ------------------------------------------------------------------------ a queue with jobs

  /** The hashes and IDs of several submissions do not clash. */
  predicate Independent(c: Config, subs: seq<Submission>) {
    && (forall i :: 0 <= i < |subs| ==> Submittable(c, subs[i]))
    && forall i, k :: 0 <= i < k < |subs| ==>
         subs[i].id != subs[k].id && JobOf(c, subs[i]).infoHash != JobOf(c, subs[k]).infoHash
  }

  lemma IndependentFront(c: Config, subs: seq<Submission>)
    requires Independent(c, subs) && subs != []
    ensures Independent(c, subs[..|subs| - 1])
  {
  }

  function RowsOf(c: Config, subs: seq<Submission>): map<Id, Job>
    requires Independent(c, subs)
  {
    if subs == [] then map[]
    else
      var last := subs[|subs| - 1];
      RowsOf(c, subs[..|subs| - 1])[last.id := JobOf(c, last)]
  }

  function TasksOf(c: Config, subs: seq<Submission>): map<Id, Task>
    requires Independent(c, subs)
  {
    if subs == [] then map[]
    else
      var last := subs[|subs| - 1];
      TasksOf(c, subs[..|subs| - 1])[last.id := Task(JobOf(c, last), false, false)]
  }

  lemma {:induction false} RowsFacts(c: Config, subs: seq<Submission>)
    requires Independent(c, subs)
    ensures TasksOf(c, subs).Keys == RowsOf(c, subs).Keys && |TasksOf(c, subs)| == |RowsOf(c, subs)| == |subs|
    ensures forall id :: id in TasksOf(c, subs) ==> TasksOf(c, subs)[id].job == RowsOf(c, subs)[id]
    ensures forall id :: id in RowsOf(c, subs) ==> exists i ::
              0 <= i < |subs| && subs[i].id == id && RowsOf(c, subs)[id] == JobOf(c, subs[i])
  {
    hide JobOf;
    if subs != [] {
      var n := |subs| - 1;
      RowsFacts(c, subs[..n]);
      assert subs[n].id !in RowsOf(c, subs[..n]);
      forall id | id in RowsOf(c, subs)
        ensures exists i :: 0 <= i < |subs| && subs[i].id == id && RowsOf(c, subs)[id] == JobOf(c, subs[i])
      {
        if id != subs[n].id {
          assert id in RowsOf(c, subs[..n]);
          var i :| 0 <= i < n && subs[..n][i].id == id && RowsOf(c, subs[..n])[id] == JobOf(c, subs[..n][i]);
          assert subs[i].id == id;
        } else {
          assert subs[n].id == id;
        }
      }
    }
  }

  /** A configured queue whose table holds `rows`, of which the submissions from `from` on are also tasks. */
  ghost predicate Accepted(c: Config, s: State, subs: seq<Submission>, from: nat, free: nat)
    requires Independent(c, subs)
  {
    && s.scan == None && s.workers == [] && s.disk == Disk(free, 0, map[], NO_CHECK)
    && from <= |subs| && Independent(c, subs[from..])
    && s.mem == Mem(true, TasksOf(c, subs[from..]), 0)
    && s.db.rows == RowsOf(c, subs) && s.hist.used == RowsOf(c, subs).Keys
  }

  lemma EmptyQueue(c: Config, free: nat) returns (s: State)
    ensures Reachable(c, s) && Accepted(c, s, [], 0, free)
  {
    ReachableStart(c, free);
    ReachableNext(c, Initial(free), Configure([], NoFault));
    s := Step(c, Initial(free), Configure([], NoFault));
  }

  lemma Fresh(c: Config, subs: seq<Submission>)
    requires Independent(c, subs) && subs != []
    ensures var front, last := subs[..|subs| - 1], subs[|subs| - 1];
            && Independent(c, front) && last.id !in RowsOf(c, front)
            && forall id :: id in RowsOf(c, front) ==> RowsOf(c, front)[id].infoHash != JobOf(c, last).infoHash
  {
    var n := |subs| - 1;
    RowsFacts(c, subs[..n]);
    hide JobOf;
    forall id | id in RowsOf(c, subs[..n])
      ensures id != subs[n].id && RowsOf(c, subs[..n])[id].infoHash != JobOf(c, subs[n]).infoHash
    {
      var i :| 0 <= i < n && subs[..n][i].id == id && RowsOf(c, subs[..n])[id] == JobOf(c, subs[..n][i]);
      assert subs[i].id == id;
    }
  }

  /** The effect of `Add` on an acceptable request with new ID and hash. */
  lemma AddNew(c: Config, mem: Mem, db: Db, sub: Submission, fault: Fault)
    requires Submittable(c, sub) && mem.configured && |mem.tasks| < MAX_QUEUE_SIZE && fault != Lost
    requires sub.id !in db.rows && forall id :: id in db.rows ==> db.rows[id].infoHash != JobOf(c, sub).infoHash
    requires forall id :: id in mem.tasks ==> mem.tasks[id].job.infoHash != JobOf(c, sub).infoHash
    ensures AddOp(c, mem, db, sub.req, sub.id, fault) ==
            (if fault == NoFault then mem.(tasks := mem.tasks[sub.id := Task(JobOf(c, sub), false, false)]) else mem,
             db.(rows := db.rows[sub.id := JobOf(c, sub)]), fault == NoFault)
  {
  }

  /** The tasks are among the rows. */
  lemma {:induction false} TaskRows(c: Config, subs: seq<Submission>, from: nat)
    requires Independent(c, subs) && from <= |subs| && Independent(c, subs[from..])
    ensures forall id :: id in TasksOf(c, subs[from..]) ==>
              id in RowsOf(c, subs) && TasksOf(c, subs[from..])[id].job == RowsOf(c, subs)[id]
  {
    hide JobOf;
    if from < |subs| {
      var n := |subs| - 1;
      IndependentFront(c, subs);
      assert subs[from..][..n - from] == subs[..n][from..];
      TaskRows(c, subs[..n], from);
      Fresh(c, subs);
    }
  }

  /** What the step does to everything else. */
  lemma AddStepNew(c: Config, s: State, sub: Submission, fault: Fault)
    requires s.scan == None && sub.id !in s.hist.used && Submittable(c, sub)
    ensures var s', r := Step(c, s, Add(sub.req, sub.id, fault)), AddOp(c, s.mem, s.db, sub.req, sub.id, fault);
            && s'.mem == r.0 && s'.db == r.1 && s'.hist.used == s.hist.used + {sub.id}
            && s'.scan == None && s'.workers == s.workers && s'.disk == s.disk
  {
    hide AddOp;
  }

  /** The tasks and the rows after one more submission. */
  lemma TasksNext(c: Config, subs: seq<Submission>, from: nat)
    requires Independent(c, subs) && from < |subs| && Independent(c, subs[..|subs| - 1])
    requires Independent(c, subs[from..]) && Independent(c, subs[..|subs| - 1][from..])
    ensures var last := subs[|subs| - 1];
            TasksOf(c, subs[from..]) ==
            TasksOf(c, subs[..|subs| - 1][from..])[last.id := Task(JobOf(c, last), false, false)]
  {
    hide JobOf;
    var n := |subs| - 1;
    assert subs[from..][..n - from] == subs[..n][from..];
    assert subs[from..][n - from] == subs[n];
  }

  lemma RowsNext(c: Config, subs: seq<Submission>)
    requires Independent(c, subs) && subs != [] && Independent(c, subs[..|subs| - 1])
    ensures var last := subs[|subs| - 1];
            RowsOf(c, subs) == RowsOf(c, subs[..|subs| - 1])[last.id := JobOf(c, last)]
  {
  }

  lemma IndependentRest(c: Config, subs: seq<Submission>, from: nat)
    requires Independent(c, subs) && from <= |subs|
    ensures Independent(c, subs[from..])
  {
    hide JobOf, Submittable;
  }

  /** The next submission can be accepted. */
  lemma NextFits(c: Config, s: State, subs: seq<Submission>, from: nat, free: nat)
    requires Independent(c, subs) && from < |subs| <= from + MAX_QUEUE_SIZE
    requires Independent(c, subs[..|subs| - 1]) && Accepted(c, s, subs[..|subs| - 1], from, free)
    ensures var last := subs[|subs| - 1];
            && Submittable(c, last) && last.id !in s.hist.used && last.id !in s.db.rows
            && |s.mem.tasks| < MAX_QUEUE_SIZE
            && (forall id :: id in s.db.rows ==> s.db.rows[id].infoHash != JobOf(c, last).infoHash)
            && forall id :: id in s.mem.tasks ==> s.mem.tasks[id].job.infoHash != JobOf(c, last).infoHash
  {
    hide JobOf, RowsOf, TasksOf;
    var front := subs[..|subs| - 1];
    Fresh(c, subs);
    RowsFacts(c, front[from..]);
    TaskRows(c, front, from);
  }

  /** One more submission is accepted. */
  lemma AcceptNext(c: Config, s: State, subs: seq<Submission>, from: nat, free: nat)
    requires Independent(c, subs) && from < |subs| <= from + MAX_QUEUE_SIZE
    requires Independent(c, subs[..|subs| - 1]) && Accepted(c, s, subs[..|subs| - 1], from, free)
    ensures var last := subs[|subs| - 1];
            Accepted(c, Step(c, s, Add(last.req, last.id, NoFault)), subs, from, free)
  {
    hide JobOf, AddOp, Step, Submittable, Independent, RowsOf, TasksOf;
    var last := subs[|subs| - 1];
    IndependentRest(c, subs, from);
    NextFits(c, s, subs, from, free);
    TasksNext(c, subs, from);
    RowsNext(c, subs);
    AddNew(c, s.mem, s.db, last, NoFault);
    AddStepNew(c, s, last, NoFault);
  }

  /** The reply of the first Add is lost: its row stays, no task does. */
  lemma LoseFirst(c: Config, s: State, subs: seq<Submission>, free: nat)
    requires Independent(c, subs) && |subs| == 1 && Accepted(c, s, [], 0, free)
    ensures Accepted(c, Step(c, s, Add(subs[0].req, subs[0].id, LostReply)), subs, 1, free)
  {
    hide JobOf, AddOp, Step;
    assert subs[..0] == [] && subs[1..] == [];
    AddNew(c, s.mem, s.db, subs[0], LostReply);
    AddStepNew(c, s, subs[0], LostReply);
  }

  /** Up to ten jobs can be accepted, beside one whose Add has returned an error. */
  lemma {:induction false} Fill(c: Config, subs: seq<Submission>, from: nat, free: nat) returns (s: State)
    requires Independent(c, subs) && from <= 1 && from <= |subs| <= from + MAX_QUEUE_SIZE
    ensures Reachable(c, s) && Accepted(c, s, subs, from, free)
    decreases |subs|
  {
    hide Accepted, Step, Reachable;
    if |subs| == 0 {
      s := EmptyQueue(c, free);
    } else if |subs| == from {
      s := EmptyQueue(c, free);
      LoseFirst(c, s, subs, free);
      ReachableNext(c, s, Add(subs[0].req, subs[0].id, LostReply));
      s := Step(c, s, Add(subs[0].req, subs[0].id, LostReply));
    } else {
      var last := subs[|subs| - 1];
      IndependentFront(c, subs);
      s := Fill(c, subs[..|subs| - 1], from, free);
      AcceptNext(c, s, subs, from, free);
      ReachableNext(c, s, Add(last.req, last.id, NoFault));
      s := Step(c, s, Add(last.req, last.id, NoFault));
    }
  }

  // ------------------------------------------------------------------ too many after a restart

  function IdsOf(subs: seq<Submission>): seq<Id> {
    seq(|subs|, i requires 0 <= i < |subs| => subs[i].id)
  }

  lemma {:induction false} IdsEnumerate(c: Config, subs: seq<Submission>)
    requires Independent(c, subs)
    ensures Enumerates(IdsOf(subs), RowsOf(c, subs).Keys)
  {
    hide JobOf;
    if subs != [] {
      var n := |subs| - 1;
      IdsEnumerate(c, subs[..n]);
      assert IdsOf(subs) == IdsOf(subs[..n]) + [subs[n].id];
      Fresh(c, subs);
      EnumeratesNext(IdsOf(subs[..n]), RowsOf(c, subs[..n]).Keys, subs[n].id);
      assert RowsOf(c, subs).Keys == RowsOf(c, subs[..n]).Keys + {subs[n].id};
    }
  }

  lemma Restarted(c: Config, s: State)
    ensures var s' := Step(c, s, Crash);
            !s'.mem.configured && s'.db == s.db && s'.scan == None
    ensures forall order :: Step(c, Step(c, s, Crash), Configure(order, NoFault))
                         == ConfigureStep(c, Step(c, s, Crash), order, NoFault)
  {
  }

  lemma AcceptedRows(c: Config, s: State, subs: seq<Submission>, from: nat, free: nat)
    requires Independent(c, subs) && Accepted(c, s, subs, from, free)
    ensures Enumerates(IdsOf(subs), s.db.rows.Keys) && |s.db.rows.Keys| == |subs|
  {
    hide RowsOf, TasksOf, IdsOf, Enumerates;
    RowsFacts(c, subs);
    IdsEnumerate(c, subs);
  }

  lemma RecoveredCount(c: Config, s: State, order: seq<Id>)
    requires ValidConfig(c) && Reachable(c, s) && !s.mem.configured && Enumerates(order, s.db.rows.Keys)
    ensures |ConfigureStep(c, s, order, NoFault).mem.tasks| == |s.db.rows.Keys|
  {
    hide ConfigureStep, Reachable, System, Enumerates, RecoveredJob;
    RecoveryIsTotal(c, s, order);
    var tasks := map id | id in s.db.rows :: Task(RecoveredJob(s.db.rows[id]), false, false);
    assert tasks.Keys == s.db.rows.Keys;
    assert |tasks| == |tasks.Keys|;
  }

  /** One lost reply, ten accepted jobs and a restart leave eleven tasks. */
  lemma RestartOverfills(c: Config, subs: seq<Submission>) returns (s: State)
    requires ValidConfig(c) && Independent(c, subs) && |subs| == MAX_QUEUE_SIZE + 1
    ensures Reachable(c, s) && |s.mem.tasks| == MAX_QUEUE_SIZE + 1
  {
    hide Reachable, Step, ConfigureStep, Enumerates, IdsOf, Accepted, Independent;
    var full := Fill(c, subs, 1, 0);
    AcceptedRows(c, full, subs, 1, 0);
    Restarted(c, full);
    ReachableTwice(c, full, Crash, Configure(IdsOf(subs), NoFault));
    ReachableNext(c, full, Crash);
    RecoveredCount(c, Step(c, full, Crash), IdsOf(subs));
    s := Step(c, Step(c, full, Crash), Configure(IdsOf(subs), NoFault));
  }

  // ----------------------------------------------------------------------------- a late stop

  lemma OneJob(c: Config, sub: Submission)
    requires Submittable(c, sub)
    ensures TasksOf(c, [sub]) == map[sub.id := Task(JobOf(c, sub), false, false)]
    ensures RowsOf(c, [sub]) == map[sub.id := JobOf(c, sub)]
  {
    assert [sub][..0] == [];
    assert TasksOf(c, []) == map[] && RowsOf(c, []) == map[];
  }

  lemma TickOne(c: Config, s: State, id: Id, j: Job)
    requires s.scan == None && s.workers == [] && s.mem == Mem(true, map[id := Task(j, false, false)], 0)
    ensures var s' := Step(c, s, Tick([id]));
            s' == s.(mem := Mem(true, map[id := Task(j, true, false)], 0), workers := [Worker(id, Launched, [])])
  {
    assert Idle(s.mem.tasks) == {id};
    assert LaunchOp(s.mem).tasks == map[id := Task(j, true, false)];
    assert seq(1, i requires 0 <= i < 1 => Worker([id][i], Launched, [])) == [Worker(id, Launched, [])];
  }

  /** The only worker of the only job is about to lock for the terminal state. */
  lemma WorkerEnds(c: Config, s0: State, sub: Submission) returns (s: State)
    requires Submittable(c, sub) && Reachable(c, s0) && Accepted(c, s0, [sub], 0, 0)
    ensures Reachable(c, s) && s.scan == None && s.workers == [Worker(sub.id, Finishing(Failed), [])]
    ensures s.mem.tasks == map[sub.id := Task(JobOf(c, sub), true, false)] && sub.id in s.db.rows
  {
    hide Reachable;
    assert [sub][0..] == [sub];
    OneJob(c, sub);
    TickOne(c, s0, sub.id, JobOf(c, sub));
    s := Step(c, s0, Tick([sub.id]));
    ReachableNext(c, s0, Tick([sub.id]));
    JobFails(c, s, sub.id, JobOf(c, sub));
    ReachableNext(c, s, ReadJob(0));
    s := Step(c, s, ReadJob(0));
    ReachableNext(c, s, Fail(0));
    s := Step(c, s, Fail(0));
    ReachableNext(c, s, CheckStopped(0));
    s := Step(c, s, CheckStopped(0));
  }

  lemma JobFails(c: Config, s: State, id: Id, j: Job)
    requires s.scan == None && s.workers == [Worker(id, Launched, [])] && j.status == Pending
    requires s.mem.tasks == map[id := Task(j, true, false)]
    ensures var s' := Step(c, Step(c, Step(c, s, ReadJob(0)), Fail(0)), CheckStopped(0));
            s' == s.(workers := [Worker(id, Finishing(Failed), [])])
  {
  }

  /** A stop that is acknowledged, and a job that is counted as failed all the same. */
  lemma LateStopHappens(c: Config, sub: Submission, day: int) returns (s: State)
    requires ValidConfig(c) && Submittable(c, sub)
    ensures Reachable(c, s) && sub.id in s.hist.acked
    ensures sub.id in s.hist.removed && s.hist.removed[sub.id].key.status == Failed
  {
    hide Reachable, Accepted, Step, StopStep, CheckStoppedStep, FinishStep;
    s := Fill(c, [sub], 0, 0);
    s := WorkerEnds(c, s, sub);
    LateStop(s, 0, day);
    UnlockedSteps(c, s, sub.id, day);
    ReachableNext(c, s, Stop(sub.id, EMPTY, false, NoFault));
    ReachableNext(c, StopStep(s, sub.id, EMPTY, false, NoFault), CheckStopped(0));
    var checked := CheckStoppedStep(StopStep(s, sub.id, EMPTY, false, NoFault), 0);
    ReachableNext(c, checked, Finish(0, NoFault, NoFault, day));
    s := FinishStep(checked, 0, NoFault, NoFault, day);
  }

  lemma UnlockedSteps(c: Config, s: State, id: Id, day: int)
    requires s.scan == None
    ensures var stopped := StopStep(s, id, EMPTY, false, NoFault);
            var checked := CheckStoppedStep(stopped, 0);
            && Step(c, s, Stop(id, EMPTY, false, NoFault)) == stopped
            && Step(c, stopped, CheckStopped(0)) == checked
            && Step(c, checked, Finish(0, NoFault, NoFault, day)) == FinishStep(checked, 0, NoFault, NoFault, day)
            && checked.hist.acked == stopped.hist.acked
            && FinishStep(checked, 0, NoFault, NoFault, day).hist.acked == checked.hist.acked
  {
    hide StopOp, FinishOp, SaveRow;
  }

  // ------------------------------------------------------------------------ an overbooked disk

  /** Two jobs, each with a worker. */
  predicate Pair(s: State, a: Id, b: Id, ta: Task, tb: Task, pa: PC, pb: PC, active: int, scan: Option<nat>, disk: Disk)
  {
    && a != b && s.mem == Mem(true, map[a := ta, b := tb], active) && s.scan == scan && s.disk == disk
    && |s.workers| == 2 && s.workers[0].id == a && s.workers[1].id == b
    && s.workers[0].pc == pa && s.workers[1].pc == pb
    && a in s.db.rows && b in s.db.rows && ta.job.id == a && tb.job.id == b
  }

  /** A torrent of one file of one disk block. */
  const BLOCK: Info := Info("a", 512, [FileInfo([], 512, false)])

  /** What such a job reserves: itself, 16 MiB, and 8 KiB for its file. */
  const RESERVE := 512 + 16 * 1024 * 1024 + 8192

  lemma BlockMeasured(j: Job)
    requires j.selected == None && !j.zipped
    ensures Measured(j, BLOCK) == Some((512, RESERVE as int64))
  {
    var lengths := Lengths(BLOCK.files);
    assert lengths == [512];
    assert Pick(lengths, Range(1)) == [512];
    assert Total([512 as int64]) == 512 by {
      assert [512 as int64][..0] == [];
    }
  }

  function Sized(c: Config, j: Job): Job {
    WithStage(j, Started).(name := c.text("a"), size := 512, reserved := RESERVE)
  }

  lemma TwoJobs(c: Config, a: Submission, b: Submission)
    requires Independent(c, [a, b]) && Submittable(c, a) && Submittable(c, b)
    ensures TasksOf(c, [a, b]) == map[a.id := Task(JobOf(c, a), false, false), b.id := Task(JobOf(c, b), false, false)]
    ensures RowsOf(c, [a, b]).Keys == {a.id, b.id}
  {
    assert [a, b][..1] == [a];
    assert Submittable(c, [a, b][0]);
    OneJob(c, a);
  }

  lemma PairLaunched(c: Config, s: State, a: Id, b: Id, ja: Job, jb: Job)
    requires s.scan == None && s.workers == [] && a != b && ja.id == a && jb.id == b && a in s.db.rows && b in s.db.rows
    requires s.mem == Mem(true, map[a := Task(ja, false, false), b := Task(jb, false, false)], 0)
    ensures Pair(Step(c, s, Tick([a, b])), a, b, Task(ja, true, false), Task(jb, true, false),
                 Launched, Launched, 0, None, s.disk)
  {
    assert Idle(s.mem.tasks) == {a, b};
    assert LaunchOp(s.mem).tasks == map[a := Task(ja, true, false), b := Task(jb, true, false)];
  }

  lemma PairPrepared(c: Config, s: State, a: Id, b: Id, ja: Job, jb: Job, disk: Disk)
    requires ja.status == Pending && jb.status == Pending
    requires Pair(s, a, b, Task(ja, true, false), Task(jb, true, false), Launched, Launched, 0, None, disk)
    ensures Pair(Step(c, Step(c, s, ReadJob(0)), ReadJob(1)), a, b, Task(ja, true, false), Task(jb, true, false),
                 Preparing, Preparing, 0, None, disk)
  {
  }

  lemma FirstStarted(c: Config, s: State, a: Id, b: Id, ja: Job, tb: Task, disk: Disk)
    requires ja.status == Pending
    requires Pair(s, a, b, Task(ja, true, false), tb, Preparing, Preparing, 0, None, disk)
    ensures Pair(Step(c, s, SaveStarted(0, NoFault)), a, b, Task(WithStage(ja, Started), true, false), tb,
                 AwaitingInfo, Preparing, 0, None, disk)
  {
    var ta := Task(WithStage(ja, Started), true, false);
    assert Step(c, s, SaveStarted(0, NoFault)).mem.tasks == map[a := ta, b := tb];
  }

  lemma SecondStarted(c: Config, s: State, a: Id, b: Id, ta: Task, jb: Job, disk: Disk)
    requires jb.status == Pending
    requires Pair(s, a, b, ta, Task(jb, true, false), AwaitingInfo, Preparing, 0, None, disk)
    ensures Pair(Step(c, s, SaveStarted(1, NoFault)), a, b, ta, Task(WithStage(jb, Started), true, false),
                 AwaitingInfo, AwaitingInfo, 0, None, disk)
  {
    var tb := Task(WithStage(jb, Started), true, false);
    assert Step(c, s, SaveStarted(1, NoFault)).mem.tasks == map[a := ta, b := tb];
  }

  lemma PairStarted(c: Config, s: State, a: Id, b: Id, ja: Job, jb: Job, disk: Disk)
    requires ja.status == Pending && jb.status == Pending
    requires Pair(s, a, b, Task(ja, true, false), Task(jb, true, false), Preparing, Preparing, 0, None, disk)
    ensures Pair(Step(c, Step(c, s, SaveStarted(0, NoFault)), SaveStarted(1, NoFault)), a, b,
                 Task(WithStage(ja, Started), true, false), Task(WithStage(jb, Started), true, false),
                 AwaitingInfo, AwaitingInfo, 0, None, disk)
  {
    hide Pair, Step, WithStage;
    FirstStarted(c, s, a, b, ja, Task(jb, true, false), disk);
    SecondStarted(c, Step(c, s, SaveStarted(0, NoFault)), a, b, Task(WithStage(ja, Started), true, false), jb, disk);
  }

  lemma PairMeasured(c: Config, s: State, a: Id, b: Id, ja: Job, jb: Job, disk: Disk)
    requires ja.selected == jb.selected == None && !ja.zipped && !jb.zipped && RESERVE <= c.maxActive as int
    requires Pair(s, a, b, Task(WithStage(ja, Started), true, false), Task(WithStage(jb, Started), true, false),
                  AwaitingInfo, AwaitingInfo, 0, None, disk)
    ensures Pair(Step(c, Step(c, s, Measure(0, BLOCK)), Measure(1, BLOCK)), a, b,
                 Task(Sized(c, ja), true, false), Task(Sized(c, jb), true, false),
                 AwaitingCapacity, AwaitingCapacity, 0, None, disk)
  {
    BlockMeasured(WithStage(ja, Started));
    BlockMeasured(WithStage(jb, Started));
    hide Measured;
    var s1 := Step(c, s, Measure(0, BLOCK));
    assert s1.mem.tasks == map[a := Task(Sized(c, ja), true, false), b := Task(WithStage(jb, Started), true, false)];
  }

  const FREE: nat := 2 * RESERVE - 512

  lemma FirstSum(ta: Task, tb: Task, a: Id, b: Id)
    requires a != b && !ta.reserved && !tb.reserved && ta.job.reserved == RESERVE
    ensures Sum(Obligations(map[a := ta, b := tb], a, map[a := 0])) == RESERVE
  {
    assert Obligations(map[a := ta, b := tb], a, map[a := 0]) == map[][a := RESERVE];
    SumInsert(map[], a, RESERVE);
  }

  lemma SecondSum(ta: Task, tb: Task, a: Id, b: Id, onDisk: map<Id, nat>)
    requires a != b && ta.reserved && ta.job.reserved == tb.job.reserved == RESERVE
    requires OnDisk(onDisk, a) == 512 && OnDisk(onDisk, b) == 0
    ensures Sum(Obligations(map[a := ta, b := tb], b, onDisk)) == 2 * RESERVE - 512
  {
    assert Obligations(map[a := ta, b := tb], b, onDisk) == map[][a := RESERVE - 512][b := RESERVE];
    SumInsert(map[], a, RESERVE - 512);
    SumInsert(map[][a := RESERVE - 512], b, RESERVE);
  }

  lemma FirstSampled(c: Config, s: State, a: Id, b: Id, ta: Task, tb: Task)
    requires !ta.reserved && !tb.reserved
    requires Pair(s, a, b, ta, tb, AwaitingCapacity, AwaitingCapacity, 0, None, Disk(FREE, 0, map[], NO_CHECK))
    ensures Pair(Step(c, Step(c, s, Statfs(0)), Inspect(a, 0)), a, b, ta, tb,
                 Scanning(FREE), AwaitingCapacity, 0, Some(0), Disk(FREE, 0, map[], NO_CHECK.(measured := map[a := 0])))
  {
  }

  lemma FirstAdmitted(c: Config, s: State, a: Id, b: Id, ta: Task, tb: Task)
    requires !ta.reserved && !tb.reserved && ta.job.reserved == RESERVE && RESERVE <= c.maxActive as int
    requires Pair(s, a, b, ta, tb, Scanning(FREE), AwaitingCapacity, 0, Some(0),
                  Disk(FREE, 0, map[], NO_CHECK.(measured := map[a := 0])))
    ensures Pair(Step(c, s, DecideCapacity(0, true)), a, b, ta.(reserved := true), tb, Admitted, AwaitingCapacity,
                 RESERVE, None, Disk(FREE, 0, map[], NO_CHECK.(measured := map[a := 0])))
  {
    FirstSum(ta, tb, a, b);
    hide Sum, Obligations;
    NoBytes();
    assert AdmitOp(s.mem, a).tasks == map[a := ta.(reserved := true), b := tb];
  }

  lemma NoBytes()
    ensures TotalBytes(map[]) == 0
  {
  }

  lemma SecondSampled(c: Config, s: State, a: Id, b: Id, ta: Task, tb: Task, check: Check)
    requires ta.reserved && !tb.reserved && ta.job.reserved == RESERVE
    requires Pair(s, a, b, ta, tb, Admitted, AwaitingCapacity, RESERVE, None, Disk(FREE, 0, map[], check))
    ensures Pair(Step(c, Step(c, s, Statfs(1)), JobWrite(a, 512)), a, b, ta, tb,
                 Admitted, Scanning(FREE), RESERVE, Some(1),
                  Disk(FREE - 512, 0, map[a := 512], NO_CHECK.(raced := map[a := 512])))
  {
    assert a in s.mem.tasks && s.mem.tasks[a].reserved;
  }

  lemma SecondInspected(c: Config, s: State, a: Id, b: Id, ta: Task, tb: Task)
    requires ta.reserved
    requires Pair(s, a, b, ta, tb, Admitted, Scanning(FREE), RESERVE, Some(1),
                  Disk(FREE - 512, 0, map[a := 512], NO_CHECK.(raced := map[a := 512])))
    ensures Pair(Step(c, Step(c, s, Inspect(a, 512)), Inspect(b, 0)), a, b, ta, tb,
                 Admitted, Scanning(FREE), RESERVE, Some(1), Disk(FREE - 512, 0, map[a := 512],
                               NO_CHECK.(raced := map[a := 512], measured := map[a := 512, b := 0])))
  {
  }

  lemma SecondDecides(c: Config, a: Id, b: Id, ta: Task, tb: Task)
    requires a != b && ta.reserved && !tb.reserved && ta.job.reserved == tb.job.reserved == RESERVE
    requires 2 * RESERVE <= c.maxActive as int
    ensures var mem, measured := Mem(true, map[a := ta, b := tb], RESERVE), map[a := 512, b := 0];
            && Inspected(mem.tasks, b, measured) && Decide(c, mem, b, FREE, measured) == Admit
            && AdmitOp(mem, b).tasks == map[a := ta, b := tb.(reserved := true)]
            && Sum(Outstanding(AdmitOp(mem, b).tasks, map[a := 512])) == FREE
  {
    hide Sum, Obligations, Outstanding;
    SecondSum(ta, tb, a, b, map[a := 512, b := 0]);
    SecondSum(ta, tb, a, b, map[a := 512]);
    AdmittedOwe(Mem(true, map[a := ta, b := tb], RESERVE), b, map[a := 512]);
  }

  lemma SecondAdmitted(c: Config, s: State, a: Id, b: Id, ta: Task, tb: Task)
    requires ta.reserved && !tb.reserved && ta.job.reserved == tb.job.reserved == RESERVE
    requires 2 * RESERVE <= c.maxActive as int
    requires Pair(s, a, b, ta, tb, Admitted, Scanning(FREE), RESERVE, Some(1),
                  Disk(FREE - 512, 0, map[a := 512],
                       NO_CHECK.(raced := map[a := 512], measured := map[a := 512, b := 0])))
    ensures var s' := Step(c, s, DecideCapacity(1, true));
            && s'.workers[0].pc == s'.workers[1].pc == Admitted && s'.disk.free == FREE - 512
            && s'.mem.tasks == map[a := ta, b := tb.(reserved := true)]
            && Sum(Outstanding(s'.mem.tasks, s'.disk.onDisk)) == FREE
  {
    hide Sum, Outstanding, Decide, AdmitOp, Inspected;
    SecondDecides(c, a, b, ta, tb);
  }

  lemma PairAccepted(c: Config, s: State, a: Submission, b: Submission)
    requires Independent(c, [a, b]) && Submittable(c, a) && Submittable(c, b) && Accepted(c, s, [a, b], 0, FREE)
    ensures Pair(Step(c, s, Tick([a.id, b.id])), a.id, b.id,
                 Task(JobOf(c, a), true, false), Task(JobOf(c, b), true, false),
                 Launched, Launched, 0, None, Disk(FREE, 0, map[], NO_CHECK))
  {
    assert [a, b][0..] == [a, b];
    TwoJobs(c, a, b);
    assert [a, b][0].id != [a, b][1].id;
    hide TasksOf, RowsOf, Step;
    PairLaunched(c, s, a.id, b.id, JobOf(c, a), JobOf(c, b));
  }

  /** Both jobs have their sizes and wait for capacity. */
  lemma PairWaits(c: Config, a: Submission, b: Submission) returns (s: State)
    requires Independent(c, [a, b]) && Submittable(c, a) && Submittable(c, b) && RESERVE <= c.maxActive as int
    requires a.req.selected == b.req.selected == None && !a.req.zipped && !b.req.zipped
    ensures Reachable(c, s)
    ensures Pair(s, a.id, b.id, Task(Sized(c, JobOf(c, a)), true, false), Task(Sized(c, JobOf(c, b)), true, false),
                 AwaitingCapacity, AwaitingCapacity, 0, None, Disk(FREE, 0, map[], NO_CHECK))
  {
    hide Step, Reachable, Accepted, Pair, Sized, Independent;
    var ja, jb, disk := JobOf(c, a), JobOf(c, b), Disk(FREE, 0, map[], NO_CHECK);
    s := Fill(c, [a, b], 0, FREE);
    PairAccepted(c, s, a, b);
    ReachableNext(c, s, Tick([a.id, b.id]));
    s := Step(c, s, Tick([a.id, b.id]));
    PairPrepared(c, s, a.id, b.id, ja, jb, disk);
    ReachableTwice(c, s, ReadJob(0), ReadJob(1));
    s := Step(c, Step(c, s, ReadJob(0)), ReadJob(1));
    PairStarted(c, s, a.id, b.id, ja, jb, disk);
    ReachableTwice(c, s, SaveStarted(0, NoFault), SaveStarted(1, NoFault));
    s := Step(c, Step(c, s, SaveStarted(0, NoFault)), SaveStarted(1, NoFault));
    PairMeasured(c, s, a.id, b.id, ja, jb, disk);
    ReachableTwice(c, s, Measure(0, BLOCK), Measure(1, BLOCK));
    s := Step(c, Step(c, s, Measure(0, BLOCK)), Measure(1, BLOCK));
  }

  /** The first job is admitted alone. */
  lemma FirstAdmission(c: Config, s0: State, a: Id, b: Id, ta: Task, tb: Task) returns (s: State)
    requires Reachable(c, s0) && RESERVE <= c.maxActive as int
    requires ta.job.reserved == RESERVE && !ta.reserved && !tb.reserved
    requires Pair(s0, a, b, ta, tb, AwaitingCapacity, AwaitingCapacity, 0, None, Disk(FREE, 0, map[], NO_CHECK))
    ensures Reachable(c, s)
    ensures Pair(s, a, b, ta.(reserved := true), tb, Admitted, AwaitingCapacity, RESERVE, None,
                 Disk(FREE, 0, map[], NO_CHECK.(measured := map[a := 0])))
  {
    hide Step, Reachable, Pair;
    FirstSampled(c, s0, a, b, ta, tb);
    ReachableTwice(c, s0, Statfs(0), Inspect(a, 0));
    s := Step(c, Step(c, s0, Statfs(0)), Inspect(a, 0));
    FirstAdmitted(c, s, a, b, ta, tb);
    ReachableNext(c, s, DecideCapacity(0, true));
    s := Step(c, s, DecideCapacity(0, true));
  }

  /** It writes a block between the sample of the second check and the walk of its own directory. */
  lemma SecondAdmission(c: Config, s0: State, a: Id, b: Id, ta: Task, tb: Task, check: Check) returns (s: State)
    requires Reachable(c, s0) && 2 * RESERVE <= c.maxActive as int && ta.job.reserved == tb.job.reserved == RESERVE
    requires ta.reserved && !tb.reserved
    requires Pair(s0, a, b, ta, tb, Admitted, AwaitingCapacity, RESERVE, None, Disk(FREE, 0, map[], check))
    ensures Reachable(c, s) && s.mem.tasks == map[a := ta, b := tb.(reserved := true)]
    ensures s.disk.free == FREE - 512 && Sum(Outstanding(s.mem.tasks, s.disk.onDisk)) == FREE
  {
    hide Step, Reachable, Pair, Sum, Outstanding;
    SecondSampled(c, s0, a, b, ta, tb, check);
    ReachableTwice(c, s0, Statfs(1), JobWrite(a, 512));
    s := Step(c, Step(c, s0, Statfs(1)), JobWrite(a, 512));
    SecondInspected(c, s, a, b, ta, tb);
    ReachableTwice(c, s, Inspect(a, 512), Inspect(b, 0));
    s := Step(c, Step(c, s, Inspect(a, 512)), Inspect(b, 0));
    SecondAdmitted(c, s, a, b, ta, tb);
    ReachableNext(c, s, DecideCapacity(1, true));
    s := Step(c, s, DecideCapacity(1, true));
  }

  /**
   Two jobs of one disk block each, with the reservations that `Measured` gives
   them, are both admitted to a disk on which one block is missing.
   */
  lemma AdmissionOverbooks(c: Config, a: Submission, b: Submission) returns (s: State)
    requires 2 * RESERVE <= c.maxActive as int
    requires Independent(c, [a, b]) && Submittable(c, a) && Submittable(c, b)
    requires a.req.selected == b.req.selected == None && !a.req.zipped && !b.req.zipped
    ensures Reachable(c, s)
    ensures forall id :: id == a.id || id == b.id ==>
              id in s.mem.tasks && s.mem.tasks[id].reserved && s.mem.tasks[id].job.reserved == RESERVE
    ensures Sum(Outstanding(s.mem.tasks, s.disk.onDisk)) == s.disk.free + 512
  {
    hide Step, Reachable, Pair, Independent, Sum, Outstanding;
    var ta, tb := Task(Sized(c, JobOf(c, a)), true, false), Task(Sized(c, JobOf(c, b)), true, false);
    s := PairWaits(c, a, b);
    s := FirstAdmission(c, s, a.id, b.id, ta, tb);
    s := SecondAdmission(c, s, a.id, b.id, ta.(reserved := true), tb, NO_CHECK.(measured := map[a.id := 0]));
  }
}
