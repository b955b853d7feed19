/**
 The queue as the program keeps it: a list of task objects and a running total,
 updated in place under a mutex. Each method is one critical section; its
 contract says that it does to the ghost copy `mem` and to the tables what the
 corresponding operation of `QueueOps` does.
 */
module DownloadQueueClass {
  import opened JobStore
  import opened Paths
  import opened QueueOps
  import opened Reservation
  import opened Sums
  import opened Wrappers

  /** `values` holds exactly the tasks of the table, each ID once. */
  ghost predicate Lists(values: seq<Task>, table: map<Id, Task>) {
    && |values| == |table|
    && (forall i :: 0 <= i < |values| ==> values[i].job.id in table && table[values[i].job.id] == values[i])
    && (forall i, k :: 0 <= i < k < |values| ==> values[i].job.id != values[k].job.id)
    && (forall id :: id in table ==> exists i :: 0 <= i < |values| && values[i].job.id == id)
  }

  lemma ListsAppend(values: seq<Task>, table: map<Id, Task>, t: Task)
    requires Lists(values, table) && t.job.id !in table
    ensures Lists(values + [t], table[t.job.id := t])
  {
    var values', table' := values + [t], table[t.job.id := t];
    forall id | id in table' ensures exists i :: 0 <= i < |values'| && values'[i].job.id == id {
      if id in table {
        var i :| 0 <= i < |values| && values[i].job.id == id;
        assert values'[i].job.id == id;
      } else {
        assert values'[|values|].job.id == id;
      }
    }
  }

  lemma ListsUpdate(values: seq<Task>, table: map<Id, Task>, k: int, t: Task)
    requires Lists(values, table) && 0 <= k < |values| && t.job.id == values[k].job.id
    ensures t.job.id in table && Lists(values[k := t], table[t.job.id := t])
  {
    var values', table' := values[k := t], table[t.job.id := t];
    assert table'.Keys == table.Keys;
    forall i | 0 <= i < |values| ensures values'[i].job.id == values[i].job.id {
    }
    forall id | id in table' ensures exists i :: 0 <= i < |values'| && values'[i].job.id == id {
      var i :| 0 <= i < |values| && values[i].job.id == id;
      assert values'[i].job.id == id;
    }
    assert |table'| == |table| by {
      hide Lists;
      assert |table'.Keys| == |table.Keys|;
    }
  }

  lemma RemovedAt(values: seq<Task>, k: int, i: int)
    requires 0 <= k < |values| && 0 <= i < |values| - 1
    ensures (values[..k] + values[k + 1..])[i] == values[if i < k then i else i + 1]
  {
  }

  lemma ListsRemove(values: seq<Task>, table: map<Id, Task>, k: int)
    requires Lists(values, table) && 0 <= k < |values|
    ensures Lists(values[..k] + values[k + 1..], table - {values[k].job.id})
  {
    var gone := values[k].job.id;
    var values' := values[..k] + values[k + 1..];
    var table' := table - {gone};
    var n := |values| - 1;
    assert |table'| == n by {
      assert table.Keys == table'.Keys + {gone};
    }
    forall i | 0 <= i < n
      ensures values'[i].job.id != gone && values'[i].job.id in table && table[values'[i].job.id] == values'[i]
    {
      RemovedAt(values, k, i);
    }
    forall i, j | 0 <= i < j < n ensures values'[i].job.id != values'[j].job.id {
      RemovedAt(values, k, i);
      RemovedAt(values, k, j);
    }
    forall id | id in table' ensures exists i :: 0 <= i < n && values'[i].job.id == id {
      var i :| 0 <= i < |values| && values[i].job.id == id;
      hide Lists;
      RemovedAt(values, k, if i < k then i else i - 1);
    }
  }

  lemma ListsRecovered(rows: seq<Job>, values: seq<Task>)
    requires forall i, k :: 0 <= i < k < |rows| ==> rows[i].id != rows[k].id
    requires |values| == |rows|
    requires forall i :: 0 <= i < |rows| ==> values[i] == Task(RecoveredJob(rows[i]), false, false)
    ensures Lists(values, RecoveredTasks(rows))
  {
    RecoveredTasksAt(rows);
    RecoveredTasksSize(rows);
    hide RecoveredTasks;
    forall i | 0 <= i < |rows| ensures values[i].job.id == rows[i].id {
    }
    hide RecoveredJob;
    forall id | id in RecoveredTasks(rows) ensures exists i :: 0 <= i < |values| && values[i].job.id == id {
      var i :| 0 <= i < |rows| && rows[i].id == id;
      assert values[i].job.id == id;
    }
  }

  /** Rows read in any order have different IDs. */
  lemma DistinctRows(db: Db, order: seq<Id>)
    requires Enumerates(order, db.rows.Keys) && forall id :: id in db.rows ==> db.rows[id].id == id
    ensures var rows := RowsIn(db, order);
            forall i, k :: 0 <= i < k < |rows| ==> rows[i].id != rows[k].id
  {
    forall i | 0 <= i < |order| ensures RowsIn(db, order)[i].id == order[i] {
    }
  }

  lemma RecoveredRows(db: Db, order: seq<Id>)
    requires Enumerates(order, db.rows.Keys) && forall id :: id in db.rows ==> db.rows[id].id == id
    ensures var tasks := RecoveredTasks(RowsIn(db, order));
            tasks.Keys == db.rows.Keys && forall id :: id in db.rows ==> Resumes(db.rows[id], tasks[id])
  {
    hide Resumes, RecoveredTasks, RecoveredJob;
    var rows := RowsIn(db, order);
    DistinctRows(db, order);
    RecoveredTasksAt(rows);
    forall id | id in db.rows ensures id in RecoveredTasks(rows) && Resumes(db.rows[id], RecoveredTasks(rows)[id]) {
      var i :| 0 <= i < |order| && order[i] == id;
      assert rows[i] == db.rows[id];
    }
    forall id | id in RecoveredTasks(rows) ensures id in db.rows {
      var i :| 0 <= i < |rows| && rows[i].id == id;
      assert order[i] == id;
    }
  }

  lemma ListsAt(values: seq<Task>, table: map<Id, Task>, k: int)
    requires Lists(values, table) && 0 <= k < |values|
    ensures values[k].job.id in table && table[values[k].job.id] == values[k]
  {
  }

  /** The first `k` tasks have a worker now. */
  function Running(values: seq<Task>, k: int): (r: seq<Task>)
    requires 0 <= k <= |values|
    ensures |r| == |values|
  {
    seq(|values|, i requires 0 <= i < |values| => if i < k then values[i].(running := true) else values[i])
  }

  lemma RunningNext(values: seq<Task>, k: int)
    requires 0 <= k < |values|
    ensures Running(values, k)[k] == values[k]
    ensures Running(values, k + 1) == Running(values, k)[k := values[k].(running := true)]
    ensures values[k].running ==> Running(values, k + 1) == Running(values, k)
  {
  }

  lemma RunningFirst(values: seq<Task>)
    ensures Running(values, 0) == values
  {
  }

  /** Those among the first `k` tasks that had none. */
  function IdleIds(values: seq<Task>, k: int): seq<Id>
    requires 0 <= k <= |values|
  {
    if k == 0 then []
    else IdleIds(values, k - 1) + if values[k - 1].running then [] else [values[k - 1].job.id]
  }

  lemma {:induction false} IdleIdsEnumerate(values: seq<Task>, k: int)
    requires 0 <= k <= |values|
    requires forall i, j :: 0 <= i < j < |values| ==> values[i].job.id != values[j].job.id
    ensures Enumerates(IdleIds(values, k), set i | 0 <= i < k && !values[i].running :: values[i].job.id)
  {
    if k > 0 {
      IdleIdsEnumerate(values, k - 1);
    }
  }

  lemma ListsRunning(values: seq<Task>, table: map<Id, Task>)
    requires Lists(values, table)
    ensures Lists(Running(values, |values|), map id | id in table :: table[id].(running := true))
  {
    var values', table' := Running(values, |values|), map id | id in table :: table[id].(running := true);
    assert table'.Keys == table.Keys;
    assert |table'| == |table| by {
      hide Lists;
      assert |table'.Keys| == |table.Keys|;
    }
    forall i | 0 <= i < |values| ensures values'[i] == values[i].(running := true) {
    }
    hide Running;
    forall id | id in table' ensures exists i :: 0 <= i < |values'| && values'[i].job.id == id {
      var i :| 0 <= i < |values| && values[i].job.id == id;
      assert values'[i].job.id == id;
    }
  }

  lemma IdleIdsIdle(values: seq<Task>, table: map<Id, Task>)
    requires Lists(values, table)
    ensures Enumerates(IdleIds(values, |values|), Idle(table))
    ensures forall id :: id in IdleIds(values, |values|) <==> id in table && !table[id].running
  {
    IdleIdsEnumerate(values, |values|);
    var ids := set i | 0 <= i < |values| && !values[i].running :: values[i].job.id;
    hide IdleIds, Enumerates;
    assert Idle(table) <= ids by {
      forall id | id in Idle(table) ensures id in ids {
        var i :| 0 <= i < |values| && values[i].job.id == id;
      }
    }
    assert ids <= Idle(table);
  }

  /** The sum a capacity check compares with the free space, unless it gives up. */
  ghost function Needed(tasks: map<Id, Task>, id: Id, onDisk: map<Id, nat>): Option<int>
  {
    if !Inspected(tasks, id, onDisk) then None
    else
      var sum := Sum(Obligations(tasks, id, onDisk));
      if sum > MAX_INT64 then None else Some(sum)
  }

  /** What the file system reports for the directory of a job. */
  datatype Listing = Listing(walk: seq<Entry>, blocks: Inode -> int64)

  /** The directories that can be measured, with their allocations. */
  ghost function Measurements(tasks: map<Id, Task>, listings: Id -> Listing): map<Id, nat> {
    map o | o in tasks && Allocated(listings(o).walk, listings(o).blocks).Some? ::
      Allocated(listings(o).walk, listings(o).blocks).value as int
  }

  /** The obligations of the first `k` tasks of the list. */
  ghost function Part(owed: map<Id, int>, values: seq<Task>, k: int): map<Id, int>
    requires 0 <= k <= |values|
  {
    map o | o in owed && exists i :: 0 <= i < k && values[i].job.id == o :: owed[o]
  }

  lemma PartFirst(owed: map<Id, int>, values: seq<Task>)
    ensures Sum(Part(owed, values, 0)) == 0
  {
    assert Part(owed, values, 0) == map[];
  }

  lemma PartNext(owed: map<Id, int>, values: seq<Task>, table: map<Id, Task>, k: int)
    requires Lists(values, table) && 0 <= k < |values|
    ensures Sum(Part(owed, values, k + 1)) == Sum(Part(owed, values, k)) +
            if values[k].job.id in owed then owed[values[k].job.id] else 0
  {
    var id, part := values[k].job.id, Part(owed, values, k);
    hide Sum;
    if id in owed {
      SumInsert(part, id, owed[id]);
      assert Part(owed, values, k + 1) == part[id := owed[id]];
    } else {
      assert Part(owed, values, k + 1) == part;
    }
  }

  lemma PartLast(owed: map<Id, int>, values: seq<Task>, table: map<Id, Task>)
    requires Lists(values, table) && forall o :: o in owed ==> o in table
    ensures Part(owed, values, |values|) == owed
  {
    forall o | o in owed ensures o in Part(owed, values, |values|) {
      var i :| 0 <= i < |values| && values[i].job.id == o;
    }
  }

  /** The sum over the first `k` tasks of the list, if the check gets that far. */
  function Scan(values: seq<Task>, id: Id, onDisk: map<Id, nat>, k: int): Option<int>
    requires 0 <= k <= |values|
  {
    if k == 0 then Some(0)
    else
      var sum, t := Scan(values, id, onDisk, k - 1), values[k - 1];
      if sum == None || !(t.job.id == id || t.reserved) then sum
      else if t.job.id !in onDisk then None
      else
        var remaining := Remaining(t.job.reserved, onDisk[t.job.id]);
        if sum.value > MAX_INT64 - remaining then None else Some(sum.value + remaining)
  }

  lemma {:induction false} ScanStops(values: seq<Task>, id: Id, onDisk: map<Id, nat>, k: int)
    requires 0 <= k <= |values| && Scan(values, id, onDisk, k) == None
    ensures Scan(values, id, onDisk, |values|) == None
    decreases |values| - k
  {
    if k < |values| {
      ScanStops(values, id, onDisk, k + 1);
    }
  }

  /** A counted directory among the first `k` cannot be inspected. */
  predicate Blind(values: seq<Task>, id: Id, onDisk: map<Id, nat>, k: int)
    requires 0 <= k <= |values|
  {
    exists i :: 0 <= i < k && (values[i].job.id == id || values[i].reserved) && values[i].job.id !in onDisk
  }

  lemma OwedAt(values: seq<Task>, table: map<Id, Task>, id: Id, onDisk: map<Id, nat>, k: int)
    requires Lists(values, table) && 0 <= k < |values|
    ensures var t, owed := values[k], Obligations(table, id, onDisk);
            && (t.job.id in owed <==> t.job.id == id || t.reserved)
            && (t.job.id in owed ==> 0 <= owed[t.job.id] == Remaining(t.job.reserved, OnDisk(onDisk, t.job.id)))
  {
    ListsAt(values, table, k);
    hide Lists;
  }

  lemma BlindNext(values: seq<Task>, id: Id, onDisk: map<Id, nat>, k: int)
    requires 0 < k <= |values|
    ensures Blind(values, id, onDisk, k) <==>
              Blind(values, id, onDisk, k - 1)
              || ((values[k - 1].job.id == id || values[k - 1].reserved) && values[k - 1].job.id !in onDisk)
  {
  }

  lemma ScanFirst(values: seq<Task>, id: Id, onDisk: map<Id, nat>)
    ensures Scan(values, id, onDisk, 0) == Some(0) && !Blind(values, id, onDisk, 0)
  {
  }

  lemma ScanStep(values: seq<Task>, id: Id, onDisk: map<Id, nat>, k: int, prev: int, owes: int)
    requires 0 < k <= |values| && 0 <= owes
    requires Scan(values, id, onDisk, k - 1) ==
             if Blind(values, id, onDisk, k - 1) || prev > MAX_INT64 then None else Some(prev)
    requires var t := values[k - 1];
             if t.job.id == id || t.reserved then owes == Remaining(t.job.reserved, OnDisk(onDisk, t.job.id))
             else owes == 0
    ensures Scan(values, id, onDisk, k) ==
            if Blind(values, id, onDisk, k) || prev + owes > MAX_INT64 then None else Some(prev + owes)
  {
    BlindNext(values, id, onDisk, k);
    hide Blind;
  }

  lemma {:induction false} ScanPart(values: seq<Task>, table: map<Id, Task>, id: Id, onDisk: map<Id, nat>, k: int)
    requires Lists(values, table) && 0 <= k <= |values|
    ensures var sum := Sum(Part(Obligations(table, id, onDisk), values, k));
            Scan(values, id, onDisk, k) == if Blind(values, id, onDisk, k) || sum > MAX_INT64 then None else Some(sum)
  {
    hide Lists, Sum, Part, Blind, Obligations, Scan, Remaining, OnDisk;
    var owed := Obligations(table, id, onDisk);
    if k == 0 {
      PartFirst(owed, values);
      ScanFirst(values, id, onDisk);
    } else {
      ScanPart(values, table, id, onDisk, k - 1);
      PartNext(owed, values, table, k - 1);
      OwedAt(values, table, id, onDisk, k - 1);
      var t := values[k - 1];
      var owes := if t.job.id in owed then owed[t.job.id] else 0;
      ScanStep(values, id, onDisk, k, Sum(Part(owed, values, k - 1)), owes);
    }
  }

  lemma MeasuredAt(tasks: map<Id, Task>, listings: Id -> Listing, o: Id)
    requires o in tasks
    ensures var onDisk, total := Measurements(tasks, listings), Allocated(listings(o).walk, listings(o).blocks);
            if total == None then o !in onDisk else o in onDisk && onDisk[o] == total.value as int
  {
  }

  /** A directory that counts cannot be measured. */
  ghost predicate Unmeasurable(tasks: map<Id, Task>, id: Id, listings: Id -> Listing) {
    exists o :: o in tasks && (o == id || tasks[o].reserved)
                && Allocated(listings(o).walk, listings(o).blocks) == None
  }

  lemma NeededExact(tasks: map<Id, Task>, id: Id, listings: Id -> Listing)
    ensures Inspected(tasks, id, Measurements(tasks, listings)) <==> !Unmeasurable(tasks, id, listings)
    ensures var onDisk := Measurements(tasks, listings);
            var sum := Sum(Obligations(tasks, id, onDisk));
            Needed(tasks, id, onDisk) ==
            if Unmeasurable(tasks, id, listings) || sum > MAX_INT64 then None else Some(sum)
  {
    hide Allocated, Sum, Obligations;
  }

  lemma ScanNeeded(values: seq<Task>, table: map<Id, Task>, id: Id, onDisk: map<Id, nat>)
    requires Lists(values, table)
    ensures Scan(values, id, onDisk, |values|) == Needed(table, id, onDisk)
  {
    var owed := Obligations(table, id, onDisk);
    ScanPart(values, table, id, onDisk, |values|);
    PartLast(owed, values, table);
    hide Sum, Part, Scan;
    if !Inspected(table, id, onDisk) {
      var o :| o in table && (o == id || table[o].reserved) && o !in onDisk;
      var i :| 0 <= i < |values| && values[i].job.id == o;
    }
  }

  /** The store calls of a finish. */
  function CloseRowOp(db: Db, j: Job, status: Stage, saveFault: Fault, finishFault: Fault, day: int): (Db, Outcome) {
    var (db1, saved) := SaveRow(db, j, saveFault);
    if saved == Error then (db1, Error) else FinishRow(db1, j, status, day, finishFault)
  }

  /** The task table after a finish whose store calls ended with or without success. */
  function Settled(mem: Mem, id: Id, j: Job, ok: bool): Mem
    requires id in mem.tasks
  {
    var t := mem.tasks[id];
    if ok then
      mem.(tasks := mem.tasks - {id}, active := if t.reserved then mem.active - j.reserved else mem.active)
    else mem.(tasks := mem.tasks[id := Task(j, false, t.reserved)])
  }

  lemma FinishSplits(mem: Mem, db: Db, id: Id, status: Stage, saveFault: Fault, finishFault: Fault, day: int)
    requires id in mem.tasks
    ensures var j := WithStage(mem.tasks[id].job, status);
            var (db', out) := CloseRowOp(db, j, status, saveFault, finishFault, day);
            FinishOp(mem, db, id, status, saveFault, finishFault, day)
            == (Settled(mem, id, j, out == Ok), db', out == Ok)
  {
    hide SaveRow, FinishRow;
  }

  /** The selection check of `Add`; `None` selects every file. */
  method CheckSelection(selected: Option<seq<int>>) returns (ok: bool)
    ensures ok == AddableSelection(selected)
  {
    if selected == None {
      return true;
    }
    var s := selected.value;
    var seen: set<int> := {};
    for k := 0 to |s|
      invariant seen == set i | 0 <= i < k :: s[i]
      invariant Distinct(s[..k]) && forall i :: 0 <= i < k ==> 0 <= s[i]
    {
      if s[k] < 0 || s[k] in seen {
        if s[k] in seen {
          var i :| 0 <= i < k && s[i] == s[k];
          assert !Distinct(s);
        }
        return false;
      }
      seen := seen + {s[k]};
    }
    assert s[..|s|] == s;
    ok := s != [];
  }

  /** The checks of the paths, link attributes and name that the metadata claims. */
  method CheckNames(info: Info, clean: string -> string) returns (ok: bool)
    ensures ok == SafeInfo(info)
  {
    hide SafeInfo, SafeFile, SafeRelative, Joined, Component, Split, LastSlash;
    for i := 0 to |info.files|
      invariant forall k :: 0 <= k < i ==> SafeFile(info.files[k])
    {
      var f := info.files[i];
      var whole := SafeRelative(Joined([info.name] + f.path), clean);
      var parts := CheckParts(f.path, clean);
      FileParts(f);
      if SafeInfo(info) {
        WholePath(info, i, clean);
      }
      if !whole || f.symlink || !parts {
        return false;
      }
    }
    BaseOnly(info.name, clean);
    NameAndFiles(info);
    ok := SafeRelative(info.name, clean) && Base(info.name) == info.name;
  }

  lemma FileParts(f: FileInfo)
    ensures SafeFile(f) <==> !f.symlink && forall k :: 0 <= k < |f.path| ==> Component(f.path[k])
  {
  }

  lemma NameAndFiles(info: Info)
    ensures SafeInfo(info) <==> Component(info.name) && forall k :: 0 <= k < |info.files| ==> SafeFile(info.files[k])
  {
  }

  method CheckParts(path: seq<string>, clean: string -> string) returns (ok: bool)
    ensures ok == forall k :: 0 <= k < |path| ==> Component(path[k])
  {
    for k := 0 to |path|
      invariant forall i :: 0 <= i < k ==> Component(path[i])
    {
      if '/' !in path[k] {
        SafeJoined([path[k]], clean);
      }
      if !SafeRelative(path[k], clean) || '/' in path[k] {
        return false;
      }
    }
    ok := true;
  }

  lemma WholePath(info: Info, i: int, clean: string -> string)
    requires SafeInfo(info) && 0 <= i < |info.files|
    ensures SafeFile(info.files[i]) && SafeRelative(Joined([info.name] + info.files[i].path), clean)
  {
    assert SafeFile(info.files[i]);
    SafeJoined([info.name] + info.files[i].path, clean);
  }

  class DownloadTask {
    var job: Job
    var running: bool
    var reserved: bool

    function Value(): Task
      reads this
    {
      Task(job, running, reserved)
    }

    constructor (j: Job)
      ensures Value() == Task(j, false, false)
    {
      job, running, reserved := j, false, false;
    }
  }

  function TaskValues(tasks: seq<DownloadTask>): (values: seq<Task>)
    reads tasks
    ensures |values| == |tasks| && forall i :: 0 <= i < |tasks| ==> values[i] == tasks[i].Value()
  {
    seq(|tasks|, i requires 0 <= i < |tasks| reads tasks => tasks[i].Value())
  }

  /** One object of a list without repetitions is overwritten. */
  method Write(tasks: seq<DownloadTask>, k: int, j: Job, running: bool, reserved: bool)
    requires 0 <= k < |tasks| && forall i :: 0 <= i < |tasks| && i != k ==> tasks[i] != tasks[k]
    modifies tasks[k]
    ensures TaskValues(tasks) == old(TaskValues(tasks))[k := Task(j, running, reserved)]
    ensures tasks[k].Value() == Task(j, running, reserved)
  {
    tasks[k].job, tasks[k].running, tasks[k].reserved := j, running, reserved;
  }

  /** The scheduler's loop: every task without a worker gets one. */
  method StartWorkers(tasks: seq<DownloadTask>) returns (started: seq<Id>)
    requires forall i, j :: 0 <= i < |tasks| && 0 <= j < |tasks| && i != j ==> tasks[i] != tasks[j]
    modifies tasks
    ensures TaskValues(tasks) == Running(old(TaskValues(tasks)), |tasks|)
    ensures started == IdleIds(old(TaskValues(tasks)), |tasks|)
  {
    ghost var values := TaskValues(tasks);
    hide Running, TaskValues;
    started := [];
    RunningFirst(values);
    for k := 0 to |tasks|
      invariant TaskValues(tasks) == Running(values, k)
      invariant started == IdleIds(values, k)
    {
      RunningNext(values, k);
      assert tasks[k].Value() == values[k];
      if !tasks[k].running {
        Write(tasks, k, tasks[k].job, true, tasks[k].reserved);
        started := started + [tasks[k].job.id];
      }
    }
  }

  class DownloadQueue {
    const config: Config
    var store: Store?
    var tasks: seq<DownloadTask>
    var activeBytes: int
    ghost var mem: Mem

    ghost predicate Valid()
      reads this, tasks
    {
      && mem.configured == (store != null)
      && (store == null ==> tasks == [])
      && mem.active == activeBytes
      && Lists(TaskValues(tasks), mem.tasks)
    }

    constructor (c: Config)
      ensures Valid() && config == c && mem == Mem(false, map[], 0)
    {
      config := c;
      store, tasks, activeBytes := null, [], 0;
      mem := Mem(false, map[], 0);
    }

    /** The recovery loop: one bad or duplicate row rejects them all. */
    method Recover(rows: seq<Job>) returns (recovered: Option<seq<DownloadTask>>)
      ensures recovered.Some? <==> Recoverable(config, rows)
      ensures recovered.Some? ==>
                && |recovered.value| == |rows|
                && (forall i :: 0 <= i < |rows| ==> fresh(recovered.value[i]))
                && forall i :: 0 <= i < |rows| ==>
                     recovered.value[i].Value() == Task(RecoveredJob(rows[i]), false, false)
    {
      hide RecoveredJob;
      var list: seq<DownloadTask> := [];
      var hashes: set<Text> := {};
      for k := 0 to |rows|
        invariant |list| == k && Recoverable(config, rows[..k])
        invariant hashes == set i | 0 <= i < k :: rows[i].infoHash
        invariant forall i :: 0 <= i < k ==> fresh(list[i])
        invariant forall i :: 0 <= i < k ==> list[i].Value() == Task(RecoveredJob(rows[i]), false, false)
      {
        if !SoundRow(config, rows[k]) || rows[k].infoHash in hashes {
          return None;
        }
        hashes := hashes + {rows[k].infoHash};
        var task := new DownloadTask(RecoveredJob(rows[k]));
        list := list + [task];
      }
      assert rows[..|rows|] == rows;
      recovered := Some(list);
    }

    /** `order` is the order in which the rows were read. */
    method Configure(s: Store, fault: Fault) returns (ok: bool, ghost order: seq<Id>)
      requires Valid() && s.Valid()
      modifies this
      ensures Valid()
      ensures !old(mem).configured && fault == NoFault ==> Enumerates(order, s.rows.Keys)
      ensures (mem, ok) == ConfigureOp(config, old(mem),
                if Enumerates(order, s.rows.Keys) && fault == NoFault then Some(RowsIn(s.Contents(), order)) else None)
      ensures ok ==> mem.tasks.Keys == s.rows.Keys && forall id :: id in s.rows ==> Resumes(s.rows[id], mem.tasks[id])
      ensures store == if ok then s else old(store)
    {
      ok, order := false, [];
      hide Resumes, Lists, Recoverable, RecoveredTasks, RecoveredJob;
      if store == null {
        var out, rows;
        out, rows, order := s.Active(fault);
        if out == Ok {
          var recovered := Recover(rows);
          if recovered.Some? {
            DistinctRows(s.Contents(), order);
            ListsRecovered(rows, TaskValues(recovered.value));
            RecoveredRows(s.Contents(), order);
            store, tasks, ok := s, recovered.value, true;
            mem := mem.(configured := true, tasks := RecoveredTasks(rows));
          }
        }
      }
    }

    /** Duplicate detection: the loop over the active jobs. */
    method FindHash(hash: Text) returns (found: bool)
      requires Valid()
      ensures found == Active(mem, hash)
    {
      for k := 0 to |tasks|
        invariant forall i :: 0 <= i < k ==> tasks[i].job.infoHash != hash
      {
        if tasks[k].job.infoHash == hash {
          ListsAt(TaskValues(tasks), mem.tasks, k);
          return true;
        }
      }
      forall id | id in mem.tasks ensures mem.tasks[id].job.infoHash != hash {
        var i :| 0 <= i < |tasks| && TaskValues(tasks)[i].job.id == id;
        assert tasks[i].job.infoHash != hash;
      }
      found := false;
    }

    /** Persist first, then append: a job that may not be durable is not accepted. */
    method Insert(j: Job, fault: Fault) returns (ok: bool)
      requires Valid() && store != null && j.id !in mem.tasks
      modifies this, store
      ensures Valid() && store == old(store)
      ensures store.Contents() == CreateRow(old(store.Contents()), j, fault).0
      ensures ok == (CreateRow(old(store.Contents()), j, fault).1 == Ok)
      ensures mem == if ok then old(mem).(tasks := old(mem).tasks[j.id := Task(j, false, false)]) else old(mem)
    {
      hide CreateRow, Lists;
      var out := store.Create(j, fault);
      ok := out == Ok;
      if ok {
        ListsAppend(TaskValues(tasks), mem.tasks, Task(j, false, false));
        var task := new DownloadTask(j);
        assert TaskValues(tasks + [task]) == TaskValues(tasks) + [Task(j, false, false)];
        tasks := tasks + [task];
        mem := mem.(tasks := mem.tasks[j.id := Task(j, false, false)]);
      }
    }

    /** The magnet of an acceptable request. */
    method Check(req: Request) returns (magnet: Option<Magnet>)
      requires Valid()
      ensures magnet == if Acceptable(config, mem, req) then config.parse(req.magnet) else None
    {
      assert |tasks| == |mem.tasks|;
      hide Lists, Active, AddableSelection;
      magnet := config.parse(req.magnet);
      var selection := CheckSelection(req.selected);
      if magnet == None || !selection || store == null || |tasks| >= MAX_QUEUE_SIZE {
        return None;
      }
      var found := FindHash(magnet.value.hash);
      if found {
        magnet := None;
      }
    }

    method Add(req: Request, id: Id, fault: Fault) returns (ok: bool)
      requires Valid() && id !in mem.tasks
      modifies this, store
      ensures Valid() && store == old(store)
      ensures store == null ==> !ok && mem == old(mem)
      ensures store != null ==>
                (mem, store.Contents(), ok) == AddOp(config, old(mem), old(store.Contents()), req, id, fault)
    {
      ok := false;
      var magnet := Check(req);
      assert Acceptable(config, mem, req) ==> store != null && magnet.Some?;
      hide Lists, CreateRow, Acceptable, Active;
      if magnet.Some? {
        ok := Insert(NewJob(id, magnet.value, req), fault);
      }
    }

    /** The position of a task that the caller may address, or the length of the list. */
    method Find(id: Id, user: Text, owned: bool) returns (k: int)
      requires Valid()
      ensures 0 <= k <= |tasks|
      ensures k < |tasks| ==> tasks[k].job.id == id && Addressed(mem, id, user, owned)
      ensures k == |tasks| ==> !Addressed(mem, id, user, owned)
    {
      if owned && user == EMPTY {
        return |tasks|;
      }
      k := 0;
      while k < |tasks|
        invariant 0 <= k <= |tasks|
        invariant forall i :: 0 <= i < k ==> tasks[i].job.id != id || (owned && tasks[i].job.userID != user)
      {
        if tasks[k].job.id == id && !(owned && tasks[k].job.userID != user) {
          ListsAt(TaskValues(tasks), mem.tasks, k);
          return k;
        }
        k := k + 1;
      }
      if id in mem.tasks {
        var i :| 0 <= i < |tasks| && TaskValues(tasks)[i].job.id == id;
        assert mem.tasks[id] == tasks[i].Value();
      }
    }

    /** Different positions hold different objects. */
    lemma NoAlias(k: int)
      requires Valid() && 0 <= k < |tasks|
      ensures forall i :: 0 <= i < |tasks| && i != k ==> tasks[i] != tasks[k]
      ensures tasks[k].job.id in mem.tasks && mem.tasks[tasks[k].job.id] == tasks[k].Value()
    {
      assert forall i :: 0 <= i < |tasks| ==> TaskValues(tasks)[i].job.id == tasks[i].job.id;
      ListsAt(TaskValues(tasks), mem.tasks, k);
    }

    /** The task at position `k` gets new field values; its ID stays. */
    method Overwrite(k: int, j: Job, running: bool, reserved: bool)
      requires Valid() && 0 <= k < |tasks| && tasks[k].job.id == j.id
      modifies this`mem, tasks[k]
      ensures Valid() && j.id in old(mem).tasks
      ensures mem == old(mem).(tasks := old(mem).tasks[j.id := Task(j, running, reserved)])
      ensures tasks[k].Value() == Task(j, running, reserved)
    {
      NoAlias(k);
      hide Lists, TaskValues;
      ListsUpdate(TaskValues(tasks), mem.tasks, k, Task(j, running, reserved));
      Write(tasks, k, j, running, reserved);
      mem := mem.(tasks := mem.tasks[j.id := Task(j, running, reserved)]);
    }

    /** The task at position `k` gets a new job record. */
    method Assign(k: int, j: Job)
      requires Valid() && 0 <= k < |tasks| && tasks[k].job.id == j.id
      modifies this`mem, tasks[k]
      ensures Valid() && j.id in old(mem).tasks
      ensures mem == WithJob(old(mem), j.id, j) && tasks[k].job == j
    {
      NoAlias(k);
      hide Lists, TaskValues;
      Overwrite(k, j, tasks[k].running, tasks[k].reserved);
    }

    /** Persist first, then assign: memory never runs ahead of an acknowledged save. */
    method Persist(k: int, j: Job, fault: Fault) returns (ok: bool)
      requires Valid() && store != null && 0 <= k < |tasks| && tasks[k].job.id == j.id
      modifies this`mem, tasks[k], store
      ensures Valid() && j.id in old(mem).tasks
      ensures store.Contents() == SaveRow(old(store.Contents()), j, fault).0
      ensures ok == (SaveRow(old(store.Contents()), j, fault).1 == Ok)
      ensures mem == if ok then WithJob(old(mem), j.id, j) else old(mem)
      ensures tasks[k].job == if ok then j else old(tasks[k].job)
    {
      NoAlias(k);
      hide SaveRow, Lists;
      ghost var before := TaskValues(tasks);
      var out := store.Save(j, fault);
      assert TaskValues(tasks) == before;
      ok := out == Ok;
      if ok {
        Assign(k, j);
      }
    }

    /** A queue that is not configured has no jobs, so it knows none to stop. */
    method Stop(id: Id, user: Text, owned: bool, fault: Fault) returns (ok: bool)
      requires Valid()
      modifies this`mem, tasks, store
      ensures Valid()
      ensures store == null ==> !ok && mem == old(mem)
      ensures store != null ==>
                (mem, store.Contents(), ok) == StopOp(old(mem), old(store.Contents()), id, user, owned, fault)
    {
      var k := Find(id, user, owned);
      if k == |tasks| {
        return false;
      }
      NoAlias(k);
      hide SaveRow, Lists, Addressed;
      var j := tasks[k].job;
      if !Stoppable(j) {
        return false;
      }
      ok := Persist(k, j.(status := Stopped, stage := Stopped), fault);
    }

    /** `k` is where the worker's task is in the list. */
    method SaveStage(k: int, stage: Stage, fault: Fault) returns (ok: bool)
      requires Valid() && store != null && 0 <= k < |tasks|
      modifies this`mem, tasks[k], store
      ensures Valid() && tasks[k].job.id == old(tasks[k].job.id) && tasks[k].job.id in old(mem).tasks
      ensures (mem, store.Contents(), ok) ==
              SaveStageOp(old(mem), old(store.Contents()), tasks[k].job.id, stage, fault)
    {
      NoAlias(k);
      hide SaveRow, Lists;
      var j := tasks[k].job;
      if j.status == Stopped {
        return false;
      }
      ok := Persist(k, j.(status := stage, stage := stage), fault);
    }

    /** One pass of the scheduler; `started` are the tasks handed to new workers. */
    method Schedule() returns (started: seq<Id>)
      requires Valid()
      modifies this`mem, tasks
      ensures Valid() && mem == LaunchOp(old(mem))
      ensures Enumerates(started, Idle(old(mem).tasks))
      ensures forall id :: id in started <==> id in old(mem).tasks && !old(mem).tasks[id].running
      ensures forall id :: id in mem.tasks ==> mem.tasks[id].running
    {
      hide Lists, Running, Enumerates, Idle, TaskValues, IdleIds;
      ghost var values := TaskValues(tasks);
      forall i, j | 0 <= i < |tasks| && 0 <= j < |tasks| && i != j ensures tasks[i] != tasks[j] {
        NoAlias(i);
      }
      ListsRunning(values, mem.tasks);
      IdleIdsIdle(values, mem.tasks);
      started := StartWorkers(tasks);
      mem := LaunchOp(mem);
    }

    /** Sizes and reservation of a job, once the metadata is there. */
    method MeasureJob(j: Job, info: Info) returns (r: Option<(int64, int64)>)
      ensures r == Measured(j, info)
      ensures r.Some? && j.selected == None ==> r.value.0 as int == Total(Lengths(info.files))
      ensures r.Some? && j.selected.Some? ==>
                && (forall x :: x in j.selected.value ==> 0 <= x < |info.files|)
                && r.value.0 as int == Total(Pick(Lengths(info.files), j.selected.value))
    {
      var indexes := SelectedIndexesLoop(j.selected, |info.files|);
      if indexes == None || |info.files| > MAX_INT64 {
        return None;
      }
      var safe := CheckNames(info, config.clean);
      if !safe {
        return None;
      }
      assert j.selected == None ==> Pick(Lengths(info.files), indexes.value) == Lengths(info.files);
      var size := SelectedSizeLoop(Lengths(info.files), indexes.value);
      if size == None {
        return None;
      }
      var reserve := Reserve(info.full, size.value, j.zipped, |info.files| as int64);
      r := if reserve == None then None else Some((size.value, reserve.value));
    }

    method RecordSizes(k: int, info: Info) returns (ok: bool)
      requires Valid() && 0 <= k < |tasks|
      modifies this`mem, tasks[k]
      ensures Valid() && tasks[k].job.id == old(tasks[k].job.id) && tasks[k].job.id in old(mem).tasks
      ensures (mem, ok) == MeasureOp(config, old(mem), tasks[k].job.id, info)
      ensures ok && tasks[k].job.selected == None ==> tasks[k].job.size == Total(Lengths(info.files))
      ensures ok && tasks[k].job.selected.Some? ==>
                && (forall x :: x in tasks[k].job.selected.value ==> 0 <= x < |info.files|)
                && tasks[k].job.size == Total(Pick(Lengths(info.files), tasks[k].job.selected.value))
    {
      NoAlias(k);
      hide Lists, Measured;
      var j := tasks[k].job;
      var sizes := MeasureJob(j, info);
      if sizes == None {
        return false;
      }
      Assign(k, j.(name := config.text(info.name), size := sizes.value.0 as int, reserved := sizes.value.1 as int));
      ok := sizes.value.1 <= config.maxActive;
    }

    method Charge(bytes: int)
      requires Valid()
      modifies this`mem, this`activeBytes
      ensures Valid() && mem == old(mem).(active := old(mem).active + bytes)
    {
      hide Lists;
      activeBytes := activeBytes + bytes;
      mem := mem.(active := mem.active + bytes);
    }

    /** The task at position `k` holds its reservation from now on. */
    method AdmitTask(k: int)
      requires Valid() && 0 <= k < |tasks|
      modifies this`mem, this`activeBytes, tasks[k]
      ensures Valid() && tasks[k].job == old(tasks[k].job) && tasks[k].job.id in old(mem).tasks
      ensures mem == AdmitOp(old(mem), tasks[k].job.id)
    {
      hide Lists, TaskValues;
      NoAlias(k);
      Charge(tasks[k].job.reserved);
      Overwrite(k, tasks[k].job, tasks[k].running, true);
    }

    /**
     The capacity check, under the mutex: the outstanding bytes of every admitted
     task and of the candidate are added up until one cannot be inspected or the
     sum leaves the range. `free` is missing when the file system does not answer.
     */
    method TryReserve(k: int, free: Option<nat>, listings: Id -> Listing) returns (decision: Decision)
      requires Valid() && 0 <= k < |tasks|
      modifies this`mem, this`activeBytes, tasks[k]
      ensures Valid() && tasks[k].job == old(tasks[k].job) && tasks[k].job.id in old(mem).tasks
      ensures var id, onDisk := tasks[k].job.id, Measurements(old(mem).tasks, listings);
              var blind := Unmeasurable(old(mem).tasks, id, listings);
              var need := Sum(Obligations(old(mem).tasks, id, onDisk));
              var fits := old(mem).active + tasks[k].job.reserved <= config.maxActive as int;
              && (decision == Refuse <==> free == None || blind || need > MAX_INT64)
              && (decision == Admit <==> free.Some? && !blind && need <= MAX_INT64 && fits && need <= free.value)
              && (decision == Wait <==> free.Some? && !blind && need <= MAX_INT64 && !(fits && need <= free.value))
      ensures var onDisk := Measurements(old(mem).tasks, listings);
              decision == if free == None || !Inspected(old(mem).tasks, tasks[k].job.id, onDisk) then Refuse
                          else Decide(config, old(mem), tasks[k].job.id, free.value, onDisk)
      ensures mem == if decision == Admit then AdmitOp(old(mem), tasks[k].job.id) else old(mem)
    {
      NoAlias(k);
      var id := tasks[k].job.id;
      hide Lists, TaskValues, Obligations, Sum, Inspected, Measurements, Needed, Unmeasurable;
      NeededExact(mem.tasks, id, listings);
      if free == None {
        return Refuse;
      }
      var need := Outstanding(id, listings);
      if need == None {
        return Refuse;
      }
      if activeBytes <= config.maxActive as int - tasks[k].job.reserved && need.value <= free.value {
        AdmitTask(k);
        return Admit;
      }
      decision := Wait;
    }

    /** The loop that adds up what the admitted tasks and the candidate may still write. */
    method Outstanding(id: Id, listings: Id -> Listing) returns (need: Option<int>)
      requires Valid()
      ensures need == Needed(mem.tasks, id, Measurements(mem.tasks, listings))
    {
      hide Lists, Needed, TaskValues, Remaining, Measurements, Allocated;
      ghost var values, onDisk := TaskValues(tasks), Measurements(mem.tasks, listings);
      ScanNeeded(values, mem.tasks, id, onDisk);
      var sum := 0;
      for k := 0 to |tasks|
        invariant Scan(values, id, onDisk, k) == Some(sum)
      {
        var other := tasks[k];
        assert other.Value() == values[k];
        if other.job.id == id || other.reserved {
          var total := AllocatedBytes(listings(other.job.id).walk, listings(other.job.id).blocks);
          ListsAt(values, mem.tasks, k);
          MeasuredAt(mem.tasks, listings, other.job.id);
          if total == None {
            ScanStops(values, id, onDisk, k + 1);
            return None;
          }
          var remaining := Remaining(other.job.reserved, total.value as int);
          if sum > MAX_INT64 - remaining {
            ScanStops(values, id, onDisk, k + 1);
            return None;
          }
          sum := sum + remaining;
        }
      }
      need := Some(sum);
    }

    /** The worker's own task leaves the list; the loop finds it by identity. */
    method Remove(k: int)
      requires Valid() && 0 <= k < |tasks|
      modifies this
      ensures Valid() && activeBytes == old(activeBytes) && store == old(store)
      ensures old(tasks)[k].job.id in old(mem).tasks
      ensures mem == old(mem).(tasks := old(mem).tasks - {old(tasks)[k].job.id})
      ensures old(tasks)[k] !in tasks
    {
      NoAlias(k);
      ListsRemove(TaskValues(tasks), mem.tasks, k);
      var t, i := tasks[k], 0;
      while tasks[i] != t
        invariant 0 <= i <= k && tasks == old(tasks) && mem == old(mem)
        decreases k - i
      {
        i := i + 1;
      }
      assert i == k;
      hide Lists;
      assert TaskValues(tasks[..k] + tasks[k + 1..]) == TaskValues(tasks)[..k] + TaskValues(tasks)[k + 1..];
      mem := mem.(tasks := mem.tasks - {t.job.id});
      tasks := tasks[..k] + tasks[k + 1..];
    }

    /** A finished task leaves the list and gives its reservation back. */
    method Leave(k: int)
      requires Valid() && 0 <= k < |tasks|
      modifies this, tasks[k]
      ensures Valid() && store == old(store)
      ensures var t := old(tasks[k].Value());
              mem == old(mem).(tasks := old(mem).tasks - {t.job.id},
                               active := if t.reserved then old(mem).active - t.job.reserved else old(mem).active)
    {
      var t := tasks[k];
      Remove(k);
      hide Lists, TaskValues;
      ghost var values := TaskValues(tasks);
      if t.reserved {
        activeBytes := activeBytes - t.job.reserved;
        mem := mem.(active := mem.active - t.job.reserved);
        t.reserved := false;
      }
      assert TaskValues(tasks) == values;
    }

    /** Terminal state in memory and in the row, then delete and count. */
    method Finish(k: int, status: Stage, saveFault: Fault, finishFault: Fault, day: int) returns (ok: bool)
      requires Valid() && store != null && 0 <= k < |tasks|
      modifies this, tasks[k], store
      ensures Valid() && store == old(store) && old(tasks[k].job.id) in old(mem).tasks
      ensures (mem, store.Contents(), ok) ==
              FinishOp(old(mem), old(store.Contents()), old(tasks[k].job.id), status, saveFault, finishFault, day)
    {
      NoAlias(k);
      var j := tasks[k].job.(status := status, stage := status);
      FinishSplits(mem, store.Contents(), j.id, status, saveFault, finishFault, day);
      hide Lists, TaskValues, CloseRowOp, FinishOp, Settled;
      var out := CloseRow(j, status, saveFault, finishFault, day);
      ok := out == Ok;
      Settle(k, j, ok);
    }

    /** The task object after a finish: gone, or terminal and waiting for another worker. */
    method Settle(k: int, j: Job, ok: bool)
      requires Valid() && 0 <= k < |tasks| && tasks[k].job.id == j.id && tasks[k].job.reserved == j.reserved
      modifies this, tasks[k]
      ensures Valid() && store == old(store) && j.id in old(mem).tasks
      ensures mem == Settled(old(mem), j.id, j, ok)
    {
      NoAlias(k);
      hide Lists, TaskValues;
      if ok {
        Leave(k);
      } else {
        Overwrite(k, j, false, tasks[k].reserved);
      }
    }

    /** A missing row is no reason to give up: an earlier delete may have been lost on the way back. */
    method CloseRow(j: Job, status: Stage, saveFault: Fault, finishFault: Fault, day: int) returns (out: Outcome)
      requires Valid() && store != null
      modifies store
      ensures Valid()
      ensures (store.Contents(), out) == CloseRowOp(old(store.Contents()), j, status, saveFault, finishFault, day)
    {
      hide SaveRow, FinishRow;
      ghost var values := TaskValues(tasks);
      out := store.Save(j, saveFault);
      if out == Ok || out == NoRows {
        out := store.Finish(j, status, day, finishFault);
      }
      assert TaskValues(tasks) == values;
    }
  }
}
