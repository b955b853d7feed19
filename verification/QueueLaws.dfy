/**
 The operations of the queue in plain terms: when each of them succeeds, what it
 answers, and what it changes, field by field.
 */
module QueueLaws {
  import opened JobStore
  import opened QueueOps
  import opened Reservation
  import opened Sums
  import opened Wrappers

  /** Before the metadata is there any file numbers will do, if they are distinct. */
  lemma SelectionExact(selected: Option<seq<int>>)
    ensures AddableSelection(selected) <==>
              match selected
              case None => true
              case Some(s) =>
                && s != [] && (forall i :: 0 <= i < |s| ==> s[i] >= 0)
                && forall i, k :: 0 <= i < k < |s| ==> s[i] != s[k]
  {
  }

  /** What a request must fulfil before it reaches the store. */
  lemma AcceptableExact(c: Config, mem: Mem, req: Request)
    ensures var magnet := c.parse(req.magnet);
            Acceptable(c, mem, req) <==>
              && magnet.Some? && mem.configured && |mem.tasks| < 10 && AddableSelection(req.selected)
              && forall o :: o in mem.tasks ==> mem.tasks[o].job.infoHash != magnet.value.hash
  {
  }

  /** An insert takes effect exactly then; it is acknowledged unless its reply is lost. */
  lemma CreateExact(db: Db, j: Job, fault: Fault)
    ensures var (db', out) := CreateRow(db, j, fault);
            var takes := j.id !in db.rows && forall o :: o in db.rows ==> db.rows[o].infoHash != j.infoHash;
            && out == (if takes && fault == NoFault then Ok else Error)
            && db' == if takes && fault != Lost then db.(rows := db.rows[j.id := j]) else db
  {
  }

  /** A request is accepted exactly then, and becomes this job; an insert whose reply is lost leaves its row. */
  lemma AddExact(c: Config, mem: Mem, db: Db, req: Request, id: Id, fault: Fault)
    ensures var (mem', db', ok) := AddOp(c, mem, db, req, id, fault);
            var magnet := c.parse(req.magnet);
            var takes := magnet.Some? && mem.configured && |mem.tasks| < 10 && AddableSelection(req.selected)
                         && (forall o :: o in mem.tasks ==> mem.tasks[o].job.infoHash != magnet.value.hash)
                         && id !in db.rows && forall o :: o in db.rows ==> db.rows[o].infoHash != magnet.value.hash;
            && (ok <==> takes && fault == NoFault)
            && (!takes ==> db' == db) && (!ok ==> mem' == mem)
            && (takes ==>
                  var j := Job(id, magnet.value.hash, req.magnet, magnet.value.name, Pending, Pending, req.userID,
                               req.zipped, req.selected, 0, 0);
                  && db' == (if fault == Lost then db else db.(rows := db.rows[id := j]))
                  && (ok ==> mem' == mem.(tasks := mem.tasks[id := Task(j, false, false)])))
  {
    hide AddableSelection, Acceptable;
    AcceptableExact(c, mem, req);
  }

  /** A stop is acknowledged exactly then, and changes status and stage of this job. */
  lemma StopExact(mem: Mem, db: Db, id: Id, user: Text, owned: bool, fault: Fault)
    requires forall o :: o in mem.tasks ==> mem.tasks[o].job.id == o
    ensures var (mem', db', ok) := StopOp(mem, db, id, user, owned, fault);
            var takes := id in mem.tasks && (owned ==> user != EMPTY && mem.tasks[id].job.userID == user)
                         && mem.tasks[id].job.status !in {Stopped, Failed, Completed}
                         && mem.tasks[id].job.stage !in {Uploading, Zipping} && id in db.rows;
            && (ok <==> takes && fault == NoFault)
            && (ok ==>
                  var t := mem.tasks[id];
                  mem' == mem.(tasks := mem.tasks[id := t.(job := t.job.(status := Stopped, stage := Stopped))]))
            && (!ok ==> mem' == mem)
            && (!takes || fault == Lost ==> db' == db)
            && db'.rows.Keys == db.rows.Keys && db'.metrics == db.metrics
            && (forall o :: o in db.rows && o != id ==> db'.rows[o] == db.rows[o])
            && (takes && fault != Lost ==>
                  && db'.rows[id].status == db'.rows[id].stage == Stopped
                  && db'.rows[id].size == mem.tasks[id].job.size
                  && db'.rows[id].reserved == mem.tasks[id].job.reserved)
  {
  }

  /** The three answers of a capacity check. */
  lemma DecideExact(c: Config, mem: Mem, id: Id, free: nat, onDisk: map<Id, nat>)
    requires id in mem.tasks && Inspected(mem.tasks, id, onDisk)
    ensures var need := Sum(map o | o in mem.tasks && (o == id || mem.tasks[o].reserved) ::
                              if onDisk[o] >= mem.tasks[o].job.reserved then 0
                              else mem.tasks[o].job.reserved - onDisk[o]);
            var fits := mem.active + mem.tasks[id].job.reserved <= c.maxActive as int && need <= free;
            var answer := Decide(c, mem, id, free, onDisk);
            && (answer == Refuse <==> need > MAX_INT64)
            && (answer == Admit <==> need <= MAX_INT64 && fits)
            && (answer == Wait <==> need <= MAX_INT64 && !fits)
  {
    hide Sum;
    assert Obligations(mem.tasks, id, onDisk) ==
           map o | o in mem.tasks && (o == id || mem.tasks[o].reserved) ::
             if onDisk[o] >= mem.tasks[o].job.reserved then 0 else mem.tasks[o].job.reserved - onDisk[o];
  }

  /** A list of distinct file numbers. */
  ghost predicate FileNumbers(indexes: seq<int>, count: nat) {
    && indexes != [] && (forall i :: 0 <= i < |indexes| ==> 0 <= indexes[i] < count)
    && forall i, k :: 0 <= i < k < |indexes| ==> indexes[i] != indexes[k]
  }

  function Chosen(selection: Option<seq<int>>, count: nat): seq<int> {
    if selection.Some? then selection.value else Range(count)
  }

  lemma IndexesExact(selection: Option<seq<int>>, count: nat)
    ensures SelectedIndexes(selection, count) ==
            if FileNumbers(Chosen(selection, count), count) then Some(Chosen(selection, count)) else None
    ensures FileNumbers(Chosen(selection, count), count) ==>
              forall i :: 0 <= i < |Chosen(selection, count)| ==> 0 <= Chosen(selection, count)[i] < count
  {
  }

  lemma SizeExact(lengths: seq<int64>, indexes: seq<int>)
    requires forall i :: 0 <= i < |indexes| ==> 0 <= indexes[i] < |lengths|
    ensures SelectedSize(lengths, indexes).Some? <==>
              && (forall i :: 0 <= i < |indexes| ==> lengths[indexes[i]] >= 0)
              && Total(Pick(lengths, indexes)) <= MAX_INT64
    ensures SelectedSize(lengths, indexes).Some? ==>
              SelectedSize(lengths, indexes).value as int == Total(Pick(lengths, indexes))
  {
    var picked := Pick(lengths, indexes);
    assert NonNegative(picked) <==> forall i :: 0 <= i < |indexes| ==> lengths[indexes[i]] >= 0 by {
      forall i | 0 <= i < |indexes| ensures picked[i] == lengths[indexes[i]] {
      }
    }
  }

  /** The worker goes on with a torrent exactly then. */
  lemma MeasuredExact(j: Job, info: Info)
    ensures var lengths, indexes := Lengths(info.files), Chosen(j.selected, |info.files|);
            Measured(j, info).Some? <==>
              && |info.files| <= MAX_INT64 && SafeInfo(info) && FileNumbers(indexes, |info.files|)
              && (forall i :: 0 <= i < |indexes| ==> lengths[indexes[i]] >= 0)
              && var size := Total(Pick(lengths, indexes));
                 && 0 <= size <= info.full as int
                 && info.full as int + 16 * 1024 * 1024 + 8192 * |info.files|
                    + (if j.zipped then size + size / 20 else 0) <= MAX_INT64
  {
    hide Total, SafeInfo, Reserve, SelectedIndexes, SelectedSize, Lengths, Range, FileNumbers, Chosen;
    var lengths, indexes := Lengths(info.files), Chosen(j.selected, |info.files|);
    IndexesExact(j.selected, |info.files|);
    if FileNumbers(indexes, |info.files|) {
      SizeExact(lengths, indexes);
      if SelectedSize(lengths, indexes).Some? && |info.files| <= MAX_INT64 {
        ReserveExact(info.full, SelectedSize(lengths, indexes).value, j.zipped, |info.files| as int64);
      }
    }
  }

  /** Without a selection every file counts, so the size of the job is that of the torrent. */
  lemma WholeTorrent(j: Job, info: Info)
    requires j.selected == None
    ensures Measured(j, info).Some? ==> Measured(j, info).value.0 as int == Total(Lengths(info.files))
    ensures Measured(j, info).Some? && info.full as int == Total(Lengths(info.files)) ==>
              Measured(j, info).value.0 == info.full
  {
    var lengths := Lengths(info.files);
    assert Pick(lengths, Range(|info.files|)) == lengths;
  }

  /** With a selection exactly the selected files count. */
  lemma SelectedFiles(j: Job, info: Info)
    requires j.selected.Some? && Measured(j, info).Some?
    ensures forall i :: 0 <= i < |j.selected.value| ==> 0 <= j.selected.value[i] < |info.files|
    ensures Measured(j, info).value.0 as int == Total(Pick(Lengths(info.files), j.selected.value))
  {
  }

  /** What the metadata adds to the record of a job. */
  lemma MeasureExact(c: Config, mem: Mem, id: Id, info: Info)
    requires id in mem.tasks
    ensures var (mem', ok) := MeasureOp(c, mem, id, info);
            var t, measured := mem.tasks[id], Measured(mem.tasks[id].job, info);
            && (ok <==> measured.Some? && measured.value.1 <= c.maxActive)
            && (measured == None ==> mem' == mem)
            && (measured.Some? ==>
                  mem' == mem.(tasks := mem.tasks[id := t.(job := t.job.(
                    name := c.text(info.name), size := measured.value.0 as int, reserved := measured.value.1 as int))]))
            && (measured.Some? ==>
                  measured.value.1 as int ==
                  info.full as int + 16 * 1024 * 1024 + 8192 * |info.files|
                  + if t.job.zipped then measured.value.0 as int + measured.value.0 as int / 20 else 0)
  {
    var j := mem.tasks[id].job;
    if Measured(j, info).Some? {
      ReserveExact(info.full, Measured(j, info).value.0, j.zipped, |info.files| as int64);
    }
  }

  /** A stage is recorded exactly then, in task and row alike. */
  lemma SaveExact(mem: Mem, db: Db, id: Id, stage: Stage, fault: Fault)
    requires id in mem.tasks && mem.tasks[id].job.id == id
    ensures var (mem', db', ok) := SaveStageOp(mem, db, id, stage, fault);
            var t := mem.tasks[id];
            && (ok <==> t.job.status != Stopped && id in db.rows && fault == NoFault)
            && mem' == (if ok then mem.(tasks := mem.tasks[id := t.(job := t.job.(status := stage, stage := stage))])
                        else mem)
            && db'.rows.Keys == db.rows.Keys && db'.metrics == db.metrics
            && (forall o :: o in db.rows && o != id ==> db'.rows[o] == db.rows[o])
            && (id in db.rows ==>
                  if t.job.status == Stopped || fault == Lost then db'.rows[id] == db.rows[id]
                  else
                    var row, row' := db.rows[id], db'.rows[id];
                    && row'.status == row'.stage == stage
                    && row'.name == t.job.name && row'.selected == t.job.selected
                    && row'.size == t.job.size && row'.reserved == t.job.reserved
                    && row'.id == row.id && row'.infoHash == row.infoHash && row'.magnet == row.magnet
                    && row'.userID == row.userID && row'.zipped == row.zipped)
  {
  }

  /** A save changes one row, and neither inserts nor counts anything. */
  lemma SaveRowExact(db: Db, j: Job, fault: Fault)
    ensures var (db', out) := SaveRow(db, j, fault);
            && out == (if fault != NoFault then Error else if j.id in db.rows then Ok else NoRows)
            && db'.rows.Keys == db.rows.Keys && db'.metrics == db.metrics
            && (forall k :: JobsCounted(db', k) == JobsCounted(db, k) && BytesCounted(db', k) == BytesCounted(db, k))
            && (forall o :: o in db.rows && o != j.id ==> db'.rows[o] == db.rows[o])
            && (j.id in db.rows ==>
                  if fault == Lost then db'.rows[j.id] == db.rows[j.id]
                  else db'.rows[j.id].status == j.status && db'.rows[j.id].stage == j.stage)
  {
  }

  /** Delete and count take effect together. */
  lemma FinishRowExact(db: Db, j: Job, status: Stage, day: int, fault: Fault)
    requires status in {Stopped, Failed, Completed}
    ensures var (db', out) := FinishRow(db, j, status, day, fault);
            var counts := j.id in db.rows && fault != Lost;
            && out == (if fault == NoFault then Ok else Error)
            && db'.rows == (if counts then db.rows - {j.id} else db.rows)
            && (forall k :: JobsCounted(db', k) ==
                            JobsCounted(db, k) + if counts && k == MetricKey(day, status) then 1 else 0)
            && forall k :: BytesCounted(db', k) ==
                           BytesCounted(db, k) + if counts && k == MetricKey(day, status) then j.size else 0
  {
  }

  /** The end of a job: both statements must work; the row is deleted and counted together. */
  lemma FinishExact(mem: Mem, db: Db, id: Id, status: Stage, saveFault: Fault, finishFault: Fault, day: int)
    requires id in mem.tasks && mem.tasks[id].job.id == id && status in {Stopped, Failed, Completed}
    ensures var (mem', db', ok) := FinishOp(mem, db, id, status, saveFault, finishFault, day);
            var t, key := mem.tasks[id], MetricKey(day, status);
            var counts := id in db.rows && saveFault == NoFault && finishFault != Lost;
            && (ok <==> saveFault == NoFault && finishFault == NoFault)
            && mem' == (if ok then mem.(tasks := mem.tasks - {id},
                                        active := mem.active - if t.reserved then t.job.reserved else 0)
                        else mem.(tasks := mem.tasks[id := Task(t.job.(status := status, stage := status), false,
                                                                t.reserved)]))
            && db'.rows.Keys == db.rows.Keys - (if counts then {id} else {})
            && (forall o :: o in db.rows && o != id ==> db'.rows[o] == db.rows[o])
            && (id in db'.rows ==>
                  if saveFault == Lost then db'.rows[id] == db.rows[id]
                  else db'.rows[id].status == db'.rows[id].stage == status)
            && (forall k :: JobsCounted(db', k) == JobsCounted(db, k) + if counts && k == key then 1 else 0)
            && forall k :: BytesCounted(db', k) == BytesCounted(db, k) + if counts && k == key then t.job.size else 0
  {
    hide JobsCounted, BytesCounted, FinishRow, SaveRow;
    var j := WithStage(mem.tasks[id].job, status);
    SaveRowExact(db, j, saveFault);
    FinishRowExact(SaveRow(db, j, saveFault).0, j, status, day, finishFault);
  }

  /** One unsound or duplicate row rejects them all. */
  lemma ConfigureExact(c: Config, mem: Mem, rows: seq<Job>)
    ensures ConfigureOp(c, mem, Some(rows)).1 <==>
              && !mem.configured
              && (forall i :: 0 <= i < |rows| ==>
                    && c.canonical(rows[i].id) && c.parse(rows[i].magnet).Some?
                    && c.parse(rows[i].magnet).value.hash == rows[i].infoHash)
              && forall i, k :: 0 <= i < k < |rows| ==> rows[i].infoHash != rows[k].infoHash
    ensures ConfigureOp(c, mem, None) == (mem, false)
    ensures !ConfigureOp(c, mem, Some(rows)).1 ==> ConfigureOp(c, mem, Some(rows)).0 == mem
    ensures ConfigureOp(c, mem, Some(rows)).1 ==>
              ConfigureOp(c, mem, Some(rows)).0.configured && ConfigureOp(c, mem, Some(rows)).0.active == mem.active
  {
    hide RecoveredTasks;
  }
}
