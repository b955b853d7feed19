/**
 The durable half of the queue: the Download_Jobs and Download_Metrics tables
 and the four operations on them. Every operation may fail in two ways: the
 statement was lost before it took effect, or it took effect and only its reply
 was lost. A caller sees the same error in both cases.
 */
module JobStore {
  import opened Wrappers

  type Id = Text

  datatype Stage =
    | Pending
    | Started
    | Downloading
    | Zipping
    | Uploading
    | Completed
    | Failed
    | Stopped

  predicate Terminal(s: Stage) {
    s == Stopped || s == Failed || s == Completed
  }

  datatype Job = Job(
    id: Id,
    infoHash: Text,
    magnet: Text,
    name: Text,
    status: Stage,
    stage: Stage,
    userID: Text,
    zipped: bool,
    selected: Option<seq<int>>,
    size: int,
    reserved: int)

  datatype MetricKey = MetricKey(day: int, status: Stage)

  datatype Metric = Metric(jobs: int, bytes: int)

  datatype Db = Db(rows: map<Id, Job>, metrics: map<MetricKey, Metric>)

  /** What the caller of a store call sees. */
  datatype Outcome = Ok | NoRows | Error

  function Reply(fault: Fault, out: Outcome): Outcome {
    if fault == NoFault then out else Error
  }

  /** INSERT: refused by the primary key and by the unique key on Info_Hash. */
  function CreateRow(db: Db, j: Job, fault: Fault): (Db, Outcome) {
    if j.id in db.rows || exists id :: id in db.rows && db.rows[id].infoHash == j.infoHash then (db, Error)
    else if fault == Lost then (db, Error)
    else (db.(rows := db.rows[j.id := j]), Reply(fault, Ok))
  }

  /** The columns an UPDATE writes; hash, magnet, owner and ZIP flag never change. */
  function Updated(row: Job, j: Job): Job {
    row.(name := j.name, status := j.status, stage := j.stage, selected := j.selected,
         size := j.size, reserved := j.reserved)
  }

  function SaveRow(db: Db, j: Job, fault: Fault): (Db, Outcome) {
    if fault == Lost then (db, Error)
    else if j.id in db.rows then
      (db.(rows := db.rows[j.id := Updated(db.rows[j.id], j)]), Reply(fault, Ok))
    else (db, Reply(fault, NoRows))
  }

  function Counted(metrics: map<MetricKey, Metric>, key: MetricKey, bytes: int): map<MetricKey, Metric> {
    if key in metrics then metrics[key := Metric(metrics[key].jobs + 1, metrics[key].bytes + bytes)]
    else metrics[key := Metric(1, bytes)]
  }

  function JobsCounted(db: Db, key: MetricKey): int {
    if key in db.metrics then db.metrics[key].jobs else 0
  }

  function BytesCounted(db: Db, key: MetricKey): int {
    if key in db.metrics then db.metrics[key].bytes else 0
  }

  /** DELETE plus metric upsert in one transaction; a missing row counts nothing. */
  function FinishRow(db: Db, j: Job, status: Stage, day: int, fault: Fault): (Db, Outcome) {
    if !Terminal(status) || fault == Lost then (db, Error)
    else if j.id !in db.rows then (db, Reply(fault, Ok))
    else
      (Db(db.rows - {j.id}, Counted(db.metrics, MetricKey(day, status), j.size)), Reply(fault, Ok))
  }

  function RowsIn(db: Db, order: seq<Id>): seq<Job>
    requires forall i :: 0 <= i < |order| ==> order[i] in db.rows
  {
    seq(|order|, i requires 0 <= i < |order| => db.rows[order[i]])
  }

  class Store {
    var rows: map<Id, Job>
    var metrics: map<MetricKey, Metric>

    function Contents(): Db
      reads this
    {
      Db(rows, metrics)
    }

    /** Rows are found under their own IDs. */
    ghost predicate Valid()
      reads this
    {
      forall id :: id in rows ==> rows[id].id == id
    }

    constructor ()
      ensures Valid() && rows == map[] && metrics == map[]
    {
      rows, metrics := map[], map[];
    }

    method Create(j: Job, fault: Fault) returns (out: Outcome)
      modifies this
      ensures (Contents(), out) == CreateRow(old(Contents()), j, fault)
      ensures old(Valid()) ==> Valid()
    {
      out := Error;
      if j.id in rows || exists id :: id in rows && rows[id].infoHash == j.infoHash {
        return;
      }
      if fault != Lost {
        rows := rows[j.id := j];
        out := if fault == NoFault then Ok else Error;
      }
    }

    /** ORDER BY Created_At: which order that is, is not part of the model. */
    method Active(fault: Fault) returns (out: Outcome, jobs: seq<Job>, ghost order: seq<Id>)
      ensures out == Reply(fault, Ok)
      ensures fault == NoFault ==> Enumerates(order, rows.Keys) && jobs == RowsIn(Contents(), order)
    {
      out, jobs, order := if fault == NoFault then Ok else Error, [], [];
      if out == Error {
        return;
      }
      var rest: set<Id> := rows.Keys;
      hide Enumerates;
      EnumeratesNone<Id>();
      assert rows.Keys - rest == {};
      while rest != {}
        invariant rest <= rows.Keys && Enumerates(order, rows.Keys - rest)
        invariant forall i :: 0 <= i < |order| ==> order[i] in rows
        invariant jobs == RowsIn(Contents(), order)
        decreases |rest|
      {
        var id := Choose(rest);
        EnumeratesNext(order, rows.Keys - rest, id);
        rest := rest - {id};
        assert rows.Keys - rest == rows.Keys - (rest + {id}) + {id};
        jobs, order := jobs + [rows[id]], order + [id];
      }
      assert rows.Keys - rest == rows.Keys;
    }

    method Save(j: Job, fault: Fault) returns (out: Outcome)
      modifies this
      ensures (Contents(), out) == SaveRow(old(Contents()), j, fault)
      ensures old(Valid()) ==> Valid()
    {
      if fault == Lost {
        return Error;
      }
      var affected := 0;
      if j.id in rows {
        affected := if rows[j.id] == Updated(rows[j.id], j) then 0 else 1;
        rows := rows[j.id := Updated(rows[j.id], j)];
      }
      out := Ok;
      if affected == 0 && j.id !in rows {
        out := NoRows;
      }
      if fault == LostReply {
        out := Error;
      }
    }

    method Finish(j: Job, status: Stage, day: int, fault: Fault) returns (out: Outcome)
      modifies this
      ensures (Contents(), out) == FinishRow(old(Contents()), j, status, day, fault)
      ensures old(Valid()) ==> Valid()
    {
      if !Terminal(status) {
        return Error;
      }
      // The transaction works on its own view; only commit makes it visible.
      var txRows, txMetrics := rows, metrics;
      if j.id in txRows {
        txRows := txRows - {j.id};
        var key := MetricKey(day, status);
        if key in txMetrics {
          txMetrics := txMetrics[key := Metric(txMetrics[key].jobs + 1, txMetrics[key].bytes + j.size)];
        } else {
          txMetrics := txMetrics[key := Metric(1, j.size)];
        }
      }
      if fault != Lost {
        rows, metrics := txRows, txMetrics;
      }
      out := if fault == NoFault then Ok else Error;
    }
  }
}
