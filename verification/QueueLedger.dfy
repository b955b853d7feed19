/** Exactly-once accounting: the metric counters are sums over the deleted rows. */
module QueueLedger {
  import opened JobStore
  import opened QueueInvariant
  import opened QueueOps
  import opened QueueProtocol
  import opened QueueQuiet
  import opened QueueSafety
  import opened Sums
  import opened Wrappers

  function MetricAt(metrics: map<MetricKey, Metric>, key: MetricKey): Metric {
    if key in metrics then metrics[key] else Metric(0, 0)
  }

  function JobsWith(removed: map<Id, Removal>, key: MetricKey): map<Id, int> {
    map id | id in removed && removed[id].key == key :: 1
  }

  function SizesWith(removed: map<Id, Removal>, key: MetricKey): map<Id, int> {
    map id | id in removed && removed[id].key == key :: removed[id].size
  }

  function Sizes(removed: map<Id, Removal>): map<Id, int> {
    map id | id in removed :: removed[id].size
  }

  function Jobs(metrics: map<MetricKey, Metric>): map<MetricKey, int> {
    map key | key in metrics :: metrics[key].jobs
  }

  function Bytes(metrics: map<MetricKey, Metric>): map<MetricKey, int> {
    map key | key in metrics :: metrics[key].bytes
  }

  /** A counter counts the rows deleted under its day and status, and their sizes. */
  ghost predicate Agrees(metrics: map<MetricKey, Metric>, removed: map<Id, Removal>, key: MetricKey) {
    MetricAt(metrics, key) == Metric(Sum(JobsWith(removed, key)), Sum(SizesWith(removed, key)))
  }

  ghost predicate Totals(metrics: map<MetricKey, Metric>, removed: map<Id, Removal>) {
    Sum(Jobs(metrics)) == |removed| && Sum(Bytes(metrics)) == Sum(Sizes(removed))
  }

  ghost predicate Ledger(metrics: map<MetricKey, Metric>, removed: map<Id, Removal>) {
    Totals(metrics, removed) && forall key :: Agrees(metrics, removed, key)
  }

  lemma CountedAt(metrics: map<MetricKey, Metric>, removed: map<Id, Removal>, id: Id, key: MetricKey, size: int,
                  k: MetricKey)
    requires Agrees(metrics, removed, k) && id !in removed
    ensures Agrees(Counted(metrics, key, size), removed[id := Removal(key, size)], k)
  {
    hide Sum;
    var removed' := removed[id := Removal(key, size)];
    if k == key {
      SumInsert(JobsWith(removed, k), id, 1);
      SumInsert(SizesWith(removed, k), id, size);
      assert JobsWith(removed', k) == JobsWith(removed, k)[id := 1];
      assert SizesWith(removed', k) == SizesWith(removed, k)[id := size];
    } else {
      assert JobsWith(removed', k) == JobsWith(removed, k);
      assert SizesWith(removed', k) == SizesWith(removed, k);
    }
  }

  lemma CountedSums(metrics: map<MetricKey, Metric>, key: MetricKey, size: int)
    ensures Sum(Jobs(Counted(metrics, key, size))) == Sum(Jobs(metrics)) + 1
    ensures Sum(Bytes(Counted(metrics, key, size))) == Sum(Bytes(metrics)) + size
  {
    hide Sum;
    var metrics' := Counted(metrics, key, size);
    assert Jobs(metrics') == Jobs(metrics)[key := metrics'[key].jobs];
    assert Bytes(metrics') == Bytes(metrics)[key := metrics'[key].bytes];
    if key in metrics {
      SumUpdate(Jobs(metrics), key, metrics'[key].jobs);
      SumUpdate(Bytes(metrics), key, metrics'[key].bytes);
    } else {
      SumInsert(Jobs(metrics), key, 1);
      SumInsert(Bytes(metrics), key, size);
    }
  }

  lemma CountedTotals(metrics: map<MetricKey, Metric>, removed: map<Id, Removal>, id: Id, key: MetricKey, size: int)
    requires Totals(metrics, removed) && id !in removed
    ensures Totals(Counted(metrics, key, size), removed[id := Removal(key, size)])
  {
    var removed' := removed[id := Removal(key, size)];
    SumInsert(Sizes(removed), id, size);
    assert Sizes(removed') == Sizes(removed)[id := size];
    CountedSums(metrics, key, size);
    hide Counted, Sum, Jobs, Bytes, Sizes;
  }

  lemma CountedLedger(metrics: map<MetricKey, Metric>, removed: map<Id, Removal>, id: Id, key: MetricKey, size: int)
    requires Ledger(metrics, removed) && id !in removed
    ensures Ledger(Counted(metrics, key, size), removed[id := Removal(key, size)])
  {
    CountedTotals(metrics, removed, id, key, size);
    hide Totals, Agrees;
    var metrics', removed' := Counted(metrics, key, size), removed[id := Removal(key, size)];
    forall k ensures Agrees(metrics', removed', k) {
      CountedAt(metrics, removed, id, key, size, k);
    }
  }

  /** A row is only deleted after its job was saved, so its size is the one counted. */
  lemma FinishLedger(s: State, w: nat, saveFault: Fault, finishFault: Fault, day: int)
    requires Ledger(s.db.metrics, s.hist.removed)
    requires w < |s.workers| && s.workers[w].pc.Finishing? && s.workers[w].id in s.mem.tasks
    requires s.mem.tasks[s.workers[w].id].job.id == s.workers[w].id
    requires s.workers[w].id in s.db.rows ==> s.workers[w].id !in s.hist.removed
    ensures var s' := FinishStep(s, w, saveFault, finishFault, day); Ledger(s'.db.metrics, s'.hist.removed)
  {
    var s' := FinishStep(s, w, saveFault, finishFault, day);
    var id, outcome := s.workers[w].id, s.workers[w].pc.outcome;
    var j := WithStage(s.mem.tasks[id].job, outcome);
    var (mem, db, ok) := FinishOp(s.mem, s.db, id, outcome, saveFault, finishFault, day);
    if id in s.db.rows && id !in db.rows {
      CountedLedger(s.db.metrics, s.hist.removed, id, MetricKey(day, outcome), j.size);
      assert s'.hist.removed == s.hist.removed[id := Removal(MetricKey(day, outcome), j.size)];
    } else {
      assert s'.db.metrics == s.db.metrics && s'.hist.removed == s.hist.removed;
    }
  }

  lemma FinishStepLedger(c: Config, s: State, w: nat, saveFault: Fault, finishFault: Fault, day: int)
    requires Core(c, s) && Ledger(s.db.metrics, s.hist.removed)
    ensures var s' := FinishStep(s, w, saveFault, finishFault, day); Ledger(s'.db.metrics, s'.hist.removed)
  {
    hide Ledger;
    if w < |s.workers| && s.workers[w].pc.Finishing? {
      CoreWorker(c, s, w);
      hide Core;
      FinishLedger(s, w, saveFault, finishFault, day);
    }
  }

  lemma StepLedger(c: Config, s: State, a: Action)
    requires Core(c, s) && Ledger(s.db.metrics, s.hist.removed)
    ensures var s' := Step(c, s, a); Ledger(s'.db.metrics, s'.hist.removed)
  {
    hide Core, Ledger;
    if !Loud(a) {
      hide Step;
      StepQuiet(c, s, a);
    } else if DiskOnly(a) {
      hide Step;
      StepDiskOnly(c, s, a);
    } else {
      hide AddStep, StopStep, TickStep, ReadJobStep, FailStep, SaveStep, MeasureStep, StatfsStep, FinishStep;
      hide BeginUploadStep, UploadDoneStep, CheckStoppedStep, CleanStep, ConfigureOp, Decide, AdmitOp;
      hide JobWriteStep, JobFreeStep, At;
      if a.Finish? {
        FinishStepLedger(c, s, a.w, a.saveFault, a.finishFault, a.day);
      }
    }
  }
}
