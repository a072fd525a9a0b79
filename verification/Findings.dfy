/** What the diffs of a run mean: which disagreements they report, and that none of the
default ones is lost or misjudged (compareAndSave of internal/application/execute_run.go). */
module Findings {
  import opened Prelude
  import opened Address
  import opened Metrics
  import opened Tolerance
  import opened Judgement
  import opened Extract
  import opened EngineSpec

  // ---- the snapshot map ---------------------------------------------------

  /** Source i is called sid, supports the capability and populated its field. */
  ghost predicate Speaks(env: Env, job: Job, c: Capability, sid: string, i: int) {
    0 <= i < |env.sources| && env.sources[i].id == sid && SourceSnapshot(env.hash, env.sources[i], job, c).Some?
  }

  /** The last of the first n sources that speaks under this id, or -1. */
  ghost function LastSpeaker(env: Env, n: nat, job: Job, c: Capability, sid: string): int {
    if n == 0 then -1
    else if Speaks(env, job, c, sid, n - 1) then n - 1
    else LastSpeaker(env, n - 1, job, c, sid)
  }

  lemma {:induction false} LastSpeakerMeaning(env: Env, n: nat, job: Job, c: Capability, sid: string)
    ensures var i := LastSpeaker(env, n, job, c, sid);
      -1 <= i < n && (i >= 0 ==> Speaks(env, job, c, sid, i)) && forall k :: i < k < n ==> !Speaks(env, job, c, sid, k)
  {
    hide Speaks;
    if n > 0 { LastSpeakerMeaning(env, n - 1, job, c, sid); }
  }

  /** A source is in the snapshot map exactly when it supplied the field; of several
      sources with one id, the last that did is the one compared. */
  lemma {:induction false} SnapshotsMeaning(env: Env, n: nat, job: Job, c: Capability, sid: string)
    requires n <= |env.sources|
    ensures var i := LastSpeaker(env, n, job, c, sid);
      && (sid in SnapshotsUpTo(env, n, job, c) <==> i >= 0)
      && (i >= 0 ==> i < n && SourceSnapshot(env.hash, env.sources[i], job, c) == Some(SnapshotsUpTo(env, n, job, c)[sid]))
  {
    hide SourceSnapshot;
    if n > 0 { SnapshotsMeaning(env, n - 1, job, c, sid); }
  }

  // ---- when a metric disagrees --------------------------------------------

  /** Without overrides, a metric disagrees exactly when two usable answers differ in
      text, and for a query at latest no answer lies outside the 64-block window. */
  lemma DisagreesExactly(env: Env, job: Job, m: Metric)
    requires m.key !in env.resolver.overrides
    ensures var s := JobSnapshots(env, job, m.capability);
      Disagrees(env, job, m) <==>
        && |s| >= 2 && !AllRawsEqual(s)
        && m.category != CatSnapshot
        && (m.category == CatAddressLatest ==> !SomeOutside(s, env.anchor, 0, 64))
  {
    hide JobSnapshots, SortedOutcome;
    var s, t := JobSnapshots(env, job, m.capability), For(env.resolver, m);
    if |s| >= 2 {
      assert BuiltIn(t) by { assert BuiltIn(DEFAULT_WINDOW); }
      BuiltInSymmetric(t, m, env.anchor);
      SymmetricOutcome(t, m, env.anchor, s);
      ExactOutcome(m, env.anchor, s);
      WindowedExactIsLinear(Some(ExactMatch), 0, 64, m, env.anchor, s);
    }
  }

  // ---- disagreement of values ---------------------------------------------

  /** What a participant said: the typed field behind its snapshot. */
  ghost function Said(env: Env, job: Job, c: Capability, sid: string): Option<Value> {
    var i := LastSpeaker(env, |env.sources|, job, c, sid);
    if 0 <= i < |env.sources| && env.sources[i].fetch(job).Ok? then Field(c, env.sources[i].fetch(job).value) else None
  }

  /** No holdings list names a contract twice. */
  ghost predicate WellFormedAnswers(env: Env, job: Job, c: Capability) {
    forall i :: 0 <= i < |env.sources| && env.sources[i].fetch(job).Ok? && Field(c, env.sources[i].fetch(job).value).Some? ==>
      WellFormedValue(Field(c, env.sources[i].fetch(job).value).value)
  }

  ghost predicate SayTheSame(env: Env, job: Job, c: Capability, a: string, b: string) {
    Said(env, job, c, a).Some? && Said(env, job, c, b).Some? && SameValue(Said(env, job, c, a).value, Said(env, job, c, b).value)
  }

  /** Two participants have equal raws exactly when they said the same value. */
  lemma RawsTellValues(env: Env, job: Job, c: Capability, a: string, b: string)
    requires Typed(env) && WellFormedAnswers(env, job, c)
    requires a in JobSnapshots(env, job, c) && b in JobSnapshots(env, job, c)
    ensures JobSnapshots(env, job, c)[a].raw == JobSnapshots(env, job, c)[b].raw <==> SayTheSame(env, job, c, a, b)
  {
    hide SnapshotsUpTo, Field, Render, SameValue;
    var n := |env.sources|;
    SnapshotsMeaning(env, n, job, c, a);
    SnapshotsMeaning(env, n, job, c, b);
    var i, j := LastSpeaker(env, n, job, c, a), LastSpeaker(env, n, job, c, b);
    var r1, r2 := env.sources[i].fetch(job).value, env.sources[j].fetch(job).value;
    assert Fits(job, r1) && Fits(job, r2);
    RawComparesValues(env.hash, c, r1, r2);
  }

  /** Without overrides a diff is due exactly when two usable answers mean different values,
      and for a query at latest no answer lies outside the 64-block window. */
  lemma DueExactly(env: Env, job: Job, m: Metric)
    requires m.key !in env.resolver.overrides && Typed(env) && WellFormedAnswers(env, job, m.capability)
    ensures var s := JobSnapshots(env, job, m.capability);
      Disagrees(env, job, m) <==>
        && (exists a, b :: a in s && b in s && !SayTheSame(env, job, m.capability, a, b))
        && m.category != CatSnapshot
        && (m.category == CatAddressLatest ==> !SomeOutside(s, env.anchor, 0, 64))
  {
    hide JobSnapshots, Disagrees, SayTheSame, Typed, WellFormedAnswers;
    var s := JobSnapshots(env, job, m.capability);
    DisagreesExactly(env, job, m);
    if exists a, b :: a in s && b in s && !SayTheSame(env, job, m.capability, a, b) {
      var a, b :| a in s && b in s && !SayTheSame(env, job, m.capability, a, b);
      RawsTellValues(env, job, m.capability, a, b);
      SubsetSize({a, b}, s.Keys);
    }
    if !AllRawsEqual(s) {
      var a, b :| a in s && b in s && s[a].raw != s[b].raw;
      RawsTellValues(env, job, m.capability, a, b);
    }
  }

  // ---- metrics a pass cannot answer ---------------------------------------

  /** The capabilities that a job's kind of result has a field for. */
  predicate Serves(job: Job, c: Capability) {
    match job
    case BlockJob(_) =>
      c in {BlockHash, BlockParentHash, BlockTimestamp, BlockTxCount, BlockGasUsed, BlockStateRoot, BlockReceiptsRoot,
            BlockTransactionsRoot, BlockMiner}
    case LatestJob(_) => c in {BalanceAtLatest, NonceAtLatest, TxCountAtLatest}
    case AtBlockJob(_, _) => c in {BalanceAtBlock, NonceAtBlock}
    case HoldingsJob(_) | BalanceJob(_, _) => true
  }

  lemma FieldServed(job: Job, c: Capability, r: Response)
    requires Fits(job, r) && Field(c, r).Some?
    ensures Serves(job, c)
  {
  }

  /** A metric that the job's results have no field for yields no snapshot and no diff. */
  lemma UnservedIdle(env: Env, job: Job, m: Metric)
    requires Typed(env) && !Serves(job, m.capability)
    ensures JobSnapshots(env, job, m.capability) == map[] && MetricRecord(env, job, m) == []
  {
    var s := JobSnapshots(env, job, m.capability);
    forall sid ensures sid !in s {
      SnapshotsMeaning(env, |env.sources|, job, m.capability, sid);
      LastSpeakerMeaning(env, |env.sources|, job, m.capability, sid);
      var i := LastSpeaker(env, |env.sources|, job, m.capability, sid);
      if i >= 0 {
        var r := env.sources[i].fetch(job).value;
        assert Fits(job, r);
        FieldServed(job, m.capability, r);
      }
    }
  }

  lemma {:induction false} ByCategoryKeeps(metrics: seq<Metric>, c: Category, m: Metric)
    requires m in metrics && m.category == c
    ensures m in ByCategory(metrics, c)
  {
    var n := |metrics| - 1;
    if metrics[n] != m {
      assert m in metrics[..n];
      ByCategoryKeeps(metrics[..n], c, m);
    }
  }

  /** The ERC-20 metrics of a run are among the metrics of its address-latest pass, which
      can never compare them; they are counted there all the same. */
  lemma LatestPassCountsIdleMetrics(env: Env, a: Address, m: Metric)
    requires Typed(env) && m in env.metrics && m.category == CatAddressLatest
    requires m.capability == ERC20BalanceAtLatest || m.capability == ERC20HoldingsAtLatest
    ensures m in JobMetrics(env, LatestJob(a)) && MetricRecord(env, LatestJob(a), m) == []
    ensures Comparisons(env, [LatestJob(a)]) == |JobMetrics(env, LatestJob(a))| >= 1
  {
    ByCategoryKeeps(env.metrics, CatAddressLatest, m);
    UnservedIdle(env, LatestJob(a), m);
    assert [LatestJob(a)][..0] == [];
  }

  // ---- what becomes of a disagreement -------------------------------------

  /** A confirmed disagreement is dropped exactly when the run or a participating source
      has no id. */
  lemma LostExactly(env: Env, job: Job, m: Metric)
    requires Disagrees(env, job, m)
    ensures MetricRecord(env, job, m) == [] <==> env.runId == "" || "" in JobSnapshots(env, job, m.capability)
  {
  }

  // ---- from disagreements to records and back -----------------------------

  /** The record describes what the sources said about one metric of one job. */
  ghost predicate Reports(env: Env, job: Job, m: Metric, r: DiffRecord) {
    && r.discrepancy == Discrepancy(env.runId, m, JobBlock(env, job), JobSubject(job), JobSnapshots(env, job, m.capability))
    && r.anchor == env.anchor && r.tier == Tier(m.capability)
  }

  /** At least two distinct values, the category's severity, and a trusted set that is
      neither empty nor everyone. */
  ghost predicate WellJudged(r: DiffRecord) {
    && |Raws(r.discrepancy.values)| >= 2
    && r.judgement.severity == SeverityFor(r.discrepancy.metric.category)
    && {} < Elements(r.judgement.trusted) < r.discrepancy.values.Keys
  }

  ghost predicate Among(env: Env, jobs: seq<Job>, job: Job, m: Metric) { job in jobs && m in JobMetrics(env, job) }

  lemma {:induction false} MetricRecordsMember(env: Env, job: Job, metrics: seq<Metric>, m: Metric, r: DiffRecord)
    requires m in metrics && r in MetricRecord(env, job, m)
    ensures r in MetricRecords(env, job, metrics)
  {
    hide MetricRecord;
    var n := |metrics| - 1;
    if metrics[n] != m {
      assert m in metrics[..n];
      MetricRecordsMember(env, job, metrics[..n], m, r);
    }
  }

  lemma {:induction false} RecordsMember(env: Env, jobs: seq<Job>, job: Job, m: Metric, r: DiffRecord)
    requires Among(env, jobs, job, m) && r in MetricRecord(env, job, m)
    ensures r in Records(env, jobs)
  {
    hide MetricRecord, MetricRecords;
    var n := |jobs| - 1;
    if jobs[n] == job {
      MetricRecordsMember(env, job, JobMetrics(env, job), m, r);
    } else {
      assert job in jobs[..n];
      RecordsMember(env, jobs[..n], job, m, r);
    }
  }

  lemma {:induction false} MetricOrigin(env: Env, job: Job, metrics: seq<Metric>, r: DiffRecord) returns (m: Metric)
    requires r in MetricRecords(env, job, metrics)
    ensures m in metrics && r in MetricRecord(env, job, m)
  {
    hide MetricRecord;
    var n := |metrics| - 1;
    if r in MetricRecord(env, job, metrics[n]) { m := metrics[n]; } else { m := MetricOrigin(env, job, metrics[..n], r); }
  }

  lemma {:induction false} RecordOrigin(env: Env, jobs: seq<Job>, r: DiffRecord) returns (job: Job, m: Metric)
    requires r in Records(env, jobs)
    ensures Among(env, jobs, job, m) && r in MetricRecord(env, job, m)
  {
    hide MetricRecord, MetricRecords;
    var n := |jobs| - 1;
    if r in JobRecords(env, jobs[n]) {
      job := jobs[n];
      m := MetricOrigin(env, job, JobMetrics(env, job), r);
    } else {
      job, m := RecordOrigin(env, jobs[..n], r);
    }
  }

  lemma RecordWellJudged(env: Env, job: Job, m: Metric, r: DiffRecord)
    requires m.key !in env.resolver.overrides && r in MetricRecord(env, job, m)
    ensures Disagrees(env, job, m) && Reports(env, job, m, r) && WellJudged(r)
  {
    DisagreesExactly(env, job, m);
    TrustedProper(env.trust, r.discrepancy, r.judgement);
  }

  lemma NoEmptyId(env: Env, job: Job, c: Capability)
    requires forall s :: s in env.sources ==> s.id != ""
    ensures "" !in JobSnapshots(env, job, c)
  {
    SnapshotsMeaning(env, |env.sources|, job, c, "");
    LastSpeakerMeaning(env, |env.sources|, job, c, "");
  }

  /** With non-empty ids and no overrides, the records are exactly the disagreements of
      the jobs: every one is reported, and every record reports one, well judged. */
  lemma NoneLostNoneMisjudged(env: Env, jobs: seq<Job>)
    requires env.runId != "" && (forall s :: s in env.sources ==> s.id != "") && env.resolver.overrides == map[]
    ensures forall job, m :: Among(env, jobs, job, m) && Disagrees(env, job, m) ==>
      exists r :: r in Records(env, jobs) && Reports(env, job, m, r)
    ensures forall r :: r in Records(env, jobs) ==>
      WellJudged(r) && exists job, m :: Among(env, jobs, job, m) && Disagrees(env, job, m) && Reports(env, job, m, r)
  {
    hide Disagrees, Reports, WellJudged, Records, JobSnapshots, MetricRecord, Among;
    forall job, m | Among(env, jobs, job, m) && Disagrees(env, job, m)
      ensures exists r :: r in Records(env, jobs) && Reports(env, job, m, r)
    {
      NoEmptyId(env, job, m.capability);
      LostExactly(env, job, m);
      var r := MetricRecord(env, job, m)[0];
      assert r in MetricRecord(env, job, m);
      RecordsMember(env, jobs, job, m, r);
      RecordWellJudged(env, job, m, r);
    }
    forall r | r in Records(env, jobs)
      ensures WellJudged(r) && exists job, m :: Among(env, jobs, job, m) && Disagrees(env, job, m) && Reports(env, job, m, r)
    {
      var job, m := RecordOrigin(env, jobs, r);
      RecordWellJudged(env, job, m, r);
    }
  }
}
