/** Rows of the runs and discrepancies tables
(internal/infrastructure/persistence/mapper.go, internal/verification/rehydrate.go). */
module Mapper {
  import opened Prelude
  import opened Address
  import opened Metrics
  import opened Judgement
  import opened RunLifecycle
  import opened EngineSpec
  import opened Serialize

  // ---- the metric index ---------------------------------------------------

  function IndexOf(metrics: seq<Metric>): map<string, Metric> {
    if metrics == [] then map[]
    else IndexOf(metrics[..|metrics| - 1])[metrics[|metrics| - 1].key := metrics[|metrics| - 1]]
  }

  /** buildMetricIndex. */
  method BuildMetricIndex() returns (index: map<string, Metric>)
    ensures index == IndexOf(CATALOG)
  {
    index := map[];
    for i := 0 to |CATALOG|
      invariant index == IndexOf(CATALOG[..i])
    {
      assert CATALOG[..i + 1][..i] == CATALOG[..i];
      index := index[CATALOG[i].key := CATALOG[i]];
    }
    assert CATALOG[..|CATALOG|] == CATALOG;
  }

  lemma {:induction false} IndexMeaning(metrics: seq<Metric>, key: string)
    ensures key in IndexOf(metrics) ==> IndexOf(metrics)[key] in metrics && IndexOf(metrics)[key].key == key
    ensures (exists m :: m in metrics && m.key == key) ==> key in IndexOf(metrics)
  {
    if metrics != [] {
      var n := |metrics| - 1;
      IndexMeaning(metrics[..n], key);
      assert metrics == metrics[..n] + [metrics[n]];
    }
  }

  /** A number that tells the catalog keys apart: the length and one character. */
  function Mark(key: string): int {
    if |key| < 10 || |key| > 29 then 0
    else 1000 * |key| + key[if |key| == 14 then 6 else if |key| == 22 then 8 else if |key| == 24 then 15 else 0] as int
  }

  /** The marks of the catalog keys, in catalog order: all different. */
  const MARKS: seq<int> := [
    10098, 17098, 15098, 14116, 14103, 16098, 19098, 23098,
    11098, 22098, 20097, 23097, 24095, 22110, 24097, 18115,
    24099, 26115, 28097, 29097, 23116, 26116
  ]

  lemma MarksDiffer()
    ensures forall i, j :: 0 <= i < j < |MARKS| ==> MARKS[i] != MARKS[j]
  {
  }

  lemma FirstMarks()
    ensures forall i :: 0 <= i < 11 ==> Mark(CATALOG[i].key) == MARKS[i]
  {
  }

  lemma LastMarks()
    ensures forall i :: 11 <= i < 22 ==> Mark(CATALOG[i].key) == MARKS[i]
  {
  }

  lemma CatalogMarks()
    ensures |CATALOG| == |MARKS|
    ensures forall i :: 0 <= i < |CATALOG| ==> Mark(CATALOG[i].key) == MARKS[i]
  {
    hide Mark;
    FirstMarks();
    LastMarks();
  }

  /** Catalog keys are distinct. */
  lemma CatalogKeysDiffer()
    ensures forall i, j :: 0 <= i < j < |CATALOG| ==> CATALOG[i].key != CATALOG[j].key
  {
    hide CATALOG, MARKS, Mark;
    CatalogMarks();
    MarksDiffer();
    forall i, j | 0 <= i < j < |CATALOG| ensures CATALOG[i].key != CATALOG[j].key {
      assert Mark(CATALOG[i].key) == MARKS[i] && Mark(CATALOG[j].key) == MARKS[j];
    }
  }

  function MetricByKey(key: string): Option<Metric> {
    var index := IndexOf(CATALOG);
    if key in index then Some(index[key]) else None
  }

  /** Looking a metric up by its key returns it exactly when it is in the catalog. */
  lemma MetricByKeyExactly(m: Metric)
    ensures MetricByKey(m.key) == Some(m) <==> m in CATALOG
  {
    hide CATALOG, IndexOf;
    IndexMeaning(CATALOG, m.key);
    CatalogKeysDiffer();
    if m in CATALOG {
      var found := IndexOf(CATALOG)[m.key];
      var i :| 0 <= i < |CATALOG| && CATALOG[i] == m;
      var j :| 0 <= j < |CATALOG| && CATALOG[j] == found;
    }
  }

  function KeysOf(metrics: seq<Metric>): seq<string> {
    seq(|metrics|, i requires 0 <= i < |metrics| => metrics[i].key)
  }

  function MetricsOf(keys: seq<string>): Result<seq<Metric>> {
    if keys == [] then Ok([])
    else
      var init :- MetricsOf(keys[..|keys| - 1]);
      match MetricByKey(keys[|keys| - 1])
      case None => Err("persistence: unknown metric key")
      case Some(m) => Ok(init + [m])
  }

  /** The key column: keys to metrics, through the index. */
  method ResolveMetrics(keys: seq<string>) returns (r: Result<seq<Metric>>)
    ensures r == MetricsOf(keys)
  {
    hide CATALOG, IndexOf;
    var index := BuildMetricIndex();
    var metrics: seq<Metric> := [];
    for i := 0 to |keys|
      invariant MetricsOf(keys[..i]) == Ok(metrics)
    {
      assert keys[..i + 1][..i] == keys[..i];
      if keys[i] !in index {
        MetricsStop(keys, i + 1);
        return Err("persistence: unknown metric key");
      }
      metrics := metrics + [index[keys[i]]];
    }
    assert keys[..|keys|] == keys;
    return Ok(metrics);
  }

  lemma {:induction false} MetricsStop(keys: seq<string>, n: nat)
    requires n <= |keys| && MetricsOf(keys[..n]).Err?
    ensures MetricsOf(keys) == MetricsOf(keys[..n])
    decreases |keys|
  {
    hide MetricByKey;
    if n == |keys| {
      assert keys[..n] == keys;
    } else {
      var k := |keys| - 1;
      assert keys[..k][..n] == keys[..n];
      MetricsStop(keys[..k], n);
    }
  }

  ghost predicate InCatalog(metrics: seq<Metric>) { forall m :: m in metrics ==> m in CATALOG }

  lemma {:induction false} MetricsRoundTrip(metrics: seq<Metric>)
    ensures MetricsOf(KeysOf(metrics)) == Ok(metrics) <==> InCatalog(metrics)
  {
    hide CATALOG, MetricByKey;
    if metrics != [] {
      var init, last := metrics[..|metrics| - 1], metrics[|metrics| - 1];
      MetricsRoundTrip(init);
      MetricByKeyExactly(last);
      assert KeysOf(metrics)[..|metrics| - 1] == KeysOf(init);
      assert metrics == init + [last];
      assert InCatalog(metrics) <==> InCatalog(init) && last in CATALOG;
    }
  }

  // ---- runs ---------------------------------------------------------------

  datatype RunRow = RunRow(
    id: string, chainId: Uint64, status: string, triggerType: string, triggerData: Json, strategyKind: string,
    strategyData: Json, addressPlans: Json, tokenPlans: Json, metrics: seq<string>, errorMsg: string, createdAt: int,
    startedAt: Option<int>, finishedAt: Option<int>, anchor: Option<Int64>, subjects: Json, sourcesUsed: seq<string>,
    comparisons: int)

  function StatusName(st: Status): string {
    match st
    case Pending => "pending"
    case Running => "running"
    case Completed => "completed"
    case Failed => "failed"
    case Cancelled => "cancelled"
  }

  function StatusOf(name: string): Result<Status> {
    if name == "pending" then Ok(Pending)
    else if name == "running" then Ok(Running)
    else if name == "completed" then Ok(Completed)
    else if name == "failed" then Ok(Failed)
    else if name == "cancelled" then Ok(Cancelled)
    else Err("rehydrate run: unknown status")
  }

  /** Block heights travel through a signed column. */
  function AnchorColumn(anchor: Option<Uint64>): Option<Int64> {
    match anchor
    case None => None
    case Some(b) => Some(ToInt64(b))
  }

  function AnchorOf(column: Option<Int64>): Option<Uint64> {
    match column
    case None => None
    case Some(b) => Some(ToUint64(b))
  }

  lemma AnchorRoundTrip(anchor: Option<Uint64>)
    ensures AnchorOf(AnchorColumn(anchor)) == anchor
  {
  }

  /** toRunModel. */
  function ToRunRow(hash: Hasher, s: RunState): RunRow {
    RunRow(s.id, s.chainId, StatusName(s.status), TriggerKind(s.trigger), EncodeTrigger(s.trigger), StrategyKind(s.strategy),
           EncodeStrategy(s.strategy), EncodeAddressPlans(hash, s.addressPlans), EncodeTokenPlans(hash, s.tokenPlans),
           KeysOf(s.metrics), s.errorMsg, s.createdAt, s.startedAt, s.finishedAt, AnchorColumn(s.summary.anchor),
           EncodeSubjects(hash, s.summary.subjects), s.summary.sourcesUsed, s.summary.comparisons)
  }

  /** toRun and Rehydrate. */
  function ToRun(hash: Hasher, row: RunRow): Result<RunState> {
    var trigger :- DecodeTrigger(row.triggerType, row.triggerData);
    var strategy :- DecodeStrategy(row.strategyKind, row.strategyData);
    var addressPlans :- DecodeColumn(Some(row.addressPlans), AddressPlanDecoder(hash));
    var tokenPlans :- DecodeColumn(Some(row.tokenPlans), TokenPlanDecoder(hash));
    var metrics :- MetricsOf(row.metrics);
    var subjects :- DecodeColumn(Some(row.subjects), SubjectDecoder(hash));
    var status :- StatusOf(row.status);
    if row.id == "" then Err("rehydrate run: id is empty")
    else if row.chainId == 0 then Err("rehydrate run: chain id is zero")
    else if metrics == [] then Err("rehydrate run: metrics list is empty")
    else
      Ok(RunState(row.id, row.chainId, strategy, addressPlans, tokenPlans, metrics, trigger, status, row.createdAt, row.startedAt,
                  row.finishedAt, row.errorMsg, RunSummary(AnchorOf(row.anchor), subjects, row.sourcesUsed, row.comparisons)))
  }

  /** What NewRun demands, catalog metrics, and a range that is not inverted. */
  ghost predicate Persistable(s: RunState) {
    && s.id != "" && s.chainId != 0 && s.metrics != []
    && InCatalog(s.metrics)
    && RangeOk(s.strategy)
  }

  /** A run comes back from its row unchanged exactly when it is persistable. */
  lemma RunRoundTrip(hash: Hasher, s: RunState)
    requires s.summary.IsValid()
    ensures ToRun(hash, ToRunRow(hash, s)) == Ok(s) <==> Persistable(s)
  {
    hide DecodeTrigger, EncodeTrigger, DecodeStrategy, EncodeStrategy, DecodeColumn, EncodeAddressPlans, EncodeTokenPlans;
    hide EncodeSubjects, MetricsOf, KeysOf, InCatalog, RangeOk, RunSummary.IsValid, AnchorColumn, AnchorOf;
    TriggerRoundTrip(s.trigger);
    StrategyRoundTrip(s.strategy);
    AddressPlansRoundTrip(hash, s.addressPlans);
    TokenPlansRoundTrip(hash, s.tokenPlans);
    MetricsRoundTrip(s.metrics);
    SubjectsRoundTrip(hash, s.summary.subjects) by { ValidSubjects(s.summary); }
    AnchorRoundTrip(s.summary.anchor);
  }

  lemma ValidSubjects(summary: RunSummary)
    requires summary.IsValid()
    ensures forall s :: s in summary.subjects ==> s.IsValid()
  {
  }

  /** One use of a run: an operation, and whether the run is saved and reloaded after it. */
  datatype StoredOp = StoredOp(op: Op, reload: bool)

  function OpsOf(steps: seq<StoredOp>): seq<Op> { seq(|steps|, i requires 0 <= i < |steps| => steps[i].op) }

  function ApplyStored(hash: Hasher, s: RunState, steps: seq<StoredOp>): Result<RunState> {
    if steps == [] then Ok(s)
    else
      var before :- ApplyStored(hash, s, steps[..|steps| - 1]);
      var last := steps[|steps| - 1];
      var after := Apply(before, last.op);
      if last.reload then ToRun(hash, ToRunRow(hash, after)) else Ok(after)
  }

  /** Saving and reloading a run between any two operations changes nothing. */
  lemma {:induction false} PersistenceInvisible(hash: Hasher, s: RunState, steps: seq<StoredOp>)
    requires Persistable(s) && s.summary.IsValid()
    ensures ApplyStored(hash, s, steps) == Ok(ApplyAll(s, OpsOf(steps)))
    ensures Persistable(ApplyAll(s, OpsOf(steps))) && ApplyAll(s, OpsOf(steps)).summary.IsValid()
  {
    hide ToRun, ToRunRow, InCatalog, RangeOk, RunSummary.IsValid;
    if steps != [] {
      var n := |steps| - 1;
      PersistenceInvisible(hash, s, steps[..n]);
      assert OpsOf(steps)[..n] == OpsOf(steps[..n]);
      RunRoundTrip(hash, ApplyAll(s, OpsOf(steps)));
    }
  }

  // ---- discrepancies ------------------------------------------------------

  datatype DiffRow = DiffRow(
    runId: string, metricKey: string, block: Int64, subjectType: string, subjectAddr: Option<seq<Byte>>, values: Json,
    severity: string, trusted: seq<string>, tier: Option<int>, anchor: Option<Int64>, seed: Option<Int64>)

  function SubjectTypeName(t: SubjectType): string {
    match t
    case SubjectBlock => "block"
    case SubjectAddress => "address"
    case SubjectContract => "contract"
    case SubjectChain => "chain"
    case NoSubject => ""
  }

  function SubjectTypeOf(name: string): SubjectType {
    if name == "block" then SubjectBlock
    else if name == "address" then SubjectAddress
    else if name == "contract" then SubjectContract
    else if name == "chain" then SubjectChain
    else NoSubject
  }

  function SeverityName(s: Severity): string {
    match s
    case SevInfo => "info"
    case SevWarning => "warning"
    case SevError => "error"
    case SevCritical => "critical"
  }

  function SeverityOf(name: string): Result<Severity> {
    if name == "info" then Ok(SevInfo)
    else if name == "warning" then Ok(SevWarning)
    else if name == "error" then Ok(SevError)
    else if name == "critical" then Ok(SevCritical)
    else Err("persistence: unknown severity")
  }

  /** toDiffModel: a zero tier is derived from the metric, a zero anchor is stored as null. */
  function ToDiffRow(r: DiffRecord): DiffRow {
    var d := r.discrepancy;
    var tier := if r.tier == 0 then Tier(d.metric.capability) else r.tier;
    DiffRow(d.runId, d.metric.key, ToInt64(d.block), SubjectTypeName(d.subject.kind), d.subject.address, EncodeValues(d.values),
            SeverityName(r.judgement.severity), r.judgement.trusted, if tier == 0 then None else Some(tier),
            if r.anchor == 0 then None else Some(ToInt64(r.anchor)), r.seed)
  }

  function SubjectOfRow(row: DiffRow): Subject {
    var a: Option<Address> := match row.subjectAddr
      case Some(bytes) => if |bytes| == 20 then (var a: Address := bytes; Some(a)) else None
      case None => None;
    Subject(SubjectTypeOf(row.subjectType), a)
  }

  /** toDiffRecord. */
  function ToDiffRecord(row: DiffRow): Result<DiffRecord> {
    var values :- DecodeValues(row.values);
    var severity :- SeverityOf(row.severity);
    match MetricByKey(row.metricKey)
    case None => Err("persistence: unknown metric key")
    case Some(m) =>
      Ok(DiffRecord(
           Discrepancy(row.runId, m, ToUint64(row.block), SubjectOfRow(row), values),
           Judgement(severity, row.trusted),
           if row.tier.Some? && 0 <= row.tier.value <= 255 then row.tier.value else 0,
           if row.anchor.Some? then ToUint64(row.anchor.value) else 0, row.seed))
  }

  lemma CatalogTiers(m: Metric)
    requires m in CATALOG
    ensures 1 <= Tier(m.capability) <= 3
  {
  }

  /** A diff comes back from its row unchanged exactly when its metric is in the catalog
      and its tier is set. */
  lemma DiffRoundTrip(r: DiffRecord)
    ensures ToDiffRecord(ToDiffRow(r)) == Ok(r) <==> r.discrepancy.metric in CATALOG && 0 < r.tier <= 255
  {
    hide CATALOG, MetricByKey, Tier, EncodeValues, DecodeValues;
    ValuesRoundTrip(r.discrepancy.values);
    MetricByKeyExactly(r.discrepancy.metric);
    if r.discrepancy.metric in CATALOG { CatalogTiers(r.discrepancy.metric); }
    assert SubjectOfRow(ToDiffRow(r)) == r.discrepancy.subject;
    assert SeverityOf(SeverityName(r.judgement.severity)) == Ok(r.judgement.severity);
  }
}
