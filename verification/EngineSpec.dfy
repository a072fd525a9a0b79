/** What a run should save, stated as a list
(the specification of internal/application/execute_run.go).

A run visits jobs: one query each, answered by every source. Its diffs are the
records of its jobs in order, and a job's records are those of its metrics in
order. No loop, map or goroutine appears here. */
module EngineSpec {
  import opened Prelude
  import opened Sorting
  import opened Address
  import opened Metrics
  import opened Tolerance
  import opened Judgement
  import opened Extract
  import opened RunLifecycle

  /** One comparison subject, and the query sent to every source for it. */
  datatype Job =
    | BlockJob(block: Uint64)
    | LatestJob(address: Address)
    | AtBlockJob(address: Address, block: Uint64)
    | HoldingsJob(address: Address)
    | BalanceJob(address: Address, token: Address)

  /** A source: its id, the capabilities it serves, and its fixed answers. */
  datatype Source = Source(id: string, supports: Capability -> bool, fetch: Job -> Result<Response>)

  /** The SaveDiffMeta and values of one saved diff. */
  datatype DiffRecord = DiffRecord(discrepancy: Discrepancy, judgement: Judgement, tier: nat, anchor: Uint64, seed: Option<Int64>)

  /** Everything a run reads. `cancelled(n)` is the n-th answer of ctx.Err(), `saveFails(n)`
      the outcome of saving the n-th diff; a sampler port may be absent. */
  datatype Env = Env(
    hash: Hasher, runId: string, sources: seq<Source>, metrics: seq<Metric>,
    addressPlans: seq<AddressPlan>, tokenPlans: seq<TokenPlan>,
    addresses: Option<AddressPlan -> Result<seq<Address>>>, tokens: Option<TokenPlan -> Result<seq<Address>>>,
    resolver: Resolver, trust: seq<string>, blocks: seq<Uint64>, anchor: Uint64,
    cancelled: nat -> bool, saveFails: nat -> bool)

  /** A fetch method returns its own kind of result. */
  predicate Fits(job: Job, r: Response) {
    match job
    case BlockJob(_) => r.BlockResponse?
    case LatestJob(_) => r.AddressLatestResponse?
    case AtBlockJob(_, _) => r.AddressAtBlockResponse?
    case HoldingsJob(_) => r.HoldingsResponse?
    case BalanceJob(_, _) => r.BalanceResponse?
  }

  /** Every source does, as the Go types demand. */
  ghost predicate Typed(env: Env) {
    forall i, job :: 0 <= i < |env.sources| && env.sources[i].fetch(job).Ok? ==> Fits(job, env.sources[i].fetch(job).value)
  }

  // ---- metrics of a pass --------------------------------------------------

  function ByCategory(metrics: seq<Metric>, c: Category): seq<Metric> {
    if metrics == [] then []
    else
      var last := metrics[|metrics| - 1];
      ByCategory(metrics[..|metrics| - 1], c) + if last.category == c then [last] else []
  }

  function ByCapability(metrics: seq<Metric>, c: Capability): seq<Metric> {
    if metrics == [] then []
    else
      var last := metrics[|metrics| - 1];
      ByCapability(metrics[..|metrics| - 1], c) + if last.capability == c then [last] else []
  }

  function JobMetrics(env: Env, job: Job): seq<Metric> {
    match job
    case BlockJob(_) => ByCategory(env.metrics, CatBlockImmutable)
    case LatestJob(_) => ByCategory(env.metrics, CatAddressLatest)
    case AtBlockJob(_, _) => ByCategory(env.metrics, CatAddressAtBlock)
    case HoldingsJob(_) => ByCapability(env.metrics, ERC20HoldingsAtLatest)
    case BalanceJob(_, _) => ByCapability(env.metrics, ERC20BalanceAtLatest)
  }

  // ---- records of a job ---------------------------------------------------

  function JobSubject(job: Job): Subject {
    match job
    case BlockJob(_) => Subject(SubjectBlock, None)
    case _ => Subject(SubjectAddress, Some(job.address))
  }

  /** Discrepancy.Block: the queried height, or the anchor for a query at latest. */
  function JobBlock(env: Env, job: Job): Uint64 {
    match job
    case BlockJob(b) => b
    case AtBlockJob(_, b) => b
    case _ => env.anchor
  }

  /** The snapshot one source contributes, if it supports and populated the field. */
  function SourceSnapshot(hash: Hasher, source: Source, job: Job, c: Capability): Option<ValueSnapshot> {
    match source.fetch(job)
    case Err(_) => None
    case Ok(r) => if source.supports(c) then Project(hash, c, r) else None
  }

  /** The snapshots of the first n sources; a repeated id keeps the later answer. */
  function SnapshotsUpTo(env: Env, n: nat, job: Job, c: Capability): Snapshots
    requires n <= |env.sources|
  {
    if n == 0 then map[]
    else
      var m := SnapshotsUpTo(env, n - 1, job, c);
      match SourceSnapshot(env.hash, env.sources[n - 1], job, c)
      case None => m
      case Some(v) => m[env.sources[n - 1].id := v]
  }

  function JobSnapshots(env: Env, job: Job, c: Capability): Snapshots { SnapshotsUpTo(env, |env.sources|, job, c) }

  ghost predicate Disagrees(env: Env, job: Job, m: Metric) {
    var s := JobSnapshots(env, job, m.capability);
    |s| >= 2 && SortedOutcome(For(env.resolver, m), m, env.anchor, s) == Disagree
  }

  function JobDiscrepancy(env: Env, job: Job, m: Metric): Result<Discrepancy> {
    NewDiscrepancy(env.runId, m, JobBlock(env, job), JobSubject(job), JobSnapshots(env, job, m.capability))
  }

  /** The record of one metric: saved when the tolerance calls a disagreement. */
  ghost function MetricRecord(env: Env, job: Job, m: Metric): seq<DiffRecord> {
    if !Disagrees(env, job, m) then []
    else
      match JobDiscrepancy(env, job, m)
      case Err(_) => []
      case Ok(d) => [DiffRecord(d, JudgementOf(env.trust, d), Tier(m.capability), env.anchor, None)]
  }

  ghost function MetricRecords(env: Env, job: Job, metrics: seq<Metric>): seq<DiffRecord> {
    if metrics == [] then []
    else MetricRecords(env, job, metrics[..|metrics| - 1]) + MetricRecord(env, job, metrics[|metrics| - 1])
  }

  ghost function JobRecords(env: Env, job: Job): seq<DiffRecord> { MetricRecords(env, job, JobMetrics(env, job)) }

  ghost function Records(env: Env, jobs: seq<Job>): seq<DiffRecord> {
    if jobs == [] then [] else Records(env, jobs[..|jobs| - 1]) + JobRecords(env, jobs[|jobs| - 1])
  }

  // ---- samples ------------------------------------------------------------

  ghost predicate AllSampled<P>(plans: seq<P>, sample: P -> Result<seq<Address>>) {
    forall p :: p in plans ==> sample(p).Ok?
  }

  ghost function UnionOf<P>(plans: seq<P>, sample: P -> Result<seq<Address>>): set<Address>
    requires AllSampled(plans, sample)
  {
    set i, a | 0 <= i < |plans| && a in SampleAt(plans, sample, i) :: a
  }

  function SampleAt<P>(plans: seq<P>, sample: P -> Result<seq<Address>>, i: int): seq<Address> {
    if 0 <= i < |plans| && sample(plans[i]).Ok? then sample(plans[i]).value else []
  }

  function BytesKey(a: Address): seq<int> { a }

  ghost predicate AscendingListing(xs: seq<Address>, members: set<Address>) {
    StrictlyAscending(BytesKey, xs) && Elements(xs) == members
  }

  lemma AscendingListingUnique(xs: seq<Address>, ys: seq<Address>, members: set<Address>)
    requires AscendingListing(xs, members) && AscendingListing(ys, members)
    ensures xs == ys
  {
    forall x ensures x in xs <==> x in ys { assert x in Elements(xs) <==> x in Elements(ys); }
    StrictUnique(BytesKey, xs, ys);
  }

  lemma SortAddresses(xs: seq<Address>)
    requires Distinct(xs)
    ensures AscendingListing(SortBy(BytesKey, xs), Elements(xs))
  {
    SortStrict(BytesKey, xs);
    forall x ensures x in SortBy(BytesKey, xs) <==> x in xs { SortMember(BytesKey, xs, x); }
  }

  lemma {:induction false} SomeAscending(members: set<Address>) returns (xs: seq<Address>)
    ensures AscendingListing(xs, members)
  {
    xs := [];
    if members != {} {
      var x :| x in members;
      var rest := SomeAscending(members - {x});
      StrictIsAscending(BytesKey, rest);
      assert x in rest <==> x in Elements(rest);
      ElementsSnoc(rest, x);
      SortAddresses(rest + [x]);
      xs := SortBy(BytesKey, rest + [x]);
    }
  }

  /** The byte-sorted list of a set of addresses. */
  ghost function AscendingList(members: set<Address>): (xs: seq<Address>)
    ensures AscendingListing(xs, members)
  {
    assert exists xs :: AscendingListing(xs, members) by { var xs := SomeAscending(members); }
    var xs :| AscendingListing(xs, members);
    xs
  }

  /** collectSampled: the union of all plans, or None when some plan fails. */
  ghost function Collected<P>(plans: seq<P>, sample: P -> Result<seq<Address>>): Option<seq<Address>> {
    if AllSampled(plans, sample) then Some(AscendingList(UnionOf(plans, sample))) else None
  }

  /** The order and repetition of plans do not matter. */
  lemma CollectedByPlanSet<P>(plans: seq<P>, others: seq<P>, sample: P -> Result<seq<Address>>)
    requires Elements(plans) == Elements(others)
    ensures Collected(plans, sample) == Collected(others, sample)
  {
    forall p ensures p in plans <==> p in others {
      assert p in Elements(plans) <==> p in Elements(others);
    }
    if AllSampled(plans, sample) {
      forall a ensures a in UnionOf(plans, sample) <==> a in UnionOf(others, sample) {
        if a in UnionOf(plans, sample) {
          var i :| 0 <= i < |plans| && a in SampleAt(plans, sample, i);
          assert plans[i] in plans;
          var j :| 0 <= j < |others| && others[j] == plans[i];
          assert a in SampleAt(others, sample, j);
        }
        if a in UnionOf(others, sample) {
          var i :| 0 <= i < |others| && a in SampleAt(others, sample, i);
          assert others[i] in others;
          var j :| 0 <= j < |plans| && plans[j] == others[i];
          assert a in SampleAt(plans, sample, j);
        }
      }
      assert UnionOf(plans, sample) == UnionOf(others, sample);
    }
  }

  ghost function SampledAddresses(env: Env): Option<seq<Address>> {
    match env.addresses
    case None => None
    case Some(sample) => Collected(env.addressPlans, sample)
  }

  ghost function SampledTokens(env: Env): Option<seq<Address>> {
    match env.tokens
    case None => None
    case Some(sample) => Collected(env.tokenPlans, sample)
  }

  // ---- jobs of a run ------------------------------------------------------

  function BlockJobs(blocks: seq<Uint64>): seq<Job> { seq(|blocks|, i requires 0 <= i < |blocks| => BlockJob(blocks[i])) }

  function LatestJobs(addrs: seq<Address>): seq<Job> { seq(|addrs|, i requires 0 <= i < |addrs| => LatestJob(addrs[i])) }

  function HoldingsJobs(addrs: seq<Address>): seq<Job> { seq(|addrs|, i requires 0 <= i < |addrs| => HoldingsJob(addrs[i])) }

  function AtBlockRow(a: Address, blocks: seq<Uint64>): seq<Job> { seq(|blocks|, i requires 0 <= i < |blocks| => AtBlockJob(a, blocks[i])) }

  function BalanceRow(a: Address, tokens: seq<Address>): seq<Job> { seq(|tokens|, i requires 0 <= i < |tokens| => BalanceJob(a, tokens[i])) }

  /** address x block, addresses outermost. */
  function AtBlockJobs(addrs: seq<Address>, blocks: seq<Uint64>): seq<Job> {
    if addrs == [] then [] else AtBlockJobs(addrs[..|addrs| - 1], blocks) + AtBlockRow(addrs[|addrs| - 1], blocks)
  }

  /** address x token, addresses outermost. */
  function BalanceJobs(addrs: seq<Address>, tokens: seq<Address>): seq<Job> {
    if addrs == [] then [] else BalanceJobs(addrs[..|addrs| - 1], tokens) + BalanceRow(addrs[|addrs| - 1], tokens)
  }

  datatype Pass = BlockPass | LatestPass | AtBlockPass | HoldingsPass | BalancePass

  function PassMetrics(env: Env, p: Pass): seq<Metric> {
    match p
    case BlockPass => ByCategory(env.metrics, CatBlockImmutable)
    case LatestPass => ByCategory(env.metrics, CatAddressLatest)
    case AtBlockPass => ByCategory(env.metrics, CatAddressAtBlock)
    case HoldingsPass => ByCapability(env.metrics, ERC20HoldingsAtLatest)
    case BalancePass => ByCapability(env.metrics, ERC20BalanceAtLatest)
  }

  /** The pass has something to do. */
  predicate Enabled(env: Env, p: Pass) {
    && PassMetrics(env, p) != []
    && (p != BlockPass ==> env.addressPlans != [] && env.addresses.Some?)
    && (p == AtBlockPass ==> env.blocks != [])
    && (p == BalancePass ==> env.tokenPlans != [] && env.tokens.Some?)
  }

  ghost function OrEmpty(xs: Option<seq<Address>>): seq<Address> { if xs.Some? then xs.value else [] }

  /** A pass whose sampling fails visits nothing; the run stops there. */
  ghost function PassJobs(env: Env, p: Pass): seq<Job> {
    if !Enabled(env, p) then []
    else
      match p
      case BlockPass => BlockJobs(env.blocks)
      case LatestPass => LatestJobs(OrEmpty(SampledAddresses(env)))
      case AtBlockPass => AtBlockJobs(OrEmpty(SampledAddresses(env)), env.blocks)
      case HoldingsPass => HoldingsJobs(OrEmpty(SampledAddresses(env)))
      case BalancePass => BalanceJobs(OrEmpty(SampledAddresses(env)), OrEmpty(SampledTokens(env)))
  }

  /** passes x subjects, in execution order. */
  ghost function AllJobs(env: Env): seq<Job> {
    PassJobs(env, BlockPass) + PassJobs(env, LatestPass) + PassJobs(env, AtBlockPass)
      + PassJobs(env, HoldingsPass) + PassJobs(env, BalancePass)
  }

  lemma {:induction false} RecordsAppend(env: Env, xs: seq<Job>, ys: seq<Job>)
    ensures Records(env, xs + ys) == Records(env, xs) + Records(env, ys)
  {
    if ys == [] {
      assert xs + ys == xs;
    } else {
      var init, last := ys[..|ys| - 1], ys[|ys| - 1];
      RecordsAppend(env, xs, init);
      RecordsSnoc(env, init, last);
      RecordsSnoc(env, xs + init, last);
      Associative(Records(env, xs), Records(env, init), JobRecords(env, last));
      Associative(xs, init, [last]);
      assert ys == init + [last];
    }
  }

  lemma Associative<T>(a: seq<T>, b: seq<T>, c: seq<T>)
    ensures (a + b) + c == a + (b + c)
  {
  }

  lemma RecordsSnoc(env: Env, xs: seq<Job>, job: Job)
    ensures Records(env, xs + [job]) == Records(env, xs) + JobRecords(env, job)
  {
    assert (xs + [job])[..|xs + [job]| - 1] == xs;
  }

  lemma RecordsPrefix(env: Env, xs: seq<Job>, zs: seq<Job>)
    requires xs <= zs
    ensures Records(env, xs) <= Records(env, zs)
  {
    assert zs == xs + zs[|xs|..];
    RecordsAppend(env, xs, zs[|xs|..]);
  }

  // ---- the summary --------------------------------------------------------

  function SubjectOf(job: Job): SummarySubject {
    match job
    case BlockJob(b) => SummarySubject(KindBlock, Some(b), None, None, "")
    case LatestJob(a) => SummarySubject(KindAddressLatest, None, Some(a), None, "")
    case AtBlockJob(a, b) => SummarySubject(KindAddressAtBlock, Some(b), Some(a), None, "")
    case HoldingsJob(a) => SummarySubject(KindERC20Holdings, None, Some(a), None, "")
    case BalanceJob(a, t) => SummarySubject(KindERC20Balance, None, Some(a), Some(t), "")
  }

  function SubjectsOf(jobs: seq<Job>): seq<SummarySubject> {
    seq(|jobs|, i requires 0 <= i < |jobs| => SubjectOf(jobs[i]))
  }

  function Comparisons(env: Env, jobs: seq<Job>): nat {
    if jobs == [] then 0 else Comparisons(env, jobs[..|jobs| - 1]) + |JobMetrics(env, jobs[|jobs| - 1])|
  }

  function SourceIds(env: Env): seq<string> {
    seq(|env.sources|, i requires 0 <= i < |env.sources| => env.sources[i].id)
  }

  function SummaryOf(env: Env, jobs: seq<Job>): RunSummary {
    RunSummary(Some(env.anchor), SubjectsOf(jobs), SourceIds(env), Comparisons(env, jobs))
  }

  /** A running run accepts its summary exactly when no source has an empty id. */
  lemma SummaryAcceptedExactly(env: Env, jobs: seq<Job>, run: RunState)
    requires run.status == Running
    ensures Accepts(run, OpRecordSummary(SummaryOf(env, jobs))) <==> forall s :: s in env.sources ==> s.id != ""
  {
    forall s | s in SubjectsOf(jobs) ensures s.IsValid() {
      var i :| 0 <= i < |jobs| && SubjectsOf(jobs)[i] == s;
    }
    if exists s :: s in env.sources && s.id == "" {
      var i :| 0 <= i < |env.sources| && env.sources[i].id == "";
      assert SourceIds(env)[i] == "";
    }
    if "" in SourceIds(env) {
      var i :| 0 <= i < |env.sources| && SourceIds(env)[i] == "";
      assert env.sources[i] in env.sources;
    }
  }

  lemma {:induction false} ComparisonsAppend(env: Env, xs: seq<Job>, ys: seq<Job>)
    ensures Comparisons(env, xs + ys) == Comparisons(env, xs) + Comparisons(env, ys)
  {
    if ys == [] {
      assert xs + ys == xs;
    } else {
      var n := |ys| - 1;
      ComparisonsAppend(env, xs, ys[..n]);
      assert (xs + ys)[..|xs + ys| - 1] == xs + ys[..n];
    }
  }

  ghost predicate OfPass(job: Job, p: Pass) {
    match p
    case BlockPass => job.BlockJob?
    case LatestPass => job.LatestJob?
    case AtBlockPass => job.AtBlockJob?
    case HoldingsPass => job.HoldingsJob?
    case BalancePass => job.BalanceJob?
  }

  lemma {:induction false} ComparisonsOfPass(env: Env, jobs: seq<Job>, p: Pass)
    requires forall j :: j in jobs ==> OfPass(j, p)
    ensures Comparisons(env, jobs) == |jobs| * |PassMetrics(env, p)|
  {
    if jobs != [] {
      var n := |jobs| - 1;
      assert jobs[n] in jobs && OfPass(jobs[n], p);
      ComparisonsOfPass(env, jobs[..n], p);
      assert JobMetrics(env, jobs[n]) == PassMetrics(env, p);
      SumAndOne(n, |PassMetrics(env, p)|);
    }
  }

  lemma SumAndOne(n: nat, k: nat)
    ensures (n + 1) * k == n * k + k
  {
  }

  lemma {:induction false} AtBlockJobsSize(addrs: seq<Address>, blocks: seq<Uint64>)
    ensures |AtBlockJobs(addrs, blocks)| == |addrs| * |blocks| && forall j :: j in AtBlockJobs(addrs, blocks) ==> j.AtBlockJob?
  {
    if addrs != [] {
      AtBlockJobsSize(addrs[..|addrs| - 1], blocks);
      SumAndOne(|addrs| - 1, |blocks|);
    }
  }

  lemma {:induction false} BalanceJobsSize(addrs: seq<Address>, tokens: seq<Address>)
    ensures |BalanceJobs(addrs, tokens)| == |addrs| * |tokens| && forall j :: j in BalanceJobs(addrs, tokens) ==> j.BalanceJob?
  {
    if addrs != [] {
      BalanceJobsSize(addrs[..|addrs| - 1], tokens);
      SumAndOne(|addrs| - 1, |tokens|);
    }
  }

  /** Subjects of a pass: blocks, addresses, address x block, or address x token. */
  ghost function PassSize(env: Env, p: Pass): nat {
    var a, t, b := |OrEmpty(SampledAddresses(env))|, |OrEmpty(SampledTokens(env))|, |env.blocks|;
    if !Enabled(env, p) then 0
    else
      match p
      case BlockPass => b
      case LatestPass | HoldingsPass => a
      case AtBlockPass => a * b
      case BalancePass => a * t
  }

  lemma PassComparisons(env: Env, p: Pass)
    ensures |PassJobs(env, p)| == PassSize(env, p)
    ensures Comparisons(env, PassJobs(env, p)) == PassSize(env, p) * |PassMetrics(env, p)|
  {
    AtBlockJobsSize(OrEmpty(SampledAddresses(env)), env.blocks);
    BalanceJobsSize(OrEmpty(SampledAddresses(env)), OrEmpty(SampledTokens(env)));
    ComparisonsOfPass(env, PassJobs(env, p), p);
  }

  /** The comparison count is the sum over the passes of subjects times metrics. */
  lemma ComparisonCount(env: Env)
    ensures Comparisons(env, AllJobs(env)) ==
        PassSize(env, BlockPass) * |PassMetrics(env, BlockPass)|
        + PassSize(env, LatestPass) * |PassMetrics(env, LatestPass)|
        + PassSize(env, AtBlockPass) * |PassMetrics(env, AtBlockPass)|
        + PassSize(env, HoldingsPass) * |PassMetrics(env, HoldingsPass)|
        + PassSize(env, BalancePass) * |PassMetrics(env, BalancePass)|
  {
    var j1, j2, j3 := PassJobs(env, BlockPass), PassJobs(env, LatestPass), PassJobs(env, AtBlockPass);
    var j4, j5 := PassJobs(env, HoldingsPass), PassJobs(env, BalancePass);
    ComparisonsAppend(env, j1, j2);
    ComparisonsAppend(env, j1 + j2, j3);
    ComparisonsAppend(env, j1 + j2 + j3, j4);
    ComparisonsAppend(env, j1 + j2 + j3 + j4, j5);
    PassComparisons(env, BlockPass);
    PassComparisons(env, LatestPass);
    PassComparisons(env, AtBlockPass);
    PassComparisons(env, HoldingsPass);
    PassComparisons(env, BalancePass);
  }
}
