/** The verification engine (internal/application/execute_run.go).

Loops, maps, the result slots the goroutines fill and the summary accumulator,
proved equal to the list in EngineSpec. Fetches are unbudgeted here; the budgeted
fan-out is the subject of FanOut. */
module Engine {
  import opened Prelude
  import opened Sorting
  import opened Address
  import opened Metrics
  import opened Tolerance
  import opened Judgement
  import Policy = Judgement
  import opened Extract
  import opened RunLifecycle
  import opened EngineSpec
  import opened RunSpec

  /** How a pass, or the run, ended. */
  datatype Stop = Finished | ContextDone | SamplingFailed | SaveFailed

  method FilterByCategory(metrics: seq<Metric>, c: Category) returns (out: seq<Metric>)
    ensures out == ByCategory(metrics, c)
  {
    out := [];
    for i := 0 to |metrics|
      invariant out == ByCategory(metrics[..i], c)
    {
      assert metrics[..i + 1][..i] == metrics[..i];
      if metrics[i].category == c { out := out + [metrics[i]]; }
    }
    assert metrics[..|metrics|] == metrics;
  }

  method FilterByCapability(metrics: seq<Metric>, c: Capability) returns (out: seq<Metric>)
    ensures out == ByCapability(metrics, c)
  {
    out := [];
    for i := 0 to |metrics|
      invariant out == ByCapability(metrics[..i], c)
    {
      assert metrics[..i + 1][..i] == metrics[..i];
      if metrics[i].capability == c { out := out + [metrics[i]]; }
    }
    assert metrics[..|metrics|] == metrics;
  }

  /** The addresses met in the first n plans. */
  ghost predicate Gathered<P>(plans: seq<P>, sample: P -> Result<seq<Address>>, n: nat, members: set<Address>) {
    && n <= |plans|
    && (forall i :: 0 <= i < n ==> sample(plans[i]).Ok?)
    && forall a :: a in members <==> exists i :: 0 <= i < n && a in SampleAt(plans, sample, i)
  }

  /** collectSampled. */
  method CollectSampled<P>(plans: seq<P>, sample: P -> Result<seq<Address>>) returns (r: Option<seq<Address>>)
    ensures r == Collected(plans, sample)
  {
    var seen: set<Address> := {};
    var out: seq<Address> := [];
    for n := 0 to |plans|
      invariant Distinct(out) && Elements(out) == seen && Gathered(plans, sample, n, seen)
    {
      var got := sample(plans[n]);
      if got.Err? {
        assert plans[n] in plans;
        return None;
      }
      ghost var before := seen;
      for k := 0 to |got.value|
        invariant Distinct(out) && Elements(out) == seen == before + Elements(got.value[..k])
      {
        var a := got.value[k];
        ElementsSnoc(got.value[..k], a);
        assert got.value[..k + 1] == got.value[..k] + [a];
        if a !in seen {
          assert a in out <==> a in Elements(out);
          ElementsSnoc(out, a);
          seen := seen + {a};
          out := out + [a];
        }
      }
      assert got.value[..|got.value|] == got.value;
      GatherOne(plans, sample, n, before);
    }
    AllGathered(plans, sample, seen);
    SortAddresses(out);
    AscendingListingUnique(SortBy(BytesKey, out), AscendingList(UnionOf(plans, sample)), seen);
    return Some(SortBy(BytesKey, out));
  }

  lemma GatherOne<P>(plans: seq<P>, sample: P -> Result<seq<Address>>, n: nat, members: set<Address>)
    requires n < |plans| && Gathered(plans, sample, n, members) && sample(plans[n]).Ok?
    ensures Gathered(plans, sample, n + 1, members + Elements(sample(plans[n]).value))
  {
    assert SampleAt(plans, sample, n) == sample(plans[n]).value;
  }

  lemma AllGathered<P>(plans: seq<P>, sample: P -> Result<seq<Address>>, members: set<Address>)
    requires Gathered(plans, sample, |plans|, members)
    ensures AllSampled(plans, sample) && UnionOf(plans, sample) == members
  {
    forall a ensures a in members <==> a in UnionOf(plans, sample) {
      if a in members { var i :| 0 <= i < |plans| && a in SampleAt(plans, sample, i); }
    }
  }

  /** The positions 0 to n - 1. */
  function Slots(n: nat): (slots: set<nat>)
    ensures forall i :: i in slots <==> 0 <= i < n
  {
    if n == 0 then {} else Slots(n - 1) + {n - 1}
  }

  /** One execution: the fields are the diff repository and the summary accumulator. */
  class Engine {
    const env: Env
    var saved: seq<DiffRecord>
    var subjects: seq<SummarySubject>
    var comparisons: nat
    var polls: nat
    ghost var done: seq<Job>

    constructor (env: Env)
      ensures this.env == env && Progress() && done == []
    {
      this.env := env;
      saved, subjects, comparisons, polls, done := [], [], 0, 0, [];
    }

    /** Everything so far went well, and is exactly the record of the jobs done. */
    ghost predicate Progress()
      reads this
    {
      && saved == Records(env, done)
      && subjects == SubjectsOf(done)
      && comparisons == Comparisons(env, done)
      && (forall k :: 0 <= k < polls ==> !env.cancelled(k))
      && Saving()
    }

    /** How things stand after working on jobs: all done, or stopped part way with a
        prefix of their records saved, for a reason that did occur. */
    ghost predicate Outcome(stop: Stop, jobs: seq<Job>)
      reads this
    {
      match stop
      case Finished => Progress() && done == jobs
      case ContextDone => saved <= Records(env, jobs) && polls > 0 && env.cancelled(polls - 1)
      case SaveFailed => saved <= Records(env, jobs) && saved != Records(env, jobs) && env.saveFails(|saved|)
      case SamplingFailed =>
        && saved <= Records(env, jobs)
        && ((env.addresses.Some? && SampledAddresses(env).None?) || (env.tokens.Some? && SampledTokens(env).None?))
    }

    lemma OutcomeWidens(stop: Stop, jobs: seq<Job>, more: seq<Job>)
      requires Outcome(stop, jobs) && stop != Finished && jobs <= more
      ensures Outcome(stop, more)
    {
      RecordsPrefix(env, jobs, more);
    }

    /** A pass whose sampling fails has no jobs. */
    lemma NothingSampled(p: Pass)
      requires Progress() && Enabled(env, p) && p != BlockPass
      requires SampledAddresses(env).None? || (p == BalancePass && SampledTokens(env).None?)
      ensures done + PassJobs(env, p) == done && saved == Records(env, done)
    {
      NoAtBlockJobs(env.blocks);
      NoBalanceJobs(OrEmpty(SampledAddresses(env)));
    }

    /** ctx.Err() at the head of a loop. */
    method PollContext() returns (stop: Stop)
      requires Progress()
      modifies this`polls
      ensures stop == Finished || stop == ContextDone
      ensures Outcome(stop, done)
    {
      hide JobRecords;
      var cancelled := env.cancelled(polls);
      polls := polls + 1;
      stop := if cancelled then ContextDone else Finished;
    }

    /** fanOutFetch without a budget: one goroutine per source, finishing in any order,
        each writing its own slot. */
    method FanOutFetch(job: Job) returns (results: array<Result<Response>>)
      ensures fresh(results) && results.Length == |env.sources|
      ensures forall i :: 0 <= i < |env.sources| ==> results[i] == env.sources[i].fetch(job)
    {
      results := new Result<Response>[|env.sources|](_ => Err("not fetched"));
      var waiting := Slots(|env.sources|);
      while waiting != {}
        invariant waiting <= Slots(|env.sources|)
        invariant forall i :: 0 <= i < |env.sources| && i !in waiting ==> results[i] == env.sources[i].fetch(job)
        decreases |waiting|
      {
        var i :| i in waiting;
        results[i] := env.sources[i].fetch(job);
        waiting := waiting - {i};
      }
    }

    /** The snapshot map of one metric. */
    method Snapshot(ghost job: Job, c: Capability, results: array<Result<Response>>) returns (snapshots: Snapshots)
      requires results.Length == |env.sources|
      requires forall i :: 0 <= i < |env.sources| ==> results[i] == env.sources[i].fetch(job)
      ensures snapshots == JobSnapshots(env, job, c)
    {
      hide Project;
      snapshots := map[];
      for i := 0 to |env.sources|
        invariant snapshots == SnapshotsUpTo(env, i, job, c)
      {
        if results[i].Ok? && env.sources[i].supports(c) {
          var snap := Project(env.hash, c, results[i].value);
          if snap.Some? { snapshots := snapshots[env.sources[i].id := snap.value]; }
        }
      }
    }

    /** The records so far were saved without an error. */
    ghost predicate Saving()
      reads this
    {
      forall k :: 0 <= k < |saved| ==> !env.saveFails(k)
    }

    /** compareAndSave, for one metric. */
    method CompareMetric(m: Metric, results: array<Result<Response>>, subject: Subject, recordBlock: Uint64, ghost job: Job)
      returns (stop: Stop)
      requires results.Length == |env.sources|
      requires forall i :: 0 <= i < |env.sources| ==> results[i] == env.sources[i].fetch(job)
      requires subject == JobSubject(job) && recordBlock == JobBlock(env, job)
      requires Saving()
      modifies this`saved
      ensures stop == Finished || stop == SaveFailed
      ensures stop == Finished ==> Saving() && saved == old(saved) + MetricRecord(env, job, m)
      ensures stop == SaveFailed ==> saved == old(saved) && env.saveFails(|saved|) && |MetricRecord(env, job, m)| == 1
    {
      hide SnapshotsUpTo, SortedOutcome, JudgedAs, NewDiscrepancy;
      var snapshots := Snapshot(job, m.capability, results);
      if |snapshots| < 2 { return Finished; }
      var outcome := ApplyTolerance(For(env.resolver, m), m, snapshots, env.anchor);
      if outcome != Disagree { return Finished; }
      var d := NewDiscrepancy(env.runId, m, recordBlock, subject, snapshots);
      if d.Err? { return Finished; }
      var j := Policy.Judge(env.trust, d.value);
      JudgementUnique(env.trust, d.value, j, JudgementOf(env.trust, d.value));
      if env.saveFails(|saved|) { return SaveFailed; }
      saved := saved + [DiffRecord(d.value, j, Tier(m.capability), env.anchor, None)];
      stop := Finished;
    }

    /** compareAndSave. */
    method CompareAndSave(metrics: seq<Metric>, results: array<Result<Response>>, subject: Subject, recordBlock: Uint64, ghost job: Job)
      returns (stop: Stop)
      requires results.Length == |env.sources|
      requires forall i :: 0 <= i < |env.sources| ==> results[i] == env.sources[i].fetch(job)
      requires subject == JobSubject(job) && recordBlock == JobBlock(env, job)
      requires Saving()
      modifies this`saved
      ensures stop == Finished || stop == SaveFailed
      ensures stop == Finished ==> Saving() && saved == old(saved) + MetricRecords(env, job, metrics)
      ensures stop == SaveFailed ==> saved < old(saved) + MetricRecords(env, job, metrics) && env.saveFails(|saved|)
    {
      hide MetricRecord, MetricRecords;
      ghost var start := saved;
      MetricRecordsOfNone(env, job, metrics);
      for n := 0 to |metrics|
        invariant Saving() && saved == start + MetricRecords(env, job, metrics[..n])
      {
        MetricRecordsSnoc(env, job, metrics, n);
        stop := CompareMetric(metrics[n], results, subject, recordBlock, job);
        if stop != Finished {
          MetricRecordsPrefix(env, job, metrics, n + 1);
          return;
        }
      }
      assert metrics[..|metrics|] == metrics;
      stop := Finished;
    }

    /** The body of every pass loop: fetch, compare, and on success note the subject. */
    method Visit(metrics: seq<Metric>, subject: Subject, recordBlock: Uint64, summarySubject: SummarySubject, job: Job) returns (stop: Stop)
      requires Progress()
      requires metrics == JobMetrics(env, job) && subject == JobSubject(job) && recordBlock == JobBlock(env, job)
      requires summarySubject == SubjectOf(job)
      modifies this
      ensures stop == Finished || stop == SaveFailed
      ensures Outcome(stop, old(done) + [job])
    {
      hide MetricRecords, Records;
      RecordsSnoc(env, done, job);
      var results := FanOutFetch(job);
      stop := CompareAndSave(metrics, results, subject, recordBlock, job);
      if stop != Finished { return; }
      assert (done + [job])[..|done + [job]| - 1] == done;
      subjects := subjects + [summarySubject];
      comparisons := comparisons + |metrics|;
      done := done + [job];
    }

    /** runBlockPass. */
    method RunBlockPass() returns (stop: Stop)
      requires Progress()
      modifies this
      ensures Outcome(stop, old(done) + PassJobs(env, BlockPass))
    {
      hide Records, SubjectsOf, Comparisons, Progress;
      var metrics := FilterByCategory(env.metrics, CatBlockImmutable);
      if |metrics| == 0 { return Finished; }
      ghost var start := done;
      var blocks := env.blocks;
      for i := 0 to |blocks|
        invariant Progress() && done == start + BlockJobs(blocks[..i])
      {
        var b := blocks[i];
        ghost var upTo, all := start + BlockJobs(blocks[..i + 1]), start + BlockJobs(blocks);
        assert done + [BlockJob(b)] == upTo && done <= upTo <= all;
        stop := PollContext();
        if stop != Finished { OutcomeWidens(stop, done, all); return; }
        stop := Visit(metrics, Subject(SubjectBlock, None), b, SummarySubject(KindBlock, Some(b), None, None, ""), BlockJob(b));
        if stop != Finished { OutcomeWidens(stop, upTo, all); return; }
      }
      assert blocks[..|blocks|] == blocks;
      stop := Finished;
    }

    /** runAddressLatestPass. */
    method RunAddressLatestPass() returns (stop: Stop)
      requires Progress()
      modifies this
      ensures Outcome(stop, old(done) + PassJobs(env, LatestPass))
    {
      hide Records, SubjectsOf, Comparisons, Progress;
      if |env.addressPlans| == 0 || env.addresses.None? { return Finished; }
      var metrics := FilterByCategory(env.metrics, CatAddressLatest);
      if |metrics| == 0 { return Finished; }
      var sampled := CollectSampled(env.addressPlans, env.addresses.value);
      if sampled.None? {
        NothingSampled(LatestPass);
        return SamplingFailed;
      }
      var addrs := sampled.value;
      ghost var start := done;
      for i := 0 to |addrs|
        invariant Progress() && done == start + LatestJobs(addrs[..i])
      {
        var a := addrs[i];
        ghost var upTo, all := start + LatestJobs(addrs[..i + 1]), start + LatestJobs(addrs);
        assert done + [LatestJob(a)] == upTo && done <= upTo <= all;
        stop := PollContext();
        if stop != Finished { OutcomeWidens(stop, done, all); return; }
        stop := Visit(metrics, Subject(SubjectAddress, Some(a)), env.anchor, SummarySubject(KindAddressLatest, None, Some(a), None, ""), LatestJob(a));
        if stop != Finished { OutcomeWidens(stop, upTo, all); return; }
      }
      assert addrs[..|addrs|] == addrs;
      stop := Finished;
    }

    /** runAddressAtBlockPass, for one address. */
    method VisitAtBlocks(metrics: seq<Metric>, a: Address, blocks: seq<Uint64>) returns (stop: Stop)
      requires Progress() && metrics == PassMetrics(env, AtBlockPass)
      modifies this
      ensures Outcome(stop, old(done) + AtBlockRow(a, blocks))
    {
      hide Records, SubjectsOf, Comparisons, Progress;
      ghost var start := done;
      for j := 0 to |blocks|
        invariant Progress() && done == start + AtBlockRow(a, blocks[..j])
      {
        var b := blocks[j];
        ghost var upTo, all := start + AtBlockRow(a, blocks[..j + 1]), start + AtBlockRow(a, blocks);
        assert done + [AtBlockJob(a, b)] == upTo && done <= upTo <= all;
        stop := PollContext();
        if stop != Finished { OutcomeWidens(stop, done, all); return; }
        stop := Visit(metrics, Subject(SubjectAddress, Some(a)), b, SummarySubject(KindAddressAtBlock, Some(b), Some(a), None, ""), AtBlockJob(a, b));
        if stop != Finished { OutcomeWidens(stop, upTo, all); return; }
      }
      assert blocks[..|blocks|] == blocks;
      stop := Finished;
    }

    /** runAddressAtBlockPass. */
    method RunAddressAtBlockPass() returns (stop: Stop)
      requires Progress()
      modifies this
      ensures Outcome(stop, old(done) + PassJobs(env, AtBlockPass))
    {
      hide Records, SubjectsOf, Comparisons, Progress, AtBlockRow, AtBlockJobs;
      NoAtBlockJobs(env.blocks);
      if |env.addressPlans| == 0 || env.addresses.None? { return Finished; }
      var metrics := FilterByCategory(env.metrics, CatAddressAtBlock);
      if |metrics| == 0 || |env.blocks| == 0 { return Finished; }
      var sampled := CollectSampled(env.addressPlans, env.addresses.value);
      if sampled.None? {
        NothingSampled(AtBlockPass);
        return SamplingFailed;
      }
      var addrs := sampled.value;
      ghost var start, all := done, AtBlockJobs(addrs, env.blocks);
      for i := 0 to |addrs|
        invariant Progress() && done == start + AtBlockJobs(addrs[..i], env.blocks)
      {
        AtBlockJobsStep(addrs, env.blocks, i);
        ghost var upTo := start + AtBlockJobs(addrs[..i + 1], env.blocks);
        assert done + AtBlockRow(addrs[i], env.blocks) == upTo && done <= upTo <= start + all;
        stop := PollContext();
        if stop != Finished { OutcomeWidens(stop, done, start + all); return; }
        stop := VisitAtBlocks(metrics, addrs[i], env.blocks);
        if stop != Finished { OutcomeWidens(stop, upTo, start + all); return; }
      }
      assert addrs[..|addrs|] == addrs;
      stop := Finished;
    }

    /** runERC20HoldingsLatestPass. */
    method RunERC20HoldingsPass() returns (stop: Stop)
      requires Progress()
      modifies this
      ensures Outcome(stop, old(done) + PassJobs(env, HoldingsPass))
    {
      hide Records, SubjectsOf, Comparisons, Progress;
      if |env.addressPlans| == 0 || env.addresses.None? { return Finished; }
      var metrics := FilterByCapability(env.metrics, ERC20HoldingsAtLatest);
      if |metrics| == 0 { return Finished; }
      var sampled := CollectSampled(env.addressPlans, env.addresses.value);
      if sampled.None? {
        NothingSampled(HoldingsPass);
        return SamplingFailed;
      }
      var addrs := sampled.value;
      ghost var start := done;
      for i := 0 to |addrs|
        invariant Progress() && done == start + HoldingsJobs(addrs[..i])
      {
        var a := addrs[i];
        ghost var upTo, all := start + HoldingsJobs(addrs[..i + 1]), start + HoldingsJobs(addrs);
        assert done + [HoldingsJob(a)] == upTo && done <= upTo <= all;
        stop := PollContext();
        if stop != Finished { OutcomeWidens(stop, done, all); return; }
        stop := Visit(metrics, Subject(SubjectAddress, Some(a)), env.anchor, SummarySubject(KindERC20Holdings, None, Some(a), None, ""), HoldingsJob(a));
        if stop != Finished { OutcomeWidens(stop, upTo, all); return; }
      }
      assert addrs[..|addrs|] == addrs;
      stop := Finished;
    }

    /** runERC20BalanceLatestPass, for one address. */
    method VisitTokens(metrics: seq<Metric>, a: Address, tokens: seq<Address>) returns (stop: Stop)
      requires Progress() && metrics == PassMetrics(env, BalancePass)
      modifies this
      ensures Outcome(stop, old(done) + BalanceRow(a, tokens))
    {
      hide Records, SubjectsOf, Comparisons, Progress;
      ghost var start := done;
      for j := 0 to |tokens|
        invariant Progress() && done == start + BalanceRow(a, tokens[..j])
      {
        var t := tokens[j];
        ghost var upTo, all := start + BalanceRow(a, tokens[..j + 1]), start + BalanceRow(a, tokens);
        assert done + [BalanceJob(a, t)] == upTo && done <= upTo <= all;
        stop := PollContext();
        if stop != Finished { OutcomeWidens(stop, done, all); return; }
        stop := Visit(metrics, Subject(SubjectAddress, Some(a)), env.anchor, SummarySubject(KindERC20Balance, None, Some(a), Some(t), ""), BalanceJob(a, t));
        if stop != Finished { OutcomeWidens(stop, upTo, all); return; }
      }
      assert tokens[..|tokens|] == tokens;
      stop := Finished;
    }

    /** runERC20BalanceLatestPass. */
    method RunERC20BalancePass() returns (stop: Stop)
      requires Progress()
      modifies this
      ensures Outcome(stop, old(done) + PassJobs(env, BalancePass))
    {
      hide Records, SubjectsOf, Comparisons, Progress, BalanceRow, BalanceJobs;
      if |env.addressPlans| == 0 || |env.tokenPlans| == 0 { return Finished; }
      if env.addresses.None? || env.tokens.None? { return Finished; }
      var metrics := FilterByCapability(env.metrics, ERC20BalanceAtLatest);
      if |metrics| == 0 { return Finished; }
      var sampled := CollectSampled(env.addressPlans, env.addresses.value);
      if sampled.None? {
        NothingSampled(BalancePass);
        return SamplingFailed;
      }
      var addrs := sampled.value;
      var sampledTokens := CollectSampled(env.tokenPlans, env.tokens.value);
      if sampledTokens.None? {
        NothingSampled(BalancePass);
        return SamplingFailed;
      }
      var tokens := sampledTokens.value;
      NoAddresses(tokens);
      ghost var start, all := done, BalanceJobs(addrs, tokens);
      for i := 0 to |addrs|
        invariant Progress() && done == start + BalanceJobs(addrs[..i], tokens)
      {
        BalanceJobsStep(addrs, tokens, i);
        ghost var upTo := start + BalanceJobs(addrs[..i + 1], tokens);
        assert done + BalanceRow(addrs[i], tokens) == upTo && done <= upTo <= start + all;
        stop := PollContext();
        if stop != Finished { OutcomeWidens(stop, done, start + all); return; }
        stop := VisitTokens(metrics, addrs[i], tokens);
        if stop != Finished { OutcomeWidens(stop, upTo, start + all); return; }
      }
      assert addrs[..|addrs|] == addrs;
      stop := Finished;
    }

    /** The five passes of executeInner, in order. */
    method RunPasses() returns (stop: Stop)
      requires Progress() && done == []
      modifies this
      ensures Outcome(stop, AllJobs(env))
    {
      hide Records, SubjectsOf, Comparisons, Progress, PassJobs;
      ghost var j1, j2, j3 := PassJobs(env, BlockPass), PassJobs(env, LatestPass), PassJobs(env, AtBlockPass);
      ghost var j4, j5 := PassJobs(env, HoldingsPass), PassJobs(env, BalancePass);
      assert [] + j1 == j1;
      stop := RunBlockPass();
      if stop != Finished { OutcomeWidens(stop, j1, AllJobs(env)); return; }
      stop := RunAddressLatestPass();
      if stop != Finished { OutcomeWidens(stop, j1 + j2, AllJobs(env)); return; }
      stop := RunAddressAtBlockPass();
      if stop != Finished { OutcomeWidens(stop, j1 + j2 + j3, AllJobs(env)); return; }
      stop := RunERC20HoldingsPass();
      if stop != Finished { OutcomeWidens(stop, j1 + j2 + j3 + j4, AllJobs(env)); return; }
      stop := RunERC20BalancePass();
    }

    /** summaryAccumulator.build. */
    method BuildSummary() returns (summary: RunSummary)
      requires Progress()
      ensures summary == SummaryOf(env, done)
    {
      hide Records, SubjectsOf, Comparisons;
      var ids: seq<string> := [];
      for i := 0 to |env.sources|
        invariant ids == SourceIds(env)[..i]
      {
        ids := ids + [env.sources[i].id];
      }
      summary := RunSummary(Some(env.anchor), subjects, ids, comparisons);
    }
  }

  // ---- Execute ------------------------------------------------------------

  /** executeInner. */
  method ExecuteInner(ports: Ports, run: Run) returns (error: Option<string>, saved: seq<DiffRecord>)
    modifies run
    ensures RunsAs(Planned(ports, old(run.State())), old(run.State()), run.State(), saved, error)
    ensures OverPorts(ports, old(run.State()), run.State(), saved, error)
  {
    hide Records, SubjectsOf, Comparisons, SavedOver, NothingMissed, SummaryOver;
    ghost var before := run.State();
    var sources := ports.forChain(run.chainId);
    if sources.Err? { return Some("execute run: source gateway: " + sources.error), []; }
    if |sources.value| < 2 { return Some("execute run: need at least 2 sources for comparison"), []; }
    var finalized := ports.finalized(run.chainId);
    if finalized.Err? { return Some("execute run: finalized: " + finalized.error), []; }
    var tip := ports.tip(run.chainId);
    if tip.Err? { return Some("execute run: tip: " + tip.error), []; }
    var engine := new Engine(EnvOf(ports, run.State(), sources.value, finalized.value, tip.value));
    var stop := engine.RunPasses();
    if stop != Finished {
      RunsOverPorts(ports, before, run.State(), engine.saved, Some("execute run: stopped"));
      return Some("execute run: stopped"), engine.saved;
    }
    var summary := engine.BuildSummary();
    var _ := run.RecordSummary(summary);
    RunsOverPorts(ports, before, run.State(), engine.saved, None);
    return None, engine.saved;
  }

  /** Execute. The run comes from its repository; the two flags say whether saving it fails. */
  method Execute(ports: Ports, run: Run, startedAt: int, endedAt: int, saveStartedFails: bool, saveCompletedFails: bool)
    returns (error: Option<string>, saved: seq<DiffRecord>)
    modifies run
    ensures old(run.status) != Pending ==> error.Some? && saved == [] && run.State() == old(run.State())
    ensures old(run.status) == Pending && saveStartedFails ==>
      error.Some? && saved == [] && run.State() == Apply(old(run.State()), OpStart(startedAt))
    ensures old(run.status) == Pending && !saveStartedFails ==>
      var started := Apply(old(run.State()), OpStart(startedAt));
      exists ran, inner :: RunsAs(Planned(ports, started), started, ran, saved, inner)
        && OverPorts(ports, started, ran, saved, inner) && run.summary == ran.summary
        && run.State() == Apply(ran, if inner.Some? then OpFail(endedAt, inner) else OpComplete(endedAt))
        && (run.status == if inner.Some? then Failed else Completed)
        && (error.Some? <==> inner.Some? || saveCompletedFails)
  {
    hide RunsAs, OverPorts;
    var ok := run.Start(startedAt);
    if !ok { return Some("execute run: start"), []; }
    if saveStartedFails { return Some("execute run: save started"), []; }
    var inner, diffs := ExecuteInner(ports, run);
    ghost var ran := run.State();
    StillRunning(Planned(ports, Apply(old(run.State()), OpStart(startedAt))), Apply(old(run.State()), OpStart(startedAt)), ran, diffs, inner);
    if inner.Some? {
      var _ := run.Fail(endedAt, inner);
      return inner, diffs;
    }
    ok := run.Complete(endedAt);
    if saveCompletedFails { return Some("execute run: save completed"), diffs; }
    return None, diffs;
  }

  lemma {:induction false} AtBlockJobsStep(addrs: seq<Address>, xs: seq<Uint64>, i: nat)
    requires i < |addrs|
    ensures AtBlockJobs(addrs[..i + 1], xs) == AtBlockJobs(addrs[..i], xs) + AtBlockRow(addrs[i], xs)
    ensures AtBlockJobs(addrs[..i + 1], xs) <= AtBlockJobs(addrs, xs)
    decreases |addrs| - i
  {
    assert addrs[..i + 1][..i] == addrs[..i];
    if i + 1 == |addrs| {
      assert addrs[..i + 1] == addrs;
    } else {
      AtBlockJobsStep(addrs, xs, i + 1);
    }
  }

  lemma {:induction false} BalanceJobsStep(addrs: seq<Address>, xs: seq<Address>, i: nat)
    requires i < |addrs|
    ensures BalanceJobs(addrs[..i + 1], xs) == BalanceJobs(addrs[..i], xs) + BalanceRow(addrs[i], xs)
    ensures BalanceJobs(addrs[..i + 1], xs) <= BalanceJobs(addrs, xs)
    decreases |addrs| - i
  {
    assert addrs[..i + 1][..i] == addrs[..i];
    if i + 1 == |addrs| {
      assert addrs[..i + 1] == addrs;
    } else {
      BalanceJobsStep(addrs, xs, i + 1);
    }
  }

  lemma NoAtBlockJobs(blocks: seq<Uint64>)
    ensures AtBlockJobs([], blocks) == []
  {
  }

  lemma NoAddresses(tokens: seq<Address>)
    ensures BalanceJobs([], tokens) == []
  {
  }

  lemma {:induction false} NoBalanceJobs(addrs: seq<Address>)
    ensures BalanceJobs(addrs, []) == [] && BalanceJobs([], []) == []
  {
    if addrs != [] { NoBalanceJobs(addrs[..|addrs| - 1]); }
  }

  lemma MetricRecordsOfNone(env: Env, job: Job, metrics: seq<Metric>)
    ensures MetricRecords(env, job, metrics[..0]) == []
  {
  }

  lemma MetricRecordsSnoc(env: Env, job: Job, metrics: seq<Metric>, n: nat)
    requires n < |metrics|
    ensures MetricRecords(env, job, metrics[..n + 1]) == MetricRecords(env, job, metrics[..n]) + MetricRecord(env, job, metrics[n])
  {
    assert metrics[..n + 1][..n] == metrics[..n];
  }

  lemma {:induction false} MetricRecordsPrefix(env: Env, job: Job, metrics: seq<Metric>, n: nat)
    requires n <= |metrics|
    ensures MetricRecords(env, job, metrics[..n]) <= MetricRecords(env, job, metrics)
    decreases |metrics| - n
  {
    if n == |metrics| {
      assert metrics[..n] == metrics;
    } else {
      MetricRecordsPrefix(env, job, metrics, n + 1);
      MetricRecordsSnoc(env, job, metrics, n);
    }
  }
}
