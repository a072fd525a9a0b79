/** A run of the engine over its ports: what it plans, what it amounts to, and what that says
of the ports themselves (executeInner of internal/application/execute_run.go). */
module RunSpec {
  import opened Prelude
  import opened Sorting
  import opened Address
  import opened Metrics
  import opened Tolerance
  import opened Judgement
  import opened Extract
  import opened Sampling
  import opened RunLifecycle
  import opened EngineSpec
  import opened Findings

  /** A sampler port: chain, plan and anchor to the addresses drawn. */
  type Sampler<!P> = (Uint64, P, Uint64) -> Result<seq<Address>>

  /** The ports ExecuteRun is built from. */
  datatype Ports = Ports(
    hash: Hasher, forChain: Uint64 -> Result<seq<Source>>, finalized: Uint64 -> Result<Uint64>, tip: Uint64 -> Result<Uint64>,
    blocks: (Strategy, Uint64) -> seq<Uint64>,
    addresses: Option<Sampler<AddressPlan>>,
    tokens: Option<Sampler<TokenPlan>>,
    resolver: Option<Resolver>, trust: seq<string>, cancelled: nat -> bool, saveFails: nat -> bool)

  function AddressSampler(ports: Ports, chainId: Uint64, anchor: Uint64): Option<AddressPlan -> Result<seq<Address>>> {
    match ports.addresses
    case None => None
    case Some(f) => Some(p => f(chainId, p, anchor))
  }

  function TokenSampler(ports: Ports, chainId: Uint64, anchor: Uint64): Option<TokenPlan -> Result<seq<Address>>> {
    match ports.tokens
    case None => None
    case Some(f) => Some(p => f(chainId, p, anchor))
  }

  function EnvOf(ports: Ports, run: RunState, sources: seq<Source>, anchor: Uint64, tip: Uint64): Env {
    Env(ports.hash, run.id, sources, run.metrics, run.addressPlans, run.tokenPlans,
        AddressSampler(ports, run.chainId, anchor), TokenSampler(ports, run.chainId, anchor),
        if ports.resolver.Some? then ports.resolver.value else Resolver(map[]), ports.trust,
        ports.blocks(run.strategy, tip), anchor, ports.cancelled, ports.saveFails)
  }

  /** What the passes run on, or why they never start. */
  function Planned(ports: Ports, run: RunState): Result<Env> {
    match (ports.forChain(run.chainId), ports.finalized(run.chainId), ports.tip(run.chainId))
    case (Err(e), _, _) => Err("execute run: source gateway: " + e)
    case (Ok(sources), finalized, tip) =>
      if |sources| < 2 then Err("execute run: need at least 2 sources for comparison")
      else
        (match (finalized, tip)
         case (Err(e), _) => Err("execute run: finalized: " + e)
         case (_, Err(e)) => Err("execute run: tip: " + e)
         case (Ok(a), Ok(t)) => Ok(EnvOf(ports, run, sources, a, t)))
  }

  /** Nothing gets in the way of the run. */
  ghost predicate Unhindered(env: Env) {
    && (forall n :: !env.cancelled(n)) && (forall n :: !env.saveFails(n))
    && (env.addresses.Some? ==> SampledAddresses(env).Some?) && (env.tokens.Some? ==> SampledTokens(env).Some?)
  }

  /** What a started run amounts to: with no error every record of the spec was saved, in
      order, and the summary recorded; with an error the saved diffs are a prefix. */
  ghost predicate RunsAs(plan: Result<Env>, before: RunState, after: RunState, saved: seq<DiffRecord>, error: Option<string>) {
    match plan
    case Err(e) => error == Some(e) && saved == [] && after == before
    case Ok(env) =>
      && (Unhindered(env) ==> error.None?)
      && (if error.None? then
            saved == Records(env, AllJobs(env)) && after == Apply(before, OpRecordSummary(SummaryOf(env, AllJobs(env))))
          else
            saved <= Records(env, AllJobs(env)) && after == before && Hindrance(env, saved))
  }

  /** What stopped a run: its context, a save that failed before all was saved, or a sampler. */
  ghost predicate Hindrance(env: Env, saved: seq<DiffRecord>) {
    || (exists n :: env.cancelled(n))
    || (env.saveFails(|saved|) && saved != Records(env, AllJobs(env)))
    || (env.addresses.Some? && SampledAddresses(env).None?)
    || (env.tokens.Some? && SampledTokens(env).None?)
  }

  /** The passes leave the status alone, so Complete and Fail are accepted. */
  lemma StillRunning(plan: Result<Env>, before: RunState, after: RunState, saved: seq<DiffRecord>, error: Option<string>)
    requires RunsAs(plan, before, after, saved, error) && before.status == Running
    ensures after.status == Running
  {
    hide Records, AllJobs, SummaryOf, Hindrance, Unhindered;
  }

  // ---- samples, over the ports ----------------------------------------------

  /** Plan i drew this address. */
  ghost predicate Drew<P(!new)>(port: Option<Sampler<P>>, plans: seq<P>, chain: Uint64, anchor: Uint64, i: int, x: Address) {
    port.Some? && 0 <= i < |plans| && port.value(chain, plans[i], anchor).Ok? && x in port.value(chain, plans[i], anchor).value
  }

  ghost predicate AllDraw<P(!new)>(port: Option<Sampler<P>>, plans: seq<P>, chain: Uint64, anchor: Uint64) {
    port.Some? && forall i :: 0 <= i < |plans| ==> port.value(chain, plans[i], anchor).Ok?
  }

  /** The byte-ascending list of all that the plans drew. */
  ghost predicate ListsDrawn<P(!new)>(port: Option<Sampler<P>>, plans: seq<P>, chain: Uint64, anchor: Uint64, xs: seq<Address>) {
    && (forall i, j :: 0 <= i < j < |xs| ==> LexLess(xs[i], xs[j]))
    && forall x :: x in xs <==> AllDraw(port, plans, chain, anchor) && exists i :: Drew(port, plans, chain, anchor, i, x)
  }

  ghost function AddressesOver(ports: Ports, run: RunState, anchor: Uint64): (xs: seq<Address>)
    ensures ListsDrawn(ports.addresses, run.addressPlans, run.chainId, anchor, xs)
  {
    match AddressSampler(ports, run.chainId, anchor)
    case None => []
    case Some(sample) =>
      DrawnOf(ports.addresses, run.addressPlans, run.chainId, anchor, sample);
      OrEmpty(Collected(run.addressPlans, sample))
  }

  ghost function TokensOver(ports: Ports, run: RunState, anchor: Uint64): (xs: seq<Address>)
    ensures ListsDrawn(ports.tokens, run.tokenPlans, run.chainId, anchor, xs)
  {
    match TokenSampler(ports, run.chainId, anchor)
    case None => []
    case Some(sample) =>
      DrawnOf(ports.tokens, run.tokenPlans, run.chainId, anchor, sample);
      OrEmpty(Collected(run.tokenPlans, sample))
  }

  lemma DrawnOf<P(!new)>(port: Option<Sampler<P>>, plans: seq<P>, chain: Uint64, anchor: Uint64, sample: P -> Result<seq<Address>>)
    requires port.Some? && forall p :: sample(p) == port.value(chain, p, anchor)
    ensures ListsDrawn(port, plans, chain, anchor, OrEmpty(Collected(plans, sample)))
  {
    if AllSampled(plans, sample) {
      var xs := AscendingList(UnionOf(plans, sample));
      assert AllDraw(port, plans, chain, anchor) by {
        forall i | 0 <= i < |plans| ensures port.value(chain, plans[i], anchor).Ok? { assert plans[i] in plans; }
      }
      forall x ensures x in xs <==> exists i :: Drew(port, plans, chain, anchor, i, x) {
        assert x in xs <==> x in Elements(xs);
        if x in UnionOf(plans, sample) {
          var i :| 0 <= i < |plans| && x in SampleAt(plans, sample, i);
          assert Drew(port, plans, chain, anchor, i, x);
        }
        if i :| Drew(port, plans, chain, anchor, i, x) { assert x in SampleAt(plans, sample, i); }
      }
    } else {
      var p :| p in plans && sample(p).Err?;
      var i :| 0 <= i < |plans| && plans[i] == p;
      assert !AllDraw(port, plans, chain, anchor);
    }
  }

  // ---- the summary, over the ports ------------------------------------------

  ghost function CategoryIndexes(metrics: seq<Metric>, c: Category): set<int> { set i | 0 <= i < |metrics| && metrics[i].category == c }

  ghost function CapabilityIndexes(metrics: seq<Metric>, c: Capability): set<int> { set i | 0 <= i < |metrics| && metrics[i].capability == c }

  function OnlyIf<T>(c: bool, s: seq<T>): seq<T> { if c then s else [] }

  ghost function BlockSubjects(blocks: seq<Uint64>): seq<SummarySubject> {
    seq(|blocks|, i requires 0 <= i < |blocks| => SummarySubject(KindBlock, Some(blocks[i]), None, None, ""))
  }

  ghost function AddressSubjects(kind: SubjectKind, addrs: seq<Address>): seq<SummarySubject> {
    seq(|addrs|, i requires 0 <= i < |addrs| => SummarySubject(kind, None, Some(addrs[i]), None, ""))
  }

  /** One entry per pair, the first component outermost. */
  function Pairs<A, B, T>(xs: seq<A>, ys: seq<B>, f: (A, B) -> T): seq<T> {
    if xs == [] then []
    else
      Pairs(xs[..|xs| - 1], ys, f) + seq(|ys|, j requires 0 <= j < |ys| => f(xs[|xs| - 1], ys[j]))
  }

  lemma {:induction false} PairsSize<A, B, T>(xs: seq<A>, ys: seq<B>, f: (A, B) -> T)
    ensures |Pairs(xs, ys, f)| == |xs| * |ys|
  {
    if xs != [] {
      PairsSize(xs[..|xs| - 1], ys, f);
      SumAndOne(|xs| - 1, |ys|);
    }
  }

  /** The pair of x number i and y number j comes at place i |ys| + j. */
  lemma {:induction false} PairsAt<A, B, T>(xs: seq<A>, ys: seq<B>, f: (A, B) -> T, i: nat, j: nat)
    requires i < |xs| && j < |ys|
    ensures |Pairs(xs, ys, f)| == |xs| * |ys| && i * |ys| + j < |xs| * |ys|
    ensures Pairs(xs, ys, f)[i * |ys| + j] == f(xs[i], ys[j])
  {
    PairsSize(xs, ys, f);
    PairsSize(xs[..|xs| - 1], ys, f);
    SumAndOne(|xs| - 1, |ys|);
    if i < |xs| - 1 { PairsAt(xs[..|xs| - 1], ys, f, i, j); }
  }

  ghost function AddressAtBlock(): (Address, Uint64) -> SummarySubject {
    (a: Address, b: Uint64) => SummarySubject(KindAddressAtBlock, Some(b), Some(a), None, "")
  }

  ghost function TokenBalance(): (Address, Address) -> SummarySubject {
    (a: Address, t: Address) => SummarySubject(KindERC20Balance, None, Some(a), Some(t), "")
  }

  /** The subjects of a run over these samples, pass by pass. */
  ghost function SubjectsOver(metrics: seq<Metric>, blocks: seq<Uint64>, addrs: seq<Address>, tokens: seq<Address>): seq<SummarySubject> {
    OnlyIf(CategoryIndexes(metrics, CatBlockImmutable) != {}, BlockSubjects(blocks))
    + OnlyIf(CategoryIndexes(metrics, CatAddressLatest) != {}, AddressSubjects(KindAddressLatest, addrs))
    + OnlyIf(CategoryIndexes(metrics, CatAddressAtBlock) != {}, Pairs(addrs, blocks, AddressAtBlock()))
    + OnlyIf(CapabilityIndexes(metrics, ERC20HoldingsAtLatest) != {}, AddressSubjects(KindERC20Holdings, addrs))
    + OnlyIf(CapabilityIndexes(metrics, ERC20BalanceAtLatest) != {}, Pairs(addrs, tokens, TokenBalance()))
  }

  /** The summary of a run: its anchor, its sources, its subjects, and how often it compared. */
  ghost predicate SummaryOver(ports: Ports, run: RunState, anchor: Uint64, tip: Uint64, summary: RunSummary)
    requires ports.forChain(run.chainId).Ok?
  {
    var sources, blocks := ports.forChain(run.chainId).value, ports.blocks(run.strategy, tip);
    var addrs, tokens := AddressesOver(ports, run, anchor), TokensOver(ports, run, anchor);
    && summary.anchor == Some(anchor)
    && |summary.sourcesUsed| == |sources| && (forall i :: 0 <= i < |sources| ==> summary.sourcesUsed[i] == sources[i].id)
    && summary.subjects == SubjectsOver(run.metrics, blocks, addrs, tokens)
    && summary.comparisons ==
         |blocks| * |CategoryIndexes(run.metrics, CatBlockImmutable)|
         + |addrs| * |CategoryIndexes(run.metrics, CatAddressLatest)|
         + |addrs| * |blocks| * |CategoryIndexes(run.metrics, CatAddressAtBlock)|
         + |addrs| * |CapabilityIndexes(run.metrics, ERC20HoldingsAtLatest)|
         + |addrs| * |tokens| * |CapabilityIndexes(run.metrics, ERC20BalanceAtLatest)|
  }

  // ---- filters keep exactly their metrics -----------------------------------

  lemma {:induction false} CategoryMembers(metrics: seq<Metric>, c: Category, m: Metric)
    ensures m in ByCategory(metrics, c) <==> m in metrics && m.category == c
  {
    if metrics != [] {
      var n := |metrics| - 1;
      CategoryMembers(metrics[..n], c, m);
      assert metrics == metrics[..n] + [metrics[n]];
    }
  }

  lemma NoneOfCategory(c: Category)
    ensures CategoryIndexes([], c) == {}
  {
  }

  lemma NoneOfCapability(c: Capability)
    ensures CapabilityIndexes([], c) == {}
  {
  }

  lemma CategoryStep(metrics: seq<Metric>, c: Category)
    requires metrics != []
    ensures var n := |metrics| - 1;
      && n !in CategoryIndexes(metrics[..n], c)
      && CategoryIndexes(metrics, c) == CategoryIndexes(metrics[..n], c) + (if metrics[n].category == c then {n} else {})
  {
  }

  lemma {:induction false} CategorySize(metrics: seq<Metric>, c: Category)
    ensures |ByCategory(metrics, c)| == |CategoryIndexes(metrics, c)|
  {
    NoneOfCategory(c);
    hide CategoryIndexes;
    if metrics != [] {
      var n := |metrics| - 1;
      CategorySize(metrics[..n], c);
      CategoryStep(metrics, c);
    }
  }

  lemma {:induction false} CapabilityMembers(metrics: seq<Metric>, c: Capability, m: Metric)
    ensures m in ByCapability(metrics, c) <==> m in metrics && m.capability == c
  {
    if metrics != [] {
      var n := |metrics| - 1;
      CapabilityMembers(metrics[..n], c, m);
      assert metrics == metrics[..n] + [metrics[n]];
    }
  }

  lemma CapabilityStep(metrics: seq<Metric>, c: Capability)
    requires metrics != []
    ensures var n := |metrics| - 1;
      && n !in CapabilityIndexes(metrics[..n], c)
      && CapabilityIndexes(metrics, c) == CapabilityIndexes(metrics[..n], c) + (if metrics[n].capability == c then {n} else {})
  {
  }

  lemma {:induction false} CapabilitySize(metrics: seq<Metric>, c: Capability)
    ensures |ByCapability(metrics, c)| == |CapabilityIndexes(metrics, c)|
  {
    NoneOfCapability(c);
    hide CapabilityIndexes;
    if metrics != [] {
      var n := |metrics| - 1;
      CapabilitySize(metrics[..n], c);
      CapabilityStep(metrics, c);
    }
  }

  // ---- the subjects of the jobs ---------------------------------------------

  lemma {:induction false} AtBlockSubjects(addrs: seq<Address>, blocks: seq<Uint64>)
    ensures SubjectsOf(AtBlockJobs(addrs, blocks)) == Pairs(addrs, blocks, AddressAtBlock())
  {
    if addrs != [] {
      var n := |addrs| - 1;
      AtBlockSubjects(addrs[..n], blocks);
      SubjectsAppend(AtBlockJobs(addrs[..n], blocks), AtBlockRow(addrs[n], blocks));
    }
  }

  lemma {:induction false} BalanceSubjects(addrs: seq<Address>, tokens: seq<Address>)
    ensures SubjectsOf(BalanceJobs(addrs, tokens)) == Pairs(addrs, tokens, TokenBalance())
  {
    if addrs != [] {
      var n := |addrs| - 1;
      BalanceSubjects(addrs[..n], tokens);
      SubjectsAppend(BalanceJobs(addrs[..n], tokens), BalanceRow(addrs[n], tokens));
    }
  }

  lemma SubjectsAppend(xs: seq<Job>, ys: seq<Job>)
    ensures SubjectsOf(xs + ys) == SubjectsOf(xs) + SubjectsOf(ys)
  {
  }

  /** What each pass contributes to the subjects. */
  lemma PassSubjects(env: Env, addrs: seq<Address>, tokens: seq<Address>)
    requires addrs == OrEmpty(SampledAddresses(env)) && tokens == OrEmpty(SampledTokens(env))
    requires env.addressPlans == [] ==> addrs == []
    requires env.tokenPlans == [] ==> tokens == []
    ensures SubjectsOf(PassJobs(env, BlockPass)) == OnlyIf(CategoryIndexes(env.metrics, CatBlockImmutable) != {}, BlockSubjects(env.blocks))
    ensures SubjectsOf(PassJobs(env, LatestPass)) ==
      OnlyIf(CategoryIndexes(env.metrics, CatAddressLatest) != {}, AddressSubjects(KindAddressLatest, addrs))
    ensures SubjectsOf(PassJobs(env, AtBlockPass)) ==
      OnlyIf(CategoryIndexes(env.metrics, CatAddressAtBlock) != {}, Pairs(addrs, env.blocks, AddressAtBlock()))
    ensures SubjectsOf(PassJobs(env, HoldingsPass)) ==
      OnlyIf(CapabilityIndexes(env.metrics, ERC20HoldingsAtLatest) != {}, AddressSubjects(KindERC20Holdings, addrs))
    ensures SubjectsOf(PassJobs(env, BalancePass)) ==
      OnlyIf(CapabilityIndexes(env.metrics, ERC20BalanceAtLatest) != {}, Pairs(addrs, tokens, TokenBalance()))
  {
    hide Collected, ByCategory, ByCapability, AtBlockJobs, BalanceJobs, Pairs, CategoryIndexes, CapabilityIndexes;
    NoMetrics(env);
    AtBlockSubjects(addrs, env.blocks);
    BalanceSubjects(addrs, tokens);
    PairsSize(addrs, env.blocks, AddressAtBlock());
    PairsSize(addrs, tokens, TokenBalance());
  }

  /** A pass has a metric exactly when the run has one of its kind. */
  lemma NoMetrics(env: Env)
    ensures PassMetrics(env, BlockPass) == [] <==> CategoryIndexes(env.metrics, CatBlockImmutable) == {}
    ensures PassMetrics(env, LatestPass) == [] <==> CategoryIndexes(env.metrics, CatAddressLatest) == {}
    ensures PassMetrics(env, AtBlockPass) == [] <==> CategoryIndexes(env.metrics, CatAddressAtBlock) == {}
    ensures PassMetrics(env, HoldingsPass) == [] <==> CapabilityIndexes(env.metrics, ERC20HoldingsAtLatest) == {}
    ensures PassMetrics(env, BalancePass) == [] <==> CapabilityIndexes(env.metrics, ERC20BalanceAtLatest) == {}
  {
    hide ByCategory, ByCapability, CategoryIndexes, CapabilityIndexes;
    CategorySize(env.metrics, CatBlockImmutable);
    CategorySize(env.metrics, CatAddressLatest);
    CategorySize(env.metrics, CatAddressAtBlock);
    CapabilitySize(env.metrics, ERC20HoldingsAtLatest);
    CapabilitySize(env.metrics, ERC20BalanceAtLatest);
  }

  lemma HeadIn<T>(xs: seq<T>)
    ensures xs == [] || xs[0] in xs
  {
  }

  lemma NothingDrawn(ports: Ports, run: RunState, anchor: Uint64)
    ensures run.addressPlans == [] ==> AddressesOver(ports, run, anchor) == []
    ensures run.tokenPlans == [] ==> TokensOver(ports, run, anchor) == []
  {
    HeadIn(AddressesOver(ports, run, anchor));
    HeadIn(TokensOver(ports, run, anchor));
  }

  lemma SampledOver(ports: Ports, run: RunState, sources: seq<Source>, anchor: Uint64, tip: Uint64)
    ensures var env := EnvOf(ports, run, sources, anchor, tip);
      AddressesOver(ports, run, anchor) == OrEmpty(SampledAddresses(env)) && TokensOver(ports, run, anchor) == OrEmpty(SampledTokens(env))
  {
    hide Collected, ListsDrawn;
  }

  lemma JobSubjectsOver(env: Env, addrs: seq<Address>, tokens: seq<Address>)
    requires addrs == OrEmpty(SampledAddresses(env)) && tokens == OrEmpty(SampledTokens(env))
    requires (env.addressPlans == [] ==> addrs == []) && (env.tokenPlans == [] ==> tokens == [])
    ensures SubjectsOf(AllJobs(env)) == SubjectsOver(env.metrics, env.blocks, addrs, tokens)
  {
    hide PassJobs, SubjectsOf, SampledAddresses, SampledTokens, OnlyIf, Pairs, CategoryIndexes, CapabilityIndexes;
    PassSubjects(env, addrs, tokens);
    var j1, j2, j3 := PassJobs(env, BlockPass), PassJobs(env, LatestPass), PassJobs(env, AtBlockPass);
    var j4, j5 := PassJobs(env, HoldingsPass), PassJobs(env, BalancePass);
    SubjectsAppend(j1, j2);
    SubjectsAppend(j1 + j2, j3);
    SubjectsAppend(j1 + j2 + j3, j4);
    SubjectsAppend(j1 + j2 + j3 + j4, j5);
  }

  /** A pass that is off has no metrics or no subjects. */
  lemma PassWeight(env: Env, p: Pass, size: nat)
    requires !Enabled(env, p) ==> size == 0 || PassMetrics(env, p) == []
    requires Enabled(env, p) ==> size == PassSize(env, p)
    ensures PassSize(env, p) * |PassMetrics(env, p)| == size * |PassMetrics(env, p)|
  {
    hide PassMetrics;
  }

  lemma ComparisonsOver(env: Env, addrs: seq<Address>, tokens: seq<Address>)
    requires addrs == OrEmpty(SampledAddresses(env)) && tokens == OrEmpty(SampledTokens(env))
    requires (env.addressPlans == [] ==> addrs == []) && (env.tokenPlans == [] ==> tokens == [])
    ensures Comparisons(env, AllJobs(env)) ==
        |env.blocks| * |CategoryIndexes(env.metrics, CatBlockImmutable)|
        + |addrs| * |CategoryIndexes(env.metrics, CatAddressLatest)|
        + |addrs| * |env.blocks| * |CategoryIndexes(env.metrics, CatAddressAtBlock)|
        + |addrs| * |CapabilityIndexes(env.metrics, ERC20HoldingsAtLatest)|
        + |addrs| * |tokens| * |CapabilityIndexes(env.metrics, ERC20BalanceAtLatest)|
  {
    hide Collected, ByCategory, ByCapability, CategoryIndexes, CapabilityIndexes, Comparisons, AllJobs;
    ComparisonCount(env);
    CategorySize(env.metrics, CatBlockImmutable);
    CategorySize(env.metrics, CatAddressLatest);
    CategorySize(env.metrics, CatAddressAtBlock);
    CapabilitySize(env.metrics, ERC20HoldingsAtLatest);
    CapabilitySize(env.metrics, ERC20BalanceAtLatest);
    PassWeight(env, BlockPass, |env.blocks|);
    PassWeight(env, LatestPass, |addrs|);
    PassWeight(env, AtBlockPass, |addrs| * |env.blocks|);
    PassWeight(env, HoldingsPass, |addrs|);
    PassWeight(env, BalancePass, |addrs| * |tokens|);
  }

  /** The summary of the planned jobs is the one the ports call for. */
  lemma SummaryFromPorts(ports: Ports, run: RunState, sources: seq<Source>, anchor: Uint64, tip: Uint64)
    requires ports.forChain(run.chainId) == Ok(sources)
    ensures var env := EnvOf(ports, run, sources, anchor, tip);
      SummaryOver(ports, run, anchor, tip, SummaryOf(env, AllJobs(env)))
  {
    hide Collected, ListsDrawn, AllJobs, SubjectsOf, SubjectsOver, Comparisons, CategoryIndexes, CapabilityIndexes;
    hide OrEmpty, SampledAddresses, SampledTokens;
    var env := EnvOf(ports, run, sources, anchor, tip);
    NothingDrawn(ports, run, anchor);
    SampledOver(ports, run, sources, anchor, tip);
    JobSubjectsOver(env, AddressesOver(ports, run, anchor), TokensOver(ports, run, anchor));
    ComparisonsOver(env, AddressesOver(ports, run, anchor), TokensOver(ports, run, anchor));
  }

  lemma {:induction false} PairsKind<A, B>(xs: seq<A>, ys: seq<B>, f: (A, B) -> SummarySubject, kind: SubjectKind, s: SummarySubject)
    requires (forall x, y :: f(x, y).kind != kind) && s in Pairs(xs, ys, f)
    ensures s.kind != kind
  {
    if xs != [] && s in Pairs(xs[..|xs| - 1], ys, f) { PairsKind(xs[..|xs| - 1], ys, f, kind, s); }
  }

  ghost predicate NoBlocks(s: seq<SummarySubject>) { forall x :: x in s ==> x.kind != KindBlock }

  lemma NoBlocksAppend(s: seq<SummarySubject>, t: seq<SummarySubject>)
    requires NoBlocks(s) && NoBlocks(t)
    ensures NoBlocks(s + t)
  {
  }

  lemma NoBlocksIn(addrs: seq<Address>, blocks: seq<Uint64>, tokens: seq<Address>)
    ensures NoBlocks(AddressSubjects(KindAddressLatest, addrs)) && NoBlocks(AddressSubjects(KindERC20Holdings, addrs))
    ensures NoBlocks(Pairs(addrs, blocks, AddressAtBlock())) && NoBlocks(Pairs(addrs, tokens, TokenBalance()))
  {
    hide Pairs;
    forall s | s in Pairs(addrs, blocks, AddressAtBlock()) ensures s.kind != KindBlock { PairsKind(addrs, blocks, AddressAtBlock(), KindBlock, s); }
    forall s | s in Pairs(addrs, tokens, TokenBalance()) ensures s.kind != KindBlock { PairsKind(addrs, tokens, TokenBalance(), KindBlock, s); }
  }

  /** The subjects after the blocks are not blocks. */
  lemma BlocksFirst(metrics: seq<Metric>, blocks: seq<Uint64>, addrs: seq<Address>, tokens: seq<Address>) returns (rest: seq<SummarySubject>)
    requires CategoryIndexes(metrics, CatBlockImmutable) != {}
    ensures SubjectsOver(metrics, blocks, addrs, tokens) == BlockSubjects(blocks) + rest && NoBlocks(rest)
  {
    hide CategoryIndexes, CapabilityIndexes, Pairs, BlockSubjects, AddressSubjects, NoBlocks;
    NoBlocksIn(addrs, blocks, tokens);
    var a := OnlyIf(CategoryIndexes(metrics, CatAddressLatest) != {}, AddressSubjects(KindAddressLatest, addrs));
    var b := OnlyIf(CategoryIndexes(metrics, CatAddressAtBlock) != {}, Pairs(addrs, blocks, AddressAtBlock()));
    var c := OnlyIf(CapabilityIndexes(metrics, ERC20HoldingsAtLatest) != {}, AddressSubjects(KindERC20Holdings, addrs));
    var d := OnlyIf(CapabilityIndexes(metrics, ERC20BalanceAtLatest) != {}, Pairs(addrs, tokens, TokenBalance()));
    EmptyNoBlocks();
    NoBlocksAppend(a, b);
    NoBlocksAppend(a + b, c);
    NoBlocksAppend(a + b + c, d);
    rest := a + b + c + d;
  }

  lemma EmptyNoBlocks()
    ensures NoBlocks([])
  {
  }

  /** So for a run with a block metric the block subjects are the blocks sampled up to the tip,
      in order, and they come first. */
  lemma BlocksNamed(ports: Ports, run: RunState, anchor: Uint64, tip: Uint64, summary: RunSummary, m: Metric)
    requires ports.forChain(run.chainId).Ok? && SummaryOver(ports, run, anchor, tip, summary)
    requires m in run.metrics && m.category == CatBlockImmutable
    ensures var blocks := ports.blocks(run.strategy, tip);
      && |blocks| <= |summary.subjects|
      && (forall i :: 0 <= i < |blocks| ==> summary.subjects[i] == SummarySubject(KindBlock, Some(blocks[i]), None, None, ""))
      && forall i :: |blocks| <= i < |summary.subjects| ==> summary.subjects[i].kind != KindBlock
  {
    hide SubjectsOver, ListsDrawn, AddressesOver, TokensOver;
    var blocks := ports.blocks(run.strategy, tip);
    var k :| 0 <= k < |run.metrics| && run.metrics[k] == m;
    assert k in CategoryIndexes(run.metrics, CatBlockImmutable);
    var rest := BlocksFirst(run.metrics, blocks, AddressesOver(ports, run, anchor), TokensOver(ports, run, anchor));
    forall i | |blocks| <= i < |summary.subjects| ensures summary.subjects[i].kind != KindBlock {
      assert summary.subjects[i] == rest[i - |blocks|];
    }
  }

  // ---- the records, over the ports ------------------------------------------

  /** Under this plan the run asks the job for a metric, and files the answers at this height
      and subject. */
  ghost predicate Asks(ports: Ports, run: RunState, anchor: Uint64, tip: Uint64, job: Job, m: Metric, block: Uint64, subject: Subject) {
    && m in run.metrics
    && match job
       case BlockJob(b) =>
         m.category == CatBlockImmutable && b in ports.blocks(run.strategy, tip)
         && block == b && subject == Subject(SubjectBlock, None)
       case LatestJob(x) =>
         m.category == CatAddressLatest && x in AddressesOver(ports, run, anchor)
         && block == anchor && subject == Subject(SubjectAddress, Some(x))
       case AtBlockJob(x, b) =>
         m.category == CatAddressAtBlock && x in AddressesOver(ports, run, anchor) && b in ports.blocks(run.strategy, tip)
         && block == b && subject == Subject(SubjectAddress, Some(x))
       case HoldingsJob(x) =>
         m.capability == ERC20HoldingsAtLatest && x in AddressesOver(ports, run, anchor)
         && block == anchor && subject == Subject(SubjectAddress, Some(x))
       case BalanceJob(x, t) =>
         m.capability == ERC20BalanceAtLatest && x in AddressesOver(ports, run, anchor) && t in TokensOver(ports, run, anchor)
         && block == anchor && subject == Subject(SubjectAddress, Some(x))
  }

  /** Source i, called sid, supports the capability, answered the job and filled the field. */
  ghost predicate Supplies(hash: Hasher, sources: seq<Source>, job: Job, c: Capability, sid: string, i: int) {
    && 0 <= i < |sources| && sources[i].id == sid && sources[i].supports(c) && sources[i].fetch(job).Ok?
    && Project(hash, c, sources[i].fetch(job).value).Some?
  }

  /** And no later source of that id does; what it supplied is v. */
  ghost predicate SuppliesLast(hash: Hasher, sources: seq<Source>, job: Job, c: Capability, sid: string, i: int, v: ValueSnapshot) {
    && Supplies(hash, sources, job, c, sid, i) && (forall k :: i < k ==> !Supplies(hash, sources, job, c, sid, k))
    && Project(hash, c, sources[i].fetch(job).value) == Some(v)
  }

  /** The values are what the sources answered, one per id. */
  ghost predicate ValuesAre(hash: Hasher, sources: seq<Source>, job: Job, c: Capability, values: Snapshots) {
    && (forall sid, i :: Supplies(hash, sources, job, c, sid, i) ==> sid in values)
    && forall sid :: sid in values ==> exists i :: SuppliesLast(hash, sources, job, c, sid, i, values[sid])
  }

  /** Two texts differ, and for a metric at latest no answer reflects a block outside the 64
      from the anchor on. */
  ghost predicate Differ(m: Metric, anchor: Uint64, values: Snapshots) {
    && (exists a, b :: a in values && b in values && values[a].raw != values[b].raw)
    && m.category != CatSnapshot
    && (m.category == CatAddressLatest ==>
          forall a :: a in values && values[a].reflected.Some? ==> anchor <= values[a].reflected.value <= anchor + 64)
  }

  /** The record of what the sources answered to one job about one metric. */
  ghost predicate Files(ports: Ports, run: RunState, sources: seq<Source>, anchor: Uint64, tip: Uint64, job: Job, r: DiffRecord) {
    var d := r.discrepancy;
    && Asks(ports, run, anchor, tip, job, d.metric, d.block, d.subject)
    && ValuesAre(ports.hash, sources, job, d.metric.capability, d.values)
    && d.runId == run.id && r.anchor == anchor && r.seed.None? && r.tier == Tier(d.metric.capability)
    && JudgedAs(ports.trust, d, r.judgement)
  }

  function OverridesOf(ports: Ports): map<string, Tolerance> { if ports.resolver.Some? then ports.resolver.value.overrides else map[] }

  /** Two or more answers that the tolerance set for the metric calls a disagreement; without
      one, answers that differ. */
  ghost predicate Rejected(ports: Ports, m: Metric, anchor: Uint64, values: Snapshots) {
    && |values| >= 2
    && if m.key in OverridesOf(ports) then SortedOutcome(OverridesOf(ports)[m.key], m, anchor, values) == Disagree
       else Differ(m, anchor, values)
  }

  /** Every record is that of a job of the run, and its answers are rejected. */
  ghost predicate SavedOver(ports: Ports, run: RunState, sources: seq<Source>, anchor: Uint64, tip: Uint64, saved: seq<DiffRecord>) {
    forall r :: r in saved ==>
      && Rejected(ports, r.discrepancy.metric, anchor, r.discrepancy.values)
      && exists job :: Files(ports, run, sources, anchor, tip, job, r)
  }

  /** With non-empty ids all rejected answers have their record. */
  ghost predicate NothingMissed(ports: Ports, run: RunState, sources: seq<Source>, anchor: Uint64, tip: Uint64, saved: seq<DiffRecord>) {
    run.id != "" && (forall s :: s in sources ==> s.id != "") ==>
      forall job, m, block, subject, values ::
        Asks(ports, run, anchor, tip, job, m, block, subject) && ValuesAre(ports.hash, sources, job, m.capability, values)
        && Rejected(ports, m, anchor, values) ==>
          exists r :: r in saved && r.discrepancy == Discrepancy(run.id, m, block, subject, values)
  }

  lemma SuppliesSpeaks(env: Env, job: Job, c: Capability, sid: string, i: int)
    ensures Supplies(env.hash, env.sources, job, c, sid, i) <==> Speaks(env, job, c, sid, i)
    ensures Supplies(env.hash, env.sources, job, c, sid, i) ==> 0 <= i < |env.sources|
  {
  }

  /** What the snapshot map holds under an id is what the last source to supply it said. */
  ghost predicate HoldsLast(env: Env, job: Job, c: Capability, s: Snapshots, sid: string, i: int) {
    && (sid in s ==> SuppliesLast(env.hash, env.sources, job, c, sid, i, s[sid]))
    && forall k :: Supplies(env.hash, env.sources, job, c, sid, k) ==> sid in s
  }

  lemma SnapshotOf(env: Env, job: Job, c: Capability, sid: string)
    ensures HoldsLast(env, job, c, JobSnapshots(env, job, c), sid, LastSpeaker(env, |env.sources|, job, c, sid))
  {
    hide Project, SnapshotsUpTo, LastSpeaker, Speaks, Supplies;
    forall k ensures
      && (Supplies(env.hash, env.sources, job, c, sid, k) <==> Speaks(env, job, c, sid, k))
      && (Supplies(env.hash, env.sources, job, c, sid, k) ==> 0 <= k < |env.sources|)
    {
      SuppliesSpeaks(env, job, c, sid, k);
    }
    LastSpeakerMeaning(env, |env.sources|, job, c, sid);
    SnapshotsMeaning(env, |env.sources|, job, c, sid);
  }

  lemma SuppliedOnce(hash: Hasher, sources: seq<Source>, job: Job, c: Capability, sid: string, i: int, v: ValueSnapshot, j: int, u: ValueSnapshot)
    requires SuppliesLast(hash, sources, job, c, sid, i, v) && SuppliesLast(hash, sources, job, c, sid, j, u)
    ensures v == u
  {
    hide Supplies, Project;
  }

  /** There is one such map. */
  lemma ValuesUnique(hash: Hasher, sources: seq<Source>, job: Job, c: Capability, v: Snapshots, u: Snapshots)
    requires ValuesAre(hash, sources, job, c, v) && ValuesAre(hash, sources, job, c, u)
    ensures v == u
  {
    hide Supplies, SuppliesLast;
    forall sid ensures (sid in v <==> sid in u) && (sid in v ==> v[sid] == u[sid]) {
      if sid in v {
        var i :| SuppliesLast(hash, sources, job, c, sid, i, v[sid]);
        assert Supplies(hash, sources, job, c, sid, i) by { LastSupplies(hash, sources, job, c, sid, i, v[sid]); }
        var j :| SuppliesLast(hash, sources, job, c, sid, j, u[sid]);
        SuppliedOnce(hash, sources, job, c, sid, i, v[sid], j, u[sid]);
      } else if sid in u {
        var j :| SuppliesLast(hash, sources, job, c, sid, j, u[sid]);
        LastSupplies(hash, sources, job, c, sid, j, u[sid]);
      }
    }
  }

  lemma LastSupplies(hash: Hasher, sources: seq<Source>, job: Job, c: Capability, sid: string, i: int, v: ValueSnapshot)
    requires SuppliesLast(hash, sources, job, c, sid, i, v)
    ensures Supplies(hash, sources, job, c, sid, i)
  {
  }

  lemma SnapshotsAreValues(env: Env, job: Job, c: Capability)
    ensures ValuesAre(env.hash, env.sources, job, c, JobSnapshots(env, job, c))
  {
    hide Supplies, SuppliesLast, JobSnapshots, LastSpeaker;
    var s := JobSnapshots(env, job, c);
    forall sid | sid in s ensures exists i :: SuppliesLast(env.hash, env.sources, job, c, sid, i, s[sid]) { SnapshotOf(env, job, c, sid); }
    forall sid, i | Supplies(env.hash, env.sources, job, c, sid, i) ensures sid in s { SnapshotOf(env, job, c, sid); }
  }

  /** The values are the snapshot map, and nothing else is. */
  lemma ValuesAreSnapshots(env: Env, job: Job, c: Capability, values: Snapshots)
    ensures ValuesAre(env.hash, env.sources, job, c, values) <==> values == JobSnapshots(env, job, c)
  {
    hide ValuesAre, JobSnapshots;
    SnapshotsAreValues(env, job, c);
    if ValuesAre(env.hash, env.sources, job, c, values) { ValuesUnique(env.hash, env.sources, job, c, values, JobSnapshots(env, job, c)); }
  }

  // ---- the jobs of a run are what it asks -----------------------------------

  lemma {:induction false} AtBlockMember(addrs: seq<Address>, blocks: seq<Uint64>, job: Job)
    ensures job in AtBlockJobs(addrs, blocks) <==> job.AtBlockJob? && job.address in addrs && job.block in blocks
  {
    if addrs != [] {
      var n := |addrs| - 1;
      AtBlockMember(addrs[..n], blocks, job);
      assert addrs == addrs[..n] + [addrs[n]];
      RowMember(addrs[n], blocks, job);
    }
  }

  lemma RowMember(a: Address, blocks: seq<Uint64>, job: Job)
    ensures job in AtBlockRow(a, blocks) <==> job.AtBlockJob? && job.address == a && job.block in blocks
  {
    var row := AtBlockRow(a, blocks);
    if job.AtBlockJob? && job.address == a && job.block in blocks {
      var i :| 0 <= i < |blocks| && blocks[i] == job.block;
      assert row[i] == job;
    }
  }

  lemma {:induction false} BalanceMember(addrs: seq<Address>, tokens: seq<Address>, job: Job)
    ensures job in BalanceJobs(addrs, tokens) <==> job.BalanceJob? && job.address in addrs && job.token in tokens
  {
    if addrs != [] {
      var n := |addrs| - 1;
      BalanceMember(addrs[..n], tokens, job);
      assert addrs == addrs[..n] + [addrs[n]];
      TokenRowMember(addrs[n], tokens, job);
    }
  }

  lemma TokenRowMember(a: Address, tokens: seq<Address>, job: Job)
    ensures job in BalanceRow(a, tokens) <==> job.BalanceJob? && job.address == a && job.token in tokens
  {
    var row := BalanceRow(a, tokens);
    if job.BalanceJob? && job.address == a && job.token in tokens {
      var i :| 0 <= i < |tokens| && tokens[i] == job.token;
      assert row[i] == job;
    }
  }

  lemma FlatMember(blocks: seq<Uint64>, addrs: seq<Address>, job: Job)
    ensures job in BlockJobs(blocks) <==> job.BlockJob? && job.block in blocks
    ensures job in LatestJobs(addrs) <==> job.LatestJob? && job.address in addrs
    ensures job in HoldingsJobs(addrs) <==> job.HoldingsJob? && job.address in addrs
  {
    if job.BlockJob? && job.block in blocks {
      var i :| 0 <= i < |blocks| && blocks[i] == job.block;
      assert BlockJobs(blocks)[i] == job;
    }
    if (job.LatestJob? || job.HoldingsJob?) && job.address in addrs {
      var i :| 0 <= i < |addrs| && addrs[i] == job.address;
      assert job.LatestJob? ==> LatestJobs(addrs)[i] == job;
      assert job.HoldingsJob? ==> HoldingsJobs(addrs)[i] == job;
    }
  }

  /** Over these samples the job has its subject. */
  predicate Sampled(blocks: seq<Uint64>, addrs: seq<Address>, tokens: seq<Address>, job: Job) {
    match job
    case BlockJob(b) => b in blocks
    case LatestJob(x) => x in addrs
    case AtBlockJob(x, b) => x in addrs && b in blocks
    case HoldingsJob(x) => x in addrs
    case BalanceJob(x, t) => x in addrs && t in tokens
  }

  lemma PassMember(env: Env, p: Pass, job: Job)
    ensures job in PassJobs(env, p) <==>
      Enabled(env, p) && OfPass(job, p) && Sampled(env.blocks, OrEmpty(SampledAddresses(env)), OrEmpty(SampledTokens(env)), job)
  {
    hide Enabled, SampledAddresses, SampledTokens, AtBlockJobs, BalanceJobs, BlockJobs, LatestJobs, HoldingsJobs;
    AtBlockMember(OrEmpty(SampledAddresses(env)), env.blocks, job);
    BalanceMember(OrEmpty(SampledAddresses(env)), OrEmpty(SampledTokens(env)), job);
    FlatMember(env.blocks, OrEmpty(SampledAddresses(env)), job);
  }

  /** A job of the run: one of its pass, over its samples. */
  lemma JobMember(env: Env, addrs: seq<Address>, tokens: seq<Address>, job: Job, m: Metric)
    requires addrs == OrEmpty(SampledAddresses(env)) && tokens == OrEmpty(SampledTokens(env))
    requires (env.addressPlans == [] ==> addrs == []) && (env.tokenPlans == [] ==> tokens == [])
    ensures Among(env, AllJobs(env), job, m) <==> m in JobMetrics(env, job) && Sampled(env.blocks, addrs, tokens, job)
  {
    hide Collected, ByCategory, ByCapability, PassJobs;
    PassMember(env, BlockPass, job);
    PassMember(env, LatestPass, job);
    PassMember(env, AtBlockPass, job);
    PassMember(env, HoldingsPass, job);
    PassMember(env, BalancePass, job);
  }

  lemma MetricMember(env: Env, job: Job, m: Metric)
    ensures m in JobMetrics(env, job) <==> m in env.metrics && match job
      case BlockJob(_) => m.category == CatBlockImmutable
      case LatestJob(_) => m.category == CatAddressLatest
      case AtBlockJob(_, _) => m.category == CatAddressAtBlock
      case HoldingsJob(_) => m.capability == ERC20HoldingsAtLatest
      case BalanceJob(_, _) => m.capability == ERC20BalanceAtLatest
  {
    match job
    case BlockJob(_) => CategoryMembers(env.metrics, CatBlockImmutable, m);
    case LatestJob(_) => CategoryMembers(env.metrics, CatAddressLatest, m);
    case AtBlockJob(_, _) => CategoryMembers(env.metrics, CatAddressAtBlock, m);
    case HoldingsJob(_) => CapabilityMembers(env.metrics, ERC20HoldingsAtLatest, m);
    case BalanceJob(_, _) => CapabilityMembers(env.metrics, ERC20BalanceAtLatest, m);
  }

  lemma AsksAmong(ports: Ports, run: RunState, sources: seq<Source>, anchor: Uint64, tip: Uint64, job: Job, m: Metric,
                  block: Uint64, subject: Subject)
    ensures var env := EnvOf(ports, run, sources, anchor, tip);
      Asks(ports, run, anchor, tip, job, m, block, subject) <==>
        Among(env, AllJobs(env), job, m) && block == JobBlock(env, job) && subject == JobSubject(job)
  {
    hide Collected, ListsDrawn, AllJobs, JobMetrics, AddressesOver, TokensOver, SampledAddresses, SampledTokens, Among;
    var env := EnvOf(ports, run, sources, anchor, tip);
    NothingDrawn(ports, run, anchor);
    SampledOver(ports, run, sources, anchor, tip);
    JobMember(env, AddressesOver(ports, run, anchor), TokensOver(ports, run, anchor), job, m);
    MetricMember(env, job, m);
  }

  lemma DiffersExactly(env: Env, job: Job, m: Metric)
    requires m.key !in env.resolver.overrides
    ensures var s := JobSnapshots(env, job, m.capability);
      |s| >= 2 && Differ(m, env.anchor, s) <==> Disagrees(env, job, m)
  {
    hide JobSnapshots, Disagrees;
    DisagreesExactly(env, job, m);
  }

  lemma RejectedExactly(ports: Ports, run: RunState, sources: seq<Source>, anchor: Uint64, tip: Uint64, job: Job, m: Metric, values: Snapshots)
    requires var env := EnvOf(ports, run, sources, anchor, tip); values == JobSnapshots(env, job, m.capability)
    ensures Rejected(ports, m, anchor, values) <==> Disagrees(EnvOf(ports, run, sources, anchor, tip), job, m)
  {
    hide JobSnapshots, SortedOutcome, Differ;
    if m.key !in OverridesOf(ports) { DiffersExactly(EnvOf(ports, run, sources, anchor, tip), job, m); }
  }

  /** What is saved, in full or in part, is what the ports call for. */
  lemma SavedFromPorts(ports: Ports, run: RunState, sources: seq<Source>, anchor: Uint64, tip: Uint64, saved: seq<DiffRecord>)
    requires var env := EnvOf(ports, run, sources, anchor, tip); saved <= Records(env, AllJobs(env))
    ensures SavedOver(ports, run, sources, anchor, tip, saved)
  {
    hide Records, AllJobs, Among, Asks, ValuesAre, JobSnapshots, Disagrees, Differ, Rejected;
    var env := EnvOf(ports, run, sources, anchor, tip);
    forall r | r in saved
      ensures Rejected(ports, r.discrepancy.metric, anchor, r.discrepancy.values)
        && exists job :: Files(ports, run, sources, anchor, tip, job, r)
    {
      var job, m := RecordOrigin(env, AllJobs(env), r);
      AsksAmong(ports, run, sources, anchor, tip, job, m, r.discrepancy.block, r.discrepancy.subject);
      ValuesAreSnapshots(env, job, m.capability, r.discrepancy.values);
      RejectedExactly(ports, run, sources, anchor, tip, job, m, r.discrepancy.values);
      assert Files(ports, run, sources, anchor, tip, job, r);
    }
  }

  lemma AllFromPorts(ports: Ports, run: RunState, sources: seq<Source>, anchor: Uint64, tip: Uint64)
    ensures var env := EnvOf(ports, run, sources, anchor, tip);
      NothingMissed(ports, run, sources, anchor, tip, Records(env, AllJobs(env)))
  {
    hide Records, AllJobs, Among, Asks, ValuesAre, JobSnapshots, Disagrees, Differ, Rejected, MetricRecord;
    var env := EnvOf(ports, run, sources, anchor, tip);
    var saved := Records(env, AllJobs(env));
    if run.id != "" && forall s :: s in sources ==> s.id != "" {
      forall job, m, block, subject, values |
        Asks(ports, run, anchor, tip, job, m, block, subject) && ValuesAre(ports.hash, sources, job, m.capability, values)
        && Rejected(ports, m, anchor, values)
        ensures exists r :: r in saved && r.discrepancy == Discrepancy(run.id, m, block, subject, values)
      {
        AsksAmong(ports, run, sources, anchor, tip, job, m, block, subject);
        ValuesAreSnapshots(env, job, m.capability, values);
        RejectedExactly(ports, run, sources, anchor, tip, job, m, values);
        var r := RecordOf(env, job, m);
        RecordsMember(env, AllJobs(env), job, m, r);
      }
    }
  }

  /** Where every id is set a disagreement has a record. */
  lemma RecordOf(env: Env, job: Job, m: Metric) returns (r: DiffRecord)
    requires Disagrees(env, job, m) && env.runId != "" && forall s :: s in env.sources ==> s.id != ""
    ensures r in MetricRecord(env, job, m)
    ensures r.discrepancy == Discrepancy(env.runId, m, JobBlock(env, job), JobSubject(job), JobSnapshots(env, job, m.capability))
  {
    hide JobSnapshots, SortedOutcome, JudgedAs;
    NoEmptyId(env, job, m.capability);
    LostExactly(env, job, m);
    r := MetricRecord(env, job, m)[0];
  }

  // ---- a run, over the ports --------------------------------------------------

  /** What a run leaves, told from the ports and the run alone. With two sources, an anchor and
      a tip, its records are those of its jobs, and only its summary may change; without an
      error no differing answers are missed, and where every source has an id the summary
      names the blocks sampled up to the tip, the addresses and the tokens. Otherwise it fails
      and leaves nothing. */
  ghost predicate OverPorts(ports: Ports, before: RunState, after: RunState, saved: seq<DiffRecord>, error: Option<string>) {
    var sources, finalized, tip := ports.forChain(before.chainId), ports.finalized(before.chainId), ports.tip(before.chainId);
    if sources.Ok? && |sources.value| >= 2 && finalized.Ok? && tip.Ok? then
      && SavedOver(ports, before, sources.value, finalized.value, tip.value, saved)
      && after.(summary := before.summary) == before
      && (error.None? ==> NothingMissed(ports, before, sources.value, finalized.value, tip.value, saved))
      && (error.None? && before.status == Running && (forall s :: s in sources.value ==> s.id != "") ==>
            SummaryOver(ports, before, finalized.value, tip.value, after.summary))
    else error.Some? && saved == [] && after == before
  }

  lemma RunsOverPorts(ports: Ports, before: RunState, after: RunState, saved: seq<DiffRecord>, error: Option<string>)
    requires RunsAs(Planned(ports, before), before, after, saved, error)
    ensures OverPorts(ports, before, after, saved, error)
  {
    hide Records, AllJobs, SummaryOver, NothingMissed, SavedOver, Unhindered, Hindrance, EnvOf, SummaryOf;
    var plan := Planned(ports, before);
    if plan.Ok? {
      var sources, anchor, tip := ports.forChain(before.chainId).value, ports.finalized(before.chainId).value, ports.tip(before.chainId).value;
      var env := EnvOf(ports, before, sources, anchor, tip);
      SavedFromPorts(ports, before, sources, anchor, tip, saved);
      if error.None? {
        AllFromPorts(ports, before, sources, anchor, tip);
        SummaryFromPorts(ports, before, sources, anchor, tip);
        PlannedSources(ports, before, sources, anchor, tip);
        if before.status == Running { SummaryAcceptedExactly(env, AllJobs(env), before); }
      }
    }
  }

  lemma PlannedSources(ports: Ports, run: RunState, sources: seq<Source>, anchor: Uint64, tip: Uint64)
    ensures EnvOf(ports, run, sources, anchor, tip).sources == sources
  {
  }
}
