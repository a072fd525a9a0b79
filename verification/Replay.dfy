/** Replaying a saved diff (internal/application/replay_diff.go). */
module Replay {
  import opened Prelude
  import opened Address
  import opened Metrics
  import opened Tolerance
  import opened Judgement
  import opened Extract
  import Policy = Judgement
  import opened EngineSpec
  import opened Findings
  import opened Mapper

  /** The ports of ReplayDiff; `writeFails` is the outcome of its one repository write. */
  datatype Ports = Ports(hash: Hasher, get: string -> Result<Source>, resolver: Resolver, trust: seq<string>, writeFails: bool)

  /** SourceGateway.Get returns the source that was asked for. */
  ghost predicate Honest(ports: Ports) {
    forall sid :: ports.get(sid).Ok? ==> ports.get(sid).value.id == sid
  }

  datatype ReplayResult = Resolved | Renewed(record: DiffRecord)

  // ---- specification ------------------------------------------------------

  function Answer(ports: Ports, sid: string, block: Uint64, c: Capability): Option<ValueSnapshot> {
    match ports.get(sid)
    case Err(_) => None
    case Ok(source) => SourceSnapshot(ports.hash, source, BlockJob(block), c)
  }

  /** What the original participants say now. */
  ghost function Answers(ports: Ports, d: Discrepancy): Snapshots {
    map sid | sid in d.values && Answer(ports, sid, d.block, d.metric.capability).Some? ::
      Answer(ports, sid, d.block, d.metric.capability).value
  }

  ghost function IdSet(sources: seq<Source>): set<string> {
    if sources == [] then {} else IdSet(sources[..|sources| - 1]) + {sources[|sources| - 1].id}
  }

  lemma IdSetEmpty()
    ensures IdSet([]) == {}
  {
  }

  lemma IdSetSnoc(sources: seq<Source>, source: Source)
    ensures IdSet(sources + [source]) == IdSet(sources) + {source.id}
  {
    assert (sources + [source])[..|sources|] == sources;
  }

  ghost predicate AllFound(ports: Ports, ids: set<string>) { forall sid :: sid in ids ==> ports.get(sid).Ok? }

  ghost function Replayed(ports: Ports, rec: DiffRecord): Result<ReplayResult> {
    var d := rec.discrepancy;
    var s := Answers(ports, d);
    if d.metric.category != CatBlockImmutable then Err("replay diff: category not supported in MVP")
    else if !AllFound(ports, d.values.Keys) then Err("replay diff: resolve source")
    else if |s| < 2 then Err("replay diff: fewer than 2 sources returned a value")
    else if SortedOutcome(For(ports.resolver, d.metric), d.metric, rec.anchor, s) != Disagree then Ok(Resolved)
    else
      match NewDiscrepancy(d.runId, d.metric, d.block, d.subject, s)
      case Err(e) => Err(e)
      case Ok(d') =>
        Ok(Renewed(DiffRecord(d', JudgementOf(ports.trust, d'),
                              if rec.tier == 0 then Tier(d.metric.capability) else rec.tier, rec.anchor, rec.seed)))
  }

  // ---- ReplayDiff.Execute -------------------------------------------------

  /** The diff repository: records by position, and the positions marked resolved. */
  class DiffRepository {
    var saved: seq<DiffRecord>
    var resolved: set<nat>

    constructor ()
      ensures saved == [] && resolved == {}
    {
      saved, resolved := [], {};
    }

    /** Resolve the participants, met in map order. */
    method Participants(ports: Ports, ids: set<string>) returns (found: bool, sources: seq<Source>)
      requires Honest(ports)
      ensures found <==> AllFound(ports, ids)
      ensures found ==> IdSet(sources) == ids
      ensures found ==> forall i :: 0 <= i < |sources| ==> ports.get(sources[i].id) == Ok(sources[i])
    {
      hide IdSet;
      sources := [];
      IdSetEmpty();
      var todo := ids;
      while todo != {}
        invariant todo <= ids
        invariant forall sid :: sid in ids - todo ==> ports.get(sid).Ok?
        invariant IdSet(sources) == ids - todo
        invariant forall i :: 0 <= i < |sources| ==> ports.get(sources[i].id) == Ok(sources[i])
        decreases |todo|
      {
        var sid :| sid in todo;
        var got := ports.get(sid);
        if got.Err? { return false, sources; }
        IdSetSnoc(sources, got.value);
        sources := sources + [got.value];
        todo := todo - {sid};
      }
      found := true;
    }

    /** Fetch from every participant and keep the usable answers. */
    method Refetch(ports: Ports, sources: seq<Source>, ghost d: Discrepancy, block: Uint64, c: Capability) returns (s: Snapshots)
      requires block == d.block && c == d.metric.capability
      requires IdSet(sources) == d.values.Keys
      requires forall i :: 0 <= i < |sources| ==> ports.get(sources[i].id) == Ok(sources[i])
      ensures s == Answers(ports, d)
    {
      hide SourceSnapshot;
      s := map[];
      for i := 0 to |sources|
        invariant forall sid :: sid in s <==> sid in IdSet(sources[..i]) && Answer(ports, sid, block, c).Some?
        invariant forall sid :: sid in s ==> Answer(ports, sid, block, c) == Some(s[sid])
      {
        assert sources[..i + 1][..i] == sources[..i];
        var answer := SourceSnapshot(ports.hash, sources[i], BlockJob(block), c);
        assert answer == Answer(ports, sources[i].id, block, c);
        if answer.Some? { s := s[sources[i].id := answer.value]; }
      }
      assert sources[..|sources|] == sources;
    }

    /** Execute: marks the record resolved, or saves a new one, or fails and does neither. */
    method Replay(ports: Ports, id: nat) returns (r: Result<ReplayResult>)
      requires Honest(ports)
      modifies this
      ensures r.Err? ==> saved == old(saved) && resolved == old(resolved)
      ensures id >= |old(saved)| ==> r.Err?
      ensures id < |old(saved)| ==>
        && (r.Ok? <==> Replayed(ports, old(saved)[id]).Ok? && !ports.writeFails)
        && (r.Ok? ==> r == Replayed(ports, old(saved)[id]))
      ensures r.Ok? && r.value.Resolved? ==> saved == old(saved) && resolved == old(resolved) + {id}
      ensures r.Ok? && r.value.Renewed? ==> saved == old(saved) + [r.value.record] && resolved == old(resolved)
    {
      hide Answers, SortedOutcome, JudgedAs, AllFound;
      if id >= |saved| { return Err("diff not found"); }
      var rec := saved[id];
      var d := rec.discrepancy;
      if d.metric.category != CatBlockImmutable { return Err("replay diff: category not supported in MVP"); }
      var found, sources := Participants(ports, d.values.Keys);
      if !found { return Err("replay diff: resolve source"); }
      var s := Refetch(ports, sources, d, d.block, d.metric.capability);
      if |s| < 2 { return Err("replay diff: fewer than 2 sources returned a value"); }
      var outcome := ApplyTolerance(For(ports.resolver, d.metric), d.metric, s, rec.anchor);
      if outcome != Disagree {
        if ports.writeFails { return Err("replay diff: mark resolved"); }
        resolved := resolved + {id};
        return Ok(Resolved);
      }
      var renewed := NewDiscrepancy(d.runId, d.metric, d.block, d.subject, s);
      if renewed.Err? { return Err(renewed.error); }
      var j := Policy.Judge(ports.trust, renewed.value);
      JudgementUnique(ports.trust, renewed.value, j, JudgementOf(ports.trust, renewed.value));
      var tier := if rec.tier == 0 then Tier(d.metric.capability) else rec.tier;
      var record := DiffRecord(renewed.value, j, tier, rec.anchor, rec.seed);
      if ports.writeFails { return Err("replay diff: save"); }
      saved := saved + [record];
      r := Ok(Renewed(record));
    }
  }

  // ---- replay against execution -------------------------------------------

  /** The gateway hands out the run's own sources, which answer as before. */
  ghost predicate SameSources(env: Env, ports: Ports) {
    && ports.hash == env.hash && ports.resolver == env.resolver && ports.trust == env.trust
    && Distinct(env.sources)
    && forall i :: 0 <= i < |env.sources| ==> ports.get(env.sources[i].id) == Ok(env.sources[i])
  }

  /** Replaying a block-immutable diff of a run against unchanged sources saves the very
      record the run saved. */
  lemma ReplayReproduces(env: Env, ports: Ports, block: Uint64, m: Metric, r: DiffRecord)
    requires SameSources(env, ports)
    requires m.category == CatBlockImmutable && r in MetricRecord(env, BlockJob(block), m)
    ensures Replayed(ports, r) == Ok(Renewed(r))
  {
    hide SourceSnapshot, SnapshotsUpTo, SortedOutcome, JudgedAs;
    var d := r.discrepancy;
    forall sid | sid in d.values
      ensures ports.get(sid).Ok? && Answer(ports, sid, block, m.capability) == Some(d.values[sid])
    {
      OneSpeaker(env, ports, BlockJob(block), m.capability, sid);
    }
    assert Answers(ports, d) == d.values;
  }

  /** With unambiguous ids the snapshot of a participant is its own answer. */
  lemma OneSpeaker(env: Env, ports: Ports, job: Job, c: Capability, sid: string)
    requires SameSources(env, ports) && sid in JobSnapshots(env, job, c)
    ensures ports.get(sid).Ok?
    ensures SourceSnapshot(env.hash, ports.get(sid).value, job, c) == Some(JobSnapshots(env, job, c)[sid])
  {
    var n := |env.sources|;
    SnapshotsMeaning(env, n, job, c, sid);
    LastSpeakerMeaning(env, n, job, c, sid);
  }

  /** An original participant is compared again exactly when its source still exists, supports
      the metric, answers the block and fills the field, and then with that answer. */
  lemma AnswersExactly(ports: Ports, d: Discrepancy, sid: string)
    ensures var s, c, source := Answers(ports, d), d.metric.capability, ports.get(sid);
      && (sid in s <==>
            && sid in d.values && source.Ok? && source.value.supports(c) && source.value.fetch(BlockJob(d.block)).Ok?
            && Project(ports.hash, c, source.value.fetch(BlockJob(d.block)).value).Some?)
      && (sid in s ==> Project(ports.hash, c, source.value.fetch(BlockJob(d.block)).value) == Some(s[sid]))
  {
    hide Project;
  }

  /** A replay under the default tolerance resolves exactly when all usable answers now
      agree; otherwise it saves the current answers under the old run, block, anchor and seed. */
  lemma ReplayDecidesExactly(ports: Ports, rec: DiffRecord)
    requires rec.discrepancy.metric.key !in ports.resolver.overrides
    requires rec.discrepancy.runId != "" && !rec.discrepancy.subject.kind.NoSubject? && "" !in rec.discrepancy.values
    ensures var d, s, r := rec.discrepancy, Answers(ports, rec.discrepancy), Replayed(ports, rec);
      && (r.Ok? <==> d.metric.category == CatBlockImmutable && AllFound(ports, d.values.Keys) && |s| >= 2)
      && (r == Ok(Resolved) <==> r.Ok? && AllRawsEqual(s))
      && (r.Ok? && !AllRawsEqual(s) ==>
            && r.value.Renewed?
            && var n := r.value.record;
               && n.discrepancy == Discrepancy(d.runId, d.metric, d.block, d.subject, s)
               && n.anchor == rec.anchor && n.seed == rec.seed && n.tier == (if rec.tier != 0 then rec.tier else Tier(d.metric.capability))
               && WellJudged(n))
  {
    var d, s := rec.discrepancy, Answers(ports, rec.discrepancy);
    if Replayed(ports, rec).Ok? {
      BuiltInSymmetric(ExactMatch, d.metric, rec.anchor);
      SymmetricOutcome(ExactMatch, d.metric, rec.anchor, s);
      ExactOutcome(d.metric, rec.anchor, s);
      if !AllRawsEqual(s) { TrustedProper(ports.trust, Replayed(ports, rec).value.record.discrepancy, Replayed(ports, rec).value.record.judgement); }
    }
  }

  // ---- through the database -----------------------------------------------

  lemma {:induction false} FilteredMember(metrics: seq<Metric>, category: Category, capability: Capability, m: Metric)
    ensures m in ByCategory(metrics, category) ==> m in metrics
    ensures m in ByCapability(metrics, capability) ==> m in metrics
  {
    if metrics != [] { FilteredMember(metrics[..|metrics| - 1], category, capability, m); }
  }

  lemma MetricOfRecord(env: Env, job: Job, m: Metric, r: DiffRecord)
    requires r in MetricRecord(env, job, m)
    ensures r.discrepancy.metric == m && r.tier == Tier(m.capability)
  {
    hide Disagrees, JobSnapshots, JudgedAs, Tier;
  }

  /** Every diff a run over catalog metrics saves is read back as it was saved. */
  lemma SavedDiffsReload(env: Env, jobs: seq<Job>, r: DiffRecord)
    requires InCatalog(env.metrics) && r in Records(env, jobs)
    ensures ToDiffRecord(ToDiffRow(r)) == Ok(r)
  {
    hide CATALOG, ToDiffRecord, ToDiffRow, Tier, MetricRecord, Records, ByCategory, ByCapability;
    var job, m := RecordOrigin(env, jobs, r);
    MetricOfRecord(env, job, m, r);
    FilteredMember(env.metrics, CatBlockImmutable, ERC20HoldingsAtLatest, m);
    FilteredMember(env.metrics, CatAddressLatest, ERC20BalanceAtLatest, m);
    FilteredMember(env.metrics, CatAddressAtBlock, ERC20BalanceAtLatest, m);
    assert m in env.metrics;
    CatalogTiers(m);
    DiffRoundTrip(r);
  }

  /** So replaying the stored record reproduces it too. */
  lemma StoredDiffReplays(env: Env, ports: Ports, jobs: seq<Job>, block: Uint64, m: Metric, r: DiffRecord)
    requires SameSources(env, ports) && InCatalog(env.metrics)
    requires Among(env, jobs, BlockJob(block), m) && r in MetricRecord(env, BlockJob(block), m)
    ensures ToDiffRecord(ToDiffRow(r)).Ok? && Replayed(ports, ToDiffRecord(ToDiffRow(r)).value) == Ok(Renewed(r))
  {
    hide MetricRecord, Replayed, ToDiffRecord, ToDiffRow, CATALOG;
    RecordsMember(env, jobs, BlockJob(block), m, r);
    SavedDiffsReload(env, jobs, r);
    CategoryOfFiltered(env.metrics, CatBlockImmutable, m);
    ReplayReproduces(env, ports, block, m, r);
  }

  lemma {:induction false} CategoryOfFiltered(metrics: seq<Metric>, c: Category, m: Metric)
    ensures m in ByCategory(metrics, c) ==> m.category == c
  {
    if metrics != [] { CategoryOfFiltered(metrics[..|metrics| - 1], c, m); }
  }
}
