/** A schedule's way from its record to the runs it starts
(internal/verification/schedule.go, internal/infrastructure/persistence/mapper.go,
internal/infrastructure/queue/dispatcher.go, tasks.go and handlers.go). */
module Pipeline {
  import opened Prelude
  import opened Address
  import opened Metrics
  import opened Tolerance
  import opened Sampling
  import opened RunLifecycle
  import opened Serialize
  import opened Mapper

  // ---- schedules ----------------------------------------------------------

  /** An empty timezone is the nil location of the zero Schedule. */
  datatype Schedule = Schedule(cronExpr: string, timezone: string)
  {
    predicate IsZero() { cronExpr == "" && timezone == "" }
  }

  /** strings.Fields, with the field being read in `current`. */
  function FieldsFrom(s: string, current: string): seq<string> {
    if s == "" then (if current == "" then [] else [current])
    else if IsSpace(s[0]) then (if current == "" then [] else [current]) + FieldsFrom(s[1..], "")
    else FieldsFrom(s[1..], current + [s[0]])
  }

  predicate CronChar(c: char) { '0' <= c <= '9' || c == '*' || c == '/' || c == ',' || c == '-' || c == '?' }

  /** validateCronShape accepts. */
  predicate CronShape(expr: string) {
    var fields := FieldsFrom(expr, "");
    && (|fields| == 5 || |fields| == 6)
    && forall f :: f in fields ==> f != "" && forall c :: c in f ==> CronChar(c)
  }

  predicate IsWord(w: string) { w != "" && forall c :: c in w ==> !IsSpace(c) }

  /** Words with one blank between them. */
  function Spaced(words: seq<string>): string {
    if words == [] then "" else if |words| == 1 then words[0] else words[0] + " " + Spaced(words[1..])
  }

  lemma {:induction false} WordRead(w: string, rest: string, current: string)
    requires forall c :: c in w ==> !IsSpace(c)
    ensures FieldsFrom(w + rest, current) == FieldsFrom(rest, current + w)
    decreases |w|
  {
    if w == "" {
      assert w + rest == rest && current + w == current;
    } else {
      assert (w + rest)[1..] == w[1..] + rest && w[0] in w;
      WordRead(w[1..], rest, current + [w[0]]);
      assert current + [w[0]] + w[1..] == current + w;
    }
  }

  lemma {:induction false} FieldsOfSpaced(words: seq<string>)
    requires forall w :: w in words ==> IsWord(w)
    ensures FieldsFrom(Spaced(words), "") == words
  {
    hide IsSpace;
    if words != [] {
      var w := words[0];
      assert IsWord(w) && "" + w == w;
      if |words| == 1 {
        WordRead(w, "", "");
        assert w + "" == w;
      } else {
        var rest := " " + Spaced(words[1..]);
        WordRead(w, rest, "");
        FieldsOfSpaced(words[1..]);
        assert w + " " + Spaced(words[1..]) == w + rest && rest[1..] == Spaced(words[1..]);
        assert words == [w] + words[1..];
        BlankIsSpace();
      }
    }
  }

  lemma BlankIsSpace()
    ensures IsSpace(' ')
  {
  }

  /** Of the words with blanks between them, five or six of cron characters are accepted and
      nothing else. */
  lemma CronExactly(words: seq<string>)
    requires forall w :: w in words ==> IsWord(w)
    ensures CronShape(Spaced(words)) <==>
      (|words| == 5 || |words| == 6) && forall w, c :: w in words && c in w ==> c in "0123456789*/,-?"
  {
    hide FieldsFrom, Spaced;
    FieldsOfSpaced(words);
    forall c ensures CronChar(c) <==> c in "0123456789*/,-?" { CronAlphabet(c); }
  }

  lemma CronAlphabet(c: char)
    ensures CronChar(c) <==> c in "0123456789*/,-?"
  {
    var s := "0123456789*/,-?";
    if '0' <= c <= '9' { assert s[c as int - '0' as int] == c; }
    assert s[10] == '*' && s[11] == '/' && s[12] == ',' && s[13] == '-' && s[14] == '?';
  }

  /** time.LoadLocation, for the zone names the system knows. */
  function LoadLocation(zones: set<string>, tz: string): Result<string> {
    if tz == "" || tz == "UTC" then Ok("UTC")
    else if tz in zones then Ok(tz)
    else Err("unknown time zone")
  }

  function NewSchedule(zones: set<string>, cronExpr: string, tz: string): Result<Schedule> {
    var cron := TrimSpace(cronExpr);
    if cron == "" then Err("schedule: cron expression is empty")
    else if !CronShape(cron) then Err("schedule: cron shape")
    else
      var zone :- LoadLocation(zones, tz);
      Ok(Schedule(cron, zone))
  }

  lemma {:induction false} TrimRightEnds(s: string)
    ensures TrimRight(s) <= s && (TrimRight(s) != "" ==> !IsSpace(TrimRight(s)[|TrimRight(s)| - 1]))
  {
    if s != "" && IsSpace(s[|s| - 1]) { TrimRightEnds(s[..|s| - 1]); }
  }

  lemma {:induction false} TrimLeftStarts(s: string)
    ensures TrimLeft(s) != "" ==> !IsSpace(TrimLeft(s)[0])
  {
    if s != "" && IsSpace(s[0]) { TrimLeftStarts(s[1..]); }
  }

  lemma TrimIdempotent(s: string)
    ensures TrimSpace(TrimSpace(s)) == TrimSpace(s)
  {
    TrimLeftStarts(s);
    TrimRightEnds(TrimLeft(s));
  }

  /** Building a schedule again from what it stores gives the same schedule. */
  lemma ScheduleStable(zones: set<string>, cronExpr: string, tz: string)
    ensures var r := NewSchedule(zones, cronExpr, tz);
      r.Ok? ==> NewSchedule(zones, r.value.cronExpr, r.value.timezone) == r
  {
    TrimIdempotent(cronExpr);
  }

  // ---- the schedules table ------------------------------------------------

  datatype ScheduleRecord = ScheduleRecord(
    jobId: string, chainId: Uint64, schedule: Schedule, strategy: Strategy, metrics: seq<Metric>,
    addressPlans: seq<AddressPlan>, tokenPlans: seq<TokenPlan>, createdAt: int, active: bool)

  datatype ScheduleRow = ScheduleRow(
    jobId: string, chainId: Uint64, cronExpr: string, timezone: string, strategyKind: string, strategyData: Json,
    addressPlans: Json, tokenPlans: Json, metrics: seq<string>, active: bool, createdAt: int)

  /** toScheduleModel. */
  function ToScheduleRow(hash: Hasher, r: ScheduleRecord): ScheduleRow {
    ScheduleRow(r.jobId, r.chainId, r.schedule.cronExpr, if r.schedule.timezone == "" then "UTC" else r.schedule.timezone,
                StrategyKind(r.strategy), EncodeStrategy(r.strategy), EncodeAddressPlans(hash, r.addressPlans),
                EncodeTokenPlans(hash, r.tokenPlans), KeysOf(r.metrics), r.active, r.createdAt)
  }

  /** toScheduleRecord. */
  function ToScheduleRecord(hash: Hasher, zones: set<string>, row: ScheduleRow): Result<ScheduleRecord> {
    var schedule :- NewSchedule(zones, row.cronExpr, row.timezone);
    var strategy :- DecodeStrategy(row.strategyKind, row.strategyData);
    var addressPlans :- DecodeColumn(Some(row.addressPlans), AddressPlanDecoder(hash));
    var tokenPlans :- DecodeColumn(Some(row.tokenPlans), TokenPlanDecoder(hash));
    var metrics :- MetricsOf(row.metrics);
    Ok(ScheduleRecord(row.jobId, row.chainId, schedule, strategy, metrics, addressPlans, tokenPlans, row.createdAt, row.active))
  }

  /** The schedule is one NewSchedule builds, the metrics are in the catalog, and the
      strategy's range is not inverted. */
  ghost predicate Storable(zones: set<string>, r: ScheduleRecord) {
    && NewSchedule(zones, r.schedule.cronExpr, r.schedule.timezone) == Ok(r.schedule)
    && InCatalog(r.metrics) && RangeOk(r.strategy)
  }

  /** A record comes back from its row unchanged exactly when it is storable. */
  lemma ScheduleRoundTrip(hash: Hasher, zones: set<string>, r: ScheduleRecord)
    ensures ToScheduleRecord(hash, zones, ToScheduleRow(hash, r)) == Ok(r) <==> Storable(zones, r)
  {
    hide TrimSpace, CronShape, DecodeStrategy, EncodeStrategy, DecodeColumn, EncodeAddressPlans, EncodeTokenPlans, MetricsOf, KeysOf;
    hide InCatalog, RangeOk;
    StrategyRoundTrip(r.strategy);
    AddressPlansRoundTrip(hash, r.addressPlans);
    TokenPlansRoundTrip(hash, r.tokenPlans);
    MetricsRoundTrip(r.metrics);
  }

  /** The schedules table, keyed by job id. */
  class ScheduleTable {
    var rows: map<string, ScheduleRow>

    constructor ()
      ensures rows == map[]
    {
      rows := map[];
    }

    /** Dispatcher.ScheduleRecurring: `cancelled` is ctx.Err(), `jobId` a fresh id. */
    method ScheduleRecurring(hash: Hasher, schedule: Schedule, chainId: Uint64, strategy: Strategy, metrics: seq<Metric>,
                             addressPlans: seq<AddressPlan>, tokenPlans: seq<TokenPlan>, cancelled: bool, jobId: string,
                             now: int, saveFails: bool) returns (r: Result<string>)
      modifies this
      ensures r.Ok? <==> !schedule.IsZero() && !cancelled && !saveFails
      ensures r.Err? ==> rows == old(rows)
      ensures r.Ok? ==> r.value == jobId && rows == old(rows)[jobId := ToScheduleRow(hash,
        ScheduleRecord(jobId, chainId, schedule, strategy, metrics, addressPlans, tokenPlans, now, true))]
    {
      if schedule.IsZero() { return Err("queue: schedule_recurring: empty schedule"); }
      if cancelled { return Err("context canceled"); }
      var record := ScheduleRecord(jobId, chainId, schedule, strategy, metrics, addressPlans, tokenPlans, now, true);
      if saveFails { return Err("queue: schedule_recurring save"); }
      rows := rows[jobId := ToScheduleRow(hash, record)];
      return Ok(jobId);
    }

    /** Dispatcher.CancelScheduled: a missing id is a no-op, and a row is never deleted. */
    method CancelScheduled(jobId: string, updateFails: bool) returns (ok: bool)
      modifies this
      ensures ok == !updateFails && rows.Keys == old(rows.Keys)
      ensures !ok ==> rows == old(rows)
      ensures ok ==>
        forall id :: id in rows ==> rows[id] == if id == jobId then old(rows)[id].(active := false) else old(rows)[id]
    {
      if updateFails { return false; }
      ok := true;
      if jobId in rows { rows := rows[jobId := rows[jobId].(active := false)]; }
    }
  }

  // ---- the queued payload ---------------------------------------------------

  /** A []byte member holds a whole JSON document; None is the empty slice. */
  datatype ScheduledRunPayload = ScheduledRunPayload(
    chainId: Uint64, strategyKind: string, strategyData: Option<Json>, metricKeys: seq<string>,
    addressPlansData: Option<Json>, tokenPlansData: Option<Json>, cronExpr: string)

  function EncodeString(s: string): Json { JString(s) }

  function DecodeString(j: Json): Result<string> {
    match j
    case JString(s) => Ok(s)
    case JNull => Ok("")
    case _ => Err("json: not a string")
  }

  function WithDocument(fields: map<string, Json>, key: string, document: Option<Json>): map<string, Json> {
    if document.Some? then fields[key := document.value] else fields
  }

  /** ScheduledRunPayload.Marshal; the plan blobs are omitempty. */
  function MarshalPayload(p: ScheduledRunPayload): Json {
    var fields := map[
      "chain_id" := JNumber(p.chainId), "strategy_kind" := JString(p.strategyKind),
      "strategy_data" := if p.strategyData.Some? then p.strategyData.value else JNull,
      "metric_keys" := JArray(EncodeAll(p.metricKeys, EncodeString)), "cron_expr" := JString(p.cronExpr)];
    JObject(WithDocument(WithDocument(fields, "address_plans_data", p.addressPlansData), "token_plans_data", p.tokenPlansData))
  }

  function DocumentMember(j: Json, key: string): Result<Option<Json>> {
    var m :- Member(j, key);
    Ok(if m == Some(JNull) then None else m)
  }

  /** UnmarshalScheduledRunPayload. */
  function UnmarshalPayload(j: Json): Result<ScheduledRunPayload> {
    var chainId :- UintMember(j, "chain_id");
    var kind :- StringMember(j, "strategy_kind");
    var data :- DocumentMember(j, "strategy_data");
    var keys :- ListMember(j, "metric_keys", DecodeString);
    var addressPlans :- DocumentMember(j, "address_plans_data");
    var tokenPlans :- DocumentMember(j, "token_plans_data");
    var cron :- StringMember(j, "cron_expr");
    if chainId == 0 then Err("queue: scheduled_run payload missing chain_id")
    else if kind == "" then Err("queue: scheduled_run payload missing strategy_kind")
    else if keys == [] then Err("queue: scheduled_run payload missing metric_keys")
    else Ok(ScheduledRunPayload(chainId, kind, data, keys, addressPlans, tokenPlans, cron))
  }

  /** The members of a marshalled payload, by key. */
  lemma PayloadMembers(p: ScheduledRunPayload)
    ensures var j := MarshalPayload(p);
      && Member(j, "chain_id") == Ok(Some(JNumber(p.chainId)))
      && Member(j, "strategy_kind") == Ok(Some(JString(p.strategyKind)))
      && Member(j, "strategy_data") == Ok(Some(if p.strategyData.Some? then p.strategyData.value else JNull))
      && Member(j, "metric_keys") == Ok(Some(JArray(EncodeAll(p.metricKeys, EncodeString))))
      && Member(j, "address_plans_data") == Ok(p.addressPlansData)
      && Member(j, "token_plans_data") == Ok(p.tokenPlansData)
      && Member(j, "cron_expr") == Ok(Some(JString(p.cronExpr)))
  {
    hide EncodeAll;
  }

  lemma UnmarshalsTo(j: Json, p: ScheduledRunPayload)
    requires UintMember(j, "chain_id") == Ok(p.chainId)
    requires StringMember(j, "strategy_kind") == Ok(p.strategyKind) && StringMember(j, "cron_expr") == Ok(p.cronExpr)
    requires DocumentMember(j, "strategy_data") == Ok(p.strategyData)
    requires ListMember(j, "metric_keys", DecodeString) == Ok(p.metricKeys)
    requires DocumentMember(j, "address_plans_data") == Ok(p.addressPlansData)
    requires DocumentMember(j, "token_plans_data") == Ok(p.tokenPlansData)
    ensures var r := UnmarshalPayload(j);
      if p.chainId != 0 && p.strategyKind != "" && p.metricKeys != [] then r == Ok(p) else r.Err?
  {
    hide UintMember, StringMember, DocumentMember, ListMember;
  }

  /** A payload whose documents are not null survives exactly when it names a chain, a
      strategy kind and a metric. */
  lemma PayloadRoundTrip(p: ScheduledRunPayload)
    requires p.strategyData != Some(JNull) && p.addressPlansData != Some(JNull) && p.tokenPlansData != Some(JNull)
    ensures var r := UnmarshalPayload(MarshalPayload(p));
      if p.chainId != 0 && p.strategyKind != "" && p.metricKeys != [] then r == Ok(p) else r.Err?
  {
    hide MarshalPayload, Member, EncodeAll, DecodeAll, UnmarshalPayload;
    var j := MarshalPayload(p);
    PayloadMembers(p);
    DecodeEncoded(p.metricKeys, EncodeString, DecodeString);
    assert UintMember(j, "chain_id") == Ok(p.chainId);
    assert StringMember(j, "strategy_kind") == Ok(p.strategyKind) && StringMember(j, "cron_expr") == Ok(p.cronExpr);
    assert DocumentMember(j, "strategy_data") == Ok(p.strategyData);
    assert ListMember(j, "metric_keys", DecodeString) == Ok(p.metricKeys);
    assert DocumentMember(j, "address_plans_data") == Ok(p.addressPlansData);
    assert DocumentMember(j, "token_plans_data") == Ok(p.tokenPlansData);
    UnmarshalsTo(j, p);
  }

  /** buildScheduledRunTask. */
  function BuildTask(hash: Hasher, r: ScheduleRecord): ScheduledRunPayload {
    ScheduledRunPayload(r.chainId, StrategyKind(r.strategy), Some(EncodeStrategy(r.strategy)), KeysOf(r.metrics),
                        Some(EncodeAddressPlans(hash, r.addressPlans)), Some(EncodeTokenPlans(hash, r.tokenPlans)),
                        r.schedule.cronExpr)
  }

  /** The same, filling one slice after the other. */
  method BuildScheduledRunTask(hash: Hasher, r: ScheduleRecord) returns (p: ScheduledRunPayload)
    ensures p == BuildTask(hash, r)
  {
    var addressPlans := EncodeList(r.addressPlans, AddressPlanEncoder(hash));
    var tokenPlans := EncodeList(r.tokenPlans, TokenPlanEncoder(hash));
    var keys: seq<string> := [];
    for i := 0 to |r.metrics|
      invariant keys == KeysOf(r.metrics)[..i]
    {
      keys := keys + [r.metrics[i].key];
    }
    p := ScheduledRunPayload(r.chainId, StrategyKind(r.strategy), Some(EncodeStrategy(r.strategy)), keys,
                             Some(JArray(addressPlans)), Some(JArray(tokenPlans)), r.schedule.cronExpr);
  }

  /** The timezone is not part of it: it never reaches the scheduler. */
  lemma TaskIgnoresTimezone(hash: Hasher, r: ScheduleRecord, timezone: string)
    ensures BuildTask(hash, r.(schedule := Schedule(r.schedule.cronExpr, timezone))) == BuildTask(hash, r)
  {
  }

  // ---- the handler --------------------------------------------------------

  function Somes<T>(xs: seq<T>): seq<Option<T>> { seq(|xs|, i requires 0 <= i < |xs| => Some(xs[i])) }

  lemma ValuesOfSomes<T>(xs: seq<T>)
    ensures None !in Somes(xs) && Values(Somes(xs)) == xs
  {
  }

  /** The parts of a decoded payload. */
  datatype Decoded = Decoded(
    chainId: Uint64, strategy: Strategy, addressPlans: seq<AddressPlan>, tokenPlans: seq<TokenPlan>, metrics: seq<Metric>,
    cronExpr: string)

  function DecodedParts(hash: Hasher, p: ScheduledRunPayload): Result<Decoded> {
    var strategy :- if p.strategyData.None? then Err("unexpected end of JSON input") else DecodeStrategy(p.strategyKind, p.strategyData.value);
    var addressPlans :- DecodeColumn(p.addressPlansData, AddressPlanDecoder(hash));
    var tokenPlans :- DecodeColumn(p.tokenPlansData, TokenPlanDecoder(hash));
    var metrics :- MetricsOf(p.metricKeys);
    Ok(Decoded(p.chainId, strategy, addressPlans, tokenPlans, metrics, p.cronExpr))
  }

  /** The run HandleScheduledRun builds from a payload. */
  function MaterialisedRun(hash: Hasher, payload: Json, runId: string, now: int): Result<RunState> {
    var p :- UnmarshalPayload(payload);
    var d :- DecodedParts(hash, p);
    var run :- NewRun(runId, d.chainId, d.strategy, d.metrics, ScheduledTrigger(d.cronExpr), now, Somes(d.addressPlans));
    Ok(run.(tokenPlans := d.tokenPlans))
  }

  /** The decoding steps, in order, up to the first that fails. */
  method DecodeParts(hash: Hasher, p: ScheduledRunPayload) returns (r: Result<Decoded>)
    ensures r == DecodedParts(hash, p)
  {
    hide DecodeStrategy, DecodeColumn, MetricsOf;
    if p.strategyData.None? { return Err("unexpected end of JSON input"); }
    var strategy := DecodeStrategy(p.strategyKind, p.strategyData.value);
    if strategy.Err? { return Err(strategy.error); }
    var addressPlans := UnmarshalColumn(p.addressPlansData, AddressPlanDecoder(hash));
    if addressPlans.Err? { return Err(addressPlans.error); }
    var tokenPlans := UnmarshalColumn(p.tokenPlansData, TokenPlanDecoder(hash));
    if tokenPlans.Err? { return Err(tokenPlans.error); }
    var metrics := ResolveMetrics(p.metricKeys);
    if metrics.Err? { return Err(metrics.error); }
    return Ok(Decoded(p.chainId, strategy.value, addressPlans.value, tokenPlans.value, metrics.value, p.cronExpr));
  }

  /** The run object, with its token plans when there are any. */
  method PlannedRun(state: RunState, tokenPlans: seq<TokenPlan>) returns (run: Run)
    requires state.status == Pending && state.tokenPlans == []
    ensures fresh(run) && run.State() == state.(tokenPlans := tokenPlans)
  {
    run := new Run(state);
    if |tokenPlans| > 0 {
      ValuesOfSomes(tokenPlans);
      var _ := run.SetTokenPlans(Somes(tokenPlans));
    }
  }

  /** An error of the handler, and whether the queue must not deliver the payload again. */
  datatype HandlerError = HandlerError(message: string, skipRetry: bool)

  /** What the handler shares with the rest of the worker: the runs table and the queue. */
  class Worker {
    const wired: bool
    var runs: map<string, RunRow>
    var queue: seq<string>

    constructor (wired: bool)
      ensures this.wired == wired && runs == map[] && queue == []
    {
      this.wired := wired;
      runs, queue := map[], [];
    }

    /** HandleScheduledRun: decode, build the run, save it, enqueue it. The fresh id (or the
        failure to make one), the clock and the two repository failures come from outside.
        An error is final exactly when the payload itself is at fault. */
    method HandleScheduledRun(hash: Hasher, payload: Json, freshId: Result<string>, now: int, saveFails: bool, enqueueFails: bool)
      returns (error: Option<HandlerError>)
      modifies this
      ensures error.None? ==> wired && freshId.Ok? && !saveFails && !enqueueFails
      ensures wired && freshId.Ok? ==>
        var run := MaterialisedRun(hash, payload, freshId.value, now);
        if run.Err? || saveFails then error.Some? && runs == old(runs) && queue == old(queue)
        else
          && runs == old(runs)[freshId.value := ToRunRow(hash, run.value)]
          && (error.Some? <==> enqueueFails)
          && queue == old(queue) + if enqueueFails then [] else [freshId.value]
      ensures !wired || freshId.Err? ==> error.Some? && runs == old(runs) && queue == old(queue)
      ensures error.Some? && error.value.skipRetry ==>
        UnmarshalPayload(payload).Err? || (wired && (freshId.Ok? ==> MaterialisedRun(hash, payload, freshId.value, now).Err?))
      ensures wired && freshId.Ok? && MaterialisedRun(hash, payload, freshId.value, now).Err? ==> error.Some? && error.value.skipRetry
    {
      hide UnmarshalPayload, DecodedParts, ToRunRow, NewRun, Consistent;
      var p := UnmarshalPayload(payload);
      if p.Err? { return Some(HandlerError(p.error, true)); }
      if !wired { return Some(HandlerError("scheduled_run: handler not fully wired", false)); }
      var parts := DecodeParts(hash, p.value);
      if parts.Err? { return Some(HandlerError(parts.error, true)); }
      if freshId.Err? { return Some(HandlerError("scheduled_run: generate run id", false)); }
      var runId, d := freshId.value, parts.value;
      var state := NewRun(runId, d.chainId, d.strategy, d.metrics, ScheduledTrigger(d.cronExpr), now, Somes(d.addressPlans));
      if state.Err? { return Some(HandlerError(state.error, true)); }
      NewRunConsistent(runId, d.chainId, d.strategy, d.metrics, ScheduledTrigger(d.cronExpr), now, Somes(d.addressPlans));
      var run := PlannedRun(state.value, d.tokenPlans);
      if saveFails { return Some(HandlerError("scheduled_run: save run", false)); }
      runs := runs[runId := ToRunRow(hash, run.State())];
      if enqueueFails { return Some(HandlerError("scheduled_run: enqueue execute", false)); }
      queue := queue + [runId];
      return None;
    }
  }

  /** The run a schedule is meant to start. */
  function ScheduledRun(r: ScheduleRecord, runId: string, now: int): RunState {
    RunState(runId, r.chainId, r.strategy, r.addressPlans, r.tokenPlans, r.metrics, ScheduledTrigger(r.schedule.cronExpr), Pending,
             now, None, None, "", ZERO_SUMMARY)
  }

  /** Record to payload to run: the run has the record's chain, strategy, metrics, plans and
      cron expression exactly when the record names a chain and catalog metrics and its
      range is not inverted. */
  lemma FiresExactly(hash: Hasher, r: ScheduleRecord, runId: string, now: int)
    requires runId != ""
    ensures MaterialisedRun(hash, MarshalPayload(BuildTask(hash, r)), runId, now) == Ok(ScheduledRun(r, runId, now)) <==>
      r.chainId != 0 && r.metrics != [] && InCatalog(r.metrics) && RangeOk(r.strategy)
  {
    hide MarshalPayload, UnmarshalPayload, DecodeStrategy, EncodeStrategy, DecodeColumn, EncodeAddressPlans, EncodeTokenPlans;
    hide MetricsOf, InCatalog, RangeOk;
    var p := BuildTask(hash, r);
    Documents(hash, r);
    PayloadRoundTrip(p);
    StrategyRoundTrip(r.strategy);
    AddressPlansRoundTrip(hash, r.addressPlans);
    TokenPlansRoundTrip(hash, r.tokenPlans);
    MetricsRoundTrip(r.metrics);
    ValuesOfSomes(r.addressPlans);
  }

  lemma Documents(hash: Hasher, r: ScheduleRecord)
    ensures EncodeStrategy(r.strategy) != JNull && EncodeAddressPlans(hash, r.addressPlans) != JNull
    ensures EncodeTokenPlans(hash, r.tokenPlans) != JNull && StrategyKind(r.strategy) != ""
  {
  }

  /** Record to row to record to payload to run to row to run: a storable record with a
      chain and a metric starts exactly the run it describes, and the run reloads as built. */
  lemma ScheduleSurvives(hash: Hasher, zones: set<string>, r: ScheduleRecord, runId: string, now: int)
    requires Storable(zones, r) && r.chainId != 0 && r.metrics != [] && runId != ""
    ensures var stored := ToScheduleRecord(hash, zones, ToScheduleRow(hash, r));
      && stored.Ok?
      && var run := MaterialisedRun(hash, MarshalPayload(BuildTask(hash, stored.value)), runId, now);
         && run == Ok(ScheduledRun(r, runId, now))
         && ToRun(hash, ToRunRow(hash, run.value)) == run
         && Persistable(run.value) && Consistent(run.value)
  {
    hide ToScheduleRecord, ToScheduleRow, MaterialisedRun, MarshalPayload, BuildTask, ToRun, ToRunRow, InCatalog, RangeOk;
    ScheduleRoundTrip(hash, zones, r);
    FiresExactly(hash, r, runId, now);
    RunRoundTrip(hash, ScheduledRun(r, runId, now));
  }
}
