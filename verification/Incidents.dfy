/** Thresholds, incidents, and what an evaluation does to them
(internal/probe/probe.go, internal/probe/incident.go,
internal/application/probe/evaluate_window.go). */
module Incidents {
  import opened Prelude
  import opened Sorting
  import opened Tolerance
  import opened WindowMetrics

  datatype ThresholdMetric = LatencyP95Ms | LatencyP99Ms | ErrorRatePctMetric | ConsecutiveFailuresMetric | UnknownMetric(name: string)
  {
    predicate IsValid() { !UnknownMetric? }
  }

  datatype Threshold = Threshold(metric: ThresholdMetric, value: real, windowSec: int)
  {
    /** Threshold.Validate returns nil. */
    predicate IsValid() {
      && metric.IsValid() && value >= 0.0
      && match metric
         case LatencyP95Ms | LatencyP99Ms => value != 0.0 && windowSec > 0
         case ErrorRatePctMetric => value <= 100.0 && windowSec > 0
         case ConsecutiveFailuresMetric => value > 0.0 && value == value.Floor as real
         case UnknownMetric(_) => false
    }
  }

  datatype TargetKind = HttpTarget | RpcTarget | GraphQLTarget | UnknownTarget(name: string)

  /** What net/url makes of a URL. */
  datatype ParsedUrl = ParsedUrl(scheme: string, host: string)

  datatype ProbeTarget = ProbeTarget(kind: TargetKind, url: string, method_: string)
  {
    /** ProbeTarget.Validate returns nil; the URL parser is given. */
    predicate IsValid(parse: string -> Result<ParsedUrl>) {
      && !kind.UnknownTarget? && TrimSpace(url) != ""
      && parse(url).Ok?
      && (parse(url).value.scheme == "http" || parse(url).value.scheme == "https")
      && parse(url).value.host != ""
      && (kind.HttpTarget? || kind.RpcTarget? ==> TrimSpace(method_) != "")
    }
  }

  /** A cron expression or an interval in nanoseconds. */
  datatype ProbeSchedule = ProbeSchedule(cronExpr: string, interval: int)
  {
    /** ProbeSchedule.Validate returns nil: exactly one is set, the interval to a second or more. */
    predicate IsValid() {
      if TrimSpace(cronExpr) != "" then interval <= 0 else interval >= SECOND
    }
  }

  datatype Probe = Probe(id: string, target: ProbeTarget, schedule: ProbeSchedule, thresholds: seq<Threshold>, enabled: bool)

  ghost predicate DistinctMetrics(ths: seq<Threshold>) {
    forall i, j :: 0 <= i < j < |ths| ==> ths[i].metric != ths[j].metric
  }

  /** What the evaluator relies on. */
  ghost predicate ValidProbe(p: Probe) {
    && TrimSpace(p.id) != "" && p.thresholds != []
    && (forall th :: th in p.thresholds ==> th.IsValid())
    && DistinctMetrics(p.thresholds)
  }

  /** NewProbe, check by check. */
  method NewProbe(parse: string -> Result<ParsedUrl>, id: string, target: ProbeTarget, schedule: ProbeSchedule,
                  thresholds: seq<Threshold>, enabled: bool) returns (r: Result<Probe>)
    ensures r.Ok? <==>
      target.IsValid(parse) && schedule.IsValid() && ValidProbe(Probe(id, target, schedule, thresholds, enabled))
    ensures r.Ok? ==> r.value == Probe(id, target, schedule, thresholds, enabled)
  {
    if TrimSpace(id) == "" { return Err("probe: id is empty"); }
    var targetError := ValidateTarget(parse, target);
    if targetError.Some? { return Err(targetError.value); }
    var scheduleError := ValidateSchedule(schedule);
    if scheduleError.Some? { return Err(scheduleError.value); }
    if |thresholds| == 0 { return Err("probe: at least one threshold is required"); }
    var seen: set<ThresholdMetric> := {};
    for i := 0 to |thresholds|
      invariant seen == set k | 0 <= k < i :: thresholds[k].metric
      invariant forall k :: 0 <= k < i ==> thresholds[k].IsValid()
      invariant forall j, k :: 0 <= j < k < i ==> thresholds[j].metric != thresholds[k].metric
    {
      var th := thresholds[i];
      var thresholdError := ValidateThreshold(th);
      if thresholdError.Some? {
        assert th in thresholds;
        return Err("probe: " + thresholdError.value);
      }
      if th.metric in seen { return Err("probe: duplicate threshold metric"); }
      seen := seen + {th.metric};
    }
    return Ok(Probe(id, target, schedule, thresholds, enabled));
  }

  method ValidateThreshold(th: Threshold) returns (error: Option<string>)
    ensures error.None? <==> th.IsValid()
  {
    if th.metric.UnknownMetric? { return Some("threshold: invalid metric"); }
    if th.value < 0.0 { return Some("threshold: value cannot be negative"); }
    match th.metric {
      case LatencyP95Ms | LatencyP99Ms =>
        if th.value == 0.0 { return Some("threshold: latency value must be > 0"); }
        if th.windowSec <= 0 { return Some("threshold: latency thresholds require window_sec > 0"); }
      case ErrorRatePctMetric =>
        if th.value > 100.0 { return Some("threshold: error_rate_pct out of range"); }
        if th.windowSec <= 0 { return Some("threshold: error_rate_pct requires window_sec > 0"); }
      case ConsecutiveFailuresMetric =>
        if th.value <= 0.0 || th.value != th.value.Floor as real {
          return Some("threshold: consecutive_failures requires a positive integer");
        }
      case UnknownMetric(_) =>
    }
    return None;
  }

  method ValidateTarget(parse: string -> Result<ParsedUrl>, t: ProbeTarget) returns (error: Option<string>)
    ensures error.None? <==> t.IsValid(parse)
  {
    if t.kind.UnknownTarget? { return Some("probe target: invalid kind"); }
    if TrimSpace(t.url) == "" { return Some("probe target: url is empty"); }
    var u := parse(t.url);
    if u.Err? { return Some("probe target: parse url: " + u.error); }
    if u.value.scheme != "http" && u.value.scheme != "https" { return Some("probe target: unsupported scheme"); }
    if u.value.host == "" { return Some("probe target: url has no host"); }
    if t.kind.HttpTarget? && TrimSpace(t.method_) == "" { return Some("probe target: http kind requires a method"); }
    if t.kind.RpcTarget? && TrimSpace(t.method_) == "" { return Some("probe target: rpc kind requires a method name"); }
    return None;
  }

  method ValidateSchedule(s: ProbeSchedule) returns (error: Option<string>)
    ensures error.None? <==> s.IsValid()
  {
    var hasCron, hasInterval := TrimSpace(s.cronExpr) != "", s.interval > 0;
    if !hasCron && !hasInterval { return Some("probe schedule: must set either cron_expr or interval"); }
    if hasCron && hasInterval { return Some("probe schedule: cron_expr and interval are mutually exclusive"); }
    if hasInterval && s.interval < SECOND { return Some("probe schedule: interval too short"); }
    return None;
  }

  // ---- incidents ----------------------------------------------------------

  datatype Breach = Breach(metric: ThresholdMetric, threshold: real, observed: real, windowSec: int)
  {
    /** Breach.Validate returns nil. */
    predicate IsValid() {
      && metric.IsValid() && threshold >= 0.0
      && (metric != ConsecutiveFailuresMetric ==> windowSec > 0)
      && observed >= threshold
    }
  }

  datatype Incident = Incident(id: string, probeId: string, openedAt: int, closedAt: Option<int>, breach: Breach, evidence: seq<Observation>)
  {
    predicate IsOpen() { closedAt.None? }
  }

  function NewIncident(id: string, probeId: string, openedAt: int, breach: Breach, evidence: seq<Observation>): Result<Incident> {
    if id == "" then Err("incident: id is empty")
    else if probeId == "" then Err("incident: probe id is empty")
    else if openedAt == 0 then Err("incident: opened_at is zero")
    else if !breach.IsValid() then Err("incident: breach")
    else Ok(Incident(id, probeId, openedAt, None, breach, evidence))
  }

  /** Incident.Close. */
  function Close(i: Incident, at: int): Result<Incident> {
    if i.closedAt.Some? then Err("incident: already closed")
    else if at == 0 then Err("incident: closed_at is zero")
    else if at < i.openedAt then Err("incident: closed_at precedes opened_at")
    else Ok(i.(closedAt := Some(at)))
  }

  // ---- the world and its steps --------------------------------------------

  type Store = map<string, Incident>

  /** The clock, the observation table, and the incident table by id. */
  datatype World = World(now: int, obs: seq<Observation>, incidents: Store)

  predicate InWindow(o: Observation, probeId: string, since: int, until: int) {
    o.probeId == probeId && since <= o.at <= until
  }

  /** The observations of a probe between two instants, inclusive, in table order. */
  function Select(obs: seq<Observation>, probeId: string, since: int, until: int): seq<Observation> {
    if obs == [] then []
    else
      var last := obs[|obs| - 1];
      Select(obs[..|obs| - 1], probeId, since, until) + if InWindow(last, probeId, since, until) then [last] else []
  }

  /** ObservationRepository.ListWindow: in time order. */
  function Window(obs: seq<Observation>, probeId: string, since: int, until: int): seq<Observation> {
    Chronological(Select(obs, probeId, since, until))
  }

  /** So the evidence of an incident is in time order, cut or not: the repository's order
      is what keeps it. */
  lemma EvidenceInOrder(obs: seq<Observation>, probeId: string, since: int, until: int, max: int)
    ensures Ascending(TimeKey, Truncated(Window(obs, probeId, since, until), max))
  {
    SortAscending(TimeKey, Select(obs, probeId, since, until));
    EvidenceSortedExactly(Window(obs, probeId, since, until), max);
  }

  /** The start of the window a threshold looks at. */
  function Since(th: Threshold, now: int): int {
    if th.metric == ConsecutiveFailuresMetric && th.windowSec <= 0 then now - th.value.Floor * 10 * SECOND
    else now - th.windowSec * SECOND
  }

  /** computeMetric. */
  function Measure(metric: ThresholdMetric, n: int, obs: seq<Observation>): Option<real> {
    match metric
    case LatencyP95Ms => Percentile(obs, 95)
    case LatencyP99Ms => Percentile(obs, 99)
    case ErrorRatePctMetric => ErrorRate(obs)
    case ConsecutiveFailuresMetric => FailureRun(obs, n)
    case UnknownMetric(_) => None
  }

  /** What a threshold reads at an instant; None without enough data. */
  function Reading(w: World, probeId: string, th: Threshold): Option<real> {
    Measure(th.metric, th.value.Floor, Window(w.obs, probeId, Since(th, w.now), w.now))
  }

  predicate OpenFor(i: Incident, probeId: string, metric: ThresholdMetric) {
    i.IsOpen() && i.probeId == probeId && i.breach.metric == metric
  }

  ghost predicate HasOpen(s: Store, probeId: string, metric: ThresholdMetric) {
    exists id :: id in s && OpenFor(s[id], probeId, metric)
  }

  function Opened(w: World, probeId: string, th: Threshold, observed: real, id: string, evidenceMax: int): Incident {
    Incident(id, probeId, w.now, None, Breach(th.metric, th.value, observed, th.windowSec),
             Truncated(Window(w.obs, probeId, Since(th, w.now), w.now), evidenceMax))
  }

  function CloseMatching(s: Store, probeId: string, metric: ThresholdMetric, now: int): Store {
    map id | id in s :: if OpenFor(s[id], probeId, metric) then s[id].(closedAt := Some(now)) else s[id]
  }

  /** One evaluation of one threshold, as a change of the incident table. */
  ghost function Evaluated(w: World, probeId: string, th: Threshold, id: string, evidenceMax: int): Store {
    match Reading(w, probeId, th)
    case None => w.incidents
    case Some(v) =>
      if v >= th.value && !HasOpen(w.incidents, probeId, th.metric) then
        w.incidents[id := Opened(w, probeId, th, v, id, evidenceMax)]
      else if v < th.value then CloseMatching(w.incidents, probeId, th.metric, w.now)
      else w.incidents
  }

  // ---- the invariant ------------------------------------------------------

  predicate SameSeries(i: Incident, j: Incident) { i.probeId == j.probeId && i.breach.metric == j.breach.metric }

  /** i was over before j began. */
  predicate Precedes(i: Incident, j: Incident) { i.closedAt.Some? && i.closedAt.value <= j.openedAt }

  ghost predicate WellFormed(i: Incident, id: string, now: int) {
    && i.id == id && id != "" && i.probeId != "" && 0 < i.openedAt <= now && i.breach.IsValid()
    && (i.closedAt.Some? ==> i.openedAt <= i.closedAt.value <= now)
  }

  /** Every incident is well formed, and those of one probe and metric are disjoint in
      time and ordered; so at most one of them is open. */
  ghost predicate Invariant(w: World) {
    && w.now > 0
    && (forall id :: id in w.incidents ==> WellFormed(w.incidents[id], id, w.now))
    && forall i, j :: i in w.incidents && j in w.incidents && i != j && SameSeries(w.incidents[i], w.incidents[j]) ==>
         Precedes(w.incidents[i], w.incidents[j]) || Precedes(w.incidents[j], w.incidents[i])
  }

  lemma AtMostOneOpen(w: World, i: string, j: string)
    requires Invariant(w) && i in w.incidents && j in w.incidents
    requires SameSeries(w.incidents[i], w.incidents[j]) && w.incidents[i].IsOpen() && w.incidents[j].IsOpen()
    ensures i == j
  {
  }

  /** An evaluation under a validated threshold with a fresh id. */
  ghost predicate Allowed(w: World, probeId: string, th: Threshold, id: string) {
    probeId != "" && th.IsValid() && id != "" && id !in w.incidents
  }

  lemma OpeningKeeps(w: World, probeId: string, th: Threshold, observed: real, id: string, evidenceMax: int)
    requires Invariant(w) && Allowed(w, probeId, th, id)
    requires observed >= th.value && !HasOpen(w.incidents, probeId, th.metric)
    ensures Invariant(w.(incidents := w.incidents[id := Opened(w, probeId, th, observed, id, evidenceMax)]))
  {
    hide Window, Truncated;
    var t := w.incidents[id := Opened(w, probeId, th, observed, id, evidenceMax)];
    forall i | i in w.incidents && SameSeries(w.incidents[i], t[id]) ensures Precedes(t[i], t[id]) {
      assert !OpenFor(w.incidents[i], probeId, th.metric);
    }
  }

  lemma ClosingKeeps(w: World, probeId: string, metric: ThresholdMetric)
    requires Invariant(w)
    ensures Invariant(w.(incidents := CloseMatching(w.incidents, probeId, metric, w.now)))
  {
    var s, t := w.incidents, CloseMatching(w.incidents, probeId, metric, w.now);
    forall i, j | i in t && j in t && i != j && SameSeries(t[i], t[j])
      ensures Precedes(t[i], t[j]) || Precedes(t[j], t[i])
    {
      assert SameSeries(s[i], s[j]);
    }
  }

  lemma EvaluatedKeeps(w: World, probeId: string, th: Threshold, id: string, evidenceMax: int)
    requires Invariant(w) && Allowed(w, probeId, th, id)
    ensures Invariant(w.(incidents := Evaluated(w, probeId, th, id, evidenceMax)))
  {
    hide Reading, Invariant, Opened, CloseMatching, Allowed;
    match Reading(w, probeId, th)
    case None => assert w.(incidents := w.incidents) == w;
    case Some(v) =>
      if v >= th.value && !HasOpen(w.incidents, probeId, th.metric) {
        OpeningKeeps(w, probeId, th, v, id, evidenceMax);
      } else if v < th.value {
        ClosingKeeps(w, probeId, th.metric);
      } else {
        assert w.(incidents := w.incidents) == w;
      }
  }

  /** After an evaluation with enough data an incident is open exactly when the reading
      is at or above the threshold. */
  lemma OpenExactly(w: World, probeId: string, th: Threshold, id: string, evidenceMax: int)
    requires Invariant(w) && Allowed(w, probeId, th, id) && Reading(w, probeId, th).Some?
    ensures HasOpen(Evaluated(w, probeId, th, id, evidenceMax), probeId, th.metric) <==> Reading(w, probeId, th).value >= th.value
  {
    hide Reading, Window, Truncated;
    var t := Evaluated(w, probeId, th, id, evidenceMax);
    var v := Reading(w, probeId, th).value;
    if v >= th.value && !HasOpen(w.incidents, probeId, th.metric) {
      assert OpenFor(t[id], probeId, th.metric);
    }
    if v < th.value {
      forall i | i in t ensures !OpenFor(t[i], probeId, th.metric) { }
    }
  }

  /** Evaluating again on the same readings changes nothing. */
  lemma ReevaluationIdle(w: World, probeId: string, th: Threshold, id: string, again: string, evidenceMax: int, later: nat)
    requires Invariant(w) && Allowed(w, probeId, th, id)
    requires var w' := World(w.now + later, w.obs, Evaluated(w, probeId, th, id, evidenceMax)); Reading(w', probeId, th) == Reading(w, probeId, th)
    ensures var w' := World(w.now + later, w.obs, Evaluated(w, probeId, th, id, evidenceMax));
      Evaluated(w', probeId, th, again, evidenceMax) == w'.incidents
  {
    hide Reading, Window, Truncated;
    var w' := World(w.now + later, w.obs, Evaluated(w, probeId, th, id, evidenceMax));
    if Reading(w, probeId, th).Some? {
      OpenExactly(w, probeId, th, id, evidenceMax);
      if Reading(w, probeId, th).value < th.value {
        assert CloseMatching(w'.incidents, probeId, th.metric, w'.now) == w'.incidents;
      }
    }
  }

  /** In particular at the same instant. */
  lemma ReevaluationAtOnce(w: World, probeId: string, th: Threshold, id: string, again: string, evidenceMax: int)
    requires Invariant(w) && Allowed(w, probeId, th, id)
    ensures var w' := w.(incidents := Evaluated(w, probeId, th, id, evidenceMax));
      Evaluated(w', probeId, th, again, evidenceMax) == w'.incidents
  {
    ReevaluationIdle(w, probeId, th, id, again, evidenceMax, 0);
  }

  /** History is kept: an evaluation closes at most the open incident of its own series,
      changes nothing else of it, and adds at most one incident. */
  lemma HistoryKept(w: World, probeId: string, th: Threshold, id: string, evidenceMax: int)
    requires Allowed(w, probeId, th, id)
    ensures var t := Evaluated(w, probeId, th, id, evidenceMax);
      && w.incidents.Keys <= t.Keys <= w.incidents.Keys + {id}
      && forall i :: i in w.incidents ==>
           t[i] == w.incidents[i] || (OpenFor(w.incidents[i], probeId, th.metric) && t[i] == w.incidents[i].(closedAt := Some(w.now)))
  {
  }

  // ---- consecutive failures over the whole table --------------------------

  /** All that was recorded of a probe by an instant. */
  function Recorded(obs: seq<Observation>, probeId: string, now: int): seq<Observation> {
    if obs == [] then []
    else
      var last := obs[|obs| - 1];
      Recorded(obs[..|obs| - 1], probeId, now) + if last.probeId == probeId && last.at <= now then [last] else []
  }

  lemma {:induction false} SelectRecorded(obs: seq<Observation>, probeId: string, since: int, now: int, o: Observation, t: int)
    ensures o in Select(obs, probeId, since, now) <==> o in Recorded(obs, probeId, now) && o.at >= since
    ensures o in Recorded(obs, probeId, now) ==> o.at <= now
    ensures t >= since - 1 ==> LaterThan(Select(obs, probeId, since, now), t) == LaterThan(Recorded(obs, probeId, now), t)
    ensures |Select(obs, probeId, since, now)| <= |Recorded(obs, probeId, now)|
  {
    hide LaterThan;
    if obs == [] {
      assert Select(obs, probeId, since, now) == Recorded(obs, probeId, now) == [];
    } else {
      var init, last := obs[..|obs| - 1], obs[|obs| - 1];
      SelectRecorded(init, probeId, since, now, o, t);
      LaterSnoc(Select(init, probeId, since, now), last, t);
      LaterSnoc(Recorded(init, probeId, now), last, t);
      assert Recorded(init, probeId, now) + [] == Recorded(init, probeId, now);
      assert Select(init, probeId, since, now) + [] == Select(init, probeId, since, now);
    }
  }

  lemma {:induction false} SelectDistinct(obs: seq<Observation>, probeId: string, since: int, now: int)
    requires DistinctTimes(Recorded(obs, probeId, now))
    ensures DistinctTimes(Select(obs, probeId, since, now))
  {
    if obs != [] {
      var init, last := obs[..|obs| - 1], obs[|obs| - 1];
      var before, r := Recorded(init, probeId, now), Recorded(obs, probeId, now);
      assert before == r[..|before|];
      SelectDistinct(init, probeId, since, now);
      if InWindow(last, probeId, since, now) {
        var s := Select(init, probeId, since, now);
        forall i | 0 <= i < |s| ensures s[i].at != last.at {
          SelectRecorded(init, probeId, since, now, s[i], since);
          assert s[i] in before;
          var k :| 0 <= k < |before| && before[k] == s[i];
          assert r[k] == s[i] && r[|before|] == last;
        }
      }
    }
  }

  predicate Trips(w: World, probeId: string, th: Threshold) {
    Reading(w, probeId, th).Some? && Reading(w, probeId, th).value >= th.value
  }

  /** The n most recent of all are errors and none of them lies before the window. */
  ghost predicate RecentFailures(h: seq<Observation>, n: int, since: int) {
    n <= |h| && forall o :: Recent(h, n, o) ==> o.class_.IsError() && o.at >= since
  }

  /** Within the window: what the trailing run of its observations means. */
  lemma TripsInWindow(w: World, probeId: string, th: Threshold)
    requires th.IsValid() && th.metric == ConsecutiveFailuresMetric
    requires DistinctTimes(Recorded(w.obs, probeId, w.now))
    ensures var s, n := Select(w.obs, probeId, Since(th, w.now), w.now), th.value.Floor;
      Trips(w, probeId, th) <==> n <= |s| && forall o :: Recent(s, n, o) ==> o.class_.IsError()
  {
    var s, n := Select(w.obs, probeId, Since(th, w.now), w.now), th.value.Floor;
    SelectDistinct(w.obs, probeId, Since(th, w.now), w.now);
    forall o ensures Recent(Chronological(s), n, o) <==> Recent(s, n, o) { ChronologicalKeeps(s, n, o); }
    ChronologicalKeeps(s, n, Observation("", 0, 0, NoError));
    if n <= |s| { TripsExactly(Chronological(s), n); }
  }

  /** "The most recent N regardless of time" holds only inside a window: the threshold trips
      exactly when the N most recent of all observations are errors and the N-th of them is
      no older than the window, 10 N seconds where none is configured. */
  lemma TripsOverTable(w: World, probeId: string, th: Threshold)
    requires th.IsValid() && th.metric == ConsecutiveFailuresMetric
    requires DistinctTimes(Recorded(w.obs, probeId, w.now))
    ensures var n := th.value.Floor;
      Trips(w, probeId, th) <==>
        RecentFailures(Recorded(w.obs, probeId, w.now), n, w.now - (if th.windowSec > 0 then th.windowSec else 10 * n) * SECOND)
  {
    hide Trips, Select, Recorded, Since, Threshold.IsValid, DistinctTimes;
    SinceMeaning(th, w.now);
    var since, n := Since(th, w.now), th.value.Floor;
    var h, s := Recorded(w.obs, probeId, w.now), Select(w.obs, probeId, since, w.now);
    TripsInWindow(w, probeId, th);
    AtLeastOne(th);
    if n <= |s| {
      forall o ensures Recent(s, n, o) <==> Recent(h, n, o) { RecentInWindow(w.obs, probeId, since, w.now, n, o); }
      forall o | Recent(h, n, o) ensures o.at >= since { RecentInWindow(w.obs, probeId, since, w.now, n, o); }
      SelectRecorded(w.obs, probeId, since, w.now, Observation("", 0, 0, NoError), since);
    } else if RecentFailures(h, n, since) {
      EnoughInWindow(w.obs, probeId, since, w.now, n);
    }
  }

  lemma SinceMeaning(th: Threshold, now: int)
    requires th.metric == ConsecutiveFailuresMetric
    ensures Since(th, now) == now - (if th.windowSec > 0 then th.windowSec else 10 * th.value.Floor) * SECOND
  {
  }

  lemma AtLeastOne(th: Threshold)
    requires th.IsValid() && th.metric == ConsecutiveFailuresMetric
    ensures th.value.Floor >= 1
  {
  }

  /** With n observations in the window, the n most recent of all are the n most recent in it. */
  lemma RecentInWindow(obs: seq<Observation>, probeId: string, since: int, now: int, n: int, o: Observation)
    requires 1 <= n <= |Select(obs, probeId, since, now)|
    ensures Recent(Select(obs, probeId, since, now), n, o) <==> Recent(Recorded(obs, probeId, now), n, o)
    ensures Recent(Recorded(obs, probeId, now), n, o) ==> o.at >= since
  {
    var s, h := Select(obs, probeId, since, now), Recorded(obs, probeId, now);
    SelectRecorded(obs, probeId, since, now, o, o.at);
    if o in h && o.at < since {
      forall x | x in s ensures x.at > since - 1 { SelectRecorded(obs, probeId, since, now, x, since - 1); }
      LaterBounds(s, o, since - 1);
      SelectRecorded(obs, probeId, since, now, o, since - 1);
      LaterAntitone(h, o.at, since - 1);
    }
  }

  /** If none of the n most recent lies before the window, the window holds n. */
  lemma EnoughInWindow(obs: seq<Observation>, probeId: string, since: int, now: int, n: int)
    requires DistinctTimes(Recorded(obs, probeId, now))
    requires 1 <= n && RecentFailures(Recorded(obs, probeId, now), n, since)
    ensures n <= |Select(obs, probeId, since, now)|
  {
    var s, h := Select(obs, probeId, since, now), Recorded(obs, probeId, now);
    var k := |h| - n;
    RecentPosition(h, k);
    var o := Chronological(h)[k];
    SortMember(TimeKey, h, o);
    assert Recent(h, n, o);
    SelectRecorded(obs, probeId, since, now, o, o.at);
    LaterBounds(s, o, o.at);
  }

  /** The observations of a probe keep a distance. */
  ghost predicate Spaced(h: seq<Observation>, gap: int) {
    forall x, y :: x in h && y in h && x.at < y.at ==> y.at - x.at >= gap
  }

  /** A probe slow enough for N observations to outlast 10 N seconds never trips a threshold
      without a window: 30 seconds apart, for instance, with N = 3. */
  lemma SlowProbeNeverTrips(w: World, probeId: string, th: Threshold, gap: nat)
    requires th.IsValid() && th.metric == ConsecutiveFailuresMetric && th.windowSec <= 0
    requires DistinctTimes(Recorded(w.obs, probeId, w.now)) && Spaced(Recorded(w.obs, probeId, w.now), gap)
    requires gap * (th.value.Floor - 1) > th.value.Floor * 10 * SECOND
    ensures !Trips(w, probeId, th)
  {
    hide Trips, Recorded, DistinctTimes, Spaced, Chronological, LaterThan, SortBy;
    var h, n := Recorded(w.obs, probeId, w.now), th.value.Floor;
    TripsOverTable(w, probeId, th);
    AtLeastOne(th);
    if RecentFailures(h, n, Since(th, w.now)) {
      var k := |h| - n;
      SpacedPositions(h, gap, k, |h| - 1);
      var s := Chronological(h);
      ChronologicalMember(h, k);
      ChronologicalMember(h, |h| - 1);
      RecentPosition(h, k);
      assert Recent(h, n, s[k]);
      SelectRecorded(w.obs, probeId, 0, w.now, s[|h| - 1], 0);
    }
  }

  lemma {:induction false} SpacedPositions(h: seq<Observation>, gap: nat, i: nat, j: nat)
    requires DistinctTimes(h) && Spaced(h, gap) && i <= j < |h|
    ensures |Chronological(h)| == |h| && Chronological(h)[j].at - Chronological(h)[i].at >= gap * (j - i)
    decreases j - i
  {
    hide Chronological, DistinctTimes, Spaced;
    if i < j {
      SpacedPositions(h, gap, i, j - 1);
      SpacedNeighbours(h, gap, j - 1);
      assert gap * (j - i) == gap * (j - 1 - i) + gap;
    } else {
      InOrderLength(h);
      assert gap * (j - i) == 0;
    }
  }

  lemma InOrderLength(h: seq<Observation>)
    ensures |Chronological(h)| == |h|
  {
    SortContents(TimeKey, h);
  }

  lemma ChronologicalMember(h: seq<Observation>, i: nat)
    requires i < |h|
    ensures |Chronological(h)| == |h| && Chronological(h)[i] in h
  {
    SortContents(TimeKey, h);
    SortMember(TimeKey, h, Chronological(h)[i]);
  }

  lemma SpacedNeighbours(h: seq<Observation>, gap: nat, j: nat)
    requires DistinctTimes(h) && Spaced(h, gap) && j + 1 < |h|
    ensures |Chronological(h)| == |h| && Chronological(h)[j + 1].at - Chronological(h)[j].at >= gap
  {
    var s := Chronological(h);
    InOrder(h, j, j + 1);
    SortMember(TimeKey, h, s[j]);
    SortMember(TimeKey, h, s[j + 1]);
  }

  lemma InOrder(h: seq<Observation>, i: nat, j: nat)
    requires DistinctTimes(h) && i < j < |h|
    ensures |Chronological(h)| == |h| && Chronological(h)[i].at < Chronological(h)[j].at
  {
    SortContents(TimeKey, h);
    SortAscending(TimeKey, h);
    ChronologicalKeeps(h, 0, Observation("", 0, 0, NoError));
    var s := Chronological(h);
    assert LexAtMost(TimeKey(s[i]), TimeKey(s[j]));
    Earlier(s[j], s[i]);
  }

  // ---- every run ----------------------------------------------------------

  datatype Event =
    | Tick(d: nat)
    | Observe(o: Observation)
    | Prune(cutoff: int)
    | Evaluate(probeId: string, th: Threshold, id: string, evidenceMax: int)

  function Kept(obs: seq<Observation>, cutoff: int): seq<Observation> {
    if obs == [] then []
    else Kept(obs[..|obs| - 1], cutoff) + if obs[|obs| - 1].at < cutoff then [] else [obs[|obs| - 1]]
  }

  lemma {:induction false} KeptMember(obs: seq<Observation>, cutoff: int, o: Observation)
    ensures o in Kept(obs, cutoff) <==> o in obs && o.at >= cutoff
  {
    if obs != [] {
      KeptMember(obs[..|obs| - 1], cutoff, o);
      assert obs == obs[..|obs| - 1] + [obs[|obs| - 1]];
    }
  }

  /** A sweep that keeps the window of a threshold leaves its reading alone. */
  lemma SweepIdle(w: World, probeId: string, th: Threshold, cutoff: int)
    requires cutoff <= Since(th, w.now)
    ensures Reading(w.(obs := Kept(w.obs, cutoff)), probeId, th) == Reading(w, probeId, th)
  {
    SelectKept(w.obs, cutoff, probeId, Since(th, w.now), w.now);
  }

  lemma {:induction false} SelectKept(obs: seq<Observation>, cutoff: int, probeId: string, since: int, until: int)
    requires cutoff <= since
    ensures Select(Kept(obs, cutoff), probeId, since, until) == Select(obs, probeId, since, until)
  {
    if obs != [] {
      var init, last := obs[..|obs| - 1], obs[|obs| - 1];
      SelectKept(init, cutoff, probeId, since, until);
      if last.at >= cutoff {
        assert Kept(obs, cutoff)[..|Kept(obs, cutoff)| - 1] == Kept(init, cutoff);
      } else {
        assert Kept(obs, cutoff) == Kept(init, cutoff) && Select(init, probeId, since, until) + [] == Select(init, probeId, since, until);
      }
    }
  }

  /** Evaluations run one after another; one that is not allowed does not happen. */
  ghost function Next(w: World, e: Event): World {
    match e
    case Tick(d) => w.(now := w.now + d)
    case Observe(o) => w.(obs := w.obs + [o])
    case Prune(cutoff) => w.(obs := Kept(w.obs, cutoff))
    case Evaluate(probeId, th, id, evidenceMax) =>
      if Allowed(w, probeId, th, id) then w.(incidents := Evaluated(w, probeId, th, id, evidenceMax)) else w
  }

  ghost function Run(w: World, events: seq<Event>): World {
    if events == [] then w else Next(Run(w, events[..|events| - 1]), events[|events| - 1])
  }

  /** Over every sequence of observations, prunings and evaluations the invariant holds. */
  lemma {:induction false} RunKeeps(w: World, events: seq<Event>)
    requires Invariant(w)
    ensures Invariant(Run(w, events))
  {
    if events != [] {
      var n := |events| - 1;
      RunKeeps(w, events[..n]);
      var before, e := Run(w, events[..n]), events[n];
      if e.Evaluate? && Allowed(before, e.probeId, e.th, e.id) {
        EvaluatedKeeps(before, e.probeId, e.th, e.id, e.evidenceMax);
      }
    }
  }

  /** A closed incident never changes again. */
  lemma {:induction false} ClosedForGood(w: World, events: seq<Event>, id: string)
    requires id in w.incidents && !w.incidents[id].IsOpen()
    ensures id in Run(w, events).incidents && Run(w, events).incidents[id] == w.incidents[id]
  {
    if events != [] {
      var n := |events| - 1;
      ClosedForGood(w, events[..n], id);
      var before, e := Run(w, events[..n]), events[n];
      if e.Evaluate? && Allowed(before, e.probeId, e.th, e.id) {
        HistoryKept(before, e.probeId, e.th, e.id, e.evidenceMax);
      }
    }
  }

  // ---- the evaluator ------------------------------------------------------

  const DEFAULT_EVIDENCE_MAX: int := 20

  function EvidenceMax(configured: int): int { if configured > 0 then configured else DEFAULT_EVIDENCE_MAX }

  /** One evaluation per threshold, in order, each with its own fresh id. */
  ghost function EvaluatedAll(w: World, probeId: string, ths: seq<Threshold>, ids: seq<string>, evidenceMax: int): World
    requires |ids| == |ths|
  {
    if ths == [] then w
    else
      var n := |ths| - 1;
      var before := EvaluatedAll(w, probeId, ths[..n], ids[..n], evidenceMax);
      before.(incidents := Evaluated(before, probeId, ths[n], ids[n], evidenceMax))
  }

  ghost predicate FreshIds(w: World, ids: seq<string>) {
    Distinct(ids) && forall id :: id in ids ==> id != "" && id !in w.incidents
  }

  lemma FreshPrefix(w: World, ids: seq<string>, n: nat)
    requires FreshIds(w, ids) && n <= |ids|
    ensures FreshIds(w, ids[..n])
  {
    forall id | id in ids[..n] ensures id in ids { }
  }

  /** The loop of Execute stays within what a single evaluation may do. */
  lemma {:induction false} AllKeep(w: World, probeId: string, ths: seq<Threshold>, ids: seq<string>, evidenceMax: int)
    requires Invariant(w) && probeId != "" && |ids| == |ths| && FreshIds(w, ids)
    requires forall th :: th in ths ==> th.IsValid()
    ensures var r := EvaluatedAll(w, probeId, ths, ids, evidenceMax);
      Invariant(r) && r.now == w.now && r.obs == w.obs && r.incidents.Keys <= w.incidents.Keys + Elements(ids)
  {
    hide Evaluated, Threshold.IsValid;
    if ths != [] {
      var n := |ths| - 1;
      FreshPrefix(w, ids, n);
      AllKeep(w, probeId, ths[..n], ids[..n], evidenceMax);
      var before := EvaluatedAll(w, probeId, ths[..n], ids[..n], evidenceMax);
      assert ids[n] in ids && ths[n] in ths && ids[n] !in ids[..n];
      assert ids == ids[..n] + [ids[n]];
      EvaluatedKeeps(before, probeId, ths[n], ids[n], evidenceMax);
      HistoryKept(before, probeId, ths[n], ids[n], evidenceMax);
    }
  }

  /** An evaluation leaves the series of other metrics alone. */
  lemma OtherSeriesKept(w: World, probeId: string, th: Threshold, id: string, evidenceMax: int, metric: ThresholdMetric)
    requires Allowed(w, probeId, th, id) && th.metric != metric
    ensures HasOpen(Evaluated(w, probeId, th, id, evidenceMax), probeId, metric) <==> HasOpen(w.incidents, probeId, metric)
  {
    hide Reading, Window, Truncated;
    var t := Evaluated(w, probeId, th, id, evidenceMax);
    forall i | i in w.incidents ensures OpenFor(t[i], probeId, metric) <==> OpenFor(w.incidents[i], probeId, metric) { }
    if HasOpen(w.incidents, probeId, metric) {
      var i :| i in w.incidents && OpenFor(w.incidents[i], probeId, metric);
      assert i in t && OpenFor(t[i], probeId, metric);
    }
  }

  lemma ReadingIgnoresIncidents(w: World, probeId: string, th: Threshold, s: Store)
    ensures Reading(w.(incidents := s), probeId, th) == Reading(w, probeId, th)
  {
  }

  /** After Execute on a validated probe every threshold is settled at once: where there
      was enough data an incident is open exactly when the reading is at or above the
      value, and elsewhere nothing opened or closed. Distinct metrics make this possible. */
  lemma {:induction false} ProbeDecides(w: World, probeId: string, ths: seq<Threshold>, ids: seq<string>, evidenceMax: int, k: nat)
    requires Invariant(w) && probeId != "" && |ids| == |ths| && FreshIds(w, ids) && k < |ths|
    requires DistinctMetrics(ths) && forall th :: th in ths ==> th.IsValid()
    ensures var t := EvaluatedAll(w, probeId, ths, ids, evidenceMax).incidents;
      match Reading(w, probeId, ths[k])
      case Some(v) => HasOpen(t, probeId, ths[k].metric) <==> v >= ths[k].value
      case None => HasOpen(t, probeId, ths[k].metric) <==> HasOpen(w.incidents, probeId, ths[k].metric)
  {
    hide Reading, HasOpen, Invariant, Threshold.IsValid;
    var n := |ths| - 1;
    FreshPrefix(w, ids, n);
    AllKeep(w, probeId, ths[..n], ids[..n], evidenceMax);
    var before := EvaluatedAll(w, probeId, ths[..n], ids[..n], evidenceMax);
    assert ids[n] in ids && ths[n] in ths && ids[n] !in ids[..n];
    if k < n {
      ProbeDecides(w, probeId, ths[..n], ids[..n], evidenceMax, k);
      OtherSeriesKept(before, probeId, ths[n], ids[n], evidenceMax, ths[k].metric);
    } else {
      ReadingIgnoresIncidents(w, probeId, ths[n], before.incidents);
      assert before == w.(incidents := before.incidents);
      if Reading(w, probeId, ths[n]).Some? {
        OpenExactly(before, probeId, ths[n], ids[n], evidenceMax);
      } else {
        UntouchedSeries(w, probeId, ths[..n], ids[..n], evidenceMax, ths[n].metric);
      }
    }
  }

  /** Of two thresholds on one metric the later one decides: where they read differently,
      the earlier one is left wrong. So NewProbe must refuse them. */
  lemma DuplicateMetricsConflict(w: World, probeId: string, first: Threshold, second: Threshold, a: string, b: string, evidenceMax: int)
    requires Invariant(w) && probeId != "" && FreshIds(w, [a, b])
    requires first.IsValid() && second.IsValid() && first.metric == second.metric
    requires Reading(w, probeId, first).Some? && Reading(w, probeId, second).Some?
    ensures var t := EvaluatedAll(w, probeId, [first, second], [a, b], evidenceMax).incidents;
      && (HasOpen(t, probeId, second.metric) <==> Reading(w, probeId, second).value >= second.value)
      && ((HasOpen(t, probeId, first.metric) <==> Reading(w, probeId, first).value >= first.value) <==>
           (Reading(w, probeId, first).value >= first.value <==> Reading(w, probeId, second).value >= second.value))
  {
    hide Reading, HasOpen, Evaluated, Invariant, Threshold.IsValid;
    var w1 := EvaluatedAll(w, probeId, [first], [a], evidenceMax);
    assert [first, second][..1] == [first] && [a, b][..1] == [a] && a in [a, b] && b in [a, b] && [a, b][0] != [a, b][1];
    assert EvaluatedAll(w, probeId, [], [], evidenceMax) == w && [first][..0] == [] && [a][..0] == [];
    assert w1 == w.(incidents := Evaluated(w, probeId, first, a, evidenceMax));
    HistoryKept(w, probeId, first, a, evidenceMax);
    EvaluatedKeeps(w, probeId, first, a, evidenceMax);
    ReadingIgnoresIncidents(w, probeId, second, w1.incidents);
    OpenExactly(w1, probeId, second, b, evidenceMax);
  }

  lemma {:induction false} UntouchedSeries(w: World, probeId: string, ths: seq<Threshold>, ids: seq<string>, evidenceMax: int, metric: ThresholdMetric)
    requires Invariant(w) && probeId != "" && |ids| == |ths| && FreshIds(w, ids)
    requires forall th :: th in ths ==> th.IsValid() && th.metric != metric
    ensures HasOpen(EvaluatedAll(w, probeId, ths, ids, evidenceMax).incidents, probeId, metric) <==> HasOpen(w.incidents, probeId, metric)
  {
    hide HasOpen, Invariant, Threshold.IsValid, Evaluated;
    if ths != [] {
      var n := |ths| - 1;
      FreshPrefix(w, ids, n);
      UntouchedSeries(w, probeId, ths[..n], ids[..n], evidenceMax, metric);
      AllKeep(w, probeId, ths[..n], ids[..n], evidenceMax);
      assert ids[n] in ids && ths[n] in ths && ids[n] !in ids[..n];
      OtherSeriesKept(EvaluatedAll(w, probeId, ths[..n], ids[..n], evidenceMax), probeId, ths[n], ids[n], evidenceMax, metric);
    }
  }
}
