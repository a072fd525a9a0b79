/** The evaluator of a probe's thresholds (internal/application/probe/evaluate_window.go),
over its observation and incident repositories. */
module EvaluateWindow {
  import opened Prelude
  import opened Sorting
  import opened WindowMetrics
  import opened Incidents
  import opened Decisions

  /** Which repository calls of one evaluation fail. */
  datatype Faults = Faults(list: bool, find: bool, write: bool)

  predicate Failing(f: Faults) { f.list || f.find || f.write }

  /** EvaluateWindow over its two repositories. The last clock reading is not stored. */
  class Evaluator {
    const evidenceMax: int
    var obs: seq<Observation>
    var incidents: Store
    ghost var clock: int

    constructor (evidenceMax: int)
      ensures this.evidenceMax == evidenceMax && obs == [] && incidents == map[] && Invariant(State(clock))
    {
      this.evidenceMax := evidenceMax;
      obs, incidents, clock := [], map[], 1;
    }

    ghost function State(now: int): World
      reads this
    {
      World(now, obs, incidents)
    }

    /** ObservationRepository.ListWindow. */
    method ListWindow(probeId: string, since: int, until: int) returns (out: seq<Observation>)
      ensures out == Window(obs, probeId, since, until)
    {
      out := [];
      for i := 0 to |obs|
        invariant out == Select(obs[..i], probeId, since, until)
      {
        assert obs[..i + 1][..i] == obs[..i];
        if obs[i].probeId == probeId && since <= obs[i].at <= until { out := out + [obs[i]]; }
      }
      assert obs[..|obs|] == obs;
      out := SortBy(TimeKey, out);
    }

    /** IncidentRepository.FindOpen: the rows in any order. */
    method FindOpen(probeId: string, metric: ThresholdMetric) returns (open: Option<string>)
      ensures open.None? <==> !HasOpen(incidents, probeId, metric)
      ensures open.Some? ==> open.value in incidents && OpenFor(incidents[open.value], probeId, metric)
    {
      var todo := incidents.Keys;
      while todo != {}
        invariant todo <= incidents.Keys
        invariant forall id :: id in incidents.Keys - todo ==> !OpenFor(incidents[id], probeId, metric)
        decreases |todo|
      {
        var id :| id in todo;
        if OpenFor(incidents[id], probeId, metric) { return Some(id); }
        todo := todo - {id};
      }
      open := None;
    }

    /** computeMetric. */
    method ComputeMetric(metric: ThresholdMetric, n: int, window: seq<Observation>) returns (v: Option<real>)
      ensures v == Measure(metric, n, window)
    {
      match metric {
        case LatencyP95Ms => v := PercentileMs(window, 95);
        case LatencyP99Ms => v := PercentileMs(window, 99);
        case ErrorRatePctMetric => v := ErrorRatePct(window);
        case ConsecutiveFailuresMetric => v := ConsecutiveFailures(window, n);
        case UnknownMetric(_) => v := None;
      }
    }

    /** evaluateThreshold: for a validated threshold and a forward clock only the repositories
        can fail, and then nothing changes. */
    method EvaluateThreshold(probeId: string, th: Threshold, now: int, freshId: string, faults: Faults) returns (error: Option<string>)
      requires now >= clock && Invariant(State(now)) && Allowed(State(now), probeId, th, freshId)
      modifies this
      ensures clock == now && obs == old(obs) && Invariant(State(now))
      ensures error.None? ==> incidents == Evaluated(old(State(now)), probeId, th, freshId, EvidenceMax(evidenceMax))
      ensures error.None? ==> Settled(old(State(now)), incidents, probeId, th)
      ensures error.Some? ==> incidents == old(incidents) && Failing(faults)
    {
      hide Measure, Select, Truncated, Settled;
      clock := now;
      EvaluationSettles(State(now), probeId, th, freshId, EvidenceMax(evidenceMax));
      EvaluatedKeeps(State(now), probeId, th, freshId, EvidenceMax(evidenceMax));
      var since := now - th.windowSec * SECOND;
      if th.metric == ConsecutiveFailuresMetric {
        since := now - th.value.Floor * 10 * SECOND;
        if th.windowSec > 0 { since := now - th.windowSec * SECOND; }
      }
      assert since == Since(th, now);
      if faults.list { return Some("list window"); }
      var window := ListWindow(probeId, since, now);
      var observed := ComputeMetric(th.metric, th.value.Floor, window);
      if observed.None? { return None; }
      if faults.find { return Some("find open"); }
      var open := FindOpen(probeId, th.metric);
      if observed.value >= th.value && open.None? {
        var breach := Breach(th.metric, th.value, observed.value, th.windowSec);
        var incident := NewIncident(freshId, probeId, now, breach, Truncated(window, EvidenceMax(evidenceMax)));
        if incident.Err? { return Some("build incident"); }
        if faults.write { return Some("save incident"); }
        incidents := incidents[freshId := incident.value];
      } else if observed.value < th.value && open.Some? {
        var closed := Close(incidents[open.value], now);
        if closed.Err? { return Some("close incident"); }
        if faults.write { return Some("close incident"); }
        OnlyOpen(State(now), probeId, th.metric, open.value);
        incidents := incidents[open.value := closed.value];
      } else if observed.value < th.value {
        assert CloseMatching(incidents, probeId, th.metric, now) == incidents;
      }
      return None;
    }

    /** Execute, for a probe that NewProbe accepted: all its thresholds are evaluated, or those
        before the first repository failure. */
    method Execute(p: Probe, now: int, ids: seq<string>, faults: nat -> Faults) returns (error: Option<string>, ghost evaluated: nat)
      requires ValidProbe(p) && now >= clock && Invariant(State(clock))
      requires |ids| == |p.thresholds| && FreshIds(State(now), ids)
      modifies this
      ensures clock == now && Invariant(State(now)) && evaluated <= |p.thresholds|
      ensures State(now) == EvaluatedAll(old(State(now)), p.id, p.thresholds[..evaluated], ids[..evaluated], EvidenceMax(evidenceMax))
      ensures if error.None? then evaluated == |p.thresholds| else Failing(faults(evaluated))
      ensures error.None? ==> forall th :: th in p.thresholds ==> Settled(old(State(now)), incidents, p.id, th)
    {
      hide Evaluated, Threshold.IsValid, Settled, HasOpen;
      ghost var w := State(now);
      clock := now;
      evaluated := 0;
      for i := 0 to |p.thresholds|
        invariant clock == now && Invariant(State(now)) && evaluated == i
        invariant State(now) == EvaluatedAll(w, p.id, p.thresholds[..i], ids[..i], EvidenceMax(evidenceMax))
        invariant incidents.Keys <= w.incidents.Keys + Elements(ids[..i])
      {
        var th := p.thresholds[i];
        assert p.thresholds[..i + 1][..i] == p.thresholds[..i] && ids[..i + 1][..i] == ids[..i];
        assert th in p.thresholds && ids[i] in ids && ids[i] !in ids[..i] && ids[..i + 1] == ids[..i] + [ids[i]];
        HistoryKept(State(now), p.id, th, ids[i], EvidenceMax(evidenceMax));
        error := EvaluateThreshold(p.id, th, now, ids[i], faults(i));
        if error.Some? { return; }
        evaluated := i + 1;
      }
      assert p.thresholds[..|p.thresholds|] == p.thresholds && ids[..|ids|] == ids;
      ExecuteSettles(w, p.id, p.thresholds, ids, EvidenceMax(evidenceMax));
      error := None;
    }
  }

  /** Closing the incident FindOpen returned closes all there are. */
  lemma OnlyOpen(w: World, probeId: string, metric: ThresholdMetric, id: string)
    requires Invariant(w) && id in w.incidents && OpenFor(w.incidents[id], probeId, metric)
    ensures CloseMatching(w.incidents, probeId, metric, w.now) == w.incidents[id := w.incidents[id].(closedAt := Some(w.now))]
  {
    forall i | i in w.incidents && OpenFor(w.incidents[i], probeId, metric) ensures i == id { AtMostOneOpen(w, i, id); }
  }
}
