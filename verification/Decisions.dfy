/** When an evaluation opens, keeps or closes an incident, told from the observation table
alone (internal/application/probe/evaluate_window.go). */
module Decisions {
  import opened Prelude
  import opened Sorting
  import opened WindowMetrics
  import opened Incidents

  // ---- counts of a window are counts of the table --------------------------

  lemma {:induction false} CountSelect(obs: seq<Observation>, probeId: string, since: int, until: int, p: Observation -> bool)
    ensures Count(Select(obs, probeId, since, until), p) == Count(obs, Both(Inside(probeId, since, until), p))
    ensures |Select(obs, probeId, since, until)| == Count(obs, Inside(probeId, since, until))
  {
    hide Count;
    if obs == [] {
      NoneCounted(p);
      NoneCounted(Inside(probeId, since, until));
      NoneCounted(Both(Inside(probeId, since, until), p));
    } else {
      var init, last := obs[..|obs| - 1], obs[|obs| - 1];
      CountSelect(init, probeId, since, until, p);
      CountSnoc(Select(init, probeId, since, until), last, p);
      CountSnoc(init, last, Both(Inside(probeId, since, until), p));
      CountSnoc(init, last, Inside(probeId, since, until));
      assert obs == init + [last];
      assert Select(init, probeId, since, until) + [] == Select(init, probeId, since, until);
    }
  }

  lemma NoneCounted(p: Observation -> bool)
    ensures Count([], p) == 0
  {
  }

  lemma CountWindow(obs: seq<Observation>, probeId: string, since: int, until: int, p: Observation -> bool)
    ensures Count(Window(obs, probeId, since, until), p) == Count(obs, Both(Inside(probeId, since, until), p))
    ensures |Window(obs, probeId, since, until)| == Count(obs, Inside(probeId, since, until))
  {
    hide Count;
    CountSelect(obs, probeId, since, until, p);
    CountSort(Select(obs, probeId, since, until), p);
    SortContents(TimeKey, Select(obs, probeId, since, until));
  }

  // ---- what an evaluation decides -------------------------------------------

  /** A latency percentile: with observations in the window an incident is open afterwards
      exactly when less than pct percent of them are faster than the value. */
  ghost predicate LatencySettled(w: World, t: Store, probeId: string, th: Threshold, pct: nat) {
    var inside := Inside(probeId, w.now - th.windowSec * SECOND, w.now);
    var n := Count(w.obs, inside);
    HasOpen(t, probeId, th.metric) <==>
      if n == 0 then HasOpen(w.incidents, probeId, th.metric) else 100 * Count(w.obs, Both(inside, Faster(th.value))) < pct * n
  }

  /** The error rate: exactly when the failures are at least value percent of them. */
  ghost predicate RateSettled(w: World, t: Store, probeId: string, th: Threshold) {
    var inside := Inside(probeId, w.now - th.windowSec * SECOND, w.now);
    var n := Count(w.obs, inside);
    HasOpen(t, probeId, th.metric) <==>
      if n == 0 then HasOpen(w.incidents, probeId, th.metric)
      else 100.0 * Count(w.obs, Both(inside, Failed())) as real >= th.value * n as real
  }

  /** An observation of the probe, up to now, with fewer than n later ones. */
  ghost predicate AmongLast(w: World, probeId: string, n: int, o: Observation) {
    o in w.obs && o.probeId == probeId && o.at <= w.now && Count(w.obs, Inside(probeId, o.at + 1, w.now)) < n
  }

  /** Consecutive failures: with n observations in the window, exactly when the n most recent
      of all are errors. Without a configured window it is 10 n seconds long. */
  ghost predicate FailuresSettled(w: World, t: Store, probeId: string, th: Threshold) {
    var n := th.value.Floor;
    var since := w.now - (if th.windowSec > 0 then th.windowSec else 10 * n) * SECOND;
    HasOpen(t, probeId, th.metric) <==>
      if Count(w.obs, Inside(probeId, since, w.now)) < n then HasOpen(w.incidents, probeId, th.metric)
      else forall o :: AmongLast(w, probeId, n, o) ==> o.class_ != NoError
  }

  /** No two observations of the probe carry one timestamp. */
  ghost predicate DistinctTable(w: World, probeId: string) {
    forall i, j :: 0 <= i < j < |w.obs| && w.obs[i].probeId == w.obs[j].probeId == probeId ==> w.obs[i].at != w.obs[j].at
  }

  ghost predicate Settled(w: World, t: Store, probeId: string, th: Threshold) {
    match th.metric
    case LatencyP95Ms => LatencySettled(w, t, probeId, th, 95)
    case LatencyP99Ms => LatencySettled(w, t, probeId, th, 99)
    case ErrorRatePctMetric => RateSettled(w, t, probeId, th)
    case ConsecutiveFailuresMetric => DistinctTable(w, probeId) ==> FailuresSettled(w, t, probeId, th)
    case UnknownMetric(_) => true
  }

  /** The table t follows the reading: open exactly at or above the value, or as before
      without enough data. */
  ghost predicate Follows(w: World, t: Store, probeId: string, th: Threshold) {
    match Reading(w, probeId, th)
    case Some(v) => HasOpen(t, probeId, th.metric) <==> v >= th.value
    case None => HasOpen(t, probeId, th.metric) <==> HasOpen(w.incidents, probeId, th.metric)
  }

  lemma LatencyFollows(w: World, t: Store, probeId: string, th: Threshold, pct: nat)
    requires th.IsValid() && Follows(w, t, probeId, th)
    requires (th.metric == LatencyP95Ms && pct == 95) || (th.metric == LatencyP99Ms && pct == 99)
    ensures LatencySettled(w, t, probeId, th, pct)
  {
    hide Count, Window, HasOpen;
    var since := w.now - th.windowSec * SECOND;
    var window := Window(w.obs, probeId, since, w.now);
    CountWindow(w.obs, probeId, since, w.now, Faster(th.value));
    if window != [] { PercentileReaches(window, pct, th.value); }
  }

  lemma RateFollows(w: World, t: Store, probeId: string, th: Threshold)
    requires th.IsValid() && Follows(w, t, probeId, th) && th.metric == ErrorRatePctMetric
    ensures RateSettled(w, t, probeId, th)
  {
    hide Count, Window, HasOpen;
    var since := w.now - th.windowSec * SECOND;
    var window := Window(w.obs, probeId, since, w.now);
    CountWindow(w.obs, probeId, since, w.now, Failed());
    if window != [] { RateReaches(window, th.value); }
  }

  lemma {:induction false} RecordedMeaning(obs: seq<Observation>, probeId: string, now: int, o: Observation, t: int)
    ensures o in Recorded(obs, probeId, now) <==> o in obs && o.probeId == probeId && o.at <= now
    ensures LaterThan(Recorded(obs, probeId, now), t) == Count(obs, Inside(probeId, t + 1, now))
  {
    hide Count, LaterThan;
    if obs == [] {
      NoneCounted(Inside(probeId, t + 1, now));
      NoneLater(t);
    } else {
      var init, last := obs[..|obs| - 1], obs[|obs| - 1];
      RecordedMeaning(init, probeId, now, o, t);
      LaterSnoc(Recorded(init, probeId, now), last, t);
      CountSnoc(init, last, Inside(probeId, t + 1, now));
      assert obs == init + [last];
      assert Recorded(init, probeId, now) + [] == Recorded(init, probeId, now);
    }
  }

  lemma NoneLater(t: int)
    ensures LaterThan([], t) == 0
  {
  }

  lemma {:induction false} RecordedDistinct(w: World, probeId: string)
    requires DistinctTable(w, probeId)
    ensures DistinctTimes(Recorded(w.obs, probeId, w.now))
    decreases |w.obs|
  {
    if w.obs != [] {
      var n := |w.obs| - 1;
      var init, last := w.obs[..n], w.obs[n];
      RecordedDistinct(w.(obs := init), probeId);
      if last.probeId == probeId && last.at <= w.now {
        forall o | o in Recorded(init, probeId, w.now) ensures o.at != last.at {
          RecordedMeaning(init, probeId, w.now, o, 0);
          var i :| 0 <= i < n && init[i] == o;
          assert w.obs[i] == o;
        }
      }
    }
  }

  lemma FailuresFollow(w: World, t: Store, probeId: string, th: Threshold)
    requires th.IsValid() && Follows(w, t, probeId, th) && th.metric == ConsecutiveFailuresMetric && DistinctTable(w, probeId)
    ensures FailuresSettled(w, t, probeId, th)
  {
    hide Count, HasOpen, Recorded, Select, LaterThan, Chronological, DistinctTable, DistinctTimes;
    var n, since := th.value.Floor, Since(th, w.now);
    var h := Recorded(w.obs, probeId, w.now);
    SinceMeaning(th, w.now);
    AtLeastOne(th);
    CountSelect(w.obs, probeId, since, w.now, Failed());
    CountWindow(w.obs, probeId, since, w.now, Failed());
    RecordedDistinct(w, probeId);
    TripsOverTable(w, probeId, th);
    SelectRecorded(w.obs, probeId, since, w.now, Observation("", 0, 0, NoError), since);
    if n <= |Select(w.obs, probeId, since, w.now)| {
      forall o ensures Recent(h, n, o) <==> AmongLast(w, probeId, n, o) { RecordedMeaning(w.obs, probeId, w.now, o, o.at); }
      forall o | Recent(h, n, o) ensures o.at >= since { RecentInWindow(w.obs, probeId, since, w.now, n, o); }
    }
  }

  lemma FollowingSettles(w: World, t: Store, probeId: string, th: Threshold)
    requires th.IsValid() && Follows(w, t, probeId, th)
    ensures Settled(w, t, probeId, th)
  {
    hide Follows, LatencySettled, RateSettled, FailuresSettled, DistinctTable;
    match th.metric
    case LatencyP95Ms => LatencyFollows(w, t, probeId, th, 95);
    case LatencyP99Ms => LatencyFollows(w, t, probeId, th, 99);
    case ErrorRatePctMetric => RateFollows(w, t, probeId, th);
    case ConsecutiveFailuresMetric => if DistinctTable(w, probeId) { FailuresFollow(w, t, probeId, th); }
    case UnknownMetric(_) =>
  }

  /** One evaluation settles its threshold. */
  lemma EvaluationSettles(w: World, probeId: string, th: Threshold, id: string, evidenceMax: int)
    requires Invariant(w) && Allowed(w, probeId, th, id)
    ensures Settled(w, Evaluated(w, probeId, th, id, evidenceMax), probeId, th)
  {
    hide Settled, HasOpen, Reading;
    if Reading(w, probeId, th).Some? { OpenExactly(w, probeId, th, id, evidenceMax); }
    FollowingSettles(w, Evaluated(w, probeId, th, id, evidenceMax), probeId, th);
  }

  /** Execute settles every threshold of a validated probe at once. */
  lemma ExecuteSettles(w: World, probeId: string, ths: seq<Threshold>, ids: seq<string>, evidenceMax: int)
    requires Invariant(w) && probeId != "" && |ids| == |ths| && FreshIds(w, ids)
    requires DistinctMetrics(ths) && forall th :: th in ths ==> th.IsValid()
    ensures forall th :: th in ths ==> Settled(w, EvaluatedAll(w, probeId, ths, ids, evidenceMax).incidents, probeId, th)
  {
    hide Settled, HasOpen, Reading, Invariant, EvaluatedAll, Threshold.IsValid, DistinctMetrics;
    forall th | th in ths ensures Settled(w, EvaluatedAll(w, probeId, ths, ids, evidenceMax).incidents, probeId, th) {
      var k :| 0 <= k < |ths| && ths[k] == th;
      ProbeDecides(w, probeId, ths, ids, evidenceMax, k);
      FollowingSettles(w, EvaluatedAll(w, probeId, ths, ids, evidenceMax).incidents, probeId, th);
    }
  }

  // ---- what a new incident says ----------------------------------------------

  function Slower(ms: real): Observation -> bool { (o: Observation) => o.elapsedMs as real > ms }

  /** A latency of the window that less than pct percent stay below and pct percent or more
      do not exceed. */
  ghost predicate ObservedLatency(w: World, probeId: string, th: Threshold, pct: nat, v: real) {
    var inside := Inside(probeId, w.now - th.windowSec * SECOND, w.now);
    var n := Count(w.obs, inside);
    && (exists o :: o in w.obs && inside(o) && v == o.elapsedMs as real)
    && 100 * Count(w.obs, Both(inside, Faster(v))) < pct * n <= 100 * (n - Count(w.obs, Both(inside, Slower(v))))
  }

  ghost predicate ObservedRate(w: World, probeId: string, th: Threshold, v: real) {
    var inside := Inside(probeId, w.now - th.windowSec * SECOND, w.now);
    v * Count(w.obs, inside) as real == 100.0 * Count(w.obs, Both(inside, Failed())) as real
  }

  /** An observation of the window with fewer than n later ones. */
  ghost predicate LastInside(w: World, probeId: string, th: Threshold, n: int, o: Observation) {
    var inside := Inside(probeId, Since(th, w.now), w.now);
    o in w.obs && inside(o) && Count(w.obs, Both(inside, Later(o.at))) < n
  }

  /** The last k of the window failed, and not the one before them. */
  ghost predicate ObservedRun(w: World, probeId: string, th: Threshold, k: nat) {
    && (forall o :: LastInside(w, probeId, th, k, o) ==> o.class_ != NoError)
    && (k < Count(w.obs, Inside(probeId, Since(th, w.now), w.now)) ==>
          exists o :: LastInside(w, probeId, th, k + 1, o) && o.class_ == NoError)
  }

  ghost predicate Observed(w: World, probeId: string, th: Threshold, v: real) {
    match th.metric
    case LatencyP95Ms => ObservedLatency(w, probeId, th, 95, v)
    case LatencyP99Ms => ObservedLatency(w, probeId, th, 99, v)
    case ErrorRatePctMetric => ObservedRate(w, probeId, th, v)
    case ConsecutiveFailuresMetric => DistinctTable(w, probeId) ==> exists k: nat :: v == k as real && ObservedRun(w, probeId, th, k)
    case UnknownMetric(_) => false
  }

  /** The last max observations of the window, all of it when it is no longer, in time order. */
  ghost predicate IsEvidence(w: World, probeId: string, th: Threshold, max: int, evidence: seq<Observation>) {
    StrictlyAscending(TimeKey, evidence) && forall o :: o in evidence <==> LastInside(w, probeId, th, max, o)
  }

  lemma {:induction false} SelectMember(obs: seq<Observation>, probeId: string, since: int, until: int, o: Observation)
    ensures o in Select(obs, probeId, since, until) <==> o in obs && Inside(probeId, since, until)(o)
  {
    if obs != [] {
      SelectMember(obs[..|obs| - 1], probeId, since, until, o);
      assert obs == obs[..|obs| - 1] + [obs[|obs| - 1]];
    }
  }

  lemma WindowMember(obs: seq<Observation>, probeId: string, since: int, until: int, o: Observation)
    ensures o in Window(obs, probeId, since, until) <==> o in obs && Inside(probeId, since, until)(o)
  {
    SelectMember(obs, probeId, since, until, o);
    SortMember(TimeKey, Select(obs, probeId, since, until), o);
  }

  lemma LastOfWindow(w: World, probeId: string, th: Threshold, n: int, o: Observation)
    ensures Recent(Window(w.obs, probeId, Since(th, w.now), w.now), n, o) <==> LastInside(w, probeId, th, n, o)
  {
    hide Window, Count, LaterThan;
    var window := Window(w.obs, probeId, Since(th, w.now), w.now);
    WindowMember(w.obs, probeId, Since(th, w.now), w.now, o);
    LaterCount(window, o.at);
    CountWindow(w.obs, probeId, Since(th, w.now), w.now, Later(o.at));
  }

  lemma WindowDistinct(w: World, probeId: string, since: int)
    requires DistinctTable(w, probeId)
    ensures DistinctTimes(Window(w.obs, probeId, since, w.now))
  {
    hide DistinctTable, DistinctTimes, Chronological;
    RecordedDistinct(w, probeId);
    SelectDistinct(w.obs, probeId, since, w.now);
    ChronologicalKeeps(Select(w.obs, probeId, since, w.now), 0, Observation("", 0, 0, NoError));
  }

  lemma {:induction false} SlowerCount(obs: seq<Observation>, x: int)
    ensures Count(obs, Slower(x as real)) + AtMost(Latencies(obs), x) == |obs|
  {
    if obs != [] {
      SlowerCount(obs[1..], x);
      assert Latencies(obs)[1..] == Latencies(obs[1..]);
    }
  }

  lemma LatencyObserved(w: World, probeId: string, th: Threshold, pct: nat, v: real)
    requires (th.metric == LatencyP95Ms && pct == 95) || (th.metric == LatencyP99Ms && pct == 99)
    requires Reading(w, probeId, th) == Some(v)
    ensures ObservedLatency(w, probeId, th, pct, v)
  {
    hide Count, Window, SortBy, AtMost;
    var since := w.now - th.windowSec * SECOND;
    var window := Window(w.obs, probeId, since, w.now);
    var xs, rank := Latencies(window), CeilRank(pct, |window|);
    RankInRange(pct, |window|);
    NearestRank(xs, rank);
    var q := SortBy(IntKey, xs)[rank - 1];
    var i :| 0 <= i < |xs| && xs[i] == q;
    assert window[i] in window;
    WindowMember(w.obs, probeId, since, w.now, window[i]);
    CountWindow(w.obs, probeId, since, w.now, Faster(v));
    CountWindow(w.obs, probeId, since, w.now, Slower(v));
    PercentileReaches(window, pct, v);
    SlowerCount(window, q);
  }

  lemma RateObserved(w: World, probeId: string, th: Threshold, v: real)
    requires th.metric == ErrorRatePctMetric && Reading(w, probeId, th) == Some(v)
    ensures ObservedRate(w, probeId, th, v)
  {
    hide Count, Window, Errors;
    var since := w.now - th.windowSec * SECOND;
    var window := Window(w.obs, probeId, since, w.now);
    CountWindow(w.obs, probeId, since, w.now, Failed());
    ErrorsCount(window);
    var e, n := Errors(window) as real, |window| as real;
    assert e / n * n == e;
    assert e / n * 100.0 * n == 100.0 * (e / n * n);
  }

  lemma RunObserved(w: World, probeId: string, th: Threshold, v: real)
    requires th.metric == ConsecutiveFailuresMetric && Reading(w, probeId, th) == Some(v) && DistinctTable(w, probeId)
    ensures exists k: nat :: v == k as real && ObservedRun(w, probeId, th, k)
  {
    hide Count, Window, Chronological, LaterThan, DistinctTable, Trailing, Recent, LastInside, Since;
    var window := Window(w.obs, probeId, Since(th, w.now), w.now);
    var k := Trailing(Chronological(window));
    WindowDistinct(w, probeId, Since(th, w.now));
    CountWindow(w.obs, probeId, Since(th, w.now), w.now, Failed());
    TrailingLength(window);
    forall n: int, o: Observation ensures Recent(window, n, o) <==> LastInside(w, probeId, th, n, o) { LastOfWindow(w, probeId, th, n, o); }
    if k > 0 { TripsExactly(window, k); } else { NoneRecent(window); }
    if k < |window| { TripsExactly(window, k + 1); }
    assert v == k as real && ObservedRun(w, probeId, th, k);
  }

  lemma NoneRecent(obs: seq<Observation>)
    ensures forall o :: !Recent(obs, 0, o)
  {
  }

  lemma TrailingLength(obs: seq<Observation>)
    ensures Trailing(Chronological(obs)) <= |obs|
  {
    SortContents(TimeKey, obs);
    TrailingBounded(Chronological(obs));
  }

  lemma {:induction false} TrailingBounded(s: seq<Observation>)
    ensures Trailing(s) <= |s|
  {
    if s != [] { TrailingBounded(s[..|s| - 1]); }
  }

  lemma EvidenceOfWindow(w: World, probeId: string, th: Threshold, max: int)
    requires DistinctTable(w, probeId) && max > 0
    ensures IsEvidence(w, probeId, th, max, Truncated(Window(w.obs, probeId, Since(th, w.now), w.now), max))
  {
    hide Count, Chronological, LaterThan, DistinctTable, LastInside, Since, SortBy, Window;
    var window := Window(w.obs, probeId, Since(th, w.now), w.now);
    WindowDistinct(w, probeId, Since(th, w.now));
    forall o ensures o in Truncated(window, max) <==> LastInside(w, probeId, th, max, o) {
      LastOfWindow(w, probeId, th, max, o);
      if max < |window| { EvidenceIsRecent(window, max); } else { LaterBounds(window, o, o.at); }
    }
    if max < |window| { EvidenceIsRecent(window, max); } else { WindowAscends(w, probeId, Since(th, w.now)); }
  }

  lemma WindowAscends(w: World, probeId: string, since: int)
    requires DistinctTable(w, probeId)
    ensures StrictlyAscending(TimeKey, Window(w.obs, probeId, since, w.now))
  {
    hide DistinctTable;
    var s := Select(w.obs, probeId, since, w.now);
    RecordedDistinct(w, probeId);
    SelectDistinct(w.obs, probeId, since, w.now);
    assert Distinct(s) && InjectiveOn(TimeKey, s) by {
      forall x, y | x in s && y in s && TimeKey(x) == TimeKey(y) ensures x == y { assert TimeKey(x)[0] == TimeKey(y)[0]; }
    }
    SortStrict(TimeKey, s);
  }

  ghost predicate Says(w: World, probeId: string, th: Threshold, max: int, i: Incident) {
    && i.probeId == probeId && i.openedAt == w.now && i.closedAt.None?
    && i.breach.metric == th.metric && i.breach.threshold == th.value && i.breach.windowSec == th.windowSec
    && i.breach.observed >= th.value && Observed(w, probeId, th, i.breach.observed)
    && (DistinctTable(w, probeId) && max > 0 ==> IsEvidence(w, probeId, th, max, i.evidence))
  }

  /** An evaluation that opens an incident adds just that one, and it says what was seen. */
  lemma NewIncidentSays(w: World, probeId: string, th: Threshold, id: string, evidenceMax: int)
    requires Invariant(w) && Allowed(w, probeId, th, id) && !HasOpen(w.incidents, probeId, th.metric)
    requires HasOpen(Evaluated(w, probeId, th, id, evidenceMax), probeId, th.metric)
    ensures var t := Evaluated(w, probeId, th, id, evidenceMax);
      id in t && t[id].id == id && t == w.incidents[id := t[id]] && Says(w, probeId, th, evidenceMax, t[id])
  {
    hide Reading, Window, Truncated, Since, Invariant, ObservedLatency, ObservedRate, ObservedRun, DistinctTable, IsEvidence, HasOpen;
    var v := Reading(w, probeId, th).value;
    OpenExactly(w, probeId, th, id, evidenceMax);
    match th.metric {
      case LatencyP95Ms => LatencyObserved(w, probeId, th, 95, v);
      case LatencyP99Ms => LatencyObserved(w, probeId, th, 99, v);
      case ErrorRatePctMetric => RateObserved(w, probeId, th, v);
      case ConsecutiveFailuresMetric => if DistinctTable(w, probeId) { RunObserved(w, probeId, th, v); }
      case UnknownMetric(_) => assert false;
    }
    if DistinctTable(w, probeId) && evidenceMax > 0 { EvidenceOfWindow(w, probeId, th, evidenceMax); }
  }
}
