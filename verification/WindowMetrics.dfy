/** Window metrics of a probe (the metric helpers of
internal/application/probe/evaluate_window.go, internal/probe/observation.go).

Measurements are reals, and a percentile is given in hundredths. */
module WindowMetrics {
  import opened Prelude
  import opened Sorting

  datatype ErrorClass = NoError | NetworkError | TimeoutError | Http4xx | Http5xx | ProtocolError | OtherClass(code: int)
  {
    predicate IsError() { this != NoError }
  }

  /** Times are nanoseconds since the zero time. */
  datatype Observation = Observation(probeId: string, at: int, elapsedMs: Int64, class_: ErrorClass)

  // ---- counting observations ----------------------------------------------

  /** How many observations have a property. */
  function Count(obs: seq<Observation>, p: Observation -> bool): nat {
    if obs == [] then 0 else (if p(obs[0]) then 1 else 0) + Count(obs[1..], p)
  }

  function Both(p: Observation -> bool, q: Observation -> bool): Observation -> bool { (o: Observation) => p(o) && q(o) }

  /** Recorded for the probe between two instants, inclusive. */
  function Inside(probeId: string, since: int, until: int): Observation -> bool {
    (o: Observation) => o.probeId == probeId && since <= o.at <= until
  }

  function Faster(ms: real): Observation -> bool { (o: Observation) => o.elapsedMs as real < ms }

  function Failed(): Observation -> bool { (o: Observation) => o.class_ != NoError }

  lemma {:induction false} CountSnoc(s: seq<Observation>, x: Observation, p: Observation -> bool)
    ensures Count(s + [x], p) == Count(s, p) + if p(x) then 1 else 0
  {
    if s == [] {
      assert s + [x] == [x] && [x][1..] == [];
    } else {
      assert (s + [x])[1..] == s[1..] + [x];
      CountSnoc(s[1..], x, p);
    }
  }

  lemma {:induction false} CountInsert(x: Observation, s: seq<Observation>, p: Observation -> bool)
    ensures Count(Insert(TimeKey, x, s), p) == Count([x] + s, p)
  {
    assert ([x] + s)[1..] == s;
    if s != [] && LexLess(TimeKey(s[0]), TimeKey(x)) {
      CountInsert(x, s[1..], p);
      assert ([x] + s[1..])[1..] == s[1..];
      assert ([s[0]] + Insert(TimeKey, x, s[1..]))[1..] == Insert(TimeKey, x, s[1..]);
    }
  }

  lemma {:induction false} CountSort(s: seq<Observation>, p: Observation -> bool)
    ensures Count(Chronological(s), p) == Count(s, p)
  {
    if s != [] {
      CountSort(s[1..], p);
      CountInsert(s[0], Chronological(s[1..]), p);
      assert ([s[0]] + Chronological(s[1..]))[1..] == Chronological(s[1..]);
    }
  }

  // ---- latency percentile -------------------------------------------------

  function Latencies(obs: seq<Observation>): seq<int> {
    seq(|obs|, i requires 0 <= i < |obs| => obs[i].elapsedMs)
  }

  /** ceil(p / 100 * n). */
  function CeilRank(p: nat, n: nat): nat { (p * n + 99) / 100 }

  /** How many elements are at most x. */
  function AtMost(xs: seq<int>, x: int): nat {
    if xs == [] then 0 else (if xs[0] <= x then 1 else 0) + AtMost(xs[1..], x)
  }

  /** The least element that at least rank elements do not exceed. */
  ghost predicate IsPercentile(xs: seq<int>, rank: nat, x: int) {
    && x in xs && AtMost(xs, x) >= rank
    && forall y :: y in xs && AtMost(xs, y) >= rank ==> x <= y
  }

  lemma {:induction false} AtMostInsert(x: int, s: seq<int>, v: int)
    ensures AtMost(Insert(IntKey, x, s), v) == AtMost([x] + s, v)
  {
    assert ([x] + s)[1..] == s;
    if s != [] && LexLess(IntKey(s[0]), IntKey(x)) {
      AtMostInsert(x, s[1..], v);
      assert ([x] + s[1..])[1..] == s[1..];
      assert ([s[0]] + Insert(IntKey, x, s[1..]))[1..] == Insert(IntKey, x, s[1..]);
    }
  }

  lemma {:induction false} AtMostSort(s: seq<int>, v: int)
    ensures AtMost(SortBy(IntKey, s), v) == AtMost(s, v)
  {
    if s != [] {
      AtMostSort(s[1..], v);
      AtMostInsert(s[0], SortBy(IntKey, s[1..]), v);
      assert ([s[0]] + SortBy(IntKey, s[1..]))[1..] == SortBy(IntKey, s[1..]);
    }
  }

  lemma {:induction false} AtMostBounds(s: seq<int>, k: nat, v: int)
    requires k <= |s|
    ensures (forall i :: 0 <= i < k ==> s[i] <= v) ==> AtMost(s, v) >= k
    ensures (forall i :: k <= i < |s| ==> s[i] > v) ==> AtMost(s, v) <= k
  {
    if s != [] { AtMostBounds(s[1..], if k == 0 then 0 else k - 1, v); }
  }

  lemma SortedInts(s: seq<int>, i: nat, j: nat)
    requires Ascending(IntKey, s) && i <= j < |s|
    ensures s[i] <= s[j]
  {
    assert i < j ==> LexAtMost(IntKey(s[i]), IntKey(s[j]));
  }

  lemma RankReaches(xs: seq<int>, s: seq<int>, rank: nat)
    requires s == SortBy(IntKey, xs) && Ascending(IntKey, s) && 1 <= rank <= |s|
    ensures AtMost(xs, s[rank - 1]) >= rank
  {
    forall i | 0 <= i < rank ensures s[i] <= s[rank - 1] { SortedInts(s, i, rank - 1); }
    AtMostBounds(s, rank, s[rank - 1]);
    AtMostSort(xs, s[rank - 1]);
  }

  lemma RankIsLeast(xs: seq<int>, s: seq<int>, rank: nat, y: int)
    requires s == SortBy(IntKey, xs) && Ascending(IntKey, s) && 1 <= rank <= |s| && AtMost(xs, y) >= rank
    ensures s[rank - 1] <= y
  {
    AtMostSort(xs, y);
    forall i | rank - 1 <= i < |s| ensures s[i] >= s[rank - 1] { SortedInts(s, rank - 1, i); }
    AtMostBounds(s, rank - 1, y);
  }

  /** Element number rank of the sorted list is the percentile. */
  lemma NearestRank(xs: seq<int>, rank: nat)
    requires 1 <= rank <= |xs|
    ensures |SortBy(IntKey, xs)| == |xs| && IsPercentile(xs, rank, SortBy(IntKey, xs)[rank - 1])
  {
    hide SortBy, AtMost;
    var s := SortBy(IntKey, xs);
    SortContents(IntKey, xs);
    SortAscending(IntKey, xs);
    SortMember(IntKey, xs, s[rank - 1]);
    RankReaches(xs, s, rank);
    forall y | y in xs && AtMost(xs, y) >= rank ensures s[rank - 1] <= y { RankIsLeast(xs, s, rank, y); }
  }

  /** percentileMS: nothing for an empty window, else the nearest-rank percentile. */
  method PercentileMs(obs: seq<Observation>, p: nat) returns (v: Option<real>)
    requires 1 <= p <= 100
    ensures v.None? <==> obs == []
    ensures v.Some? ==> exists x :: v.value == x as real && IsPercentile(Latencies(obs), CeilRank(p, |obs|), x)
    ensures v == Percentile(obs, p)
  {
    if |obs| == 0 { return None; }
    var xs: seq<int> := [];
    for i := 0 to |obs|
      invariant xs == Latencies(obs)[..i]
    {
      xs := xs + [obs[i].elapsedMs];
    }
    assert xs == Latencies(obs);
    var rank := CeilRank(p, |xs|);
    RankInRange(p, |xs|);
    NearestRank(xs, rank);
    if rank < 1 { rank := 1; }
    if rank > |xs| { rank := |xs|; }
    var sorted := SortBy(IntKey, xs);
    v := Some(sorted[rank - 1] as real);
  }

  lemma RankInRange(p: nat, n: nat)
    requires 1 <= p <= 100 && n > 0
    ensures 1 <= CeilRank(p, n) <= n
  {
    MulAtLeast(n, p, 1);
    MulAtLeast(n, 100, p);
    assert n * p == p * n;
  }

  function Percentile(obs: seq<Observation>, p: nat): Option<real>
    requires 1 <= p <= 100
  {
    if obs == [] then None
    else
      RankInRange(p, |obs|);
      SortContents(IntKey, Latencies(obs));
      Some(SortBy(IntKey, Latencies(obs))[CeilRank(p, |obs|) - 1] as real)
  }

  lemma {:induction false} AtMostMonotone(xs: seq<int>, x: int, y: int)
    requires x <= y
    ensures AtMost(xs, x) <= AtMost(xs, y)
  {
    if xs != [] { AtMostMonotone(xs[1..], x, y); }
  }

  /** The greatest integer below v. */
  function BelowInt(v: real): int { -(-v).Floor - 1 }

  lemma BelowIntMeaning(x: int, v: real)
    ensures x as real < v <==> x <= BelowInt(v)
  {
  }

  lemma {:induction false} FasterCount(obs: seq<Observation>, v: real)
    ensures Count(obs, Faster(v)) == AtMost(Latencies(obs), BelowInt(v))
  {
    if obs != [] {
      FasterCount(obs[1..], v);
      BelowIntMeaning(obs[0].elapsedMs, v);
      assert Latencies(obs)[1..] == Latencies(obs[1..]);
    }
  }

  /** The percentile reaches v exactly when less than p percent of the observations are faster. */
  lemma PercentileReaches(obs: seq<Observation>, p: nat, v: real)
    requires 1 <= p <= 100 && obs != []
    ensures Percentile(obs, p).value >= v <==> 100 * Count(obs, Faster(v)) < p * |obs|
  {
    hide Count, AtMost, SortBy, BelowInt;
    var xs, rank, t := Latencies(obs), CeilRank(p, |obs|), BelowInt(v);
    RankInRange(p, |obs|);
    FasterCount(obs, v);
    NearestRank(xs, rank);
    var q := SortBy(IntKey, xs)[rank - 1];
    BelowIntMeaning(q, v);
    if q <= t { AtMostMonotone(xs, q, t); }
    SortAscending(IntKey, xs);
    if AtMost(xs, t) >= rank { RankIsLeast(xs, SortBy(IntKey, xs), rank, t); }
    RankBelow(AtMost(xs, t), p * |obs|);
  }

  lemma RankBelow(k: nat, m: nat)
    ensures k < (m + 99) / 100 <==> 100 * k < m
  {
  }

  // ---- error rate ---------------------------------------------------------

  function Errors(obs: seq<Observation>): nat {
    if obs == [] then 0
    else Errors(obs[..|obs| - 1]) + if obs[|obs| - 1].class_.IsError() then 1 else 0
  }

  function ErrorRate(obs: seq<Observation>): Option<real> {
    if obs == [] then None else Some(Errors(obs) as real / |obs| as real * 100.0)
  }

  /** errorRatePct. */
  method ErrorRatePct(obs: seq<Observation>) returns (v: Option<real>)
    ensures v == ErrorRate(obs)
  {
    if |obs| == 0 { return None; }
    var errs := 0;
    for i := 0 to |obs|
      invariant errs == Errors(obs[..i])
    {
      assert obs[..i + 1][..i] == obs[..i];
      if obs[i].class_.IsError() { errs := errs + 1; }
    }
    assert obs[..|obs|] == obs;
    v := Some(errs as real / |obs| as real * 100.0);
  }

  lemma {:induction false} ErrorsBounded(obs: seq<Observation>)
    ensures Errors(obs) <= |obs|
    ensures Errors(obs) == |obs| <==> forall o :: o in obs ==> o.class_.IsError()
    ensures Errors(obs) == 0 <==> forall o :: o in obs ==> !o.class_.IsError()
  {
    if obs != [] {
      ErrorsBounded(obs[..|obs| - 1]);
      assert obs == obs[..|obs| - 1] + [obs[|obs| - 1]];
    }
  }

  /** The rate runs from 0, when nothing failed, to 100, when everything did. */
  lemma ErrorRateRange(obs: seq<Observation>)
    requires obs != []
    ensures 0.0 <= ErrorRate(obs).value <= 100.0
    ensures ErrorRate(obs).value == 100.0 <==> forall o :: o in obs ==> o.class_.IsError()
    ensures ErrorRate(obs).value == 0.0 <==> forall o :: o in obs ==> !o.class_.IsError()
  {
    ErrorsBounded(obs);
    Fraction(Errors(obs) as real, |obs| as real);
  }

  lemma Fraction(e: real, n: real)
    requires 0.0 <= e <= n && n > 0.0
    ensures 0.0 <= e / n <= 1.0 && (e / n == 1.0 <==> e == n) && (e / n == 0.0 <==> e == 0.0)
  {
    var q := e / n;
    assert q * n == e;
    if q > 1.0 { PositiveProduct(q - 1.0, n); }
    if q < 1.0 { PositiveProduct(1.0 - q, n); }
    if q < 0.0 { PositiveProduct(-q, n); }
    if q > 0.0 { PositiveProduct(q, n); }
  }

  lemma PositiveProduct(a: real, b: real)
    requires a > 0.0 && b > 0.0
    ensures a * b > 0.0
  {
  }

  lemma {:induction false} ErrorsCount(obs: seq<Observation>)
    ensures Errors(obs) == Count(obs, Failed())
  {
    if obs != [] {
      var init, last := obs[..|obs| - 1], obs[|obs| - 1];
      ErrorsCount(init);
      CountSnoc(init, last, Failed());
      assert obs == init + [last];
    }
  }

  /** The rate reaches v exactly when the failures are at least v percent of the observations. */
  lemma RateReaches(obs: seq<Observation>, v: real)
    requires obs != []
    ensures ErrorRate(obs).value >= v <==> 100.0 * Count(obs, Failed()) as real >= v * |obs| as real
  {
    ErrorsCount(obs);
    ScaledFraction(Errors(obs) as real, |obs| as real, v);
  }

  lemma ScaledFraction(e: real, n: real, v: real)
    requires n > 0.0
    ensures e / n * 100.0 >= v <==> 100.0 * e >= v * n
  {
    var q := e / n;
    assert q * n == e;
    assert (q * 100.0 - v) * n == 100.0 * e - v * n;
    if q * 100.0 > v { PositiveProduct(q * 100.0 - v, n); }
    if q * 100.0 < v { PositiveProduct(v - q * 100.0, n); }
  }

  // ---- consecutive failures -----------------------------------------------

  function TimeKey(o: Observation): seq<int> { [o.at] }

  lemma Earlier(x: Observation, y: Observation)
    ensures LexLess(TimeKey(x), TimeKey(y)) <==> x.at < y.at
  {
    assert TimeKey(x)[1..] == [] && TimeKey(y)[1..] == [];
  }

  function Chronological(obs: seq<Observation>): seq<Observation> { SortBy(TimeKey, obs) }

  /** The length of the run of errors at the end. */
  function Trailing(obs: seq<Observation>): nat {
    if obs == [] || !obs[|obs| - 1].class_.IsError() then 0 else 1 + Trailing(obs[..|obs| - 1])
  }

  function FailureRun(obs: seq<Observation>, n: int): Option<real> {
    if n <= 0 || |obs| < n then None else Some(Trailing(Chronological(obs)) as real)
  }

  /** consecutiveFailures. */
  method ConsecutiveFailures(obs: seq<Observation>, n: int) returns (v: Option<real>)
    ensures v == FailureRun(obs, n)
  {
    if n <= 0 { return None; }
    if |obs| < n { return None; }
    var sorted := SortBy(TimeKey, obs);
    var count := 0;
    var i := |sorted| - 1;
    assert sorted[..|sorted|] == sorted;
    while i >= 0
      invariant -1 <= i < |sorted| && count == |sorted| - 1 - i
      invariant Trailing(sorted) == count + Trailing(sorted[..i + 1])
    {
      if !sorted[i].class_.IsError() { break; }
      assert sorted[..i + 1][..i] == sorted[..i];
      count := count + 1;
      i := i - 1;
    }
    v := Some(count as real);
  }

  /** How many observations are later than t. */
  function LaterThan(obs: seq<Observation>, t: int): nat {
    if obs == [] then 0 else (if obs[0].at > t then 1 else 0) + LaterThan(obs[1..], t)
  }

  function Later(t: int): Observation -> bool { (o: Observation) => o.at > t }

  lemma {:induction false} LaterCount(obs: seq<Observation>, t: int)
    ensures LaterThan(obs, t) == Count(obs, Later(t))
  {
    if obs != [] { LaterCount(obs[1..], t); }
  }

  /** o is one of the n most recent observations. */
  ghost predicate Recent(obs: seq<Observation>, n: int, o: Observation) { o in obs && LaterThan(obs, o.at) < n }

  ghost predicate DistinctTimes(obs: seq<Observation>) { forall i, j :: 0 <= i < j < |obs| ==> obs[i].at != obs[j].at }

  lemma {:induction false} LaterInsert(x: Observation, s: seq<Observation>, t: int)
    ensures LaterThan(Insert(TimeKey, x, s), t) == LaterThan([x] + s, t)
  {
    assert ([x] + s)[1..] == s;
    if s != [] && LexLess(TimeKey(s[0]), TimeKey(x)) {
      LaterInsert(x, s[1..], t);
      assert ([x] + s[1..])[1..] == s[1..];
      assert ([s[0]] + Insert(TimeKey, x, s[1..]))[1..] == Insert(TimeKey, x, s[1..]);
    }
  }

  lemma {:induction false} LaterSort(s: seq<Observation>, t: int)
    ensures LaterThan(Chronological(s), t) == LaterThan(s, t)
  {
    if s != [] {
      LaterSort(s[1..], t);
      LaterInsert(s[0], Chronological(s[1..]), t);
      assert ([s[0]] + Chronological(s[1..]))[1..] == Chronological(s[1..]);
    }
  }

  lemma {:induction false} LaterAtPosition(s: seq<Observation>, k: nat, t: int)
    requires k <= |s|
    requires forall i :: 0 <= i < |s| ==> (s[i].at > t <==> i >= k)
    ensures LaterThan(s, t) == |s| - k
  {
    if s != [] {
      LaterAtPosition(s[1..], if k == 0 then 0 else k - 1, t);
    }
  }

  /** In time order, the observation at position i has exactly the ones after it later. */
  lemma RecentPosition(obs: seq<Observation>, i: nat)
    requires DistinctTimes(obs) && i < |obs|
    ensures |Chronological(obs)| == |obs|
    ensures LaterThan(obs, Chronological(obs)[i].at) == |obs| - 1 - i
  {
    var s := Chronological(obs);
    SortContents(TimeKey, obs);
    assert Distinct(obs) && InjectiveOn(TimeKey, obs) by {
      forall x, y | x in obs && y in obs && TimeKey(x) == TimeKey(y) ensures x == y { assert TimeKey(x)[0] == TimeKey(y)[0]; }
    }
    SortStrict(TimeKey, obs);
    forall j | 0 <= j < |s| ensures s[j].at > s[i].at <==> j >= i + 1 {
      Earlier(s[j], s[i]);
      Earlier(s[i], s[j]);
    }
    LaterAtPosition(s, i + 1, s[i].at);
    LaterSort(obs, s[i].at);
  }

  lemma {:induction false} TrailingMeaning(s: seq<Observation>, n: nat)
    requires n <= |s|
    ensures Trailing(s) >= n <==> forall i :: |s| - n <= i < |s| ==> s[i].class_.IsError()
  {
    if n > 0 { TrailingMeaning(s[..|s| - 1], n - 1); }
  }

  /** With distinct timestamps, the run reaches n exactly when the n most recent
      observations are all errors. */
  lemma TripsExactly(obs: seq<Observation>, n: int)
    requires DistinctTimes(obs) && 0 < n <= |obs|
    ensures FailureRun(obs, n).value >= n as real <==> forall o :: Recent(obs, n, o) ==> o.class_.IsError()
  {
    var s := Chronological(obs);
    SortContents(TimeKey, obs);
    TrailingMeaning(s, n);
    if forall o :: Recent(obs, n, o) ==> o.class_.IsError() {
      forall i | |s| - n <= i < |s| ensures s[i].class_.IsError() {
        RecentPosition(obs, i);
        SortMember(TimeKey, obs, s[i]);
        assert Recent(obs, n, s[i]);
      }
    }
    if forall i :: |s| - n <= i < |s| ==> s[i].class_.IsError() {
      forall o | Recent(obs, n, o) ensures o.class_.IsError() {
        SortMember(TimeKey, obs, o);
        var i :| 0 <= i < |s| && s[i] == o;
        RecentPosition(obs, i);
      }
    }
  }

  lemma {:induction false} LaterSnoc(s: seq<Observation>, x: Observation, t: int)
    ensures LaterThan(s + [x], t) == LaterThan(s, t) + if x.at > t then 1 else 0
  {
    if s == [] {
      assert s + [x] == [x] && [x][1..] == [];
    } else {
      assert (s + [x])[1..] == s[1..] + [x];
      LaterSnoc(s[1..], x, t);
    }
  }

  lemma {:induction false} LaterBounds(s: seq<Observation>, o: Observation, t: int)
    ensures LaterThan(s, t) <= |s|
    ensures o in s && o.at <= t ==> LaterThan(s, t) < |s|
    ensures (forall x :: x in s ==> x.at > t) ==> LaterThan(s, t) == |s|
  {
    if s != [] {
      LaterBounds(s[1..], o, t);
      assert s == [s[0]] + s[1..];
    }
  }

  lemma {:induction false} LaterAntitone(s: seq<Observation>, t: int, u: int)
    requires t <= u
    ensures LaterThan(s, t) >= LaterThan(s, u)
  {
    if s != [] { LaterAntitone(s[1..], t, u); }
  }

  /** Sorting keeps the times distinct and the recent observations recent. */
  lemma ChronologicalKeeps(s: seq<Observation>, n: int, o: Observation)
    requires DistinctTimes(s)
    ensures DistinctTimes(Chronological(s)) && |Chronological(s)| == |s|
    ensures Recent(Chronological(s), n, o) <==> Recent(s, n, o)
  {
    var r := Chronological(s);
    SortContents(TimeKey, s);
    assert Distinct(s) && InjectiveOn(TimeKey, s) by {
      forall x, y | x in s && y in s && TimeKey(x) == TimeKey(y) ensures x == y { assert TimeKey(x)[0] == TimeKey(y)[0]; }
    }
    SortStrict(TimeKey, s);
    forall i, j | 0 <= i < j < |r| ensures r[i].at != r[j].at {
      assert LexLess(TimeKey(r[i]), TimeKey(r[j]));
      Earlier(r[i], r[j]);
    }
    SortMember(TimeKey, s, o);
    LaterSort(s, o.at);
  }

  // ---- evidence -----------------------------------------------------------

  function Truncated(obs: seq<Observation>, max: int): seq<Observation> {
    if max <= 0 || |obs| <= max then obs
    else
      SortContents(TimeKey, obs);
      Chronological(obs)[|obs| - max..]
  }

  /** truncateObservations: of a long list the max most recent, in time order; a short
      list as it came. */
  lemma EvidenceIsRecent(obs: seq<Observation>, max: int)
    requires DistinctTimes(obs) && 0 < max < |obs|
    ensures |Truncated(obs, max)| == max && StrictlyAscending(TimeKey, Truncated(obs, max))
    ensures forall o :: o in Truncated(obs, max) <==> Recent(obs, max, o)
  {
    var s := Chronological(obs);
    SortContents(TimeKey, obs);
    assert Distinct(obs) && InjectiveOn(TimeKey, obs) by {
      forall x, y | x in obs && y in obs && TimeKey(x) == TimeKey(y) ensures x == y { assert TimeKey(x)[0] == TimeKey(y)[0]; }
    }
    SortStrict(TimeKey, obs);
    forall o ensures o in Truncated(obs, max) <==> Recent(obs, max, o) {
      SortMember(TimeKey, obs, o);
      if o in obs {
        var i :| 0 <= i < |s| && s[i] == o;
        RecentPosition(obs, i);
        if i >= |obs| - max { assert Truncated(obs, max)[i - (|obs| - max)] == o; }
      }
      if o in Truncated(obs, max) {
        var k :| 0 <= k < max && Truncated(obs, max)[k] == o;
        assert s[|obs| - max + k] == o;
        RecentPosition(obs, |obs| - max + k);
      }
    }
  }

  /** Evidence is in time order exactly when it was cut or came in order. */
  lemma EvidenceSortedExactly(obs: seq<Observation>, max: int)
    ensures Ascending(TimeKey, Truncated(obs, max)) <==> (0 < max < |obs| || Ascending(TimeKey, obs))
  {
    SortContents(TimeKey, obs);
    SortAscending(TimeKey, obs);
  }

  /** A short list out of order stays so. */
  lemma ShortEvidenceUnsorted()
    ensures var late, early := Observation("p", 2, 0, NoError), Observation("p", 1, 0, NoError);
      !Ascending(TimeKey, Truncated([late, early], 20))
  {
    var late, early := Observation("p", 2, 0, NoError), Observation("p", 1, 0, NoError);
    assert LexLess(TimeKey(early), TimeKey(late));
    assert [late, early][0] == late && [late, early][1] == early;
  }
}
