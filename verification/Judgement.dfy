/** Discrepancies and the default judgement policy
(internal/diff/discrepancy.go, internal/diff/judgement.go). */
module Judgement {
  import opened Prelude
  import opened Sorting
  import opened Metrics
  import opened Address
  import opened Tolerance

  datatype SubjectType = SubjectBlock | SubjectAddress | SubjectContract | SubjectChain | NoSubject

  datatype Subject = Subject(kind: SubjectType, address: Option<Address>)

  datatype Discrepancy = Discrepancy(runId: string, metric: Metric, block: Uint64, subject: Subject, values: Snapshots)

  datatype Severity = SevInfo | SevWarning | SevError | SevCritical

  datatype Judgement = Judgement(severity: Severity, trusted: seq<string>)

  function NewDiscrepancy(runId: string, m: Metric, block: Uint64, subject: Subject, values: Snapshots): Result<Discrepancy> {
    if runId == "" then Err("discrepancy: run id is empty")
    else if subject.kind.NoSubject? then Err("discrepancy: subject type is empty")
    else if |values| < 2 then Err("discrepancy: need at least 2 source values")
    else if "" in values then Err("discrepancy: source id is empty")
    else Ok(Discrepancy(runId, m, block, subject, values))
  }

  function SeverityFor(c: Category): Severity {
    match c
    case CatBlockImmutable | CatAddressAtBlock => SevCritical
    case CatAddressLatest => SevWarning
    case CatSnapshot => SevInfo
    case OtherCategory(_) => SevWarning
  }

  // ---- clusters -----------------------------------------------------------

  /** The sources that reported a raw value. */
  ghost function Holders(values: Snapshots, raw: string): set<string> {
    set sid | sid in values && values[sid].raw == raw
  }

  ghost function Raws(values: Snapshots): set<string> {
    set sid | sid in values :: values[sid].raw
  }

  type Groups = map<string, seq<string>>

  ghost predicate Listing(ids: seq<string>, members: set<string>) {
    StrictlyAscending(IdKey, ids) && Elements(ids) == members
  }

  /** groups partitions the sources by raw value, each cluster in id order. */
  ghost predicate Grouped(values: Snapshots, groups: Groups) {
    && groups.Keys == Raws(values)
    && forall raw :: raw in groups ==> Listing(groups[raw], Holders(values, raw))
  }

  lemma ListingUnique(xs: seq<string>, ys: seq<string>, members: set<string>)
    requires Listing(xs, members) && Listing(ys, members)
    ensures xs == ys
  {
    IdKeyInjective(xs);
    forall x ensures x in xs <==> x in ys { assert x in Elements(xs) <==> x in Elements(ys); }
    StrictUnique(IdKey, xs, ys);
  }

  lemma SortListing(ids: seq<string>)
    requires Distinct(ids)
    ensures Listing(SortBy(IdKey, ids), Elements(ids))
  {
    IdKeyInjective(ids);
    SortStrict(IdKey, ids);
    forall x ensures x in SortBy(IdKey, ids) <==> x in ids { SortMember(IdKey, ids, x); }
  }

  lemma ListingLength(ids: seq<string>, members: set<string>)
    requires Listing(ids, members)
    ensures |ids| == |members|
  {
    StrictIsAscending(IdKey, ids);
    DistinctCardinality(ids);
  }

  /** groups clusters the sources visited so far, in the order they were met. */
  ghost predicate Clustered(values: Snapshots, done: set<string>, groups: Groups) {
    && done <= values.Keys
    && (forall raw :: raw in groups <==> exists sid :: sid in done && values[sid].raw == raw)
    && forall raw :: raw in groups ==> Distinct(groups[raw]) && Elements(groups[raw]) == Holders(values, raw) * done
  }

  function ClusterOf(groups: Groups, raw: string): seq<string> { if raw in groups then groups[raw] else [] }

  lemma ClusterStep(values: Snapshots, done: set<string>, groups: Groups, sid: string)
    requires Clustered(values, done, groups) && sid in values && sid !in done
    ensures var raw := values[sid].raw;
      Clustered(values, done + {sid}, groups[raw := ClusterOf(groups, raw) + [sid]])
  {
    var raw := values[sid].raw;
    var cluster := ClusterOf(groups, raw);
    assert Elements(cluster) == Holders(values, raw) * done;
    assert sid in cluster <==> sid in Elements(cluster);
    ElementsSnoc(cluster, sid);
    var after := groups[raw := cluster + [sid]];
    forall r | r in after
      ensures Distinct(after[r]) && Elements(after[r]) == Holders(values, r) * (done + {sid})
    {
      if r == raw {
        assert sid in Holders(values, raw);
      } else {
        assert sid !in Holders(values, r);
      }
    }
    forall r ensures r in after <==> exists s :: s in done + {sid} && values[s].raw == r {
      if r == raw { assert sid in done + {sid}; }
      if r in groups {
        var s :| s in done && values[s].raw == r;
        assert s in done + {sid};
      }
    }
  }

  /** groupByRaw: one pass over the map in arbitrary order, then one sort per cluster. */
  method GroupByRaw(values: Snapshots) returns (groups: Groups)
    ensures Grouped(values, groups)
  {
    groups := map[];
    var todo := values.Keys;
    while todo != {}
      invariant todo <= values.Keys
      invariant Clustered(values, values.Keys - todo, groups)
      decreases |todo|
    {
      var sid :| sid in todo;
      var raw := values[sid].raw;
      ClusterStep(values, values.Keys - todo, groups, sid);
      assert values.Keys - (todo - {sid}) == values.Keys - todo + {sid};
      groups := groups[raw := ClusterOf(groups, raw) + [sid]];
      todo := todo - {sid};
    }
    assert values.Keys - todo == values.Keys;
    assert forall raw :: Holders(values, raw) * values.Keys == Holders(values, raw);
    groups := SortClusters(values, groups);
  }

  method SortClusters(ghost values: Snapshots, clusters: Groups) returns (groups: Groups)
    requires Clustered(values, values.Keys, clusters)
    ensures Grouped(values, groups)
  {
    groups := clusters;
    var unsorted := clusters.Keys;
    while unsorted != {}
      invariant unsorted <= groups.Keys == clusters.Keys
      invariant forall raw :: raw in unsorted ==> groups[raw] == clusters[raw]
      invariant forall raw :: raw in groups && raw !in unsorted ==> Listing(groups[raw], Holders(values, raw))
      decreases |unsorted|
    {
      var k :| k in unsorted;
      SortListing(clusters[k]);
      assert Holders(values, k) * values.Keys == Holders(values, k);
      groups := groups[k := SortBy(IdKey, groups[k])];
      unsorted := unsorted - {k};
    }
  }

  // ---- the trusted cluster ------------------------------------------------

  /** trustRank[sid]: later entries of SourceTrust overwrite earlier ones. */
  function LastIndex(trust: seq<string>, sid: string): int {
    if trust == [] then -1
    else if trust[|trust| - 1] == sid then |trust| - 1
    else LastIndex(trust[..|trust| - 1], sid)
  }

  lemma {:induction false} LastIndexMeaning(trust: seq<string>, sid: string)
    ensures var i := LastIndex(trust, sid);
      if sid in trust then 0 <= i < |trust| && trust[i] == sid && sid !in trust[i + 1..] else i == -1
  {
    if trust != [] && trust[|trust| - 1] == sid {
      assert trust[|trust|..] == [];
    } else if trust != [] {
      var n := |trust| - 1;
      LastIndexMeaning(trust[..n], sid);
      assert trust == trust[..n] + [trust[n]];
      assert sid in trust <==> sid in trust[..n];
      var i := LastIndex(trust[..n], sid);
      if i >= 0 {
        assert trust[i + 1..] == trust[..n][i + 1..] + [trust[n]];
      }
    }
  }

  /** sid is present and no present source is ranked before it. */
  ghost predicate BestRanked(trust: seq<string>, values: Snapshots, sid: string) {
    && sid in values && sid in trust
    && forall other :: other in values && other in trust ==> LastIndex(trust, sid) <= LastIndex(trust, other)
  }

  /** raw has the largest cluster, and the least text among the largest. */
  ghost predicate LargestCluster(values: Snapshots, raw: string) {
    && raw in Raws(values)
    && forall r :: r in Raws(values) ==>
         || |Holders(values, r)| < |Holders(values, raw)|
         || (|Holders(values, r)| == |Holders(values, raw)| && LexAtMost(Codes(raw), Codes(r)))
  }

  ghost predicate AnyRanked(trust: seq<string>, values: Snapshots) { exists sid :: sid in values && sid in trust }

  /** The raw value whose cluster is trusted, said without any loop. */
  ghost predicate TrustedRaw(trust: seq<string>, values: Snapshots, raw: string) {
    if AnyRanked(trust, values) then exists sid :: BestRanked(trust, values, sid) && raw == values[sid].raw
    else LargestCluster(values, raw)
  }

  lemma TrustedRawUnique(trust: seq<string>, values: Snapshots, r1: string, r2: string)
    requires TrustedRaw(trust, values, r1) && TrustedRaw(trust, values, r2)
    ensures r1 == r2
  {
    if AnyRanked(trust, values) {
      var s1 :| BestRanked(trust, values, s1) && r1 == values[s1].raw;
      var s2 :| BestRanked(trust, values, s2) && r2 == values[s2].raw;
      LastIndexMeaning(trust, s1);
      LastIndexMeaning(trust, s2);
    } else {
      LexTotal(Codes(r1), Codes(r2));
      if Codes(r1) == Codes(r2) { CodesInjective(r1, r2); }
    }
  }

  /** The map built from SourceTrust: the rank of an id is its last position. */
  method TrustRanks(trust: seq<string>) returns (rank: map<string, int>)
    ensures rank.Keys == Elements(trust)
    ensures forall sid :: sid in rank ==> rank[sid] == LastIndex(trust, sid)
  {
    rank := map[];
    for i := 0 to |trust|
      invariant rank.Keys == Elements(trust[..i])
      invariant forall sid :: sid in rank ==> rank[sid] == LastIndex(trust[..i], sid)
    {
      assert trust[..i + 1][..i] == trust[..i] && trust[..i + 1] == trust[..i] + [trust[i]];
      rank := rank[trust[i] := i];
    }
    assert trust[..|trust|] == trust;
  }

  /** pickTrustedCluster: both tiers, each ranging over the map in arbitrary order. */
  method PickTrustedCluster(trust: seq<string>, groups: Groups, ghost values: Snapshots) returns (cluster: seq<string>)
    requires Grouped(values, groups) && values != map[]
    ensures exists raw :: TrustedRaw(trust, values, raw) && raw in groups && cluster == groups[raw]
  {
    var rank := TrustRanks(trust);
    var found, best := BestRankedCluster(trust, rank, groups, values);
    if found { return best; }
    assert groups != map[] by {
      var sid :| sid in values;
      assert values[sid].raw in Raws(values);
    }
    cluster := LargestFirst(groups, values);
  }

  method BestRankedCluster(trust: seq<string>, rank: map<string, int>, groups: Groups, ghost values: Snapshots)
    returns (found: bool, cluster: seq<string>)
    requires Grouped(values, groups)
    requires rank.Keys == Elements(trust) && forall sid :: sid in rank ==> rank[sid] == LastIndex(trust, sid)
    ensures found <==> AnyRanked(trust, values)
    ensures found ==> exists raw :: TrustedRaw(trust, values, raw) && raw in groups && cluster == groups[raw]
  {
    hide LastIndex, LexLess;
    var bestRank := -1;
    found := false;
    cluster := [];
    ghost var bestSid := "";
    var todo := groups.Keys;
    ghost var seen: set<string> := {};
    while todo != {}
      invariant todo <= groups.Keys
      invariant seen == set sid | sid in values && values[sid].raw !in todo
      invariant found <==> exists sid :: sid in seen && sid in trust
      invariant found ==> BestAmong(trust, seen, bestSid) && bestRank == LastIndex(trust, bestSid)
      invariant found ==> cluster == groups[values[bestSid].raw]
      decreases |todo|
    {
      var k :| k in todo;
      var g := groups[k];
      ghost var seen0 := seen;
      for j := 0 to |g|
        invariant seen == seen0 + Elements(g[..j])
        invariant found <==> exists sid :: sid in seen && sid in trust
        invariant found ==> BestAmong(trust, seen, bestSid) && bestRank == LastIndex(trust, bestSid)
        invariant found ==> bestSid in values && cluster == groups[values[bestSid].raw]
      {
        var sid := g[j];
        assert sid in Elements(g) && sid in Holders(values, k);
        assert g[..j + 1] == g[..j] + [sid];
        seen := seen + {sid};
        assert sid in rank <==> sid in trust;
        if sid in rank && (!found || rank[sid] < bestRank) {
          bestRank := rank[sid];
          cluster := g;
          found := true;
          bestSid := sid;
        }
      }
      assert g[..|g|] == g;
      todo := todo - {k};
      assert seen == set sid | sid in values && values[sid].raw !in todo by {
        assert Elements(g) == Holders(values, k);
      }
    }
    assert seen == values.Keys;
    if found {
      assert BestRanked(trust, values, bestSid);
      assert values[bestSid].raw in Raws(values);
    }
  }

  ghost predicate BestAmong(trust: seq<string>, seen: set<string>, sid: string) {
    sid in seen && sid in trust
    && forall other :: other in seen && other in trust ==> LastIndex(trust, sid) <= LastIndex(trust, other)
  }

  datatype Cluster = Cluster(key: string, ids: seq<string>)

  /** Sort key of the fallback: larger clusters first, then the raw text. */
  function ClusterKey(c: Cluster): seq<int> { [-|c.ids|] + Codes(c.key) }

  method LargestFirst(groups: Groups, ghost values: Snapshots) returns (cluster: seq<string>)
    requires Grouped(values, groups) && groups != map[]
    ensures exists raw :: LargestCluster(values, raw) && raw in groups && cluster == groups[raw]
  {
    var entries: seq<Cluster> := [];
    var todo := groups.Keys;
    while todo != {}
      invariant todo <= groups.Keys
      invariant forall c :: c in entries <==> c.key in groups.Keys - todo && c.ids == groups[c.key]
      decreases |todo|
    {
      var k :| k in todo;
      entries := entries + [Cluster(k, groups[k])];
      todo := todo - {k};
    }
    ghost var some :| some in groups;
    SortHead(ClusterKey, entries, Cluster(some, groups[some]));
    var sorted := SortBy(ClusterKey, entries);
    cluster := sorted[0].ids;
    ghost var raw := sorted[0].key;
    forall r | r in Raws(values)
      ensures |Holders(values, r)| < |Holders(values, raw)|
        || (|Holders(values, r)| == |Holders(values, raw)| && LexAtMost(Codes(raw), Codes(r)))
    {
      var c := Cluster(r, groups[r]);
      SortHead(ClusterKey, entries, c);
      ListingLength(groups[r], Holders(values, r));
      ListingLength(groups[raw], Holders(values, raw));
      ClusterOrder(c, sorted[0]);
    }
    assert LargestCluster(values, raw);
  }

  lemma ClusterOrder(c: Cluster, d: Cluster)
    requires LexAtMost(ClusterKey(d), ClusterKey(c))
    ensures |c.ids| < |d.ids| || (|c.ids| == |d.ids| && LexAtMost(Codes(d.key), Codes(c.key)))
  {
    assert ClusterKey(c)[1..] == Codes(c.key) && ClusterKey(d)[1..] == Codes(d.key);
  }

  // ---- Judge --------------------------------------------------------------

  /** The judgement of a discrepancy, said without any loop or order. */
  ghost predicate JudgedAs(trust: seq<string>, d: Discrepancy, j: Judgement) {
    if |Raws(d.values)| <= 1 then
      j.severity == SevInfo && Listing(j.trusted, d.values.Keys)
    else
      && j.severity == SeverityFor(d.metric.category)
      && exists raw :: TrustedRaw(trust, d.values, raw) && Listing(j.trusted, Holders(d.values, raw))
  }

  /** There is one judgement: re-runs, and every map iteration order, give the same. */
  lemma JudgementUnique(trust: seq<string>, d: Discrepancy, j1: Judgement, j2: Judgement)
    requires JudgedAs(trust, d, j1) && JudgedAs(trust, d, j2)
    ensures j1 == j2
  {
    if |Raws(d.values)| <= 1 {
      ListingUnique(j1.trusted, j2.trusted, d.values.Keys);
    } else {
      var r1 :| TrustedRaw(trust, d.values, r1) && Listing(j1.trusted, Holders(d.values, r1));
      var r2 :| TrustedRaw(trust, d.values, r2) && Listing(j2.trusted, Holders(d.values, r2));
      TrustedRawUnique(trust, d.values, r1, r2);
      ListingUnique(j1.trusted, j2.trusted, Holders(d.values, r1));
    }
  }

  /** Wherever the list is cut, if best still comes after the cut so do all listed participants:
      its last place is the first of their last places. */
  ghost predicate RanksFirst(trust: seq<string>, values: Snapshots, best: string) {
    && best in trust
    && forall i, sid :: 0 <= i <= |trust| && sid in values && sid in trust && best in trust[i..] ==> sid in trust[i..]
  }

  /** The trusted sources are those of this raw, in id order: the raw of the participant whose
      last place in the trust list comes first, or without one there the raw that most
      participants share, the least of them on a tie. */
  ghost predicate TrustsRaw(trust: seq<string>, values: Snapshots, ids: seq<string>, raw: string) {
    && (forall i, j :: 0 <= i < j < |ids| ==> LexLess(Codes(ids[i]), Codes(ids[j])))
    && (forall sid :: sid in ids <==> sid in values && values[sid].raw == raw)
    && (if exists sid :: sid in values && sid in trust then
          exists best :: best in values && values[best].raw == raw && RanksFirst(trust, values, best)
        else
          forall sid :: sid in values && values[sid].raw != raw ==> Beats(values, |ids|, raw, values[sid].raw))
  }

  /** A raw that size participants share is chosen before another: it has more of them, or as
      many and the lesser text. */
  ghost predicate Beats(values: Snapshots, size: nat, raw: string, other: string) {
    var others := set s | s in values && values[s].raw == other;
    |others| < size || (|others| == size && LexLess(Codes(raw), Codes(other)))
  }

  /** With two distinct raws a judgement trusts exactly so. */
  lemma TrustedExactly(trust: seq<string>, d: Discrepancy, j: Judgement)
    requires JudgedAs(trust, d, j) && |Raws(d.values)| > 1
    ensures exists raw :: TrustsRaw(trust, d.values, j.trusted, raw)
  {
    hide LexLess, LastIndex;
    var raw :| TrustedRaw(trust, d.values, raw) && Listing(j.trusted, Holders(d.values, raw));
    ListingLength(j.trusted, Holders(d.values, raw));
    forall sid ensures sid in j.trusted <==> sid in d.values && d.values[sid].raw == raw {
      assert sid in j.trusted <==> sid in Elements(j.trusted);
    }
    if AnyRanked(trust, d.values) {
      var best :| BestRanked(trust, d.values, best) && raw == d.values[best].raw;
      BestComesFirst(trust, d.values, best);
    } else {
      LargestWins(d.values, raw);
    }
    assert TrustsRaw(trust, d.values, j.trusted, raw);
  }

  lemma AfterCut(trust: seq<string>, sid: string, i: nat)
    requires i <= |trust|
    ensures sid in trust[i..] <==> LastIndex(trust, sid) >= i
  {
    LastIndexMeaning(trust, sid);
    var k := LastIndex(trust, sid);
    if k >= i { assert trust[i..][k - i] == sid; }
    if k < i { assert trust[i..] == trust[k + 1..][i - k - 1..]; }
  }

  lemma BestComesFirst(trust: seq<string>, values: Snapshots, best: string)
    requires BestRanked(trust, values, best)
    ensures best in values && RanksFirst(trust, values, best)
  {
    hide LastIndex;
    forall i, sid | 0 <= i <= |trust| && sid in values && sid in trust && best in trust[i..] ensures sid in trust[i..] {
      AfterCut(trust, best, i);
      AfterCut(trust, sid, i);
    }
  }

  lemma LargestWins(values: Snapshots, raw: string)
    requires LargestCluster(values, raw)
    ensures forall sid :: sid in values && values[sid].raw != raw ==> Beats(values, |Holders(values, raw)|, raw, values[sid].raw)
  {
    forall sid | sid in values && values[sid].raw != raw ensures Beats(values, |Holders(values, raw)|, raw, values[sid].raw) {
      var r := values[sid].raw;
      assert r in Raws(values) && Holders(values, r) == set s | s in values && values[s].raw == r;
      LexTotal(Codes(raw), Codes(r));
      if Codes(raw) == Codes(r) { CodesInjective(raw, r); }
    }
  }

  /** DefaultPolicy.Judge. */
  method Judge(trust: seq<string>, d: Discrepancy) returns (j: Judgement)
    ensures JudgedAs(trust, d, j)
    ensures !AllRawsEqual(d.values) ==> exists raw :: TrustsRaw(trust, d.values, j.trusted, raw)
  {
    hide TrustsRaw;
    if !AllRawsEqual(d.values) { TwoRaws(d.values); }
    var groups := GroupByRaw(d.values);
    if |groups| <= 1 {
      var ids := SortedIds(d.values);
      assert |groups.Keys| == |groups|;
      return Judgement(SevInfo, ids);
    }
    assert |groups.Keys| == |groups|;
    ghost var someRaw :| someRaw in groups.Keys;
    assert someRaw in Raws(d.values);
    var trusted := PickTrustedCluster(trust, groups, d.values);
    ghost var raw :| TrustedRaw(trust, d.values, raw) && raw in groups && trusted == groups[raw];
    StrictIsAscending(IdKey, trusted);
    SortListing(trusted);
    j := Judgement(SeverityFor(d.metric.category), SortBy(IdKey, trusted));
    assert Listing(j.trusted, Holders(d.values, raw));
    TrustedExactly(trust, d, j);
  }

  lemma TwoRaws(values: Snapshots)
    requires !AllRawsEqual(values)
    ensures |Raws(values)| > 1
  {
    var a, b :| a in values && b in values && values[a].raw != values[b].raw;
    var pair := {values[a].raw, values[b].raw};
    SubsetSize(pair, Raws(values));
  }

  method SortedIds(values: Snapshots) returns (ids: seq<string>)
    ensures Listing(ids, values.Keys)
  {
    ids := [];
    var todo := values.Keys;
    while todo != {}
      invariant todo <= values.Keys
      invariant Distinct(ids) && Elements(ids) == values.Keys - todo
      decreases |todo|
    {
      var sid :| sid in todo;
      assert sid in ids <==> sid in Elements(ids);
      ElementsSnoc(ids, sid);
      ids := ids + [sid];
      todo := todo - {sid};
    }
    SortListing(ids);
    ids := SortBy(IdKey, ids);
  }

  lemma {:induction false} SomeBest(trust: seq<string>, seen: set<string>) returns (sid: string)
    requires exists s :: s in seen && s in trust
    ensures BestAmong(trust, seen, sid)
  {
    sid :| sid in seen && sid in trust;
    var rest := seen - {sid};
    if exists s :: s in rest && s in trust {
      var other := SomeBest(trust, rest);
      if LastIndex(trust, other) < LastIndex(trust, sid) { sid := other; }
    }
  }

  ghost predicate LargestAmong(values: Snapshots, raws: set<string>, raw: string) {
    raw in raws && forall r :: r in raws ==>
      || |Holders(values, r)| < |Holders(values, raw)|
      || (|Holders(values, r)| == |Holders(values, raw)| && LexAtMost(Codes(raw), Codes(r)))
  }

  lemma {:induction false} SomeLargest(values: Snapshots, raws: set<string>) returns (raw: string)
    requires raws != {}
    ensures LargestAmong(values, raws, raw)
  {
    var first :| first in raws;
    raw := first;
    LexIrreflexive(Codes(first));
    if raws != {first} {
      var rest := raws - {first};
      assert rest != {};
      var other := SomeLargest(values, rest);
      var n, k := |Holders(values, first)|, |Holders(values, other)|;
      LexTotal(Codes(first), Codes(other));
      if k > n || (k == n && LexAtMost(Codes(other), Codes(first))) {
        raw := other;
      } else {
        if k == n { LexAsymmetric(Codes(first), Codes(other)); }
        forall r | r in rest && |Holders(values, r)| == n && k == n ensures LexAtMost(Codes(first), Codes(r)) {
          LexAtMostTransitive(Codes(first), Codes(other), Codes(r));
        }
      }
      assert raws == rest + {first};
    }
  }

  lemma {:induction false} SomeListing(members: set<string>) returns (ids: seq<string>)
    ensures Listing(ids, members)
  {
    ids := [];
    if members != {} {
      var x :| x in members;
      var rest := SomeListing(members - {x});
      StrictIsAscending(IdKey, rest);
      assert x in rest <==> x in Elements(rest);
      ElementsSnoc(rest, x);
      SortListing(rest + [x]);
      ids := SortBy(IdKey, rest + [x]);
    }
  }

  /** Every discrepancy has a judgement. */
  lemma JudgementExists(trust: seq<string>, d: Discrepancy) returns (j: Judgement)
    ensures JudgedAs(trust, d, j)
  {
    if |Raws(d.values)| <= 1 {
      var ids := SomeListing(d.values.Keys);
      j := Judgement(SevInfo, ids);
    } else {
      var raw: string;
      if AnyRanked(trust, d.values) {
        var sid := SomeBest(trust, d.values.Keys);
        raw := d.values[sid].raw;
        assert BestRanked(trust, d.values, sid);
      } else {
        raw := SomeLargest(d.values, Raws(d.values));
        assert LargestCluster(d.values, raw);
      }
      assert TrustedRaw(trust, d.values, raw);
      var ids := SomeListing(Holders(d.values, raw));
      j := Judgement(SeverityFor(d.metric.category), ids);
    }
  }

  /** The judgement of a discrepancy, as a function. */
  ghost function JudgementOf(trust: seq<string>, d: Discrepancy): (j: Judgement)
    ensures JudgedAs(trust, d, j)
  {
    assert exists j :: JudgedAs(trust, d, j) by { var j := JudgementExists(trust, d); }
    var j :| JudgedAs(trust, d, j);
    j
  }

  /** The severity: critical for block-immutable and at-block metrics, a warning for the others
      and informational for snapshots, or when all raws are equal. */
  lemma SeverityExactly(trust: seq<string>, d: Discrepancy, j: Judgement)
    requires JudgedAs(trust, d, j)
    ensures j.severity == SevCritical <==>
      !AllRawsEqual(d.values) && (d.metric.category == CatBlockImmutable || d.metric.category == CatAddressAtBlock)
    ensures j.severity == SevWarning <==>
      !AllRawsEqual(d.values) && (d.metric.category == CatAddressLatest || d.metric.category.OtherCategory?)
    ensures j.severity == SevInfo <==> AllRawsEqual(d.values) || d.metric.category == CatSnapshot
  {
    if !AllRawsEqual(d.values) {
      TrustedProper(trust, d, j);
    } else {
      OneRaw(d.values);
    }
  }

  lemma OneRaw(values: Snapshots)
    requires AllRawsEqual(values)
    ensures |Raws(values)| <= 1
  {
    var raws := Raws(values);
    if raws != {} {
      var x :| x in raws;
      assert raws == {x};
    }
  }

  /** With two or more raw values, the trusted sources are some but not all of the participants. */
  lemma TrustedProper(trust: seq<string>, d: Discrepancy, j: Judgement)
    requires JudgedAs(trust, d, j) && !AllRawsEqual(d.values)
    ensures |Raws(d.values)| >= 2 && j.severity == SeverityFor(d.metric.category)
    ensures {} < Elements(j.trusted) < d.values.Keys
  {
    var a, b :| a in d.values && b in d.values && d.values[a].raw != d.values[b].raw;
    var ra, rb := d.values[a].raw, d.values[b].raw;
    assert {ra, rb} <= Raws(d.values);
    SubsetSize({ra, rb}, Raws(d.values));
    var raw :| TrustedRaw(trust, d.values, raw) && Listing(j.trusted, Holders(d.values, raw));
    assert raw in Raws(d.values);
    var holder :| holder in d.values && d.values[holder].raw == raw;
    assert holder in Holders(d.values, raw);
    var outsider := if ra == raw then b else a;
    assert outsider in d.values.Keys && outsider !in Elements(j.trusted);
  }

  lemma SubsetSize(a: set<string>, b: set<string>)
    requires a <= b
    ensures |a| <= |b|
  {
    assert |b| == |a| + |b - a| by { assert b == a + (b - a); }
  }

  // ---- what SourceTrust means when an id is repeated ----------------------

  function FirstIndex(trust: seq<string>, sid: string): int {
    if trust == [] then 0
    else if trust[0] == sid then 0
    else 1 + FirstIndex(trust[1..], sid)
  }

  lemma {:induction false} FirstIndexMeaning(trust: seq<string>, sid: string)
    requires sid in trust
    ensures 0 <= FirstIndex(trust, sid) < |trust| && trust[FirstIndex(trust, sid)] == sid
  {
    if trust[0] != sid { FirstIndexMeaning(trust[1..], sid); }
  }

  /** The documented choice: the source listed earliest. */
  ghost predicate ListedEarliest(trust: seq<string>, values: Snapshots, sid: string) {
    && sid in values && sid in trust
    && forall other :: other in values && other in trust ==> FirstIndex(trust, sid) <= FirstIndex(trust, other)
  }

  /** First and last positions rank the ids alike. */
  ghost predicate RanksAlike(trust: seq<string>) {
    forall x, y :: x in trust && y in trust && LastIndex(trust, x) <= LastIndex(trust, y) ==>
      FirstIndex(trust, x) <= FirstIndex(trust, y)
  }

  /** The engine trusts the cluster of the earliest-listed source, whatever was reported. */
  ghost predicate TrustsEarliest(trust: seq<string>) {
    forall values: Snapshots, s, e :: BestRanked(trust, values, s) && ListedEarliest(trust, values, e) ==>
      values[s].raw == values[e].raw
  }

  /** "Descending priority" holds of SourceTrust exactly when its repeats keep the ranking. */
  lemma TrustOrderExactly(trust: seq<string>)
    ensures TrustsEarliest(trust) <==> RanksAlike(trust)
  {
    if RanksAlike(trust) {
      forall values: Snapshots, s, e | BestRanked(trust, values, s) && ListedEarliest(trust, values, e)
        ensures values[s].raw == values[e].raw
      {
        FirstIndexMeaning(trust, s);
        FirstIndexMeaning(trust, e);
      }
    }
    if TrustsEarliest(trust) {
      forall x, y | x in trust && y in trust && LastIndex(trust, x) <= LastIndex(trust, y)
        ensures FirstIndex(trust, x) <= FirstIndex(trust, y)
      {
        var values: Snapshots := map[x := ValueSnapshot("x", None), y := ValueSnapshot("y", None)];
        assert "x"[0] != "y"[0];
        if FirstIndex(trust, y) < FirstIndex(trust, x) {
          assert BestRanked(trust, values, x) && ListedEarliest(trust, values, y);
        }
      }
    }
  }

  /** A repeat that does not: the last position of "a" puts it behind "b". */
  lemma RepeatedTrustReorders()
    ensures var trust := ["a", "b", "a"];
      BestRanked(trust, map["a" := ValueSnapshot("1", None), "b" := ValueSnapshot("2", None)], "b")
      && ListedEarliest(trust, map["a" := ValueSnapshot("1", None), "b" := ValueSnapshot("2", None)], "a")
  {
    var trust := ["a", "b", "a"];
    assert trust[..2] == ["a", "b"];
    assert LastIndex(trust, "a") == 2 && LastIndex(trust, "b") == 1;
    assert trust[1..] == ["b", "a"];
    assert FirstIndex(trust, "a") == 0 && FirstIndex(trust, "b") == 1;
    assert trust[0] == "a" && trust[1] == "b";
  }
}
