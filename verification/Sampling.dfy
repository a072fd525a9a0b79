/** Block sampling strategies (internal/verification/sampling.go, internal/chain/range.go). */
module Sampling {
  import opened Prelude
  import opened Sorting

  datatype BlockRange = BlockRange(start: Uint64, end: Uint64)
  {
    /** NewBlockRange rejects inverted bounds. */
    predicate WellFormed() { start <= end }

    /** Len: End - Start + 1 in uint64. */
    function Len(): Uint64 { Add64(Sub64(end, start), 1) }

    predicate Contains(b: int) { start <= b <= end }
  }

  datatype Strategy =
    | FixedList(numbers: seq<Uint64>)
    | LatestN(n: Uint64)
    | Random(range: BlockRange, count: Uint64, seed: Int64)
    | SparseSteps(range: BlockRange, step: Uint64)

  ghost predicate Increasing(s: seq<int>) { forall i, j :: 0 <= i < j < |s| ==> s[i] < s[j] }

  /** The blocks lo, lo + 1, ..., hi - 1. */
  function Interval(lo: int, hi: int): (s: seq<int>)
    ensures |s| == if lo <= hi then hi - lo else 0
    ensures forall i :: 0 <= i < |s| ==> s[i] == lo + i
  {
    if lo <= hi then seq(hi - lo, i requires 0 <= i < hi - lo => lo + i) else []
  }

  lemma LatestStart(count: Uint64, tip: Uint64)
    requires tip < TWO_64 - 1 && 1 <= count <= tip + 1
    ensures Add64(Sub64(tip, count), 1) == tip + 1 - count
  {
    if count == tip + 1 {
      assert (tip - count) % TWO_64 == TWO_64 - 1;
    }
  }

  /** LatestN.Blocks: the last n blocks up to the tip, clamped at block 0. */
  method LatestNBlocks(n: Uint64, tip: Uint64) returns (out: seq<Uint64>)
    requires tip < TWO_64 - 1
    ensures out == Interval(if n <= tip then tip + 1 - n else 0, tip + 1)
  {
    if n == 0 { return []; }
    var count := n;
    if count > Add64(tip, 1) { count := Add64(tip, 1); }
    LatestStart(count, tip);
    var start := Add64(Sub64(tip, count), 1);
    out := FromTo(start, tip);
  }

  /** for b := start; b <= end; b++ { out = append(out, b) }. */
  method FromTo(start: Uint64, end: Uint64) returns (out: seq<Uint64>)
    requires end < TWO_64 - 1
    ensures out == Interval(start, end + 1)
  {
    out := [];
    var b := start;
    while b <= end
      invariant start <= b && (b <= end + 1 || b == start)
      invariant out == Interval(start, b)
      decreases TWO_64 - b
    {
      out := out + [b];
      b := Add64(b, 1);
    }
  }

  // ---- SparseSteps --------------------------------------------------------

  /** b is one of start, start + step, start + 2 step, ... within the range. */
  predicate OnGrid(range: BlockRange, step: Uint64, b: int)
    requires step > 0
  {
    range.Contains(b) && (b - range.start) % step == 0
  }

  /** No member of the grid lies strictly between two neighbours. */
  lemma GridGap(start: int, step: int, n: int, b: int)
    requires step > 0 && (n - start) % step == 0 && n < b < n + step
    ensures (b - start) % step != 0
  {
    DivModUnique(b - start, step, (n - start) / step, b - n);
  }

  /** SparseSteps.Blocks: the members of the grid, on the full uint64 range. */
  method SparseStepsBlocks(range: BlockRange, step: Uint64) returns (out: seq<Uint64>)
    ensures step == 0 ==> out == []
    ensures Increasing(out)
    ensures step > 0 ==> forall b: int :: b in out <==> OnGrid(range, step, b)
  {
    if step == 0 { return []; }
    out := [];
    if range.start > range.end { return; }
    var n := range.start;
    while true
      invariant range.start <= n <= range.end && (n - range.start) % step == 0
      invariant Increasing(out)
      invariant forall b: int :: b in out <==> OnGrid(range, step, b) && b < n
      invariant forall i :: 0 <= i < |out| ==> out[i] < n
      decreases range.end - n
    {
      out := out + [n];
      forall b: int | n < b < n + step ensures !OnGrid(range, step, b) {
        GridGap(range.start, step, n, b);
      }
      ModPlus(n - range.start, step);
      assert n + step - range.start == n - range.start + step;
      var next := Add64(n, step);
      if next < n || next > range.end { break; }
      n := next;
    }
  }

  // ---- Random -------------------------------------------------------------

  /** The distinct values among the first n draws, in the order they first appear. */
  function Picks(draws: nat -> Uint64, n: nat): seq<Uint64> {
    if n == 0 then []
    else
      var p := Picks(draws, n - 1);
      if draws(n - 1) in p then p else p + [draws(n - 1)]
  }

  /** The stream never dries up before count values are picked. */
  ghost predicate FreshEventually(draws: nat -> Uint64, count: nat) {
    forall i: nat :: |Picks(draws, i)| < count ==> exists j: nat :: j >= i && draws(j) !in Picks(draws, i)
  }

  ghost predicate Yields(draws: nat -> Uint64, count: nat, n: nat) { |Picks(draws, n)| >= count }

  lemma {:induction false} PicksGrow(draws: nat -> Uint64, i: nat, j: nat)
    requires i <= j
    ensures |Picks(draws, i)| <= |Picks(draws, j)|
    ensures Picks(draws, j)[..|Picks(draws, i)|] == Picks(draws, i)
  {
    if i < j { PicksGrow(draws, i, j - 1); }
  }

  /** Some draw in between was fresh when the number of picks has grown. */
  lemma {:induction false} PicksStall(draws: nat -> Uint64, i: nat, j: nat)
    requires i <= j && Picks(draws, j) == Picks(draws, i)
    ensures forall k :: i <= k < j ==> draws(k) in Picks(draws, i)
  {
    if i < j {
      PicksGrow(draws, i, j - 1);
      PicksGrow(draws, j - 1, j);
      assert |Picks(draws, j - 1)| == |Picks(draws, i)|;
      assert Picks(draws, j - 1) == Picks(draws, i);
      PicksStall(draws, i, j - 1);
    }
  }

  lemma {:induction false} PicksDistinct(draws: nat -> Uint64, n: nat)
    ensures Distinct(Picks(draws, n))
  {
    if n > 0 { PicksDistinct(draws, n - 1); }
  }

  lemma {:induction false} PicksBounded(draws: nat -> Uint64, total: nat, n: nat)
    requires forall k: nat :: draws(k) < total
    ensures forall x :: x in Picks(draws, n) ==> x < total
  {
    if n > 0 { PicksBounded(draws, total, n - 1); }
  }

  /** A stream that always offers a fresh value reaches every count. */
  lemma {:induction false} FreshReaches(draws: nat -> Uint64, count: nat, target: nat) returns (n: nat)
    requires FreshEventually(draws, count) && target <= count
    ensures Yields(draws, target, n)
  {
    if target == 0 {
      n := 0;
    } else {
      var m := FreshReaches(draws, count, target - 1);
      if Yields(draws, target, m) {
        n := m;
      } else {
        var j: nat :| j >= m && draws(j) !in Picks(draws, m);
        n := j + 1;
        PicksGrow(draws, m, n);
        if |Picks(draws, n)| == |Picks(draws, m)| {
          assert Picks(draws, n) == Picks(draws, m);
          PicksStall(draws, m, n);
        }
      }
    }
  }

  /** The termination condition, both ways: a fresh value always turns up before
      count picks exactly when some finite prefix holds count distinct values. */
  lemma FreshIffEnough(draws: nat -> Uint64, count: nat)
    ensures FreshEventually(draws, count) <==> exists n: nat :: Yields(draws, count, n)
  {
    if FreshEventually(draws, count) {
      var n := FreshReaches(draws, count, count);
    }
    if exists n: nat :: Yields(draws, count, n) {
      var n: nat :| Yields(draws, count, n);
      forall i: nat | |Picks(draws, i)| < count
        ensures exists j: nat :: j >= i && draws(j) !in Picks(draws, i)
      {
        if n <= i { PicksGrow(draws, n, i); }
        NextFresh(draws, i, n);
      }
    }
  }

  lemma {:induction false} NextFresh(draws: nat -> Uint64, i: nat, n: nat)
    requires i <= n && |Picks(draws, i)| < |Picks(draws, n)|
    ensures exists j: nat :: j >= i && draws(j) !in Picks(draws, i)
    decreases n - i
  {
    if draws(i) in Picks(draws, i) {
      assert Picks(draws, i + 1) == Picks(draws, i);
      NextFresh(draws, i + 1, n);
    }
  }

  /** The selection of Random.Blocks: the first count distinct draws, shifted into the range. */
  ghost function Selected(draws: nat -> Uint64, count: nat, start: Uint64): (s: seq<int>)
    requires FreshEventually(draws, count)
  {
    FreshIffEnough(draws, count);
    var n: nat :| Yields(draws, count, n);
    SortBy(IntKey, Shifted(Picks(draws, n)[..count], start))
  }

  function Shifted(s: seq<Uint64>, start: int): (t: seq<int>)
    ensures |t| == |s|
  {
    seq(|s|, i requires 0 <= i < |s| => start + s[i])
  }

  /** The choice of prefix in Selected does not matter. */
  lemma SelectedAt(draws: nat -> Uint64, count: nat, start: Uint64, n: nat)
    requires FreshEventually(draws, count) && |Picks(draws, n)| == count
    ensures Selected(draws, count, start) == SortBy(IntKey, Shifted(Picks(draws, n), start))
  {
    FreshIffEnough(draws, count);
    var m: nat :| Yields(draws, count, m) && Selected(draws, count, start) == SortBy(IntKey, Shifted(Picks(draws, m)[..count], start));
    if n <= m { PicksGrow(draws, n, m); } else { PicksGrow(draws, m, n); }
    assert Picks(draws, m)[..count] == Picks(draws, n);
  }

  /** The values among the first i draws. */
  ghost function DrawnBefore(draws: nat -> Uint64, i: nat): set<Uint64> { set k: nat | k < i :: draws(k) }

  lemma DrawnNext(draws: nat -> Uint64, n: nat)
    ensures DrawnBefore(draws, n + 1) == DrawnBefore(draws, n) + {draws(n)}
    ensures DrawnBefore(draws, 0) == {}
  {
  }

  lemma {:induction false} PicksAreDrawn(draws: nat -> Uint64, n: nat)
    ensures Elements(Picks(draws, n)) == DrawnBefore(draws, n)
    ensures |Picks(draws, n)| == |DrawnBefore(draws, n)|
  {
    hide DrawnBefore, Elements, Distinct;
    PicksDistinct(draws, n);
    DistinctCardinality(Picks(draws, n));
    if n == 0 {
      DrawnNext(draws, 0);
      NoElements<Uint64>();
    } else {
      var before, x := Picks(draws, n - 1), draws(n - 1);
      PicksAreDrawn(draws, n - 1);
      DrawnNext(draws, n - 1);
      ElementsSnoc(before, x);
      InElements(before, x);
    }
  }

  lemma NoElements<T>()
    ensures Elements<T>([]) == {}
  {
  }

  lemma InElements<T>(s: seq<T>, x: T)
    ensures x in s ==> Elements(s) + {x} == Elements(s)
  {
  }

  /** Pick number j was drawn when there were j picks. */
  lemma {:induction false} PickOrigin(draws: nat -> Uint64, n: nat, j: nat) returns (i: nat)
    requires j < |Picks(draws, n)|
    ensures Picks(draws, n)[j] == draws(i) && |Picks(draws, i)| == j
  {
    if j < |Picks(draws, n - 1)| { i := PickOrigin(draws, n - 1, j); } else { i := n - 1; }
  }

  lemma PickNext(draws: nat -> Uint64, i: nat)
    ensures draws(i) in Picks(draws, i + 1) && |Picks(draws, i + 1)| <= |Picks(draws, i)| + 1
  {
  }

  lemma PickedEarly(draws: nat -> Uint64, count: nat, m: nat, i: nat)
    requires |Picks(draws, m)| >= count && |Picks(draws, i)| < count
    ensures draws(i) in Picks(draws, m)[..count]
  {
    hide Picks;
    PickNext(draws, i);
    var next, all := Picks(draws, i + 1), Picks(draws, m);
    var j :| 0 <= j < |next| && next[j] == draws(i);
    if i + 1 <= m {
      PicksGrow(draws, i + 1, m);
      assert all[j] == all[..|next|][j];
    } else {
      PicksGrow(draws, m, i + 1);
      assert all[j] == next[..|all|][j];
    }
    assert all[..count][j] == draws(i);
  }

  /** A block is selected exactly when it is drawn before count different values were. */
  lemma SelectedExactly(draws: nat -> Uint64, count: nat, start: Uint64, b: int)
    requires FreshEventually(draws, count)
    ensures b in Selected(draws, count, start) <==> exists i: nat :: b == start + draws(i) && |DrawnBefore(draws, i)| < count
  {
    hide Picks, DrawnBefore;
    FreshIffEnough(draws, count);
    var m: nat :| Yields(draws, count, m) && Selected(draws, count, start) == SortBy(IntKey, Shifted(Picks(draws, m)[..count], start));
    var picked := Picks(draws, m)[..count];
    SortMember(IntKey, Shifted(picked, start), b);
    if b in Shifted(picked, start) {
      var j :| 0 <= j < count && Shifted(picked, start)[j] == b;
      var i := PickOrigin(draws, m, j);
      PicksAreDrawn(draws, i);
    }
    if i: nat :| b == start + draws(i) && |DrawnBefore(draws, i)| < count {
      PicksAreDrawn(draws, i);
      PickedEarly(draws, count, m, i);
      ShiftedMember(picked, start, draws(i));
    }
  }

  /** Sorting distinct integers puts them in increasing order. */
  lemma SortIncreasing(s: seq<int>)
    requires Distinct(s)
    ensures Increasing(SortBy(IntKey, s))
  {
    assert InjectiveOn(IntKey, s) by {
      forall x, y | x in s && y in s && IntKey(x) == IntKey(y) ensures x == y { assert IntKey(x)[0] == IntKey(y)[0]; }
    }
    SortStrict(IntKey, s);
    var r := SortBy(IntKey, s);
    forall i, j | 0 <= i < j < |r| ensures r[i] < r[j] {
      assert LexLess([r[i]], [r[j]]);
    }
  }

  lemma ShiftedMember(s: seq<Uint64>, start: int, x: Uint64)
    ensures start + x in Shifted(s, start) <==> x in s
  {
    if x in s {
      var i :| 0 <= i < |s| && s[i] == x;
      assert Shifted(s, start)[i] == start + x;
    }
    if start + x in Shifted(s, start) {
      var i :| 0 <= i < |s| && Shifted(s, start)[i] == start + x;
      assert s[i] == x;
    }
  }

  /** One round of the rejection loop: a duplicate is skipped, a fresh block is kept. */
  lemma PickStep(draws: nat -> Uint64, start: int, i: nat)
    ensures var out := Shifted(Picks(draws, i), start);
      var n := start + draws(i);
      Shifted(Picks(draws, i + 1), start) == if n in out then out else out + [n]
  {
    ShiftedMember(Picks(draws, i), start, draws(i));
  }

  lemma ShiftedDistinct(s: seq<Uint64>, start: int)
    requires Distinct(s)
    ensures Distinct(Shifted(s, start))
  {
  }

  /** What a finished selection looks like once sorted. */
  lemma SelectionShape(draws: nat -> Uint64, range: BlockRange, n: nat)
    requires range.WellFormed()
    requires forall k: nat :: draws(k) < range.Len()
    ensures var out := SortBy(IntKey, Shifted(Picks(draws, n), range.start));
      Increasing(out) && |out| == |Picks(draws, n)| && forall b :: b in out ==> range.Contains(b)
  {
    hide Picks, SortBy;
    var s := Shifted(Picks(draws, n), range.start);
    PicksDistinct(draws, n);
    ShiftedDistinct(Picks(draws, n), range.start);
    SortIncreasing(s);
    SortContents(IntKey, s);
    PicksBounded(draws, range.Len(), n);
    forall b | b in SortBy(IntKey, s) ensures range.Contains(b) {
      SortMember(IntKey, s, b);
      var i :| 0 <= i < |s| && s[i] == b;
      assert Picks(draws, n)[i] in Picks(draws, n);
    }
  }

  /** The length of a range is right for every range but the one of all 2^64 blocks, whose
      length is 0: sampling that range at random yields nothing. */
  lemma RangeLengthExactly(range: BlockRange)
    requires range.WellFormed()
    ensures range.Len() == range.end - range.start + 1 <==> !(range.start == 0 && range.end == TWO_64 - 1)
    ensures range.Len() == 0 <==> range.start == 0 && range.end == TWO_64 - 1
  {
  }

  /** Random.Blocks. `draws(i)` is the i-th value of rng.Uint64N(total). */
  method RandomBlocks(range: BlockRange, count: Uint64, draws: nat -> Uint64) returns (out: seq<int>)
    requires range.WellFormed() && (count >= range.Len() > 0 ==> range.end < TWO_64 - 1)
    requires range.Len() > 0 ==> forall k: nat :: draws(k) < range.Len()
    requires count < range.Len() ==> FreshEventually(draws, count)
    ensures Increasing(out)
    ensures |out| == if count < range.Len() then count else range.Len()
    ensures forall b :: b in out ==> range.Contains(b)
    ensures count < range.Len() ==> out == Selected(draws, count, range.start)
    ensures count < range.Len() ==>
      forall b :: b in out <==> exists i: nat :: b == range.start + draws(i) && |DrawnBefore(draws, i)| < count
  {
    if count < range.Len() {
      forall b
        ensures b in Selected(draws, count, range.start) <==> exists i: nat :: b == range.start + draws(i) && |DrawnBefore(draws, i)| < count
      {
        SelectedExactly(draws, count, range.start, b);
      }
    }
    if count == 0 || range.Len() == 0 {
      SelectedAt(draws, 0, range.start, 0);
      return [];
    }
    var total := range.Len();
    if count >= total {
      out := FromTo(range.start, range.end);
      return;
    }
    out := RejectionLoop(range, count, draws);
    SortedSelection(range, count, draws, out);
    out := SortBy(IntKey, out);
  }

  ghost predicate PickedAll(draws: nat -> Uint64, count: nat, start: int, out: seq<int>) {
    exists n: nat :: |Picks(draws, n)| == count && out == Shifted(Picks(draws, n), start)
  }

  lemma SortedSelection(range: BlockRange, count: Uint64, draws: nat -> Uint64, out: seq<int>)
    requires range.WellFormed()
    requires forall k: nat :: draws(k) < range.Len()
    requires FreshEventually(draws, count) && PickedAll(draws, count, range.start, out)
    ensures var s := SortBy(IntKey, out);
      && Increasing(s) && |s| == count && (forall b :: b in s ==> range.Contains(b))
      && s == Selected(draws, count, range.start)
  {
    var n: nat :| |Picks(draws, n)| == count && out == Shifted(Picks(draws, n), range.start);
    SelectedAt(draws, count, range.start, n);
    SelectionShape(draws, range, n);
  }

  /** A draw stays inside the range, so adding it to the start does not wrap. */
  lemma NoWrap(range: BlockRange, d: Uint64)
    requires range.WellFormed() && d < range.Len()
    ensures Add64(range.start, d) == range.start + d
  {
  }

  /** Before count picks the stream has not reached the bound. */
  lemma BoundAhead(draws: nat -> Uint64, count: nat, bound: nat, i: nat)
    requires Yields(draws, count, bound) && |Picks(draws, i)| < count
    ensures i < bound
  {
    if bound <= i { PicksGrow(draws, bound, i); }
  }

  /** The rejection loop: it ends because the stream keeps offering fresh values. */
  method RejectionLoop(range: BlockRange, count: Uint64, draws: nat -> Uint64) returns (out: seq<int>)
    requires range.WellFormed()
    requires forall k: nat :: draws(k) < range.Len()
    requires FreshEventually(draws, count)
    ensures PickedAll(draws, count, range.start, out)
  {
    hide Picks, Shifted, Yields, FreshEventually, Add64, BlockRange.Len;
    ghost var bound := FreshReaches(draws, count, count);
    var picked: set<int> := {};
    out := [];
    var start := range.start;
    var i: nat := 0;
    NothingPicked(draws, start);
    while |out| < count
      invariant out == Shifted(Picks(draws, i), start)
      invariant picked == Elements(out)
      invariant |out| <= count
      decreases bound - i
    {
      BoundAhead(draws, count, bound, i);
      assert draws(i) < range.Len();
      var n: int := Add64(start, draws(i));
      NoWrap(range, draws(i));
      PickStep(draws, start, i);
      i := i + 1;
      if n in picked { continue; }
      picked := picked + {n};
      out := out + [n];
    }
    assert |Picks(draws, i)| == count;
  }

  lemma NothingPicked(draws: nat -> Uint64, start: int)
    ensures Shifted(Picks(draws, 0), start) == []
  {
  }
}
