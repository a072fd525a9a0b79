/** Tolerances and the pairwise comparison of a sample
(internal/diff/tolerance.go, applyTolerance of internal/application/execute_run.go). */
module Tolerance {
  import opened Prelude
  import opened Sorting
  import opened Digits
  import opened Metrics

  datatype ValueSnapshot = ValueSnapshot(raw: string, reflected: Option<Uint64>)

  datatype CompareContext = CompareContext(anchor: Uint64, reflectedA: Option<Uint64>, reflectedB: Option<Uint64>)

  datatype Verdict = Verdict(ok: bool, discard: bool)

  type JudgeFn = (ValueSnapshot, ValueSnapshot, Metric, CompareContext) -> Verdict

  /** The Tolerance port: the four built-in ones, and any other pure implementation. */
  datatype Tolerance =
    | ExactMatch
    | NumericTolerance(absoluteMax: Option<int>, relativePPM: nat)
    | AnchorWindowed(inner: Option<Tolerance>, tolBack: Uint64, tolFwd: Uint64)
    | Observational
    | Custom(judge: JudgeFn)

  // ---- parseBigInt --------------------------------------------------------

  /** unicode.IsSpace. */
  predicate IsSpace(c: char) {
    var n := c as int;
    || c == ' ' || '\t' <= c <= '\r' || n == 0x85 || n == 0xA0 || n == 0x1680
    || 0x2000 <= n <= 0x200A || n == 0x2028 || n == 0x2029 || n == 0x202F || n == 0x205F || n == 0x3000
  }

  function TrimLeft(s: string): string {
    if s != "" && IsSpace(s[0]) then TrimLeft(s[1..]) else s
  }

  function TrimRight(s: string): string {
    if s != "" && IsSpace(s[|s| - 1]) then TrimRight(s[..|s| - 1]) else s
  }

  /** strings.TrimSpace. */
  function TrimSpace(s: string): string { TrimRight(TrimLeft(s)) }

  function ParseBigInt(raw: string): Option<int> {
    var s := TrimSpace(raw);
    if s == "" then None
    else if |s| >= 2 && s[0] == '0' && (s[1] == 'x' || s[1] == 'X') then ParseInt(s[2..], 16)
    else ParseInt(s, 10)
  }

  lemma ParsePrintedBigInt(n: int)
    ensures ParseBigInt(PrintInt(n)) == Some(n)
  {
    ParsePrintInt(n);
    var s := PrintInt(n);
    assert s[0] in s && s[|s| - 1] in s;
    if |s| >= 2 { assert s[1] in s; }
  }

  // ---- one pair -----------------------------------------------------------

  function Abs(n: int): nat { if n < 0 then -n else n }

  function Max(a: int, b: int): int { if a >= b then a else b }

  function Min(a: int, b: int): int { if a <= b then a else b }

  /** The bounds of AnchorWindowed.Judge, in uint64 with its two guards. */
  function WindowLow(anchor: Uint64, back: Uint64): Uint64 {
    if back > anchor then 0 else Sub64(anchor, back)
  }

  function WindowHigh(anchor: Uint64, fwd: Uint64): Uint64 {
    var hi := Add64(anchor, fwd);
    if hi < anchor then TWO_64 - 1 else hi
  }

  predicate Stale(anchor: Uint64, back: Uint64, fwd: Uint64, reflected: Option<Uint64>) {
    reflected.Some? && (reflected.value < WindowLow(anchor, back) || reflected.value > WindowHigh(anchor, fwd))
  }

  /** The guarded uint64 window is the mathematical one, cut to the uint64 range. */
  lemma WindowMeaning(anchor: Uint64, back: Uint64, fwd: Uint64, reflected: Option<Uint64>)
    ensures Stale(anchor, back, fwd, reflected) <==>
      reflected.Some? && !(Max(0, anchor - back) <= reflected.value <= Min(TWO_64 - 1, anchor + fwd))
  {
  }

  function JudgeNumeric(absoluteMax: Option<int>, ppm: nat, a: string, b: string): Verdict {
    match (ParseBigInt(a), ParseBigInt(b))
    case (Some(av), Some(bv)) =>
      var diff := Abs(av - bv);
      if absoluteMax.None? && ppm == 0 then Verdict(diff == 0, false)
      else if absoluteMax.Some? && diff <= absoluteMax.value then Verdict(true, false)
      else if ppm > 0 && diff * 1_000_000 <= Max(Abs(av), Abs(bv)) * ppm then Verdict(true, false)
      else Verdict(false, false)
    case _ => Verdict(false, false)
  }

  /** Tolerance.Judge. */
  function Judge(t: Tolerance, a: ValueSnapshot, b: ValueSnapshot, m: Metric, ctx: CompareContext): Verdict {
    match t
    case ExactMatch => Verdict(a.raw == b.raw, false)
    case NumericTolerance(absoluteMax, ppm) => JudgeNumeric(absoluteMax, ppm, a.raw, b.raw)
    case AnchorWindowed(inner, back, fwd) =>
      if Stale(ctx.anchor, back, fwd, ctx.reflectedA) || Stale(ctx.anchor, back, fwd, ctx.reflectedB) then Verdict(false, true)
      else
        (match inner
         case None => Verdict(a.raw == b.raw, false)
         case Some(t') => Judge(t', a, b, m, ctx))
    case Observational => Verdict(true, false)
    case Custom(judge) => judge(a, b, m, ctx)
  }

  /** The verdict on two snapshots, as the engine asks for it. */
  function PairVerdict(t: Tolerance, m: Metric, anchor: Uint64, a: ValueSnapshot, b: ValueSnapshot): Verdict {
    Judge(t, a, b, m, CompareContext(anchor, a.reflected, b.reflected))
  }

  ghost predicate Symmetric(t: Tolerance, m: Metric, anchor: Uint64) {
    forall a, b :: PairVerdict(t, m, anchor, a, b) == PairVerdict(t, m, anchor, b, a)
  }

  /** True of the four built-in tolerances, however they are nested. */
  predicate BuiltIn(t: Tolerance) {
    match t
    case AnchorWindowed(Some(inner), _, _) => BuiltIn(inner)
    case Custom(_) => false
    case _ => true
  }

  lemma NumericSymmetric(absoluteMax: Option<int>, ppm: nat, a: string, b: string)
    ensures JudgeNumeric(absoluteMax, ppm, a, b) == JudgeNumeric(absoluteMax, ppm, b, a)
  {
    hide ParseBigInt;
  }

  lemma {:induction false} JudgeSymmetric(t: Tolerance, m: Metric, anchor: Uint64, a: ValueSnapshot, b: ValueSnapshot)
    requires BuiltIn(t)
    ensures PairVerdict(t, m, anchor, a, b) == PairVerdict(t, m, anchor, b, a)
  {
    hide JudgeNumeric, Stale;
    match t
    case AnchorWindowed(Some(inner), _, _) => JudgeSymmetric(inner, m, anchor, a, b);
    case NumericTolerance(absoluteMax, ppm) => NumericSymmetric(absoluteMax, ppm, a.raw, b.raw);
    case _ =>
  }

  lemma BuiltInSymmetric(t: Tolerance, m: Metric, anchor: Uint64)
    requires BuiltIn(t)
    ensures Symmetric(t, m, anchor)
  {
    forall a, b ensures PairVerdict(t, m, anchor, a, b) == PairVerdict(t, m, anchor, b, a) {
      JudgeSymmetric(t, m, anchor, a, b);
    }
  }

  /** A numeric tolerance accepts two numbers within the absolute or the relative slack, equal
      ones where it has neither, and nothing that is not a number. */
  lemma NumericExactly(absoluteMax: Option<int>, ppm: nat, a: string, b: string)
    ensures JudgeNumeric(absoluteMax, ppm, a, b).ok <==>
      && ParseBigInt(a).Some? && ParseBigInt(b).Some?
      && var x, y := ParseBigInt(a).value, ParseBigInt(b).value;
         || (absoluteMax.None? && ppm == 0 && x == y)
         || (absoluteMax.Some? && Abs(x - y) <= absoluteMax.value)
         || (ppm > 0 && Abs(x - y) * 1_000_000 <= Max(Abs(x), Abs(y)) * ppm)
  {
    hide ParseBigInt;
  }

  /** On decimal renderings the numeric tolerance compares the numbers themselves. */
  lemma NumericOnDecimals(absoluteMax: Option<int>, ppm: nat, x: int, y: int)
    ensures JudgeNumeric(absoluteMax, ppm, PrintInt(x), PrintInt(y)).ok <==>
      || (absoluteMax.None? && ppm == 0 && x == y)
      || (absoluteMax.Some? && Abs(x - y) <= absoluteMax.value)
      || (ppm > 0 && Abs(x - y) * 1_000_000 <= Max(Abs(x), Abs(y)) * ppm)
  {
    ParsePrintedBigInt(x);
    ParsePrintedBigInt(y);
  }

  lemma {:induction false} TrimLeftDrops(before: string, s: string)
    requires forall c :: c in before ==> IsSpace(c)
    ensures TrimLeft(before + s) == TrimLeft(s)
  {
    if before != "" {
      assert (before + s)[1..] == before[1..] + s && before[0] in before;
      TrimLeftDrops(before[1..], s);
    } else {
      assert before + s == s;
    }
  }

  lemma {:induction false} TrimRightDrops(s: string, after: string)
    requires forall c :: c in after ==> IsSpace(c)
    ensures TrimRight(s + after) == TrimRight(s)
  {
    if after != "" {
      var n := |after| - 1;
      assert (s + after)[..|s + after| - 1] == s + after[..n] && after[n] in after && (s + after)[|s + after| - 1] == after[n];
      TrimRightDrops(s, after[..n]);
    } else {
      assert s + after == s;
    }
  }

  /** Trimming drops the white space around a text and nothing of the text. */
  lemma TrimCore(before: string, core: string, after: string)
    requires forall c :: c in before + after ==> IsSpace(c)
    requires core == "" || (!IsSpace(core[0]) && !IsSpace(core[|core| - 1]))
    ensures TrimSpace(before + core + after) == core
  {
    hide IsSpace;
    forall c | c in before ensures IsSpace(c) { assert c in before + after; }
    forall c | c in after ensures IsSpace(c) { assert c in before + after; }
    assert before + core + after == before + (core + after);
    TrimLeftDrops(before, core + after);
    if core == "" {
      assert core + after == after + "" && core + after == after;
      TrimLeftDrops(after, "");
    } else {
      TrimRightDrops(core, after);
    }
  }

  /** What the numeric tolerance reads behind white space: a signed hexadecimal numeral after
      0x or 0X, else a signed decimal one. */
  lemma BigIntReads(raw: string, n: int)
    ensures var s := TrimSpace(raw);
      ParseBigInt(raw) == Some(n) <==>
        if |s| >= 2 && (s[..2] == "0x" || s[..2] == "0X") then IsSigned(s[2..], 16, n) else IsSigned(s, 10, n)
  {
    hide TrimSpace, IsSigned;
    var s := TrimSpace(raw);
    IntSpellings(s, 10, n);
    if |s| >= 2 { IntSpellings(s[2..], 16, n); }
    NoInt();
    IntSpellings("", 10, n);
  }

  lemma NoInt()
    ensures ParseInt("", 10) == None
  {
  }

  /** A built-in tolerance discards a pair exactly when one of its windows leaves a reflected
      block out; no other does, whatever the raws. */
  lemma DiscardExactly(t: Tolerance, m: Metric, anchor: Uint64, a: ValueSnapshot, b: ValueSnapshot)
    requires BuiltIn(t)
    ensures PairVerdict(t, m, anchor, a, b).discard <==> match t
      case AnchorWindowed(inner, back, fwd) =>
        || (a.reflected.Some? && !(Max(0, anchor - back) <= a.reflected.value <= Min(TWO_64 - 1, anchor + fwd)))
        || (b.reflected.Some? && !(Max(0, anchor - back) <= b.reflected.value <= Min(TWO_64 - 1, anchor + fwd)))
        || (inner.Some? && PairVerdict(inner.value, m, anchor, a, b).discard)
      case _ => false
  {
    hide ParseBigInt;
    match t
    case AnchorWindowed(inner, back, fwd) =>
      WindowMeaning(anchor, back, fwd, a.reflected);
      WindowMeaning(anchor, back, fwd, b.reflected);
    case _ =>
  }

  // ---- a whole sample -----------------------------------------------------

  type Snapshots = map<string, ValueSnapshot>

  datatype Sampled = Sampled(sid: string, snap: ValueSnapshot)

  datatype Outcome = Agree | Disagree | Discard

  function SidKey(e: Sampled): seq<int> { Codes(e.sid) }

  ghost predicate PairDiscards(t: Tolerance, m: Metric, anchor: Uint64, a: Sampled, b: Sampled) {
    PairVerdict(t, m, anchor, a.snap, b.snap).discard
  }

  ghost predicate PairAgrees(t: Tolerance, m: Metric, anchor: Uint64, a: Sampled, b: Sampled) {
    PairVerdict(t, m, anchor, a.snap, b.snap).ok
  }

  ghost predicate ListDiscards(t: Tolerance, m: Metric, anchor: Uint64, xs: seq<Sampled>) {
    exists i, j :: 0 <= i < j < |xs| && PairDiscards(t, m, anchor, xs[i], xs[j])
  }

  ghost predicate ListAgrees(t: Tolerance, m: Metric, anchor: Uint64, xs: seq<Sampled>) {
    forall i, j :: 0 <= i < j < |xs| ==> PairAgrees(t, m, anchor, xs[i], xs[j])
  }

  /** What the pairwise loop decides on entries in a given order. */
  ghost function ListOutcome(t: Tolerance, m: Metric, anchor: Uint64, xs: seq<Sampled>): Outcome {
    if ListDiscards(t, m, anchor, xs) then Discard
    else if ListAgrees(t, m, anchor, xs) then Agree
    else Disagree
  }

  /** xs lists every entry of the snapshot map once, in some order. */
  ghost predicate Lists(xs: seq<Sampled>, snapshots: Snapshots) {
    && (forall i, j :: 0 <= i < j < |xs| ==> xs[i].sid != xs[j].sid)
    && (forall e :: e in xs <==> e.sid in snapshots && snapshots[e.sid] == e.snap)
  }

  ghost predicate SomeDiscard(t: Tolerance, m: Metric, anchor: Uint64, s: Snapshots) {
    exists a, b :: a in s && b in s && a != b && PairDiscards(t, m, anchor, Sampled(a, s[a]), Sampled(b, s[b]))
  }

  ghost predicate AllAgree(t: Tolerance, m: Metric, anchor: Uint64, s: Snapshots) {
    forall a, b :: a in s && b in s && a != b ==> PairAgrees(t, m, anchor, Sampled(a, s[a]), Sampled(b, s[b]))
  }

  /** The outcome of a sample, without any order. */
  ghost function MapOutcome(t: Tolerance, m: Metric, anchor: Uint64, s: Snapshots): Outcome {
    if SomeDiscard(t, m, anchor, s) then Discard
    else if AllAgree(t, m, anchor, s) then Agree
    else Disagree
  }

  /** The sorted entries of a snapshot map. Go builds the list by ranging over the
      map; the loop below takes the keys in an arbitrary order. */
  method SortedEntries(snapshots: Snapshots) returns (entries: seq<Sampled>)
    ensures Lists(entries, snapshots) && StrictlyAscending(SidKey, entries)
  {
    var todo := snapshots.Keys;
    var listed: seq<Sampled> := [];
    while todo != {}
      invariant todo <= snapshots.Keys
      invariant forall i, j :: 0 <= i < j < |listed| ==> listed[i].sid != listed[j].sid
      invariant forall e :: e in listed <==> e.sid in snapshots.Keys - todo && snapshots[e.sid] == e.snap
      decreases |todo|
    {
      var sid :| sid in todo;
      listed := listed + [Sampled(sid, snapshots[sid])];
      todo := todo - {sid};
    }
    entries := SortBy(SidKey, listed);
    SortedListing(listed, snapshots);
  }

  lemma SortedListing(listed: seq<Sampled>, snapshots: Snapshots)
    requires Lists(listed, snapshots)
    ensures Lists(SortBy(SidKey, listed), snapshots)
    ensures StrictlyAscending(SidKey, SortBy(SidKey, listed))
  {
    assert InjectiveOn(SidKey, listed) by {
      forall x, y | x in listed && y in listed && SidKey(x) == SidKey(y) ensures x == y { CodesInjective(x.sid, y.sid); }
    }
    SortStrict(SidKey, listed);
    var r := SortBy(SidKey, listed);
    forall e ensures e in r <==> e in listed { SortMember(SidKey, listed, e); }
    forall i, j | 0 <= i < j < |r| ensures r[i].sid != r[j].sid {
      LexIrreflexive(Codes(r[i].sid));
    }
  }

  /** The sorted listing of a map is unique, so the outcome is a function of the map. */
  lemma ListingUnique(xs: seq<Sampled>, ys: seq<Sampled>, s: Snapshots)
    requires Lists(xs, s) && Lists(ys, s)
    requires StrictlyAscending(SidKey, xs) && StrictlyAscending(SidKey, ys)
    ensures xs == ys
  {
    assert InjectiveOn(SidKey, xs) by {
      forall x, y | x in xs && y in xs && SidKey(x) == SidKey(y) ensures x == y { CodesInjective(x.sid, y.sid); }
    }
    StrictUnique(SidKey, xs, ys);
  }

  lemma {:induction false} SomeEntries(s: Snapshots, ids: set<string>) returns (xs: seq<Sampled>)
    requires ids <= s.Keys
    ensures forall i, j :: 0 <= i < j < |xs| ==> xs[i].sid != xs[j].sid
    ensures forall e :: e in xs <==> e.sid in ids && s[e.sid] == e.snap
  {
    xs := [];
    if ids != {} {
      var sid :| sid in ids;
      var rest := SomeEntries(s, ids - {sid});
      xs := rest + [Sampled(sid, s[sid])];
    }
  }

  /** The outcome on the entries in source order: a function of the snapshot map. */
  ghost function SortedOutcome(t: Tolerance, m: Metric, anchor: Uint64, s: Snapshots): Outcome {
    assert exists xs :: Lists(xs, s) && StrictlyAscending(SidKey, xs) by {
      var xs := SomeEntries(s, s.Keys);
      SortedListing(xs, s);
    }
    var xs :| Lists(xs, s) && StrictlyAscending(SidKey, xs);
    ListOutcome(t, m, anchor, xs)
  }

  /** applyTolerance. */
  method ApplyTolerance(t: Tolerance, m: Metric, snapshots: Snapshots, anchor: Uint64) returns (outcome: Outcome)
    ensures outcome == SortedOutcome(t, m, anchor, snapshots)
  {
    var entries := SortedEntries(snapshots);
    outcome := PairwiseLoop(t, m, anchor, entries);
    SortedOutcomeAt(t, m, anchor, snapshots, entries);
  }

  lemma SortedOutcomeAt(t: Tolerance, m: Metric, anchor: Uint64, s: Snapshots, entries: seq<Sampled>)
    requires Lists(entries, s) && StrictlyAscending(SidKey, entries)
    ensures SortedOutcome(t, m, anchor, s) == ListOutcome(t, m, anchor, entries)
  {
    var xs :| Lists(xs, s) && StrictlyAscending(SidKey, xs) && SortedOutcome(t, m, anchor, s) == ListOutcome(t, m, anchor, xs);
    ListingUnique(xs, entries, s);
  }

  /** For a symmetric tolerance the source order plays no part. */
  lemma SymmetricOutcome(t: Tolerance, m: Metric, anchor: Uint64, s: Snapshots)
    requires Symmetric(t, m, anchor)
    ensures SortedOutcome(t, m, anchor, s) == MapOutcome(t, m, anchor, s)
  {
    var xs := SomeEntries(s, s.Keys);
    SortedListing(xs, s);
    SortedOutcomeAt(t, m, anchor, s, SortBy(SidKey, xs));
    OrderIndependent(t, m, anchor, SortBy(SidKey, xs), s);
  }

  /** The two nested loops over the sorted entries, with the early return on a discard. */
  method PairwiseLoop(t: Tolerance, m: Metric, anchor: Uint64, entries: seq<Sampled>) returns (outcome: Outcome)
    ensures outcome == ListOutcome(t, m, anchor, entries)
  {
    hide PairVerdict;
    var allOK := true;
    for i := 0 to |entries|
      invariant forall k, l :: 0 <= k < l < |entries| && k < i ==> !PairDiscards(t, m, anchor, entries[k], entries[l])
      invariant allOK <==> forall k, l :: 0 <= k < l < |entries| && k < i ==> PairAgrees(t, m, anchor, entries[k], entries[l])
    {
      for j := i + 1 to |entries|
        invariant forall k, l :: 0 <= k < l < |entries| && (k < i || (k == i && l < j)) ==> !PairDiscards(t, m, anchor, entries[k], entries[l])
        invariant allOK <==> forall k, l :: 0 <= k < l < |entries| && (k < i || (k == i && l < j)) ==> PairAgrees(t, m, anchor, entries[k], entries[l])
      {
        var v := PairVerdict(t, m, anchor, entries[i].snap, entries[j].snap);
        assert v.discard <==> PairDiscards(t, m, anchor, entries[i], entries[j]);
        assert v.ok <==> PairAgrees(t, m, anchor, entries[i], entries[j]);
        if v.discard { return Discard; }
        if !v.ok { allOK := false; }
      }
    }
    outcome := if allOK then Agree else Disagree;
  }

  lemma DiscardsAlike(t: Tolerance, m: Metric, anchor: Uint64, xs: seq<Sampled>, s: Snapshots)
    requires Symmetric(t, m, anchor) && Lists(xs, s)
    ensures ListDiscards(t, m, anchor, xs) <==> SomeDiscard(t, m, anchor, s)
  {
    hide PairVerdict, Symmetric;
    if ListDiscards(t, m, anchor, xs) {
      var i, j :| 0 <= i < j < |xs| && PairDiscards(t, m, anchor, xs[i], xs[j]);
      assert xs[i] in xs && xs[j] in xs;
      assert xs[i] == Sampled(xs[i].sid, s[xs[i].sid]) && xs[j] == Sampled(xs[j].sid, s[xs[j].sid]);
    }
    if SomeDiscard(t, m, anchor, s) {
      var a, b :| a in s && b in s && a != b && PairDiscards(t, m, anchor, Sampled(a, s[a]), Sampled(b, s[b]));
      var i, j := OrderedPair(t, m, anchor, xs, s, a, b);
      assert PairDiscards(t, m, anchor, xs[i], xs[j]);
    }
  }

  lemma AgreesAlike(t: Tolerance, m: Metric, anchor: Uint64, xs: seq<Sampled>, s: Snapshots)
    requires Symmetric(t, m, anchor) && Lists(xs, s)
    ensures ListAgrees(t, m, anchor, xs) <==> AllAgree(t, m, anchor, s)
  {
    hide PairVerdict, Symmetric;
    if !AllAgree(t, m, anchor, s) {
      var a, b :| a in s && b in s && a != b && !PairAgrees(t, m, anchor, Sampled(a, s[a]), Sampled(b, s[b]));
      var i, j := OrderedPair(t, m, anchor, xs, s, a, b);
      assert !PairAgrees(t, m, anchor, xs[i], xs[j]);
    }
    if AllAgree(t, m, anchor, s) {
      forall i, j | 0 <= i < j < |xs| ensures PairAgrees(t, m, anchor, xs[i], xs[j]) {
        assert xs[i] in xs && xs[j] in xs;
        assert xs[i] == Sampled(xs[i].sid, s[xs[i].sid]) && xs[j] == Sampled(xs[j].sid, s[xs[j].sid]);
      }
    }
  }

  /** For a symmetric tolerance, every order of the sources gives the same outcome. */
  lemma OrderIndependent(t: Tolerance, m: Metric, anchor: Uint64, xs: seq<Sampled>, s: Snapshots)
    requires Symmetric(t, m, anchor) && Lists(xs, s)
    ensures ListOutcome(t, m, anchor, xs) == MapOutcome(t, m, anchor, s)
  {
    hide Symmetric, Lists, PairVerdict, ListDiscards, ListAgrees, SomeDiscard, AllAgree;
    DiscardsAlike(t, m, anchor, xs, s);
    AgreesAlike(t, m, anchor, xs, s);
  }

  /** The positions of two sources in a listing, lower position first. */
  lemma OrderedPair(t: Tolerance, m: Metric, anchor: Uint64, xs: seq<Sampled>, s: Snapshots, a: string, b: string)
    returns (i: nat, j: nat)
    requires Symmetric(t, m, anchor) && Lists(xs, s)
    requires a in s && b in s && a != b
    ensures i < j < |xs|
    ensures PairVerdict(t, m, anchor, xs[i].snap, xs[j].snap) == PairVerdict(t, m, anchor, s[a], s[b])
  {
    var x, y := Sampled(a, s[a]), Sampled(b, s[b]);
    assert x in xs && y in xs;
    var p :| 0 <= p < |xs| && xs[p] == x;
    var q :| 0 <= q < |xs| && xs[q] == y;
    if p < q { i, j := p, q; } else { i, j := q, p; }
  }

  // ---- the linear reading -------------------------------------------------

  ghost predicate SomeStale(s: Snapshots, anchor: Uint64, back: Uint64, fwd: Uint64) {
    exists a :: a in s && Stale(anchor, back, fwd, s[a].reflected)
  }

  /** One reflected block outside the mathematical window. */
  ghost predicate SomeOutside(s: Snapshots, anchor: Uint64, back: Uint64, fwd: Uint64) {
    exists a :: a in s && s[a].reflected.Some?
      && !(Max(0, anchor - back) <= s[a].reflected.value <= Min(TWO_64 - 1, anchor + fwd))
  }

  ghost predicate AllRawsEqual(s: Snapshots) {
    forall a, b :: a in s && b in s ==> s[a].raw == s[b].raw
  }

  /** Another source of a sample of two or more. */
  lemma Other(s: Snapshots, a: string) returns (b: string)
    requires |s| >= 2 && a in s
    ensures b in s && b != a
  {
    assert |s.Keys - {a}| >= 1;
    b :| b in s.Keys - {a};
  }

  function InnerOf(inner: Option<Tolerance>): Tolerance {
    match inner
    case None => ExactMatch
    case Some(t) => t
  }

  /** An anchor window splits off: a sample is discarded for a stale member, and is
      otherwise judged by the inner tolerance alone. */
  lemma WindowSplits(inner: Option<Tolerance>, back: Uint64, fwd: Uint64, m: Metric, anchor: Uint64, s: Snapshots)
    requires |s| >= 2
    ensures MapOutcome(AnchorWindowed(inner, back, fwd), m, anchor, s) ==
      if SomeStale(s, anchor, back, fwd) then Discard else MapOutcome(InnerOf(inner), m, anchor, s)
  {
    var t := AnchorWindowed(inner, back, fwd);
    if SomeStale(s, anchor, back, fwd) {
      var a :| a in s && Stale(anchor, back, fwd, s[a].reflected);
      var b := Other(s, a);
      assert PairDiscards(t, m, anchor, Sampled(a, s[a]), Sampled(b, s[b]));
    } else {
      forall a, b | a in s && b in s
        ensures PairDiscards(t, m, anchor, Sampled(a, s[a]), Sampled(b, s[b])) ==
                PairDiscards(InnerOf(inner), m, anchor, Sampled(a, s[a]), Sampled(b, s[b]))
        ensures PairAgrees(t, m, anchor, Sampled(a, s[a]), Sampled(b, s[b])) ==
                PairAgrees(InnerOf(inner), m, anchor, Sampled(a, s[a]), Sampled(b, s[b]))
      {
        assert !Stale(anchor, back, fwd, s[a].reflected) && !Stale(anchor, back, fwd, s[b].reflected);
      }
      assert SomeDiscard(t, m, anchor, s) == SomeDiscard(InnerOf(inner), m, anchor, s);
      assert AllAgree(t, m, anchor, s) == AllAgree(InnerOf(inner), m, anchor, s);
    }
  }

  lemma ExactOutcome(m: Metric, anchor: Uint64, s: Snapshots)
    ensures MapOutcome(ExactMatch, m, anchor, s) == if AllRawsEqual(s) then Agree else Disagree
  {
    if AllAgree(ExactMatch, m, anchor, s) {
      forall a, b | a in s && b in s ensures s[a].raw == s[b].raw {
        if a != b { assert PairAgrees(ExactMatch, m, anchor, Sampled(a, s[a]), Sampled(b, s[b])); }
      }
    }
  }

  /** The quadratic loop under AnchorWindowed over ExactMatch equals a linear check. */
  lemma WindowedExactIsLinear(inner: Option<Tolerance>, back: Uint64, fwd: Uint64, m: Metric, anchor: Uint64, s: Snapshots)
    requires |s| >= 2 && InnerOf(inner).ExactMatch?
    ensures MapOutcome(AnchorWindowed(inner, back, fwd), m, anchor, s) ==
      if SomeOutside(s, anchor, back, fwd) then Discard
      else if AllRawsEqual(s) then Agree
      else Disagree
  {
    WindowSplits(inner, back, fwd, m, anchor, s);
    ExactOutcome(m, anchor, s);
    forall a | a in s
      ensures Stale(anchor, back, fwd, s[a].reflected) <==>
        s[a].reflected.Some? && !(Max(0, anchor - back) <= s[a].reflected.value <= Min(TWO_64 - 1, anchor + fwd))
    {
      WindowMeaning(anchor, back, fwd, s[a].reflected);
    }
  }

  // ---- disagreement without distinct values -------------------------------

  /** The numeric tolerance is the only built-in one that can call equal raws different. */
  predicate NumericCore(t: Tolerance) {
    match t
    case NumericTolerance(_, _) => true
    case AnchorWindowed(Some(inner), _, _) => NumericCore(inner)
    case _ => false
  }

  ghost predicate InsideWindows(t: Tolerance, anchor: Uint64, s: Snapshots) {
    match t
    case AnchorWindowed(inner, back, fwd) =>
      !SomeStale(s, anchor, back, fwd) && (inner.Some? ==> InsideWindows(inner.value, anchor, s))
    case _ => true
  }

  /** Slack that accepts a zero difference: every configuration except a negative absolute one. */
  predicate AcceptsZero(t: Tolerance) {
    match t
    case NumericTolerance(absoluteMax, ppm) => ppm > 0 || absoluteMax.None? || absoluteMax.value >= 0
    case AnchorWindowed(Some(inner), _, _) => AcceptsZero(inner)
    case _ => true
  }

  /** Exactly when a built-in tolerance reports a disagreement although all raws are equal:
      the numeric tolerance on a raw that is no number (or with a negative allowance). */
  lemma {:induction false} EqualRawsDisagree(t: Tolerance, m: Metric, anchor: Uint64, s: Snapshots, sid: string)
    requires BuiltIn(t) && |s| >= 2 && sid in s && AllRawsEqual(s)
    ensures MapOutcome(t, m, anchor, s) == Disagree <==>
      NumericCore(t) && InsideWindows(t, anchor, s) && (ParseBigInt(s[sid].raw).None? || !AcceptsZero(t))
  {
    match t
    case AnchorWindowed(inner, back, fwd) =>
      WindowSplits(inner, back, fwd, m, anchor, s);
      if inner.Some? {
        EqualRawsDisagree(inner.value, m, anchor, s, sid);
      } else {
        ExactOutcome(m, anchor, s);
      }
    case NumericTolerance(absoluteMax, ppm) =>
      var other := Other(s, sid);
      forall a, b | a in s && b in s
        ensures PairAgrees(t, m, anchor, Sampled(a, s[a]), Sampled(b, s[b])) <==> ParseBigInt(s[sid].raw).Some? && AcceptsZero(t)
      {
        assert s[a].raw == s[sid].raw == s[b].raw;
        ZeroDifference(absoluteMax, ppm, s[sid].raw);
      }
      if AllAgree(t, m, anchor, s) { assert PairAgrees(t, m, anchor, Sampled(sid, s[sid]), Sampled(other, s[other])); }
    case ExactMatch => ExactOutcome(m, anchor, s);
    case Observational =>
  }

  lemma ZeroDifference(absoluteMax: Option<int>, ppm: nat, raw: string)
    ensures JudgeNumeric(absoluteMax, ppm, raw, raw).ok <==>
      ParseBigInt(raw).Some? && AcceptsZero(NumericTolerance(absoluteMax, ppm))
  {
    match ParseBigInt(raw)
    case None =>
    case Some(v) =>
      assert 0 <= Max(Abs(v), Abs(v)) * ppm;
  }

  // ---- DefaultToleranceResolver.For ---------------------------------------

  datatype Resolver = Resolver(overrides: map<string, Tolerance>)

  const DEFAULT_WINDOW: Tolerance := AnchorWindowed(Some(ExactMatch), 0, 64)

  function For(r: Resolver, m: Metric): Tolerance {
    if m.key in r.overrides then r.overrides[m.key]
    else
      match m.category
      case CatBlockImmutable | CatAddressAtBlock => ExactMatch
      case CatAddressLatest => DEFAULT_WINDOW
      case CatSnapshot => Observational
      case OtherCategory(_) => ExactMatch
  }

  /** Without an override, a confirmed disagreement always shows two distinct raws. */
  lemma DefaultDisagreementShows(r: Resolver, m: Metric, anchor: Uint64, s: Snapshots)
    requires |s| >= 2 && m.key !in r.overrides
    requires SortedOutcome(For(r, m), m, anchor, s) == Disagree
    ensures !AllRawsEqual(s)
  {
    var sid :| sid in s;
    assert BuiltIn(For(r, m)) by { assert BuiltIn(DEFAULT_WINDOW); }
    BuiltInSymmetric(For(r, m), m, anchor);
    SymmetricOutcome(For(r, m), m, anchor, s);
    if AllRawsEqual(s) {
      assert !NumericCore(For(r, m)) by { assert !NumericCore(DEFAULT_WINDOW); }
      EqualRawsDisagree(For(r, m), m, anchor, s, sid);
    }
  }
}
