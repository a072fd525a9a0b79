/** The parallel fetch over all sources (fanOutFetch of internal/application/execute_run.go).

One goroutine per source reserves, fetches, refunds on error and writes its slot.
The goroutines' steps interleave in any order, with the clock advancing between
them; every step touches the shared budget or one slot. */
module FanOut {
  import opened Prelude
  import opened Budget
  import opened BudgetProtocol

  /** Where a goroutine stands; Writing carries the slot it is about to write. */
  datatype Phase<R> = Start | Fetching | Refunding(error: string) | Writing(slot: Result<R>) | Done

  datatype Event = Go(i: nat) | Pass(d: nat)

  /** One call of fanOutFetch: the sources by id, and what each fetch answers. */
  datatype Call<!R> = Call(cfg: Config, budgeted: bool, sources: seq<string>, fetch: nat -> Result<R>)

  datatype State<R> = State(world: World, phases: seq<Phase<R>>, slots: seq<Option<Result<R>>>, fetches: multiset<nat>)

  function Initially<R>(call: Call<R>, w: World): State<R> {
    State(w, seq(|call.sources|, i => Start), seq(|call.sources|, i => None), multiset{})
  }

  function ReserveError(r: Reply): string {
    if r == EmptySource then "budget reserve: empty source id" else "application: rate limit budget exhausted"
  }

  /** One step of goroutine i. */
  function StepGo<R>(call: Call<R>, s: State<R>, i: nat): State<R>
    requires |s.phases| == |s.slots| == |call.sources| && i < |call.sources|
  {
    var sid := call.sources[i];
    match s.phases[i]
    case Start =>
      if !call.budgeted then s.(phases := s.phases[i := Fetching])
      else
        var reply := ReplyTo(call.cfg, s.world, sid, 1);
        s.(world := Step(call.cfg, s.world, ReserveOp(sid, 1)),
           phases := s.phases[i := if reply == Granted then Fetching else Writing(Err(ReserveError(reply)))])
    case Fetching =>
      var r := call.fetch(i);
      s.(phases := s.phases[i := if r.Err? && call.budgeted then Refunding(r.error) else Writing(r)],
         fetches := s.fetches + multiset{i})
    case Refunding(e) =>
      s.(world := Step(call.cfg, s.world, RefundOp(sid, 1)), phases := s.phases[i := Writing(Err(e))])
    case Writing(slot) =>
      s.(phases := s.phases[i := Done], slots := s.slots[i := Some(slot)])
    case Done => s
  }

  function StepEvent<R>(call: Call<R>, s: State<R>, e: Event): (s': State<R>)
    requires |s.phases| == |s.slots| == |call.sources|
    ensures |s'.phases| == |s'.slots| == |call.sources|
  {
    match e
    case Pass(d) => s.(world := Step(call.cfg, s.world, Tick(d)))
    case Go(i) => if i < |call.sources| then StepGo(call, s, i) else s
  }

  function Play<R>(call: Call<R>, w: World, schedule: seq<Event>): (s: State<R>)
    ensures |s.phases| == |s.slots| == |call.sources|
  {
    if schedule == [] then Initially(call, w)
    else StepEvent(call, Play(call, w, schedule[..|schedule| - 1]), schedule[|schedule| - 1])
  }

  /** wg.Wait() returns when every goroutine is done. */
  ghost predicate Complete<R>(s: State<R>) { forall i :: 0 <= i < |s.phases| ==> s.phases[i].Done? }

  // ---- what one goroutine does, seen alone --------------------------------

  /** The source's usage is counted. */
  predicate Metered<R>(call: Call<R>, sid: string) {
    call.budgeted && sid != "" && PolicyFor(call.cfg, sid).Some?
  }

  /** Goroutine i gets past its reservation. */
  predicate Admitted<R>(call: Call<R>, w: World, i: nat)
    requires i < |call.sources|
  {
    var sid := call.sources[i];
    !call.budgeted || (sid != "" && (PolicyFor(call.cfg, sid).Some? ==> Usage(call.cfg, w, sid) + 1 <= PolicyFor(call.cfg, sid).value.limit))
  }

  /** The slot goroutine i ends with. */
  function FinalSlot<R>(call: Call<R>, w: World, i: nat): Result<R>
    requires i < |call.sources|
  {
    if Admitted(call, w, i) then call.fetch(i)
    else Err(ReserveError(if call.sources[i] == "" then EmptySource else Exhausted))
  }

  /** Units goroutine i holds in a phase. */
  function Held<R>(call: Call<R>, w: World, i: nat, p: Phase<R>): nat
    requires i < |call.sources|
  {
    match p
    case Start => 0
    case Fetching | Refunding(_) => 1
    case Writing(_) | Done => if Admitted(call, w, i) && call.fetch(i).Ok? then 1 else 0
  }

  ghost predicate WorkerInvariant<R>(call: Call<R>, w: World, s: State<R>, i: nat)
    requires i < |call.sources| == |s.phases| == |s.slots|
  {
    && (s.slots[i].Some? <==> s.phases[i].Done?)
    && (s.slots[i].Some? ==> s.slots[i].value == FinalSlot(call, w, i))
    && match s.phases[i]
       case Start => s.fetches[i] == 0
       case Fetching => Admitted(call, w, i) && s.fetches[i] == 0
       case Refunding(e) => call.budgeted && Admitted(call, w, i) && call.fetch(i) == Err(e) && s.fetches[i] == 1
       case Writing(slot) => slot == FinalSlot(call, w, i) && s.fetches[i] == (if Admitted(call, w, i) then 1 else 0)
       case Done => s.fetches[i] == if Admitted(call, w, i) then 1 else 0
  }

  /** The sum of the numbers at the positions of one source. */
  function SumAt(sources: seq<string>, sid: string, xs: seq<nat>): nat
    requires |xs| == |sources|
  {
    if xs == [] then 0
    else
      var n := |xs| - 1;
      SumAt(sources[..n], sid, xs[..n]) + if sources[n] == sid then xs[n] else 0
  }

  lemma {:induction false} SumUpdate(sources: seq<string>, sid: string, xs: seq<nat>, i: nat, x: nat)
    requires |xs| == |sources| && i < |xs|
    ensures SumAt(sources, sid, xs[i := x]) == SumAt(sources, sid, xs) + if sources[i] == sid then x - xs[i] else 0
  {
    var n := |xs| - 1;
    if i < n {
      assert xs[i := x][..n] == xs[..n][i := x];
      SumUpdate(sources[..n], sid, xs[..n], i, x);
    } else {
      assert xs[i := x][..n] == xs[..n];
    }
  }

  /** A sum bounded term by term; equal when the terms are. */
  lemma {:induction false} SumMonotone(sources: seq<string>, sid: string, xs: seq<nat>, ys: seq<nat>)
    requires |xs| == |ys| == |sources|
    requires forall i :: 0 <= i < |xs| && sources[i] == sid ==> xs[i] <= ys[i]
    ensures SumAt(sources, sid, xs) <= SumAt(sources, sid, ys)
  {
    if xs != [] { SumMonotone(sources[..|xs| - 1], sid, xs[..|xs| - 1], ys[..|xs| - 1]); }
  }

  function Zeros(n: nat): seq<nat> { seq(n, _ => 0) }

  function Ones(n: nat): seq<nat> { seq(n, _ => 1) }

  lemma {:induction false} SumZeros(sources: seq<string>, sid: string)
    ensures SumAt(sources, sid, Zeros(|sources|)) == 0
  {
    if sources != [] {
      assert Zeros(|sources|)[..|sources| - 1] == Zeros(|sources| - 1);
      SumZeros(sources[..|sources| - 1], sid);
    }
  }

  /** How often a source is listed. */
  function Listed(sources: seq<string>, sid: string): nat { SumAt(sources, sid, Ones(|sources|)) }

  lemma {:induction false} ListedOnce(sources: seq<string>, sid: string)
    requires Distinct(sources)
    ensures Listed(sources, sid) == if sid in sources then 1 else 0
  {
    if sources != [] {
      var n := |sources| - 1;
      assert Ones(|sources|)[..n] == Ones(n);
      ListedOnce(sources[..n], sid);
      assert sources == sources[..n] + [sources[n]];
      assert sources[n] !in sources[..n];
    }
  }

  /** The units each goroutine holds. */
  function Holdings<R>(call: Call<R>, w: World, phases: seq<Phase<R>>): (xs: seq<nat>)
    requires |phases| == |call.sources|
    ensures |xs| == |phases|
  {
    seq(|phases|, i requires 0 <= i < |phases| => Held(call, w, i, phases[i]))
  }

  /** A metered source's usage is its initial usage plus what its goroutines hold. */
  ghost predicate UsageInvariant<R>(call: Call<R>, w: World, s: State<R>, sid: string)
    requires |call.sources| == |s.phases| && PolicyFor(call.cfg, sid).Some?
  {
    Usage(call.cfg, s.world, sid) == Usage(call.cfg, w, sid)
      + if Metered(call, sid) then SumAt(call.sources, sid, Holdings(call, w, s.phases)) else 0
  }

  /** Every metered source has room for all its goroutines, or for none. */
  ghost predicate Unanimous<R>(call: Call<R>, w: World) {
    forall sid :: Metered(call, sid) ==> RoomForAllOrNone(call, w, sid)
  }

  ghost predicate RoomForAllOrNone<R>(call: Call<R>, w: World, sid: string)
    requires PolicyFor(call.cfg, sid).Some?
  {
    var usage, limit := Usage(call.cfg, w, sid), PolicyFor(call.cfg, sid).value.limit;
    usage + Listed(call.sources, sid) <= limit || usage >= limit
  }

  /** With distinct ids no source can be split. */
  lemma DistinctUnanimous<R>(call: Call<R>, w: World)
    requires Distinct(call.sources)
    ensures Unanimous(call, w)
  {
    forall sid | Metered(call, sid) ensures RoomForAllOrNone(call, w, sid) { ListedOnce(call.sources, sid); }
  }

  ghost predicate PlayInvariant<R>(call: Call<R>, w: World, s: State<R>)
    requires SoundConfig(call.cfg) && |s.phases| == |s.slots| == |call.sources|
  {
    && Invariant(call.cfg, w) && Invariant(call.cfg, s.world) && w.now <= s.world.now
    && (forall i :: 0 <= i < |call.sources| ==> WorkerInvariant(call, w, s, i))
    && forall sid :: PolicyFor(call.cfg, sid).Some? ==> UsageInvariant(call, w, s, sid)
  }

  /** Both instants fall into the same window of every limited source. */
  ghost predicate SameWindows(cfg: Config, t: int, u: int)
    requires SoundConfig(cfg)
  {
    forall sid :: PolicyFor(cfg, sid).Some? ==>
      WindowIndex(t, PolicyFor(cfg, sid).value.window) == WindowIndex(u, PolicyFor(cfg, sid).value.window)
  }

  lemma TickUsage(cfg: Config, w: World, d: nat, sid: string)
    requires SoundConfig(cfg) && Invariant(cfg, w) && PolicyFor(cfg, sid).Some?
    requires var window := PolicyFor(cfg, sid).value.window; WindowIndex(w.now, window) == WindowIndex(w.now + d, window)
    ensures Usage(cfg, Step(cfg, w, Tick(d)), sid) == Usage(cfg, w, sid)
  {
    TickKeeps(cfg, w, d);
    CurrentKeyLive(cfg, w, sid);
    CurrentKeyLive(cfg, Step(cfg, w, Tick(d)), sid);
    WindowsApart(w.now, w.now + d, PolicyFor(cfg, sid).value.window);
  }

  lemma HoldingsUpdate<R>(call: Call<R>, w: World, phases: seq<Phase<R>>, i: nat, p: Phase<R>, sid: string)
    requires |phases| == |call.sources| && i < |phases|
    ensures SumAt(call.sources, sid, Holdings(call, w, phases[i := p])) ==
      SumAt(call.sources, sid, Holdings(call, w, phases))
      + if call.sources[i] == sid then Held(call, w, i, p) - Held(call, w, i, phases[i]) else 0
  {
    assert Holdings(call, w, phases[i := p]) == Holdings(call, w, phases)[i := Held(call, w, i, p)];
    SumUpdate(call.sources, sid, Holdings(call, w, phases), i, Held(call, w, i, p));
  }

  /** A reservation or refund by goroutine i changes the usage of its own source only. */
  lemma BudgetStepKeeps<R>(call: Call<R>, w: World, s: State<R>, s': State<R>, i: nat, op: Op)
    requires SoundConfig(call.cfg) && i < |call.sources| && call.budgeted
    requires |s.phases| == |s.slots| == |call.sources| && PlayInvariant(call, w, s)
    requires |s'.phases| == |s.phases| && s'.phases == s.phases[i := s'.phases[i]]
    requires s'.world == Step(call.cfg, s.world, op)
    requires if s.phases[i].Start? then op == ReserveOp(call.sources[i], 1) else s.phases[i].Refunding? && op == RefundOp(call.sources[i], 1)
    requires Metered(call, call.sources[i]) && op.ReserveOp? ==>
      (Usage(call.cfg, s.world, call.sources[i]) + 1 <= PolicyFor(call.cfg, call.sources[i]).value.limit <==> Admitted(call, w, i))
    requires Held(call, w, i, s'.phases[i]) == if op.RefundOp? then 0 else if Admitted(call, w, i) then 1 else 0
    ensures forall sid :: PolicyFor(call.cfg, sid).Some? ==> UsageInvariant(call, w, s', sid)
  {
    forall sid | PolicyFor(call.cfg, sid).Some? ensures UsageInvariant(call, w, s', sid) {
      assert UsageInvariant(call, w, s, sid);
      HoldingsUpdate(call, w, s.phases, i, s'.phases[i], sid);
      HoldingsUpdate(call, w, s.phases, i, Start, sid);
      StepUsage(call.cfg, s.world, op, sid);
      CurrentKeyLive(call.cfg, w, sid);
    }
  }

  /** A source with room for none has no unit held. */
  lemma NoneHeld<R>(call: Call<R>, w: World, s: State<R>, sid: string)
    requires SoundConfig(call.cfg) && |s.phases| == |s.slots| == |call.sources| && PlayInvariant(call, w, s)
    requires Metered(call, sid) && Usage(call.cfg, w, sid) >= PolicyFor(call.cfg, sid).value.limit
    ensures SumAt(call.sources, sid, Holdings(call, w, s.phases)) == 0
  {
    forall i | 0 <= i < |call.sources| && call.sources[i] == sid ensures Holdings(call, w, s.phases)[i] <= Zeros(|call.sources|)[i] {
      assert WorkerInvariant(call, w, s, i);
    }
    SumMonotone(call.sources, sid, Holdings(call, w, s.phases), Zeros(|call.sources|));
    SumZeros(call.sources, sid);
  }

  /** While goroutine i has not begun, at most the others of its source hold a unit. */
  lemma OthersHold<R>(call: Call<R>, w: World, s: State<R>, i: nat)
    requires |s.phases| == |call.sources| && i < |call.sources| && s.phases[i].Start?
    ensures SumAt(call.sources, call.sources[i], Holdings(call, w, s.phases)) <= Listed(call.sources, call.sources[i]) - 1
  {
    var n := |call.sources|;
    SumMonotone(call.sources, call.sources[i], Holdings(call, w, s.phases), Ones(n)[i := 0]);
    SumUpdate(call.sources, call.sources[i], Ones(n), i, 0);
  }

  /** A reservation is granted exactly to the goroutines that the initial usage admits. */
  lemma AdmittedNow<R>(call: Call<R>, w: World, s: State<R>, i: nat)
    requires SoundConfig(call.cfg) && Unanimous(call, w) && i < |call.sources|
    requires |s.phases| == |s.slots| == |call.sources| && PlayInvariant(call, w, s)
    requires s.phases[i].Start? && Metered(call, call.sources[i])
    ensures Usage(call.cfg, s.world, call.sources[i]) + 1 <= PolicyFor(call.cfg, call.sources[i]).value.limit <==> Admitted(call, w, i)
  {
    var sid := call.sources[i];
    assert UsageInvariant(call, w, s, sid) && RoomForAllOrNone(call, w, sid);
    if Usage(call.cfg, w, sid) >= PolicyFor(call.cfg, sid).value.limit {
      NoneHeld(call, w, s, sid);
    } else {
      OthersHold(call, w, s, i);
    }
  }

  lemma GoKeeps<R>(call: Call<R>, w: World, s: State<R>, i: nat)
    requires SoundConfig(call.cfg) && Unanimous(call, w) && i < |call.sources|
    requires |s.phases| == |s.slots| == |call.sources| && PlayInvariant(call, w, s)
    ensures PlayInvariant(call, w, StepGo(call, s, i))
  {
    hide Unanimous, UsageInvariant;
    var s' := StepGo(call, s, i);
    var sid := call.sources[i];
    assert WorkerInvariant(call, w, s, i);
    match s.phases[i] {
      case Start =>
        if call.budgeted {
          StepKeeps(call.cfg, s.world, ReserveOp(sid, 1));
          if Metered(call, sid) {
            AdmittedNow(call, w, s, i);
            GrantedExactly(call.cfg, s.world, sid, 1);
          }
          assert ReplyTo(call.cfg, s.world, sid, 1) == Granted <==> Admitted(call, w, i);
          BudgetStepKeeps(call, w, s, s', i, ReserveOp(sid, 1));
        } else {
          OwnStepKeeps(call, w, s, s', i);
        }
      case Fetching => OwnStepKeeps(call, w, s, s', i);
      case Refunding(e) =>
        StepKeeps(call.cfg, s.world, RefundOp(sid, 1));
        BudgetStepKeeps(call, w, s, s', i, RefundOp(sid, 1));
      case Writing(slot) => OwnStepKeeps(call, w, s, s', i);
      case Done =>
    }
    forall k | 0 <= k < |call.sources| ensures WorkerInvariant(call, w, s', k) {
      assert WorkerInvariant(call, w, s, k);
    }
  }

  /** A step that leaves the budget alone keeps every usage. */
  lemma OwnStepKeeps<R>(call: Call<R>, w: World, s: State<R>, s': State<R>, i: nat)
    requires SoundConfig(call.cfg) && i < |call.sources| && s'.world == s.world
    requires |s.phases| == |s.slots| == |call.sources| && PlayInvariant(call, w, s)
    requires |s'.phases| == |s.phases| && s'.phases == s.phases[i := s'.phases[i]]
    requires !call.budgeted || Held(call, w, i, s'.phases[i]) == Held(call, w, i, s.phases[i])
    ensures forall sid :: PolicyFor(call.cfg, sid).Some? ==> UsageInvariant(call, w, s', sid)
  {
    forall sid | PolicyFor(call.cfg, sid).Some? ensures UsageInvariant(call, w, s', sid) {
      assert UsageInvariant(call, w, s, sid);
      HoldingsUpdate(call, w, s.phases, i, s'.phases[i], sid);
    }
  }

  lemma PassKeeps<R>(call: Call<R>, w: World, s: State<R>, d: nat)
    requires SoundConfig(call.cfg) && SameWindows(call.cfg, w.now, s.world.now + d)
    requires |s.phases| == |s.slots| == |call.sources| && PlayInvariant(call, w, s)
    ensures PlayInvariant(call, w, StepEvent(call, s, Pass(d)))
  {
    var s' := StepEvent(call, s, Pass(d));
    TickKeeps(call.cfg, s.world, d);
    forall sid | PolicyFor(call.cfg, sid).Some? ensures UsageInvariant(call, w, s', sid) {
      assert UsageInvariant(call, w, s, sid);
      WindowsApart(w.now, s.world.now, PolicyFor(call.cfg, sid).value.window);
      WindowsApart(s.world.now, s.world.now + d, PolicyFor(call.cfg, sid).value.window);
      TickUsage(call.cfg, s.world, d, sid);
    }
    forall k | 0 <= k < |call.sources| ensures WorkerInvariant(call, w, s', k) {
      assert WorkerInvariant(call, w, s, k);
    }
  }

  lemma {:induction false} ClockAdvances<R>(call: Call<R>, w: World, schedule: seq<Event>)
    ensures w.now <= Play(call, w, schedule).world.now
  {
    hide ReserveUnits, RefundUnits;
    if schedule != [] { ClockAdvances(call, w, schedule[..|schedule| - 1]); }
  }

  lemma {:induction false} PlayKeeps<R>(call: Call<R>, w: World, schedule: seq<Event>)
    requires SoundConfig(call.cfg) && Unanimous(call, w) && Invariant(call.cfg, w)
    requires SameWindows(call.cfg, w.now, Play(call, w, schedule).world.now)
    ensures PlayInvariant(call, w, Play(call, w, schedule))
  {
    hide PlayInvariant, Invariant, Unanimous;
    if schedule != [] {
      var before := schedule[..|schedule| - 1];
      ClockAdvances(call, w, before);
      forall sid | PolicyFor(call.cfg, sid).Some?
        ensures WindowIndex(w.now, PolicyFor(call.cfg, sid).value.window) == WindowIndex(Play(call, w, before).world.now, PolicyFor(call.cfg, sid).value.window)
      {
        var window := PolicyFor(call.cfg, sid).value.window;
        WindowsApart(w.now, Play(call, w, before).world.now, window);
        WindowsApart(Play(call, w, before).world.now, Play(call, w, schedule).world.now, window);
      }
      PlayKeeps(call, w, before);
      match schedule[|schedule| - 1]
      case Pass(d) => PassKeeps(call, w, Play(call, w, before), d);
      case Go(i) => if i < |call.sources| { GoKeeps(call, w, Play(call, w, before), i); }
    } else {
      InitiallyHolds(call, w);
    }
  }

  lemma InitiallyHolds<R>(call: Call<R>, w: World)
    requires SoundConfig(call.cfg) && Invariant(call.cfg, w)
    ensures PlayInvariant(call, w, Initially(call, w))
  {
    var s := Initially(call, w);
    forall sid | PolicyFor(call.cfg, sid).Some? ensures UsageInvariant(call, w, s, sid) {
      assert Holdings(call, w, s.phases) == Zeros(|call.sources|);
      SumZeros(call.sources, sid);
    }
  }

  // ---- the result of every interleaving -----------------------------------

  /** Cost of goroutine i: one unit for a successful fetch of a metered source, else none. */
  function NetCost<R>(call: Call<R>, w: World, i: nat): nat
    requires i < |call.sources|
  {
    if Metered(call, call.sources[i]) && FinalSlot(call, w, i).Ok? then 1 else 0
  }

  function NetCosts<R>(call: Call<R>, w: World): (xs: seq<nat>)
    ensures |xs| == |call.sources|
  {
    seq(|call.sources|, i requires 0 <= i < |call.sources| => NetCost(call, w, i))
  }

  /** Every interleaving within one window ends alike: slot i holds source i's answer or
      its denial, a denied source is never fetched and an admitted one once, and a
      successful fetch costs one unit while a failed or denied one costs nothing. */
  lemma EveryInterleaving<R>(call: Call<R>, w: World, schedule: seq<Event>)
    requires SoundConfig(call.cfg) && Unanimous(call, w) && Invariant(call.cfg, w)
    requires SameWindows(call.cfg, w.now, Play(call, w, schedule).world.now)
    requires Complete(Play(call, w, schedule))
    ensures var s := Play(call, w, schedule);
      && (forall i :: 0 <= i < |call.sources| ==>
            && s.slots[i] == Some(FinalSlot(call, w, i))
            && s.fetches[i] == if Admitted(call, w, i) then 1 else 0)
      && (forall sid :: PolicyFor(call.cfg, sid).Some? ==>
            Usage(call.cfg, s.world, sid) == Usage(call.cfg, w, sid) + SumAt(call.sources, sid, NetCosts(call, w)))
  {
    hide Unanimous, Play;
    var s := Play(call, w, schedule);
    PlayKeeps(call, w, schedule);
    forall i | 0 <= i < |call.sources|
      ensures s.slots[i] == Some(FinalSlot(call, w, i)) && s.fetches[i] == if Admitted(call, w, i) then 1 else 0
    {
      assert WorkerInvariant(call, w, s, i);
    }
    forall sid | PolicyFor(call.cfg, sid).Some?
      ensures Usage(call.cfg, s.world, sid) == Usage(call.cfg, w, sid) + SumAt(call.sources, sid, NetCosts(call, w))
    {
      assert UsageInvariant(call, w, s, sid);
      CostsAreHoldings(call, w, s, sid);
    }
  }

  /** At the end what the goroutines of a source hold is what they cost. */
  lemma CostsAreHoldings<R>(call: Call<R>, w: World, s: State<R>, sid: string)
    requires |s.phases| == |call.sources| && Complete(s) && PolicyFor(call.cfg, sid).Some?
    ensures SumAt(call.sources, sid, NetCosts(call, w)) ==
      if Metered(call, sid) then SumAt(call.sources, sid, Holdings(call, w, s.phases)) else 0
  {
    var h, c, z := Holdings(call, w, s.phases), NetCosts(call, w), Zeros(|call.sources|);
    if Metered(call, sid) {
      SumMonotone(call.sources, sid, h, c);
      SumMonotone(call.sources, sid, c, h);
    } else {
      SumMonotone(call.sources, sid, c, z);
      SumZeros(call.sources, sid);
    }
  }

  lemma {:induction false} SumAtOnly(sources: seq<string>, i: nat, xs: seq<nat>)
    requires Distinct(sources) && |xs| == |sources| && i < |sources|
    ensures SumAt(sources, sources[i], xs) == xs[i]
  {
    var n := |sources| - 1;
    if i < n {
      SumAtOnly(sources[..n], i, xs[..n]);
    } else {
      assert sources[n] !in sources[..n];
      SumMonotone(sources[..n], sources[n], xs[..n], Zeros(n));
      SumZeros(sources[..n], sources[n]);
    }
  }

  /** For distinct ids, the usual case: each source pays for its own fetch only. */
  lemma OneUnitEach<R>(call: Call<R>, w: World, schedule: seq<Event>, i: nat)
    requires SoundConfig(call.cfg) && Distinct(call.sources) && Invariant(call.cfg, w)
    requires SameWindows(call.cfg, w.now, Play(call, w, schedule).world.now)
    requires Complete(Play(call, w, schedule)) && i < |call.sources|
    ensures var s := Play(call, w, schedule);
      && s.slots[i] == Some(FinalSlot(call, w, i))
      && (PolicyFor(call.cfg, call.sources[i]).Some? ==>
            Usage(call.cfg, s.world, call.sources[i]) == Usage(call.cfg, w, call.sources[i]) + NetCost(call, w, i))
  {
    DistinctUnanimous(call, w);
    EveryInterleaving(call, w, schedule);
    SumAtOnly(call.sources, i, NetCosts(call, w));
  }

  /** In particular the slots and counters are those of any other run, such as the
      sequential one. */
  lemma InterleavingsAgree<R>(call: Call<R>, w: World, one: seq<Event>, two: seq<Event>)
    requires SoundConfig(call.cfg) && Unanimous(call, w) && Invariant(call.cfg, w)
    requires SameWindows(call.cfg, w.now, Play(call, w, one).world.now) && Complete(Play(call, w, one))
    requires SameWindows(call.cfg, w.now, Play(call, w, two).world.now) && Complete(Play(call, w, two))
    ensures Play(call, w, one).slots == Play(call, w, two).slots
    ensures forall sid :: PolicyFor(call.cfg, sid).Some? ==>
      Usage(call.cfg, Play(call, w, one).world, sid) == Usage(call.cfg, Play(call, w, two).world, sid)
  {
    EveryInterleaving(call, w, one);
    EveryInterleaving(call, w, two);
  }

  // ---- completion ---------------------------------------------------------

  function Turns(schedule: seq<Event>, i: nat): nat {
    if schedule == [] then 0
    else Turns(schedule[..|schedule| - 1], i) + if schedule[|schedule| - 1] == Go(i) then 1 else 0
  }

  function Remaining<R>(p: Phase<R>): nat {
    match p
    case Start => 4
    case Fetching => 3
    case Refunding(_) => 2
    case Writing(_) => 1
    case Done => 0
  }

  lemma {:induction false} TurnsAdvance<R>(call: Call<R>, w: World, schedule: seq<Event>, i: nat)
    requires i < |call.sources|
    ensures Remaining(Play(call, w, schedule).phases[i]) + Turns(schedule, i) <= 4 || Play(call, w, schedule).phases[i].Done?
  {
    if schedule != [] { TurnsAdvance(call, w, schedule[..|schedule| - 1], i); }
  }

  /** No goroutine waits for another: four turns each, in any order, finish the call. */
  lemma FourTurnsComplete<R>(call: Call<R>, w: World, schedule: seq<Event>)
    requires forall i :: 0 <= i < |call.sources| ==> Turns(schedule, i) >= 4
    ensures Complete(Play(call, w, schedule))
  {
    forall i | 0 <= i < |call.sources| ensures Play(call, w, schedule).phases[i].Done? {
      TurnsAdvance(call, w, schedule, i);
    }
  }

  /** The sequential left-to-right run over the first n sources. */
  function Sequential(n: nat): seq<Event> {
    if n == 0 then [] else Sequential(n - 1) + [Go(n - 1), Go(n - 1), Go(n - 1), Go(n - 1)]
  }

  lemma TurnsSnoc(schedule: seq<Event>, e: Event, i: nat)
    ensures Turns(schedule + [e], i) == Turns(schedule, i) + if e == Go(i) then 1 else 0
  {
    assert (schedule + [e])[..|schedule|] == schedule;
  }

  lemma {:induction false} SequentialTurns(n: nat, i: nat)
    requires i < n
    ensures Turns(Sequential(n), i) >= 4
  {
    hide Turns;
    var s, g := Sequential(n - 1), Go(n - 1);
    if i < n - 1 { SequentialTurns(n - 1, i); }
    TurnsSnoc(s, g, i);
    TurnsSnoc(s + [g], g, i);
    TurnsSnoc(s + [g] + [g], g, i);
    TurnsSnoc(s + [g] + [g] + [g], g, i);
    assert Sequential(n) == s + [g] + [g] + [g] + [g];
  }

  lemma {:induction false} SequentialNoTick<R>(call: Call<R>, w: World, schedule: seq<Event>)
    requires forall e :: e in schedule ==> e.Go?
    ensures Play(call, w, schedule).world.now == w.now
  {
    if schedule != [] { SequentialNoTick(call, w, schedule[..|schedule| - 1]); }
  }

  lemma {:induction false} SequentialOnlyGoes(n: nat)
    ensures forall e :: e in Sequential(n) ==> e.Go?
  {
    if n > 0 { SequentialOnlyGoes(n - 1); }
  }

  /** Every complete interleaving within one window equals the sequential run. */
  lemma EqualsSequential<R>(call: Call<R>, w: World, schedule: seq<Event>)
    requires SoundConfig(call.cfg) && Unanimous(call, w) && Invariant(call.cfg, w)
    requires SameWindows(call.cfg, w.now, Play(call, w, schedule).world.now) && Complete(Play(call, w, schedule))
    ensures var sequential := Play(call, w, Sequential(|call.sources|));
      && Complete(sequential)
      && Play(call, w, schedule).slots == sequential.slots
      && forall sid :: PolicyFor(call.cfg, sid).Some? ==>
           Usage(call.cfg, Play(call, w, schedule).world, sid) == Usage(call.cfg, sequential.world, sid)
  {
    var n := |call.sources|;
    forall i | 0 <= i < n ensures Turns(Sequential(n), i) >= 4 { SequentialTurns(n, i); }
    FourTurnsComplete(call, w, Sequential(n));
    SequentialOnlyGoes(n);
    SequentialNoTick(call, w, Sequential(n));
    InterleavingsAgree(call, w, schedule, Sequential(n));
  }

  // ---- without a budget ---------------------------------------------------

  /** Where goroutine i of an unbudgeted call stands. */
  ghost predicate Unbudgeted<R>(call: Call<R>, w: World, s: State<R>, i: nat)
    requires i < |call.sources| == |s.phases| == |s.slots|
  {
    && s.world.store == w.store && s.world.ledger == w.ledger
    && (s.slots[i].Some? <==> s.phases[i].Done?)
    && (s.slots[i].Some? ==> s.slots[i].value == call.fetch(i))
    && !s.phases[i].Refunding?
    && (s.phases[i].Writing? ==> s.phases[i].slot == call.fetch(i))
  }

  lemma {:induction false} UnbudgetedPlay<R>(call: Call<R>, w: World, schedule: seq<Event>, i: nat)
    requires !call.budgeted && i < |call.sources|
    ensures Unbudgeted(call, w, Play(call, w, schedule), i)
  {
    if schedule != [] {
      var n := |schedule| - 1;
      UnbudgetedPlay(call, w, schedule[..n], i);
      if schedule[n].Go? && schedule[n].i < |call.sources| {
        UnbudgetedPlay(call, w, schedule[..n], schedule[n].i);
      }
    }
  }

  /** Without a budget every interleaving fills slot i with source i's answer, whatever
      the ids, and leaves every counter alone. */
  lemma UnbudgetedInterleaving<R>(call: Call<R>, w: World, schedule: seq<Event>, i: nat)
    requires !call.budgeted && i < |call.sources| && Complete(Play(call, w, schedule))
    ensures Play(call, w, schedule).slots[i] == Some(call.fetch(i))
    ensures Play(call, w, schedule).world.store == w.store
  {
    UnbudgetedPlay(call, w, schedule, i);
    assert Play(call, w, schedule).phases[i].Done?;
  }
}
