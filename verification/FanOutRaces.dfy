/** When the order of the goroutines shows (fanOutFetch of internal/application/execute_run.go).

FanOut proves that interleavings agree when every metered source has room for all its
goroutines or for none. Here is the other half: if some source has room for a part of
them only, and its fetches succeed, two schedules give one slot different results. */
module FanOutRaces {
  import opened Prelude
  import opened Budget
  import opened BudgetProtocol
  import opened FanOut

  // ---- a decided goroutine ------------------------------------------------

  /** Goroutine i can only end with slot r. */
  ghost predicate Decided<R>(call: Call<R>, s: State<R>, i: nat, r: Result<R>)
    requires i < |call.sources| == |s.phases| == |s.slots|
  {
    match s.phases[i]
    case Start => false
    case Fetching => call.fetch(i) == r
    case Refunding(e) => r == Err(e)
    case Writing(slot) => slot == r
    case Done => s.slots[i] == Some(r)
  }

  lemma {:induction false} DecidedStays<R>(call: Call<R>, w: World, before: seq<Event>, rest: seq<Event>, i: nat, r: Result<R>)
    requires i < |call.sources| && Decided(call, Play(call, w, before), i, r)
    ensures Decided(call, Play(call, w, before + rest), i, r)
  {
    if rest == [] {
      assert before + rest == before;
    } else {
      var n := |rest| - 1;
      DecidedStays(call, w, before, rest[..n], i, r);
      assert (before + rest)[..|before + rest| - 1] == before + rest[..n];
      DecidedStep(call, Play(call, w, before + rest[..n]), rest[n], i, r);
    }
  }

  lemma DecidedStep<R>(call: Call<R>, s: State<R>, e: Event, i: nat, r: Result<R>)
    requires i < |call.sources| == |s.phases| == |s.slots| && Decided(call, s, i, r)
    ensures Decided(call, StepEvent(call, s, e), i, r)
  {
  }

  lemma {:induction false} TurnsAdd(one: seq<Event>, two: seq<Event>, i: nat)
    ensures Turns(one + two, i) == Turns(one, i) + Turns(two, i)
  {
    if two == [] {
      assert one + two == one;
    } else {
      var n := |two| - 1;
      assert (one + two)[..|one + two| - 1] == one + two[..n];
      TurnsAdd(one, two[..n], i);
    }
  }

  /** Finishing a decided goroutine, by any schedule that completes. */
  lemma DecidedSlot<R>(call: Call<R>, w: World, before: seq<Event>, i: nat, r: Result<R>)
    requires i < |call.sources| && Decided(call, Play(call, w, before), i, r)
    ensures var s := Play(call, w, before + Sequential(|call.sources|));
      Complete(s) && s.slots[i] == Some(r)
  {
    var n := |call.sources|;
    forall k | 0 <= k < n ensures Turns(before + Sequential(n), k) >= 4 {
      SequentialTurns(n, k);
      TurnsAdd(before, Sequential(n), k);
    }
    FourTurnsComplete(call, w, before + Sequential(n));
    DecidedStays(call, w, before, Sequential(n), i, r);
  }

  // ---- goroutine i first --------------------------------------------------

  lemma GoingFirst<R>(call: Call<R>, w: World, i: nat)
    requires SoundConfig(call.cfg) && Invariant(call.cfg, w) && i < |call.sources| && Metered(call, call.sources[i])
    requires Usage(call.cfg, w, call.sources[i]) + 1 <= PolicyFor(call.cfg, call.sources[i]).value.limit
    ensures Decided(call, Play(call, w, [Go(i)]), i, call.fetch(i))
  {
    var e: seq<Event> := [Go(i)];
    assert e[..0] == [];
    assert Play(call, w, e) == StepEvent(call, Initially(call, w), Go(i));
    GrantedExactly(call.cfg, w, call.sources[i], 1);
  }

  // ---- goroutine i last ---------------------------------------------------

  /** Every goroutine but i in turn, four turns each. */
  function Others(n: nat, i: nat): seq<Event> {
    if n == 0 then []
    else Others(n - 1, i) + if n - 1 == i then [] else [Go(n - 1)] + [Go(n - 1)] + [Go(n - 1)] + [Go(n - 1)]
  }

  lemma {:induction false} OthersTurns(n: nat, i: nat, k: nat)
    ensures k < n && k != i ==> Turns(Others(n, i), k) >= 4
    ensures k == i || k >= n ==> Turns(Others(n, i), k) == 0
    ensures forall e :: e in Others(n, i) ==> e.Go?
  {
    hide Turns;
    if n == 0 {
      NoTurns(k);
    } else {
      OthersTurns(n - 1, i, k);
      var s, g := Others(n - 1, i), Go(n - 1);
      if n - 1 == i {
        assert Others(n, i) == s;
      } else {
        TurnsSnoc(s, g, k);
        TurnsSnoc(s + [g], g, k);
        TurnsSnoc(s + [g] + [g], g, k);
        TurnsSnoc(s + [g] + [g] + [g], g, k);
        assert Others(n, i) == s + [g] + [g] + [g] + [g];
      }
    }
  }

  lemma NoTurns(k: nat)
    ensures Turns([], k) == 0
  {
  }

  predicate Won<R>(s: State<R>, i: nat)
    requires i < |s.phases| == |s.slots|
  {
    match s.phases[i]
    case Fetching => true
    case Writing(slot) => slot.Ok?
    case Done => s.slots[i].Some? && s.slots[i].value.Ok?
    case _ => false
  }

  function Wins<R>(s: State<R>): (xs: seq<nat>)
    requires |s.phases| == |s.slots|
    ensures |xs| == |s.phases|
  {
    seq(|s.phases|, i requires 0 <= i < |s.phases| => if Won(s, i) then 1 else 0)
  }

  /** All fetches of a source succeed. */
  ghost predicate AllFetch<R>(call: Call<R>, sid: string) {
    forall i :: 0 <= i < |call.sources| && call.sources[i] == sid ==> call.fetch(i).Ok?
  }

  /** Without failures the counter of a source counts its winners, and a loser has seen it full. */
  ghost predicate Race<R>(call: Call<R>, w: World, s: State<R>, sid: string)
    requires SoundConfig(call.cfg) && |s.phases| == |s.slots| == |call.sources| && PolicyFor(call.cfg, sid).Some?
  {
    && Invariant(call.cfg, s.world)
    && Usage(call.cfg, s.world, sid) == Usage(call.cfg, w, sid) + SumAt(call.sources, sid, Wins(s))
    && forall i :: 0 <= i < |call.sources| ==> Runner(call, s, sid, i)
  }

  ghost predicate Runner<R>(call: Call<R>, s: State<R>, sid: string, i: nat)
    requires i < |call.sources| == |s.phases| == |s.slots| && PolicyFor(call.cfg, sid).Some?
  {
    && (s.slots[i].Some? <==> s.phases[i].Done?)
    && (call.sources[i] == sid && !Won(s, i) && !s.phases[i].Start? ==>
          !s.phases[i].Refunding? && Usage(call.cfg, s.world, sid) >= PolicyFor(call.cfg, sid).value.limit)
  }

  lemma WinsUpdate<R>(call: Call<R>, s: State<R>, s': State<R>, i: nat, sid: string)
    requires |s.phases| == |s.slots| == |call.sources| == |s'.phases| == |s'.slots| && i < |s.phases|
    requires forall k :: 0 <= k < |s.phases| && k != i ==> s'.phases[k] == s.phases[k] && s'.slots[k] == s.slots[k]
    ensures SumAt(call.sources, sid, Wins(s')) == SumAt(call.sources, sid, Wins(s))
      + if call.sources[i] == sid then (if Won(s', i) then 1 else 0) - (if Won(s, i) then 1 else 0) else 0
  {
    assert Wins(s') == Wins(s)[i := if Won(s', i) then 1 else 0];
    SumUpdate(call.sources, sid, Wins(s), i, if Won(s', i) then 1 else 0);
  }

  lemma RaceStep<R>(call: Call<R>, w: World, s: State<R>, i: nat, sid: string)
    requires SoundConfig(call.cfg) && |s.phases| == |s.slots| == |call.sources| && i < |call.sources|
    requires Metered(call, sid) && AllFetch(call, sid) && Race(call, w, s, sid)
    ensures Race(call, w, StepGo(call, s, i), sid)
  {
    hide Invariant, Usage, StepGo, Runner, Won;
    var s' := StepGo(call, s, i);
    OnlyOwnMoves(call, s, i);
    WinsUpdate(call, s, s', i, sid);
    RaceUsage(call, s, i, sid);
    WinnersStay(call, s, i, sid);
    forall k | 0 <= k < |call.sources| ensures Runner(call, s', sid, k) {
      RunnerStep(call, s, i, sid, k);
    }
  }

  lemma OnlyOwnMoves<R>(call: Call<R>, s: State<R>, i: nat)
    requires |s.phases| == |s.slots| == |call.sources| && i < |call.sources|
    ensures var s' := StepGo(call, s, i);
      && |s'.phases| == |s'.slots| == |call.sources|
      && forall k :: 0 <= k < |s.phases| && k != i ==> s'.phases[k] == s.phases[k] && s'.slots[k] == s.slots[k]
  {
    hide Step, ReplyTo;
  }

  lemma WinnersStay<R>(call: Call<R>, s: State<R>, i: nat, sid: string)
    requires |s.phases| == |s.slots| == |call.sources| && i < |call.sources| && PolicyFor(call.cfg, sid).Some?
    requires AllFetch(call, sid) && Runner(call, s, sid, i)
    ensures call.sources[i] == sid && Won(s, i) ==> Won(StepGo(call, s, i), i)
  {
    hide Step, ReplyTo, Usage;
  }

  lemma RunnerStep<R>(call: Call<R>, s: State<R>, i: nat, sid: string, k: nat)
    requires SoundConfig(call.cfg) && |s.phases| == |s.slots| == |call.sources| && i < |call.sources| && k < |call.sources|
    requires Metered(call, sid) && AllFetch(call, sid) && Invariant(call.cfg, s.world)
    requires Runner(call, s, sid, i) && Runner(call, s, sid, k)
    ensures Runner(call, StepGo(call, s, i), sid, k)
  {
    hide Invariant, Usage;
    RaceUsage(call, s, i, sid);
    if k == i {
      hide Step;
    } else {
      OnlyOwnMoves(call, s, i);
    }
  }

  /** A step of a goroutine raises the usage of its source by one when it wins, and leaves
      the usage alone otherwise. */
  lemma RaceUsage<R>(call: Call<R>, s: State<R>, i: nat, sid: string)
    requires SoundConfig(call.cfg) && |s.phases| == |s.slots| == |call.sources| && i < |call.sources|
    requires Metered(call, sid) && AllFetch(call, sid) && Invariant(call.cfg, s.world) && Runner(call, s, sid, i)
    ensures var s', usage := StepGo(call, s, i), Usage(call.cfg, s.world, sid);
      var wins := call.sources[i] == sid && !Won(s, i) && Won(s', i);
      && Invariant(call.cfg, s'.world)
      && Usage(call.cfg, s'.world, sid) == usage + (if wins then 1 else 0)
      && (wins <==> call.sources[i] == sid && s.phases[i].Start? && usage + 1 <= PolicyFor(call.cfg, sid).value.limit)
  {
    hide Invariant;
    var own := call.sources[i];
    match s.phases[i]
    case Start =>
      StepKeeps(call.cfg, s.world, ReserveOp(own, 1));
      StepUsage(call.cfg, s.world, ReserveOp(own, 1), sid);
      if own == sid { GrantedExactly(call.cfg, s.world, sid, 1); }
    case Refunding(e) =>
      StepKeeps(call.cfg, s.world, RefundOp(own, 1));
      StepUsage(call.cfg, s.world, RefundOp(own, 1), sid);
    case _ =>
  }

  lemma {:induction false} RaceHolds<R>(call: Call<R>, w: World, schedule: seq<Event>, sid: string)
    requires SoundConfig(call.cfg) && Invariant(call.cfg, w)
    requires Metered(call, sid) && AllFetch(call, sid) && forall e :: e in schedule ==> e.Go?
    ensures Race(call, w, Play(call, w, schedule), sid)
  {
    hide Invariant;
    if schedule == [] {
      assert Wins(Initially(call, w)) == Zeros(|call.sources|);
      SumZeros(call.sources, sid);
    } else {
      var n := |schedule| - 1;
      assert schedule[n] in schedule;
      RaceHolds(call, w, schedule[..n], sid);
      var e := schedule[n];
      if e.i < |call.sources| { RaceStep(call, w, Play(call, w, schedule[..n]), e.i, sid); }
    }
  }

  /** Without a turn a goroutine does not start. */
  lemma {:induction false} NotStarted<R>(call: Call<R>, w: World, schedule: seq<Event>, i: nat)
    requires i < |call.sources| && Turns(schedule, i) == 0
    ensures Play(call, w, schedule).phases[i].Start?
  {
    if schedule != [] { NotStarted(call, w, schedule[..|schedule| - 1], i); }
  }

  /** When all others have gone, a source without room for all is full. */
  lemma FullForTheLast<R>(call: Call<R>, w: World, i: nat)
    requires SoundConfig(call.cfg) && Invariant(call.cfg, w) && i < |call.sources|
    requires Metered(call, call.sources[i]) && AllFetch(call, call.sources[i])
    requires Usage(call.cfg, w, call.sources[i]) + Listed(call.sources, call.sources[i]) > PolicyFor(call.cfg, call.sources[i]).value.limit
    ensures var s := Play(call, w, Others(|call.sources|, i));
      && s.phases[i].Start? && Invariant(call.cfg, s.world)
      && Usage(call.cfg, s.world, call.sources[i]) >= PolicyFor(call.cfg, call.sources[i]).value.limit
  {
    hide Invariant, Play, Usage;
    var n, sid := |call.sources|, call.sources[i];
    var schedule := Others(n, i);
    var s := Play(call, w, schedule);
    OthersTurns(n, i, i);
    NotStarted(call, w, schedule, i);
    RaceHolds(call, w, schedule, sid);
    if Usage(call.cfg, s.world, sid) < PolicyFor(call.cfg, sid).value.limit {
      forall k | 0 <= k < n && call.sources[k] == sid ensures Ones(n)[i := 0][k] <= Wins(s)[k] {
        if k != i {
          OthersTurns(n, i, k);
          TurnsAdvance(call, w, schedule, k);
          assert Runner(call, s, sid, k);
        }
      }
      SumMonotone(call.sources, sid, Ones(n)[i := 0], Wins(s));
      SumUpdate(call.sources, sid, Ones(n), i, 0);
    }
  }

  lemma GoingLast<R>(call: Call<R>, w: World, i: nat)
    requires SoundConfig(call.cfg) && Invariant(call.cfg, w) && i < |call.sources|
    requires Metered(call, call.sources[i]) && AllFetch(call, call.sources[i])
    requires Usage(call.cfg, w, call.sources[i]) + Listed(call.sources, call.sources[i]) > PolicyFor(call.cfg, call.sources[i]).value.limit
    ensures Decided(call, Play(call, w, Others(|call.sources|, i) + [Go(i)]), i, Err(ReserveError(Exhausted)))
  {
    hide Invariant, KeyAt;
    var others := Others(|call.sources|, i);
    FullForTheLast(call, w, i);
    assert (others + [Go(i)])[..|others + [Go(i)]| - 1] == others;
    GrantedExactly(call.cfg, Play(call, w, others).world, call.sources[i], 1);
  }

  // ---- the exact condition ------------------------------------------------

  /** No tick passes. */
  ghost predicate Tickless(schedule: seq<Event>) { forall e :: e in schedule ==> e.Go? }

  /** All complete schedules within one instant fill the slots alike. */
  ghost predicate SchedulesAgree<R>(call: Call<R>, w: World) {
    forall one, two :: Tickless(one) && Tickless(two) && Complete(Play(call, w, one)) && Complete(Play(call, w, two)) ==>
      Play(call, w, one).slots == Play(call, w, two).slots
  }

  /** A source with room for some of its goroutines only: the schedule decides which slot is denied. */
  lemma DuplicateSourcesRace<R>(call: Call<R>, w: World, i: nat)
    requires SoundConfig(call.cfg) && Invariant(call.cfg, w) && i < |call.sources|
    requires Metered(call, call.sources[i]) && AllFetch(call, call.sources[i]) && !RoomForAllOrNone(call, w, call.sources[i])
    ensures var n := |call.sources|;
      var first, last := Play(call, w, [Go(i)] + Sequential(n)), Play(call, w, Others(n, i) + [Go(i)] + Sequential(n));
      && Complete(first) && first.slots[i] == Some(call.fetch(i))
      && Complete(last) && last.slots[i] == Some(Err(ReserveError(Exhausted)))
  {
    GoingFirst(call, w, i);
    DecidedSlot(call, w, [Go(i)], i, call.fetch(i));
    GoingLast(call, w, i);
    DecidedSlot(call, w, Others(|call.sources|, i) + [Go(i)], i, Err(ReserveError(Exhausted)));
  }

  /** When all fetches succeed, the schedules agree exactly when every metered source has
      room for all its goroutines or for none. */
  lemma SchedulesAgreeExactly<R>(call: Call<R>, w: World)
    requires SoundConfig(call.cfg) && Invariant(call.cfg, w)
    requires forall i :: 0 <= i < |call.sources| ==> call.fetch(i).Ok?
    ensures SchedulesAgree(call, w) <==> Unanimous(call, w)
  {
    hide Invariant, RoomForAllOrNone, Play, Complete;
    if Unanimous(call, w) {
      forall one, two | Tickless(one) && Tickless(two) && Complete(Play(call, w, one)) && Complete(Play(call, w, two))
        ensures Play(call, w, one).slots == Play(call, w, two).slots
      {
        SequentialNoTick(call, w, one);
        SequentialNoTick(call, w, two);
        InterleavingsAgree(call, w, one, two);
      }
    } else {
      var sid :| Metered(call, sid) && !RoomForAllOrNone(call, w, sid);
      var i := SomeListed(call, w, sid);
      DuplicateSourcesRace(call, w, i);
      var n := |call.sources|;
      OthersTurns(n, i, i);
      SequentialOnlyGoes(n);
      assert Tickless([Go(i)] + Sequential(n)) && Tickless(Others(n, i) + [Go(i)] + Sequential(n));
    }
  }

  lemma SomeListed<R>(call: Call<R>, w: World, sid: string) returns (i: nat)
    requires Metered(call, sid) && !RoomForAllOrNone(call, w, sid)
    ensures i < |call.sources| && call.sources[i] == sid
  {
    if sid !in call.sources {
      SumMonotone(call.sources, sid, Ones(|call.sources|), Zeros(|call.sources|));
      SumZeros(call.sources, sid);
    }
    i :| 0 <= i < |call.sources| && call.sources[i] == sid;
  }
}
