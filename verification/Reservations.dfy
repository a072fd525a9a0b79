/** Refunds by the reservation they give back.

The budget's Refund carries a source and a number of units, and no reservation. Here
every reservation is numbered and every refund says which one its caller gives back, so
that a refund in the window of its own reservation can be told from one that comes late
or that answers no reservation. The code sees only the plain operation. */
module Reservations {
  import opened Prelude
  import opened Budget
  import opened BudgetProtocol

  /** A reservation: the window key it was granted under, and whether its units are out. */
  datatype Reservation = Reservation(sid: string, n: int, key: string, out: bool)

  datatype Call = Take(sid: string, n: int) | GiveBack(sid: string, n: int, of: nat) | Pass(d: nat)

  /** A world, all reservations so far, and the units given back per key in their own window. */
  datatype Traced = Traced(world: World, log: seq<Reservation>, own: map<string, nat>)

  function Plain(c: Call): Op {
    match c
    case Take(sid, n) => ReserveOp(sid, n)
    case GiveBack(sid, n, _) => RefundOp(sid, n)
    case Pass(d) => Tick(d)
  }

  function OwnOf(s: Traced, key: string): nat { if key in s.own then s.own[key] else 0 }

  /** The refund gives back a reservation that is out, whole, in the window that granted it. */
  predicate Owns(cfg: Config, s: Traced, c: Call) {
    && c.GiveBack? && Charged(cfg, c.sid, c.n) && c.of < |s.log|
    && s.log[c.of] == Reservation(c.sid, c.n, CurrentKey(cfg, s.world, c.sid), true)
  }

  function Next(cfg: Config, s: Traced, c: Call): Traced {
    var world := Step(cfg, s.world, Plain(c));
    match c
    case Pass(_) => s.(world := world)
    case Take(sid, n) =>
      if Charged(cfg, sid, n) && ReplyTo(cfg, s.world, sid, n) == Granted then
        Traced(world, s.log + [Reservation(sid, n, CurrentKey(cfg, s.world, sid), true)], s.own)
      else Traced(world, s.log + [Reservation(sid, n, "", false)], s.own)
    case GiveBack(sid, n, of) =>
      if Owns(cfg, s, c) then
        var key := CurrentKey(cfg, s.world, sid);
        Traced(world, s.log[of := s.log[of].(out := false)], s.own[key := OwnOf(s, key) + n])
      else s.(world := world)
  }

  function Start(now: nat): Traced { Traced(Initial(now), [], map[]) }

  function Trace(cfg: Config, s: Traced, calls: seq<Call>): Traced {
    if calls == [] then s else Next(cfg, Trace(cfg, s, calls[..|calls| - 1]), calls[|calls| - 1])
  }

  lemma TraceSnoc(cfg: Config, s: Traced, calls: seq<Call>, c: Call)
    ensures Trace(cfg, s, calls + [c]) == Next(cfg, Trace(cfg, s, calls), c)
  {
    assert (calls + [c])[..|calls + [c]| - 1] == calls;
  }

  function Plains(calls: seq<Call>): seq<Op> { seq(|calls|, i requires 0 <= i < |calls| => Plain(calls[i])) }

  /** The store and the clock are those of the plain run. */
  lemma {:induction false} TraceIsRun(cfg: Config, s: Traced, calls: seq<Call>)
    ensures Trace(cfg, s, calls).world == Run(cfg, s.world, Plains(calls))
  {
    if calls != [] {
      TraceIsRun(cfg, s, calls[..|calls| - 1]);
      assert Plains(calls)[..|calls| - 1] == Plains(calls[..|calls| - 1]);
    }
  }

  /** Units granted under a key and not given back in that window. */
  function Held(s: Traced, key: string): int { AccountOf(s.world.ledger, key).granted - OwnOf(s, key) }

  /** Units refunded under a key by refunds of anything else. */
  function Foreign(s: Traced, key: string): int { AccountOf(s.world.ledger, key).refunded - OwnOf(s, key) }

  // ---- the reservations that are out --------------------------------------

  /** The units that the reservations of a key have out. */
  function OutUnits(log: seq<Reservation>, key: string): int {
    if log == [] then 0
    else
      var last := log[|log| - 1];
      OutUnits(log[..|log| - 1], key) + if last.out && last.key == key then last.n else 0
  }

  ghost predicate Positive(log: seq<Reservation>) { forall r :: r in log && r.out ==> r.n > 0 }

  lemma {:induction false} OutCloses(log: seq<Reservation>, i: nat, key: string)
    requires i < |log| && log[i].out
    ensures OutUnits(log[i := log[i].(out := false)], key) == OutUnits(log, key) - if log[i].key == key then log[i].n else 0
  {
    var n := |log| - 1;
    var after := log[i := log[i].(out := false)];
    if i == n {
      assert after[..n] == log[..n];
    } else {
      assert after[..n] == log[..n][i := log[i].(out := false)];
      OutCloses(log[..n], i, key);
    }
  }

  lemma {:induction false} OutAtLeast(log: seq<Reservation>, i: nat)
    requires Positive(log) && i < |log| && log[i].out
    ensures OutUnits(log, log[i].key) >= log[i].n
  {
    var n := |log| - 1;
    assert log[n] in log && log == log[..n] + [log[n]];
    if i < n { OutAtLeast(log[..n], i); } else { OutNonNegative(log[..n], log[i].key); }
  }

  lemma {:induction false} OutNonNegative(log: seq<Reservation>, key: string)
    requires Positive(log)
    ensures OutUnits(log, key) >= 0
  {
    if log != [] {
      var n := |log| - 1;
      assert log[n] in log && log == log[..n] + [log[n]];
      OutNonNegative(log[..n], key);
    }
  }

  /** The log accounts for what is held under every key. */
  ghost predicate Tracks(s: Traced) {
    && Positive(s.log)
    && (forall key :: Held(s, key) == OutUnits(s.log, key))
    && (forall key :: Foreign(s, key) >= 0)
  }

  lemma TakeTracks(cfg: Config, s: Traced, c: Call)
    requires SoundConfig(cfg) && Tracks(s) && c.Take?
    ensures Tracks(Next(cfg, s, c))
  {
    hide ReserveUnits, KeyNow;
    var s' := Next(cfg, s, c);
    assert s'.log[..|s.log|] == s.log && s'.log == s.log + [s'.log[|s.log|]];
    forall key ensures Held(s', key) == OutUnits(s'.log, key) && Foreign(s', key) >= 0 {
      assert Held(s, key) == OutUnits(s.log, key) && Foreign(s, key) >= 0;
    }
  }

  lemma GiveBackTracks(cfg: Config, s: Traced, c: Call)
    requires SoundConfig(cfg) && Tracks(s) && c.GiveBack?
    ensures Tracks(Next(cfg, s, c))
  {
    hide RefundUnits, KeyNow;
    var s' := Next(cfg, s, c);
    if Owns(cfg, s, c) {
      forall r | r in s'.log && r.out ensures r.n > 0 {
        assert s.log[c.of] in s.log;
        assert r in s.log;
      }
    }
    forall key ensures Held(s', key) == OutUnits(s'.log, key) && Foreign(s', key) >= 0 {
      assert Held(s, key) == OutUnits(s.log, key) && Foreign(s, key) >= 0;
      if Owns(cfg, s, c) { OutCloses(s.log, c.of, key); }
    }
  }

  lemma NextTracks(cfg: Config, s: Traced, c: Call)
    requires SoundConfig(cfg) && Tracks(s)
    ensures Tracks(Next(cfg, s, c))
  {
    match c
    case Take(_, _) => TakeTracks(cfg, s, c);
    case GiveBack(_, _, _) => GiveBackTracks(cfg, s, c);
    case Pass(_) =>
      forall key ensures Held(Next(cfg, s, c), key) == Held(s, key) && Foreign(Next(cfg, s, c), key) == Foreign(s, key) { }
  }

  // ---- what is held against what is counted -------------------------------

  /** No counter says more than what is held in its window. */
  ghost predicate Backed(cfg: Config, s: Traced)
    requires SoundConfig(cfg)
  {
    && Invariant(cfg, s.world) && Tracks(s)
    && forall sid :: PolicyFor(cfg, sid).Some? ==> Usage(cfg, s.world, sid) <= Held(s, CurrentKey(cfg, s.world, sid))
  }

  lemma StartBacked(cfg: Config, now: nat)
    requires SoundConfig(cfg)
    ensures Backed(cfg, Start(now))
  {
    InitialInvariant(cfg, now);
  }

  /** How a call moves the counter and the held units of a source, in the same window. */
  lemma HeldStep(cfg: Config, s: Traced, c: Call, sid: string)
    requires SoundConfig(cfg) && Invariant(cfg, s.world) && PolicyFor(cfg, sid).Some? && !c.Pass?
    ensures var s', key := Next(cfg, s, c), CurrentKey(cfg, s.world, sid);
      var mine := c.sid == sid && Charged(cfg, sid, c.n);
      var usage := Usage(cfg, s.world, sid);
      && CurrentKey(cfg, s'.world, sid) == key
      && (match c
          case Take(_, n) =>
            var g := if mine && usage + n <= PolicyFor(cfg, sid).value.limit then n else 0;
            Usage(cfg, s'.world, sid) == usage + g && Held(s', key) == Held(s, key) + g
          case GiveBack(_, n, _) =>
            && Usage(cfg, s'.world, sid) == (if !mine then usage else if n >= usage then 0 else usage - n)
            && Held(s', key) == Held(s, key) - (if mine && Owns(cfg, s, c) then n else 0))
  {
    hide Invariant, KeyAt, RefundUnits;
    StepUsage(cfg, s.world, Plain(c), sid);
    CurrentKeyLive(cfg, s.world, sid);
    if Charged(cfg, c.sid, c.n) {
      if c.sid != sid { SourcesApart(cfg, s.world, sid, c.sid); } else { GrantedExactly(cfg, s.world, sid, c.n); }
    }
  }

  lemma NextBacked(cfg: Config, s: Traced, c: Call)
    requires SoundConfig(cfg) && Backed(cfg, s)
    ensures Backed(cfg, Next(cfg, s, c))
  {
    var s' := Next(cfg, s, c);
    StepKeeps(cfg, s.world, Plain(c));
    NextTracks(cfg, s, c);
    forall sid | PolicyFor(cfg, sid).Some? ensures Usage(cfg, s'.world, sid) <= Held(s', CurrentKey(cfg, s'.world, sid)) {
      var key := CurrentKey(cfg, s.world, sid);
      if c.Pass? {
        PassBacked(cfg, s, c.d, sid);
      } else {
        HeldStep(cfg, s, c, sid);
        if c.GiveBack? && c.sid == sid && Owns(cfg, s, c) { OutAtLeast(s.log, c.of); }
        OutNonNegative(s.log, key);
      }
    }
  }

  /** Time does not touch a window that goes on, and a new window starts empty. */
  lemma PassBacked(cfg: Config, s: Traced, d: nat, sid: string)
    requires SoundConfig(cfg) && Backed(cfg, s) && PolicyFor(cfg, sid).Some?
    ensures var s' := Next(cfg, s, Pass(d));
      var window := PolicyFor(cfg, sid).value.window;
      var key, key' := CurrentKey(cfg, s.world, sid), CurrentKey(cfg, s'.world, sid);
      && (key' == key <==> WindowIndex(s.world.now, window) == WindowIndex(s'.world.now, window))
      && (key' == key ==> Usage(cfg, s'.world, sid) == Usage(cfg, s.world, sid))
      && (key' != key ==> Usage(cfg, s'.world, sid) == 0 == Held(s', key'))
      && Held(s', key) == Held(s, key) && s'.world.now == s.world.now + d
  {
    var s' := Next(cfg, s, Pass(d));
    var window := PolicyFor(cfg, sid).value.window;
    TickKeeps(cfg, s.world, d);
    CurrentKeyLive(cfg, s.world, sid);
    CurrentKeyLive(cfg, s'.world, sid);
    KeySound(cfg, sid, s.world.now, sid, s'.world.now, window);
    WindowsApart(s.world.now, s'.world.now, window);
    assert KeyInvariant(cfg, s.world, sid, s'.world.now);
    var key' := CurrentKey(cfg, s'.world, sid);
    if key' != CurrentKey(cfg, s.world, sid) {
      assert key' !in s.world.ledger;
      assert Foreign(s, key') >= 0;
    }
  }

  lemma {:induction false} TraceBacked(cfg: Config, s: Traced, calls: seq<Call>)
    requires SoundConfig(cfg) && Backed(cfg, s)
    ensures Backed(cfg, Trace(cfg, s, calls))
  {
    if calls != [] {
      TraceBacked(cfg, s, calls[..|calls| - 1]);
      NextBacked(cfg, Trace(cfg, s, calls[..|calls| - 1]), calls[|calls| - 1]);
    }
  }

  /** In every run, what a window has out never exceeds its limit plus the units that
      foreign refunds took off it. */
  lemma HeldStaysInLimits(cfg: Config, start: nat, calls: seq<Call>, sid: string, t: nat)
    requires SoundConfig(cfg) && PolicyFor(cfg, sid).Some?
    ensures var s := Trace(cfg, Start(start), calls);
      var key := KeyAt(cfg, sid, PolicyFor(cfg, sid).value.window, t);
      0 <= Held(s, key) <= PolicyFor(cfg, sid).value.limit + Foreign(s, key)
  {
    var s := Trace(cfg, Start(start), calls);
    var key := KeyAt(cfg, sid, PolicyFor(cfg, sid).value.window, t);
    TraceIsRun(cfg, Start(start), calls);
    RunInvariant(cfg, start, Plains(calls), sid, t);
    StartBacked(cfg, start);
    TraceBacked(cfg, Start(start), calls);
    OutNonNegative(s.log, key);
  }

  // ---- refunds in the window of their own reservation ---------------------

  /** The call is no refund, or one that reaches nothing, or one of its own window. */
  predicate Proper(cfg: Config, s: Traced, c: Call) {
    c.GiveBack? && Charged(cfg, c.sid, c.n) ==> Owns(cfg, s, c)
  }

  ghost predicate AllProper(cfg: Config, s: Traced, calls: seq<Call>) {
    calls == []
    || (AllProper(cfg, s, calls[..|calls| - 1]) && Proper(cfg, Trace(cfg, s, calls[..|calls| - 1]), calls[|calls| - 1]))
  }

  ghost predicate NoneForeign(s: Traced) { forall key :: Foreign(s, key) == 0 }

  lemma {:induction false} ProperKeepsNoneForeign(cfg: Config, s: Traced, calls: seq<Call>)
    requires NoneForeign(s) && AllProper(cfg, s, calls)
    ensures NoneForeign(Trace(cfg, s, calls))
  {
    if calls != [] {
      var before, c := Trace(cfg, s, calls[..|calls| - 1]), calls[|calls| - 1];
      ProperKeepsNoneForeign(cfg, s, calls[..|calls| - 1]);
      forall key ensures Foreign(Next(cfg, before, c), key) == 0 { assert Foreign(before, key) == 0; }
    }
  }

  /** When each refund gives back a different reservation in the window that granted it, the
      counter equals reserved minus refunded at every moment, and the floor loses nothing. */
  lemma OwnRefundsExact(cfg: Config, start: nat, calls: seq<Call>)
    requires SoundConfig(cfg) && AllProper(cfg, Start(start), calls)
    ensures AllCovered(cfg, Initial(start), Plains(calls)) && AlwaysExact(cfg, Initial(start), Plains(calls))
  {
    OwnRefundsCovered(cfg, start, calls);
    InitialInvariant(cfg, start);
    ExactWhenCovered(cfg, Initial(start), Plains(calls));
  }

  lemma {:induction false} OwnRefundsCovered(cfg: Config, start: nat, calls: seq<Call>)
    requires SoundConfig(cfg) && AllProper(cfg, Start(start), calls)
    ensures AllCovered(cfg, Initial(start), Plains(calls))
  {
    if calls != [] {
      var init, c := calls[..|calls| - 1], calls[|calls| - 1];
      OwnRefundsCovered(cfg, start, init);
      assert Plains(calls)[..|calls| - 1] == Plains(init);
      var s := Trace(cfg, Start(start), init);
      TraceIsRun(cfg, Start(start), init);
      StartBacked(cfg, start);
      TraceBacked(cfg, Start(start), init);
      ProperKeepsNoneForeign(cfg, Start(start), init);
      if Owns(cfg, s, c) {
        var key := CurrentKey(cfg, s.world, c.sid);
        OutAtLeast(s.log, c.of);
        assert Foreign(s, key) == 0 && Held(s, key) == OutUnits(s.log, key);
      }
    }
  }

  // ---- when a window can have more out than its limit ----------------------

  /** Proper calls can bring what the current window has out above the limit. */
  ghost predicate CanPass(cfg: Config, s: Traced, sid: string)
    requires PolicyFor(cfg, sid).Some?
  {
    exists calls :: AllProper(cfg, s, calls)
      && Held(Trace(cfg, s, calls), CurrentKey(cfg, s.world, sid)) > PolicyFor(cfg, sid).value.limit
  }

  /** While only proper calls follow, an exact window stays exact, and is left within its limit. */
  lemma {:induction false} ExactStaysWithin(cfg: Config, s: Traced, calls: seq<Call>, sid: string)
    requires SoundConfig(cfg) && Backed(cfg, s) && PolicyFor(cfg, sid).Some? && AllProper(cfg, s, calls)
    requires Held(s, CurrentKey(cfg, s.world, sid)) == Usage(cfg, s.world, sid)
    ensures var r, key := Trace(cfg, s, calls), CurrentKey(cfg, s.world, sid);
      && Held(r, key) <= PolicyFor(cfg, sid).value.limit
      && s.world.now <= r.world.now
      && (CurrentKey(cfg, r.world, sid) == key ==> Held(r, key) == Usage(cfg, r.world, sid))
  {
    var key := CurrentKey(cfg, s.world, sid);
    if calls == [] {
      assert KeyInvariant(cfg, s.world, sid, s.world.now);
      CurrentKeyLive(cfg, s.world, sid);
    } else {
      var init, c := calls[..|calls| - 1], calls[|calls| - 1];
      var before := Trace(cfg, s, init);
      ExactStaysWithin(cfg, s, init, sid);
      TraceBacked(cfg, s, init);
      ExactStep(cfg, s, before, c, sid);
    }
  }

  lemma ExactStep(cfg: Config, s: Traced, before: Traced, c: Call, sid: string)
    requires SoundConfig(cfg) && Backed(cfg, before) && PolicyFor(cfg, sid).Some? && Proper(cfg, before, c)
    requires s.world.now <= before.world.now
    requires var key := CurrentKey(cfg, s.world, sid);
      && Held(before, key) <= PolicyFor(cfg, sid).value.limit
      && (CurrentKey(cfg, before.world, sid) == key ==> Held(before, key) == Usage(cfg, before.world, sid))
    ensures var r, key := Next(cfg, before, c), CurrentKey(cfg, s.world, sid);
      && Held(r, key) <= PolicyFor(cfg, sid).value.limit && before.world.now <= r.world.now
      && (CurrentKey(cfg, r.world, sid) == key ==> Held(r, key) == Usage(cfg, r.world, sid))
  {
    hide Backed, Usage, Held, Next, CurrentKey;
    var key, now := CurrentKey(cfg, s.world, sid), CurrentKey(cfg, before.world, sid);
    if c.Pass? {
      PassBacked(cfg, before, c.d, sid);
      PassHolds(cfg, before, c.d, key);
      SameKeyBetween(cfg, s.world, before.world, Next(cfg, before, c).world, sid);
    } else if now == key {
      ExactOperation(cfg, before, c, sid);
    } else {
      assert key == KeyNow(cfg, sid, s.world.now) by { KeyIsKeyNow(cfg, s.world, sid); }
      ClosedWindow(cfg, before, c, key, sid, s.world.now);
    }
  }

  lemma PassHolds(cfg: Config, s: Traced, d: nat, key: string)
    ensures Held(Next(cfg, s, Pass(d)), key) == Held(s, key)
  {
  }

  lemma KeyIsKeyNow(cfg: Config, w: World, sid: string)
    requires PolicyFor(cfg, sid).Some?
    ensures CurrentKey(cfg, w, sid) == KeyNow(cfg, sid, w.now)
  {
  }

  /** A window that is current at two moments is current in between. */
  lemma SameKeyBetween(cfg: Config, w0: World, w1: World, w2: World, sid: string)
    requires SoundConfig(cfg) && PolicyFor(cfg, sid).Some? && w0.now <= w1.now <= w2.now
    ensures CurrentKey(cfg, w2, sid) == CurrentKey(cfg, w0, sid) ==> CurrentKey(cfg, w1, sid) == CurrentKey(cfg, w0, sid)
  {
    var window := PolicyFor(cfg, sid).value.window;
    KeySound(cfg, sid, w0.now, sid, w1.now, window);
    KeySound(cfg, sid, w0.now, sid, w2.now, window);
    WindowsApart(w0.now, w1.now, window);
    WindowsApart(w1.now, w2.now, window);
  }

  lemma ExactOperation(cfg: Config, s: Traced, c: Call, sid: string)
    requires SoundConfig(cfg) && Backed(cfg, s) && PolicyFor(cfg, sid).Some? && Proper(cfg, s, c) && !c.Pass?
    requires Held(s, CurrentKey(cfg, s.world, sid)) == Usage(cfg, s.world, sid) <= PolicyFor(cfg, sid).value.limit
    ensures var r, key := Next(cfg, s, c), CurrentKey(cfg, s.world, sid);
      && CurrentKey(cfg, r.world, sid) == key && r.world.now == s.world.now
      && Held(r, key) == Usage(cfg, r.world, sid) <= PolicyFor(cfg, sid).value.limit
  {
    HeldStep(cfg, s, c, sid);
    if c.GiveBack? && c.sid == sid && Owns(cfg, s, c) { OutAtLeast(s.log, c.of); }
  }

  /** The account of a key that is not current does not move. */
  lemma ClosedWindow(cfg: Config, s: Traced, c: Call, key: string, sid: string, t: nat)
    requires SoundConfig(cfg) && PolicyFor(cfg, sid).Some? && !c.Pass?
    requires key == KeyNow(cfg, sid, t) && key != CurrentKey(cfg, s.world, sid)
    ensures Next(cfg, s, c).world.now == s.world.now
    ensures Held(Next(cfg, s, c), key) == Held(s, key)
    ensures CurrentKey(cfg, Next(cfg, s, c).world, sid) == CurrentKey(cfg, s.world, sid)
  {
    if Charged(cfg, c.sid, c.n) {
      KeyParts(cfg, sid, t, PolicyFor(cfg, sid).value.window, c.sid, s.world.now, PolicyFor(cfg, c.sid).value.window);
    }
  }

  lemma UsageInLimit(cfg: Config, s: Traced, sid: string)
    requires SoundConfig(cfg) && Backed(cfg, s) && PolicyFor(cfg, sid).Some?
    ensures 0 <= Usage(cfg, s.world, sid) <= PolicyFor(cfg, sid).value.limit
    ensures Usage(cfg, s.world, sid) <= Held(s, CurrentKey(cfg, s.world, sid))
  {
    assert KeyInvariant(cfg, s.world, sid, s.world.now);
    CurrentKeyLive(cfg, s.world, sid);
  }

  lemma FillStep(cfg: Config, s: Traced, sid: string)
    requires SoundConfig(cfg) && Backed(cfg, s) && PolicyFor(cfg, sid).Some? && sid != ""
    requires Usage(cfg, s.world, sid) < PolicyFor(cfg, sid).value.limit
    ensures var room, key := PolicyFor(cfg, sid).value.limit - Usage(cfg, s.world, sid), CurrentKey(cfg, s.world, sid);
      Held(Next(cfg, s, Take(sid, room)), key) == Held(s, key) + room
  {
    hide Next, Invariant, Held;
    HeldStep(cfg, s, Take(sid, PolicyFor(cfg, sid).value.limit - Usage(cfg, s.world, sid)), sid);
  }

  /** Reserving all the room the counter shows brings what is out above the limit. */
  lemma FillingPasses(cfg: Config, s: Traced, sid: string)
    requires SoundConfig(cfg) && Backed(cfg, s) && PolicyFor(cfg, sid).Some? && sid != ""
    requires Usage(cfg, s.world, sid) < Held(s, CurrentKey(cfg, s.world, sid))
    ensures CanPass(cfg, s, sid)
  {
    hide Backed, Next, Invariant, Usage, Held, Proper, Charged;
    UsageInLimit(cfg, s, sid);
    var usage, limit := Usage(cfg, s.world, sid), PolicyFor(cfg, sid).value.limit;
    if usage == limit {
      assert AllProper(cfg, s, []) && Trace(cfg, s, []) == s;
    } else {
      var fill := Take(sid, limit - usage);
      FillStep(cfg, s, sid);
      TraceSnoc(cfg, s, [], fill);
      assert [] + [fill] == [fill];
      OneTakeProper(cfg, s, fill);
    }
  }

  lemma OneTakeProper(cfg: Config, s: Traced, c: Call)
    requires c.Take?
    ensures AllProper(cfg, s, [c])
  {
    assert [c][..0] == [];
    assert AllProper(cfg, s, []) && Proper(cfg, Trace(cfg, s, []), c);
  }

  lemma BackedInvariant(cfg: Config, s: Traced)
    requires SoundConfig(cfg) && Backed(cfg, s)
    ensures Invariant(cfg, s.world)
  {
  }

  /** Exactly when the counter already says less than what is out: then, and only then, can
      further reservations bring the window above its limit. */
  lemma CanPassExactly(cfg: Config, s: Traced, sid: string)
    requires SoundConfig(cfg) && Backed(cfg, s) && PolicyFor(cfg, sid).Some? && sid != ""
    ensures CanPass(cfg, s, sid) <==> Usage(cfg, s.world, sid) < Held(s, CurrentKey(cfg, s.world, sid))
  {
    hide Backed, Held, Usage, AllProper, Trace;
    UsageInLimit(cfg, s, sid);
    var key := CurrentKey(cfg, s.world, sid);
    if Usage(cfg, s.world, sid) < Held(s, key) {
      FillingPasses(cfg, s, sid);
    } else if CanPass(cfg, s, sid) {
      var calls :| AllProper(cfg, s, calls) && Held(Trace(cfg, s, calls), key) > PolicyFor(cfg, sid).value.limit;
      ExactStaysWithin(cfg, s, calls, sid);
    }
  }

  /** A foreign refund opens that gap exactly when the current window counts anything, or
      the gap is there already; an own refund never does. */
  lemma GapOpensExactly(cfg: Config, s: Traced, c: Call)
    requires SoundConfig(cfg) && Backed(cfg, s) && c.GiveBack? && Charged(cfg, c.sid, c.n)
    ensures var s', key := Next(cfg, s, c), CurrentKey(cfg, s.world, c.sid);
      var gap := Usage(cfg, s.world, c.sid) < Held(s, key);
      && (!Owns(cfg, s, c) ==>
            (Usage(cfg, s'.world, c.sid) < Held(s', key) <==> gap || Usage(cfg, s.world, c.sid) > 0))
      && (Owns(cfg, s, c) && !gap ==> Usage(cfg, s'.world, c.sid) == Held(s', key))
  {
    HeldStep(cfg, s, c, c.sid);
    CurrentKeyLive(cfg, s.world, c.sid);
    if Owns(cfg, s, c) { OutAtLeast(s.log, c.of); }
  }

  // ---- refunds that come late ----------------------------------------------

  /** Giving back a reservation of an earlier window lets a full current window grant
      again, and have more out than its limit. */
  lemma LateRefundOvergrants(cfg: Config, s: Traced, sid: string, of: nat)
    requires SoundConfig(cfg) && Backed(cfg, s) && PolicyFor(cfg, sid).Some? && sid != ""
    requires of < |s.log| && s.log[of].sid == sid && s.log[of].out
    requires s.log[of].key != CurrentKey(cfg, s.world, sid)
    requires Usage(cfg, s.world, sid) == PolicyFor(cfg, sid).value.limit >= s.log[of].n
    ensures var n, key, limit := s.log[of].n, CurrentKey(cfg, s.world, sid), PolicyFor(cfg, sid).value.limit;
      var late := Next(cfg, s, GiveBack(sid, n, of));
      && ReplyTo(cfg, s.world, sid, n) == Exhausted
      && ReplyTo(cfg, late.world, sid, n) == Granted
      && Held(Next(cfg, late, Take(sid, n)), key) == Held(s, key) + n > limit
      && Next(cfg, late, Take(sid, n)).own == s.own && Next(cfg, late, Take(sid, n)).world.now == s.world.now
  {
    var n := s.log[of].n;
    assert s.log[of] in s.log;
    var late := Next(cfg, s, GiveBack(sid, n, of));
    GrantedExactly(cfg, s.world, sid, n);
    HeldStep(cfg, s, GiveBack(sid, n, of), sid);
    NextBacked(cfg, s, GiveBack(sid, n, of));
    GrantedExactly(cfg, late.world, sid, n);
    HeldStep(cfg, late, Take(sid, n), sid);
  }

  /** One unit reserved in window A, a full window B, the unit of A given back in B, and one
      more unit reserved. */
  function LateRun(cfg: Config, sid: string): seq<Call>
    requires PolicyFor(cfg, sid).Some?
  {
    var p := PolicyFor(cfg, sid).value;
    [Take(sid, 1)] + [Pass(if p.window >= 0 then p.window else 0)] + [Take(sid, p.limit)] + [GiveBack(sid, 1, 0)] + [Take(sid, 1)]
  }

  /** The run before the late refund: window B is full, and the unit of A is still out. */
  lemma LateRunFills(cfg: Config, sid: string, start: nat)
    requires SoundConfig(cfg) && PolicyFor(cfg, sid).Some? && PolicyFor(cfg, sid).value.limit > 0 && sid != ""
    ensures var p := PolicyFor(cfg, sid).value;
      var s := Next(cfg, Next(cfg, Next(cfg, Start(start), Take(sid, 1)), Pass(p.window)), Take(sid, p.limit));
      && Backed(cfg, s) && s.own == map[] && s.world.now == start + p.window
      && Usage(cfg, s.world, sid) == p.limit == Held(s, CurrentKey(cfg, s.world, sid))
      && |s.log| > 0 && s.log[0].sid == sid && s.log[0].n == 1 && s.log[0].out
      && s.log[0].key != CurrentKey(cfg, s.world, sid)
  {
    hide Backed, Invariant;
    var p := PolicyFor(cfg, sid).value;
    var s0 := Start(start);
    var s1 := Next(cfg, s0, Take(sid, 1));
    var s2 := Next(cfg, s1, Pass(p.window));
    StartBacked(cfg, start);
    NextBacked(cfg, s0, Take(sid, 1));
    NextBacked(cfg, s1, Pass(p.window));
    NextBacked(cfg, s2, Take(sid, p.limit));
    BackedInvariant(cfg, s0);
    BackedInvariant(cfg, s2);
    UsageInLimit(cfg, s0, sid);
    FirstTake(cfg, s0, sid);
    ModPlus(start + EPOCH_OFFSET, p.window);
    assert start + p.window + EPOCH_OFFSET == start + EPOCH_OFFSET + p.window;
    PassBacked(cfg, s1, p.window, sid);
    HeldStep(cfg, s2, Take(sid, p.limit), sid);
  }

  lemma FirstTake(cfg: Config, s: Traced, sid: string)
    requires SoundConfig(cfg) && Backed(cfg, s) && PolicyFor(cfg, sid).Some? && sid != ""
    requires PolicyFor(cfg, sid).value.limit > 0 && s == Start(s.world.now)
    ensures Next(cfg, s, Take(sid, 1)).log == [Reservation(sid, 1, CurrentKey(cfg, s.world, sid), true)]
    ensures Next(cfg, s, Take(sid, 1)).world.now == s.world.now
  {
    GrantedExactly(cfg, s.world, sid, 1);
    assert Usage(cfg, s.world, sid) == 0;
  }

  /** From the empty store, that run ends with more granted in window B than its limit, and
      none of it given back. */
  lemma LateRunOvergrants(cfg: Config, sid: string, start: nat)
    requires SoundConfig(cfg) && PolicyFor(cfg, sid).Some? && PolicyFor(cfg, sid).value.limit > 0 && sid != ""
    ensures var s := Trace(cfg, Start(start), LateRun(cfg, sid));
      var p := PolicyFor(cfg, sid).value;
      && WindowIndex(s.world.now, p.window) == WindowIndex(start, p.window) + 1
      && AccountOf(s.world.ledger, CurrentKey(cfg, s.world, sid)).granted == p.limit + 1
      && OwnOf(s, CurrentKey(cfg, s.world, sid)) == 0
  {
    hide Backed, Trace, Usage, Next, Invariant;
    var p := PolicyFor(cfg, sid).value;
    var s3 := Next(cfg, Next(cfg, Next(cfg, Start(start), Take(sid, 1)), Pass(p.window)), Take(sid, p.limit));
    LateRunFills(cfg, sid, start);
    LateRefundOvergrants(cfg, s3, sid, 0);
    LateRunUnfolds(cfg, sid, start);
    ModPlus(start + EPOCH_OFFSET, p.window);
    assert start + p.window + EPOCH_OFFSET == start + EPOCH_OFFSET + p.window;
  }

  lemma LateRunUnfolds(cfg: Config, sid: string, start: nat)
    requires SoundConfig(cfg) && PolicyFor(cfg, sid).Some?
    ensures var p := PolicyFor(cfg, sid).value;
      Trace(cfg, Start(start), LateRun(cfg, sid)) ==
        Next(cfg, Next(cfg, Next(cfg, Next(cfg, Next(cfg, Start(start), Take(sid, 1)), Pass(p.window)), Take(sid, p.limit)), GiveBack(sid, 1, 0)), Take(sid, 1))
  {
    hide Next;
    var p := PolicyFor(cfg, sid).value;
    var a: seq<Call> := [Take(sid, 1)];
    TraceSnoc(cfg, Start(start), [], Take(sid, 1));
    assert [] + a == a;
    TraceSnoc(cfg, Start(start), a, Pass(p.window));
    TraceSnoc(cfg, Start(start), a + [Pass(p.window)], Take(sid, p.limit));
    TraceSnoc(cfg, Start(start), a + [Pass(p.window)] + [Take(sid, p.limit)], GiveBack(sid, 1, 0));
    TraceSnoc(cfg, Start(start), a + [Pass(p.window)] + [Take(sid, p.limit)] + [GiveBack(sid, 1, 0)], Take(sid, 1));
  }
}
