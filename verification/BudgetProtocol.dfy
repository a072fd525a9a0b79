/** Runs of the budget by any number of workers.

A run is a sequence of atomic steps on the shared store, in whatever order the
workers' calls arrive, with the clock advancing in between. A ledger records
what was granted and refunded against each key; the code has no such ledger. */
module BudgetProtocol {
  import opened Prelude
  import opened Budget

  datatype Account = Account(granted: nat, refunded: nat)

  type Ledger = map<string, Account>

  datatype World = World(now: nat, store: Store, ledger: Ledger)

  datatype Op = ReserveOp(sid: string, n: int) | RefundOp(sid: string, n: int) | Tick(d: nat)

  function AccountOf(ledger: Ledger, key: string): Account {
    if key in ledger then ledger[key] else Account(0, 0)
  }

  /** What is still out in a window: granted minus refunded. */
  function Outstanding(w: World, key: string): int {
    AccountOf(w.ledger, key).granted - AccountOf(w.ledger, key).refunded
  }

  /** The key an operation on sid uses now. */
  function CurrentKey(cfg: Config, w: World, sid: string): string
    requires PolicyFor(cfg, sid).Some?
  {
    KeyNow(cfg, sid, w.now)
  }

  function ReplyTo(cfg: Config, w: World, sid: string, n: int): Reply { ReserveUnits(cfg, w.store, w.now, sid, n).1 }

  function Step(cfg: Config, w: World, op: Op): World {
    match op
    case Tick(d) => w.(now := w.now + d)
    case ReserveOp(sid, n) =>
      var (store', reply) := ReserveUnits(cfg, w.store, w.now, sid, n);
      if Charged(cfg, sid, n) && reply == Granted then
        var key := CurrentKey(cfg, w, sid);
        var a := AccountOf(w.ledger, key);
        World(w.now, store', w.ledger[key := Account(a.granted + n, a.refunded)])
      else World(w.now, store', w.ledger)
    case RefundOp(sid, n) =>
      var store' := RefundUnits(cfg, w.store, w.now, sid, n);
      if Charged(cfg, sid, n) then
        var key := CurrentKey(cfg, w, sid);
        var a := AccountOf(w.ledger, key);
        World(w.now, store', w.ledger[key := Account(a.granted, a.refunded + n)])
      else World(w.now, store', w.ledger)
  }

  function Run(cfg: Config, w: World, ops: seq<Op>): World {
    if ops == [] then w else Step(cfg, Run(cfg, w, ops[..|ops| - 1]), ops[|ops| - 1])
  }

  /** Every configured window lasts at least a second, and no limit is negative. */
  ghost predicate SoundConfig(cfg: Config) {
    forall sid :: sid in cfg.policies && !cfg.policies[sid].IsZero() ==>
      cfg.policies[sid].window >= SECOND && cfg.policies[sid].limit >= 0
  }

  function Initial(now: nat): World { World(now, map[], map[]) }

  // ---- the invariant ------------------------------------------------------

  /** Every key carries an expiry and a positive count. */
  ghost predicate AllExpire(w: World) {
    forall key :: key in w.store ==> w.store[key].expiry.Some? && w.store[key].count > 0
  }

  /** What holds of the key of sid's window at instant t. */
  ghost predicate KeyInvariant(cfg: Config, w: World, sid: string, t: nat)
    requires PolicyFor(cfg, sid).Some? && PolicyFor(cfg, sid).value.window > 0
  {
    var p := PolicyFor(cfg, sid).value;
    var key := KeyAt(cfg, sid, p.window, t);
    var index, current := WindowIndex(t, p.window), WindowIndex(w.now, p.window);
    && Outstanding(w, key) <= p.limit
    && (key in w.store ==>
         && w.store[key].count <= p.limit
         && w.store[key].count <= AccountOf(w.ledger, key).granted
         && w.store[key].expiry.Some? && w.store[key].expiry.value > WindowEnd(t, p.window))
    && (index > current ==> key !in w.store && key !in w.ledger)
    && Outstanding(w, key) <= (if key in w.store then w.store[key].count else 0)
  }

  ghost predicate Invariant(cfg: Config, w: World)
    requires SoundConfig(cfg)
  {
    && AllExpire(w)
    && forall sid, t: nat :: PolicyFor(cfg, sid).Some? ==> KeyInvariant(cfg, w, sid, t)
  }

  /** In its own window a key has not expired. */
  lemma CurrentKeyLive(cfg: Config, w: World, sid: string)
    requires SoundConfig(cfg) && Invariant(cfg, w) && PolicyFor(cfg, sid).Some?
    ensures var key := CurrentKey(cfg, w, sid);
      && (key in w.store ==> Live(w.store, key, w.now) && 0 < w.store[key].count)
      && Get(w.store, key, w.now) == (if key in w.store then w.store[key].count else 0)
      && Get(w.store, key, w.now) >= 0
  {
    assert KeyInvariant(cfg, w, sid, w.now);
    WindowBounds(w.now, PolicyFor(cfg, sid).value.window);
  }

  /** A fresh key outlives its window, even with the expiry counted in whole milliseconds. */
  lemma FreshExpiry(now: int, window: int)
    requires window >= SECOND
    ensures now + TtlMillis(window) * MILLI > WindowEnd(now, window)
  {
    WindowBounds(now, window);
  }

  lemma InitialInvariant(cfg: Config, now: nat)
    requires SoundConfig(cfg)
    ensures Invariant(cfg, Initial(now))
  {
  }

  lemma TickKeeps(cfg: Config, w: World, d: nat)
    requires SoundConfig(cfg) && Invariant(cfg, w)
    ensures Invariant(cfg, Step(cfg, w, Tick(d)))
  {
    var w' := Step(cfg, w, Tick(d));
    forall sid, t: nat | PolicyFor(cfg, sid).Some? ensures KeyInvariant(cfg, w', sid, t) {
      assert KeyInvariant(cfg, w, sid, t);
      WindowsApart(w.now, w'.now, PolicyFor(cfg, sid).value.window);
    }
  }

  /** A step on sid0 at the current instant leaves every other window's key alone. */
  lemma OtherKeysKept(cfg: Config, w: World, w': World, sid0: string)
    requires SoundConfig(cfg) && Invariant(cfg, w) && PolicyFor(cfg, sid0).Some?
    requires w'.now == w.now
    requires var key0 := CurrentKey(cfg, w, sid0);
      && (forall k :: k != key0 ==> (k in w'.store <==> k in w.store) && (k in w.store ==> w'.store[k] == w.store[k]))
      && (forall k :: k != key0 ==> (k in w'.ledger <==> k in w.ledger) && (k in w.ledger ==> w'.ledger[k] == w.ledger[k]))
    requires var key0 := CurrentKey(cfg, w, sid0);
      key0 in w'.store ==> w'.store[key0].expiry.Some? && w'.store[key0].count > 0
    requires KeyInvariant(cfg, w', sid0, w.now)
    ensures Invariant(cfg, w')
  {
    var key0 := CurrentKey(cfg, w, sid0);
    var p0 := PolicyFor(cfg, sid0).value;
    forall key | key in w'.store ensures w'.store[key].expiry.Some? && w'.store[key].count > 0 {
      if key != key0 { assert key in w.store; }
    }
    forall sid, t: nat | PolicyFor(cfg, sid).Some? ensures KeyInvariant(cfg, w', sid, t) {
      assert KeyInvariant(cfg, w, sid, t);
      var p := PolicyFor(cfg, sid).value;
      if KeyAt(cfg, sid, p.window, t) == key0 {
        KeyParts(cfg, sid, t, p.window, sid0, w.now, p0.window);
        SecondsTellWindows(t, w.now, p0.window);
        WindowsApart(t, w.now, p0.window);
        assert KeyInvariant(cfg, w', sid0, w.now);
      }
    }
  }

  lemma ReserveKeeps(cfg: Config, w: World, sid: string, n: int)
    requires SoundConfig(cfg) && Invariant(cfg, w)
    ensures Invariant(cfg, Step(cfg, w, ReserveOp(sid, n)))
  {
    var w' := Step(cfg, w, ReserveOp(sid, n));
    if Charged(cfg, sid, n) && ReplyTo(cfg, w, sid, n) == Granted {
      var p := PolicyFor(cfg, sid).value;
      var key := CurrentKey(cfg, w, sid);
      CurrentKeyLive(cfg, w, sid);
      assert KeyInvariant(cfg, w, sid, w.now);
      FreshExpiry(w.now, p.window);
      assert Get(w.store, key, w.now) + n <= p.limit;
      assert KeyInvariant(cfg, w', sid, w.now);
      OtherKeysKept(cfg, w, w', sid);
    } else {
      assert w' == w;
    }
  }

  lemma RefundKeeps(cfg: Config, w: World, sid: string, n: int)
    requires SoundConfig(cfg) && Invariant(cfg, w)
    ensures Invariant(cfg, Step(cfg, w, RefundOp(sid, n)))
  {
    var w' := Step(cfg, w, RefundOp(sid, n));
    if Charged(cfg, sid, n) {
      CurrentKeyLive(cfg, w, sid);
      assert KeyInvariant(cfg, w, sid, w.now);
      assert KeyInvariant(cfg, w', sid, w.now);
      OtherKeysKept(cfg, w, w', sid);
    } else {
      assert w' == w;
    }
  }

  lemma StepKeeps(cfg: Config, w: World, op: Op)
    requires SoundConfig(cfg) && Invariant(cfg, w)
    ensures Invariant(cfg, Step(cfg, w, op))
  {
    match op
    case Tick(d) => TickKeeps(cfg, w, d);
    case ReserveOp(sid, n) => ReserveKeeps(cfg, w, sid, n);
    case RefundOp(sid, n) => RefundKeeps(cfg, w, sid, n);
  }

  lemma {:induction false} RunKeeps(cfg: Config, w: World, ops: seq<Op>)
    requires SoundConfig(cfg) && Invariant(cfg, w)
    ensures Invariant(cfg, Run(cfg, w, ops))
  {
    if ops != [] {
      RunKeeps(cfg, w, ops[..|ops| - 1]);
      StepKeeps(cfg, Run(cfg, w, ops[..|ops| - 1]), ops[|ops| - 1]);
    }
  }

  // ---- the ledger, told from the calls --------------------------------------

  /** The operation is a call for sid, made within its window number index. */
  ghost predicate CallsIn(cfg: Config, w: World, op: Op, sid: string, index: int)
    requires Limited(cfg, sid) && cfg.policies[sid].window > 0
  {
    !op.Tick? && op.sid == sid && op.sid != "" && op.n > 0 && WindowIndex(w.now, cfg.policies[sid].window) == index
  }

  /** The units that the calls of a run were granted in one window of a source. */
  ghost function GrantedIn(cfg: Config, start: nat, ops: seq<Op>, sid: string, index: int): nat
    requires Limited(cfg, sid) && cfg.policies[sid].window > 0
  {
    if ops == [] then 0
    else
      var w, op := Run(cfg, Initial(start), ops[..|ops| - 1]), ops[|ops| - 1];
      GrantedIn(cfg, start, ops[..|ops| - 1], sid, index)
        + if op.ReserveOp? && CallsIn(cfg, w, op, sid, index) && ReplyTo(cfg, w, sid, op.n) == Granted then op.n else 0
  }

  /** The units that they gave back in it. */
  ghost function RefundedIn(cfg: Config, start: nat, ops: seq<Op>, sid: string, index: int): nat
    requires Limited(cfg, sid) && cfg.policies[sid].window > 0
  {
    if ops == [] then 0
    else
      var w, op := Run(cfg, Initial(start), ops[..|ops| - 1]), ops[|ops| - 1];
      RefundedIn(cfg, start, ops[..|ops| - 1], sid, index) + if op.RefundOp? && CallsIn(cfg, w, op, sid, index) then op.n else 0
  }

  /** The ledger entry of a window's key adds up the calls made in that window. */
  lemma {:induction false} LedgerAddsUp(cfg: Config, start: nat, ops: seq<Op>, sid: string, t: int)
    requires SoundConfig(cfg) && Limited(cfg, sid) && cfg.policies[sid].window >= SECOND
    ensures var window := cfg.policies[sid].window;
      AccountOf(Run(cfg, Initial(start), ops).ledger, KeyAt(cfg, sid, window, t)) ==
        Account(GrantedIn(cfg, start, ops, sid, WindowIndex(t, window)), RefundedIn(cfg, start, ops, sid, WindowIndex(t, window)))
  {
    hide KeyAt, WindowIndex, ReserveUnits, RefundUnits;
    if ops != [] {
      var init, op := ops[..|ops| - 1], ops[|ops| - 1];
      LedgerAddsUp(cfg, start, init, sid, t);
      var w := Run(cfg, Initial(start), init);
      if !op.Tick? && Charged(cfg, op.sid, op.n) {
        var window := cfg.policies[sid].window;
        KeyParts(cfg, sid, t, window, op.sid, w.now, PolicyFor(cfg, op.sid).value.window);
        if op.sid == sid { SecondsTellWindows(t, w.now, window); }
      }
    }
  }

  lemma RunInvariant(cfg: Config, start: nat, ops: seq<Op>, sid: string, t: nat)
    requires SoundConfig(cfg) && PolicyFor(cfg, sid).Some?
    ensures AllExpire(Run(cfg, Initial(start), ops)) && KeyInvariant(cfg, Run(cfg, Initial(start), ops), sid, t)
  {
    hide KeyInvariant, AllExpire;
    InitialInvariant(cfg, start);
    RunKeeps(cfg, Initial(start), ops);
  }

  /** Every stored key, of every window, over every run: an expiry is set, and the count
      lies above zero, within the configured limit and within what was granted. */
  lemma CountsStayInLimits(cfg: Config, start: nat, ops: seq<Op>, sid: string, t: nat)
    requires SoundConfig(cfg) && Limited(cfg, sid)
    ensures var store, p := Run(cfg, Initial(start), ops).store, cfg.policies[sid];
      var key := KeyAt(cfg, sid, p.window, t);
      p.window >= SECOND && (key in store ==>
        && store[key].expiry.Some? && store[key].expiry.value > WindowEnd(t, p.window)
        && 0 < store[key].count <= p.limit
        && store[key].count <= GrantedIn(cfg, start, ops, sid, WindowIndex(t, p.window)))
  {
    hide Run, KeyAt, WindowIndex, WindowEnd, GrantedIn, RefundedIn;
    UnlimitedExactly(cfg, sid);
    RunInvariant(cfg, start, ops, sid, t);
    LedgerAddsUp(cfg, start, ops, sid, t);
  }

  /** Units granted in a window never exceed its configured limit plus the units refunded in
      it; and the key of every window, past or current, counts at least what is out. */
  lemma GrantsStayInLimits(cfg: Config, start: nat, ops: seq<Op>, sid: string, t: nat)
    requires SoundConfig(cfg) && Limited(cfg, sid)
    ensures var store, p := Run(cfg, Initial(start), ops).store, cfg.policies[sid];
      var key, index := KeyAt(cfg, sid, p.window, t), WindowIndex(t, p.window);
      var granted, refunded := GrantedIn(cfg, start, ops, sid, index), RefundedIn(cfg, start, ops, sid, index);
      && granted <= p.limit + refunded
      && (if key in store then granted - refunded <= store[key].count else granted <= refunded)
  {
    hide Run, KeyAt, WindowIndex, WindowEnd, GrantedIn, RefundedIn;
    UnlimitedExactly(cfg, sid);
    RunInvariant(cfg, start, ops, sid, t);
    LedgerAddsUp(cfg, start, ops, sid, t);
  }

  // ---- when the counter is exact ------------------------------------------

  /** The counter of sid's current window. */
  function Usage(cfg: Config, w: World, sid: string): int
    requires PolicyFor(cfg, sid).Some?
  {
    Get(w.store, CurrentKey(cfg, w, sid), w.now)
  }

  ghost predicate Exact(cfg: Config, w: World) {
    forall sid :: PolicyFor(cfg, sid).Some? ==> Usage(cfg, w, sid) == Outstanding(w, CurrentKey(cfg, w, sid))
  }

  /** The refund gives back units that its window has out. */
  ghost predicate Covered(cfg: Config, w: World, op: Op) {
    op.RefundOp? && Charged(cfg, op.sid, op.n) ==> op.n <= Outstanding(w, CurrentKey(cfg, w, op.sid))
  }

  /** Every refund of the run lands in a window that has the units out. */
  ghost predicate AllCovered(cfg: Config, w: World, ops: seq<Op>) {
    ops == [] || (AllCovered(cfg, w, ops[..|ops| - 1]) && Covered(cfg, Run(cfg, w, ops[..|ops| - 1]), ops[|ops| - 1]))
  }

  ghost predicate AlwaysExact(cfg: Config, w: World, ops: seq<Op>) {
    Exact(cfg, Run(cfg, w, ops)) && (ops == [] || AlwaysExact(cfg, w, ops[..|ops| - 1]))
  }

  /** Keys of different sources at one instant differ. */
  lemma SourcesApart(cfg: Config, w: World, sid: string, other: string)
    requires PolicyFor(cfg, sid).Some? && PolicyFor(cfg, other).Some? && sid != other
    ensures CurrentKey(cfg, w, sid) != CurrentKey(cfg, w, other)
  {
    KeyParts(cfg, sid, w.now, PolicyFor(cfg, sid).value.window, other, w.now, PolicyFor(cfg, other).value.window);
  }

  lemma ReserveUsage(cfg: Config, w: World, op: Op, sid: string)
    requires SoundConfig(cfg) && Invariant(cfg, w) && PolicyFor(cfg, sid).Some? && op.ReserveOp?
    ensures var w' := Step(cfg, w, op);
      var n := if op.sid == sid && Charged(cfg, sid, op.n) then op.n else 0;
      var g := if Usage(cfg, w, sid) + n <= PolicyFor(cfg, sid).value.limit then n else 0;
      && Usage(cfg, w', sid) == Usage(cfg, w, sid) + g
      && Outstanding(w', CurrentKey(cfg, w', sid)) == Outstanding(w, CurrentKey(cfg, w, sid)) + g
  {
    hide Invariant, KeyAt;
    if Charged(cfg, op.sid, op.n) {
      if op.sid == sid { OwnReserveUsage(cfg, w, sid, op.n); } else { SourcesApart(cfg, w, sid, op.sid); }
    }
  }

  lemma OwnReserveUsage(cfg: Config, w: World, sid: string, n: int)
    requires SoundConfig(cfg) && Invariant(cfg, w) && Charged(cfg, sid, n)
    ensures var w' := Step(cfg, w, ReserveOp(sid, n));
      var g := if Usage(cfg, w, sid) + n <= PolicyFor(cfg, sid).value.limit then n else 0;
      && Usage(cfg, w', sid) == Usage(cfg, w, sid) + g
      && Outstanding(w', CurrentKey(cfg, w', sid)) == Outstanding(w, CurrentKey(cfg, w, sid)) + g
  {
    hide Invariant, KeyAt;
    CurrentKeyLive(cfg, w, sid);
    FreshExpiry(w.now, PolicyFor(cfg, sid).value.window);
    WindowBounds(w.now, PolicyFor(cfg, sid).value.window);
  }

  lemma RefundUsage(cfg: Config, w: World, op: Op, sid: string)
    requires SoundConfig(cfg) && Invariant(cfg, w) && PolicyFor(cfg, sid).Some? && op.RefundOp?
    ensures var w' := Step(cfg, w, op);
      var n := if op.sid == sid && Charged(cfg, sid, op.n) then op.n else 0;
      && Usage(cfg, w', sid) == (if n >= Usage(cfg, w, sid) then 0 else Usage(cfg, w, sid) - n)
      && Outstanding(w', CurrentKey(cfg, w', sid)) == Outstanding(w, CurrentKey(cfg, w, sid)) - n
  {
    CurrentKeyLive(cfg, w, sid);
    if Charged(cfg, op.sid, op.n) && op.sid != sid { SourcesApart(cfg, w, sid, op.sid); }
  }

  /** How a step changes the usage and the outstanding units of any source. */
  lemma StepUsage(cfg: Config, w: World, op: Op, sid: string)
    requires SoundConfig(cfg) && Invariant(cfg, w) && PolicyFor(cfg, sid).Some?
    requires !op.Tick?
    ensures var w' := Step(cfg, w, op);
      var n := if op.sid == sid && Charged(cfg, sid, op.n) then op.n else 0;
      match op
      case RefundOp(_, _) =>
        && Usage(cfg, w', sid) == (if n >= Usage(cfg, w, sid) then 0 else Usage(cfg, w, sid) - n)
        && Outstanding(w', CurrentKey(cfg, w', sid)) == Outstanding(w, CurrentKey(cfg, w, sid)) - n
      case ReserveOp(_, _) =>
        var g := if Usage(cfg, w, sid) + n <= PolicyFor(cfg, sid).value.limit then n else 0;
        && Usage(cfg, w', sid) == Usage(cfg, w, sid) + g
        && Outstanding(w', CurrentKey(cfg, w', sid)) == Outstanding(w, CurrentKey(cfg, w, sid)) + g
  {
    if op.ReserveOp? { ReserveUsage(cfg, w, op, sid); } else { RefundUsage(cfg, w, op, sid); }
  }

  /** A reservation is granted exactly when the window has room for it. */
  lemma GrantedExactly(cfg: Config, w: World, sid: string, n: int)
    requires SoundConfig(cfg) && Invariant(cfg, w) && Charged(cfg, sid, n)
    ensures ReplyTo(cfg, w, sid, n) == Granted <==> Usage(cfg, w, sid) + n <= PolicyFor(cfg, sid).value.limit
  {
    CurrentKeyLive(cfg, w, sid);
  }

  lemma TickExact(cfg: Config, w: World, d: nat)
    requires SoundConfig(cfg) && Invariant(cfg, w) && Exact(cfg, w)
    ensures Exact(cfg, Step(cfg, w, Tick(d)))
  {
    var w' := Step(cfg, w, Tick(d));
    TickKeeps(cfg, w, d);
    forall sid | PolicyFor(cfg, sid).Some?
      ensures Usage(cfg, w', sid) == Outstanding(w', CurrentKey(cfg, w', sid))
    {
      var window := PolicyFor(cfg, sid).value.window;
      CurrentKeyLive(cfg, w, sid);
      CurrentKeyLive(cfg, w', sid);
      assert KeyInvariant(cfg, w, sid, w'.now);
      WindowsApart(w.now, w'.now, window);
    }
  }

  /** Exactness survives a step exactly when the step's refund, if any, is covered. */
  lemma StepExact(cfg: Config, w: World, op: Op)
    requires SoundConfig(cfg) && Invariant(cfg, w) && Exact(cfg, w)
    ensures Exact(cfg, Step(cfg, w, op)) <==> Covered(cfg, w, op)
  {
    if op.Tick? {
      TickExact(cfg, w, op.d);
    } else {
      forall sid | PolicyFor(cfg, sid).Some? && (op.sid != sid || Covered(cfg, w, op))
        ensures Usage(cfg, Step(cfg, w, op), sid) == Outstanding(Step(cfg, w, op), CurrentKey(cfg, Step(cfg, w, op), sid))
      {
        StepUsage(cfg, w, op, sid);
        CurrentKeyLive(cfg, w, sid);
      }
      if !Covered(cfg, w, op) {
        StepUsage(cfg, w, op, op.sid);
        CurrentKeyLive(cfg, w, op.sid);
      }
    }
  }

  /** The counter equals granted minus refunded at every moment of a run exactly when
      every refund lands in a window that has its units out: then, and only then, the
      zero floor loses nothing. */
  lemma {:induction false} ExactWhenCovered(cfg: Config, w: World, ops: seq<Op>)
    requires SoundConfig(cfg) && Invariant(cfg, w) && Exact(cfg, w)
    ensures AlwaysExact(cfg, w, ops) <==> AllCovered(cfg, w, ops)
  {
    if ops != [] {
      var n := |ops| - 1;
      ExactWhenCovered(cfg, w, ops[..n]);
      RunKeeps(cfg, w, ops[..n]);
      if Exact(cfg, Run(cfg, w, ops[..n])) { StepExact(cfg, Run(cfg, w, ops[..n]), ops[n]); }
    }
  }

  // ---- refunds that land in a later window --------------------------------

  /** A refund leaves Redis alone exactly when the window current at the refund has no
      counter: an expired window of the reservation is not enough. */
  lemma RefundNoOpExactly(cfg: Config, w: World, sid: string, n: int)
    requires SoundConfig(cfg) && Invariant(cfg, w) && Charged(cfg, sid, n)
    ensures Step(cfg, w, RefundOp(sid, n)).store == w.store <==> CurrentKey(cfg, w, sid) !in w.store
  {
    var key := CurrentKey(cfg, w, sid);
    var w' := Step(cfg, w, RefundOp(sid, n));
    CurrentKeyLive(cfg, w, sid);
    if key !in w.store {
      assert w'.store == w.store;
    } else {
      assert key in w'.store ==> w'.store[key].count == w.store[key].count - n;
    }
  }
}
