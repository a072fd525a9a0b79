/** The Run aggregate and its summary
(internal/verification/run.go, summary.go, trigger.go, address_sampling.go, token_sampling.go). */
module RunLifecycle {
  import opened Prelude
  import opened Address
  import opened Metrics
  import opened Sampling

  datatype Trigger = ManualTrigger(user: string) | ScheduledTrigger(cronExpr: string) | RealtimeTrigger(block: Uint64)

  datatype AddressPlan =
    | KnownAddresses(addresses: seq<Address>)
    | TopNHolders(n: Uint64)
    | RandomAddresses(count: Uint64, seed: Int64)
    | RecentlyActive(recentBlocks: Uint64, count: Uint64, seed: Int64)

  datatype TokenPlan = KnownTokens(tokens: seq<Address>)

  datatype Status = Pending | Running | Completed | Failed | Cancelled
  {
    predicate IsTerminal() { this == Completed || this == Failed || this == Cancelled }
  }

  // ---- summary ------------------------------------------------------------

  datatype SubjectKind =
    | KindBlock | KindAddressLatest | KindAddressAtBlock | KindERC20Balance | KindERC20Holdings | KindSnapshot
    | KindOther(name: string)

  datatype SummarySubject = SummarySubject(kind: SubjectKind, block: Option<Uint64>, address: Option<Address>, token: Option<Address>, name: string)
  {
    /** Subject.Validate returns nil. */
    predicate IsValid() {
      match kind
      case KindBlock => block.Some?
      case KindAddressLatest | KindERC20Holdings => address.Some?
      case KindAddressAtBlock => address.Some? && block.Some?
      case KindERC20Balance => address.Some? && token.Some?
      case KindSnapshot => name != ""
      case KindOther(_) => false
    }
  }

  datatype RunSummary = RunSummary(anchor: Option<Uint64>, subjects: seq<SummarySubject>, sourcesUsed: seq<string>, comparisons: int)
  {
    /** RunSummary.Validate returns nil. */
    predicate IsValid() {
      && comparisons >= 0
      && (forall s :: s in subjects ==> s.IsValid())
      && "" !in sourcesUsed
    }
  }

  const ZERO_SUMMARY := RunSummary(None, [], [], 0)

  // ---- the aggregate as a value -------------------------------------------

  datatype RunState = RunState(
    id: string, chainId: Uint64, strategy: Strategy, addressPlans: seq<AddressPlan>, tokenPlans: seq<TokenPlan>,
    metrics: seq<Metric>, trigger: Trigger, status: Status, createdAt: int, startedAt: Option<int>,
    finishedAt: Option<int>, errorMsg: string, summary: RunSummary)

  /** NewRun. The strategy and trigger are never nil here; a plan may be. */
  function NewRun(id: string, chainId: Uint64, strategy: Strategy, metrics: seq<Metric>, trigger: Trigger, createdAt: int,
                  plans: seq<Option<AddressPlan>>): Result<RunState>
  {
    if id == "" then Err("run: id is empty")
    else if chainId == 0 then Err("run: chain id is zero")
    else if metrics == [] then Err("run: metrics list is empty")
    else if None in plans then Err("run: address plan is nil")
    else Ok(RunState(id, chainId, strategy, Values(plans), [], metrics, trigger, Pending, createdAt, None, None, "", ZERO_SUMMARY))
  }

  /** The plans of a list without a nil. */
  function Values<T>(plans: seq<Option<T>>): (r: seq<T>)
    requires None !in plans
    ensures |r| == |plans| && forall i :: 0 <= i < |r| ==> plans[i] == Some(r[i])
  {
    if plans == [] then []
    else
      assert plans[0] in plans;
      [plans[0].value] + Values(plans[1..])
  }

  datatype Op =
    | OpStart(now: int)
    | OpComplete(now: int)
    | OpFail(now: int, error: Option<string>)
    | OpCancel(now: int)
    | OpSetTokenPlans(plans: seq<Option<TokenPlan>>)
    | OpRecordSummary(summary: RunSummary)

  predicate Accepts(s: RunState, op: Op) {
    match op
    case OpStart(_) => s.status == Pending
    case OpComplete(_) => s.status == Running
    case OpFail(_, _) | OpCancel(_) => s.status == Pending || s.status == Running
    case OpSetTokenPlans(plans) => s.status == Pending && None !in plans
    case OpRecordSummary(summary) => s.status == Running && summary.IsValid()
  }

  /** The state after an operation; a rejected one changes nothing. */
  function Apply(s: RunState, op: Op): RunState {
    if !Accepts(s, op) then s
    else
      match op
      case OpStart(now) => s.(status := Running, startedAt := Some(now))
      case OpComplete(now) => s.(status := Completed, finishedAt := Some(now))
      case OpFail(now, error) =>
        s.(status := Failed, finishedAt := Some(now), errorMsg := if error.Some? then error.value else s.errorMsg)
      case OpCancel(now) => s.(status := Cancelled, finishedAt := Some(now))
      case OpSetTokenPlans(plans) => s.(tokenPlans := Values(plans))
      case OpRecordSummary(summary) => s.(summary := summary)
  }

  /** The Run object: each method checks the status and updates its fields. */
  class Run {
    const id: string
    const chainId: Uint64
    const strategy: Strategy
    const addressPlans: seq<AddressPlan>
    const metrics: seq<Metric>
    const trigger: Trigger
    const createdAt: int
    var tokenPlans: seq<TokenPlan>
    var status: Status
    var startedAt: Option<int>
    var finishedAt: Option<int>
    var errorMsg: string
    var summary: RunSummary

    function State(): RunState
      reads this
    {
      RunState(id, chainId, strategy, addressPlans, tokenPlans, metrics, trigger, status, createdAt, startedAt,
               finishedAt, errorMsg, summary)
    }

    /** Rehydrate, once its checks have passed. */
    constructor (s: RunState)
      ensures State() == s
    {
      id, chainId, strategy, addressPlans := s.id, s.chainId, s.strategy, s.addressPlans;
      metrics, trigger, createdAt := s.metrics, s.trigger, s.createdAt;
      tokenPlans, status, startedAt, finishedAt := s.tokenPlans, s.status, s.startedAt, s.finishedAt;
      errorMsg, summary := s.errorMsg, s.summary;
    }

    method Start(now: int) returns (ok: bool)
      modifies this
      ensures ok == Accepts(old(State()), OpStart(now)) && State() == Apply(old(State()), OpStart(now))
      ensures ok <==> old(status) == Pending
      ensures State() == if ok then old(State()).(status := Running, startedAt := Some(now)) else old(State())
    {
      if status != Pending { return false; }
      status := Running;
      startedAt := Some(now);
      ok := true;
    }

    method Complete(now: int) returns (ok: bool)
      modifies this
      ensures ok == Accepts(old(State()), OpComplete(now)) && State() == Apply(old(State()), OpComplete(now))
      ensures ok <==> old(status) == Running
      ensures State() == if ok then old(State()).(status := Completed, finishedAt := Some(now)) else old(State())
    {
      if status != Running { return false; }
      status := Completed;
      finishedAt := Some(now);
      ok := true;
    }

    method Fail(now: int, error: Option<string>) returns (ok: bool)
      modifies this
      ensures ok == Accepts(old(State()), OpFail(now, error)) && State() == Apply(old(State()), OpFail(now, error))
      ensures ok <==> old(status) == Pending || old(status) == Running
      ensures ok ==> State() == old(State()).(status := Failed, finishedAt := Some(now), errorMsg := errorMsg)
      ensures ok ==> errorMsg == match error { case Some(text) => text case None => old(errorMsg) }
      ensures !ok ==> State() == old(State())
    {
      if status != Pending && status != Running { return false; }
      status := Failed;
      finishedAt := Some(now);
      if error.Some? { errorMsg := error.value; }
      ok := true;
    }

    method Cancel(now: int) returns (ok: bool)
      modifies this
      ensures ok == Accepts(old(State()), OpCancel(now)) && State() == Apply(old(State()), OpCancel(now))
      ensures ok <==> old(status) == Pending || old(status) == Running
      ensures State() == if ok then old(State()).(status := Cancelled, finishedAt := Some(now)) else old(State())
    {
      if status != Pending && status != Running { return false; }
      status := Cancelled;
      finishedAt := Some(now);
      ok := true;
    }

    method SetTokenPlans(plans: seq<Option<TokenPlan>>) returns (ok: bool)
      modifies this
      ensures ok == Accepts(old(State()), OpSetTokenPlans(plans)) && State() == Apply(old(State()), OpSetTokenPlans(plans))
      ensures ok <==> old(status) == Pending && None !in plans
      ensures State() == old(State()).(tokenPlans := tokenPlans)
      ensures ok ==> |tokenPlans| == |plans| && forall i :: 0 <= i < |plans| ==> plans[i] == Some(tokenPlans[i])
      ensures !ok ==> tokenPlans == old(tokenPlans)
    {
      if status != Pending { return false; }
      var copied: seq<TokenPlan> := [];
      for i := 0 to |plans|
        invariant None !in plans[..i]
        invariant |copied| == i && forall k :: 0 <= k < i ==> plans[k] == Some(copied[k])
      {
        assert plans[i] in plans && plans[..i + 1] == plans[..i] + [plans[i]];
        if plans[i].None? { return false; }
        copied := copied + [plans[i].value];
      }
      assert plans[..|plans|] == plans;
      assert copied == Values(plans);
      tokenPlans := copied;
      ok := true;
    }

    method RecordSummary(s: RunSummary) returns (ok: bool)
      modifies this
      ensures ok == Accepts(old(State()), OpRecordSummary(s)) && State() == Apply(old(State()), OpRecordSummary(s))
      ensures ok <==> old(status) == Running && s.comparisons >= 0 && "" !in s.sourcesUsed && forall x :: x in s.subjects ==> x.IsValid()
      ensures State() == if ok then old(State()).(summary := s) else old(State())
    {
      if status != Running || s.comparisons < 0 { return false; }
      for i := 0 to |s.subjects|
        invariant forall k :: 0 <= k < i ==> s.subjects[k].IsValid()
      {
        if !s.subjects[i].IsValid() {
          assert s.subjects[i] in s.subjects;
          return false;
        }
      }
      for i := 0 to |s.sourcesUsed|
        invariant "" !in s.sourcesUsed[..i]
      {
        if s.sourcesUsed[i] == "" {
          assert s.sourcesUsed[i] in s.sourcesUsed;
          return false;
        }
      }
      assert s.sourcesUsed[..|s.sourcesUsed|] == s.sourcesUsed;
      summary := s;
      ok := true;
    }
  }

  // ---- lifecycle ----------------------------------------------------------

  function ApplyAll(s: RunState, ops: seq<Op>): RunState {
    if ops == [] then s else Apply(ApplyAll(s, ops[..|ops| - 1]), ops[|ops| - 1])
  }

  /** How often the status changes during a sequence of operations. */
  function StatusChanges(s: RunState, ops: seq<Op>): nat {
    if ops == [] then 0
    else
      var before := ApplyAll(s, ops[..|ops| - 1]);
      StatusChanges(s, ops[..|ops| - 1]) + if Apply(before, ops[|ops| - 1]).status != before.status then 1 else 0
  }

  function Rank(st: Status): nat { if st == Pending then 0 else if st == Running then 1 else 2 }

  /** Timestamps, error message and summary agree with the status. */
  ghost predicate Consistent(s: RunState) {
    && (s.finishedAt.Some? <==> s.status.IsTerminal())
    && (s.status == Pending ==> s.startedAt.None?)
    && (s.status == Running || s.status == Completed ==> s.startedAt.Some?)
    && (s.errorMsg != "" ==> s.status == Failed)
    && (s.startedAt.None? ==> s.summary == ZERO_SUMMARY)
    && s.summary.IsValid()
  }

  lemma NewRunConsistent(id: string, chainId: Uint64, strategy: Strategy, metrics: seq<Metric>, trigger: Trigger,
                         createdAt: int, plans: seq<Option<AddressPlan>>)
    ensures var r := NewRun(id, chainId, strategy, metrics, trigger, createdAt, plans);
      && (r.Ok? <==> id != "" && chainId != 0 && metrics != [] && None !in plans)
      && (r.Ok? ==>
            && Consistent(r.value) && r.value.status == Pending && r.value.tokenPlans == []
            && r.value.id == id && r.value.chainId == chainId && r.value.strategy == strategy && r.value.metrics == metrics
            && r.value.trigger == trigger && r.value.createdAt == createdAt
            && |r.value.addressPlans| == |plans| && forall i :: 0 <= i < |plans| ==> plans[i] == Some(r.value.addressPlans[i]))
  {
  }

  /** Over every sequence of operations on a pending run: the fields stay consistent,
      the status changes at most twice and only forward, and what a terminal run holds
      is final. */
  lemma {:induction false} LifecycleHolds(s: RunState, ops: seq<Op>)
    requires Consistent(s) && s.status == Pending
    ensures var r := ApplyAll(s, ops);
      && Consistent(r)
      && StatusChanges(s, ops) <= Rank(r.status) <= 2
      && r.(tokenPlans := s.tokenPlans, status := s.status, startedAt := s.startedAt, finishedAt := s.finishedAt,
            errorMsg := s.errorMsg, summary := s.summary) == s
  {
    if ops != [] { LifecycleHolds(s, ops[..|ops| - 1]); }
  }

  /** A terminal run rejects everything; a run that left pending keeps its token plans. */
  lemma {:induction false} TerminalAbsorbs(s: RunState, ops: seq<Op>)
    ensures s.status.IsTerminal() ==> ApplyAll(s, ops) == s
    ensures s.status != Pending ==> ApplyAll(s, ops).status != Pending && ApplyAll(s, ops).tokenPlans == s.tokenPlans
  {
    if ops != [] { TerminalAbsorbs(s, ops[..|ops| - 1]); }
  }
}
