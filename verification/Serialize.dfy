/** The JSON forms of strategies, triggers, plans, subjects and values
(internal/infrastructure/persistence/serialize.go, the JSON methods of internal/chain).

JSON is a tree here; an absent column is None. Decoding follows encoding/json: an
absent or null member leaves the zero value, a member of another type is an error. */
module Serialize {
  import opened Prelude
  import opened Digits
  import opened Address
  import opened Tolerance
  import opened Sampling
  import opened RunLifecycle

  datatype Json =
    | JNull
    | JBool(b: bool)
    | JNumber(n: int)
    | JString(s: string)
    | JArray(items: seq<Json>)
    | JObject(fields: map<string, Json>)

  // ---- members of an object -----------------------------------------------

  function Member(j: Json, key: string): Result<Option<Json>> {
    match j
    case JObject(fields) => Ok(if key in fields then Some(fields[key]) else None)
    case JNull => Ok(None)
    case _ => Err("json: not an object")
  }

  function NumberMember(j: Json, key: string, lo: int, hi: int): (r: Result<int>)
    requires lo <= 0 < hi
    ensures r.Ok? ==> lo <= r.value < hi
  {
    var m :- Member(j, key);
    match m
    case None | Some(JNull) => Ok(0)
    case Some(JNumber(n)) => if lo <= n < hi then Ok(n) else Err("json: number out of range")
    case Some(_) => Err("json: not a number")
  }

  function UintMember(j: Json, key: string): Result<Uint64> {
    var n :- NumberMember(j, key, 0, TWO_64);
    var u: Uint64 := n;
    Ok(u)
  }

  function IntMember(j: Json, key: string): Result<Int64> {
    var n :- NumberMember(j, key, -TWO_63, TWO_63);
    var i: Int64 := n;
    Ok(i)
  }

  function StringMember(j: Json, key: string): Result<string> {
    var m :- Member(j, key);
    match m
    case None | Some(JNull) => Ok("")
    case Some(JString(s)) => Ok(s)
    case Some(_) => Err("json: not a string")
  }

  // ---- block numbers and addresses ----------------------------------------

  /** BlockNumber.MarshalJSON. */
  function EncodeBlock(b: Uint64): Json { JString("0x" + PrintNat(b, 16)) }

  /** BlockNumber.UnmarshalJSON: a number, or a 0x-prefixed hex string. */
  function DecodeBlock(j: Json): Result<Uint64> {
    match j
    case JNumber(n) => if 0 <= n < TWO_64 then (var b: Uint64 := n; Ok(b)) else Err("block number: decode number")
    case JString(s) =>
      if !HasHexPrefix(s) then Err("block number: string form must be hex with 0x prefix")
      else
        (match ParseUint64Hex(s[2..])
         case None => Err("block number: parse hex")
         case Some(b) => Ok(b))
    case _ => Err("block number: cannot decode")
  }

  lemma BlockRoundTrip(b: Uint64)
    ensures DecodeBlock(EncodeBlock(b)) == Ok(b)
  {
    ParsePrintUint64(b);
    assert ("0x" + PrintNat(b, 16))[2..] == PrintNat(b, 16);
  }

  /** Block numbers are read from JSON numbers and from hexadecimal strings alike. */
  lemma BlockReads(j: Json, b: Uint64)
    ensures DecodeBlock(j) == Ok(b) <==>
      (j.JNumber? && j.n == b) || (j.JString? && HasHexPrefix(j.s) && IsNumeral(j.s[2..], 16, b))
  {
    hide IsNumeral, ParseNat;
    if j.JString? && HasHexPrefix(j.s) { NumeralSpellings(j.s[2..], 16, b); }
  }

  function BlockMember(j: Json, key: string): Result<Uint64> {
    var m :- Member(j, key);
    match m
    case None => Ok(0)
    case Some(v) => DecodeBlock(v)
  }

  function EncodeAddress(hash: Hasher, a: Address): Json { JString(Hex(hash, a)) }

  function DecodeAddress(hash: Hasher, j: Json): Result<Address> {
    match j
    case JString(s) => Parse(hash, s)
    case _ => Err("address: decode string")
  }

  lemma AddressRoundTrip(hash: Hasher, a: Address)
    ensures DecodeAddress(hash, EncodeAddress(hash, a)) == Ok(a)
  {
    ParsePrinted(hash, a);
  }

  // ---- lists --------------------------------------------------------------

  function EncodeAll<T>(xs: seq<T>, encode: T -> Json): seq<Json> {
    seq(|xs|, i requires 0 <= i < |xs| => encode(xs[i]))
  }

  /** The decoded items, or the error of the first that fails. */
  function DecodeAll<T>(items: seq<Json>, decode: Json -> Result<T>): Result<seq<T>> {
    if items == [] then Ok([])
    else
      var init :- DecodeAll(items[..|items| - 1], decode);
      var last :- decode(items[|items| - 1]);
      Ok(init + [last])
  }

  lemma {:induction false} DecodeEncoded<T>(xs: seq<T>, encode: T -> Json, decode: Json -> Result<T>)
    requires forall x :: x in xs ==> decode(encode(x)) == Ok(x)
    ensures DecodeAll(EncodeAll(xs, encode), decode) == Ok(xs)
  {
    if xs != [] {
      var n := |xs| - 1;
      DecodeEncoded(xs[..n], encode, decode);
      assert EncodeAll(xs, encode)[..n] == EncodeAll(xs[..n], encode);
      assert xs[n] in xs && xs[..n] + [xs[n]] == xs;
    }
  }

  /** The marshal loops: one slot per element. */
  method EncodeList<T>(xs: seq<T>, encode: T -> Json) returns (items: seq<Json>)
    ensures items == EncodeAll(xs, encode)
  {
    items := [];
    for i := 0 to |xs|
      invariant items == EncodeAll(xs, encode)[..i]
    {
      items := items + [encode(xs[i])];
    }
  }

  /** The unmarshal loops: append until an item fails. */
  method DecodeList<T>(items: seq<Json>, decode: Json -> Result<T>) returns (r: Result<seq<T>>)
    ensures r == DecodeAll(items, decode)
  {
    var out: seq<T> := [];
    for i := 0 to |items|
      invariant DecodeAll(items[..i], decode) == Ok(out)
    {
      assert items[..i + 1][..i] == items[..i];
      var x := decode(items[i]);
      if x.Err? {
        DecodeStops(items, decode, i + 1);
        return Err(x.error);
      }
      out := out + [x.value];
    }
    assert items[..|items|] == items;
    return Ok(out);
  }

  /** Items after a failure do not matter. */
  lemma {:induction false} DecodeStops<T>(items: seq<Json>, decode: Json -> Result<T>, n: nat)
    requires n <= |items| && DecodeAll(items[..n], decode).Err?
    ensures DecodeAll(items, decode) == DecodeAll(items[..n], decode)
    decreases |items|
  {
    if n == |items| {
      assert items[..n] == items;
    } else {
      var k := |items| - 1;
      assert items[..k][..n] == items[..n];
      DecodeStops(items[..k], decode, n);
    }
  }

  function ListMember<T>(j: Json, key: string, decode: Json -> Result<T>): Result<seq<T>> {
    var m :- Member(j, key);
    match m
    case None | Some(JNull) => Ok([])
    case Some(JArray(items)) => DecodeAll(items, decode)
    case Some(_) => Err("json: not an array")
  }

  function AddressDecoder(hash: Hasher): Json -> Result<Address> { j => DecodeAddress(hash, j) }

  function AddressEncoder(hash: Hasher): Address -> Json { (a: Address) => EncodeAddress(hash, a) }

  lemma AddressesRoundTrip(hash: Hasher, addrs: seq<Address>)
    ensures DecodeAll(EncodeAll(addrs, AddressEncoder(hash)), AddressDecoder(hash)) == Ok(addrs)
  {
    forall a | a in addrs ensures AddressDecoder(hash)(AddressEncoder(hash)(a)) == Ok(a) { AddressRoundTrip(hash, a); }
    DecodeEncoded(addrs, AddressEncoder(hash), AddressDecoder(hash));
  }

  lemma BlocksRoundTrip(blocks: seq<Uint64>)
    ensures DecodeAll(EncodeAll(blocks, EncodeBlock), DecodeBlock) == Ok(blocks)
  {
    forall b | b in blocks ensures DecodeBlock(EncodeBlock(b)) == Ok(b) { BlockRoundTrip(b); }
    DecodeEncoded(blocks, EncodeBlock, DecodeBlock);
  }

  // ---- triggers -----------------------------------------------------------

  function TriggerKind(t: Trigger): string {
    match t
    case ManualTrigger(_) => "manual"
    case ScheduledTrigger(_) => "scheduled"
    case RealtimeTrigger(_) => "realtime"
  }

  function EncodeTrigger(t: Trigger): Json {
    match t
    case ManualTrigger(user) => JObject(map["user" := JString(user)])
    case ScheduledTrigger(cron) => JObject(map["cron_expr" := JString(cron)])
    case RealtimeTrigger(block) => JObject(map["block_number" := EncodeBlock(block)])
  }

  function DecodeTrigger(kind: string, data: Json): Result<Trigger> {
    if kind == "manual" then
      var user :- StringMember(data, "user");
      Ok(ManualTrigger(user))
    else if kind == "scheduled" then
      var cron :- StringMember(data, "cron_expr");
      Ok(ScheduledTrigger(cron))
    else if kind == "realtime" then
      var block :- BlockMember(data, "block_number");
      Ok(RealtimeTrigger(block))
    else Err("persistence: unknown trigger kind")
  }

  lemma TriggerRoundTrip(t: Trigger)
    ensures DecodeTrigger(TriggerKind(t), EncodeTrigger(t)) == Ok(t)
  {
    if t.RealtimeTrigger? { BlockRoundTrip(t.block); }
  }

  // ---- strategies ---------------------------------------------------------

  function StrategyKind(s: Strategy): string {
    match s
    case FixedList(_) => "fixed_list"
    case LatestN(_) => "latest_n"
    case Random(_, _, _) => "random"
    case SparseSteps(_, _) => "sparse_steps"
  }

  function EncodeRange(r: BlockRange): Json {
    JObject(map["start" := EncodeBlock(r.start), "end" := EncodeBlock(r.end)])
  }

  /** The range member, checked by NewBlockRange. */
  function RangeMember(j: Json, key: string): Result<BlockRange> {
    var m :- Member(j, key);
    var range := match m case None => JNull case Some(r) => r;
    var start :- BlockMember(range, "start");
    var end :- BlockMember(range, "end");
    if start > end then Err("block range: start must be <= end") else Ok(BlockRange(start, end))
  }

  lemma RangeRoundTrip(fields: map<string, Json>, key: string, r: BlockRange)
    requires key in fields && fields[key] == EncodeRange(r)
    ensures RangeMember(JObject(fields), key) == if r.WellFormed() then Ok(r) else Err("block range: start must be <= end")
  {
    BlockRoundTrip(r.start);
    BlockRoundTrip(r.end);
  }

  function EncodeStrategy(s: Strategy): Json {
    match s
    case FixedList(numbers) => JObject(map["numbers" := JArray(EncodeAll(numbers, EncodeBlock))])
    case LatestN(n) => JObject(map["n" := JNumber(n)])
    case Random(range, count, seed) =>
      JObject(map["range" := EncodeRange(range), "count" := JNumber(count), "seed" := JNumber(seed)])
    case SparseSteps(range, step) => JObject(map["range" := EncodeRange(range), "step" := JNumber(step)])
  }

  function DecodeStrategy(kind: string, data: Json): Result<Strategy> {
    if kind == "fixed_list" then
      var numbers :- ListMember(data, "numbers", DecodeBlock);
      Ok(FixedList(numbers))
    else if kind == "latest_n" then
      var n :- UintMember(data, "n");
      Ok(LatestN(n))
    else if kind == "random" then
      var range :- RangeMember(data, "range");
      var count :- UintMember(data, "count");
      var seed :- IntMember(data, "seed");
      Ok(Random(range, count, seed))
    else if kind == "sparse_steps" then
      var range :- RangeMember(data, "range");
      var step :- UintMember(data, "step");
      Ok(SparseSteps(range, step))
    else Err("persistence: unknown strategy kind")
  }

  predicate RangeOk(s: Strategy) {
    match s
    case Random(range, _, _) => range.WellFormed()
    case SparseSteps(range, _) => range.WellFormed()
    case _ => true
  }

  /** A strategy survives exactly when its range is not inverted. */
  lemma StrategyRoundTrip(s: Strategy)
    ensures var r := DecodeStrategy(StrategyKind(s), EncodeStrategy(s));
      if RangeOk(s) then r == Ok(s) else r.Err?
  {
    hide RangeMember, EncodeRange, EncodeAll, DecodeAll, EncodeBlock, DecodeBlock;
    match s
    case FixedList(numbers) => BlocksRoundTrip(numbers);
    case LatestN(_) =>
    case Random(range, _, _) => RangeRoundTrip(EncodeStrategy(s).fields, "range", range);
    case SparseSteps(range, _) => RangeRoundTrip(EncodeStrategy(s).fields, "range", range);
  }

  // ---- address and token plans --------------------------------------------

  function AddressPlanKind(p: AddressPlan): string {
    match p
    case KnownAddresses(_) => "known"
    case TopNHolders(_) => "top_n"
    case RandomAddresses(_, _) => "random"
    case RecentlyActive(_, _, _) => "recently_active"
  }

  function EncodeAddressPlanData(hash: Hasher, p: AddressPlan): Json {
    match p
    case KnownAddresses(addrs) => JObject(map["addresses" := JArray(EncodeAll(addrs, AddressEncoder(hash)))])
    case TopNHolders(n) => JObject(map["n" := JNumber(n)])
    case RandomAddresses(count, seed) => JObject(map["count" := JNumber(count), "seed" := JNumber(seed)])
    case RecentlyActive(blocks, count, seed) =>
      JObject(map["recent_blocks" := JNumber(blocks), "count" := JNumber(count), "seed" := JNumber(seed)])
  }

  function DecodeAddressPlanData(hash: Hasher, kind: string, data: Json): Result<AddressPlan> {
    if kind == "known" then
      var addrs :- ListMember(data, "addresses", AddressDecoder(hash));
      Ok(KnownAddresses(addrs))
    else if kind == "top_n" then
      var n :- UintMember(data, "n");
      Ok(TopNHolders(n))
    else if kind == "random" then
      var count :- UintMember(data, "count");
      var seed :- IntMember(data, "seed");
      Ok(RandomAddresses(count, seed))
    else if kind == "recently_active" then
      var blocks :- UintMember(data, "recent_blocks");
      var count :- UintMember(data, "count");
      var seed :- IntMember(data, "seed");
      Ok(RecentlyActive(blocks, count, seed))
    else Err("persistence: unknown address plan kind")
  }

  function Envelope(kind: string, data: Json): Json { JObject(map["kind" := JString(kind), "data" := data]) }

  /** The data member, kept raw; an envelope without one does not decode. */
  function RawData(envelope: Json): Result<Json> {
    var m :- Member(envelope, "data");
    match m
    case None => Err("unexpected end of JSON input")
    case Some(data) => Ok(data)
  }

  function AddressPlanEncoder(hash: Hasher): AddressPlan -> Json {
    p => Envelope(AddressPlanKind(p), EncodeAddressPlanData(hash, p))
  }

  function DecodeAddressPlan(hash: Hasher, j: Json): Result<AddressPlan> {
    var kind :- StringMember(j, "kind");
    var data :- RawData(j);
    DecodeAddressPlanData(hash, kind, data)
  }

  function AddressPlanDecoder(hash: Hasher): Json -> Result<AddressPlan> { j => DecodeAddressPlan(hash, j) }

  lemma AddressPlanRoundTrip(hash: Hasher, p: AddressPlan)
    ensures DecodeAddressPlan(hash, AddressPlanEncoder(hash)(p)) == Ok(p)
  {
    hide EncodeAddressPlanData, DecodeAddressPlanData, AddressPlanKind;
    OpenEnvelope(AddressPlanKind(p), EncodeAddressPlanData(hash, p));
    AddressPlanDataRoundTrip(hash, p);
  }

  lemma AddressPlanDataRoundTrip(hash: Hasher, p: AddressPlan)
    ensures DecodeAddressPlanData(hash, AddressPlanKind(p), EncodeAddressPlanData(hash, p)) == Ok(p)
  {
    hide EncodeAll, DecodeAll, AddressEncoder, AddressDecoder;
    if p.KnownAddresses? { AddressesRoundTrip(hash, p.addresses); }
  }

  lemma OpenEnvelope(kind: string, data: Json)
    ensures StringMember(Envelope(kind, data), "kind") == Ok(kind) && RawData(Envelope(kind, data)) == Ok(data)
  {
  }

  function EncodeTokenPlanData(hash: Hasher, p: TokenPlan): Json {
    JObject(map["tokens" := JArray(EncodeAll(p.tokens, AddressEncoder(hash)))])
  }

  function TokenPlanEncoder(hash: Hasher): TokenPlan -> Json { p => Envelope("known_tokens", EncodeTokenPlanData(hash, p)) }

  function DecodeTokenPlan(hash: Hasher, j: Json): Result<TokenPlan> {
    var kind :- StringMember(j, "kind");
    var data :- RawData(j);
    if kind == "known_tokens" then
      var tokens :- ListMember(data, "tokens", AddressDecoder(hash));
      Ok(KnownTokens(tokens))
    else Err("persistence: unknown token plan kind")
  }

  function TokenPlanDecoder(hash: Hasher): Json -> Result<TokenPlan> { j => DecodeTokenPlan(hash, j) }

  /** A plan column: absent, null and [] all mean no plans. */
  function DecodeColumn<T>(column: Option<Json>, decode: Json -> Result<T>): Result<seq<T>> {
    match column
    case None | Some(JNull) => Ok([])
    case Some(JArray(items)) => DecodeAll(items, decode)
    case Some(_) => Err("persistence: decode column")
  }

  /** unmarshalAddressPlans and unmarshalTokenPlans. */
  method UnmarshalColumn<T>(column: Option<Json>, decode: Json -> Result<T>) returns (r: Result<seq<T>>)
    ensures r == DecodeColumn(column, decode)
  {
    if column == None || column == Some(JNull) || column == Some(JArray([])) { return Ok([]); }
    if !column.value.JArray? { return Err("persistence: decode column"); }
    r := DecodeList(column.value.items, decode);
  }

  function EncodeAddressPlans(hash: Hasher, plans: seq<AddressPlan>): Json { JArray(EncodeAll(plans, AddressPlanEncoder(hash))) }

  function EncodeTokenPlans(hash: Hasher, plans: seq<TokenPlan>): Json { JArray(EncodeAll(plans, TokenPlanEncoder(hash))) }

  lemma AddressPlansRoundTrip(hash: Hasher, plans: seq<AddressPlan>)
    ensures DecodeColumn(Some(EncodeAddressPlans(hash, plans)), AddressPlanDecoder(hash)) == Ok(plans)
  {
    hide DecodeAddressPlan, Envelope;
    forall p | p in plans ensures AddressPlanDecoder(hash)(AddressPlanEncoder(hash)(p)) == Ok(p) { AddressPlanRoundTrip(hash, p); }
    DecodeEncoded(plans, AddressPlanEncoder(hash), AddressPlanDecoder(hash));
  }

  lemma TokenPlanRoundTrip(hash: Hasher, p: TokenPlan)
    ensures DecodeTokenPlan(hash, TokenPlanEncoder(hash)(p)) == Ok(p)
  {
    hide EncodeAll, DecodeAll, AddressEncoder, AddressDecoder, Envelope;
    OpenEnvelope("known_tokens", EncodeTokenPlanData(hash, p));
    AddressesRoundTrip(hash, p.tokens);
  }

  lemma TokenPlansRoundTrip(hash: Hasher, plans: seq<TokenPlan>)
    ensures DecodeColumn(Some(EncodeTokenPlans(hash, plans)), TokenPlanDecoder(hash)) == Ok(plans)
  {
    hide DecodeTokenPlan, Envelope;
    forall p | p in plans ensures TokenPlanDecoder(hash)(TokenPlanEncoder(hash)(p)) == Ok(p) { TokenPlanRoundTrip(hash, p); }
    DecodeEncoded(plans, TokenPlanEncoder(hash), TokenPlanDecoder(hash));
  }

  // ---- summary subjects ---------------------------------------------------

  function KindName(k: SubjectKind): string {
    match k
    case KindBlock => "block"
    case KindAddressLatest => "address_latest"
    case KindAddressAtBlock => "address_at_block"
    case KindERC20Balance => "erc20_balance"
    case KindERC20Holdings => "erc20_holdings"
    case KindSnapshot => "snapshot"
    case KindOther(name) => name
  }

  function KindOf(name: string): SubjectKind {
    if name == "block" then KindBlock
    else if name == "address_latest" then KindAddressLatest
    else if name == "address_at_block" then KindAddressAtBlock
    else if name == "erc20_balance" then KindERC20Balance
    else if name == "erc20_holdings" then KindERC20Holdings
    else if name == "snapshot" then KindSnapshot
    else KindOther(name)
  }

  /** The members of subjectJSON; omitempty drops nil pointers and an empty name. */
  function EncodeSubject(hash: Hasher, s: SummarySubject): Json {
    var k := map["k" := JString(KindName(s.kind))];
    var b := if s.block.Some? then k["b" := EncodeBlock(s.block.value)] else k;
    var a := if s.address.Some? then b["a" := EncodeAddress(hash, s.address.value)] else b;
    var t := if s.token.Some? then a["t" := EncodeAddress(hash, s.token.value)] else a;
    JObject(if s.name != "" then t["n" := JString(s.name)] else t)
  }

  /** A pointer member: absent and null are nil. */
  function OptionalMember<T>(j: Json, key: string, decode: Json -> Result<T>): Result<Option<T>> {
    var m :- Member(j, key);
    match m
    case None | Some(JNull) => Ok(None)
    case Some(v) =>
      var x :- decode(v);
      Ok(Some(x))
  }

  function DecodeSubject(hash: Hasher, j: Json): Result<SummarySubject> {
    var kind :- StringMember(j, "k");
    var block :- OptionalMember(j, "b", DecodeBlock);
    var address :- OptionalMember(j, "a", AddressDecoder(hash));
    var token :- OptionalMember(j, "t", AddressDecoder(hash));
    var name :- StringMember(j, "n");
    Ok(SummarySubject(KindOf(kind), block, address, token, name))
  }

  function EncodedOption<T>(x: Option<T>, encode: T -> Json): Option<Json> {
    match x
    case None => None
    case Some(v) => Some(encode(v))
  }

  /** Each member of an encoded subject, by its key. */
  lemma SubjectMembers(hash: Hasher, s: SummarySubject)
    ensures var j := EncodeSubject(hash, s);
      && Member(j, "k") == Ok(Some(JString(KindName(s.kind))))
      && Member(j, "b") == Ok(EncodedOption(s.block, EncodeBlock))
      && Member(j, "a") == Ok(EncodedOption(s.address, AddressEncoder(hash)))
      && Member(j, "t") == Ok(EncodedOption(s.token, AddressEncoder(hash)))
      && Member(j, "n") == Ok(if s.name == "" then None else Some(JString(s.name)))
  {
    hide EncodeBlock, EncodeAddress, KindName;
  }

  lemma SubjectRoundTrip(hash: Hasher, s: SummarySubject)
    requires KindOf(KindName(s.kind)) == s.kind
    ensures DecodeSubject(hash, EncodeSubject(hash, s)) == Ok(s)
  {
    hide EncodeSubject, KindName, KindOf, Member, DecodeBlock, DecodeAddress;
    SubjectMembers(hash, s);
    if s.block.Some? { BlockRoundTrip(s.block.value); }
    if s.address.Some? { AddressRoundTrip(hash, s.address.value); }
    if s.token.Some? { AddressRoundTrip(hash, s.token.value); }
  }

  function SubjectEncoder(hash: Hasher): SummarySubject -> Json { s => EncodeSubject(hash, s) }

  function SubjectDecoder(hash: Hasher): Json -> Result<SummarySubject> { j => DecodeSubject(hash, j) }

  function EncodeSubjects(hash: Hasher, subjects: seq<SummarySubject>): Json { JArray(EncodeAll(subjects, SubjectEncoder(hash))) }

  /** Valid subjects are of a known kind, so they survive. */
  lemma SubjectsRoundTrip(hash: Hasher, subjects: seq<SummarySubject>)
    requires forall s :: s in subjects ==> s.IsValid()
    ensures DecodeColumn(Some(EncodeSubjects(hash, subjects)), SubjectDecoder(hash)) == Ok(subjects)
  {
    hide DecodeSubject, EncodeSubject;
    forall s | s in subjects ensures SubjectDecoder(hash)(SubjectEncoder(hash)(s)) == Ok(s) {
      SubjectRoundTrip(hash, s);
    }
    DecodeEncoded(subjects, SubjectEncoder(hash), SubjectDecoder(hash));
  }

  // ---- value snapshots ----------------------------------------------------

  function EncodeSnapshot(v: ValueSnapshot): Json {
    var raw := map["raw" := JString(v.raw)];
    JObject(if v.reflected.Some? then raw["reflected_block" := EncodeBlock(v.reflected.value)] else raw)
  }

  function DecodeSnapshot(j: Json): Result<ValueSnapshot> {
    var raw :- StringMember(j, "raw");
    var reflected :- OptionalMember(j, "reflected_block", DecodeBlock);
    Ok(ValueSnapshot(raw, reflected))
  }

  lemma SnapshotRoundTrip(v: ValueSnapshot)
    ensures DecodeSnapshot(EncodeSnapshot(v)) == Ok(v)
  {
    if v.reflected.Some? { BlockRoundTrip(v.reflected.value); }
  }

  function EncodeValues(values: Snapshots): Json { JObject(map sid | sid in values :: EncodeSnapshot(values[sid])) }

  function DecodeValues(j: Json): Result<Snapshots> {
    match j
    case JNull => Ok(map[])
    case JObject(fields) =>
      if forall sid :: sid in fields ==> DecodeSnapshot(fields[sid]).Ok? then
        Ok(map sid | sid in fields :: DecodeSnapshot(fields[sid]).value)
      else Err("persistence: decode values")
    case _ => Err("persistence: decode values")
  }

  lemma ValuesRoundTrip(values: Snapshots)
    ensures DecodeValues(EncodeValues(values)) == Ok(values)
  {
    var fields := EncodeValues(values).fields;
    forall sid | sid in values ensures DecodeSnapshot(fields[sid]) == Ok(values[sid]) { SnapshotRoundTrip(values[sid]); }
    assert values == map sid | sid in fields :: DecodeSnapshot(fields[sid]).value;
  }

  /** marshalValues: the map is copied entry by entry, in map order. */
  method MarshalValues(values: Snapshots) returns (j: Json)
    ensures j == EncodeValues(values)
  {
    var out: map<string, Json> := map[];
    var todo := values.Keys;
    while todo != {}
      invariant todo <= values.Keys
      invariant out == map sid | sid in values.Keys - todo :: EncodeSnapshot(values[sid])
      decreases |todo|
    {
      var sid :| sid in todo;
      out := out[sid := EncodeSnapshot(values[sid])];
      todo := todo - {sid};
    }
    j := JObject(out);
  }

  /** unmarshalValues. */
  method UnmarshalValues(j: Json) returns (r: Result<Snapshots>)
    ensures r == DecodeValues(j)
  {
    if j.JNull? { return Ok(map[]); }
    if !j.JObject? { return Err("persistence: decode values"); }
    var fields := j.fields;
    var out: Snapshots := map[];
    var todo := fields.Keys;
    while todo != {}
      invariant todo <= fields.Keys
      invariant forall sid :: sid in fields.Keys - todo ==> DecodeSnapshot(fields[sid]).Ok?
      invariant out == map sid | sid in fields.Keys - todo :: DecodeSnapshot(fields[sid]).value
      decreases |todo|
    {
      var sid :| sid in todo;
      var snap := DecodeSnapshot(fields[sid]);
      if snap.Err? { return Err("persistence: decode values"); }
      out := out[sid := snap.value];
      todo := todo - {sid};
    }
    assert fields.Keys - todo == fields.Keys;
    return Ok(out);
  }
}
