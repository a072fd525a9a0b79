/** Source results and their canonical renderings
(internal/source/result.go, internal/application/extract.go, the projectors of execute_run.go). */
module Extract {
  import opened Prelude
  import opened Digits
  import opened Address
  import opened Holdings
  import opened Metrics
  import opened Tolerance

  type Hash32 = h: seq<Byte> | |h| == 32 witness seq(32, i => 0)

  datatype BlockResult = BlockResult(
    hash: Option<Hash32>, parentHash: Option<Hash32>, timestamp: Option<int>, txCount: Option<Uint64>,
    gasUsed: Option<Uint64>, stateRoot: Option<Hash32>, receiptsRoot: Option<Hash32>,
    transactionsRoot: Option<Hash32>, miner: Option<Address>)

  /** What a fetch returned, one constructor per fetch method. */
  datatype Response =
    | BlockResponse(block: BlockResult)
    | AddressLatestResponse(balance: Option<int>, nonce: Option<Uint64>, txCount: Option<Uint64>, reflected: Option<Uint64>)
    | AddressAtBlockResponse(balance: Option<int>, nonce: Option<Uint64>, reflected: Option<Uint64>)
    | HoldingsResponse(tokens: seq<TokenHolding>, reflected: Option<Uint64>)
    | BalanceResponse(balance: Option<int>, reflected: Option<Uint64>)

  /** The typed field a capability names; None when the source left it out. */
  datatype Value = HashValue(hash: Hash32) | NumberValue(n: int) | AddressValue(a: Address) | HoldingsValue(tokens: seq<TokenHolding>)

  function HashField(h: Option<Hash32>): Option<Value> {
    match h
    case None => None
    case Some(x) => Some(HashValue(x))
  }

  function NumberField(n: Option<int>): Option<Value> {
    match n
    case None => None
    case Some(x) => Some(NumberValue(x))
  }

  function AddressField(a: Option<Address>): Option<Value> {
    match a
    case None => None
    case Some(x) => Some(AddressValue(x))
  }

  function BlockField(c: Capability, r: BlockResult): Option<Value> {
    match c
    case BlockHash => HashField(r.hash)
    case BlockParentHash => HashField(r.parentHash)
    case BlockStateRoot => HashField(r.stateRoot)
    case BlockReceiptsRoot => HashField(r.receiptsRoot)
    case BlockTransactionsRoot => HashField(r.transactionsRoot)
    case BlockTimestamp => NumberField(r.timestamp)
    case BlockTxCount => NumberField(r.txCount)
    case BlockGasUsed => NumberField(r.gasUsed)
    case BlockMiner => AddressField(r.miner)
    case _ => None
  }

  function Field(c: Capability, r: Response): Option<Value> {
    match r
    case BlockResponse(b) => BlockField(c, b)
    case AddressLatestResponse(balance, nonce, txCount, _) =>
      (match c
       case BalanceAtLatest => NumberField(balance)
       case NonceAtLatest => NumberField(nonce)
       case TxCountAtLatest => NumberField(txCount)
       case _ => None)
    case AddressAtBlockResponse(balance, nonce, _) =>
      (match c
       case BalanceAtBlock => NumberField(balance)
       case NonceAtBlock => NumberField(nonce)
       case _ => None)
    case HoldingsResponse(tokens, _) => Some(HoldingsValue(tokens))
    case BalanceResponse(balance, _) => NumberField(balance)
  }

  function HashHex(h: Hash32): string { "0x" + HexEncode(h) }

  /** The canonical string of a value. */
  function Render(hash: Hasher, v: Value): string {
    match v
    case HashValue(h) => HashHex(h)
    case NumberValue(n) => PrintInt(n)
    case AddressValue(a) => Hex(hash, a)
    case HoldingsValue(tokens) => Canonical(hash, tokens)
  }

  function Reflected(r: Response): Option<Uint64> {
    match r
    case BlockResponse(_) => None
    case _ => r.reflected
  }

  /** project*: the comparison-ready snapshot, or None when the field is missing. */
  function Project(hash: Hasher, c: Capability, r: Response): Option<ValueSnapshot> {
    match Field(c, r)
    case None => None
    case Some(v) => Some(ValueSnapshot(Render(hash, v), Reflected(r)))
  }

  /** What a snapshot of a text is: the text, and the block that the answer reflects. */
  function Snap(text: Option<string>, reflected: Option<Uint64>): Option<ValueSnapshot> {
    match text
    case None => None
    case Some(raw) => Some(ValueSnapshot(raw, reflected))
  }

  function HashText(h: Option<Hash32>): Option<string> { if h.Some? then Some("0x" + HexEncode(h.value)) else None }

  function NumberText(n: Option<int>): Option<string> { if n.Some? then Some(PrintInt(n.value)) else None }

  /** Each block capability reads the field of its name, hashes and the miner in hex and the
      counts in decimal, with no reflected block; any other yields nothing. */
  lemma BlockProjections(hash: Hasher, b: BlockResult, c: Capability)
    ensures Project(hash, BlockHash, BlockResponse(b)) == Snap(HashText(b.hash), None)
    ensures Project(hash, BlockParentHash, BlockResponse(b)) == Snap(HashText(b.parentHash), None)
    ensures Project(hash, BlockStateRoot, BlockResponse(b)) == Snap(HashText(b.stateRoot), None)
    ensures Project(hash, BlockReceiptsRoot, BlockResponse(b)) == Snap(HashText(b.receiptsRoot), None)
    ensures Project(hash, BlockTransactionsRoot, BlockResponse(b)) == Snap(HashText(b.transactionsRoot), None)
    ensures Project(hash, BlockTimestamp, BlockResponse(b)) == Snap(NumberText(b.timestamp), None)
    ensures Project(hash, BlockTxCount, BlockResponse(b)) == Snap(NumberText(b.txCount), None)
    ensures Project(hash, BlockGasUsed, BlockResponse(b)) == Snap(NumberText(b.gasUsed), None)
    ensures Project(hash, BlockMiner, BlockResponse(b)) == Snap(if b.miner.Some? then Some(Hex(hash, b.miner.value)) else None, None)
    ensures Project(hash, c, BlockResponse(b)).Some? ==>
      c in {BlockHash, BlockParentHash, BlockStateRoot, BlockReceiptsRoot, BlockTransactionsRoot,
            BlockTimestamp, BlockTxCount, BlockGasUsed, BlockMiner}
  {
    hide PrintInt, Hex, HexEncode;
  }

  /** An address capability reads the field of its name from its own kind of answer, and
      carries the block the answer reflects. */
  lemma LatestProjections(hash: Hasher, balance: Option<int>, nonce: Option<Uint64>, txCount: Option<Uint64>, at: Option<Uint64>, c: Capability)
    ensures var r := AddressLatestResponse(balance, nonce, txCount, at);
      && Project(hash, BalanceAtLatest, r) == Snap(NumberText(balance), at)
      && Project(hash, NonceAtLatest, r) == Snap(NumberText(nonce), at)
      && Project(hash, TxCountAtLatest, r) == Snap(NumberText(txCount), at)
      && (Project(hash, c, r).Some? ==> c == BalanceAtLatest || c == NonceAtLatest || c == TxCountAtLatest)
  {
    hide PrintInt, Hex, HexEncode, Canonical;
  }

  lemma AtBlockProjections(hash: Hasher, balance: Option<int>, nonce: Option<Uint64>, at: Option<Uint64>, c: Capability)
    ensures var r := AddressAtBlockResponse(balance, nonce, at);
      && Project(hash, BalanceAtBlock, r) == Snap(NumberText(balance), at)
      && Project(hash, NonceAtBlock, r) == Snap(NumberText(nonce), at)
      && (Project(hash, c, r).Some? ==> c == BalanceAtBlock || c == NonceAtBlock)
  {
    hide PrintInt, Hex, HexEncode, Canonical;
  }

  lemma TokenProjections(hash: Hasher, balance: Option<int>, tokens: seq<TokenHolding>, at: Option<Uint64>, c: Capability)
    ensures Project(hash, c, HoldingsResponse(tokens, at)) == Some(ValueSnapshot(Canonical(hash, tokens), at))
    ensures Project(hash, c, BalanceResponse(balance, at)) == Snap(NumberText(balance), at)
  {
    hide PrintInt, Hex, HexEncode, Canonical;
  }

  /** Two values mean the same: equal, or lists that hold the same balances. */
  ghost predicate SameValue(v: Value, w: Value) {
    match (v, w)
    case (HoldingsValue(s), HoldingsValue(t)) => BalanceMap(s) == BalanceMap(t)
    case _ => v == w
  }

  ghost predicate WellFormedValue(v: Value) { v.HoldingsValue? ==> DistinctContracts(v.tokens) }

  /** Comparing raw strings compares values: no two values of a field share a raw, and
      equal values never differ in spelling. */
  lemma RawComparesValues(hash: Hasher, c: Capability, r1: Response, r2: Response)
    requires r1.BlockResponse? == r2.BlockResponse? && r1.HoldingsResponse? == r2.HoldingsResponse?
    requires Field(c, r1).Some? && Field(c, r2).Some?
    requires WellFormedValue(Field(c, r1).value) && WellFormedValue(Field(c, r2).value)
    ensures Project(hash, c, r1).value.raw == Project(hash, c, r2).value.raw <==>
      SameValue(Field(c, r1).value, Field(c, r2).value)
  {
    hide PrintInt, Hex, HexEncode, HexDecode, Canonical, BalanceMap;
    var v, w := Field(c, r1).value, Field(c, r2).value;
    match v
    case HashValue(h) =>
      assert HashHex(h)[2..] == HexEncode(h) && HashHex(w.hash)[2..] == HexEncode(w.hash);
      DecodeEncode(h);
      DecodeEncode(w.hash);
    case NumberValue(n) => if PrintInt(n) == PrintInt(w.n) { PrintIntInjective(n, w.n); }
    case AddressValue(a) => if Hex(hash, a) == Hex(hash, w.a) { HexInjective(hash, a, w.a); }
    case HoldingsValue(s) => CanonicalIffSameBalances(hash, s, w.tokens);
  }
}
