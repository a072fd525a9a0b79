/** Metrics, their categories and capabilities (internal/verification/metric.go,
internal/source/capability.go, internal/source/tier.go). */
module Metrics {
  datatype Category = CatBlockImmutable | CatAddressLatest | CatAddressAtBlock | CatSnapshot | OtherCategory(name: string)

  datatype Capability =
    | BlockHash | BlockParentHash | BlockTimestamp | BlockTxCount | BlockGasUsed
    | BlockStateRoot | BlockReceiptsRoot | BlockTransactionsRoot | BlockMiner
    | BalanceAtLatest | NonceAtLatest | TxCountAtLatest
    | BalanceAtBlock | NonceAtBlock
    | TotalAddressCount | TotalTxCount | ERC20TokenCount | TotalContractCount
    | ERC20BalanceAtLatest | ERC20HoldingsAtLatest
    | InternalTxByTx | InternalTxByBlock
    | OtherCapability(name: string)

  datatype Metric = Metric(key: string, category: Category, capability: Capability)

  /** Capability.Tier: 0 is unknown, 1 to 3 are A to C. */
  function Tier(c: Capability): nat {
    match c
    case BlockHash | BlockParentHash | BlockStateRoot | BlockReceiptsRoot | BlockTransactionsRoot => 1
    case BlockTimestamp | BlockTxCount | BlockGasUsed | BlockMiner => 1
    case BalanceAtLatest | NonceAtLatest | TxCountAtLatest | BalanceAtBlock | NonceAtBlock => 1
    case TotalAddressCount | TotalTxCount | TotalContractCount | ERC20TokenCount | ERC20HoldingsAtLatest => 2
    case ERC20BalanceAtLatest | InternalTxByTx | InternalTxByBlock => 3
    case OtherCapability(_) => 0
  }

  /** AllMetrics: the built-in catalog, in declaration order. */
  const CATALOG: seq<Metric> := [
    Metric("block.hash", CatBlockImmutable, BlockHash),
    Metric("block.parent_hash", CatBlockImmutable, BlockParentHash),
    Metric("block.timestamp", CatBlockImmutable, BlockTimestamp),
    Metric("block.tx_count", CatBlockImmutable, BlockTxCount),
    Metric("block.gas_used", CatBlockImmutable, BlockGasUsed),
    Metric("block.state_root", CatBlockImmutable, BlockStateRoot),
    Metric("block.receipts_root", CatBlockImmutable, BlockReceiptsRoot),
    Metric("block.transactions_root", CatBlockImmutable, BlockTransactionsRoot),
    Metric("block.miner", CatBlockImmutable, BlockMiner),
    Metric("address.balance_latest", CatAddressLatest, BalanceAtLatest),
    Metric("address.nonce_latest", CatAddressLatest, NonceAtLatest),
    Metric("address.tx_count_latest", CatAddressLatest, TxCountAtLatest),
    Metric("address.balance_at_block", CatAddressAtBlock, BalanceAtBlock),
    Metric("address.nonce_at_block", CatAddressAtBlock, NonceAtBlock),
    Metric("snapshot.total_addresses", CatSnapshot, TotalAddressCount),
    Metric("snapshot.total_txs", CatSnapshot, TotalTxCount),
    Metric("snapshot.total_contracts", CatSnapshot, TotalContractCount),
    Metric("snapshot.erc20_token_count", CatSnapshot, ERC20TokenCount),
    Metric("address.erc20_balance_latest", CatAddressLatest, ERC20BalanceAtLatest),
    Metric("address.erc20_holdings_latest", CatAddressLatest, ERC20HoldingsAtLatest),
    Metric("trace.internal_tx_by_tx", CatBlockImmutable, InternalTxByTx),
    Metric("trace.internal_tx_by_block", CatBlockImmutable, InternalTxByBlock)
  ]
}
