/** Blocks: header rules, the builder, and sequential execution under one gas budget. */
module Blocks {
  import opened Arithmetic
  import opened Bytes
  import opened Gas
  import opened World
  import opened Evm
  import opened Transactions
  import opened Transition
  import opened BaseFee

  datatype Header = Header(
    parentHash: Digest, ommersHash: Digest, coinbase: Address, stateRoot: Digest, transactionsRoot: Digest,
    receiptsRoot: Digest, logsBloom: Bloom, difficulty: nat, number: nat, gasLimit: nat, gasUsed: nat,
    timestamp: nat, extraData: seq<Byte>, mixHash: Digest, nonce: seq<Byte>, baseFee: Option<nat>)

  datatype Block = Block(header: Header, transactions: seq<Transaction>, receipts: seq<Receipt>)

  /** A 2048-bit bloom filter. */
  type Bloom = s: seq<Byte> | |s| == 256 witness seq(256, _ => 0)

  /** Hashes of headers and lists, computed elsewhere. */
  datatype Commitments = Commitments(
    headerHash: Header -> Digest, stateRoot: State -> Digest, transactionsRoot: seq<Transaction> -> Digest,
    receiptsRoot: seq<Receipt> -> Digest, bloom: seq<Receipt> -> Bloom, noOmmers: Digest)

  const MAX_EXTRA_DATA_BYTES: nat := 32
  const ZERO_DIGEST: Digest := Zeros(32)

  // ---------------------------------------------------------------------------------------------
  // Header rules
  // ---------------------------------------------------------------------------------------------

  predicate WellFormed(h: Header) {
    h.gasUsed <= h.gasLimit && |h.extraData| <= MAX_EXTRA_DATA_BYTES && |h.nonce| == 8
  }

  predicate ValidHeader(h: Header, config: ChainConfig) {
    WellFormed(h) && |h.extraData| <= config.maxExtraDataBytes
  }

  function Distance(a: int, b: int): nat {
    if a < b then b - a else a - b
  }

  predicate ValidAgainstParent(c: Commitments, h: Header, parent: Option<Header>, config: ChainConfig)
    requires config.Valid()
  {
    parent.Some? ==>
      && h.parentHash == c.headerHash(parent.value)
      && h.number == parent.value.number + 1
      && h.timestamp >= parent.value.timestamp
      && Distance(h.gasLimit, parent.value.gasLimit) <= Max(parent.value.gasLimit / config.gasLimitBoundDivisor, 1)
  }

  /** The base fee a child of `parent` must carry; `None` when computing it raises. */
  function ExpectedBaseFee(parent: Option<Header>, config: ChainConfig): Option<nat>
    requires config.Valid()
  {
    if parent.None? then Some(config.initialBaseFee)
    else
      var p := parent.value;
      NextBaseFee(if p.baseFee.None? then config.initialBaseFee else p.baseFee.value, p.gasUsed,
                  GasTarget(p.gasLimit, config.elasticityMultiplier), config.baseFeeMaxChangeDenominator)
  }

  predicate ValidBaseFee(h: Header, parent: Option<Header>, config: ChainConfig)
    requires config.Valid()
  {
    if config.feeModel == LegacyFees then h.baseFee.None?
    else h.baseFee.Some? && ExpectedBaseFee(parent, config) == h.baseFee
  }

  function GasTotal(receipts: seq<Receipt>): int {
    if receipts == [] then 0 else GasTotal(receipts[..|receipts| - 1]) + receipts[|receipts| - 1].gasUsed
  }

  /** Every receipt carries the running total of gas used up to and including itself. */
  predicate RunningTotals(receipts: seq<Receipt>) {
    forall i :: 0 <= i < |receipts| ==> receipts[i].cumulativeGasUsed == GasTotal(receipts[..i + 1])
  }

  predicate ValidGas(block: Block, payloadGas: int) {
    && block.header.gasUsed <= block.header.gasLimit
    && block.header.gasUsed == payloadGas
    && if block.receipts == [] then block.header.gasUsed == 0
       else
         && |block.receipts| == |block.transactions|
         && RunningTotals(block.receipts)
         && GasTotal(block.receipts) == block.header.gasUsed
  }

  predicate ValidRoots(c: Commitments, block: Block, stateRoot: Digest) {
    && block.header.transactionsRoot == c.transactionsRoot(block.transactions)
    && block.header.receiptsRoot == c.receiptsRoot(block.receipts)
    && block.header.logsBloom == c.bloom(block.receipts)
    && block.header.ommersHash == c.noOmmers
    && block.header.stateRoot == stateRoot
  }

  predicate ValidStructure(
    c: Commitments, block: Block, parent: Option<Header>, config: ChainConfig, payloadGas: int, stateRoot: Digest)
    requires config.Valid()
  {
    && ValidHeader(block.header, config)
    && ValidAgainstParent(c, block.header, parent, config)
    && ValidBaseFee(block.header, parent, config)
    && ValidGas(block, payloadGas)
    && ValidRoots(c, block, stateRoot)
  }

  /** What is checked before execution. */
  predicate ValidForExecution(c: Commitments, block: Block, parent: Option<Header>, config: ChainConfig)
    requires config.Valid()
  {
    && ValidHeader(block.header, config)
    && ValidAgainstParent(c, block.header, parent, config)
    && ValidBaseFee(block.header, parent, config)
    && forall i :: 0 <= i < |block.transactions| ==> block.transactions[i].GasLimit() <= block.header.gasLimit
  }

  function EnvOf(h: Header, config: ChainConfig): BlockEnv {
    BlockEnv(h.number, h.timestamp, h.gasLimit, h.coinbase, h.baseFee, config.chainId)
  }

  // ---------------------------------------------------------------------------------------------
  // The builder
  // ---------------------------------------------------------------------------------------------

  /** What the caller of the builder chooses. */
  datatype Request = Request(timestamp: nat, gasLimit: nat, beneficiary: Address, extraData: seq<Byte>)

  /** Builds and checks a block; `None` when the builder raises. */
  function BuildBlock(
    c: Commitments, parent: Option<Header>, transactions: seq<Transaction>, receipts: seq<Receipt>, gasUsed: int,
    stateRoot: Digest, request: Request, config: ChainConfig)
    : (r: Option<Block>)
    requires config.Valid()
  {
    if |receipts| != |transactions| then None
    else if config.feeModel == Eip1559Fees && ExpectedBaseFee(parent, config).None? then None
    else if gasUsed < 0 then None
    else
      var header := Header(
        if parent.None? then ZERO_DIGEST else c.headerHash(parent.value), c.noOmmers, request.beneficiary, stateRoot,
        c.transactionsRoot(transactions), c.receiptsRoot(receipts), c.bloom(receipts), 0,
        if parent.None? then 0 else parent.value.number + 1, request.gasLimit, gasUsed, request.timestamp,
        request.extraData, ZERO_DIGEST, Zeros(8),
        if config.feeModel == Eip1559Fees then ExpectedBaseFee(parent, config) else None);
      var block := Block(header, transactions, receipts);
      if WellFormed(header) && ValidStructure(c, block, parent, config, gasUsed, stateRoot) then Some(block) else None
  }

  // ---------------------------------------------------------------------------------------------
  // Execution
  // ---------------------------------------------------------------------------------------------

  function Total(results: seq<TransactionResult>, f: TransactionResult -> int): int {
    if results == [] then 0 else Total(results[..|results| - 1], f) + f(results[|results| - 1])
  }

  function GasOf(r: TransactionResult): int { r.gasUsed }
  function BurnedOf(r: TransactionResult): int { r.baseFeeBurned }
  function CoinbaseOf(r: TransactionResult): int { r.coinbaseFee }
  function PaidOf(r: TransactionResult): int { r.totalFeePaid }

  function Receipts(results: seq<TransactionResult>): (receipts: seq<Receipt>)
    ensures |receipts| == |results|
    ensures forall i :: 0 <= i < |results| ==> receipts[i] == results[i].receipt
  {
    seq(|results|, i requires 0 <= i < |results| => results[i].receipt)
  }

  /** What executing some transactions has produced so far. */
  datatype Progress = Progress(results: seq<TransactionResult>, state: State)

  /** One more transaction, if it fits what is left of the gas budget. */
  function ApplyNext(x: Externals, p: Progress, tx: Transaction, env: BlockEnv, config: ChainConfig): TxResult<Progress>
    requires config.Valid()
  {
    var used := Total(p.results, GasOf);
    if tx.GasLimit() > env.gasLimit - used then Reject(BlockGasExceeded)
    else
      var (r, w) :- ApplyTransaction(x, p.state, tx, env, config, used);
      if used + r.gasUsed > env.gasLimit then Reject(BlockGasExceeded) else Accept(Progress(p.results + [r], w))
  }

  /** All transactions in order; the first failure fails the block. */
  function ApplyAll(x: Externals, w: State, txs: seq<Transaction>, env: BlockEnv, config: ChainConfig): TxResult<Progress>
    requires config.Valid()
  {
    if txs == [] then Accept(Progress([], w))
    else
      var p :- ApplyAll(x, w, txs[..|txs| - 1], env, config);
      ApplyNext(x, p, txs[|txs| - 1], env, config)
  }

  datatype BlockResult = BlockResult(
    state: State, gasUsed: int, results: seq<TransactionResult>, coinbaseFees: int, baseFeeBurned: int,
    stateRoot: Digest, transactionsRoot: Digest, receiptsRoot: Digest, bloom: Bloom)

  function Summary(c: Commitments, txs: seq<Transaction>, p: Progress): BlockResult {
    BlockResult(p.state, Total(p.results, GasOf), p.results, Total(p.results, CoinbaseOf), Total(p.results, BurnedOf),
                c.stateRoot(p.state), c.transactionsRoot(txs), c.receiptsRoot(Receipts(p.results)),
                c.bloom(Receipts(p.results)))
  }

  function ApplyBlock(
    c: Commitments, x: Externals, w: State, block: Block, config: ChainConfig, parent: Option<Header>)
    : TxResult<BlockResult>
    requires config.Valid()
  {
    if !ValidForExecution(c, block, parent, config) then Reject(InvalidBlock)
    else
      var p :- ApplyAll(x, w, block.transactions, EnvOf(block.header, config), config);
      Accept(Summary(c, block.transactions, p))
  }

  // ---------------------------------------------------------------------------------------------
  // Conservation over a block
  // ---------------------------------------------------------------------------------------------

  lemma TotalSnoc(results: seq<TransactionResult>, r: TransactionResult, f: TransactionResult -> int)
    ensures Total(results + [r], f) == Total(results, f) + f(r)
  {
    assert (results + [r])[..|results|] == results;
  }

  /** The books of a run of transactions from state `w`. */
  ghost predicate Books(w: State, p: Progress, env: BlockEnv) {
    && TotalBalance(p.state) == TotalBalance(w) - Total(p.results, BurnedOf)
    && Total(p.results, CoinbaseOf) + Total(p.results, BurnedOf) == Total(p.results, PaidOf)
    && Total(p.results, BurnedOf) >= 0
  }

  /** Gas stays within the budget, and the receipts carry the running totals that block validation asks for. */
  ghost predicate GasBooks(p: Progress, env: BlockEnv) {
    && NoPendingClears(p.state)
    && 0 <= Total(p.results, GasOf) <= env.gasLimit
    && RunningTotals(Receipts(p.results)) && GasTotal(Receipts(p.results)) == Total(p.results, GasOf)
  }

  lemma NextGasBooks(x: Externals, p: Progress, tx: Transaction, env: BlockEnv, config: ChainConfig)
    requires config.Valid() && GasBooks(p, env)
    ensures match ApplyNext(x, p, tx, env, config)
      case Reject(_) => true
      case Accept(q) => GasBooks(q, env) && |q.results| == |p.results| + 1
    ensures tx.GasLimit() <= env.gasLimit - Total(p.results, GasOf) ==>
      match ApplyTransaction(x, p.state, tx, env, config, Total(p.results, GasOf))
      case Reject(error) => ApplyNext(x, p, tx, env, config) == Reject(error)
      case Accept((r, w)) => ApplyNext(x, p, tx, env, config) == Accept(Progress(p.results + [r], w))
  {
    hide ApplyTransaction, NoPendingClears, TotalDebt, Total, GasTotal, RunningTotals;
    var used := Total(p.results, GasOf);
    DebtFreeMeaning(p.state);
    TransactionGas(x, p.state, tx, env, config, used);
    match ApplyTransaction(x, p.state, tx, env, config, used)
    case Reject(_) =>
    case Accept((r, w)) =>
      DebtFreeMeaning(w);
      TotalSnoc(p.results, r, GasOf);
      ReceiptsSnoc(p.results, r);
  }

  lemma ReceiptsSnoc(results: seq<TransactionResult>, r: TransactionResult)
    requires RunningTotals(Receipts(results)) && GasTotal(Receipts(results)) == Total(results, GasOf)
    requires r.receipt.gasUsed == r.gasUsed && r.receipt.cumulativeGasUsed == Total(results, GasOf) + r.gasUsed
    ensures RunningTotals(Receipts(results + [r]))
    ensures GasTotal(Receipts(results + [r])) == Total(results, GasOf) + r.gasUsed
  {
    hide Total;
    var before, after := Receipts(results), Receipts(results + [r]);
    assert after[..|after| - 1] == before;
    forall i | 0 <= i < |after|
      ensures after[i].cumulativeGasUsed == GasTotal(after[..i + 1])
    {
      if i < |before| {
        assert after[..i + 1] == before[..i + 1];
      } else {
        assert after[..i + 1] == after;
      }
    }
  }

  lemma NextBooks(x: Externals, w: State, p: Progress, tx: Transaction, env: BlockEnv, config: ChainConfig)
    requires config.Valid() && TotalBalance(w) < MODULUS && Books(w, p, env) && GasBooks(p, env)
    ensures match ApplyNext(x, p, tx, env, config)
      case Reject(_) => true
      case Accept(q) => Books(w, q, env)
  {
    hide ApplyTransaction, NoPendingClears, TotalDebt, Total, GasTotal, RunningTotals, TotalBalance, GasCharged;
    var used := Total(p.results, GasOf);
    DebtFreeMeaning(p.state);
    TransactionConservesEther(x, p.state, tx, env, config, used);
    match ApplyTransaction(x, p.state, tx, env, config, used)
    case Reject(_) =>
    case Accept((r, w1)) =>
      TotalSnoc(p.results, r, BurnedOf);
      TotalSnoc(p.results, r, CoinbaseOf);
      TotalSnoc(p.results, r, PaidOf);
  }

  lemma {:induction false} AllGasBooks(x: Externals, w: State, txs: seq<Transaction>, env: BlockEnv, config: ChainConfig)
    requires config.Valid() && NoPendingClears(w)
    ensures match ApplyAll(x, w, txs, env, config)
      case Reject(_) => true
      case Accept(p) => GasBooks(p, env) && |p.results| == |txs|
  {
    hide ApplyNext, NoPendingClears;
    if txs != [] {
      hide GasBooks;
      var last := |txs| - 1;
      AllGasBooks(x, w, txs[..last], env, config);
      match ApplyAll(x, w, txs[..last], env, config)
      case Reject(_) =>
      case Accept(p) => NextGasBooks(x, p, txs[last], env, config);
    }
  }

  lemma {:induction false} AllBooks(x: Externals, w: State, txs: seq<Transaction>, env: BlockEnv, config: ChainConfig)
    requires config.Valid() && NoPendingClears(w) && TotalBalance(w) < MODULUS
    ensures match ApplyAll(x, w, txs, env, config)
      case Reject(_) => true
      case Accept(p) => Books(w, p, env)
  {
    hide ApplyNext, NoPendingClears, TotalBalance;
    if txs != [] {
      hide GasBooks, Books;
      var last := |txs| - 1;
      AllBooks(x, w, txs[..last], env, config);
      AllGasBooks(x, w, txs[..last], env, config);
      match ApplyAll(x, w, txs[..last], env, config)
      case Reject(_) =>
      case Accept(p) => NextBooks(x, w, p, txs[last], env, config);
    }
  }

  /** For every block: executing it lowers the sum of all balances by exactly the base fees burnt in it, splits every fee
      into a burnt part and a coinbase part, keeps gas within the header's limit, and yields receipts whose running totals
      pass block validation. */
  lemma BlockConservesEther(
    c: Commitments, x: Externals, w: State, block: Block, config: ChainConfig, parent: Option<Header>)
    requires config.Valid() && NoPendingClears(w) && TotalBalance(w) < MODULUS
    ensures match ApplyBlock(c, x, w, block, config, parent)
      case Reject(_) => true
      case Accept(r) =>
        && TotalBalance(r.state) == TotalBalance(w) - r.baseFeeBurned && r.baseFeeBurned >= 0
        && r.coinbaseFees + r.baseFeeBurned == Total(r.results, PaidOf)
        && NoPendingClears(r.state)
        && 0 <= r.gasUsed <= block.header.gasLimit
        && |r.results| == |block.transactions|
        && RunningTotals(Receipts(r.results)) && GasTotal(Receipts(r.results)) == r.gasUsed
  {
    hide ApplyAll, NoPendingClears, TotalBalance, RunningTotals, GasTotal, Total, ValidForExecution;
    var env := EnvOf(block.header, config);
    AllGasBooks(x, w, block.transactions, env, config);
    AllBooks(x, w, block.transactions, env, config);
  }

  // ---------------------------------------------------------------------------------------------
  // Chains
  // ---------------------------------------------------------------------------------------------

  function ParentIn(chain: seq<Header>, i: nat): Option<Header>
    requires i < |chain|
  {
    if i == 0 then None else Some(chain[i - 1])
  }

  /** A chain from genesis on, each header valid against the one before. */
  predicate ValidChain(c: Commitments, chain: seq<Header>, config: ChainConfig)
    requires config.Valid()
  {
    forall i :: 0 <= i < |chain| ==>
      var parent := ParentIn(chain, i);
      ValidHeader(chain[i], config) && ValidBaseFee(chain[i], parent, config) && ValidAgainstParent(c, chain[i], parent, config)
  }

  /** Along every valid chain of a fee-market network the base fee never falls below the smaller of the initial fee and
      the denominator less one. */
  lemma {:induction false} ChainFeeFloor(c: Commitments, chain: seq<Header>, config: ChainConfig, i: nat)
    requires config.Valid() && config.feeModel == Eip1559Fees && ValidChain(c, chain, config) && i < |chain|
    ensures chain[i].baseFee.Some?
    ensures chain[i].baseFee.value >= config.initialBaseFee || chain[i].baseFee.value >= config.baseFeeMaxChangeDenominator - 1
  {
    hide NextBaseFee, ValidAgainstParent, ValidHeader;
    assert ValidBaseFee(chain[i], ParentIn(chain, i), config);
    if i > 0 {
      ChainFeeFloor(c, chain, config, i - 1);
      var p := chain[i - 1];
      FeeFloor(p.baseFee.value, p.gasUsed, GasTarget(p.gasLimit, config.elasticityMultiplier),
               config.baseFeeMaxChangeDenominator);
    }
  }

  lemma ChainStep(c: Commitments, chain: seq<Header>, config: ChainConfig, j: nat)
    requires config.Valid() && ValidChain(c, chain, config) && 0 < j < |chain|
    ensures chain[j].number == chain[j - 1].number + 1 && chain[j - 1].timestamp <= chain[j].timestamp
  {
    hide ValidHeader, ValidBaseFee, Distance, Max;
    assert ValidAgainstParent(c, chain[j], ParentIn(chain, j), config);
  }

  /** Numbers along a valid chain count up by one, and time never runs backwards. */
  lemma {:induction false} ChainNumbers(c: Commitments, chain: seq<Header>, config: ChainConfig, i: nat, j: nat)
    requires config.Valid() && ValidChain(c, chain, config) && i <= j < |chain|
    ensures chain[j].number == chain[i].number + (j - i) && chain[i].timestamp <= chain[j].timestamp
  {
    hide ValidHeader, ValidBaseFee, Distance, Max, ValidChain;
    if i < j {
      ChainNumbers(c, chain, config, i, j - 1);
      ChainStep(c, chain, config, j);
    }
  }
}
