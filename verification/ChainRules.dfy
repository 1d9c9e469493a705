/** What a valid chain looks like from header to header, and exactly which blocks are executed. */
module ChainRules {
  import opened Arithmetic
  import opened Bytes
  import opened Gas
  import opened World
  import opened Evm
  import opened Transactions
  import opened Transition
  import opened BaseFee
  import opened Blocks
  import opened TransactionOutcome

  // ---------------------------------------------------------------------------------------------
  // From header to header
  // ---------------------------------------------------------------------------------------------

  /** Along every valid chain each header names its parent by hash, moves the gas limit by no more than its share, stays
      within its gas limit and has the base fee that the parent prescribes. */
  lemma ChainLinks(c: Commitments, chain: seq<Header>, config: ChainConfig, i: nat)
    requires config.Valid() && ValidChain(c, chain, config) && 0 < i < |chain|
    ensures var p, h := chain[i - 1], chain[i]; var share := Max(p.gasLimit / config.gasLimitBoundDivisor, 1);
      && h.parentHash == c.headerHash(p) && h.number == p.number + 1 && p.timestamp <= h.timestamp
      && p.gasLimit - share <= h.gasLimit <= p.gasLimit + share
      && h.gasUsed <= h.gasLimit && |h.extraData| <= 32 && |h.extraData| <= config.maxExtraDataBytes
      && (config.feeModel == LegacyFees ==> h.baseFee.None?)
      && (config.feeModel == Eip1559Fees ==>
            && h.baseFee.Some? && p.baseFee.Some?
            && NextBaseFee(p.baseFee.value, p.gasUsed, GasTarget(p.gasLimit, config.elasticityMultiplier),
                           config.baseFeeMaxChangeDenominator) == h.baseFee)
  {
    hide NextBaseFee;
    assert ValidHeader(chain[i], config) && ValidAgainstParent(c, chain[i], ParentIn(chain, i), config);
    assert ValidBaseFee(chain[i], ParentIn(chain, i), config);
    if config.feeModel == Eip1559Fees {
      ChainFeeFloor(c, chain, config, i - 1);
    }
  }

  lemma ChainStart(c: Commitments, chain: seq<Header>, config: ChainConfig)
    requires config.Valid() && ValidChain(c, chain, config) && chain != []
    ensures chain[0].baseFee == if config.feeModel == LegacyFees then None else Some(config.initialBaseFee)
  {
    assert ValidBaseFee(chain[0], ParentIn(chain, 0), config);
  }

  // ---------------------------------------------------------------------------------------------
  // Executing a block
  // ---------------------------------------------------------------------------------------------

  /** The header can stand on its parent. */
  predicate FitsParent(c: Commitments, h: Header, parent: Option<Header>, config: ChainConfig)
    requires config.Valid()
  {
    && h.gasUsed <= h.gasLimit && |h.extraData| <= 32 && |h.extraData| <= config.maxExtraDataBytes && |h.nonce| == 8
    && (parent.Some? ==>
          && h.parentHash == c.headerHash(parent.value) && h.number == parent.value.number + 1
          && parent.value.timestamp <= h.timestamp
          && -Max(parent.value.gasLimit / config.gasLimitBoundDivisor, 1) <= h.gasLimit - parent.value.gasLimit
          && h.gasLimit - parent.value.gasLimit <= Max(parent.value.gasLimit / config.gasLimitBoundDivisor, 1))
    && (config.feeModel == LegacyFees ==> h.baseFee.None?)
    && (config.feeModel == Eip1559Fees ==> h.baseFee.Some? && h.baseFee == ExpectedBaseFee(parent, config))
  }

  lemma HeaderMeaning(c: Commitments, block: Block, parent: Option<Header>, config: ChainConfig)
    requires config.Valid()
    ensures ValidForExecution(c, block, parent, config) <==>
      && FitsParent(c, block.header, parent, config)
      && forall i :: 0 <= i < |block.transactions| ==> block.transactions[i].GasLimit() <= block.header.gasLimit
  {
    hide ExpectedBaseFee;
  }

  /** Transaction `i` can be applied behind the ones before it, and its gas limit fits what they leave of the block. */
  ghost predicate CanApply(x: Externals, w: State, txs: seq<Transaction>, i: nat, env: BlockEnv, config: ChainConfig)
    requires config.Valid() && i < |txs|
  {
    var before := ApplyAll(x, w, txs[..i], env, config);
    && before.Accept?
    && Total(before.value.results, GasOf) + txs[i].GasLimit() <= env.gasLimit
    && IsAcceptable(x, txs[i], before.value.state, env, config)
  }

  /** All transactions of a list are applied exactly if each can be, behind those before it. */
  lemma {:induction false} AppliedInOrder(x: Externals, w: State, txs: seq<Transaction>, env: BlockEnv, config: ChainConfig)
    requires config.Valid() && NoPendingClears(w)
    ensures ApplyAll(x, w, txs, env, config).Accept? <==>
      forall i :: 0 <= i < |txs| ==> CanApply(x, w, txs, i, env, config)
    decreases |txs|
  {
    hide ApplyNext, NoPendingClears, IsAcceptable;
    if txs != [] {
      hide CanApply, GasBooks;
      var last := |txs| - 1;
      var front := txs[..last];
      AppliedInOrder(x, w, front, env, config);
      forall i | 0 <= i < last
        ensures CanApply(x, w, txs, i, env, config) <==> CanApply(x, w, front, i, env, config)
      {
        SameFront(x, w, txs, i, env, config);
      }
      AllGasBooks(x, w, front, env, config);
      LastApplies(x, w, txs, env, config);
    }
  }

  lemma SameFront(x: Externals, w: State, txs: seq<Transaction>, i: nat, env: BlockEnv, config: ChainConfig)
    requires config.Valid() && i < |txs| - 1
    ensures CanApply(x, w, txs, i, env, config) <==> CanApply(x, w, txs[..|txs| - 1], i, env, config)
  {
    hide ApplyAll, IsAcceptable;
    assert txs[..|txs| - 1][..i] == txs[..i];
  }

  lemma LastApplies(x: Externals, w: State, txs: seq<Transaction>, env: BlockEnv, config: ChainConfig)
    requires config.Valid() && txs != []
    requires ApplyAll(x, w, txs[..|txs| - 1], env, config).Accept? ==>
      GasBooks(ApplyAll(x, w, txs[..|txs| - 1], env, config).value, env)
    ensures ApplyAll(x, w, txs, env, config).Accept? <==> CanApply(x, w, txs, |txs| - 1, env, config)
  {
    hide IsAcceptable, ApplyTransaction, ApplyNext, NoPendingClears, RunningTotals, GasTotal;
    var before := ApplyAll(x, w, txs[..|txs| - 1], env, config);
    if before.Accept? {
      var p, tx := before.value, txs[|txs| - 1];
      NextGasBooks(x, p, tx, env, config);
      TooMuchGas(x, p, tx, env, config);
      AppliedExactly(x, p.state, tx, env, config, Total(p.results, GasOf));
    }
  }

  lemma TooMuchGas(x: Externals, p: Progress, tx: Transaction, env: BlockEnv, config: ChainConfig)
    requires config.Valid()
    ensures tx.GasLimit() > env.gasLimit - Total(p.results, GasOf) ==> ApplyNext(x, p, tx, env, config).Reject?
  {
    hide ApplyTransaction;
  }

  /** A block is executed exactly if its header fits and all its transactions can be applied one after the other; the
      result is what they lead to, with the totals of their gas and fees. */
  lemma BlockMeaning(c: Commitments, x: Externals, w: State, block: Block, config: ChainConfig, parent: Option<Header>)
    requires config.Valid() && NoPendingClears(w)
    ensures var r := ApplyBlock(c, x, w, block, config, parent); var h := block.header;
      var env := BlockEnv(h.number, h.timestamp, h.gasLimit, h.coinbase, h.baseFee, config.chainId);
      && (r.Accept? <==>
            && FitsParent(c, h, parent, config)
            && (forall i :: 0 <= i < |block.transactions| ==> block.transactions[i].GasLimit() <= h.gasLimit)
            && forall i :: 0 <= i < |block.transactions| ==> CanApply(x, w, block.transactions, i, env, config))
      && (r.Accept? ==>
            var done := ApplyAll(x, w, block.transactions, env, config);
            && done.Accept? && r.value.results == done.value.results && r.value.state == done.value.state
            && r.value.gasUsed == Total(done.value.results, GasOf)
            && r.value.coinbaseFees == Total(done.value.results, CoinbaseOf)
            && r.value.baseFeeBurned == Total(done.value.results, BurnedOf)
            && r.value.stateRoot == c.stateRoot(done.value.state)
            && r.value.transactionsRoot == c.transactionsRoot(block.transactions)
            && r.value.receiptsRoot == c.receiptsRoot(Receipts(done.value.results))
            && r.value.bloom == c.bloom(Receipts(done.value.results)))
  {
    hide ApplyAll, NoPendingClears, CanApply, FitsParent, ValidForExecution, Total;
    HeaderMeaning(c, block, parent, config);
    AppliedInOrder(x, w, block.transactions, EnvOf(block.header, config), config);
  }

  // ---------------------------------------------------------------------------------------------
  // The structure of a block
  // ---------------------------------------------------------------------------------------------

  /** The total that the receipt before receipt `i` reports. */
  function TotalBefore(receipts: seq<Receipt>, i: nat): int
    requires i < |receipts|
  {
    if i == 0 then 0 else receipts[i - 1].cumulativeGasUsed
  }

  /** The first receipt reports its own gas, each other one that much more than the one before. */
  predicate AddsUp(receipts: seq<Receipt>) {
    forall i :: 0 <= i < |receipts| ==> receipts[i].cumulativeGasUsed == TotalBefore(receipts, i) + receipts[i].gasUsed
  }

  lemma {:induction false} AddsUpExactly(receipts: seq<Receipt>)
    ensures RunningTotals(receipts) <==> AddsUp(receipts)
    ensures AddsUp(receipts) && receipts != [] ==> receipts[|receipts| - 1].cumulativeGasUsed == GasTotal(receipts)
    decreases |receipts|
  {
    if receipts != [] {
      hide GasTotal, RunningTotals, AddsUp;
      AddsUpExactly(receipts[..|receipts| - 1]);
      LastGas(receipts);
      EmptyGas();
      RunningLast(receipts);
      AddsUpLast(receipts);
    }
  }

  lemma {:induction false} RunningLast(receipts: seq<Receipt>)
    requires receipts != []
    ensures var last := |receipts| - 1;
      (RunningTotals(receipts) <==>
         RunningTotals(receipts[..last]) && receipts[last].cumulativeGasUsed == GasTotal(receipts))
  {
    hide GasTotal;
    var last := |receipts| - 1;
    var front := receipts[..last];
    assert receipts[..last + 1] == receipts;
    forall i | 0 <= i < last
      ensures front[i] == receipts[i] && front[..i + 1] == receipts[..i + 1]
    {
    }
    if RunningTotals(receipts) {
      forall i | 0 <= i < last
        ensures front[i].cumulativeGasUsed == GasTotal(front[..i + 1])
      {
        assert receipts[i].cumulativeGasUsed == GasTotal(receipts[..i + 1]);
      }
    }
    if RunningTotals(front) && receipts[last].cumulativeGasUsed == GasTotal(receipts) {
      forall i | 0 <= i < |receipts|
        ensures receipts[i].cumulativeGasUsed == GasTotal(receipts[..i + 1])
      {
        if i < last {
          assert front[i].cumulativeGasUsed == GasTotal(front[..i + 1]);
        }
      }
    }
  }

  lemma {:induction false} AddsUpLast(receipts: seq<Receipt>)
    requires receipts != []
    ensures var last := |receipts| - 1;
      (AddsUp(receipts) <==>
         && AddsUp(receipts[..last])
         && receipts[last].cumulativeGasUsed == TotalBefore(receipts, last) + receipts[last].gasUsed)
  {
    var last := |receipts| - 1;
    var front := receipts[..last];
    forall i | 0 <= i < last
      ensures front[i] == receipts[i] && TotalBefore(front, i) == TotalBefore(receipts, i)
    {
    }
    if AddsUp(front) && receipts[last].cumulativeGasUsed == TotalBefore(receipts, last) + receipts[last].gasUsed {
      forall i | 0 <= i < |receipts|
        ensures receipts[i].cumulativeGasUsed == TotalBefore(receipts, i) + receipts[i].gasUsed
      {
        assert i < last ==> front[i] == receipts[i];
      }
    }
    if AddsUp(receipts) {
      forall i | 0 <= i < last
        ensures front[i].cumulativeGasUsed == TotalBefore(front, i) + front[i].gasUsed
      {
        assert front[i] == receipts[i];
      }
    }
  }

  lemma LastGas(receipts: seq<Receipt>)
    requires receipts != []
    ensures GasTotal(receipts) == GasTotal(receipts[..|receipts| - 1]) + receipts[|receipts| - 1].gasUsed
  {
  }

  lemma EmptyGas()
    ensures GasTotal([]) == 0
  {
  }

  /** A block is well structured exactly if its header stands on the parent, its gas is that of its payload and of its
      receipts, one per transaction, each adding its own to the one before, and the header commits to what it should. */
  lemma StructureMeaning(
    c: Commitments, block: Block, parent: Option<Header>, config: ChainConfig, payloadGas: int, stateRoot: Digest)
    requires config.Valid()
    ensures var h, receipts := block.header, block.receipts;
      (ValidStructure(c, block, parent, config, payloadGas, stateRoot) <==>
         && FitsParent(c, h, parent, config) && h.gasUsed == payloadGas
         && (receipts == [] ==> h.gasUsed == 0)
         && (receipts != [] ==>
               && |receipts| == |block.transactions| && AddsUp(receipts)
               && receipts[|receipts| - 1].cumulativeGasUsed == h.gasUsed)
         && h.transactionsRoot == c.transactionsRoot(block.transactions) && h.receiptsRoot == c.receiptsRoot(receipts)
         && h.logsBloom == c.bloom(receipts) && h.ommersHash == c.noOmmers && h.stateRoot == stateRoot)
  {
    hide ExpectedBaseFee, RunningTotals, AddsUp, GasTotal;
    AddsUpExactly(block.receipts);
  }

  /** A block with the chosen time, limit, beneficiary and extra data; a first block has number 0 and no parent. */
  predicate AsRequested(
    block: Block, parent: Option<Header>, transactions: seq<Transaction>, receipts: seq<Receipt>, request: Request)
  {
    var h := block.header;
    && block.transactions == transactions && block.receipts == receipts
    && h.timestamp == request.timestamp && h.gasLimit == request.gasLimit && h.coinbase == request.beneficiary
    && h.extraData == request.extraData && h.difficulty == 0 && h.mixHash == Zeros(32) && h.nonce == Zeros(8)
    && (parent.None? ==> h.parentHash == Zeros(32) && h.number == 0)
  }

  /** Given a receipt for every transaction, the builder finds the one well structured block that is as requested, whenever
      there is one. */
  lemma BuilderMeaning(
    c: Commitments, parent: Option<Header>, transactions: seq<Transaction>, receipts: seq<Receipt>, gasUsed: int,
    stateRoot: Digest, request: Request, config: ChainConfig, block: Block)
    requires config.Valid()
    ensures BuildBlock(c, parent, transactions, receipts, gasUsed, stateRoot, request, config) == Some(block) <==>
      && |receipts| == |transactions| && AsRequested(block, parent, transactions, receipts, request)
      && ValidStructure(c, block, parent, config, gasUsed, stateRoot)
  {
    hide ExpectedBaseFee, RunningTotals, GasTotal;
  }

  /** With the receipts of its own execution, a block that is executed is well structured exactly if its header reports
      the gas that was used and commits to the results; everything else about it then holds by itself. */
  lemma ExecutedIsStructured(
    c: Commitments, x: Externals, w: State, block: Block, config: ChainConfig, parent: Option<Header>)
    requires config.Valid() && NoPendingClears(w) && TotalBalance(w) < MODULUS
    ensures var h, r := block.header, ApplyBlock(c, x, w, block, config, parent);
      r.Accept? ==>
        (ValidStructure(c, block.(receipts := Receipts(r.value.results)), parent, config, r.value.gasUsed, r.value.stateRoot)
         <==>
         && h.gasUsed == r.value.gasUsed && h.stateRoot == r.value.stateRoot && h.ommersHash == c.noOmmers
         && h.transactionsRoot == r.value.transactionsRoot && h.receiptsRoot == r.value.receiptsRoot
         && h.logsBloom == r.value.bloom)
  {
    hide ApplyAll, NoPendingClears, TotalBalance, CanApply, FitsParent, AddsUp, RunningTotals, GasTotal, Total;
    var r := ApplyBlock(c, x, w, block, config, parent);
    BlockMeaning(c, x, w, block, config, parent);
    BlockConservesEther(c, x, w, block, config, parent);
    if r.Accept? {
      var receipts := Receipts(r.value.results);
      AddsUpExactly(receipts);
      if receipts == [] {
        EmptyGas();
      }
      StructureMeaning(c, block.(receipts := receipts), parent, config, r.value.gasUsed, r.value.stateRoot);
    }
  }
}
