/** Executing blocks, and choosing their transactions, over mutable state. */
module BlockAccess {
  import opened Bytes
  import opened Gas
  import opened World
  import opened StateDb
  import opened Evm
  import opened Transactions
  import opened Transition
  import opened Blocks
  import opened Mining
  import ST = StateTransition

  // ---------------------------------------------------------------------------------------------
  // Loops over lists of transactions
  // ---------------------------------------------------------------------------------------------

  lemma {:induction false} FirstFailureDecides(
    x: Externals, w: State, txs: seq<Transaction>, i: nat, env: BlockEnv, config: ChainConfig)
    requires config.Valid() && i <= |txs| && ApplyAll(x, w, txs[..i], env, config).Reject?
    ensures ApplyAll(x, w, txs, env, config) == ApplyAll(x, w, txs[..i], env, config)
    decreases |txs|
  {
    hide ApplyNext;
    if i == |txs| {
      assert txs[..i] == txs;
    } else {
      var front := txs[..|txs| - 1];
      assert front[..i] == txs[..i];
      FirstFailureDecides(x, w, front, i, env, config);
    }
  }

  lemma OneMore(x: Externals, w: State, txs: seq<Transaction>, i: nat, p: Progress, env: BlockEnv, config: ChainConfig)
    requires config.Valid() && i < |txs| && ApplyAll(x, w, txs[..i], env, config) == Accept(p)
    ensures ApplyAll(x, w, txs[..i + 1], env, config) == ApplyNext(x, p, txs[i], env, config)
    ensures ApplyNext(x, p, txs[i], env, config).Reject? ==>
            ApplyAll(x, w, txs, env, config) == ApplyNext(x, p, txs[i], env, config)
  {
    hide ApplyNext;
    assert txs[..i + 1][..i] == txs[..i];
    if ApplyNext(x, p, txs[i], env, config).Reject? {
      FirstFailureDecides(x, w, txs, i + 1, env, config);
    }
  }

  lemma {:induction false} FullStaysFull(
    x: Externals, w: State, pool: seq<Pending>, i: nat, limits: Limits, env: BlockEnv, config: ChainConfig)
    requires config.Valid() && i <= |pool| && Full(Select(x, w, pool[..i], limits, env, config), limits)
    ensures Select(x, w, pool, limits, env, config) == Select(x, w, pool[..i], limits, env, config)
    decreases |pool|
  {
    hide ApplyTransaction, Full;
    if i == |pool| {
      assert pool[..i] == pool;
    } else {
      var front := pool[..|pool| - 1];
      assert front[..i] == pool[..i];
      FullStaysFull(x, w, front, i, limits, env, config);
    }
  }

  lemma OneMoreConsidered(
    x: Externals, w: State, pool: seq<Pending>, i: nat, limits: Limits, env: BlockEnv, config: ChainConfig)
    requires config.Valid() && i < |pool|
    ensures Select(x, w, pool[..i + 1], limits, env, config)
            == Consider(x, Select(x, w, pool[..i], limits, env, config), pool[i], limits, env, config)
  {
    hide Consider;
    assert pool[..i + 1][..i] == pool[..i];
  }

  /** Executes all transactions in place, stopping at the first failure. */
  method ExecuteAll(working: StateDB, x: Externals, txs: seq<Transaction>, env: BlockEnv, config: ChainConfig)
    returns (r: TxResult<seq<TransactionResult>>)
    requires working.Valid() && config.Valid()
    modifies working.Repr
    ensures working.Valid() && fresh(working.Repr - old(working.Repr))
    ensures match ApplyAll(x, old(working.Value), txs, env, config)
      case Reject(error) => r == Reject(error)
      case Accept(p) => r == Accept(p.results) && working.Value == p.state
  {
    hide Represents, ApplyAll, ApplyTransaction, Total;
    ghost var before := working.Value;
    var results := [];
    var cumulative := 0;
    var i := 0;
    EmptyRun(x, before, env, config);
    while i < |txs|
      invariant 0 <= i <= |txs| && working.Valid() && fresh(working.Repr - old(working.Repr))
      invariant ApplyAll(x, before, txs[..i], env, config) == Accept(Progress(results, working.Value))
      invariant cumulative == Total(results, GasOf)
    {
      OneMore(x, before, txs, i, Progress(results, working.Value), env, config);
      if txs[i].GasLimit() > env.gasLimit - cumulative {
        return Reject(BlockGasExceeded);
      }
      var result := ST.ApplyTransaction(working, x, txs[i], env, config, cumulative);
      if result.Reject? {
        return Reject(result.error);
      }
      TotalSnoc(results, result.value, GasOf);
      cumulative := cumulative + result.value.gasUsed;
      if cumulative > env.gasLimit {
        return Reject(BlockGasExceeded);
      }
      results := results + [result.value];
      i := i + 1;
    }
    assert txs[..i] == txs;
    return Accept(results);
  }

  lemma EmptyRun(x: Externals, w: State, env: BlockEnv, config: ChainConfig)
    requires config.Valid()
    ensures ApplyAll(x, w, [], env, config) == Accept(Progress([], w)) && Total([], GasOf) == 0
  {
  }

  method TotalsOf(results: seq<TransactionResult>) returns (gas: int, fees: int, burned: int)
    ensures gas == Total(results, GasOf) && fees == Total(results, CoinbaseOf) && burned == Total(results, BurnedOf)
  {
    gas, fees, burned := 0, 0, 0;
    var i := 0;
    while i < |results|
      invariant 0 <= i <= |results| && gas == Total(results[..i], GasOf)
      invariant fees == Total(results[..i], CoinbaseOf) && burned == Total(results[..i], BurnedOf)
    {
      assert results[..i + 1] == results[..i] + [results[i]];
      TotalSnoc(results[..i], results[i], GasOf);
      TotalSnoc(results[..i], results[i], CoinbaseOf);
      TotalSnoc(results[..i], results[i], BurnedOf);
      gas, fees, burned := gas + results[i].gasUsed, fees + results[i].coinbaseFee, burned + results[i].baseFeeBurned;
      i := i + 1;
    }
    assert results[..i] == results;
  }

  /** Executes a block on a copy of the state. The state handed in is never changed. */
  method ApplyBlock(
    c: Commitments, x: Externals, oldState: StateDB, block: Block, config: ChainConfig, parent: Option<Header>)
    returns (r: TxResult<BlockResult>, state: StateDB)
    requires oldState.Valid() && config.Valid()
    ensures r == Blocks.ApplyBlock(c, x, oldState.Value, block, config, parent)
    ensures r.Accept? ==> state.Valid() && fresh(state.Repr) && state.Value == r.value.state
  {
    hide Represents, ApplyAll, ValidForExecution;
    if !ValidForExecution(c, block, parent, config) {
      return Reject(InvalidBlock), oldState;
    }
    state := oldState.Clone();
    var executed := ExecuteAll(state, x, block.transactions, EnvOf(block.header, config), config);
    if executed.Reject? {
      return Reject(executed.error), oldState;
    }
    var results := executed.value;
    var gas, fees, burned := TotalsOf(results);
    var value := state.View();
    r := Accept(BlockResult(value, gas, results, fees, burned, c.stateRoot(value), c.transactionsRoot(block.transactions),
                            c.receiptsRoot(Receipts(results)), c.bloom(Receipts(results))));
  }

  /** The greedy loop: whatever fails is passed over, and leaves no trace in the working state. */
  method SelectTransactions(
    working: StateDB, x: Externals, pool: seq<Pending>, limits: Limits, env: BlockEnv, config: ChainConfig)
    returns (included: seq<Pending>, results: seq<TransactionResult>, cumulative: int)
    requires working.Valid() && config.Valid()
    modifies working.Repr
    ensures working.Valid() && fresh(working.Repr - old(working.Repr))
    ensures Selection(included, Progress(results, working.Value)) == Select(x, old(working.Value), pool, limits, env, config)
    ensures cumulative == Total(results, GasOf)
  {
    hide Represents, Select, ApplyTransaction, Total;
    ghost var before := working.Value;
    included, results, cumulative := [], [], 0;
    EmptySelection(x, before, limits, env, config);
    var i := 0;
    while i < |pool|
      invariant 0 <= i <= |pool| && working.Valid() && fresh(working.Repr - old(working.Repr))
      invariant Selection(included, Progress(results, working.Value)) == Select(x, before, pool[..i], limits, env, config)
      invariant cumulative == Total(results, GasOf)
    {
      OneMoreConsidered(x, before, pool, i, limits, env, config);
      var pending := pool[i];
      i := i + 1;
      if limits.exclude(pending) {
        continue;
      }
      if limits.maxTransactions.Some? && |included| >= limits.maxTransactions.value {
        FullStaysFull(x, before, pool, i, limits, env, config);
        return;
      }
      if pending.transaction.GasLimit() > env.gasLimit - cumulative {
        continue;
      }
      var result := ST.ApplyTransaction(working, x, pending.transaction, env, config, cumulative);
      if result.Accept? {
        TotalSnoc(results, result.value, GasOf);
        included := included + [pending];
        results := results + [result.value];
        cumulative := cumulative + result.value.gasUsed;
      }
    }
    assert pool[..i] == pool;
  }

  lemma EmptySelection(x: Externals, w: State, limits: Limits, env: BlockEnv, config: ChainConfig)
    requires config.Valid()
    ensures Select(x, w, [], limits, env, config) == Selection([], Progress([], w)) && Total([], GasOf) == 0
  {
  }

  /** Walks the receipts with a running total, as block validation does. */
  method CheckReceiptTotals(receipts: seq<Receipt>, gasUsed: int) returns (ok: bool)
    ensures ok <==> RunningTotals(receipts) && GasTotal(receipts) == gasUsed
  {
    var cumulative := 0;
    var i := 0;
    while i < |receipts|
      invariant 0 <= i <= |receipts| && cumulative == GasTotal(receipts[..i])
      invariant forall j :: 0 <= j < i ==> receipts[j].cumulativeGasUsed == GasTotal(receipts[..j + 1])
    {
      assert receipts[..i + 1][..i] == receipts[..i];
      cumulative := cumulative + receipts[i].gasUsed;
      if receipts[i].cumulativeGasUsed != cumulative {
        return false;
      }
      i := i + 1;
    }
    assert receipts[..i] == receipts;
    return cumulative == gasUsed;
  }
}
