/** What an accepted transaction comes to: when it is accepted, what is run, who pays whom, and what the receipt says. */
module TransactionOutcome {
  import opened Arithmetic
  import opened Bytes
  import opened Gas
  import opened SlotStorage
  import opened World
  import opened Evm
  import opened EvmState
  import opened Transactions
  import opened Transition
  import opened Blocks
  import EvmCalls

  // ---------------------------------------------------------------------------------------------
  // Prices
  // ---------------------------------------------------------------------------------------------

  /** 16 for every byte of data, and 12 less for each that is zero. */
  lemma {:induction false} DataGasMeaning(data: seq<Byte>)
    ensures DataGas(data) == 16 * |data| - 12 * multiset(data)[0]
  {
    if data != [] {
      DataGasMeaning(data[1..]);
      assert data == [data[0]] + data[1..];
      assert multiset(data)[0] == (if data[0] == 0 then 1 else 0) + multiset(data[1..])[0];
    }
  }

  function StorageKeys(entries: seq<AccessListEntry>): nat {
    if entries == [] then 0 else |entries[0].storageKeys| + StorageKeys(entries[1..])
  }

  lemma {:induction false} AccessListGasMeaning(entries: seq<AccessListEntry>)
    ensures AccessListGas(entries) == 2_400 * |entries| + 1_900 * StorageKeys(entries)
  {
    if entries != [] {
      AccessListGasMeaning(entries[1..]);
    }
  }

  function AccessList(tx: Transaction): seq<AccessListEntry> {
    if tx.Legacy? then [] else tx.typed.accessList
  }

  /** Gas that is charged before execution, proofs aside. */
  lemma IntrinsicGasMeaning(tx: Transaction)
    ensures IntrinsicGas(tx)
         == 21_000 + (if tx.To().None? then 32_000 else 0) + 16 * |tx.Data()| - 12 * multiset(tx.Data())[0]
            + 2_400 * |AccessList(tx)| + 1_900 * StorageKeys(AccessList(tx))
  {
    DataGasMeaning(tx.Data());
    AccessListGasMeaning(AccessList(tx));
  }

  // ---------------------------------------------------------------------------------------------
  // Acceptance
  // ---------------------------------------------------------------------------------------------

  predicate TypeIsEnabled(tx: Transaction, config: ChainConfig) {
    if tx.Legacy? then config.supportLegacy else config.supportEip1559 && (tx.Zk? ==> config.supportZk)
  }

  predicate ChainMatches(tx: Transaction, config: ChainConfig) {
    if tx.Legacy? && tx.legacy.chainId.None? then config.allowUnprotectedLegacy
    else config.chainId == if tx.Legacy? then tx.legacy.chainId.value else tx.typed.chainId
  }

  predicate HasProofPrice(tx: Transaction, config: ChainConfig) {
    tx.Zk? ==>
      tx.proof.proofType in config.zkGasModel.baseCosts && tx.proof.proofType in config.zkGasModel.perByteCosts
  }

  /** Gas before execution, for a transaction whose proof has a price. */
  function UpfrontGas(tx: Transaction, config: ChainConfig): nat
    requires HasProofPrice(tx, config)
  {
    var zk := ZkVerificationGas(tx, config.zkGasModel);
    IntrinsicGas(tx) + if zk.Accept? then zk.value else 0
  }

  /** The conditions for acceptance, all of which can be checked on the state before. */
  predicate IsAcceptable(x: Externals, tx: Transaction, w: State, env: BlockEnv, config: ChainConfig) {
    && TypeIsEnabled(tx, config) && ChainMatches(tx, config)
    && x.recover(tx, config.enforceLowS).Some? && OffersEnough(tx, env, config) && HasProofPrice(tx, config)
    && var sender := x.recover(tx, config.enforceLowS).value;
       && tx.Nonce() == At(w, sender).nonce
       && UpfrontGas(tx, config) <= tx.GasLimit() <= env.gasLimit
       && Offer(tx) * tx.GasLimit() + tx.Value() <= At(w, sender).balance
       && (tx.Zk? ==> x.verify.Some? && x.verify.value(tx.proof, tx.publicInputs))
  }

  lemma ValidatedExactly(x: Externals, tx: Transaction, w: State, env: BlockEnv, config: ChainConfig)
    ensures FullyValidate(x, tx, w, env, config).Accept? <==> IsAcceptable(x, tx, w, env, config)
    ensures FullyValidate(x, tx, w, env, config).Accept? ==>
      var v := FullyValidate(x, tx, w, env, config).value;
      && v.sender == x.recover(tx, config.enforceLowS).value && v.preExecutionGas == UpfrontGas(tx, config)
      && FairPrice(tx, env, config, v.pricing)
  {
    hide IntrinsicGas, ZkVerificationGas, OffersEnough, FairPrice, Offer, PricingFor;
    ZkPrice(tx, config);
    OfferIsUpfront(tx, env, config);
  }

  lemma ZkPrice(tx: Transaction, config: ChainConfig)
    ensures ZkVerificationGas(tx, config.zkGasModel).Accept? <==> HasProofPrice(tx, config)
  {
  }

  lemma OfferIsUpfront(tx: Transaction, env: BlockEnv, config: ChainConfig)
    ensures var r := PricingFor(tx, env, config);
      && (r.Accept? <==> OffersEnough(tx, env, config))
      && (r.Accept? ==> r.value.maxUpfront == Offer(tx) && FairPrice(tx, env, config, r.value))
  {
    hide PricingFor;
  }

  /** A transaction is applied exactly if it is acceptable, on any state. */
  lemma AppliedExactly(x: Externals, w: State, tx: Transaction, env: BlockEnv, config: ChainConfig, cumulative: int)
    requires config.Valid()
    ensures ApplyTransaction(x, w, tx, env, config, cumulative).Accept? <==> IsAcceptable(x, tx, w, env, config)
  {
    hide FullyValidate, IsAcceptable, ApplyTransaction;
    ValidatedExactly(x, tx, w, env, config);
    PrepaymentSucceeds(x, w, tx, env, config, cumulative);
  }

  // ---------------------------------------------------------------------------------------------
  // Outcome
  // ---------------------------------------------------------------------------------------------

  /** The sender has paid for all gas in advance, and its nonce is raised. */
  function Prepaid(w: State, sender: Address, amount: nat): State
    requires amount <= At(w, sender).balance
  {
    w[sender := At(w, sender).(balance := At(w, sender).balance - amount, nonce := Wrap(At(w, sender).nonce + 1))]
  }

  lemma PrepaidIsStart(w: State, sender: Address, amount: nat)
    requires amount <= At(w, sender).balance
    ensures StartState(w, sender, amount) == Prepaid(w, sender, amount)
  {
  }

  /** A successful run gives back what storage earned, up to a part of the gas consumed. */
  function Rebate(result: ExecutionResult, consumed: nat, quotient: nat): int
    requires quotient >= 1
  {
    if !result.success then 0 else if result.gasRefund <= consumed / quotient then result.gasRefund else consumed / quotient
  }

  /** What one account gains at the end: its unused gas is paid back to the sender, and the coinbase is paid. */
  function Gain(a: Address, sender: Address, coinbase: Address, back: int, fee: int): int {
    (if a == sender then back else 0) + if a == coinbase then fee else 0
  }

  ghost predicate SettledFrom(executed: Account, after: Account, gain: int) {
    && after.balance == executed.balance + gain && after.nonce == executed.nonce && after.code == executed.code
    && forall k :: SlotAt(after.slots, k).current == SlotAt(executed.slots, k).current
  }

  /** The books of an accepted transaction, given what running it came to. */
  ghost predicate Charged(
    tx: Transaction, env: BlockEnv, config: ChainConfig, cumulative: int, result: ExecutionResult, r: TransactionResult)
    requires config.Valid() && result.gasRemaining <= tx.GasLimit()
  {
    var consumed := tx.GasLimit() - result.gasRemaining;
    var base := if PaysBaseFee(tx, config) && env.baseFee.Some? then env.baseFee.value else 0;
    && r.success == result.success && r.output == result.output && r.gasRemaining == result.gasRemaining
    && r.gasLimit == tx.GasLimit()
    && r.gasUsed == consumed - Rebate(result, consumed, config.gasRefundQuotient)
    && r.totalFeePaid == r.gasUsed * r.effectiveGasPrice
    && r.baseFeeBurned == (if config.burnBaseFee then r.gasUsed * base else 0)
    && r.coinbaseFee == r.gasUsed * r.effectiveGasPrice - r.baseFeeBurned
    && Acceptable(tx, base, r.effectiveGasPrice)
    && (forall price: nat :: Acceptable(tx, base, price) ==> price <= r.effectiveGasPrice)
    && r.receipt == Receipt(if result.success then 1 else 0, cumulative + r.gasUsed, r.gasUsed, result.logs,
                            if tx.Legacy? then None else Some(if tx.Eip1559? then 0x02 else 0x7E), result.created, tx, r.effectiveGasPrice)
  }

  predicate UpfrontIsCovered(w: State, tx: Transaction, v: Validated) {
    v.pricing.effective * tx.GasLimit() <= At(w, v.sender).balance && v.preExecutionGas <= tx.GasLimit()
  }

  ghost predicate Outcome(
    x: Externals, w: State, tx: Transaction, v: Validated, env: BlockEnv, config: ChainConfig, cumulative: int,
    r: TransactionResult, w': State, a: Address)
    requires config.Valid()
  {
    && r.sender == v.sender && r.effectiveGasPrice == v.pricing.effective && UpfrontIsCovered(w, tx, v)
    && var started := Prepaid(w, v.sender, v.pricing.effective * tx.GasLimit());
       var (result, executed) := Run(x, started, tx, v, env, tx.GasLimit() - v.preExecutionGas);
       && result.gasRemaining <= tx.GasLimit() && Charged(tx, env, config, cumulative, result, r)
       && SettledFrom(At(executed, a), At(w', a),
                      Gain(a, r.sender, env.coinbase, r.effectiveGasPrice * (tx.GasLimit() - r.gasUsed), r.coinbaseFee))
  }

  /** From the state before to the state after an accepted transaction. The payload runs on what is left of the gas limit;
      the sender pays the price for the gas used and nothing else, the coinbase gets the fee less what is burnt. */
  lemma TransactionOutcome(
    x: Externals, w: State, tx: Transaction, env: BlockEnv, config: ChainConfig, cumulative: int, v: Validated,
    r: TransactionResult, w': State, a: Address)
    requires config.Valid() && TotalBalance(w) < MODULUS && TotalDebt(w) == 0
    requires FullyValidate(x, tx, w, env, config) == Accept(v)
    requires ApplyTransaction(x, w, tx, env, config, cumulative) == Accept((r, w'))
    ensures Outcome(x, w, tx, v, env, config, cumulative, r, w', a)
  {
    hide Run, FullyValidate, ApplyTransaction, Settle, StartState, FairPrice, IsAcceptable, TotalDebt, TotalBalance, Charged;
    hide SettledFrom, Gain, GasBounds, UpfrontIsCovered, Prepaid, At, Balanced, NoPendingClears;
    PrepaymentSucceeds(x, w, tx, env, config, cumulative);
    ValidatedExactly(x, tx, w, env, config);
    FullyValidatedFacts(x, tx, w, env, config);
    TraceTotals(x, w, tx, v, env);
    var t := TraceOf(x, w, tx, v, env);
    DebtNonNegative(t.executed);
    RefundWithinCap(t.result, tx.GasLimit(), config.gasRefundQuotient);
    SenderCovers(w, tx, v);
    PrepaidIsStart(w, v.sender, v.pricing.effective * tx.GasLimit());
    BalanceBelowTotal(w, v.sender, v.sender);
    SettledOutcome(t.executed, tx, v, env, config, cumulative, t.result, TotalBalance(w), a, r, w');
  }

  lemma SenderCovers(w: State, tx: Transaction, v: Validated)
    requires v.pricing.effective * tx.GasLimit() + tx.Value() <= At(w, v.sender).balance
    requires v.preExecutionGas <= tx.GasLimit()
    ensures UpfrontIsCovered(w, tx, v)
  {
  }

  lemma SettledOutcome(
    w: State, tx: Transaction, v: Validated, env: BlockEnv, config: ChainConfig, cumulative: int, result: ExecutionResult,
    total: nat, a: Address, r: TransactionResult, w': State)
    requires config.Valid() && total < MODULUS && result.gasRefund >= 0
    requires FairPrice(tx, env, config, v.pricing) && v.pricing.effective == v.pricing.priority + v.pricing.baseFee
    requires TotalBalance(w) == total - v.pricing.effective * tx.GasLimit()
    requires result.gasRemaining <= tx.GasLimit() && GasBounds(result, tx.GasLimit(), config.gasRefundQuotient)
    requires (r, w') == Settle(w, tx, v, env, config, cumulative, result)
    ensures r.sender == v.sender && r.effectiveGasPrice == v.pricing.effective
    ensures Charged(tx, env, config, cumulative, result, r)
    ensures SettledFrom(At(w, a), At(w', a),
                        Gain(a, r.sender, env.coinbase, r.effectiveGasPrice * (tx.GasLimit() - r.gasUsed), r.coinbaseFee))
  {
    hide Settle, FairPrice, TotalBalance, Charged, SettledFrom, Gain, GasBounds;
    PriceOf(w, tx, v, env, config, cumulative, result);
    SettleCharges(w, tx, v, env, config, cumulative, result);
    SettleAccounts(w, tx, v, env, config, cumulative, result, total, a);
  }

  lemma PriceOf(
    w: State, tx: Transaction, v: Validated, env: BlockEnv, config: ChainConfig, cumulative: int, result: ExecutionResult)
    requires config.Valid()
    ensures Settle(w, tx, v, env, config, cumulative, result).0.effectiveGasPrice == v.pricing.effective
    ensures Settle(w, tx, v, env, config, cumulative, result).0.sender == v.sender
  {
    hide Pay, Commit;
  }

  lemma RebateIsRefund(result: ExecutionResult, limit: nat, quotient: nat)
    requires quotient >= 1 && result.gasRemaining <= limit && result.gasRefund >= 0
    ensures GasRefunded(result, limit, quotient) == Rebate(result, limit - result.gasRemaining, quotient)
  {
    QuotientBound(limit - result.gasRemaining, quotient);
  }

  lemma SettleCharges(
    w: State, tx: Transaction, v: Validated, env: BlockEnv, config: ChainConfig, cumulative: int, result: ExecutionResult)
    requires config.Valid() && result.gasRemaining <= tx.GasLimit() && result.gasRefund >= 0
    requires FairPrice(tx, env, config, v.pricing) && v.pricing.effective == v.pricing.priority + v.pricing.baseFee
    requires GasBounds(result, tx.GasLimit(), config.gasRefundQuotient)
    ensures Charged(tx, env, config, cumulative, result, Settle(w, tx, v, env, config, cumulative, result).0)
  {
    hide Pay, Commit, Acceptable, GasRefunded;
    RebateIsRefund(result, tx.GasLimit(), config.gasRefundQuotient);
    var used := tx.GasLimit() - result.gasRemaining - GasRefunded(result, tx.GasLimit(), config.gasRefundQuotient);
    FeeSplit(v.pricing, config, used, tx.GasLimit() - used, tx.GasLimit());
  }

  lemma SettleAccounts(
    w: State, tx: Transaction, v: Validated, env: BlockEnv, config: ChainConfig, cumulative: int, result: ExecutionResult,
    total: nat, a: Address)
    requires config.Valid() && total < MODULUS
    requires v.pricing.effective == v.pricing.priority + v.pricing.baseFee
    requires TotalBalance(w) == total - v.pricing.effective * tx.GasLimit()
    requires result.gasRemaining <= tx.GasLimit() && GasBounds(result, tx.GasLimit(), config.gasRefundQuotient)
    ensures var (r, w') := Settle(w, tx, v, env, config, cumulative, result);
      SettledFrom(At(w, a), At(w', a),
                  Gain(a, v.sender, env.coinbase, v.pricing.effective * (tx.GasLimit() - r.gasUsed), r.coinbaseFee))
  {
    hide GasRefunded, Commit, AddBalance, Pay, TotalBalance;
    var used := tx.GasLimit() - (result.gasRemaining + GasRefunded(result, tx.GasLimit(), config.gasRefundQuotient));
    var unused := tx.GasLimit() - used;
    FeeSplit(v.pricing, config, used, unused, tx.GasLimit());
    var fee := CoinbaseFee(v.pricing, config, used);
    PayTotal(w, v.sender, v.pricing.effective * unused);
    var w1 := Pay(w, v.sender, v.pricing.effective * unused);
    PayTotal(w1, env.coinbase, fee);
    CommitKeepsAccounts(Pay(w1, env.coinbase, fee), a);
  }

  // ---------------------------------------------------------------------------------------------
  // The payload
  // ---------------------------------------------------------------------------------------------

  /** The outermost frame of a transaction: the sender is caller and origin, and writing is allowed. */
  function OuterFrame(
    address: Address, tx: Transaction, v: Validated, env: BlockEnv, calldata: seq<Byte>, code: seq<Byte>, gas: nat): Context
  {
    Context(address, v.sender, v.sender, tx.Value(), calldata, code, gas, false, 0, v.pricing.effective, env.chainId)
  }

  /** A message moves its value and then runs the code of the recipient, if there is any, or a precompile; whatever fails
      leaves the state as it was. */
  lemma MessageMeaning(x: Externals, w: State, tx: Transaction, v: Validated, env: BlockEnv, gas: nat)
    requires tx.To().Some? && tx.Value() <= At(w, v.sender).balance
    ensures var to := tx.To().value;
      var w1 := if tx.Value() == 0 then w else Transfer(w, v.sender, to, tx.Value()).1;
      var code := At(w1, to).code;
      var (result, w') := Run(x, w, tx, v, env, gas);
      if code == [] && 1 <= to <= 4 then
        if PrecompileGas(to, tx.Data()) <= gas then
          w' == w1 && result == Succeeded(gas - PrecompileGas(to, tx.Data()), 0, x.oracle.precompile(to, tx.Data()), [])
        else w' == w && result == Failed(Some(OutOfGas))
      else
        var (run, w2) := RunFrame(x.oracle, OuterFrame(to, tx, v, env, tx.Data(), code, gas), w1);
        result == run && w' == if run.success then w2 else w
  {
    hide RunFrame, At, PrecompileGas;
    EvmCalls.TransferPays(w, v.sender, tx.To().value, tx.Value());
  }

  /** A create endows the address, runs the data as init code and stores what it returns; on a taken address it fails. */
  lemma CreateTransactionMeaning(x: Externals, w: State, tx: Transaction, v: Validated, env: BlockEnv, gas: nat)
    requires tx.To().None? && tx.Value() <= At(w, v.sender).balance
    ensures var address := CreateAddress(x.oracle, v.sender, tx.Nonce());
      var numbered := SetNonce(w, address, 1);
      var w1 := if tx.Value() == 0 then numbered else Transfer(numbered, v.sender, address, tx.Value()).1;
      var (result, w') := Run(x, w, tx, v, env, gas);
      if At(w, address).nonce != 0 || At(w, address).code != [] then result == Failed(None) && w' == w
      else
        var (run, w2) := RunFrame(x.oracle, OuterFrame(address, tx, v, env, [], tx.Data(), gas), w1);
        if run.success then
          result == run.(created := Some(address)) && w' == SetCode(w2, address, run.output)
        else result == run && w' == w
  {
    hide RunFrame, At, CreateAddress, SetNonce;
    var address := CreateAddress(x.oracle, v.sender, tx.Nonce());
    EvmCalls.NonceKeepsBalance(w, address, v.sender);
    EvmCalls.TransferPays(SetNonce(w, address, 1), v.sender, address, tx.Value());
  }

  // ---------------------------------------------------------------------------------------------
  // Blocks
  // ---------------------------------------------------------------------------------------------

  /** On a block with a base fee, a transaction burns it for every unit of gas used. */
  lemma TransactionBurns(x: Externals, w: State, tx: Transaction, env: BlockEnv, config: ChainConfig, cumulative: int)
    requires config.Valid() && TotalBalance(w) < MODULUS && TotalDebt(w) == 0
    requires config.feeModel == Eip1559Fees && config.burnBaseFee
    ensures var r := ApplyTransaction(x, w, tx, env, config, cumulative);
      r.Accept? ==> env.baseFee.Some? && r.value.0.baseFeeBurned == r.value.0.gasUsed * env.baseFee.value
  {
    hide FullyValidate, ApplyTransaction, IsAcceptable, TotalBalance, TotalDebt, Run, SettledFrom, FairPrice, Acceptable;
    var r := ApplyTransaction(x, w, tx, env, config, cumulative);
    if r.Accept? {
      AppliedExactly(x, w, tx, env, config, cumulative);
      ValidatedExactly(x, tx, w, env, config);
      HasBaseFee(x, tx, w, env, config);
      var v := FullyValidate(x, tx, w, env, config).value;
      TransactionOutcome(x, w, tx, env, config, cumulative, v, r.value.0, r.value.1, v.sender);
    }
  }

  lemma HasBaseFee(x: Externals, tx: Transaction, w: State, env: BlockEnv, config: ChainConfig)
    requires IsAcceptable(x, tx, w, env, config) && config.feeModel == Eip1559Fees
    ensures env.baseFee.Some?
  {
  }

  /** So a block burns exactly its base fee times its gas, whatever transactions it holds. */
  lemma {:induction false} AllBurn(x: Externals, w: State, txs: seq<Transaction>, env: BlockEnv, config: ChainConfig)
    requires config.Valid() && NoPendingClears(w) && TotalBalance(w) < MODULUS
    requires config.feeModel == Eip1559Fees && config.burnBaseFee
    ensures var r := ApplyAll(x, w, txs, env, config);
      r.Accept? && txs != [] ==>
        env.baseFee.Some? && Total(r.value.results, BurnedOf) == Total(r.value.results, GasOf) * env.baseFee.value
  {
    hide ApplyTransaction, NoPendingClears, TotalBalance, TotalDebt;
    if txs != [] {
      var last := |txs| - 1;
      AllBurn(x, w, txs[..last], env, config);
      AllBooks(x, w, txs[..last], env, config);
      AllGasBooks(x, w, txs[..last], env, config);
      var before := ApplyAll(x, w, txs[..last], env, config);
      if before.Accept? {
        OneBurns(x, w, before.value, txs[last], env, config);
      }
    }
  }

  lemma OneBurns(x: Externals, w: State, p: Progress, tx: Transaction, env: BlockEnv, config: ChainConfig)
    requires config.Valid() && TotalBalance(w) < MODULUS && Books(w, p, env) && GasBooks(p, env)
    requires config.feeModel == Eip1559Fees && config.burnBaseFee
    requires p.results != [] ==>
      env.baseFee.Some? && Total(p.results, BurnedOf) == Total(p.results, GasOf) * env.baseFee.value
    ensures var q := ApplyNext(x, p, tx, env, config);
      q.Accept? ==>
        env.baseFee.Some? && Total(q.value.results, BurnedOf) == Total(q.value.results, GasOf) * env.baseFee.value
  {
    hide ApplyTransaction, NoPendingClears, TotalBalance, TotalDebt, RunningTotals, GasTotal;
    var used := Total(p.results, GasOf);
    DebtFreeMeaning(p.state);
    TransactionBurns(x, p.state, tx, env, config, used);
    var r := ApplyTransaction(x, p.state, tx, env, config, used);
    if r.Accept? && env.baseFee.Some? {
      TotalSnoc(p.results, r.value.0, BurnedOf);
      TotalSnoc(p.results, r.value.0, GasOf);
      Distribute(used, r.value.0.gasUsed, env.baseFee.value);
    }
  }

  lemma Distribute(a: int, b: int, c: nat)
    ensures (a + b) * c == a * c + b * c
  {
  }

  /** Executing a block on a chain with a base fee: the sum of all balances falls by the block's base fee times its gas. */
  lemma BlockBurnsBaseFee(
    c: Commitments, x: Externals, w: State, block: Block, config: ChainConfig, parent: Option<Header>)
    requires config.Valid() && NoPendingClears(w) && TotalBalance(w) < MODULUS
    requires config.feeModel == Eip1559Fees && config.burnBaseFee && block.transactions != []
    ensures var r := ApplyBlock(c, x, w, block, config, parent);
      r.Accept? ==>
        && block.header.baseFee.Some?
        && r.value.baseFeeBurned == r.value.gasUsed * block.header.baseFee.value
        && TotalBalance(r.value.state) == TotalBalance(w) - r.value.gasUsed * block.header.baseFee.value
  {
    hide ApplyAll, NoPendingClears, TotalBalance, ValidForExecution, Total;
    AllBurn(x, w, block.transactions, EnvOf(block.header, config), config);
    BlockConservesEther(c, x, w, block, config, parent);
  }
}
