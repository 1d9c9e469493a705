/** Applying one transaction: prepaid fees, execution, refunds, the coinbase fee and the burnt base fee. */
module Transition {
  import opened Arithmetic
  import opened Bytes
  import opened Gas
  import opened SlotStorage
  import opened World
  import opened Evm
  import opened EvmState
  import opened Transactions

  datatype Receipt = Receipt(
    status: nat, cumulativeGasUsed: int, gasUsed: int, logs: seq<Log>, txType: Option<Byte>,
    contractAddress: Option<Address>, transaction: Transaction, effectiveGasPrice: nat)

  datatype TransactionResult = TransactionResult(
    sender: Address, success: bool, gasLimit: nat, gasUsed: int, gasRefunded: int, gasRemaining: nat,
    effectiveGasPrice: nat, totalFeePaid: int, coinbaseFee: int, baseFeeBurned: int, output: seq<Byte>, receipt: Receipt)

  // ---------------------------------------------------------------------------------------------
  // The transition as a function
  // ---------------------------------------------------------------------------------------------

  function ExecuteCreate(x: Externals, w: State, tx: Transaction, v: Validated, env: BlockEnv, gas: nat)
    : (ExecutionResult, State)
  {
    var address := CreateAddress(x.oracle, v.sender, tx.Nonce());
    if !CanDeployTo(w, address) then (Failed(None), w)
    else
      var w1 := SetNonce(w, address, 1);
      var (transferred, w2) := if tx.Value() == 0 then (true, w1) else Transfer(w1, v.sender, address, tx.Value());
      if !transferred then (Failed(None), w)
      else
        var ctx := Context(address, v.sender, v.sender, tx.Value(), [], tx.Data(), gas, false, 0, v.pricing.effective,
                           env.chainId);
        var (result, w3) := Execute(x.oracle, ctx, w2);
        if result.success then (result.(created := Some(address)), SetCode(w3, address, result.output)) else (result, w)
  }

  function ExecuteMessage(x: Externals, w: State, tx: Transaction, v: Validated, env: BlockEnv, gas: nat)
    : (ExecutionResult, State)
    requires tx.To().Some?
  {
    TopCall(x.oracle, w, tx.To().value, v.sender, v.sender, tx.Value(), tx.Data(), gas, false, v.pricing.effective,
            env.chainId)
  }

  function Run(x: Externals, w: State, tx: Transaction, v: Validated, env: BlockEnv, gas: nat): (ExecutionResult, State) {
    if tx.To().None? then ExecuteCreate(x, w, tx, v, env, gas) else ExecuteMessage(x, w, tx, v, env, gas)
  }

  /** Gas given back beyond what is left over: capped at a fraction of what was consumed, and only on success. */
  function GasRefunded(result: ExecutionResult, gasLimit: nat, quotient: nat): int
    requires quotient >= 1
  {
    Min(result.gasRefund, if result.success then (gasLimit - result.gasRemaining) / quotient else 0)
  }

  /** Paying an amount of zero does not even create the account. */
  function Pay(w: State, a: Address, amount: int): State {
    if amount == 0 then w else AddBalance(w, a, amount)
  }

  function CoinbaseFee(pricing: GasPricing, config: ChainConfig, gasUsed: int): int {
    pricing.priority * gasUsed + if config.burnBaseFee then 0 else pricing.baseFee * gasUsed
  }

  function BurnedFee(pricing: GasPricing, config: ChainConfig, gasUsed: int): int {
    if config.burnBaseFee then pricing.baseFee * gasUsed else 0
  }

  /** The bookkeeping after execution. */
  function Settle(
    w: State, tx: Transaction, v: Validated, env: BlockEnv, config: ChainConfig, cumulative: int, result: ExecutionResult)
    : (TransactionResult, State)
    requires config.Valid()
  {
    var gasLimit := tx.GasLimit();
    var refunded := GasRefunded(result, gasLimit, config.gasRefundQuotient);
    var gasUsed := gasLimit - (result.gasRemaining + refunded);
    var price := v.pricing.effective;
    var fee := CoinbaseFee(v.pricing, config, gasUsed);
    var w1 := Pay(w, v.sender, price * (result.gasRemaining + refunded));
    var w2 := Pay(w1, env.coinbase, fee);
    var receipt := Receipt(if result.success then 1 else 0, cumulative + gasUsed, gasUsed, result.logs, tx.TypeByte(),
                           result.created, tx, price);
    (TransactionResult(v.sender, result.success, gasLimit, gasUsed, refunded, result.gasRemaining, price,
                       gasUsed * price, fee, BurnedFee(v.pricing, config, gasUsed), result.output, receipt),
     Commit(w2))
  }

  /** Validation plus the deferred proof check. */
  function FullyValidate(x: Externals, tx: Transaction, w: State, env: BlockEnv, config: ChainConfig)
    : TxResult<Validated>
  {
    var v :- Validate(x, tx, w, env, config);
    if v.zkDeferred && (!tx.Zk? || !ProofAccepted(x, tx)) then Reject(InvalidZkProof) else Accept(v)
  }

  /** The part under the journal. */
  function ApplyValidated(
    x: Externals, w: State, tx: Transaction, v: Validated, env: BlockEnv, config: ChainConfig, cumulative: int)
    : TxResult<(TransactionResult, State)>
    requires config.Valid()
  {
    var (paid, w1) := SubtractBalance(w, v.sender, v.pricing.effective * tx.GasLimit());
    if !paid || v.preExecutionGas > tx.GasLimit() then Reject(AssertionFailed)
    else
      var w2 := IncrementNonce(w1, v.sender);
      var (result, w3) := Run(x, w2, tx, v, env, tx.GasLimit() - v.preExecutionGas);
      Accept(Settle(w3, tx, v, env, config, cumulative, result))
  }

  /** Either an exception and no change of state, or a result and the new state. */
  function ApplyTransaction(
    x: Externals, w: State, tx: Transaction, env: BlockEnv, config: ChainConfig, cumulative: int)
    : TxResult<(TransactionResult, State)>
    requires config.Valid()
  {
    var v :- FullyValidate(x, tx, w, env, config);
    ApplyValidated(x, w, tx, v, env, config, cumulative)
  }

  // ---------------------------------------------------------------------------------------------
  // What execution may do
  // ---------------------------------------------------------------------------------------------

  /** Running the transaction keeps the total of balances; a failed run leaves the state and the refund untouched. */
  lemma RunEffects(x: Externals, w: State, tx: Transaction, v: Validated, env: BlockEnv, gas: nat)
    ensures var (result, w') := Run(x, w, tx, v, env, gas);
      && Balanced(w, w', if result.success then result.gasRefund else 0)
      && result.gasRemaining <= gas
      && (!result.success ==> w' == w && result.gasRefund == 0 && result.logs == [])
  {
    hide Balanced, TopCall, ExecuteCreate;
    if tx.To().None? {
      CreateEffects(x, w, tx, v, env, gas);
    } else {
      CallConservesEther(x.oracle, w, tx.To().value, v.sender, v.sender, tx.Value(), tx.Data(), gas, false,
                         v.pricing.effective, env.chainId);
    }
  }

  lemma CreateEffects(x: Externals, w: State, tx: Transaction, v: Validated, env: BlockEnv, gas: nat)
    ensures var (result, w') := ExecuteCreate(x, w, tx, v, env, gas);
      && Balanced(w, w', if result.success then result.gasRefund else 0)
      && result.gasRemaining <= gas
      && (!result.success ==> w' == w && result.gasRefund == 0 && result.logs == [])
  {
    hide Balanced, RunFrame, Transfer, SetNonce, SetCode, CanDeployTo, CreateAddress;
    var address := CreateAddress(x.oracle, v.sender, tx.Nonce());
    var w1 := SetNonce(w, address, 1);
    var w2 := (if tx.Value() == 0 then (true, w1) else Transfer(w1, v.sender, address, tx.Value())).1;
    BalancedRefl(w);
    BalancedRefl(w1);
    SetNonceBalanced(w, address, 1);
    TransferBalanced(w1, v.sender, address, tx.Value());
    BalancedTrans(w, w1, w2, 0, 0);
    var ctx := Context(address, v.sender, v.sender, tx.Value(), [], tx.Data(), gas, false, 0, v.pricing.effective,
                       env.chainId);
    RunFrameAllowed(x.oracle, ctx, w2);
    FailedFrame(x.oracle, ctx, w2);
    var (result, w3) := RunFrame(x.oracle, ctx, w2);
    if result.success {
      BalancedTrans(w, w2, w3, 0, result.gasRefund);
      SetCodeBalanced(w3, address, result.output);
      BalancedTrans(w, w3, SetCode(w3, address, result.output), result.gasRefund, 0);
    }
  }

  // ---------------------------------------------------------------------------------------------
  // Gas accounting
  // ---------------------------------------------------------------------------------------------

  /** With no outstanding storage refunds, what is charged lies between consumption less the cap and consumption. */
  predicate GasBounds(result: ExecutionResult, gasLimit: nat, quotient: nat)
    requires quotient >= 1
  {
    var consumed := gasLimit - result.gasRemaining;
    var used := consumed - GasRefunded(result, gasLimit, quotient);
    0 <= consumed - consumed / quotient <= used <= consumed <= gasLimit
  }

  lemma RefundWithinCap(result: ExecutionResult, gasLimit: nat, quotient: nat)
    requires quotient >= 1 && result.gasRemaining <= gasLimit
    requires result.gasRefund >= 0
    ensures GasBounds(result, gasLimit, quotient)
  {
    var consumed := gasLimit - result.gasRemaining;
    QuotientBound(consumed, quotient);
  }

  lemma QuotientBound(v: nat, q: nat)
    requires q >= 1
    ensures 0 <= v / q <= v
  {
    assert v == q * (v / q) + v % q;
    assert q * (v / q) >= v / q;
  }

  // ---------------------------------------------------------------------------------------------
  // Main results
  // ---------------------------------------------------------------------------------------------

  /** The states that appear while a transaction is applied. */
  datatype Trace = Trace(started: State, result: ExecutionResult, executed: State)

  /** The state in which execution starts: gas prepaid, nonce raised. */
  function StartState(w: State, sender: Address, prepayment: nat): State {
    IncrementNonce(SubtractBalance(w, sender, prepayment).1, sender)
  }

  ghost function TraceOf(x: Externals, w: State, tx: Transaction, v: Validated, env: BlockEnv): (t: Trace)
    requires v.preExecutionGas <= tx.GasLimit()
    ensures t.started == StartState(w, v.sender, v.pricing.effective * tx.GasLimit())
    ensures (t.result, t.executed) == Run(x, t.started, tx, v, env, tx.GasLimit() - v.preExecutionGas)
  {
    var started := StartState(w, v.sender, v.pricing.effective * tx.GasLimit());
    var (result, executed) := Run(x, started, tx, v, env, tx.GasLimit() - v.preExecutionGas);
    Trace(started, result, executed)
  }

  ghost function SettleTrace(
    t: Trace, tx: Transaction, v: Validated, env: BlockEnv, config: ChainConfig, cumulative: int): (TransactionResult, State)
    requires config.Valid()
  {
    Settle(t.executed, tx, v, env, config, cumulative, t.result)
  }

  /** Validation guarantees the prepayment: the assertion in the transition cannot fail, whatever the state. */
  lemma PrepaymentSucceeds(
    x: Externals, w: State, tx: Transaction, env: BlockEnv, config: ChainConfig, cumulative: int)
    requires config.Valid()
    ensures ApplyTransaction(x, w, tx, env, config, cumulative) != Reject(AssertionFailed)
    ensures match FullyValidate(x, tx, w, env, config)
      case Reject(error) => ApplyTransaction(x, w, tx, env, config, cumulative) == Reject(error)
      case Accept(v) =>
        && v.preExecutionGas <= tx.GasLimit()
        && ApplyTransaction(x, w, tx, env, config, cumulative)
           == Accept(SettleTrace(TraceOf(x, w, tx, v, env), tx, v, env, config, cumulative))
  {
    hide Run, Settle, IncrementNonce;
    ValidatedCanPay(x, tx, w, env, config);
    ValidateErrors(x, tx, w, env, config);
  }

  lemma ValidateErrors(x: Externals, tx: Transaction, w: State, env: BlockEnv, config: ChainConfig)
    ensures Validate(x, tx, w, env, config) != Reject(AssertionFailed)
  {
  }

  lemma StartTotals(w: State, sender: Address, prepayment: nat)
    requires prepayment <= At(w, sender).balance
    ensures var w' := StartState(w, sender, prepayment);
      TotalBalance(w') == TotalBalance(w) - prepayment && TotalDebt(w') == TotalDebt(w)
  {
    var paid := At(w, sender).(balance := Wrap(At(w, sender).balance - prepayment));
    Replace(w, sender, paid);
    var w1 := w[sender := paid];
    Replace(w1, sender, paid.(nonce := Wrap(paid.nonce + 1)));
  }

  /** Totals up to the end of execution: the prepayment has left the sender and nothing else has changed. */
  lemma TraceTotals(x: Externals, w: State, tx: Transaction, v: Validated, env: BlockEnv)
    requires TotalBalance(w) < MODULUS
    requires v.preExecutionGas <= tx.GasLimit() && v.pricing.effective * tx.GasLimit() <= At(w, v.sender).balance
    ensures var t := TraceOf(x, w, tx, v, env);
      && TotalBalance(t.executed) == TotalBalance(w) - v.pricing.effective * tx.GasLimit()
      && TotalDebt(t.executed) <= TotalDebt(w) + (if t.result.success then t.result.gasRefund else 0)
      && t.result.gasRemaining <= tx.GasLimit() - v.preExecutionGas
      && (!t.result.success ==> t.executed == t.started && t.result.gasRefund == 0 && t.result.logs == [])
  {
    hide Run, StartState;
    var t := TraceOf(x, w, tx, v, env);
    var prepayment: nat := v.pricing.effective * tx.GasLimit();
    StartTotals(w, v.sender, prepayment);
    RunEffects(x, t.started, tx, v, env, tx.GasLimit() - v.preExecutionGas);
  }

  /** The refund counter at the end of execution covers whatever debt the run has run up, in any state. */
  lemma TraceDebt(x: Externals, w: State, tx: Transaction, v: Validated, env: BlockEnv)
    requires TotalDebt(w) == 0
    requires v.preExecutionGas <= tx.GasLimit() && v.pricing.effective * tx.GasLimit() <= At(w, v.sender).balance
    ensures var t := TraceOf(x, w, tx, v, env); t.result.gasRefund >= 0 && t.result.gasRemaining <= tx.GasLimit()
  {
    hide Run, StartState;
    var t := TraceOf(x, w, tx, v, env);
    StartTotals(w, v.sender, v.pricing.effective * tx.GasLimit());
    RunEffects(x, t.started, tx, v, env, tx.GasLimit() - v.preExecutionGas);
    DebtNonNegative(t.executed);
  }

  /** Settling pays out exactly the unused gas and the coinbase fee. */
  lemma SettleTotals(
    w: State, tx: Transaction, v: Validated, env: BlockEnv, config: ChainConfig, cumulative: int, result: ExecutionResult,
    total: nat)
    requires config.Valid() && total < MODULUS
    requires v.pricing.effective == v.pricing.priority + v.pricing.baseFee
    requires TotalBalance(w) == total - v.pricing.effective * tx.GasLimit()
    requires result.gasRemaining <= tx.GasLimit() && GasBounds(result, tx.GasLimit(), config.gasRefundQuotient)
    ensures var (r, w') := Settle(w, tx, v, env, config, cumulative, result);
      && TotalBalance(w') == total - r.baseFeeBurned && TotalDebt(w') == 0
      && r.coinbaseFee + r.baseFeeBurned == r.totalFeePaid && r.coinbaseFee >= 0 && r.baseFeeBurned >= 0
  {
    hide GasRefunded, Commit, AddBalance;
    var gasUsed := tx.GasLimit() - (result.gasRemaining + GasRefunded(result, tx.GasLimit(), config.gasRefundQuotient));
    var unused := tx.GasLimit() - gasUsed;
    var price := v.pricing.effective;
    FeeSplit(v.pricing, config, gasUsed, unused, tx.GasLimit());
    var fee := CoinbaseFee(v.pricing, config, gasUsed);
    PayTotal(w, v.sender, price * unused);
    var w1 := Pay(w, v.sender, price * unused);
    PayTotal(w1, env.coinbase, fee);
    CommitTotals(Pay(w1, env.coinbase, fee));
  }

  lemma PayTotal(w: State, a: Address, amount: nat)
    requires TotalBalance(w) + amount < MODULUS
    ensures TotalBalance(Pay(w, a, amount)) == TotalBalance(w) + amount
    ensures At(Pay(w, a, amount), a).balance == At(w, a).balance + amount
    ensures At(Pay(w, a, amount), a) == At(w, a).(balance := At(Pay(w, a, amount), a).balance)
    ensures forall b :: b != a ==> At(Pay(w, a, amount), b) == At(w, b)
  {
    BalanceBelowTotal(w, a, a);
    AddBalanceTotal(w, a, amount);
  }

  lemma FeeSplit(pricing: GasPricing, config: ChainConfig, used: nat, unused: nat, limit: nat)
    requires pricing.effective == pricing.priority + pricing.baseFee && used + unused == limit
    ensures CoinbaseFee(pricing, config, used) + BurnedFee(pricing, config, used) == used * pricing.effective
    ensures CoinbaseFee(pricing, config, used) >= 0 && BurnedFee(pricing, config, used) >= 0
    ensures pricing.effective * limit == pricing.effective * unused + used * pricing.effective
    ensures pricing.effective * unused >= 0
  {
    assert used * pricing.effective == pricing.priority * used + pricing.baseFee * used;
    assert pricing.effective * limit == pricing.effective * unused + pricing.effective * used;
  }

  /** For every transaction and every program it runs: the sum of all balances falls by exactly the burnt base fee, gas is
      charged between consumption less the refund cap and consumption, and no storage refund is left outstanding. */
  lemma TransactionConservesEther(
    x: Externals, w: State, tx: Transaction, env: BlockEnv, config: ChainConfig, cumulative: int)
    requires config.Valid() && TotalBalance(w) < MODULUS && TotalDebt(w) == 0
    ensures match ApplyTransaction(x, w, tx, env, config, cumulative)
      case Reject(_) => true
      case Accept((r, w')) =>
        && TotalBalance(w') == TotalBalance(w) - r.baseFeeBurned && TotalDebt(w') == 0
        && r.coinbaseFee + r.baseFeeBurned == r.totalFeePaid == r.gasUsed * r.effectiveGasPrice
        && r.coinbaseFee >= 0 && r.baseFeeBurned >= 0
        && GasCharged(r, config) && r.gasLimit <= env.gasLimit
  {
    hide Run, Validate, FullyValidate, ApplyTransaction, TraceOf, Settle;
    PrepaymentSucceeds(x, w, tx, env, config, cumulative);
    match FullyValidate(x, tx, w, env, config)
    case Reject(_) =>
    case Accept(v) =>
      FullyValidatedFacts(x, tx, w, env, config);
      TraceTotals(x, w, tx, v, env);
      var t := TraceOf(x, w, tx, v, env);
      DebtNonNegative(t.executed);
      RefundWithinCap(t.result, tx.GasLimit(), config.gasRefundQuotient);
      BalanceBelowTotal(w, v.sender, v.sender);
      SettleTotals(t.executed, tx, v, env, config, cumulative, t.result, TotalBalance(w));
      SettleGas(t.executed, tx, v, env, config, cumulative, t.result);
  }

  /** The gas side alone needs no bound on the ether in circulation: from a state without pending clears, the charge is
      within its bounds, the receipt records it, and the next state has no pending clears either. */
  lemma TransactionGas(x: Externals, w: State, tx: Transaction, env: BlockEnv, config: ChainConfig, cumulative: int)
    requires config.Valid() && TotalDebt(w) == 0
    ensures match ApplyTransaction(x, w, tx, env, config, cumulative)
      case Reject(_) => true
      case Accept((r, w')) =>
        && TotalDebt(w') == 0 && GasCharged(r, config) && r.gasLimit == tx.GasLimit() <= env.gasLimit
        && r.receipt.gasUsed == r.gasUsed && r.receipt.cumulativeGasUsed == cumulative + r.gasUsed
  {
    hide Run, Validate, FullyValidate, ApplyTransaction, TraceOf, Settle;
    PrepaymentSucceeds(x, w, tx, env, config, cumulative);
    match FullyValidate(x, tx, w, env, config)
    case Reject(_) =>
    case Accept(v) =>
      FullyValidatedFacts(x, tx, w, env, config);
      TraceDebt(x, w, tx, v, env);
      var t := TraceOf(x, w, tx, v, env);
      RefundWithinCap(t.result, tx.GasLimit(), config.gasRefundQuotient);
      SettleGas(t.executed, tx, v, env, config, cumulative, t.result);
  }

  /** At most one part in `gasRefundQuotient` of the consumed gas is given back, and never more is charged than consumed. */
  predicate GasCharged(r: TransactionResult, config: ChainConfig)
    requires config.Valid()
  {
    var consumed := r.gasLimit - r.gasRemaining;
    0 <= consumed - consumed / config.gasRefundQuotient <= r.gasUsed <= consumed <= r.gasLimit
  }

  lemma FullyValidatedFacts(x: Externals, tx: Transaction, w: State, env: BlockEnv, config: ChainConfig)
    ensures match FullyValidate(x, tx, w, env, config)
      case Reject(_) => true
      case Accept(v) =>
        && v.pricing.effective * tx.GasLimit() + tx.Value() <= At(w, v.sender).balance
        && v.preExecutionGas <= tx.GasLimit() <= env.gasLimit
        && v.pricing.effective == v.pricing.priority + v.pricing.baseFee
        && tx.Nonce() == At(w, v.sender).nonce
  {
    hide Validate;
    ValidatedCanPay(x, tx, w, env, config);
  }

  lemma SettleGas(
    w: State, tx: Transaction, v: Validated, env: BlockEnv, config: ChainConfig, cumulative: int, result: ExecutionResult)
    requires config.Valid() && GasBounds(result, tx.GasLimit(), config.gasRefundQuotient)
    ensures var (r, w') := Settle(w, tx, v, env, config, cumulative, result);
      && GasCharged(r, config) && r.gasLimit == tx.GasLimit() && r.totalFeePaid == r.gasUsed * r.effectiveGasPrice
      && r.receipt.gasUsed == r.gasUsed && r.receipt.cumulativeGasUsed == cumulative + r.gasUsed
      && r.success == result.success && r.gasRemaining == result.gasRemaining && TotalDebt(w') == 0
  {
    hide GasRefunded, Commit, AddBalance, Pay, TotalDebt;
    var refunded := GasRefunded(result, tx.GasLimit(), config.gasRefundQuotient);
    var gasUsed := tx.GasLimit() - (result.gasRemaining + refunded);
    var w1 := Pay(w, v.sender, v.pricing.effective * (result.gasRemaining + refunded));
    CommitTotals(Pay(w1, env.coinbase, CoinbaseFee(v.pricing, config, gasUsed)));
  }

  /** What an account looks like after a failed transaction. */
  ghost predicate OnlyFees(before: Account, after: Account, isSender: bool, isCoinbase: bool, r: TransactionResult) {
    && after.nonce == (if isSender then Wrap(before.nonce + 1) else before.nonce)
    && after.balance == before.balance - (if isSender then r.totalFeePaid else 0) + (if isCoinbase then r.coinbaseFee else 0)
    && after.code == before.code
    && Clean(after.slots) && forall k :: SlotAt(after.slots, k).current == SlotAt(before.slots, k).current
  }

  /** A failed transaction leaves nothing but the sender's nonce and fee, the coinbase fee, and the end-of-transaction
      commit of storage. */
  lemma FailedTransactionOnlyPaysFees(
    x: Externals, w: State, tx: Transaction, env: BlockEnv, config: ChainConfig, cumulative: int, a: Address)
    requires config.Valid() && TotalBalance(w) < MODULUS
    ensures match ApplyTransaction(x, w, tx, env, config, cumulative)
      case Reject(_) => true
      case Accept((r, w')) =>
        !r.success ==>
          && OnlyFees(At(w, a), At(w', a), a == r.sender, a == env.coinbase, r)
          && r.gasUsed == r.gasLimit - r.gasRemaining && r.receipt.logs == []
  {
    hide Run, Validate, FullyValidate, ApplyTransaction, TraceOf, OnlyFees, StartState, Started, Commit, Pay;
    PrepaymentSucceeds(x, w, tx, env, config, cumulative);
    match FullyValidate(x, tx, w, env, config)
    case Reject(_) =>
    case Accept(v) =>
      FullyValidatedFacts(x, tx, w, env, config);
      TraceTotals(x, w, tx, v, env);
      var t := TraceOf(x, w, tx, v, env);
      if !t.result.success {
        StartedAccounts(w, v.sender, v.pricing.effective * tx.GasLimit(), a);
        SettleAfterFailure(t.executed, w, tx, v, env, config, cumulative, t.result, a);
      }
  }

  /** The account `a` once the prepayment is taken and the nonce raised. */
  ghost function Started(before: Account, isSender: bool, prepayment: nat): Account
    requires isSender ==> prepayment <= before.balance
  {
    if isSender then before.(balance := before.balance - prepayment, nonce := Wrap(before.nonce + 1)) else before
  }

  lemma StartedAccounts(w: State, sender: Address, prepayment: nat, a: Address)
    requires prepayment <= At(w, sender).balance
    ensures At(StartState(w, sender, prepayment), a) == Started(At(w, a), a == sender, prepayment)
  {
  }

  lemma SettleAfterFailure(
    w: State, before: State, tx: Transaction, v: Validated, env: BlockEnv, config: ChainConfig, cumulative: int,
    result: ExecutionResult, a: Address)
    requires config.Valid() && TotalBalance(before) < MODULUS
    requires v.pricing.effective == v.pricing.priority + v.pricing.baseFee
    requires v.pricing.effective * tx.GasLimit() <= At(before, v.sender).balance
    requires TotalBalance(w) == TotalBalance(before) - v.pricing.effective * tx.GasLimit()
    requires At(w, a) == Started(At(before, a), a == v.sender, v.pricing.effective * tx.GasLimit())
    requires !result.success && result.gasRefund == 0 && result.gasRemaining <= tx.GasLimit()
    ensures var (r, w') := Settle(w, tx, v, env, config, cumulative, result);
      && OnlyFees(At(before, a), At(w', a), a == v.sender, a == env.coinbase, r)
      && r.gasUsed == r.gasLimit - r.gasRemaining
  {
    hide Commit, AddBalance;
    assert GasRefunded(result, tx.GasLimit(), config.gasRefundQuotient) == 0;
    var unused, used := result.gasRemaining, tx.GasLimit() - result.gasRemaining;
    var price := v.pricing.effective;
    FeeSplit(v.pricing, config, used, unused, tx.GasLimit());
    var fee := CoinbaseFee(v.pricing, config, used);
    PayTotal(w, v.sender, price * unused);
    var w1 := Pay(w, v.sender, price * unused);
    PayTotal(w1, env.coinbase, fee);
    CommitKeepsAccounts(Pay(w1, env.coinbase, fee), a);
  }
}
