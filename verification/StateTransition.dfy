/** The transaction transition over the mutable state: journal, interpreter, and step by step fee bookkeeping. */
module StateTransition {
  import opened Arithmetic
  import opened Bytes
  import opened Gas
  import opened World
  import opened StateDb
  import opened Evm
  import opened Interpreter
  import opened Transactions
  import T = Transition
  import W = World

  /** A stack of snapshots of one state database. */
  class StateJournal {
    const state: StateDB
    var snapshots: seq<Objects>
    ghost var SnapshotRepr: set<object>
    ghost var Values: seq<State>

    ghost predicate Valid()
      reads this, state, state.Repr, SnapshotRepr
    {
      && state.Valid() && this !in state.Repr && this !in SnapshotRepr
      && SnapshotRepr !! state.Repr && |Values| == |snapshots|
      && forall i :: 0 <= i < |snapshots| ==> Represents(snapshots[i], SnapshotRepr, Values[i])
    }

    constructor (state: StateDB)
      requires state.Valid()
      ensures this.state == state && Valid() && Values == [] && SnapshotRepr == {}
    {
      this.state := state;
      snapshots := [];
      SnapshotRepr := {};
      Values := [];
    }

    /** Remembers the current state under the returned index. */
    method Checkpoint() returns (index: nat)
      requires Valid()
      modifies this
      ensures Valid() && index == |old(Values)| && Values == old(Values) + [state.Value]
      ensures fresh(SnapshotRepr - old(SnapshotRepr))
    {
      var snapshot, repr := state.Snapshot();
      snapshots := snapshots + [snapshot];
      SnapshotRepr := SnapshotRepr + repr;
      Values := Values + [state.Value];
      return |snapshots| - 1;
    }

    /** Goes back to the state at the checkpoint and forgets it and all later ones. */
    method Revert(checkpoint: nat) returns (ok: bool)
      requires Valid()
      modifies this, state
      ensures Valid() && ok == (checkpoint < |old(Values)|)
      ensures ok ==> state.Value == old(Values)[checkpoint] && Values == old(Values)[..checkpoint]
      ensures !ok ==> state.Value == old(state.Value) && Values == old(Values)
      ensures fresh(state.Repr - old(state.Repr))
    {
      if checkpoint >= |snapshots| {
        return false;
      }
      state.Restore(snapshots[checkpoint], SnapshotRepr, Values[checkpoint]);
      snapshots := snapshots[..checkpoint];
      Values := Values[..checkpoint];
      return true;
    }

    /** Keeps the current state and forgets the checkpoint and all later ones. */
    method Commit(checkpoint: nat) returns (ok: bool)
      requires Valid()
      modifies this
      ensures Valid() && ok == (checkpoint < |old(Values)|)
      ensures Values == if ok then old(Values)[..checkpoint] else old(Values)
      ensures SnapshotRepr == old(SnapshotRepr)
    {
      if checkpoint >= |snapshots| {
        return false;
      }
      snapshots := snapshots[..checkpoint];
      Values := Values[..checkpoint];
      return true;
    }
  }

  method ExecuteCreateTransaction(
    interpreter: Interpreter, ghost x: Externals, tx: Transaction, v: Validated, env: BlockEnv, gas: nat)
    returns (result: ExecutionResult)
    requires interpreter.state.Valid() && interpreter.o == x.oracle && tx.To().None?
    modifies interpreter.state.Repr
    ensures interpreter.state.Valid() && fresh(interpreter.state.Repr - old(interpreter.state.Repr))
    ensures (result, interpreter.state.Value) == T.ExecuteCreate(x, old(interpreter.state.Value), tx, v, env, gas)
  {
    hide Represents, Evm.Execute, W.Transfer, W.SetNonce, W.SetCode, W.CanDeployTo, CreateAddress;
    var state := interpreter.state;
    var address := CreateAddress(interpreter.o, v.sender, tx.Nonce());
    var free := state.CanDeployTo(address);
    if !free {
      return Failed(None);
    }
    var snapshot, repr := state.Snapshot();
    ghost var before := state.Value;
    state.SetNonce(address, 1);
    if tx.Value() != 0 {
      var transferred := state.Transfer(v.sender, address, tx.Value());
      if !transferred {
        state.Restore(snapshot, repr, before);
        return Failed(None);
      }
    }
    var context := Context(address, v.sender, v.sender, tx.Value(), [], tx.Data(), gas, false, 0, v.pricing.effective,
                           env.chainId);
    result := interpreter.Execute(context);
    if !result.success {
      state.Restore(snapshot, repr, before);
      return result;
    }
    state.SetCode(address, result.output);
    return result.(created := Some(address));
  }

  method ExecuteMessageTransaction(
    interpreter: Interpreter, ghost x: Externals, tx: Transaction, v: Validated, env: BlockEnv, gas: nat)
    returns (result: ExecutionResult)
    requires interpreter.state.Valid() && interpreter.o == x.oracle && tx.To().Some?
    modifies interpreter.state.Repr
    ensures interpreter.state.Valid() && fresh(interpreter.state.Repr - old(interpreter.state.Repr))
    ensures (result, interpreter.state.Value) == T.ExecuteMessage(x, old(interpreter.state.Value), tx, v, env, gas)
  {
    result := interpreter.Call(tx.To().value, v.sender, v.sender, tx.Value(), tx.Data(), gas, false,
                               v.pricing.effective, env.chainId);
  }

  /** Validation against the live state, which it does not change, and the deferred proof check. */
  method Validate(state: StateDB, x: Externals, tx: Transaction, env: BlockEnv, config: ChainConfig)
    returns (r: TxResult<Validated>)
    requires state.Valid()
    ensures r == T.FullyValidate(x, tx, state.Value, env, config)
  {
    var sender :- RecoverSender(x, tx, config);
    var nonce := state.GetNonce(sender);
    var balance := state.GetBalance(sender);
    var v :- CheckAccount(x, tx, sender, nonce, balance, env, config);
    if v.zkDeferred && (!tx.Zk? || !ProofAccepted(x, tx)) {
      return Reject(InvalidZkProof);
    }
    return Accept(v);
  }

  /** Applies one transaction in place: a rejection leaves the state exactly as it was. */
  method ApplyTransaction(
    state: StateDB, x: Externals, tx: Transaction, env: BlockEnv, config: ChainConfig, cumulative: int)
    returns (r: TxResult<T.TransactionResult>)
    requires state.Valid() && config.Valid()
    modifies state.Repr
    ensures state.Valid() && fresh(state.Repr - old(state.Repr))
    ensures match T.ApplyTransaction(x, old(state.Value), tx, env, config, cumulative)
      case Reject(error) => r == Reject(error) && state.Value == old(state.Value)
      case Accept((result, w)) => r == Accept(result) && state.Value == w
  {
    hide Represents, T.FullyValidate, T.Run, T.Settle, W.SubtractBalance, W.IncrementNonce;
    var v :- Validate(state, x, tx, env, config);
    var journal := new StateJournal(state);
    var checkpoint := journal.Checkpoint();
    r := ApplyValidated(state, x, tx, v, env, config, cumulative);
    if r.Reject? {
      var _ := journal.Revert(checkpoint);
    } else {
      var _ := journal.Commit(checkpoint);
    }
  }

  /** The part under the journal: whatever raises here is undone by the caller. */
  method ApplyValidated(
    state: StateDB, x: Externals, tx: Transaction, v: Validated, env: BlockEnv, config: ChainConfig, cumulative: int)
    returns (r: TxResult<T.TransactionResult>)
    requires state.Valid() && config.Valid()
    modifies state.Repr
    ensures state.Valid() && fresh(state.Repr - old(state.Repr))
    ensures match T.ApplyValidated(x, old(state.Value), tx, v, env, config, cumulative)
      case Reject(error) => r == Reject(error)
      case Accept((result, w)) => r == Accept(result) && state.Value == w
  {
    hide Represents, T.Run, T.Settle, W.SubtractBalance, W.IncrementNonce, T.ExecuteCreate, T.ExecuteMessage;
    var paid := state.SubtractBalance(v.sender, v.pricing.effective * tx.GasLimit());
    if !paid || v.preExecutionGas > tx.GasLimit() {
      return Reject(AssertionFailed);
    }
    state.IncrementNonce(v.sender);
    var execution := Run(state, x, tx, v, env, tx.GasLimit() - v.preExecutionGas);
    var result := Settle(state, tx, v, env, config, cumulative, execution);
    return Accept(result);
  }

  method Run(state: StateDB, x: Externals, tx: Transaction, v: Validated, env: BlockEnv, gas: nat)
    returns (result: ExecutionResult)
    requires state.Valid()
    modifies state.Repr
    ensures state.Valid() && fresh(state.Repr - old(state.Repr))
    ensures (result, state.Value) == T.Run(x, old(state.Value), tx, v, env, gas)
  {
    hide Represents, T.ExecuteCreate, T.ExecuteMessage;
    var interpreter := new Interpreter(state, x.oracle);
    if tx.To().None? {
      result := ExecuteCreateTransaction(interpreter, x, tx, v, env, gas);
    } else {
      result := ExecuteMessageTransaction(interpreter, x, tx, v, env, gas);
    }
  }

  /** Refunds the sender, pays the coinbase, and commits the transaction. */
  method Settle(
    state: StateDB, tx: Transaction, v: Validated, env: BlockEnv, config: ChainConfig, cumulative: int,
    execution: ExecutionResult)
    returns (result: T.TransactionResult)
    requires state.Valid() && config.Valid()
    modifies state.Repr
    ensures state.Valid() && fresh(state.Repr - old(state.Repr))
    ensures (result, state.Value) == T.Settle(old(state.Value), tx, v, env, config, cumulative, execution)
  {
    hide Represents, W.AddBalance, W.Commit;
    var gasLimit := tx.GasLimit();
    var consumed := gasLimit - execution.gasRemaining;
    var refundCap := if execution.success then consumed / config.gasRefundQuotient else 0;
    var refunded := Min(execution.gasRefund, refundCap);
    var refundedUnits := execution.gasRemaining + refunded;
    var gasUsed := gasLimit - refundedUnits;
    var refundAmount := v.pricing.effective * refundedUnits;
    if refundAmount != 0 {
      state.AddBalance(v.sender, refundAmount);
    }
    var coinbaseFee := v.pricing.priority * gasUsed;
    var burned := v.pricing.baseFee * gasUsed;
    if !config.burnBaseFee {
      coinbaseFee := coinbaseFee + burned;
      burned := 0;
    }
    if coinbaseFee != 0 {
      state.AddBalance(env.coinbase, coinbaseFee);
    }
    var receipt := T.Receipt(if execution.success then 1 else 0, cumulative + gasUsed, gasUsed, execution.logs,
                             tx.TypeByte(), execution.created, tx, v.pricing.effective);
    state.CommitTransaction();
    return T.TransactionResult(v.sender, execution.success, gasLimit, gasUsed, refunded, execution.gasRemaining,
                               v.pricing.effective, gasUsed * v.pricing.effective, coinbaseFee, burned,
                               execution.output, receipt);
  }
}
