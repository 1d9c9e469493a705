/** What running code can do to the chain state: over every program and every nesting of frames. */
module EvmState {
  import opened Bytes
  import opened Gas
  import opened FrameMemory
  import opened SlotStorage
  import opened World
  import opened Evm

  /** The effect of code on the state: nothing at all in static mode, otherwise ether is conserved and every refund
      that later writes could take back has been earned. */
  ghost predicate Allowed(isStatic: bool, w: State, w': State, refund: int) {
    (isStatic ==> w' == w) && Balanced(w, w', refund)
  }

  /** A call in static mode moves no ether. */
  predicate CallRespects(ctx: Context, call: Call) {
    (ctx.isStatic ==> call.isStatic) && (call.isStatic ==> call.value == 0)
  }

  lemma RunCalleeAllowed(o: Oracle, ctx: Context, w: State, call: Call, childGas: nat)
    requires CallRespects(ctx, call)
    ensures var (callee, w') := RunCallee(o, ctx, w, call, childGas);
      && Allowed(call.isStatic, w, w', if callee.Some? && callee.value.success then callee.value.gasRefund else 0)
      && (call.isStatic && callee.Some? && callee.value.success ==> callee.value.logs == [])
    decreases childGas + 1, 0
  {
    hide Transfer, RunFrame, Balanced, At;
    var (_, w1) := if call.value == 0 then (true, w) else Transfer(w, ctx.address, call.target, call.value);
    BalancedRefl(w);
    TransferBalanced(w, ctx.address, call.target, call.value);
    var child := ChildContext(ctx, call, At(w1, call.target).code, childGas);
    RunFrameAllowed(o, child, w1);
    var (result, w2) := RunFrame(o, child, w1);
    if result.success {
      BalancedTrans(w, w1, w2, 0, result.gasRefund);
    }
  }

  lemma BalancedRefl(w: State)
    ensures Balanced(w, w, 0)
  {
  }

  lemma ForwardCallAllowed(o: Oracle, ctx: Context, w: State, f: Frame, call: Call)
    requires CallRespects(ctx, call)
    ensures var (result, f', w') := ForwardCall(o, ctx, w, f, call);
      && Allowed(call.isStatic, w, w', f'.refund - f.refund) && f'.logs == f.logs
      && (call.isStatic && result.success ==> result.logs == [])
    decreases f.gas + Stipend(call) + 1, 1, 0
  {
    hide RunCallee, Balanced, Write;
    var forwarded := ForwardedGas(f.gas, call.gasRequested);
    RunCalleeAllowed(o, ctx, w, call, forwarded + Stipend(call));
  }

  lemma CallCommonAllowed(o: Oracle, ctx: Context, w: State, f: Frame, call: Call)
    requires CallRespects(ctx, call)
    ensures match CallCommon(o, ctx, w, f, call)
      case Raise(_) => true
      case Ok((result, f', w')) =>
        && Allowed(call.isStatic, w, w', f'.refund - f.refund) && f'.logs == f.logs
        && (call.isStatic && result.success ==> result.logs == [])
    decreases f.gas, CodeLeft(ctx, f), 0
  {
    hide ForwardCall, Balanced, Expand, ExpansionCost, At;
    BalancedRefl(w);
    if CallCommon(o, ctx, w, f, call).Ok? && ctx.depth + 1 < MAX_CALL_DEPTH {
      var f2 := Charge(ChargeMemory(f, call.outOffset, call.outSize).value, CallCost(w, call)).value;
      if call.value == 0 || At(w, ctx.address).balance >= call.value {
        ForwardCallAllowed(o, ctx, w, f2, call);
      }
    }
  }

  lemma OpCallAllowed(o: Oracle, ctx: Context, w: State, f: Frame, op: Byte)
    requires op in {0xF1, 0xF4, 0xFA}
    ensures match OpCall(o, ctx, w, f, op)
      case Raise(_) => true
      case Ok((f', w')) =>
        && Allowed(ctx.isStatic || op == 0xFA, w, w', f'.refund - f.refund)
        && (ctx.isStatic || op == 0xFA ==> f'.logs == f.logs)
    decreases f.gas, CodeLeft(ctx, f), 1
  {
    hide CallCommon, Balanced, Expand, ExpansionCost, Read;
    if OpCall(o, ctx, w, f, op).Ok? {
      var (args, f1) := Pop(f, if op == 0xF1 then 7 else 6).value;
      var (inOffset, inSize) := if op == 0xF1 then (args[3], args[4]) else (args[2], args[3]);
      var f2 := ChargeMemory(f1, inOffset, inSize).value;
      var call := CallOf(ctx, op, args, Read(f2.memory, inOffset, inSize));
      if CallRespects(ctx, call) {
        CallCommonAllowed(o, ctx, w, f2, call);
      } else {
        StaticValueRaises(o, ctx, w, f2, call);
        BalancedRefl(w);
      }
    }
  }

  /** A value-bearing call in static mode only gets as far as the depth check. */
  lemma StaticValueRaises(o: Oracle, ctx: Context, w: State, f: Frame, call: Call)
    requires call.isStatic && call.value != 0
    ensures var r := CallCommon(o, ctx, w, f, call);
      r.Raise? || r == Ok((Failed(Some(CallDepthExceeded)), f, w))
  {
  }

  lemma RunInitCodeAllowed(
    o: Oracle, ctx: Context, w: State, value: Word, address: Address, initCode: seq<Byte>, childGas: nat)
    ensures var (init, w') := RunInitCode(o, ctx, w, value, address, initCode, childGas);
      Balanced(w, w', if init.Some? && init.value.success then init.value.gasRefund else 0)
    decreases childGas + 1, 0, 0
  {
    hide RunFrame, Balanced, SetNonce, Transfer, SetCode;
    var w1 := SetNonce(w, address, 1);
    var w2 := Transfer(w1, ctx.address, address, value).1;
    BalancedRefl(w);
    SetNonceBalanced(w, address, 1);
    TransferBalanced(w1, ctx.address, address, value);
    BalancedTrans(w, w1, w2, 0, 0);
    var child := CreateContext(ctx, address, value, initCode, childGas);
    RunFrameAllowed(o, child, w2);
    var (result, w3) := RunFrame(o, child, w2);
    if result.success {
      BalancedTrans(w, w2, w3, 0, result.gasRefund);
      SetCodeBalanced(w3, address, result.output);
      BalancedTrans(w, w3, SetCode(w3, address, result.output), result.gasRefund, 0);
    }
  }

  lemma DeployAllowed(
    o: Oracle, ctx: Context, w: State, f: Frame, value: Word, address: Address, initCode: seq<Byte>)
    ensures var (result, f', w') := Deploy(o, ctx, w, f, value, address, initCode);
      Balanced(w, w', f'.refund - f.refund) && f'.logs == f.logs
    decreases f.gas + 1, 1, 0
  {
    hide RunInitCode, Balanced;
    BalancedRefl(w);
    RunInitCodeAllowed(o, ctx, w, value, address, initCode, f.gas - f.gas / 64);
  }

  lemma CreateCommonAllowed(
    o: Oracle, ctx: Context, w: State, f: Frame, value: Word, offset: nat, size: nat, salt: Option<Word>)
    ensures match CreateCommon(o, ctx, w, f, value, offset, size, salt)
      case Raise(_) => true
      case Ok((result, f', w')) =>
        !ctx.isStatic && Balanced(w, w', f'.refund - f.refund) && f'.logs == f.logs
    decreases f.gas, CodeLeft(ctx, f), 0
  {
    hide Deploy, Balanced, Expand, ExpansionCost, Read, IncrementNonce, CreateAddress, Create2Address, At, CanDeployTo;
    BalancedRefl(w);
    if CreateCommon(o, ctx, w, f, value, offset, size, salt).Ok? && ctx.depth + 1 < MAX_CALL_DEPTH {
      var f1 := ChargeMemory(f, offset, size).value;
      var initCode := Read(f1.memory, offset, size);
      var f2 := Charge(f1, GAS_CREATE + if salt.None? then 0 else WordsForSize(|initCode|) * GAS_CREATE2_WORD).value;
      var address :=
        if salt.None? then CreateAddress(o, ctx.address, At(w, ctx.address).nonce)
        else Create2Address(o, ctx.address, salt.value, initCode);
      var w1 := IncrementNonce(w, ctx.address);
      NonceBalanced(w, ctx.address);
      DeployAllowed(o, ctx, w1, f2, value, address, initCode);
      var (_, f3, w2) := Deploy(o, ctx, w1, f2, value, address, initCode);
      BalancedTrans(w, w1, w2, 0, f3.refund - f2.refund);
    }
  }

  lemma NonceBalanced(w: State, a: Address)
    ensures Balanced(w, IncrementNonce(w, a), 0)
  {
    ReplaceNeutral(w, a, At(w, a).(nonce := Wrap(At(w, a).nonce + 1)));
  }

  lemma SetNonceBalanced(w: State, a: Address, nonce: Word)
    ensures Balanced(w, SetNonce(w, a, nonce), 0)
  {
    ReplaceNeutral(w, a, At(w, a).(nonce := nonce));
  }

  lemma SetCodeBalanced(w: State, a: Address, code: seq<Byte>)
    ensures Balanced(w, SetCode(w, a, code), 0)
  {
    ReplaceNeutral(w, a, At(w, a).(code := code));
  }

  lemma OpCreateAllowed(o: Oracle, ctx: Context, w: State, f: Frame, op: Byte)
    requires op in {0xF0, 0xF5}
    ensures match OpCreate(o, ctx, w, f, op)
      case Raise(_) => true
      case Ok((f', w')) => !ctx.isStatic && Allowed(false, w, w', f'.refund - f.refund)
    decreases f.gas, CodeLeft(ctx, f), 1
  {
    hide CreateCommon, Balanced;
    if OpCreate(o, ctx, w, f, op).Ok? {
      var (args, f1) := Pop(f, if op == 0xF0 then 3 else 4).value;
      var salt := if op == 0xF0 then None else Some(args[3]);
      CreateCommonAllowed(o, ctx, w, f1, args[0], args[1], args[2], salt);
    }
  }

  lemma OpSstoreAllowed(ctx: Context, w: State, f: Frame)
    ensures match OpSstore(ctx, w, f)
      case Raise(_) => true
      case Ok((f', w')) => !ctx.isStatic && Allowed(false, w, w', f'.refund - f.refund)
  {
    hide Balanced, SetStorage;
    if OpSstore(ctx, w, f).Ok? {
      var args := Pop(f, 2).value.0;
      StoreBalanced(w, ctx.address, args[0], args[1]);
    }
  }

  lemma OpLogKeeps(ctx: Context, f: Frame, topicCount: nat)
    ensures var r := OpLog(ctx, f, topicCount); r.Ok? ==> !ctx.isStatic && r.value.refund == f.refund
  {
    hide Expand, ExpansionCost, Read;
  }

  lemma OpHaltKeeps(f: Frame)
    ensures var r := OpHalt(f); r.Ok? ==> r.value.0.refund == f.refund && r.value.0.logs == f.logs
  {
    hide Expand, ExpansionCost, Read;
  }

  lemma GlobalStepAllowed(o: Oracle, ctx: Context, w: State, f: Frame, op: Byte)
    ensures match GlobalStep(o, ctx, w, f, op)
      case Raise(_) => true
      case Ok((flow, w')) =>
        && Allowed(ctx.isStatic, w, w', flow.frame.refund - f.refund)
        && (ctx.isStatic ==> flow.frame.logs == f.logs)
    decreases f.gas, CodeLeft(ctx, f), 2
  {
    hide OpSstore, OpCall, OpCreate, OpHalt, Balanced;
    BalancedRefl(w);
    OpHaltKeeps(f);
    if op == 0x55 {
      OpSstoreAllowed(ctx, w, f);
    } else if op in {0xF1, 0xF4, 0xFA} {
      OpCallAllowed(o, ctx, w, f, op);
    } else if op in {0xF0, 0xF5} {
      OpCreateAllowed(o, ctx, w, f, op);
    }
  }

  lemma StepAllowed(o: Oracle, ctx: Context, w: State, f: Frame)
    requires f.pc < |ctx.code|
    ensures match Step(o, ctx, w, f)
      case Raise(_) => true
      case Ok((flow, w')) =>
        && Allowed(ctx.isStatic, w, w', flow.frame.refund - f.refund)
        && (ctx.isStatic ==> flow.frame.logs == f.logs)
    decreases f.gas, CodeLeft(ctx, f), 0
  {
    hide LocalHandler, GlobalStep, OpLog, BaseOpcodeGas, Balanced;
    var op := ctx.code[f.pc];
    var f0 := f.(pc := f.pc + 1);
    BalancedRefl(w);
    if 0xA0 <= op <= 0xA4 {
      OpLogKeeps(ctx, f0, op - 0xA0);
    } else if Charge(f0, BaseOpcodeGas(op)).Ok? {
      var f1 := Charge(f0, BaseOpcodeGas(op)).value;
      LocalKeeps(o, ctx, w, f1, op);
      GlobalStepAllowed(o, ctx, w, f1, op);
    }
  }

  lemma RunLoopAllowed(o: Oracle, ctx: Context, w: State, f: Frame)
    ensures var (result, w') := RunLoop(o, ctx, w, f);
      result.success ==>
        && Allowed(ctx.isStatic, w, w', result.gasRefund - f.refund)
        && (ctx.isStatic ==> result.logs == f.logs)
    decreases f.gas, CodeLeft(ctx, f), 1
  {
    hide Step, Balanced;
    BalancedRefl(w);
    if f.pc < |ctx.code| {
      StepAllowed(o, ctx, w, f);
      var step := Step(o, ctx, w, f);
      if step.Ok? && step.value.0.Next? {
        var (flow, w1) := step.value;
        RunLoopAllowed(o, ctx, w1, flow.frame);
        var (result, w2) := RunLoop(o, ctx, w1, flow.frame);
        if result.success {
          BalancedTrans(w, w1, w2, flow.frame.refund - f.refund, result.gasRefund - flow.frame.refund);
        }
      }
    }
  }

  /** Every successful frame conserves ether and has earned its refunds; a static one changes nothing and logs nothing. */
  lemma RunFrameAllowed(o: Oracle, ctx: Context, w: State)
    ensures var (result, w') := RunFrame(o, ctx, w);
      result.success ==> Allowed(ctx.isStatic, w, w', result.gasRefund) && (ctx.isStatic ==> result.logs == [])
    decreases ctx.gas, |ctx.code| + 1, 0
  {
    RunLoopAllowed(o, ctx, w, InitialFrame(ctx));
  }

  // ---------------------------------------------------------------------------------------------
  // Main results
  // ---------------------------------------------------------------------------------------------

  /** Whatever a top-level call runs, the sum of all balances is what it was. */
  lemma CallConservesEther(
    o: Oracle, w: State, address: Address, caller: Address, origin: Address, value: Word, calldata: seq<Byte>,
    gas: nat, isStatic: bool, gasPrice: nat, chainId: nat)
    ensures var (result, w') := TopCall(o, w, address, caller, origin, value, calldata, gas, isStatic, gasPrice, chainId);
      && Balanced(w, w', if result.success then result.gasRefund else 0)
      && result.gasRemaining <= gas
      && (!result.success ==> w' == w && result.gasRefund == 0 && result.logs == [])
  {
    hide Balanced, RunFrame, Transfer, At;
    BalancedRefl(w);
    TransferBalanced(w, caller, address, value);
    var (_, w1) := if value == 0 then (true, w) else Transfer(w, caller, address, value);
    var ctx := Context(address, caller, origin, value, calldata, At(w1, address).code, gas, isStatic, 0, gasPrice, chainId);
    RunFrameAllowed(o, ctx, w1);
    FailedFrame(o, ctx, w1);
    var (result, w2) := RunFrame(o, ctx, w1);
    if result.success {
      BalancedTrans(w, w1, w2, 0, result.gasRefund);
    }
  }

  /** A frame that does not succeed reports no refund and no logs. */
  lemma FailedFrame(o: Oracle, ctx: Context, w: State)
    ensures var result := RunFrame(o, ctx, w).0; !result.success ==> result.gasRefund == 0 && result.logs == []
  {
    FailedLoop(o, ctx, w, InitialFrame(ctx));
  }

  lemma {:induction false} FailedLoop(o: Oracle, ctx: Context, w: State, f: Frame)
    ensures var result := RunLoop(o, ctx, w, f).0; !result.success ==> result.gasRefund == 0 && result.logs == []
    decreases f.gas, CodeLeft(ctx, f), 1
  {
    hide Step;
    if f.pc < |ctx.code| {
      var step := Step(o, ctx, w, f);
      if step.Ok? && step.value.0.Next? {
        FailedLoop(o, ctx, step.value.1, step.value.0.frame);
      }
    }
  }

  /** Specification of EIP-214: a STATICCALL, whatever runs below it, leaves the state and the logs as they were. */
  lemma StaticCallIsPure(o: Oracle, ctx: Context, w: State, f: Frame)
    ensures var r := OpCall(o, ctx, w, f, 0xFA); r.Ok? ==> r.value.1 == w && r.value.0.logs == f.logs
  {
    hide OpCall, Balanced;
    OpCallAllowed(o, ctx, w, f, 0xFA);
  }

  /** A call opcode that pushes zero has left the state exactly as it found it. */
  lemma FailedCallIsIsolated(o: Oracle, ctx: Context, w: State, f: Frame, op: Byte)
    requires op in {0xF1, 0xF4, 0xFA}
    ensures match OpCall(o, ctx, w, f, op)
      case Raise(_) => true
      case Ok((f', w')) =>
        && f'.stack != [] && f'.stack[|f'.stack| - 1] in {0, 1}
        && (f'.stack[|f'.stack| - 1] == 0 ==> w' == w && f'.logs == f.logs)
  {
    hide CallCommon, Expand, ExpansionCost, Read, Balanced;
    if OpCall(o, ctx, w, f, op).Ok? {
      var (args, f1) := Pop(f, if op == 0xF1 then 7 else 6).value;
      var (inOffset, inSize) := if op == 0xF1 then (args[3], args[4]) else (args[2], args[3]);
      var f2 := ChargeMemory(f1, inOffset, inSize).value;
      var call := CallOf(ctx, op, args, Read(f2.memory, inOffset, inSize));
      CallCommonLogs(o, ctx, w, f2, call);
    }
  }

  lemma CallCommonLogs(o: Oracle, ctx: Context, w: State, f: Frame, call: Call)
    ensures var r := CallCommon(o, ctx, w, f, call); r.Ok? ==> r.value.1.logs == f.logs
  {
    hide RunCallee, Expand, ExpansionCost, Write;
  }

  /** A create opcode that fails leaves at most the creator's nonce raised by one. */
  lemma FailedCreateIsIsolated(
    o: Oracle, ctx: Context, w: State, f: Frame, value: Word, offset: nat, size: nat, salt: Option<Word>)
    ensures match CreateCommon(o, ctx, w, f, value, offset, size, salt)
      case Raise(_) => true
      case Ok((result, f', w')) =>
        && (!result.success ==> result.created.None? && (w' == w || w' == IncrementNonce(w, ctx.address)))
        && (result.success ==> result.created.Some?)
  {
    hide RunInitCode, Expand, ExpansionCost, Read, IncrementNonce, CreateAddress, Create2Address, At, CanDeployTo;
  }
}
