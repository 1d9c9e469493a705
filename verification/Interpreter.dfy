/** The interpreter: frames, opcodes, calls and creates over the mutable state database, with snapshots and rollback. */
module Interpreter {
  import opened Bytes
  import opened Gas
  import opened FrameMemory
  import opened SlotStorage
  import opened World
  import opened StateDb
  import opened Evm
  import opened CallFrame
  import E = Evm
  import W = World

  /** How a handler lets the main loop go on: STOP, RETURN and REVERT end it with data. */
  datatype Signal = Running | Returned(data: seq<Byte>) | Reverted(data: seq<Byte>)

  class Interpreter {
    const state: StateDB
    const o: Oracle

    constructor (state: StateDB, o: Oracle)
      ensures this.state == state && this.o == o
    {
      this.state := state;
      this.o := o;
    }

    /** The frame and the state database are well formed and share no object. */
    ghost predicate Ready(frame: CallFrame)
      reads state, state.Repr
    {
      && state.Valid() && frame.Valid()
      && frame !in state.Repr && frame.stack !in state.Repr && frame.memory !in state.Repr && frame.meter !in state.Repr
    }

    // -------------------------------------------------------------------------------------------
    // Frames
    // -------------------------------------------------------------------------------------------

    /** Restores the snapshot when the frame failed. */
    method Execute(context: Context) returns (result: ExecutionResult)
      requires state.Valid()
      modifies state.Repr
      ensures state.Valid() && fresh(state.Repr - old(state.Repr))
      ensures (result, state.Value) == E.Execute(o, context, old(state.Value))
    {
      var snapshot, repr := state.Snapshot();
      ghost var before := state.Value;
      result := ExecuteFrame(context);
      if !result.success {
        state.Restore(snapshot, repr, before);
      }
    }

    /** A top-level message call. */
    method Call(
      address: Address, caller: Address, origin: Address, value: Word, calldata: seq<Byte>, gas: nat, isStatic: bool,
      gasPrice: nat, chainId: nat)
      returns (result: ExecutionResult)
      requires state.Valid()
      modifies state.Repr
      ensures state.Valid() && fresh(state.Repr - old(state.Repr))
      ensures (result, state.Value)
           == E.TopCall(o, old(state.Value), address, caller, origin, value, calldata, gas, isStatic, gasPrice, chainId)
    {
      hide Represents, E.Execute, Transfer;
      var snapshot, repr := state.Snapshot();
      ghost var before := state.Value;
      if value != 0 {
        if isStatic {
          return Failed(Some(WriteProtection));
        }
        var transferred := state.Transfer(caller, address, value);
        if !transferred {
          state.Restore(snapshot, repr, before);
          return Failed(None);
        }
      }
      var code := state.GetCode(address);
      if IsPrecompile(address) && code == [] {
        var cost := PrecompileGas(address, calldata);
        if cost > gas {
          state.Restore(snapshot, repr, before);
          return Failed(Some(OutOfGas));
        }
        return Succeeded(gas - cost, 0, o.precompile(address, calldata), []);
      }
      result := Execute(Context(address, caller, origin, value, calldata, code, gas, isStatic, 0, gasPrice, chainId));
      if !result.success {
        state.Restore(snapshot, repr, before);
      }
    }

    /** Fetch and execute until the frame finishes. On failure the state is left as it is: callers roll it back. */
    method ExecuteFrame(context: Context) returns (result: ExecutionResult)
      requires state.Valid()
      modifies state.Repr
      ensures state.Valid() && fresh(state.Repr - old(state.Repr))
      ensures var (spec, w) := RunFrame(o, context, old(state.Value));
        result == spec && (result.success ==> state.Value == w)
      decreases context.gas, |context.code| + 1, 0
    {
      hide Step;
      var frame := new CallFrame(context);
      while frame.pc < |context.code|
        invariant Ready(frame) && frame.context == context
        invariant fresh(frame) && fresh(frame.stack) && fresh(frame.memory) && fresh(frame.meter)
        invariant fresh(state.Repr - old(state.Repr))
        invariant RunLoop(o, context, state.Value, frame.View()) == RunFrame(o, context, old(state.Value))
        invariant frame.meter.remaining <= context.gas
        decreases frame.meter.remaining, CodeLeft(context, frame.View())
      {
        var signal := ExecuteOpcode(frame);
        match signal {
          case Raise(error) =>
            frame.meter.ConsumeAll();
            return Failed(Some(error));
          case Ok(Returned(data)) =>
            return Succeeded(frame.meter.remaining, frame.meter.refund, data, frame.logs);
          case Ok(Reverted(data)) =>
            return Failed(None).(gasRemaining := frame.meter.remaining, output := data, reverted := true);
          case Ok(Running) =>
        }
      }
      return Succeeded(frame.meter.remaining, frame.meter.refund, [], frame.logs);
    }

    // -------------------------------------------------------------------------------------------
    // Opcodes
    // -------------------------------------------------------------------------------------------

    ghost predicate FlowMatches(signal: Signal, frame: Frame, flow: Flow) {
      && frame == flow.frame
      && match flow
         case Next(_) => signal == Running
         case Return(_, data) => signal == Returned(data)
         case Revert(_, data) => signal == Reverted(data)
    }

    method ExecuteOpcode(frame: CallFrame) returns (r: Result<Signal>)
      requires Ready(frame) && frame.pc < |frame.context.code|
      modifies frame, frame.stack, frame.memory, frame.meter, state.Repr
      ensures state.Valid() && fresh(state.Repr - old(state.Repr))
      ensures match Step(o, frame.context, old(state.Value), old(frame.View()))
        case Raise(error) => r == Raise(error)
        case Ok((flow, w)) => r.Ok? && FlowMatches(r.value, frame.View(), flow) && state.Value == w
      decreases frame.meter.remaining, CodeLeft(frame.context, frame.View()), 0
    {
      hide StackHandler, MemoryHandler, E.OpLog, E.OpHalt, E.OpSstore, E.OpCall, E.OpCreate, BaseOpcodeGas, Represents;
      var opcode := frame.context.code[frame.pc];
      frame.pc := frame.pc + 1;
      if 0xA0 <= opcode <= 0xA4 {
        var _ :- frame.OpLog(opcode - 0xA0);
        return Ok(Running);
      }
      var _ :- frame.meter.Charge(BaseOpcodeGas(opcode));
      var handled, done := frame.DispatchStack(state, opcode);
      if !handled {
        handled, done := frame.DispatchMemory(o, opcode);
      }
      if handled {
        var _ :- done;
        return Ok(Running);
      }
      r := ExecuteGlobalOpcode(frame, opcode);
    }

    /** The opcodes that finish the frame, write the state or start another frame. */
    method ExecuteGlobalOpcode(frame: CallFrame, opcode: Byte) returns (r: Result<Signal>)
      requires Ready(frame)
      requires LocalHandler(o, frame.context, state.Value, frame.View(), opcode).None?
      modifies frame, frame.stack, frame.memory, frame.meter, state.Repr
      ensures state.Valid() && fresh(state.Repr - old(state.Repr))
      ensures match GlobalStep(o, frame.context, old(state.Value), old(frame.View()), opcode)
        case Raise(error) => r == Raise(error)
        case Ok((flow, w)) => r.Ok? && FlowMatches(r.value, frame.View(), flow) && state.Value == w
      decreases frame.meter.remaining, CodeLeft(frame.context, frame.View()), 2
    {
      hide LocalHandler, E.OpHalt, E.OpSstore, E.OpCall, E.OpCreate, Represents;
      match opcode {
        case 0x55 =>
          var _ :- OpSstore(frame);
          return Ok(Running);
        case 0xF1 | 0xF4 | 0xFA =>
          var _ :- OpCall(frame, opcode);
          return Ok(Running);
        case 0xF0 | 0xF5 =>
          var _ :- OpCreate(frame, opcode);
          return Ok(Running);
        case 0x00 =>
          return Ok(Returned([]));
        case 0xF3 =>
          var data :- frame.OpHalt();
          return Ok(Returned(data));
        case 0xFD =>
          var data :- frame.OpHalt();
          return Ok(Reverted(data));
        case _ =>
          return Raise(InvalidOpcode);
      }
    }

    method OpSstore(frame: CallFrame) returns (r: Result<()>)
      requires Ready(frame)
      modifies frame.stack, frame.meter, state.Repr
      ensures state.Valid() && fresh(state.Repr - old(state.Repr))
      ensures match E.OpSstore(frame.context, old(state.Value), old(frame.View()))
        case Raise(error) => r == Raise(error)
        case Ok((f, w)) => r == Ok(()) && frame.View() == f && state.Value == w
    {
      hide Represents, SstoreCost, WriteSlot;
      if frame.context.isStatic {
        return Raise(WriteProtection);
      }
      var args :- frame.PopArguments(2);
      var cost, refund := state.EstimateSstore(frame.context.address, args[0], args[1]);
      var _ :- frame.meter.Charge(cost);
      state.SetStorage(frame.context.address, args[0], args[1]);
      if refund != 0 {
        frame.meter.AddRefund(refund);
      }
      return Ok(());
    }

    // -------------------------------------------------------------------------------------------
    // Calls
    // -------------------------------------------------------------------------------------------

    method OpCall(frame: CallFrame, opcode: Byte) returns (r: Result<()>)
      requires Ready(frame) && opcode in {0xF1, 0xF4, 0xFA}
      modifies frame, frame.stack, frame.memory, frame.meter, state.Repr
      ensures state.Valid() && fresh(state.Repr - old(state.Repr))
      ensures match E.OpCall(o, frame.context, old(state.Value), old(frame.View()), opcode)
        case Raise(error) => r == Raise(error)
        case Ok((f, w)) => r == Ok(()) && frame.View() == f && state.Value == w
      decreases frame.meter.remaining, CodeLeft(frame.context, frame.View()), 1
    {
      hide Represents, E.Pop, E.ChargeMemory, E.CallCommon, CallOf, Expand, FrameMemory.Read, Wrap;
      var args :- frame.PopArguments(if opcode == 0xF1 then 7 else 6);
      var (inOffset, inSize) := if opcode == 0xF1 then (args[3], args[4]) else (args[2], args[3]);
      var _ :- frame.ChargeMemory(inOffset, inSize);
      var calldata := frame.MemoryRead(inOffset, inSize);
      var call := CallOf(frame.context, opcode, args, calldata);
      var result :- CallCommon(frame, call);
      var _ :- frame.stack.Push(if result.success then 1 else 0);
      if result.success {
        frame.logs := frame.logs + result.logs;
      }
      return Ok(());
    }

    method CallCommon(frame: CallFrame, call: Call) returns (r: Result<ExecutionResult>)
      requires Ready(frame)
      modifies frame, frame.stack, frame.memory, frame.meter, state.Repr
      ensures state.Valid() && fresh(state.Repr - old(state.Repr))
      ensures match E.CallCommon(o, frame.context, old(state.Value), old(frame.View()), call)
        case Raise(error) => r == Raise(error)
        case Ok((result, f, w)) => r == Ok(result) && frame.View() == f && state.Value == w
      decreases frame.meter.remaining, CodeLeft(frame.context, frame.View()), 0
    {
      hide Represents, E.ChargeMemory, E.ForwardCall, Expand;
      if frame.context.depth + 1 >= MAX_CALL_DEPTH {
        return Ok(Failed(Some(CallDepthExceeded)));
      }
      if call.isStatic && call.value != 0 {
        return Raise(WriteProtection);
      }
      if call.value != 0 && frame.context.isStatic {
        return Raise(WriteProtection);
      }
      var _ :- frame.ChargeMemory(call.outOffset, call.outSize);

      var cost := GAS_CALL;
      if call.value != 0 {
        cost := cost + GAS_CALL_VALUE;
        var exists_ := state.AccountExists(call.target);
        if !exists_ {
          cost := cost + GAS_NEW_ACCOUNT;
        }
      }
      var _ :- frame.meter.Charge(cost);

      var balance := state.GetBalance(frame.context.address);
      if call.value != 0 && balance < call.value {
        return Ok(Failed(None));
      }
      var result := ForwardCall(frame, call);
      return Ok(result);
    }

    /** The part of a call after its base price: forward gas, run the callee, take back gas and return data. */
    method ForwardCall(frame: CallFrame, call: Call) returns (result: ExecutionResult)
      requires Ready(frame)
      modifies frame, frame.memory, frame.meter, state.Repr
      ensures state.Valid() && fresh(state.Repr - old(state.Repr))
      ensures (result, frame.View(), state.Value)
           == E.ForwardCall(o, frame.context, old(state.Value), old(frame.View()), call)
      decreases frame.meter.remaining + Stipend(call) + 1, 1, 0
    {
      hide Represents, E.RunCallee, E.TakeBack;
      var available := frame.meter.remaining - frame.meter.remaining / 64;
      var forwarded := if call.gasRequested < available then call.gasRequested else available;
      var childGas := forwarded;
      if call.value != 0 {
        childGas := childGas + GAS_CALL_STIPEND;
      }
      var charged := frame.meter.Charge(forwarded);
      assert charged.Ok?;
      var callee := RunCallee(frame.context, call, childGas);
      if callee.None? {
        return Failed(None);
      }
      result := callee.value;
      frame.TakeBack(call, forwarded, result);
    }

    /** Snapshot, transfer, run the callee, and restore the snapshot unless it succeeded. */
    method RunCallee(context: Context, call: Call, childGas: nat) returns (callee: Option<ExecutionResult>)
      requires state.Valid()
      modifies state.Repr
      ensures state.Valid() && fresh(state.Repr - old(state.Repr))
      ensures (callee, state.Value) == E.RunCallee(o, context, old(state.Value), call, childGas)
      decreases childGas + 1, 0
    {
      hide Represents, RunFrame, Transfer;
      var snapshot, repr := state.Snapshot();
      ghost var before := state.Value;
      var transferred := true;
      if call.value != 0 {
        transferred := state.Transfer(context.address, call.target, call.value);
      }
      if !transferred {
        state.Restore(snapshot, repr, before);
        return None;
      }
      var result;
      if IsPrecompile(call.target) {
        var cost := PrecompileGas(call.target, call.calldata);
        if childGas < cost {
          state.Restore(snapshot, repr, before);
          return None;
        }
        result := Succeeded(childGas - cost, 0, o.precompile(call.target, call.calldata), []);
      } else {
        var code := state.GetCode(call.target);
        if code == [] {
          result := Succeeded(childGas, 0, [], []);
        } else {
          result := ExecuteFrame(ChildContext(context, call, code, childGas));
        }
      }
      if !result.success {
        state.Restore(snapshot, repr, before);
      }
      return Some(result);
    }

    // -------------------------------------------------------------------------------------------
    // Creates
    // -------------------------------------------------------------------------------------------

    method OpCreate(frame: CallFrame, opcode: Byte) returns (r: Result<()>)
      requires Ready(frame) && opcode in {0xF0, 0xF5}
      modifies frame, frame.stack, frame.memory, frame.meter, state.Repr
      ensures state.Valid() && fresh(state.Repr - old(state.Repr))
      ensures match E.OpCreate(o, frame.context, old(state.Value), old(frame.View()), opcode)
        case Raise(error) => r == Raise(error)
        case Ok((f, w)) => r == Ok(()) && frame.View() == f && state.Value == w
      decreases frame.meter.remaining, CodeLeft(frame.context, frame.View()), 1
    {
      hide Represents, E.CreateCommon;
      var args :- frame.PopArguments(if opcode == 0xF0 then 3 else 4);
      var result :- CreateCommon(frame, args[0], args[1], args[2], if opcode == 0xF0 then None else Some(args[3]));
      var _ :- frame.stack.Push(if result.success && result.created.Some? then result.created.value else 0);
      if result.success {
        frame.logs := frame.logs + result.logs;
      }
      return Ok(());
    }

    method CreateCommon(frame: CallFrame, value: Word, offset: nat, size: nat, salt: Option<Word>)
      returns (r: Result<ExecutionResult>)
      requires Ready(frame)
      modifies frame, frame.stack, frame.memory, frame.meter, state.Repr
      ensures state.Valid() && fresh(state.Repr - old(state.Repr))
      ensures match E.CreateCommon(o, frame.context, old(state.Value), old(frame.View()), value, offset, size, salt)
        case Raise(error) => r == Raise(error)
        case Ok((result, f, w)) => r == Ok(result) && frame.View() == f && state.Value == w
      decreases frame.meter.remaining, CodeLeft(frame.context, frame.View()), 0
    {
      hide Represents, E.ChargeMemory, E.Deploy, Expand, FrameMemory.Read, CreateAddress, Create2Address,
        W.IncrementNonce, W.CanDeployTo, WordsForSize;
      if frame.context.isStatic {
        return Raise(WriteProtection);
      }
      if frame.context.depth + 1 >= MAX_CALL_DEPTH {
        return Ok(Failed(None));
      }
      var _ :- frame.ChargeMemory(offset, size);
      var initCode := frame.MemoryRead(offset, size);
      var extra := if salt.None? then 0 else WordsForSize(|initCode|) * GAS_CREATE2_WORD;
      var _ :- frame.meter.Charge(GAS_CREATE + extra);

      var creator := frame.context.address;
      var balance := state.GetBalance(creator);
      if balance < value {
        return Ok(Failed(None));
      }
      var nonce := state.GetNonce(creator);
      var address :=
        if salt.None? then CreateAddress(o, creator, nonce) else Create2Address(o, creator, salt.value, initCode);
      state.IncrementNonce(creator);
      var free := state.CanDeployTo(address);
      if !free {
        return Ok(Failed(None));
      }
      var result := Deploy(frame, value, address, initCode);
      return Ok(result);
    }

    /** The part of a create after the address is known to be free. */
    method Deploy(frame: CallFrame, value: Word, address: Address, initCode: seq<Byte>)
      returns (result: ExecutionResult)
      requires Ready(frame)
      modifies frame, frame.meter, state.Repr
      ensures state.Valid() && fresh(state.Repr - old(state.Repr))
      ensures (result, frame.View(), state.Value)
           == E.Deploy(o, frame.context, old(state.Value), old(frame.View()), value, address, initCode)
      decreases frame.meter.remaining + 1, 1, 0
    {
      hide Represents, E.RunInitCode;
      var childGas := frame.meter.remaining - frame.meter.remaining / 64;
      var init := RunInitCode(frame.context, value, address, initCode, childGas);
      if init.None? {
        return Failed(None);
      }
      var charged := frame.meter.Charge(childGas);
      assert charged.Ok?;
      result := init.value;
      if result.success && result.gasRefund != 0 {
        frame.meter.AddRefund(result.gasRefund);
      }
      frame.meter.ReturnGas(result.gasRemaining);
      frame.lastReturn := result.output;
      result := result.(gasRefund := 0, created := if result.success then Some(address) else None);
    }

    /** Snapshot, endow the new account, run the init code, and store the code or restore the snapshot. */
    method RunInitCode(context: Context, value: Word, address: Address, initCode: seq<Byte>, childGas: nat)
      returns (init: Option<ExecutionResult>)
      requires state.Valid()
      modifies state.Repr
      ensures state.Valid() && fresh(state.Repr - old(state.Repr))
      ensures (init, state.Value) == E.RunInitCode(o, context, old(state.Value), value, address, initCode, childGas)
      decreases childGas + 1, 0, 0
    {
      hide Represents, RunFrame, W.Transfer, W.SetNonce, W.SetCode;
      var snapshot, repr := state.Snapshot();
      ghost var before := state.Value;
      state.SetNonce(address, 1);
      var transferred := state.Transfer(context.address, address, value);
      if !transferred {
        state.Restore(snapshot, repr, before);
        return None;
      }
      var result := ExecuteFrame(CreateContext(context, address, value, initCode, childGas));
      if result.success {
        state.SetCode(address, result.output);
      } else {
        state.Restore(snapshot, repr, before);
      }
      return Some(result);
    }
  }
}
