/** The mutable call frame and the opcode handlers that stay inside it. */
module CallFrame {
  import opened Bytes
  import opened Gas
  import opened FrameMemory
  import opened SlotStorage
  import opened World
  import opened StateDb
  import opened Evm
  import E = Evm

  class Stack {
    var values: seq<Word>

    constructor ()
      ensures values == []
    {
      values := [];
    }

    method Push(value: int) returns (r: Result<()>)
      modifies this
      ensures r == if |old(values)| >= MAX_STACK_DEPTH then Raise(StackOverflow) else Ok(())
      ensures values == if r.Ok? then old(values) + [Wrap(value)] else old(values)
    {
      if |values| >= MAX_STACK_DEPTH {
        return Raise(StackOverflow);
      }
      values := values + [Wrap(value)];
      return Ok(());
    }

    method Pop() returns (r: Result<Word>)
      modifies this
      ensures old(values) == [] ==> r == Raise(StackUnderflow)
      ensures old(values) != [] ==>
                var top := |old(values)| - 1; r == Ok(old(values)[top]) && values == old(values)[..top]
    {
      if values == [] {
        return Raise(StackUnderflow);
      }
      var top := values[|values| - 1];
      values := values[..|values| - 1];
      return Ok(top);
    }

    method Dup(depth: nat) returns (r: Result<()>)
      requires depth > 0
      modifies this
      ensures depth > |old(values)| ==> r == Raise(StackUnderflow)
      ensures depth <= |old(values)| < MAX_STACK_DEPTH ==>
                r == Ok(()) && values == old(values) + [old(values)[|old(values)| - depth]]
      ensures depth <= |old(values)| && |old(values)| >= MAX_STACK_DEPTH ==> r == Raise(StackOverflow)
    {
      if depth > |values| {
        return Raise(StackUnderflow);
      }
      r := Push(values[|values| - depth]);
    }

    method Swap(depth: nat) returns (r: Result<()>)
      requires depth > 0
      modifies this
      ensures |old(values)| <= depth ==> r == Raise(StackUnderflow)
      ensures |old(values)| > depth ==>
                var top := |old(values)| - 1;
                r == Ok(()) && values == old(values)[top := old(values)[top - depth]][top - depth := old(values)[top]]
    {
      if |values| <= depth {
        return Raise(StackUnderflow);
      }
      var top := |values| - 1;
      var a, b := values[top], values[top - depth];
      values := values[top := b][top - depth := a];
      return Ok(());
    }
  }

  /** Scans the code once, collecting JUMPDEST positions and skipping PUSH data. */
  method CollectJumpdestOffsets(code: seq<Byte>) returns (offsets: set<nat>)
    ensures offsets == Jumpdests(code)
  {
    offsets := {};
    var index := 0;
    while index < |code|
      invariant offsets + JumpdestsFrom(code, index) == Jumpdests(code)
      decreases |code| - index
    {
      var opcode := code[index];
      if opcode == 0x5B {
        offsets := offsets + {index};
        index := index + 1;
      } else if 0x60 <= opcode <= 0x7F {
        index := index + 1 + (opcode - 0x5F);
      } else {
        index := index + 1;
      }
    }
  }

  /** The handler did what the function says: the same exception, or the same new frame. */
  ghost predicate Agrees(r: Result<()>, frame: Frame, spec: Result<Frame>) {
    match spec
    case Raise(error) => r == Raise(error)
    case Ok(g) => r == Ok(()) && frame == g
  }

  class CallFrame {
    const context: Context
    const stack: Stack
    const memory: Memory
    const meter: GasMeter
    const jumpdests: set<nat>
    var pc: nat
    var lastReturn: seq<Byte>
    var logs: seq<Log>

    constructor (context: Context)
      ensures this.context == context && View() == InitialFrame(context) && Valid()
      ensures fresh(stack) && fresh(memory) && fresh(meter)
    {
      this.context := context;
      stack := new Stack();
      memory := new Memory();
      meter := new GasMeter(context.gas);
      var offsets := CollectJumpdestOffsets(context.code);
      jumpdests := offsets;
      pc := 0;
      lastReturn := [];
      logs := [];
    }

    predicate Valid() {
      jumpdests == Jumpdests(context.code)
    }

    ghost function View(): Frame
      reads this, stack, memory, meter
    {
      Frame(stack.values, memory.data, pc, lastReturn, logs, meter.remaining, meter.refund)
    }

    // -------------------------------------------------------------------------------------------
    // Shared steps
    // -------------------------------------------------------------------------------------------

    /** Several pops in a row, as a handler that reads all its operands first does them. */
    method PopArguments(n: nat) returns (r: Result<seq<Word>>)
      modifies stack
      ensures match E.Pop(old(View()), n)
        case Raise(error) => r == Raise(error)
        case Ok((args, f)) => r == Ok(args) && View() == f
    {
      var args: seq<Word> := [];
      var i := 0;
      while i < n
        invariant 0 <= i <= n && |args| == i <= |old(stack.values)|
        invariant stack.values == old(stack.values)[..|old(stack.values)| - i]
        invariant forall k :: 0 <= k < i ==> args[k] == old(stack.values)[|old(stack.values)| - 1 - k]
      {
        var top :- stack.Pop();
        args := args + [top];
        i := i + 1;
      }
      assert args == E.Pop(old(View()), n).value.0;
      return Ok(args);
    }

    method ChargeMemory(offset: nat, size: nat) returns (r: Result<()>)
      modifies memory, meter
      ensures Agrees(r, View(), E.ChargeMemory(old(View()), offset, size))
    {
      var cost := ExpansionCost(memory.data, offset, size);
      var _ :- meter.Charge(cost);
      memory.ExpandForAccess(offset, size);
      return Ok(());
    }

    /** Takes over what a callee leaves: unused gas, refund, return data and their copy in memory. */
    method TakeBack(call: Call, forwarded: nat, result: ExecutionResult)
      modifies this, memory, meter
      ensures View() == E.TakeBack(old(View()), call, forwarded, result)
    {
      hide FrameMemory.Write, Clip;
      if result.success && result.gasRefund != 0 {
        meter.AddRefund(result.gasRefund);
      }
      meter.ReturnGas(if result.gasRemaining < forwarded then result.gasRemaining else forwarded);
      lastReturn := result.output;
      var copied := Clip(result.output, 0, call.outSize);
      memory.WriteBytes(call.outOffset, copied);
    }

    /** Reads an area that has been paid for, so that nothing grows. */
    method MemoryRead(offset: nat, size: nat) returns (data: seq<Byte>)
      requires size == 0 || offset + size <= |memory.data|
      modifies memory
      ensures View() == old(View()) && data == Read(old(memory.data), offset, size)
    {
      data := memory.ReadBytes(offset, size);
    }

    // -------------------------------------------------------------------------------------------
    // Stack handlers
    // -------------------------------------------------------------------------------------------

    method OpPush(opcode: Byte) returns (r: Result<()>)
      modifies this, stack
      ensures Agrees(r, View(), E.OpPush(context, old(View()), opcode))
    {
      var size := if opcode == 0x5F then 0 else InstructionSize(opcode) - 1;
      var immediate := Clip(context.code, pc, size);
      var value := FromBytes(immediate);
      pc := pc + size;
      r := stack.Push(value);
    }

    method OpBinary(opcode: Byte) returns (r: Result<()>)
      requires BinaryOperation(opcode, 0, 0).Some?
      modifies stack
      ensures Agrees(r, View(), E.OpBinary(old(View()), opcode))
    {
      var args :- PopArguments(2);
      r := stack.Push(BinaryOperation(opcode, args[1], args[0]).value);
    }

    method OpShift(opcode: Byte) returns (r: Result<()>)
      requires ShiftOperation(opcode, 0, 0).Some?
      modifies stack
      ensures Agrees(r, View(), E.OpShift(old(View()), opcode))
    {
      var args :- PopArguments(2);
      r := stack.Push(ShiftOperation(opcode, args[0], args[1]).value);
    }

    method OpIsZero() returns (r: Result<()>)
      modifies stack
      ensures Agrees(r, View(), E.OpIsZero(old(View())))
    {
      var args :- PopArguments(1);
      r := stack.Push(if args[0] == 0 then 1 else 0);
    }

    method OpNot() returns (r: Result<()>)
      modifies stack
      ensures Agrees(r, View(), E.OpNot(old(View())))
    {
      var args :- PopArguments(1);
      r := stack.Push(MODULUS - 1 - args[0]);
    }

    method OpBalance(state: StateDB) returns (r: Result<()>)
      requires state.Valid() && stack !in state.Repr
      modifies stack
      ensures Agrees(r, View(), E.OpBalance(state.Value, old(View())))
    {
      var args :- PopArguments(1);
      var balance := state.GetBalance(ToAddress(args[0]));
      r := stack.Push(balance);
    }

    method OpSload(state: StateDB) returns (r: Result<()>)
      requires state.Valid() && stack !in state.Repr
      modifies stack
      ensures Agrees(r, View(), E.OpSload(context, state.Value, old(View())))
    {
      var args :- PopArguments(1);
      var value := state.GetStorage(context.address, args[0]);
      r := stack.Push(value);
    }

    method OpCalldataload() returns (r: Result<()>)
      modifies stack
      ensures Agrees(r, View(), E.OpCalldataload(context, old(View())))
    {
      var args :- PopArguments(1);
      r := stack.Push(FromBytes(BufferRead(context.calldata, args[0], 32)));
    }

    method OpPop() returns (r: Result<()>)
      modifies stack
      ensures Agrees(r, View(), E.OpPop(old(View())))
    {
      var _ :- PopArguments(1);
      return Ok(());
    }

    method JumpTo(destination: nat) returns (r: Result<()>)
      requires Valid()
      modifies this
      ensures Agrees(r, View(), E.JumpTo(context, old(View()), destination))
    {
      if destination !in jumpdests {
        return Raise(InvalidJumpDestination);
      }
      pc := destination;
      return Ok(());
    }

    method OpJump() returns (r: Result<()>)
      requires Valid()
      modifies this, stack
      ensures Agrees(r, View(), E.OpJump(context, old(View())))
    {
      var args :- PopArguments(1);
      r := JumpTo(args[0]);
    }

    method OpJumpi() returns (r: Result<()>)
      requires Valid()
      modifies this, stack
      ensures Agrees(r, View(), E.OpJumpi(context, old(View())))
    {
      var args :- PopArguments(2);
      if args[1] != 0 {
        r := JumpTo(args[0]);
      } else {
        r := Ok(());
      }
    }

    // -------------------------------------------------------------------------------------------
    // Memory handlers
    // -------------------------------------------------------------------------------------------

    method OpKeccak(o: Oracle) returns (r: Result<()>)
      modifies stack, memory, meter
      ensures Agrees(r, View(), E.OpKeccak(o, old(View())))
    {
      var args :- PopArguments(2);
      var _ :- ChargeMemory(args[0], args[1]);
      var _ :- meter.Charge(WordsForSize(args[1]) * GAS_KECCAK256_WORD);
      var data := MemoryRead(args[0], args[1]);
      r := stack.Push(FromBytes(o.keccak(data)));
    }

    method OpCopy(source: seq<Byte>) returns (r: Result<()>)
      modifies stack, memory, meter
      ensures Agrees(r, View(), E.OpCopy(old(View()), source))
    {
      var args :- PopArguments(3);
      var _ :- ChargeMemory(args[0], args[2]);
      var _ :- meter.Charge(CopyCost(args[2]));
      memory.WriteBytes(args[0], BufferRead(source, args[1], args[2]));
      return Ok(());
    }

    method OpReturndatacopy() returns (r: Result<()>)
      modifies stack, memory, meter
      ensures Agrees(r, View(), E.OpReturndatacopy(old(View())))
    {
      hide Expand, ExpansionCost, FrameMemory.Write, CopyCost;
      var args :- PopArguments(3);
      var start: nat, size: nat := args[1], args[2];
      if start + size > |lastReturn| {
        return Raise(ReturnDataBounds);
      }
      var _ :- ChargeMemory(args[0], args[2]);
      var _ :- meter.Charge(CopyCost(args[2]));
      memory.WriteBytes(args[0], lastReturn[start..start + size]);
      return Ok(());
    }

    method OpMload() returns (r: Result<()>)
      modifies stack, memory, meter
      ensures Agrees(r, View(), E.OpMload(old(View())))
    {
      var args :- PopArguments(1);
      var _ :- ChargeMemory(args[0], 32);
      var data := MemoryRead(args[0], 32);
      r := stack.Push(FromBytes(data));
    }

    method OpMstore() returns (r: Result<()>)
      modifies stack, memory, meter
      ensures Agrees(r, View(), E.OpMstore(old(View())))
    {
      var args :- PopArguments(2);
      var _ :- ChargeMemory(args[0], 32);
      memory.WriteBytes(args[0], ToBytes(args[1], 32));
      return Ok(());
    }

    method OpMstore8() returns (r: Result<()>)
      modifies stack, memory, meter
      ensures Agrees(r, View(), E.OpMstore8(old(View())))
    {
      var args :- PopArguments(2);
      var _ :- ChargeMemory(args[0], 1);
      memory.WriteBytes(args[0], [args[1] % 256]);
      return Ok(());
    }

    method OpLog(topicCount: nat) returns (r: Result<()>)
      modifies this, stack, memory, meter
      ensures Agrees(r, View(), E.OpLog(context, old(View()), topicCount))
    {
      if context.isStatic {
        return Raise(WriteProtection);
      }
      var args :- PopArguments(2);
      var topics :- PopArguments(topicCount);
      var _ :- ChargeMemory(args[0], args[1]);
      var _ :- meter.Charge(GAS_LOG + topicCount * GAS_LOG_TOPIC + args[1] * GAS_LOG_DATA);
      var data := MemoryRead(args[0], args[1]);
      logs := logs + [Log(context.address, topics, data)];
      return Ok(());
    }

    method OpHalt() returns (r: Result<seq<Byte>>)
      modifies stack, memory, meter
      ensures match E.OpHalt(old(View()))
        case Raise(error) => r == Raise(error)
        case Ok((f, data)) => r == Ok(data) && View() == f
    {
      var args :- PopArguments(2);
      var _ :- ChargeMemory(args[0], args[1]);
      var data := MemoryRead(args[0], args[1]);
      return Ok(data);
    }

    // -------------------------------------------------------------------------------------------
    // Dispatch
    // -------------------------------------------------------------------------------------------

    /** Runs the handler of a stack opcode; `handled` says whether there is one. */
    method DispatchStack(state: StateDB, opcode: Byte) returns (handled: bool, r: Result<()>)
      requires Valid() && state.Valid() && stack !in state.Repr
      modifies this, stack
      ensures var spec := StackHandler(context, state.Value, old(View()), opcode);
        && handled == spec.Some?
        && if handled then Agrees(r, View(), spec.value) else View() == old(View())
    {
      handled := true;
      if opcode == 0x5F || 0x60 <= opcode <= 0x7F {
        r := OpPush(opcode);
      } else if 0x80 <= opcode <= 0x8F {
        r := stack.Dup(opcode - 0x7F);
      } else if 0x90 <= opcode <= 0x9F {
        r := stack.Swap(opcode - 0x8F);
      } else if BinaryOperation(opcode, 0, 0).Some? {
        r := OpBinary(opcode);
      } else if ShiftOperation(opcode, 0, 0).Some? {
        r := OpShift(opcode);
      } else if opcode in {0x15, 0x19, 0x31, 0x35, 0x50, 0x54, 0x56, 0x57, 0x5B} {
        r := DispatchPlain(state, opcode);
      } else {
        handled, r := PushEnvironment(opcode);
      }
    }

    /** ADDRESS, ORIGIN, CALLER and the other opcodes that push one known value. */
    method PushEnvironment(opcode: Byte) returns (handled: bool, r: Result<()>)
      modifies stack
      ensures var value := EnvironmentValue(opcode, context, old(View()));
        && handled == value.Some?
        && if handled then Agrees(r, View(), E.Push(old(View()), value.value)) else View() == old(View())
    {
      var value := 0;
      match opcode {
        case 0x30 => value := context.address;
        case 0x32 => value := context.origin;
        case 0x33 => value := context.caller;
        case 0x34 => value := context.value;
        case 0x36 => value := |context.calldata|;
        case 0x38 => value := |context.code|;
        case 0x3A => value := context.gasPrice;
        case 0x3D => value := |lastReturn|;
        case 0x46 => value := context.chainId;
        case 0x58 => value := pc - 1;
        case 0x59 => value := |memory.data|;
        case 0x5A => value := meter.remaining;
        case _ => return false, Ok(());
      }
      handled := true;
      r := stack.Push(value);
    }

    lemma NothingDone(f: Frame)
      ensures Agrees(Ok(()), f, Ok(f))
    {
    }

    method DispatchPlain(state: StateDB, opcode: Byte) returns (r: Result<()>)
      requires opcode in {0x15, 0x19, 0x31, 0x35, 0x50, 0x54, 0x56, 0x57, 0x5B}
      requires Valid() && state.Valid() && stack !in state.Repr
      modifies this, stack
      ensures var spec := StackHandler(context, state.Value, old(View()), opcode);
        spec.Some? && Agrees(r, View(), spec.value)
    {
      hide Agrees, E.OpIsZero, E.OpNot, E.OpBalance, E.OpCalldataload, E.OpPop, E.OpSload, E.OpJump, E.OpJumpi;
      NothingDone(View());
      match opcode {
        case 0x15 => r := OpIsZero();
        case 0x19 => r := OpNot();
        case 0x31 => r := OpBalance(state);
        case 0x35 => r := OpCalldataload();
        case 0x50 => r := OpPop();
        case 0x54 => r := OpSload(state);
        case 0x56 => r := OpJump();
        case 0x57 => r := OpJumpi();
        case _ => r := Ok(());
      }
    }

    /** Runs the handler of a memory opcode; `handled` says whether there is one. */
    method DispatchMemory(o: Oracle, opcode: Byte) returns (handled: bool, r: Result<()>)
      modifies stack, memory, meter
      ensures var spec := MemoryHandler(o, context, old(View()), opcode);
        && handled == spec.Some?
        && if handled then Agrees(r, View(), spec.value) else View() == old(View())
    {
      handled := true;
      match opcode {
        case 0x20 => r := OpKeccak(o);
        case 0x37 => r := OpCopy(context.calldata);
        case 0x39 => r := OpCopy(context.code);
        case 0x3E => r := OpReturndatacopy();
        case 0x51 => r := OpMload();
        case 0x52 => r := OpMstore();
        case 0x53 => r := OpMstore8();
        case _ => return false, Ok(());
      }
    }
  }
}
