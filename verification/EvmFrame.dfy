/** Invariants of every frame that any program can reach: positions, stack depth and the price of memory. */
module EvmFrame {
  import opened Bytes
  import opened Gas
  import opened FrameMemory
  import opened SlotStorage
  import opened World
  import opened Evm

  // ---------------------------------------------------------------------------------------------
  // Linear disassembly
  // ---------------------------------------------------------------------------------------------

  /** Instruction starts from `index` on, reading the code front to back. */
  ghost function StartsFrom(code: seq<Byte>, index: nat): set<nat>
    decreases |code| - index
  {
    if index >= |code| then {} else {index} + StartsFrom(code, index + InstructionSize(code[index]))
  }

  ghost function Starts(code: seq<Byte>): set<nat> {
    StartsFrom(code, 0)
  }

  lemma {:induction false} StartsInRange(code: seq<Byte>, index: nat)
    ensures forall i :: i in StartsFrom(code, index) ==> index <= i < |code|
    decreases |code| - index
  {
    if index < |code| {
      StartsInRange(code, index + InstructionSize(code[index]));
    }
  }

  /** After an instruction comes the next instruction or the end. */
  lemma {:induction false} NextStart(code: seq<Byte>, index: nat, i: nat)
    requires i in StartsFrom(code, index)
    ensures i < |code|
    ensures var next := i + InstructionSize(code[i]); next in StartsFrom(code, index) || next >= |code|
    decreases |code| - index
  {
    StartsInRange(code, index);
    if i != index {
      NextStart(code, index + InstructionSize(code[index]), i);
    }
  }

  /** No instruction starts inside another one, in particular not inside PUSH data. */
  lemma {:induction false} StartsAreDisjoint(code: seq<Byte>, index: nat, i: nat, j: nat)
    requires i in StartsFrom(code, index) && j in StartsFrom(code, index) && i < j
    ensures i < |code| && i + InstructionSize(code[i]) <= j
    decreases |code| - index
  {
    StartsInRange(code, index);
    var next := index + InstructionSize(code[index]);
    StartsInRange(code, next);
    if i != index {
      StartsAreDisjoint(code, next, i, j);
    }
  }

  /** The jump table is exactly the set of JUMPDEST opcodes at instruction starts. */
  lemma {:induction false} JumpdestsAreStarts(code: seq<Byte>, index: nat, i: nat)
    ensures i in JumpdestsFrom(code, index) <==> i in StartsFrom(code, index) && i < |code| && code[i] == 0x5B
    decreases |code| - index
  {
    if index < |code| {
      var next := index + InstructionSize(code[index]);
      JumpdestsAreStarts(code, next, i);
      StartsInRange(code, next);
    }
  }

  /** How many bytes of data follow an instruction: 1 to 32 behind PUSH1 to PUSH32, none behind any other. */
  function DataLength(op: Byte): nat {
    if 0x60 <= op <= 0x7F then op - 0x5F else 0
  }

  /** The bytes behind a PUSH are data, whatever they are: none of them is an instruction or a jump target. The first
      instruction is at the start of the code, the next one right behind the data of the one before. */
  lemma PushDataIsData(code: seq<Byte>, i: nat, k: nat)
    requires i in Starts(code)
    ensures i < |code|
    ensures 1 <= k <= DataLength(code[i]) ==> i + k !in Starts(code) && i + k !in Jumpdests(code)
    ensures i + 1 + DataLength(code[i]) < |code| ==> i + 1 + DataLength(code[i]) in Starts(code)
    ensures 0 in Starts(code)
  {
    hide StartsFrom, JumpdestsFrom;
    StartsInRange(code, 0);
    NextStart(code, 0, i);
    JumpdestsAreStarts(code, 0, i + k);
    FirstStart(code);
    if i + k in Starts(code) && k > 0 {
      StartsAreDisjoint(code, 0, i, i + k);
    }
  }

  lemma FirstStart(code: seq<Byte>)
    requires code != []
    ensures 0 in Starts(code)
  {
  }

  /** And there are no other instructions: each is the first one or follows another. */
  lemma {:induction false} StartHasPredecessor(code: seq<Byte>, index: nat, i: nat)
    requires i in StartsFrom(code, index) && i != index
    ensures exists j :: j in StartsFrom(code, index) && j < |code| && i == j + 1 + DataLength(code[j])
    decreases |code| - index
  {
    var next := index + InstructionSize(code[index]);
    if i == next {
      assert index in StartsFrom(code, index);
    } else {
      StartHasPredecessor(code, next, i);
      var j :| j in StartsFrom(code, next) && j < |code| && i == j + 1 + DataLength(code[j]);
      assert j in StartsFrom(code, index);
    }
  }

  ghost predicate AtInstruction(code: seq<Byte>, pc: nat) {
    pc >= |code| || pc in Starts(code)
  }

  // ---------------------------------------------------------------------------------------------
  // Gas left plus gas spent on memory
  // ---------------------------------------------------------------------------------------------

  /** What the frame holds: gas left, and the price of the memory it has. */
  function Worth(f: Frame): nat {
    f.gas + MemoryCost(WordsForSize(|f.memory|))
  }

  lemma ChargeMemoryWorth(f: Frame, offset: nat, size: nat)
    ensures var r := ChargeMemory(f, offset, size);
      r.Ok? ==>
        && Worth(r.value) == Worth(f) && r.value.gas <= f.gas
        && r.value == f.(memory := Expand(f.memory, offset, size), gas := r.value.gas)
  {
    hide MemoryCost, Expand, ExpansionCost, WordsForSize;
    ExpansionIsPaid(f.memory, offset, size);
  }

  /** Accesses inside an area that has been paid for do not grow the memory. */
  lemma PaidAccess(data: seq<Byte>, offset: nat, size: nat, raw: seq<Byte>)
    requires |raw| <= size
    ensures |Write(Expand(data, offset, size), offset, raw)| == |Expand(data, offset, size)|
  {
  }

  lemma MemoryHandlerWorth(o: Oracle, ctx: Context, f: Frame, op: Byte)
    ensures var r := MemoryHandler(o, ctx, f, op); r.Some? && r.value.Ok? ==> Worth(r.value.value) <= Worth(f)
  {
    if op in {0x20, 0x51, 0x52, 0x53} {
      WordAccessWorth(o, f, op);
    } else if op in {0x37, 0x39, 0x3E} {
      CopyWorth(f, ctx.calldata);
      CopyWorth(f, ctx.code);
      ReturndatacopyWorth(f);
    }
  }

  lemma WordAccessWorth(o: Oracle, f: Frame, op: Byte)
    ensures OpKeccak(o, f).Ok? ==> Worth(OpKeccak(o, f).value) <= Worth(f)
    ensures OpMload(f).Ok? ==> Worth(OpMload(f).value) <= Worth(f)
    ensures OpMstore(f).Ok? ==> Worth(OpMstore(f).value) <= Worth(f)
    ensures OpMstore8(f).Ok? ==> Worth(OpMstore8(f).value) <= Worth(f)
  {
    hide ChargeMemory, MemoryCost, Expand, ExpansionCost, WordsForSize, Read, Write, FromBytes, ToBytes;
    if Pop(f, 2).Ok? {
      var (args, f1) := Pop(f, 2).value;
      ChargeMemoryWorth(f1, args[0], args[1]);
      ChargeMemoryWorth(f1, args[0], 32);
      ChargeMemoryWorth(f1, args[0], 1);
      PaidAccess(f1.memory, args[0], 32, ToBytes(args[1], 32));
      PaidAccess(f1.memory, args[0], 1, [args[1] % 256]);
    }
    if Pop(f, 1).Ok? {
      var (args, f1) := Pop(f, 1).value;
      ChargeMemoryWorth(f1, args[0], 32);
    }
  }

  lemma CopyWorth(f: Frame, source: seq<Byte>)
    ensures OpCopy(f, source).Ok? ==> Worth(OpCopy(f, source).value) <= Worth(f)
  {
    hide ChargeMemory, MemoryCost, Expand, ExpansionCost, WordsForSize, Write, BufferRead, CopyCost;
    if Pop(f, 3).Ok? {
      var (args, f1) := Pop(f, 3).value;
      ChargeMemoryWorth(f1, args[0], args[2]);
      PaidAccess(f1.memory, args[0], args[2], BufferRead(source, args[1], args[2]));
    }
  }

  lemma ReturndatacopyWorth(f: Frame)
    ensures OpReturndatacopy(f).Ok? ==> Worth(OpReturndatacopy(f).value) <= Worth(f)
  {
    hide ChargeMemory, MemoryCost, Expand, ExpansionCost, WordsForSize, Write, CopyCost;
    if OpReturndatacopy(f).Ok? {
      var (args, f1) := Pop(f, 3).value;
      var start: nat, size: nat := args[1], args[2];
      ChargeMemoryWorth(f1, args[0], size);
      PaidAccess(f1.memory, args[0], size, f1.lastReturn[start..start + size]);
    }
  }

  lemma LogAndHaltWorth(ctx: Context, f: Frame, topicCount: nat)
    ensures OpLog(ctx, f, topicCount).Ok? ==> Worth(OpLog(ctx, f, topicCount).value) <= Worth(f)
    ensures OpHalt(f).Ok? ==> Worth(OpHalt(f).value.0) <= Worth(f)
  {
    hide ChargeMemory, MemoryCost, Expand, ExpansionCost, WordsForSize, Read;
    if Pop(f, 2).Ok? {
      var (args, f1) := Pop(f, 2).value;
      ChargeMemoryWorth(f1, args[0], args[1]);
      if Pop(f1, topicCount).Ok? {
        ChargeMemoryWorth(Pop(f1, topicCount).value.1, args[0], args[1]);
      }
    }
  }

  lemma CallCommonWorth(o: Oracle, ctx: Context, w: State, f: Frame, call: Call)
    ensures var r := CallCommon(o, ctx, w, f, call); r.Ok? ==> Worth(r.value.1) <= Worth(f)
  {
    hide RunCallee, ChargeMemory, MemoryCost, Expand, ExpansionCost, WordsForSize, Write, CallCost, At, Clip;
    var r := CallCommon(o, ctx, w, f, call);
    if r.Ok? && ctx.depth + 1 < MAX_CALL_DEPTH {
      ChargeMemoryWorth(f, call.outOffset, call.outSize);
      ClipLength(r.value.0.output, call.outSize);
      PaidAccess(f.memory, call.outOffset, call.outSize, Clip(r.value.0.output, 0, call.outSize));
    }
  }

  lemma ClipLength(data: seq<Byte>, size: nat)
    ensures |Clip(data, 0, size)| <= size
  {
  }

  lemma OpCallWorth(o: Oracle, ctx: Context, w: State, f: Frame, op: Byte)
    requires op in {0xF1, 0xF4, 0xFA}
    ensures var r := OpCall(o, ctx, w, f, op); r.Ok? ==> Worth(r.value.0) <= Worth(f)
  {
    hide CallCommon, ChargeMemory, MemoryCost, Expand, ExpansionCost, WordsForSize, Read;
    if OpCall(o, ctx, w, f, op).Ok? {
      var (args, f1) := Pop(f, if op == 0xF1 then 7 else 6).value;
      var (inOffset, inSize) := if op == 0xF1 then (args[3], args[4]) else (args[2], args[3]);
      ChargeMemoryWorth(f1, inOffset, inSize);
      var f2 := ChargeMemory(f1, inOffset, inSize).value;
      CallCommonWorth(o, ctx, w, f2, CallOf(ctx, op, args, Read(f2.memory, inOffset, inSize)));
    }
  }

  lemma CreateWorth(o: Oracle, ctx: Context, w: State, f: Frame, op: Byte)
    requires op in {0xF0, 0xF5}
    ensures var r := OpCreate(o, ctx, w, f, op); r.Ok? ==> Worth(r.value.0) <= Worth(f)
  {
    hide CreateCommon, MemoryCost, WordsForSize;
    if OpCreate(o, ctx, w, f, op).Ok? {
      var (args, f1) := Pop(f, if op == 0xF0 then 3 else 4).value;
      var salt := if op == 0xF0 then None else Some(args[3]);
      CreateCommonWorth(o, ctx, w, f1, args[0], args[1], args[2], salt);
    }
  }

  lemma CreateCommonWorth(
    o: Oracle, ctx: Context, w: State, f: Frame, value: Word, offset: nat, size: nat, salt: Option<Word>)
    ensures var r := CreateCommon(o, ctx, w, f, value, offset, size, salt); r.Ok? ==> Worth(r.value.1) <= Worth(f)
  {
    hide RunInitCode, ChargeMemory, MemoryCost, Expand, ExpansionCost, WordsForSize, Read, IncrementNonce,
      CreateAddress, Create2Address, At, CanDeployTo;
    ChargeMemoryWorth(f, offset, size);
  }

  // ---------------------------------------------------------------------------------------------
  // One step
  // ---------------------------------------------------------------------------------------------

  /** The invariant of a frame: at an instruction, stack within bounds, and never worth more than the gas it was given. */
  ghost predicate FrameOk(ctx: Context, f: Frame) {
    && AtInstruction(ctx.code, f.pc)
    && |f.stack| <= MAX_STACK_DEPTH
    && Worth(f) <= ctx.gas
  }

  /** Where a running frame may continue after the opcode at `pc`: behind it, or at a jump destination. */
  predicate Continues(code: seq<Byte>, pc: nat, next: nat)
    requires pc < |code|
  {
    next == pc + InstructionSize(code[pc]) || next in Jumpdests(code)
  }

  lemma StackHandlerContinues(ctx: Context, w: State, f: Frame, op: Byte, pc: nat)
    requires pc < |ctx.code| && op == ctx.code[pc] && f.pc == pc + 1 && |f.stack| <= MAX_STACK_DEPTH
    ensures var r := StackHandler(ctx, w, f, op);
      r.Some? && r.value.Ok? ==> Continues(ctx.code, pc, r.value.value.pc) && |r.value.value.stack| <= MAX_STACK_DEPTH
  {
    hide Jumpdests, FromBytes, BufferRead, Clip, Wrap, At;
  }

  lemma MemoryHandlerContinues(o: Oracle, ctx: Context, f: Frame, op: Byte)
    requires |f.stack| <= MAX_STACK_DEPTH
    ensures var r := MemoryHandler(o, ctx, f, op);
      r.Some? && r.value.Ok? ==>
        r.value.value.pc == f.pc && |r.value.value.stack| <= MAX_STACK_DEPTH && InstructionSize(op) == 1
  {
    hide Pop, FromBytes, ToBytes, BufferRead, Clip, Wrap, Expand, ExpansionCost, Read, Write, WordsForSize, CopyCost;
  }

  lemma CallsContinue(o: Oracle, ctx: Context, w: State, f: Frame, op: Byte)
    requires |f.stack| <= MAX_STACK_DEPTH
    ensures op in {0xF1, 0xF4, 0xFA} && OpCall(o, ctx, w, f, op).Ok?
      ==> |OpCall(o, ctx, w, f, op).value.0.stack| <= MAX_STACK_DEPTH
    ensures op in {0xF0, 0xF5} && OpCreate(o, ctx, w, f, op).Ok?
      ==> |OpCreate(o, ctx, w, f, op).value.0.stack| <= MAX_STACK_DEPTH
  {
    hide CallCommon, CreateCommon, Pop, Expand, ExpansionCost, Read, Wrap;
  }

  lemma StepContinues(o: Oracle, ctx: Context, w: State, f: Frame)
    requires f.pc < |ctx.code| && |f.stack| <= MAX_STACK_DEPTH
    ensures match Step(o, ctx, w, f)
      case Ok((Next(g), _)) => Continues(ctx.code, f.pc, g.pc) && |g.stack| <= MAX_STACK_DEPTH
      case _ => true
  {
    hide StackHandler, MemoryHandler, OpCall, OpCreate, OpHalt, Expand, ExpansionCost, Read, BaseOpcodeGas, SetStorage,
      SstoreCost, Jumpdests, At, Wrap;
    var op := ctx.code[f.pc];
    var f0 := f.(pc := f.pc + 1);
    if Charge(f0, BaseOpcodeGas(op)).Ok? {
      var f1 := Charge(f0, BaseOpcodeGas(op)).value;
      StackHandlerContinues(ctx, w, f1, op, f.pc);
      MemoryHandlerContinues(o, ctx, f1, op);
      CallsContinue(o, ctx, w, f1, op);
    }
  }

  lemma StepWorth(o: Oracle, ctx: Context, w: State, f: Frame)
    requires f.pc < |ctx.code|
    ensures var r := Step(o, ctx, w, f); r.Ok? ==> Worth(r.value.0.frame) <= Worth(f)
  {
    hide StackHandler, MemoryHandler, OpCall, OpCreate, OpLog, OpHalt, BaseOpcodeGas, SetStorage, SstoreCost,
      MemoryCost, WordsForSize, At;
    var op := ctx.code[f.pc];
    var f0 := f.(pc := f.pc + 1);
    if 0xA0 <= op <= 0xA4 {
      LogAndHaltWorth(ctx, f0, op - 0xA0);
    } else if Charge(f0, BaseOpcodeGas(op)).Ok? {
      var f1 := Charge(f0, BaseOpcodeGas(op)).value;
      StackKeeps(ctx, w, f1, op);
      MemoryHandlerWorth(o, ctx, f1, op);
      LogAndHaltWorth(ctx, f1, 0);
      if op in {0xF1, 0xF4, 0xFA} {
        OpCallWorth(o, ctx, w, f1, op);
      }
      if op in {0xF0, 0xF5} {
        CreateWorth(o, ctx, w, f1, op);
      }
    }
  }

  lemma StepKeepsFrameOk(o: Oracle, ctx: Context, w: State, f: Frame)
    requires f.pc < |ctx.code| && FrameOk(ctx, f)
    ensures match Step(o, ctx, w, f)
      case Ok((Next(g), _)) => FrameOk(ctx, g)
      case _ => true
  {
    hide Step, Worth;
    StepContinues(o, ctx, w, f);
    StepWorth(o, ctx, w, f);
    NextStart(ctx.code, 0, f.pc);
    match Step(o, ctx, w, f)
    case Ok((Next(g), _)) => JumpdestsAreStarts(ctx.code, 0, g.pc);
    case _ =>
  }

  // ---------------------------------------------------------------------------------------------
  // Every reachable frame
  // ---------------------------------------------------------------------------------------------

  /** The frame and state after `n` opcodes of this frame, if it is still running then. It starts with nothing on the stack
      and in memory, at the first opcode, with all of its gas. */
  ghost function After(o: Oracle, ctx: Context, w: State, n: nat): Option<(Frame, State)> {
    if n == 0 then Some((Frame([], [], 0, [], [], ctx.gas, 0), w))
    else
      match After(o, ctx, w, n - 1)
      case None => None
      case Some((f, w1)) =>
        if f.pc >= |ctx.code| then None
        else
          match Step(o, ctx, w1, f)
          case Ok((Next(g), w2)) => Some((g, w2))
          case _ => None
  }

  /** Whatever the code, every opcode is fetched at an instruction start, never inside PUSH data, and memory of w words
      has cost at least 3 * w + w * w / 512 of the gas the frame was given. */
  lemma {:induction false} ReachableFrames(o: Oracle, ctx: Context, w: State, n: nat)
    ensures match After(o, ctx, w, n)
      case None => true
      case Some((f, _)) =>
        && FrameOk(ctx, f)
        && var words := WordsForSize(|f.memory|); 3 * words + words * words / 512 <= ctx.gas
  {
    hide Step, Jumpdests;
    if n > 0 {
      ReachableFrames(o, ctx, w, n - 1);
      var before := After(o, ctx, w, n - 1);
      if before.Some? && before.value.0.pc < |ctx.code| {
        StepKeepsFrameOk(o, ctx, before.value.1, before.value.0);
      }
    } else {
      StartOfCode(ctx);
    }
    match After(o, ctx, w, n)
    case None =>
    case Some((f, _)) => MemoryPrice(ctx, f);
  }

  lemma MemoryPrice(ctx: Context, f: Frame)
    requires FrameOk(ctx, f)
    ensures var words := WordsForSize(|f.memory|); 3 * words + words * words / 512 <= ctx.gas
  {
    var words := WordsForSize(|f.memory|);
    assert MemoryCost(words) == 3 * words + words * words / 512;
  }

  lemma StartOfCode(ctx: Context)
    ensures FrameOk(ctx, InitialFrame(ctx))
  {
    assert WordsForSize(0) == 0;
  }

  // ---------------------------------------------------------------------------------------------
  // Running is stepping
  // ---------------------------------------------------------------------------------------------

  /** The frame goes on after its next opcode. */
  ghost predicate GoesOn(o: Oracle, ctx: Context, w: State, f: Frame) {
    f.pc < |ctx.code| && Step(o, ctx, w, f).Ok? && Step(o, ctx, w, f).value.0.Next?
  }

  /** What a frame comes to whose last opcode is the next one, or that has run off its code. */
  ghost function LastResult(o: Oracle, ctx: Context, w: State, f: Frame): (ExecutionResult, State)
    requires !GoesOn(o, ctx, w, f)
  {
    if f.pc >= |ctx.code| then (ExecutionResult(true, f.gas, f.refund, [], f.logs, None, false, None), w)
    else
      match Step(o, ctx, w, f)
      case Raise(error) => (ExecutionResult(false, 0, 0, [], [], Some(error), false, None), w)
      case Ok((Return(g, data), w1)) => (ExecutionResult(true, g.gas, g.refund, data, g.logs, None, false, None), w1)
      case Ok((Revert(g, data), w1)) => (ExecutionResult(false, g.gas, 0, data, [], None, true, None), w1)
  }

  lemma {:induction false} RunFromHere(o: Oracle, ctx: Context, w: State, n: nat)
    requires After(o, ctx, w, n).Some?
    ensures var (f, w1) := After(o, ctx, w, n).value; RunFrame(o, ctx, w) == RunLoop(o, ctx, w1, f)
  {
    hide Step;
    if n > 0 {
      RunFromHere(o, ctx, w, n - 1);
    }
  }

  lemma StepComesCloser(o: Oracle, ctx: Context, w: State, f: Frame)
    requires GoesOn(o, ctx, w, f)
    ensures var g := Step(o, ctx, w, f).value.0.frame; g.gas <= f.gas && (g.gas < f.gas || g.pc == f.pc + 1)
  {
    hide Step;
  }

  lemma {:induction false} EndsFrom(o: Oracle, ctx: Context, w: State, n: nat, f: Frame, w1: State) returns (m: nat)
    requires After(o, ctx, w, n) == Some((f, w1))
    ensures After(o, ctx, w, m).Some? && !GoesOn(o, ctx, After(o, ctx, w, m).value.1, After(o, ctx, w, m).value.0)
    decreases f.gas, CodeLeft(ctx, f)
  {
    hide Step;
    if GoesOn(o, ctx, w1, f) {
      var (flow, w2) := Step(o, ctx, w1, f).value;
      StepComesCloser(o, ctx, w1, f);
      m := EndsFrom(o, ctx, w, n + 1, flow.frame, w2);
    } else {
      m := n;
    }
  }

  /** Every frame of every program ends after some number of opcodes, and the result of running it is what the last of them
      comes to: running off the code and STOP succeed with no output, RETURN with its bytes, REVERT gives its bytes and the
      gas left back, and every fault loses all gas. */
  lemma RunIsSteps(o: Oracle, ctx: Context, w: State) returns (m: nat)
    ensures After(o, ctx, w, m).Some?
    ensures var (f, w1) := After(o, ctx, w, m).value;
      !GoesOn(o, ctx, w1, f) && RunFrame(o, ctx, w) == LastResult(o, ctx, w1, f)
  {
    hide Step;
    m := EndsFrom(o, ctx, w, 0, InitialFrame(ctx), w);
    RunFromHere(o, ctx, w, m);
  }

  // ---------------------------------------------------------------------------------------------
  // Child frames
  // ---------------------------------------------------------------------------------------------

  /** The frame that a call starts, if it gets that far, and the state it starts in. */
  function EnteredCall(o: Oracle, ctx: Context, w: State, f: Frame, call: Call): Option<(Context, State)> {
    match EnterCall(ctx, w, f, call)
    case Ok(Paid(f1)) =>
      (match CalleeOf(o, ctx, w, call, ForwardedGas(f1.gas, call.gasRequested) + Stipend(call))
       case Runs(child, w1) => Some((child, w1))
       case _ => None)
    case _ => None
  }

  /** The frame that a create starts. */
  function EnteredCreate(
    o: Oracle, ctx: Context, w: State, f: Frame, value: Word, offset: nat, size: nat, salt: Option<Word>)
    : Option<(Context, State)>
  {
    match EnterCreate(o, ctx, w, f, value, offset, size, salt)
    case Ok(Deploys(f1, w1, address, initCode)) => Endow(ctx, w1, value, address, initCode, CreateGas(f1.gas))
    case _ => None
  }

  function CallChild(o: Oracle, ctx: Context, w: State, f: Frame, op: Byte): Option<(Context, State)>
    requires op in {0xF1, 0xF4, 0xFA}
  {
    match PrepareCall(ctx, f, op)
    case Raise(_) => None
    case Ok((call, f1)) => EnteredCall(o, ctx, w, f1, call)
  }

  function CreateChild(o: Oracle, ctx: Context, w: State, f: Frame, op: Byte): Option<(Context, State)>
    requires op in {0xF0, 0xF5}
  {
    match Pop(f, if op == 0xF0 then 3 else 4)
    case Raise(_) => None
    case Ok((args, f1)) =>
      EnteredCreate(o, ctx, w, f1, args[0], args[1], args[2], if op == 0xF0 then None else Some(args[3]))
  }

  /** The frame that the opcode at `f.pc` starts. */
  function Child(o: Oracle, ctx: Context, w: State, f: Frame): Option<(Context, State)>
    requires f.pc < |ctx.code|
  {
    var op := ctx.code[f.pc];
    match Charge(f.(pc := f.pc + 1), BaseOpcodeGas(op))
    case Raise(_) => None
    case Ok(f1) =>
      if op in {0xF1, 0xF4, 0xFA} then CallChild(o, ctx, w, f1, op)
      else if op in {0xF0, 0xF5} then CreateChild(o, ctx, w, f1, op)
      else None
  }

  /** What a callee's frame gets: no more than was asked for and all but one 64th, and the stipend, in all less than the
      caller had. */
  lemma CalleeGas(o: Oracle, ctx: Context, w: State, f: Frame, call: Call)
    ensures match EnterCall(ctx, w, f, call)
      case Ok(Paid(f1)) =>
        var forwarded := ForwardedGas(f1.gas, call.gasRequested);
        (match CalleeOf(o, ctx, w, call, forwarded + Stipend(call))
         case Runs(child, _) =>
           && child.gas == forwarded + Stipend(call) < f.gas
           && forwarded <= call.gasRequested && 64 * forwarded <= 63 * f1.gas + 63
           && (forwarded < call.gasRequested ==> forwarded == f1.gas - f1.gas / 64)
           && child.depth == ctx.depth + 1 < MAX_CALL_DEPTH
         case _ => true)
      case _ => true
  {
    hide ChargeMemory, Transfer, At;
  }

  /** What an init code's frame gets: all but one 64th of what the create leaves. */
  lemma InitCodeGas(
    o: Oracle, ctx: Context, w: State, f: Frame, value: Word, offset: nat, size: nat, salt: Option<Word>)
    ensures match EnterCreate(o, ctx, w, f, value, offset, size, salt)
      case Ok(Deploys(f1, w1, address, initCode)) =>
        (match Endow(ctx, w1, value, address, initCode, CreateGas(f1.gas))
         case None => true
         case Some((child, _)) =>
           && child.gas == f1.gas - f1.gas / 64 && 64 * child.gas <= 63 * f1.gas + 63
           && child.gas + GAS_CREATE <= f.gas && child.code == initCode
           && child.depth == ctx.depth + 1 < MAX_CALL_DEPTH && !ctx.isStatic)
      case _ => true
  {
    hide ChargeMemory, Transfer, At, Read, SetNonce, CreateAddress, Create2Address, CanDeployTo, IncrementNonce, WordsForSize;
  }

  /** Whatever frame an opcode starts, it gets strictly less gas than the parent had before the opcode, one level deeper,
      and in static mode if the parent is. */
  lemma ChildGasBound(o: Oracle, ctx: Context, w: State, f: Frame)
    requires f.pc < |ctx.code|
    ensures match Child(o, ctx, w, f)
      case None => true
      case Some((child, _)) =>
        child.gas < f.gas && child.depth == ctx.depth + 1 < MAX_CALL_DEPTH && (ctx.isStatic ==> child.isStatic)
  {
    hide CallChild, CreateChild;
    var op := ctx.code[f.pc];
    var charged := Charge(f.(pc := f.pc + 1), BaseOpcodeGas(op));
    if charged.Ok? {
      if op in {0xF1, 0xF4, 0xFA} {
        CallChildGas(o, ctx, w, charged.value, op);
      } else if op in {0xF0, 0xF5} {
        CreateChildGas(o, ctx, w, charged.value, op);
      }
    }
  }

  lemma CallChildGas(o: Oracle, ctx: Context, w: State, f: Frame, op: Byte)
    requires op in {0xF1, 0xF4, 0xFA}
    ensures match CallChild(o, ctx, w, f, op)
      case None => true
      case Some((child, _)) =>
        child.gas < f.gas && child.depth == ctx.depth + 1 < MAX_CALL_DEPTH && (ctx.isStatic ==> child.isStatic)
  {
    hide EnterCall, CalleeOf, PrepareCall;
    if PrepareCall(ctx, f, op).Ok? {
      var (call, f1) := PrepareCall(ctx, f, op).value;
      CalleeGas(o, ctx, w, f1, call);
      CalleeMode(o, ctx, w, f1, call);
      PreparedMode(ctx, f, op);
    }
  }

  lemma CreateChildGas(o: Oracle, ctx: Context, w: State, f: Frame, op: Byte)
    requires op in {0xF0, 0xF5}
    ensures match CreateChild(o, ctx, w, f, op)
      case None => true
      case Some((child, _)) =>
        child.gas < f.gas && child.depth == ctx.depth + 1 < MAX_CALL_DEPTH && (ctx.isStatic ==> child.isStatic)
  {
    hide EnterCreate, Endow, CreateGas;
    if Pop(f, if op == 0xF0 then 3 else 4).Ok? {
      var (args, f1) := Pop(f, if op == 0xF0 then 3 else 4).value;
      InitCodeGas(o, ctx, w, f1, args[0], args[1], args[2], if op == 0xF0 then None else Some(args[3]));
    }
  }

  lemma CalleeMode(o: Oracle, ctx: Context, w: State, f: Frame, call: Call)
    ensures forall gas: nat :: CalleeOf(o, ctx, w, call, gas).Runs? ==>
      CalleeOf(o, ctx, w, call, gas).context.isStatic == call.isStatic
  {
    hide Transfer, At;
  }

  lemma PreparedMode(ctx: Context, f: Frame, op: Byte)
    requires op in {0xF1, 0xF4, 0xFA}
    ensures PrepareCall(ctx, f, op).Ok? && ctx.isStatic ==> PrepareCall(ctx, f, op).value.0.isStatic
  {
    hide ChargeMemory, Read;
  }

  /** What the parent takes over from the frame it started, if any. */
  ghost predicate TakesOver(o: Oracle, f: Frame, g: Frame, started: Option<(Context, State)>) {
    match started
    case None => g.logs == f.logs
    case Some((child, w1)) =>
      var result := RunFrame(o, child, w1).0;
      && g.lastReturn == result.output
      && g.logs == f.logs + (if result.success then result.logs else [])
      && g.refund == f.refund + (if result.success then result.gasRefund else 0)
  }

  lemma CallRunsChild(o: Oracle, ctx: Context, w: State, f: Frame, op: Byte)
    requires op in {0xF1, 0xF4, 0xFA}
    ensures var r := OpCall(o, ctx, w, f, op); r.Ok? ==> TakesOver(o, f, r.value.0, CallChild(o, ctx, w, f, op))
  {
    hide RunFrame, CallCommon, EnteredCall, CallOf, Expand, ExpansionCost, Read;
    if OpCall(o, ctx, w, f, op).Ok? {
      var (call, f1) := PrepareCall(ctx, f, op).value;
      CallCommonRunsChild(o, ctx, w, f1, call);
      var (result, f2, w1) := CallCommon(o, ctx, w, f1, call).value;
      assert f2.logs + [] == f2.logs;
    }
  }

  ghost predicate CommonTakesOver(
    o: Oracle, f: Frame, r: (ExecutionResult, Frame, State), started: Option<(Context, State)>)
  {
    && r.1.logs == f.logs
    && match started
       case None => r.0.logs == []
       case Some((child, w1)) =>
         var run := RunFrame(o, child, w1).0;
         && r.0.success == run.success && r.0.logs == run.logs && r.1.lastReturn == run.output
         && r.1.refund == f.refund + (if run.success then run.gasRefund else 0)
  }

  lemma CallCommonRunsChild(o: Oracle, ctx: Context, w: State, f: Frame, call: Call)
    ensures var r := CallCommon(o, ctx, w, f, call);
      r.Ok? ==> CommonTakesOver(o, f, r.value, EnteredCall(o, ctx, w, f, call))
  {
    hide RunFrame, CalleeOf, EnterCall, Write, Clip;
    EnterFrame(ctx, w, f, call);
    AnswersNoLogs(o, ctx, w, call);
    if EnterCall(ctx, w, f, call).Ok? && EnterCall(ctx, w, f, call).value.Paid? {
      var f1 := EnterCall(ctx, w, f, call).value.frame;
      var callee := RunCallee(o, ctx, w, call, ForwardedGas(f1.gas, call.gasRequested) + Stipend(call));
      assert ForwardCall(o, ctx, w, f1, call).1.logs == f.logs;
    }
  }

  lemma EnterFrame(ctx: Context, w: State, f: Frame, call: Call)
    ensures match EnterCall(ctx, w, f, call)
      case Raise(_) => true
      case Ok(entry) =>
        && entry.frame.logs == f.logs && entry.frame.refund == f.refund
        && (entry.Declined? ==> entry.result.logs == [])
  {
    hide Expand, ExpansionCost, At;
  }

  lemma AnswersNoLogs(o: Oracle, ctx: Context, w: State, call: Call)
    ensures forall gas: nat :: CalleeOf(o, ctx, w, call, gas).Answers? ==> CalleeOf(o, ctx, w, call, gas).result.logs == []
  {
    hide Transfer, At;
  }

  lemma CreateRunsChild(o: Oracle, ctx: Context, w: State, f: Frame, op: Byte)
    requires op in {0xF0, 0xF5}
    ensures var r := OpCreate(o, ctx, w, f, op); r.Ok? ==> TakesOver(o, f, r.value.0, CreateChild(o, ctx, w, f, op))
  {
    hide RunFrame, CreateCommon, EnteredCreate;
    if OpCreate(o, ctx, w, f, op).Ok? {
      var (args, f1) := Pop(f, if op == 0xF0 then 3 else 4).value;
      CreateCommonRunsChild(o, ctx, w, f1, args[0], args[1], args[2], if op == 0xF0 then None else Some(args[3]));
    }
  }

  lemma CreateCommonRunsChild(
    o: Oracle, ctx: Context, w: State, f: Frame, value: Word, offset: nat, size: nat, salt: Option<Word>)
    ensures var r := CreateCommon(o, ctx, w, f, value, offset, size, salt);
      r.Ok? ==> CommonTakesOver(o, f, r.value, EnteredCreate(o, ctx, w, f, value, offset, size, salt))
  {
    hide RunFrame, Endow, EnterCreate, SetCode;
    EnterCreateFrame(o, ctx, w, f, value, offset, size, salt);
    var entry := EnterCreate(o, ctx, w, f, value, offset, size, salt);
    if entry.Ok? && entry.value.Deploys? {
      var Deploys(f1, w1, address, initCode) := entry.value;
      var init := RunInitCode(o, ctx, w1, value, address, initCode, CreateGas(f1.gas));
      assert Deploy(o, ctx, w1, f1, value, address, initCode).1.logs == f.logs;
    }
  }

  lemma EnterCreateFrame(
    o: Oracle, ctx: Context, w: State, f: Frame, value: Word, offset: nat, size: nat, salt: Option<Word>)
    ensures match EnterCreate(o, ctx, w, f, value, offset, size, salt)
      case Raise(_) => true
      case Ok(entry) => entry.frame.logs == f.logs && entry.frame.refund == f.refund
  {
    hide Expand, ExpansionCost, At, Read, CreateAddress, Create2Address, CanDeployTo, IncrementNonce, WordsForSize;
  }

  /** That frame is the one the opcode runs: its output, logs and refund are what the parent takes over, and an opcode
      that starts none takes over no log. */
  lemma StepRunsChild(o: Oracle, ctx: Context, w: State, f: Frame)
    requires f.pc < |ctx.code| && ctx.code[f.pc] in {0xF0, 0xF1, 0xF4, 0xF5, 0xFA}
    ensures match Step(o, ctx, w, f)
      case Ok((Next(g), _)) => TakesOver(o, f, g, Child(o, ctx, w, f))
      case _ => true
  {
    hide OpCall, OpCreate, CallChild, CreateChild, RunFrame;
    var op := ctx.code[f.pc];
    var charged := Charge(f.(pc := f.pc + 1), BaseOpcodeGas(op));
    assert LocalHandler(o, ctx, w, f, op).None?;
    if charged.Ok? {
      if op in {0xF1, 0xF4, 0xFA} {
        CallRunsChild(o, ctx, w, charged.value, op);
      } else {
        CreateRunsChild(o, ctx, w, charged.value, op);
      }
    }
  }
}
