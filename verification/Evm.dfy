/** The interpreter as a function: what running a frame returns and how it changes the state, for every program. */
module Evm {
  import opened Bytes
  import opened Gas
  import opened FrameMemory
  import opened SlotStorage
  import opened World
  import Rlp

  const MAX_CALL_DEPTH: nat := 1024
  const MAX_STACK_DEPTH: nat := 1024

  /** What the interpreter calls but does not define: Keccak-256 and the outputs of the four precompiles. */
  datatype Oracle = Oracle(keccak: seq<Byte> -> Digest, precompile: (nat, seq<Byte>) -> seq<Byte>)

  datatype Log = Log(address: Address, topics: seq<Word>, data: seq<Byte>)

  datatype Context = Context(
    address: Address, caller: Address, origin: Address, value: Word, calldata: seq<Byte>, code: seq<Byte>,
    gas: nat, isStatic: bool, depth: nat, gasPrice: nat, chainId: nat)

  /** The mutable part of a call frame. The top of the stack is the last element. */
  datatype Frame = Frame(
    stack: seq<Word>, memory: seq<Byte>, pc: nat, lastReturn: seq<Byte>, logs: seq<Log>, gas: nat, refund: int)

  datatype Option<+T> = None | Some(value: T) {
    predicate IsFailure() { None? }
    function PropagateFailure<U>(): Option<U>
      requires None?
    {
      None
    }
    function Extract(): T
      requires Some?
    {
      value
    }
  }

  datatype ExecutionResult = ExecutionResult(
    success: bool, gasRemaining: nat, gasRefund: int, output: seq<Byte>, logs: seq<Log>,
    error: Option<EvmError>, reverted: bool, created: Option<Address>)

  function Succeeded(gas: nat, refund: int, output: seq<Byte>, logs: seq<Log>): ExecutionResult {
    ExecutionResult(true, gas, refund, output, logs, None, false, None)
  }

  /** A failure that returns no gas, no output and no logs. */
  function Failed(error: Option<EvmError>): ExecutionResult {
    ExecutionResult(false, 0, 0, [], [], error, false, None)
  }

  /** How an opcode leaves its frame: running on, or finished by RETURN/STOP, or finished by REVERT. */
  datatype Flow = Next(frame: Frame) | Return(frame: Frame, data: seq<Byte>) | Revert(frame: Frame, data: seq<Byte>)

  function InitialFrame(ctx: Context): Frame {
    Frame([], [], 0, [], [], ctx.gas, 0)
  }

  // ---------------------------------------------------------------------------------------------
  // Stack, gas and memory of a frame
  // ---------------------------------------------------------------------------------------------

  function Push(f: Frame, v: int): Result<Frame> {
    if |f.stack| >= MAX_STACK_DEPTH then Raise(StackOverflow) else Ok(f.(stack := f.stack + [Wrap(v)]))
  }

  /** The top `n` stack items, topmost first, and the frame without them. */
  function Pop(f: Frame, n: nat): (r: Result<(seq<Word>, Frame)>)
    ensures r.Ok? ==> |r.value.0| == n <= |f.stack| && r.value.1 == f.(stack := f.stack[..|f.stack| - n])
  {
    var size := |f.stack|;
    if size < n then Raise(StackUnderflow)
    else Ok((seq(n, i requires 0 <= i < n => f.stack[size - 1 - i]), f.(stack := f.stack[..size - n])))
  }

  function Charge(f: Frame, amount: nat): Result<Frame> {
    if f.gas < amount then Raise(OutOfGas) else Ok(f.(gas := f.gas - amount))
  }

  function ChargeMemory(f: Frame, offset: nat, size: nat): (r: Result<Frame>)
    ensures r.Ok? ==>
      r.value.gas <= f.gas && r.value == f.(gas := r.value.gas, memory := Expand(f.memory, offset, size))
  {
    var f1 :- Charge(f, ExpansionCost(f.memory, offset, size));
    Ok(f1.(memory := Expand(f1.memory, offset, size)))
  }

  // ---------------------------------------------------------------------------------------------
  // Arithmetic
  // ---------------------------------------------------------------------------------------------

  function Pow2(n: nat): (p: nat)
    ensures p > 0
  {
    if n == 0 then 1 else 2 * Pow2(n - 1)
  }

  datatype BitOp = And | Or | Xor

  function BitResult(op: BitOp, x: nat, y: nat): (b: nat)
    requires x < 2 && y < 2
    ensures b < 2
  {
    match op
    case And => if x == 1 && y == 1 then 1 else 0
    case Or => if x == 0 && y == 0 then 0 else 1
    case Xor => if x == y then 0 else 1
  }

  /** Bit by bit combination of two naturals. */
  function Bitwise(op: BitOp, a: nat, b: nat): nat
    decreases a + b
  {
    if a == 0 && b == 0 then 0
    else 2 * Bitwise(op, a / 2, b / 2) + BitResult(op, a % 2, b % 2)
  }

  /** The opcodes that combine the second item `next` with the top item `top`, before wrapping. */
  function BinaryOperation(op: Byte, next: Word, top: Word): Option<int> {
    match op
    case 0x01 => Some(next + top)
    case 0x02 => Some(next * top)
    case 0x03 => Some(next - top)
    case 0x04 => Some(if top == 0 then 0 else next / top)
    case 0x06 => Some(if top == 0 then 0 else next % top)
    case 0x10 => Some(if next < top then 1 else 0)
    case 0x11 => Some(if next > top then 1 else 0)
    case 0x14 => Some(if next == top then 1 else 0)
    case 0x16 => Some(Bitwise(And, next, top))
    case 0x17 => Some(Bitwise(Or, next, top))
    case 0x18 => Some(Bitwise(Xor, next, top))
    case _ => None
  }

  function ToSigned(v: Word): int {
    if v >= MODULUS / 2 then v - MODULUS else v
  }

  /** BYTE, SHL, SHR and SAR: the top item selects the byte or the shift distance of the next one. */
  function ShiftOperation(op: Byte, top: Word, next: Word): Option<int> {
    match op
    case 0x1A => Some(if top >= 32 then 0 else next / Pow2((31 - top) * 8) % 256)
    case 0x1B => Some(if top >= 256 then 0 else next * Pow2(top))
    case 0x1C => Some(if top >= 256 then 0 else next / Pow2(top))
    case 0x1D => Some(
      if top >= 256 then (if next >= MODULUS / 2 then MODULUS - 1 else 0) else ToSigned(next) / Pow2(top))
    case _ => None
  }

  /** The opcodes that push one value read from the frame or its context. */
  function EnvironmentValue(op: Byte, ctx: Context, f: Frame): Option<int> {
    match op
    case 0x30 => Some(ctx.address)
    case 0x32 => Some(ctx.origin)
    case 0x33 => Some(ctx.caller)
    case 0x34 => Some(ctx.value)
    case 0x36 => Some(|ctx.calldata|)
    case 0x38 => Some(|ctx.code|)
    case 0x3A => Some(ctx.gasPrice)
    case 0x3D => Some(|f.lastReturn|)
    case 0x46 => Some(ctx.chainId)
    case 0x58 => Some(f.pc - 1)
    case 0x59 => Some(|f.memory|)
    case 0x5A => Some(f.gas)
    case _ => None
  }

  // ---------------------------------------------------------------------------------------------
  // Code
  // ---------------------------------------------------------------------------------------------

  /** How far the opcode at `pc` reaches: one byte, plus the immediate bytes of a PUSH1..PUSH32. */
  function InstructionSize(op: Byte): (n: nat)
    ensures n > 0
  {
    if 0x60 <= op <= 0x7F then 1 + (op - 0x5F) else 1
  }

  /** Positions of JUMPDEST opcodes met when scanning from `index`, skipping PUSH data. */
  function JumpdestsFrom(code: seq<Byte>, index: nat): set<nat>
    decreases |code| - index
  {
    if index >= |code| then {}
    else (if code[index] == 0x5B then {index} else {}) + JumpdestsFrom(code, index + InstructionSize(code[index]))
  }

  function Jumpdests(code: seq<Byte>): set<nat> {
    JumpdestsFrom(code, 0)
  }

  /** A slice that may start or end beyond the buffer: only the bytes that exist. */
  function Clip(data: seq<Byte>, offset: nat, size: nat): seq<Byte> {
    var lo := if offset < |data| then offset else |data|;
    var hi := if offset + size < |data| then offset + size else |data|;
    data[lo..hi]
  }

  /** Reading beyond the buffer yields zero bytes. */
  function BufferRead(data: seq<Byte>, offset: nat, size: nat): (r: seq<Byte>)
    ensures |r| == size
  {
    var chunk := Clip(data, offset, size);
    chunk + Zeros(size - |chunk|)
  }

  // ---------------------------------------------------------------------------------------------
  // Opcodes that do not call and do not write the state
  // ---------------------------------------------------------------------------------------------

  /** PUSH0..PUSH32: immediate bytes missing at the end of the code are not filled in. */
  function OpPush(ctx: Context, f: Frame, op: Byte): Result<Frame> {
    var size := InstructionSize(op) - 1;
    Push(f.(pc := f.pc + size), FromBytes(Clip(ctx.code, f.pc, size)))
  }

  function OpDup(f: Frame, n: nat): Result<Frame>
    requires n > 0
  {
    if n > |f.stack| then Raise(StackUnderflow) else Push(f, f.stack[|f.stack| - n])
  }

  function OpSwap(f: Frame, n: nat): Result<Frame>
    requires n > 0
  {
    var top := |f.stack| - 1;
    if |f.stack| <= n then Raise(StackUnderflow)
    else Ok(f.(stack := f.stack[top := f.stack[top - n]][top - n := f.stack[top]]))
  }

  function OpBinary(f: Frame, op: Byte): Result<Frame>
    requires BinaryOperation(op, 0, 0).Some?
  {
    var (args, f1) :- Pop(f, 2);
    Push(f1, BinaryOperation(op, args[1], args[0]).value)
  }

  function OpShift(f: Frame, op: Byte): Result<Frame>
    requires ShiftOperation(op, 0, 0).Some?
  {
    var (args, f1) :- Pop(f, 2);
    Push(f1, ShiftOperation(op, args[0], args[1]).value)
  }

  function OpIsZero(f: Frame): Result<Frame> {
    var (args, f1) :- Pop(f, 1);
    Push(f1, if args[0] == 0 then 1 else 0)
  }

  function OpNot(f: Frame): Result<Frame> {
    var (args, f1) :- Pop(f, 1);
    Push(f1, MODULUS - 1 - args[0])
  }

  function OpKeccak(o: Oracle, f: Frame): Result<Frame> {
    var (args, f1) :- Pop(f, 2);
    var f2 :- ChargeMemory(f1, args[0], args[1]);
    var f3 :- Charge(f2, WordsForSize(args[1]) * GAS_KECCAK256_WORD);
    Push(f3, FromBytes(o.keccak(Read(f3.memory, args[0], args[1]))))
  }

  function OpBalance(w: State, f: Frame): Result<Frame> {
    var (args, f1) :- Pop(f, 1);
    Push(f1, At(w, ToAddress(args[0])).balance)
  }

  function OpSload(ctx: Context, w: State, f: Frame): Result<Frame> {
    var (args, f1) :- Pop(f, 1);
    Push(f1, GetStorage(w, ctx.address, args[0]))
  }

  function OpCalldataload(ctx: Context, f: Frame): Result<Frame> {
    var (args, f1) :- Pop(f, 1);
    Push(f1, FromBytes(BufferRead(ctx.calldata, args[0], 32)))
  }

  /** CALLDATACOPY and CODECOPY. */
  function OpCopy(f: Frame, source: seq<Byte>): Result<Frame> {
    var (args, f1) :- Pop(f, 3);
    var f2 :- ChargeMemory(f1, args[0], args[2]);
    var f3 :- Charge(f2, CopyCost(args[2]));
    Ok(f3.(memory := Write(f3.memory, args[0], BufferRead(source, args[1], args[2]))))
  }

  /** Unlike the other copies, reading past the end of the return data is an error. */
  function OpReturndatacopy(f: Frame): Result<Frame> {
    var (args, f1) :- Pop(f, 3);
    var start: nat, size: nat := args[1], args[2];
    if start + size > |f1.lastReturn| then Raise(ReturnDataBounds)
    else
      var f2 :- ChargeMemory(f1, args[0], args[2]);
      var f3 :- Charge(f2, CopyCost(args[2]));
      Ok(f3.(memory := Write(f3.memory, args[0], f3.lastReturn[start..start + size])))
  }

  function OpPop(f: Frame): Result<Frame> {
    var (_, f1) :- Pop(f, 1);
    Ok(f1)
  }

  function OpMload(f: Frame): Result<Frame> {
    var (args, f1) :- Pop(f, 1);
    var f2 :- ChargeMemory(f1, args[0], 32);
    Push(f2, FromBytes(Read(f2.memory, args[0], 32)))
  }

  function OpMstore(f: Frame): Result<Frame> {
    var (args, f1) :- Pop(f, 2);
    var f2 :- ChargeMemory(f1, args[0], 32);
    Ok(f2.(memory := Write(f2.memory, args[0], ToBytes(args[1], 32))))
  }

  function OpMstore8(f: Frame): Result<Frame> {
    var (args, f1) :- Pop(f, 2);
    var f2 :- ChargeMemory(f1, args[0], 1);
    Ok(f2.(memory := Write(f2.memory, args[0], [args[1] % 256])))
  }

  function JumpTo(ctx: Context, f: Frame, destination: nat): Result<Frame> {
    if destination in Jumpdests(ctx.code) then Ok(f.(pc := destination)) else Raise(InvalidJumpDestination)
  }

  function OpJump(ctx: Context, f: Frame): Result<Frame> {
    var (args, f1) :- Pop(f, 1);
    JumpTo(ctx, f1, args[0])
  }

  function OpJumpi(ctx: Context, f: Frame): Result<Frame> {
    var (args, f1) :- Pop(f, 2);
    if args[1] != 0 then JumpTo(ctx, f1, args[0]) else Ok(f1)
  }

  /** The memory range that RETURN and REVERT hand back. */
  function OpHalt(f: Frame): Result<(Frame, seq<Byte>)> {
    var (args, f1) :- Pop(f, 2);
    var f2 :- ChargeMemory(f1, args[0], args[1]);
    Ok((f2, Read(f2.memory, args[0], args[1])))
  }

  function OpLog(ctx: Context, f: Frame, topicCount: nat): Result<Frame> {
    if ctx.isStatic then Raise(WriteProtection)
    else
      var (args, f1) :- Pop(f, 2);
      var (topics, f2) :- Pop(f1, topicCount);
      var f3 :- ChargeMemory(f2, args[0], args[1]);
      var f4 :- Charge(f3, GAS_LOG + topicCount * GAS_LOG_TOPIC + args[1] * GAS_LOG_DATA);
      Ok(f4.(logs := f4.logs + [Log(ctx.address, topics, Read(f4.memory, args[0], args[1]))]))
  }

  /** Opcodes that only work on the stack and the program counter. */
  function StackHandler(ctx: Context, w: State, f: Frame, op: Byte): Option<Result<Frame>> {
    if op == 0x5F || 0x60 <= op <= 0x7F then Some(OpPush(ctx, f, op))
    else if 0x80 <= op <= 0x8F then Some(OpDup(f, op - 0x7F))
    else if 0x90 <= op <= 0x9F then Some(OpSwap(f, op - 0x8F))
    else if BinaryOperation(op, 0, 0).Some? then Some(OpBinary(f, op))
    else if ShiftOperation(op, 0, 0).Some? then Some(OpShift(f, op))
    else if EnvironmentValue(op, ctx, f).Some? then Some(Push(f, EnvironmentValue(op, ctx, f).value))
    else match op
      case 0x15 => Some(OpIsZero(f))
      case 0x19 => Some(OpNot(f))
      case 0x31 => Some(OpBalance(w, f))
      case 0x35 => Some(OpCalldataload(ctx, f))
      case 0x50 => Some(OpPop(f))
      case 0x54 => Some(OpSload(ctx, w, f))
      case 0x56 => Some(OpJump(ctx, f))
      case 0x57 => Some(OpJumpi(ctx, f))
      case 0x5B => Some(Ok(f))
      case _ => None
  }

  /** Opcodes that also access the memory. */
  function MemoryHandler(o: Oracle, ctx: Context, f: Frame, op: Byte): Option<Result<Frame>> {
    match op
    case 0x20 => Some(OpKeccak(o, f))
    case 0x37 => Some(OpCopy(f, ctx.calldata))
    case 0x39 => Some(OpCopy(f, ctx.code))
    case 0x3E => Some(OpReturndatacopy(f))
    case 0x51 => Some(OpMload(f))
    case 0x52 => Some(OpMstore(f))
    case 0x53 => Some(OpMstore8(f))
    case _ => None
  }

  /** Opcodes with one result frame and no effect outside it, after their base charge; `None` for all others. */
  function LocalHandler(o: Oracle, ctx: Context, w: State, f: Frame, op: Byte): Option<Result<Frame>> {
    var stack := StackHandler(ctx, w, f, op);
    if stack.Some? then stack else MemoryHandler(o, ctx, f, op)
  }

  // ---------------------------------------------------------------------------------------------
  // Storage writes
  // ---------------------------------------------------------------------------------------------

  function OpSstore(ctx: Context, w: State, f: Frame): Result<(Frame, State)> {
    if ctx.isStatic then Raise(WriteProtection)
    else
      var (args, f1) :- Pop(f, 2);
      var (cost, refund) := SstoreCost(SlotAt(At(w, ctx.address).slots, args[0]), args[1]);
      var f2 :- Charge(f1, cost);
      Ok((f2.(refund := f2.refund + refund), SetStorage(w, ctx.address, args[0], args[1])))
  }

  // ---------------------------------------------------------------------------------------------
  // Calls and creates
  // ---------------------------------------------------------------------------------------------

  predicate IsPrecompile(a: Address) {
    1 <= a <= 4
  }

  function PrecompileGas(a: Address, input: seq<Byte>): nat {
    match a
    case 1 => 3_000
    case 2 => 60 + WordsForSize(|input|) * 12
    case 3 => 600 + WordsForSize(|input|) * 120
    case _ => 15 + WordsForSize(|input|) * 3
  }

  function CreateAddress(o: Oracle, sender: Address, nonce: Word): Address {
    var fields := Rlp.List([Rlp.Str(ToBytes(sender, 20)), Rlp.Int(nonce)]);
    CreateAddressFits(sender, nonce);
    ToAddress(FromBytes(o.keccak(Rlp.Encode(fields))))
  }

  lemma CreateAddressFits(sender: Address, nonce: Word)
    ensures Rlp.Fits(Rlp.List([Rlp.Str(ToBytes(sender, 20)), Rlp.Int(nonce)]))
  {
    var a, n := Rlp.Str(ToBytes(sender, 20)), Rlp.Int(nonce);
    WordFits(nonce);
    assert [a, n][1..] == [n] && [n][1..] == [];
    assert Rlp.PayloadSize([n]) == Rlp.Size(n) + Rlp.PayloadSize([]);
    assert Rlp.PayloadSize([a, n]) == Rlp.Size(a) + Rlp.PayloadSize([n]);
    assert Rlp.AllFit([n]);
  }

  function Create2Address(o: Oracle, sender: Address, salt: Word, initCode: seq<Byte>): Address {
    ToAddress(FromBytes(o.keccak([0xFF] + ToBytes(sender, 20) + ToBytes(salt, 32) + o.keccak(initCode))))
  }

  /** Arguments of a message call, as the three call opcodes prepare them. */
  datatype Call = Call(
    gasRequested: nat, target: Address, calldata: seq<Byte>, outOffset: nat, outSize: nat, value: Word,
    address: Address, caller: Address, isStatic: bool)

  function CallCost(w: State, call: Call): nat {
    GAS_CALL + if call.value == 0 then 0 else GAS_CALL_VALUE + if call.target in w then 0 else GAS_NEW_ACCOUNT
  }

  /** At most 63/64 of what is left, and no more than was asked for. */
  function ForwardedGas(remaining: nat, requested: nat): (g: nat)
    ensures g <= remaining
  {
    var available := remaining - remaining / 64;
    if requested < available then requested else available
  }

  /** Gas that a call with value gives its callee on top of what is forwarded. */
  function Stipend(call: Call): nat {
    if call.value == 0 then 0 else GAS_CALL_STIPEND
  }

  function ChildContext(ctx: Context, call: Call, code: seq<Byte>, gas: nat): Context {
    Context(call.address, call.caller, ctx.origin, call.value, call.calldata, code, gas, call.isStatic, ctx.depth + 1,
            ctx.gasPrice, ctx.chainId)
  }

  /** Opcodes left to run in this frame if no jump is taken; orders steps that spend no gas. */
  function CodeLeft(ctx: Context, f: Frame): nat {
    if f.pc <= |ctx.code| then |ctx.code| - f.pc else 0
  }

  /** What becomes of a call whose gas has been forwarded: no transfer, an immediate answer, or a frame to run. */
  datatype Callee = Refused | Answers(result: ExecutionResult, state: State) | Runs(context: Context, state: State)

  function CalleeOf(o: Oracle, ctx: Context, w: State, call: Call, childGas: nat): Callee {
    var (transferred, w1) := if call.value == 0 then (true, w) else Transfer(w, ctx.address, call.target, call.value);
    if !transferred then Refused
    else if IsPrecompile(call.target) then
      var cost := PrecompileGas(call.target, call.calldata);
      if childGas < cost then Refused
      else Answers(Succeeded(childGas - cost, 0, o.precompile(call.target, call.calldata), []), w1)
    else
      var code := At(w1, call.target).code;
      if code == [] then Answers(Succeeded(childGas, 0, [], []), w1)
      else Runs(ChildContext(ctx, call, code, childGas), w1)
  }

  /** Runs the callee of a call whose gas has been forwarded; on failure the state is what it was before the call. */
  function RunCallee(o: Oracle, ctx: Context, w: State, call: Call, childGas: nat): (r: (Option<ExecutionResult>, State))
    ensures r.0.None? ==> r.1 == w
    ensures r.0.Some? && !r.0.value.success ==> r.1 == w
    decreases childGas + 1, 0
  {
    match CalleeOf(o, ctx, w, call, childGas)
    case Refused => (None, w)
    case Answers(result, w1) => (Some(result), w1)
    case Runs(child, w1) =>
      var (result, w2) := RunFrame(o, child, w1);
      (Some(result), if result.success then w2 else w)
  }

  /** The caller's frame once its callee has run: unused gas, refund, return data and their copy in memory. */
  function TakeBack(f: Frame, call: Call, forwarded: nat, result: ExecutionResult): Frame {
    var returned := if result.gasRemaining < forwarded then result.gasRemaining else forwarded;
    f.(refund := f.refund + (if result.success then result.gasRefund else 0),
       gas := f.gas + returned,
       lastReturn := result.output,
       memory := Write(f.memory, call.outOffset, Clip(result.output, 0, call.outSize)))
  }

  /** The part of a call after its base price: forward gas, run the callee, take back gas and return data. */
  function ForwardCall(o: Oracle, ctx: Context, w: State, f: Frame, call: Call): (r: (ExecutionResult, Frame, State))
    ensures r.1.gas <= f.gas && r.1.pc == f.pc
    ensures !r.0.success ==> r.2 == w
    decreases f.gas + Stipend(call) + 1, 1, 0
  {
    var forwarded := ForwardedGas(f.gas, call.gasRequested);
    match RunCallee(o, ctx, w, call, forwarded + Stipend(call))
    case (None, _) => (Failed(None), f.(gas := f.gas - forwarded), w)
    case (Some(result), w1) => (result, TakeBack(f.(gas := f.gas - forwarded), call, forwarded, result), w1)
  }

  /** A call is declined, or paid for and about to forward its gas. */
  datatype Entry = Declined(result: ExecutionResult, frame: Frame) | Paid(frame: Frame)

  /** Checks and charges that come before any gas is forwarded. */
  function EnterCall(ctx: Context, w: State, f: Frame, call: Call): (r: Result<Entry>)
    ensures r.Ok? ==> r.value.frame.gas <= f.gas && r.value.frame.pc == f.pc
    ensures r.Ok? && r.value.Paid? ==> r.value.frame.gas + CallCost(w, call) <= f.gas
  {
    if ctx.depth + 1 >= MAX_CALL_DEPTH then Ok(Declined(Failed(Some(CallDepthExceeded)), f))
    else if call.isStatic && call.value != 0 then Raise(WriteProtection)
    else if call.value != 0 && ctx.isStatic then Raise(WriteProtection)
    else
      var f1 :- ChargeMemory(f, call.outOffset, call.outSize);
      var f2 :- Charge(f1, CallCost(w, call));
      if call.value != 0 && At(w, ctx.address).balance < call.value then Ok(Declined(Failed(None), f2))
      else Ok(Paid(f2))
  }

  function CallCommon(o: Oracle, ctx: Context, w: State, f: Frame, call: Call)
    : (r: Result<(ExecutionResult, Frame, State)>)
    ensures r.Ok? ==> r.value.1.gas <= f.gas && r.value.1.pc == f.pc
    ensures r.Ok? && !r.value.0.success ==> r.value.2 == w
    decreases f.gas, CodeLeft(ctx, f), 0
  {
    var entry :- EnterCall(ctx, w, f, call);
    match entry
    case Declined(result, f1) => Ok((result, f1, w))
    case Paid(f1) => Ok(ForwardCall(o, ctx, w, f1, call))
  }

  /** The call described by the popped arguments of CALL, DELEGATECALL and STATICCALL. */
  function CallOf(ctx: Context, op: Byte, args: seq<Word>, calldata: seq<Byte>): Call
    requires op in {0xF1, 0xF4, 0xFA} && |args| == (if op == 0xF1 then 7 else 6)
  {
    var target := ToAddress(args[1]);
    match op
    case 0xF1 =>
      Call(args[0], target, calldata, args[5], args[6], args[2], target, ctx.address, ctx.isStatic)
    case 0xF4 =>
      Call(args[0], target, calldata, args[4], args[5], ctx.value, ctx.address, ctx.caller, ctx.isStatic)
    case _ =>
      Call(args[0], target, calldata, args[4], args[5], 0, target, ctx.address, true)
  }

  /** Pops the operands of a call opcode and reads its calldata. */
  function PrepareCall(ctx: Context, f: Frame, op: Byte): (r: Result<(Call, Frame)>)
    requires op in {0xF1, 0xF4, 0xFA}
    ensures r.Ok? ==> r.value.1.gas <= f.gas && r.value.1.pc == f.pc
  {
    var (args, f1) :- Pop(f, if op == 0xF1 then 7 else 6);
    var (inOffset, inSize) := if op == 0xF1 then (args[3], args[4]) else (args[2], args[3]);
    var f2 :- ChargeMemory(f1, inOffset, inSize);
    Ok((CallOf(ctx, op, args, Read(f2.memory, inOffset, inSize)), f2))
  }

  /** The success flag is pushed and, on success, the callee's logs are kept. */
  function FinishCall(result: ExecutionResult, f: Frame, pushed: int): Result<Frame> {
    var f1 :- Push(f, pushed);
    Ok(if result.success then f1.(logs := f1.logs + result.logs) else f1)
  }

  function OpCall(o: Oracle, ctx: Context, w: State, f: Frame, op: Byte): (r: Result<(Frame, State)>)
    requires op in {0xF1, 0xF4, 0xFA}
    ensures r.Ok? ==> r.value.0.gas <= f.gas && r.value.0.pc == f.pc
    decreases f.gas, CodeLeft(ctx, f), 1
  {
    var (call, f2) :- PrepareCall(ctx, f, op);
    var (result, f3, w1) :- CallCommon(o, ctx, w, f2, call);
    var f4 :- FinishCall(result, f3, if result.success then 1 else 0);
    Ok((f4, w1))
  }

  function CreateContext(ctx: Context, address: Address, value: Word, initCode: seq<Byte>, gas: nat): Context {
    Context(address, ctx.address, ctx.origin, value, [], initCode, gas, false, ctx.depth + 1, ctx.gasPrice, ctx.chainId)
  }

  /** The frame that runs the init code of a new account, once the account has been endowed. */
  function Endow(ctx: Context, w: State, value: Word, address: Address, initCode: seq<Byte>, childGas: nat)
    : Option<(Context, State)>
  {
    var (transferred, w1) := Transfer(SetNonce(w, address, 1), ctx.address, address, value);
    if !transferred then None else Some((CreateContext(ctx, address, value, initCode, childGas), w1))
  }

  /** All but one 64th of what is left goes to the init code. */
  function CreateGas(remaining: nat): nat {
    remaining - remaining / 64
  }

  /** Endows the new account and runs its init code; on failure the state is `w`, the nonce bump included. */
  function RunInitCode(
    o: Oracle, ctx: Context, w: State, value: Word, address: Address, initCode: seq<Byte>, childGas: nat)
    : (r: (Option<ExecutionResult>, State))
    ensures r.0.Some? ==> r.0.value.gasRemaining <= childGas
    ensures r.0.None? || !r.0.value.success ==> r.1 == w
    decreases childGas + 1, 0, 0
  {
    match Endow(ctx, w, value, address, initCode, childGas)
    case None => (None, w)
    case Some((child, w1)) =>
      var (result, w2) := RunFrame(o, child, w1);
      (Some(result), if result.success then SetCode(w2, address, result.output) else w)
  }

  /** The part of a create after the address is known to be free. */
  function Deploy(o: Oracle, ctx: Context, w: State, f: Frame, value: Word, address: Address, initCode: seq<Byte>)
    : (r: (ExecutionResult, Frame, State))
    ensures r.1.gas <= f.gas && r.1.pc == f.pc
    ensures !r.0.success ==> r.2 == w
    decreases f.gas + 1, 1, 0
  {
    var childGas := CreateGas(f.gas);
    match RunInitCode(o, ctx, w, value, address, initCode, childGas)
    case (None, _) => (Failed(None), f, w)
    case (Some(result), w1) =>
      var f1 := f.(refund := f.refund + (if result.success then result.gasRefund else 0),
                   gas := f.gas - childGas + result.gasRemaining,
                   lastReturn := result.output);
      (result.(gasRefund := 0, created := if result.success then Some(address) else None), f1, w1)
  }

  /** A create is declined, or about to deploy to a free address. */
  datatype CreateEntry =
    | CreateDeclined(frame: Frame, state: State)
    | Deploys(frame: Frame, state: State, address: Address, initCode: seq<Byte>)

  /** Checks and charges up to the address, and the nonce that is spent on it. */
  function EnterCreate(
    o: Oracle, ctx: Context, w: State, f: Frame, value: Word, offset: nat, size: nat, salt: Option<Word>)
    : (r: Result<CreateEntry>)
    ensures r.Ok? ==> r.value.frame.gas <= f.gas && r.value.frame.pc == f.pc
    ensures r.Ok? ==> r.value.state == w || r.value.state == IncrementNonce(w, ctx.address)
    ensures r.Ok? && r.value.Deploys? ==> r.value.frame.gas + GAS_CREATE <= f.gas
  {
    if ctx.isStatic then Raise(WriteProtection)
    else if ctx.depth + 1 >= MAX_CALL_DEPTH then Ok(CreateDeclined(f, w))
    else
      var f1 :- ChargeMemory(f, offset, size);
      var initCode := Read(f1.memory, offset, size);
      var f2 :- Charge(f1, GAS_CREATE + if salt.None? then 0 else WordsForSize(|initCode|) * GAS_CREATE2_WORD);
      if At(w, ctx.address).balance < value then Ok(CreateDeclined(f2, w))
      else
        var address :=
          if salt.None? then CreateAddress(o, ctx.address, At(w, ctx.address).nonce)
          else Create2Address(o, ctx.address, salt.value, initCode);
        var w1 := IncrementNonce(w, ctx.address);
        if !CanDeployTo(w1, address) then Ok(CreateDeclined(f2, w1))
        else Ok(Deploys(f2, w1, address, initCode))
  }

  function CreateCommon(
    o: Oracle, ctx: Context, w: State, f: Frame, value: Word, offset: nat, size: nat, salt: Option<Word>)
    : (r: Result<(ExecutionResult, Frame, State)>)
    ensures r.Ok? ==> r.value.1.gas <= f.gas && r.value.1.pc == f.pc
    ensures r.Ok? && !r.value.0.success ==> r.value.2 == w || r.value.2 == IncrementNonce(w, ctx.address)
    decreases f.gas, CodeLeft(ctx, f), 0
  {
    var entry :- EnterCreate(o, ctx, w, f, value, offset, size, salt);
    match entry
    case CreateDeclined(f1, w1) => Ok((Failed(None), f1, w1))
    case Deploys(f1, w1, address, initCode) => Ok(Deploy(o, ctx, w1, f1, value, address, initCode))
  }

  function OpCreate(o: Oracle, ctx: Context, w: State, f: Frame, op: Byte): (r: Result<(Frame, State)>)
    requires op in {0xF0, 0xF5}
    ensures r.Ok? ==> r.value.0.gas <= f.gas && r.value.0.pc == f.pc
    decreases f.gas, CodeLeft(ctx, f), 1
  {
    var (args, f1) :- Pop(f, if op == 0xF0 then 3 else 4);
    var salt := if op == 0xF0 then None else Some(args[3]);
    var (result, f2, w1) :- CreateCommon(o, ctx, w, f1, args[0], args[1], args[2], salt);
    var pushed := if result.success && result.created.Some? then result.created.value else 0;
    var f3 :- FinishCall(result, f2, pushed);
    Ok((f3, w1))
  }

  // ---------------------------------------------------------------------------------------------
  // One opcode, one frame
  // ---------------------------------------------------------------------------------------------

  /** Executes the opcode at `f.pc`. */
  function Step(o: Oracle, ctx: Context, w: State, f: Frame): (r: Result<(Flow, State)>)
    requires f.pc < |ctx.code|
    ensures r.Ok? ==> r.value.0.frame.gas <= f.gas
    ensures r.Ok? && r.value.0.Next? ==> r.value.0.frame.gas < f.gas || r.value.0.frame.pc == f.pc + 1
    decreases f.gas, CodeLeft(ctx, f), 0
  {
    var op := ctx.code[f.pc];
    var f0 := f.(pc := f.pc + 1);
    if 0xA0 <= op <= 0xA4 then
      var f1 :- OpLog(ctx, f0, op - 0xA0);
      Ok((Next(f1), w))
    else
      var f1 :- Charge(f0, BaseOpcodeGas(op));
      var local := LocalHandler(o, ctx, w, f1, op);
      if local.Some? then
        LocalKeeps(o, ctx, w, f1, op);
        var f2 :- local.value;
        Ok((Next(f2), w))
      else GlobalStep(o, ctx, w, f1, op)
  }

  /** The opcodes that finish the frame, write the state or start another frame, after their base charge. */
  function GlobalStep(o: Oracle, ctx: Context, w: State, f: Frame, op: Byte): (r: Result<(Flow, State)>)
    ensures r.Ok? ==> r.value.0.frame.gas <= f.gas
    ensures r.Ok? && r.value.0.Next? ==> r.value.0.frame.pc == f.pc
    decreases f.gas, CodeLeft(ctx, f), 2
  {
    match op
    case 0x55 =>
      var (f1, w1) :- OpSstore(ctx, w, f);
      Ok((Next(f1), w1))
    case 0xF1 | 0xF4 | 0xFA =>
      var (f1, w1) :- OpCall(o, ctx, w, f, op);
      Ok((Next(f1), w1))
    case 0xF0 | 0xF5 =>
      var (f1, w1) :- OpCreate(o, ctx, w, f, op);
      Ok((Next(f1), w1))
    case 0x00 => Ok((Return(f, []), w))
    case 0xF3 =>
      var (f1, data) :- OpHalt(f);
      Ok((Return(f1, data), w))
    case 0xFD =>
      var (f1, data) :- OpHalt(f);
      Ok((Revert(f1, data), w))
    case _ => Raise(InvalidOpcode)
  }

  lemma StackPriced(ctx: Context, w: State, f: Frame, op: Byte)
    ensures StackHandler(ctx, w, f, op).Some? ==> BaseOpcodeGas(op) > 0
  {
    hide OpPush, OpDup, OpSwap, OpBinary, OpShift, OpIsZero, OpNot, OpBalance, OpCalldataload, OpPop, OpSload, OpJump, OpJumpi, Push;
  }

  /** Only the stack and the position differ. */
  predicate OnlyStack(f: Frame, r: Result<Frame>) {
    r.Ok? ==> r.value == f.(stack := r.value.stack, pc := r.value.pc)
  }

  lemma ArithmeticKeeps(f: Frame, op: Byte)
    ensures BinaryOperation(op, 0, 0).Some? ==> OnlyStack(f, OpBinary(f, op))
    ensures ShiftOperation(op, 0, 0).Some? ==> OnlyStack(f, OpShift(f, op))
  {
    hide BinaryOperation, ShiftOperation;
  }

  lemma AccessKeeps(ctx: Context, w: State, f: Frame)
    ensures OnlyStack(f, OpBalance(w, f)) && OnlyStack(f, OpCalldataload(ctx, f)) && OnlyStack(f, OpSload(ctx, w, f))
    ensures OnlyStack(f, OpJump(ctx, f)) && OnlyStack(f, OpJumpi(ctx, f))
  {
    hide FromBytes, BufferRead, Jumpdests, GetStorage;
  }

  /** The stack group spends nothing beyond the base charge and touches neither memory, logs nor refunds. */
  lemma StackKeeps(ctx: Context, w: State, f: Frame, op: Byte)
    ensures var r := StackHandler(ctx, w, f, op); r.Some? ==> BaseOpcodeGas(op) > 0 && OnlyStack(f, r.value)
  {
    hide BaseOpcodeGas, BinaryOperation, ShiftOperation, OpBinary, OpShift, OpBalance, OpCalldataload, OpSload, OpJump, OpJumpi;
    hide FromBytes;
    StackPriced(ctx, w, f, op);
    ArithmeticKeeps(f, op);
    AccessKeeps(ctx, w, f);
  }

  /** The memory group spends gas on top of the base charge and touches neither logs nor refunds. */
  lemma MemoryKeeps(o: Oracle, ctx: Context, f: Frame, op: Byte)
    ensures var r := MemoryHandler(o, ctx, f, op);
      r.Some? ==>
        && BaseOpcodeGas(op) > 0
        && (r.value.Ok? ==> var g := r.value.value;
             g.gas <= f.gas && g == f.(stack := g.stack, memory := g.memory, gas := g.gas))
  {
    hide Expand, ExpansionCost, Read, Write, FromBytes, ToBytes, BufferRead, WordsForSize, CopyCost;
  }

  /** An opcode of the local group is never free, and changes only the stack, memory, position and gas. */
  lemma LocalKeeps(o: Oracle, ctx: Context, w: State, f: Frame, op: Byte)
    ensures var r := LocalHandler(o, ctx, w, f, op);
      r.Some? ==>
        && BaseOpcodeGas(op) > 0
        && (r.value.Ok? ==> var g := r.value.value;
             g.gas <= f.gas && g.logs == f.logs && g.refund == f.refund && g.lastReturn == f.lastReturn)
  {
    hide StackHandler, MemoryHandler;
    StackKeeps(ctx, w, f, op);
    MemoryKeeps(o, ctx, f, op);
  }

  /** Runs a frame from its current position until it finishes; faults are results, not exceptions. */
  function RunLoop(o: Oracle, ctx: Context, w: State, f: Frame): (r: (ExecutionResult, State))
    ensures r.0.gasRemaining <= f.gas
    decreases f.gas, CodeLeft(ctx, f), 1
  {
    if f.pc >= |ctx.code| then (Succeeded(f.gas, f.refund, [], f.logs), w)
    else
      match Step(o, ctx, w, f)
      case Raise(error) => (Failed(Some(error)), w)
      case Ok((Next(f1), w1)) => RunLoop(o, ctx, w1, f1)
      case Ok((Return(f1, data), w1)) => (Succeeded(f1.gas, f1.refund, data, f1.logs), w1)
      case Ok((Revert(f1, data), w1)) => (Failed(None).(gasRemaining := f1.gas, output := data, reverted := true), w1)
  }

  /** Runs a whole frame. The returned state is meaningful when the result is a success; callers roll back otherwise. */
  function RunFrame(o: Oracle, ctx: Context, w: State): (r: (ExecutionResult, State))
    ensures r.0.gasRemaining <= ctx.gas
    decreases ctx.gas, |ctx.code| + 1, 0
  {
    RunLoop(o, ctx, w, InitialFrame(ctx))
  }

  /** `Interpreter.execute`: a failed frame leaves no trace. */
  function Execute(o: Oracle, ctx: Context, w: State): (r: (ExecutionResult, State)) {
    var (result, w1) := RunFrame(o, ctx, w);
    (result, if result.success then w1 else w)
  }

  /** `Interpreter.call`: a top-level message call. */
  function TopCall(
    o: Oracle, w: State, address: Address, caller: Address, origin: Address, value: Word, calldata: seq<Byte>,
    gas: nat, isStatic: bool, gasPrice: nat, chainId: nat)
    : (ExecutionResult, State)
  {
    if value != 0 && isStatic then (Failed(Some(WriteProtection)), w)
    else
      var (transferred, w1) := if value == 0 then (true, w) else Transfer(w, caller, address, value);
      if !transferred then (Failed(None), w)
      else
        var code := At(w1, address).code;
        if IsPrecompile(address) && code == [] then
          var cost := PrecompileGas(address, calldata);
          if cost > gas then (Failed(Some(OutOfGas)), w)
          else (Succeeded(gas - cost, 0, o.precompile(address, calldata), []), w1)
        else
          var ctx := Context(address, caller, origin, value, calldata, code, gas, isStatic, 0, gasPrice, chainId);
          var (result, w2) := Execute(o, ctx, w1);
          (result, if result.success then w2 else w)
  }
}
