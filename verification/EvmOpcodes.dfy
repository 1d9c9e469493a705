/** What the opcodes do to stack, memory, storage and logs, read off the words they take. */
module EvmOpcodes {
  import opened Arithmetic
  import opened Bytes
  import opened Gas
  import opened FrameMemory
  import opened SlotStorage
  import opened World
  import opened Evm
  import opened EvmCalls
  import A = EvmArithmetic

  /** The opcode at the position of the frame. */
  predicate Runs(ctx: Context, f: Frame, op: Byte) {
    f.pc < |ctx.code| && ctx.code[f.pc] == op && |f.stack| <= MAX_STACK_DEPTH
  }

  /** The price of an access to memory on top of a fixed price. */
  function AccessPrice(f: Frame, price: nat, offset: nat, size: nat): int {
    price + Holding(Extent(|f.memory|, offset, size)) - Holding(|f.memory|)
  }

  /** One opcode goes on: it takes its price, leaves this stack, and changes nothing but memory besides. */
  ghost predicate Advances(f: Frame, g: Frame, price: int, stack: seq<Word>) {
    && g == f.(pc := f.pc + 1, gas := g.gas, stack := stack, memory := g.memory) && g.gas == f.gas - price
  }

  /** Either the price is paid and the opcode goes on without touching the state, or it runs out of gas. */
  ghost predicate PaidStep(r: Result<(Flow, State)>, w: State, f: Frame, price: int, stack: seq<Word>) {
    if f.gas < price then r == Raise(OutOfGas)
    else r.Ok? && r.value.0.Next? && r.value.1 == w && Advances(f, r.value.0.frame, price, stack)
  }

  /** The frame after the step. */
  function After(r: Result<(Flow, State)>): Frame
    requires r.Ok?
  {
    r.value.0.frame
  }

  lemma PopOne(f: Frame, below: seq<Word>, a: Word)
    requires f.stack == below + [a]
    ensures Pop(f, 1) == Ok(([a], f.(stack := below)))
  {
    assert f.stack[..|f.stack| - 1] == below;
    assert Pop(f, 1).value.0 == [a];
  }

  lemma PopTwo(f: Frame, below: seq<Word>, b: Word, a: Word)
    requires f.stack == below + [b, a]
    ensures Pop(f, 2) == Ok(([a, b], f.(stack := below)))
  {
    assert f.stack[..|f.stack| - 2] == below;
    assert Pop(f, 2).value.0 == [a, b];
  }

  lemma PopThree(f: Frame, below: seq<Word>, c: Word, b: Word, a: Word)
    requires f.stack == below + [c, b, a]
    ensures Pop(f, 3) == Ok(([a, b, c], f.(stack := below)))
  {
    assert f.stack[..|f.stack| - 3] == below;
    assert Pop(f, 3).value.0 == [a, b, c];
  }

  lemma Grown(memory: seq<Byte>, offset: nat, size: nat, raw: seq<Byte>)
    requires |raw| == size
    ensures |Write(Expand(memory, offset, size), offset, raw)| == Extent(|memory|, offset, size)
    ensures forall i: nat ::
      Lookup(Write(Expand(memory, offset, size), offset, raw), i)
      == (if offset <= i < offset + size then raw[i - offset] else Lookup(memory, i))
  {
    hide Write, Lookup;
    GrownBytes(memory, offset, size);
    forall i: nat
      ensures Lookup(Write(Expand(memory, offset, size), offset, raw), i)
           == if offset <= i < offset + size then raw[i - offset] else Lookup(memory, i)
    {
      WriteIsUpdate(Expand(memory, offset, size), offset, raw, i);
    }
  }

  /** A word written in thirty-two bytes. */
  function AsWord(b: seq<Byte>): (v: Word)
    requires |b| == 32
    ensures v == FromBytes(b)
  {
    WordBytes(b);
    FromBytes(b)
  }

  function BaseOf(f: Frame, price: nat): Frame {
    f.(pc := f.pc + 1, gas := if f.gas < price then 0 else f.gas - price)
  }

  /** What the dispatcher does with an opcode that stays in its frame. */
  lemma LocalStep(o: Oracle, ctx: Context, w: State, f: Frame, op: Byte, price: nat, r: Result<Frame>)
    requires Runs(ctx, f, op) && !(0xA0 <= op <= 0xA4) && price == BaseOpcodeGas(op)
    requires LocalHandler(o, ctx, w, BaseOf(f, price), op) == Some(r)
    ensures Step(o, ctx, w, f)
         == if f.gas < price then Raise(OutOfGas)
            else if r.Raise? then Raise(r.error) else Ok((Next(r.value), w))
  {
    hide LocalHandler, BaseOpcodeGas;
  }

  /** These bytes are in memory from the offset on, and all others are as before. */
  ghost predicate Holds(f: Frame, g: Frame, offset: nat, raw: seq<Byte>) {
    && |g.memory| == Extent(|f.memory|, offset, |raw|)
    && forall i: nat :: Lookup(g.memory, i) == if offset <= i < offset + |raw| then raw[i - offset] else Lookup(f.memory, i)
  }

  // ---------------------------------------------------------------------------------------------
  // Memory
  // ---------------------------------------------------------------------------------------------

  lemma HandledByMload(o: Oracle, ctx: Context, w: State, f: Frame)
    ensures LocalHandler(o, ctx, w, f, 0x51) == Some(OpMload(f)) && BaseOpcodeGas(0x51) == 3
  {
  }

  lemma HandledByMstore(o: Oracle, ctx: Context, w: State, f: Frame)
    ensures LocalHandler(o, ctx, w, f, 0x52) == Some(OpMstore(f)) && BaseOpcodeGas(0x52) == 3
  {
  }

  lemma HandledByMstore8(o: Oracle, ctx: Context, w: State, f: Frame)
    ensures LocalHandler(o, ctx, w, f, 0x53) == Some(OpMstore8(f)) && BaseOpcodeGas(0x53) == 3
  {
  }

  lemma HandledByKeccak(o: Oracle, ctx: Context, w: State, f: Frame)
    ensures LocalHandler(o, ctx, w, f, 0x20) == Some(OpKeccak(o, f)) && BaseOpcodeGas(0x20) == 30
  {
  }

  lemma HandledByReturndatacopy(o: Oracle, ctx: Context, w: State, f: Frame)
    ensures LocalHandler(o, ctx, w, f, 0x3E) == Some(OpReturndatacopy(f)) && BaseOpcodeGas(0x3E) == 3
  {
  }

  lemma HandledByCalldataload(o: Oracle, ctx: Context, w: State, f: Frame)
    ensures LocalHandler(o, ctx, w, f, 0x35) == Some(OpCalldataload(ctx, f)) && BaseOpcodeGas(0x35) == 3
  {
  }

  lemma HandledByCopy(o: Oracle, ctx: Context, w: State, f: Frame, op: Byte)
    requires op in {0x37, 0x39}
    ensures LocalHandler(o, ctx, w, f, op) == Some(OpCopy(f, if op == 0x37 then ctx.calldata else ctx.code))
    ensures BaseOpcodeGas(op) == 3
  {
  }

  lemma MloadMeaning(o: Oracle, ctx: Context, w: State, f: Frame, below: seq<Word>, offset: Word)
    requires Runs(ctx, f, 0x51) && f.stack == below + [offset]
    ensures var r := Step(o, ctx, w, f);
      && PaidStep(r, w, f, AccessPrice(f, 3, offset, 32), below + [AsWord(BytesAt(f.memory, offset, 32))])
      && (r.Ok? ==> SameBytes(f, After(r)) && |After(r).memory| == Extent(|f.memory|, offset, 32))
  {
    hide Step, LocalHandler, Pop, ChargeMemory, Holding, Extent, FromBytes, BytesAt, Expand, Lookup;
    var f1 := BaseOf(f, 3);
    PopOne(f1, below, offset);
    ChargedForMemory(f1.(stack := below), offset, 32);
    GrownBytes(f.memory, offset, 32);
    ReadIsBytes(f.memory, offset, 32);
    WordBytes(BytesAt(f.memory, offset, 32));
    HandledByMload(o, ctx, w, f1);
    LocalStep(o, ctx, w, f, 0x51, 3, OpMload(f1));
  }

  /** Thirty-two bytes are a word. */
  lemma WordBytes(b: seq<Byte>)
    requires |b| == 32
    ensures FromBytes(b) < MODULUS && Wrap(FromBytes(b)) == FromBytes(b)
  {
    ToFromBytes(b);
    Pow256Word();
  }

  lemma Pow256Word()
    ensures Pow256(32) == MODULUS
  {
    assert Pow256(4) == 0x1_0000_0000;
    assert Pow256(8) == 0x1_0000_0000_0000_0000;
    assert Pow256(12) == 0x1_0000_0000_0000_0000_0000_0000;
    assert Pow256(16) == 0x1_0000_0000_0000_0000_0000_0000_0000_0000;
    assert Pow256(20) == 0x1_0000_0000_0000_0000_0000_0000_0000_0000_0000_0000;
    assert Pow256(24) == 0x1_0000_0000_0000_0000_0000_0000_0000_0000_0000_0000_0000_0000;
    assert Pow256(28) == 0x1_0000_0000_0000_0000_0000_0000_0000_0000_0000_0000_0000_0000_0000_0000;
  }

  lemma MstoreMeaning(o: Oracle, ctx: Context, w: State, f: Frame, below: seq<Word>, value: Word, offset: Word)
    requires Runs(ctx, f, 0x52) && f.stack == below + [value, offset]
    ensures var r := Step(o, ctx, w, f);
      PaidStep(r, w, f, AccessPrice(f, 3, offset, 32), below)
      && (r.Ok? ==> Holds(f, After(r), offset, ToBytes(value, 32)))
  {
    hide Step, LocalHandler, Pop, ChargeMemory, Holding, ToBytes, Expand, Lookup, Write;
    var f1 := BaseOf(f, 3);
    PopTwo(f1, below, value, offset);
    ChargedForMemory(f1.(stack := below), offset, 32);
    Grown(f.memory, offset, 32, ToBytes(value, 32));
    HandledByMstore(o, ctx, w, f1);
    LocalStep(o, ctx, w, f, 0x52, 3, OpMstore(f1));
  }

  lemma Mstore8Meaning(o: Oracle, ctx: Context, w: State, f: Frame, below: seq<Word>, value: Word, offset: Word)
    requires Runs(ctx, f, 0x53) && f.stack == below + [value, offset]
    ensures var r := Step(o, ctx, w, f);
      PaidStep(r, w, f, AccessPrice(f, 3, offset, 1), below)
      && (r.Ok? ==> Holds(f, After(r), offset, [value % 256]))
  {
    hide Step, LocalHandler, Pop, ChargeMemory, Holding, Expand, Lookup, Write;
    var f1 := BaseOf(f, 3);
    PopTwo(f1, below, value, offset);
    ChargedForMemory(f1.(stack := below), offset, 1);
    Grown(f.memory, offset, 1, [value % 256]);
    HandledByMstore8(o, ctx, w, f1);
    LocalStep(o, ctx, w, f, 0x53, 3, OpMstore8(f1));
  }

  /** A word stored is loaded back, whatever else the frame holds. */
  lemma StoreThenLoad(
    o: Oracle, ctx: Context, w: State, f: Frame, below: seq<Word>, value: Word, offset: Word, g: Frame)
    requires Runs(ctx, f, 0x52) && f.stack == below + [value, offset]
    requires Step(o, ctx, w, f) == Ok((Next(g), w)) && g.pc < |ctx.code| && ctx.code[g.pc] == 0x51
    ensures var again := g.(stack := below + [offset]); var r := Step(o, ctx, w, again);
      r.Ok? ==> r.value.0.Next? && After(r).stack == below + [value]
  {
    hide Step, Holding, Extent;
    MstoreMeaning(o, ctx, w, f, below, value, offset);
    var again := g.(stack := below + [offset]);
    assert |again.stack| < |f.stack|;
    MloadMeaning(o, ctx, w, again, below, offset);
    assert BytesAt(g.memory, offset, 32) == ToBytes(value, 32);
    Pow256Word();
    FromToBytes(value, 32);
  }

  lemma KeccakMeaning(o: Oracle, ctx: Context, w: State, f: Frame, below: seq<Word>, size: Word, offset: Word)
    requires Runs(ctx, f, 0x20) && f.stack == below + [size, offset]
    ensures var r := Step(o, ctx, w, f);
      && PaidStep(r, w, f, AccessPrice(f, 30 + (size + 31) / 32 * 6, offset, size),
                  below + [AsWord(o.keccak(BytesAt(f.memory, offset, size)))])
      && (r.Ok? ==> SameBytes(f, After(r)) && |After(r).memory| == Extent(|f.memory|, offset, size))
  {
    hide Step, LocalHandler, Pop, ChargeMemory, Holding, Extent, FromBytes, BytesAt, Expand, Lookup;
    var f1 := BaseOf(f, 30);
    PopTwo(f1, below, size, offset);
    ChargedForMemory(f1.(stack := below), offset, size);
    GrownBytes(f.memory, offset, size);
    ReadIsBytes(f.memory, offset, size);
    WordBytes(o.keccak(BytesAt(f.memory, offset, size)));
    HandledByKeccak(o, ctx, w, f1);
    LocalStep(o, ctx, w, f, 0x20, 30, OpKeccak(o, f1));
  }

  /** The bytes of a buffer from an offset on, zeros beyond its end. */
  function Padded(data: seq<Byte>, offset: nat, size: nat): seq<Byte> {
    BytesAt(data, offset, size)
  }

  lemma BufferIsPadded(data: seq<Byte>, offset: nat, size: nat)
    ensures BufferRead(data, offset, size) == Padded(data, offset, size)
  {
  }

  /** CALLDATACOPY and CODECOPY fill up with zeros. */
  lemma CopyMeans(
    o: Oracle, ctx: Context, w: State, f: Frame, op: Byte, below: seq<Word>, size: Word, start: Word, offset: Word)
    requires op in {0x37, 0x39} && Runs(ctx, f, op) && f.stack == below + [size, start, offset]
    ensures var r, source := Step(o, ctx, w, f), if op == 0x37 then ctx.calldata else ctx.code;
      && PaidStep(r, w, f, AccessPrice(f, 3 + (size + 31) / 32 * 3, offset, size), below)
      && (r.Ok? ==> Holds(f, After(r), offset, Padded(source, start, size)))
  {
    hide Step, LocalHandler, Pop, ChargeMemory, Holding, BytesAt, Expand, Lookup, Write, BufferRead;
    var f1 := BaseOf(f, 3);
    var source := if op == 0x37 then ctx.calldata else ctx.code;
    PopThree(f1, below, size, start, offset);
    ChargedForMemory(f1.(stack := below), offset, size);
    BufferIsPadded(source, start, size);
    Grown(f.memory, offset, size, BufferRead(source, start, size));
    HandledByCopy(o, ctx, w, f1, op);
    LocalStep(o, ctx, w, f, op, 3, OpCopy(f1, source));
  }

  /** RETURNDATACOPY copies what is there, and raises if that is not enough. */
  lemma ReturndatacopyMeans(
    o: Oracle, ctx: Context, w: State, f: Frame, below: seq<Word>, size: Word, start: Word, offset: Word)
    requires Runs(ctx, f, 0x3E) && f.stack == below + [size, start, offset] && f.gas >= 3
    ensures var r, last := Step(o, ctx, w, f), start as nat + size;
      if last > |f.lastReturn| then r == Raise(ReturnDataBounds)
      else
        && PaidStep(r, w, f, AccessPrice(f, 3 + (size + 31) / 32 * 3, offset, size), below)
        && (r.Ok? ==> Holds(f, After(r), offset, f.lastReturn[start..last]))
  {
    hide Step, LocalHandler, Pop, ChargeMemory, Holding, Expand, Lookup, Write;
    var f1 := BaseOf(f, 3);
    PopThree(f1, below, size, start, offset);
    ChargedForMemory(f1.(stack := below), offset, size);
    if start as nat + size <= |f.lastReturn| {
      Grown(f.memory, offset, size, f.lastReturn[start..start as nat + size]);
    }
    HandledByReturndatacopy(o, ctx, w, f1);
    LocalStep(o, ctx, w, f, 0x3E, 3, OpReturndatacopy(f1));
  }

  lemma CalldataloadMeaning(o: Oracle, ctx: Context, w: State, f: Frame, below: seq<Word>, start: Word)
    requires Runs(ctx, f, 0x35) && f.stack == below + [start]
    ensures PaidStep(Step(o, ctx, w, f), w, f, 3, below + [AsWord(Padded(ctx.calldata, start, 32))])
  {
    hide Step, LocalHandler, Pop, FromBytes, BytesAt, BufferRead;
    var f1 := BaseOf(f, 3);
    PopOne(f1, below, start);
    BufferIsPadded(ctx.calldata, start, 32);
    WordBytes(BytesAt(ctx.calldata, start, 32));
    HandledByCalldataload(o, ctx, w, f1);
    LocalStep(o, ctx, w, f, 0x35, 3, OpCalldataload(ctx, f1));
  }

  // ---------------------------------------------------------------------------------------------
  // Stack and position
  // ---------------------------------------------------------------------------------------------

  /** PUSHn: the next n bytes of the code, as many as there are, and the position moves over all n. */
  lemma PushMeaning(o: Oracle, ctx: Context, w: State, f: Frame, op: Byte)
    requires 0x60 <= op <= 0x7F && Runs(ctx, f, op)
    ensures var r, n := Step(o, ctx, w, f), op - 0x5F;
      var data := if f.pc + 1 + n <= |ctx.code| then ctx.code[f.pc + 1..f.pc + 1 + n] else ctx.code[f.pc + 1..];
      if f.gas < 3 then r == Raise(OutOfGas)
      else if |f.stack| == 1024 then r == Raise(StackOverflow)
      else r == Ok((Next(f.(pc := f.pc + 1 + n, gas := f.gas - 3, stack := f.stack + [Wrap(FromBytes(data))])), w))
  {
    hide Step, LocalHandler, FromBytes;
    var f1 := BaseOf(f, 3);
    var n := op - 0x5F;
    HandledByPush(o, ctx, w, f1, op);
    LocalStep(o, ctx, w, f, op, 3, OpPush(ctx, f1, op));
    assert Clip(ctx.code, f1.pc, n)
        == if f.pc + 1 + n <= |ctx.code| then ctx.code[f.pc + 1..f.pc + 1 + n] else ctx.code[f.pc + 1..];
  }

  lemma HandledByPush(o: Oracle, ctx: Context, w: State, f: Frame, op: Byte)
    requires 0x60 <= op <= 0x7F
    ensures LocalHandler(o, ctx, w, f, op) == Some(OpPush(ctx, f, op)) && BaseOpcodeGas(op) == 3
  {
    hide OpPush;
  }

  /** DUPn repeats the n-th item from the top. */
  lemma DupMeaning(o: Oracle, ctx: Context, w: State, f: Frame, op: Byte)
    requires 0x80 <= op <= 0x8F && Runs(ctx, f, op) && f.gas >= 3
    ensures var r, n := Step(o, ctx, w, f), op - 0x7F;
      if |f.stack| < n then r == Raise(StackUnderflow)
      else if |f.stack| == 1024 then r == Raise(StackOverflow)
      else r == Ok((Next(f.(pc := f.pc + 1, gas := f.gas - 3, stack := f.stack + [f.stack[|f.stack| - n]])), w))
  {
    hide Step, LocalHandler;
    var f1 := BaseOf(f, 3);
    HandledByDup(o, ctx, w, f1, op);
    LocalStep(o, ctx, w, f, op, 3, OpDup(f1, op - 0x7F));
  }

  lemma HandledByDup(o: Oracle, ctx: Context, w: State, f: Frame, op: Byte)
    requires 0x80 <= op <= 0x8F
    ensures LocalHandler(o, ctx, w, f, op) == Some(OpDup(f, op - 0x7F)) && BaseOpcodeGas(op) == 3
  {
    hide OpDup;
  }

  /** SWAPn exchanges the top with the item n below it. */
  lemma SwapMeaning(o: Oracle, ctx: Context, w: State, f: Frame, op: Byte)
    requires 0x90 <= op <= 0x9F && Runs(ctx, f, op) && f.gas >= 3
    ensures var r, n, top := Step(o, ctx, w, f), op - 0x8F, |f.stack| - 1;
      if |f.stack| < n + 1 then r == Raise(StackUnderflow)
      else
        && r.Ok? && r.value.0.Next? && r.value.1 == w
        && var g := After(r);
           && g == f.(pc := f.pc + 1, gas := f.gas - 3, stack := g.stack) && |g.stack| == |f.stack|
           && forall i :: 0 <= i <= top ==>
                g.stack[i] == f.stack[if i == top then top - n else if i == top - n then top else i]
  {
    hide Step, LocalHandler;
    var f1 := BaseOf(f, 3);
    HandledBySwap(o, ctx, w, f1, op);
    LocalStep(o, ctx, w, f, op, 3, OpSwap(f1, op - 0x8F));
  }

  lemma HandledBySwap(o: Oracle, ctx: Context, w: State, f: Frame, op: Byte)
    requires 0x90 <= op <= 0x9F
    ensures LocalHandler(o, ctx, w, f, op) == Some(OpSwap(f, op - 0x8F)) && BaseOpcodeGas(op) == 3
  {
    hide OpSwap;
  }

  /** POP, ISZERO and NOT. */
  lemma UnaryMeaning(o: Oracle, ctx: Context, w: State, f: Frame, below: seq<Word>, a: Word, op: Byte)
    requires op in {0x15, 0x19, 0x50} && Runs(ctx, f, op) && f.stack == below + [a]
    ensures PaidStep(Step(o, ctx, w, f), w, f, if op == 0x50 then 2 else 3,
                     below + if op == 0x50 then [] else [if op == 0x19 then MODULUS - 1 - a else if a == 0 then 1 else 0])
  {
    hide Step, LocalHandler, Pop;
    var price := if op == 0x50 then 2 else 3;
    var f1 := BaseOf(f, price);
    PopOne(f1, below, a);
    HandledByUnary(o, ctx, w, f1, op);
    LocalStep(o, ctx, w, f, op, price, if op == 0x15 then OpIsZero(f1) else if op == 0x19 then OpNot(f1) else OpPop(f1));
    assert below + [] == below;
  }

  lemma HandledByUnary(o: Oracle, ctx: Context, w: State, f: Frame, op: Byte)
    requires op in {0x15, 0x19, 0x50}
    ensures LocalHandler(o, ctx, w, f, op)
         == Some(if op == 0x15 then OpIsZero(f) else if op == 0x19 then OpNot(f) else OpPop(f))
    ensures BaseOpcodeGas(op) == if op == 0x50 then 2 else 3
  {
    hide OpIsZero, OpNot, OpPop;
  }

  // ---------------------------------------------------------------------------------------------
  // Arithmetic
  // ---------------------------------------------------------------------------------------------

  /** The signed number of a word in two's complement. */
  function Signed(v: Word): int {
    if 2 * v < MODULUS then v else v - MODULUS
  }

  /** What the opcodes with two operands answer, for the item on top of the stack and the next one: sums, products and
      differences modulo 2^256; quotients and remainders, 0 for a divisor of 0; comparisons; the bits of AND, OR and XOR;
      the byte at a position counted from the left; and shifts, the arithmetic one rounding down. */
  ghost predicate Answers(op: Byte, next: Word, top: Word, r: Word) {
    && (op == 0x01 ==> r == (next + top) % MODULUS)
    && (op == 0x02 ==> r == (next * top) % MODULUS)
    && (op == 0x03 ==> r == (next - top) % MODULUS)
    && (op == 0x04 ==> r == if top == 0 then 0 else next / top)
    && (op == 0x06 ==> r == if top == 0 then 0 else next % top)
    && (op == 0x10 ==> r == if next < top then 1 else 0)
    && (op == 0x11 ==> r == if next > top then 1 else 0)
    && (op == 0x14 ==> r == if next == top then 1 else 0)
    && (op == 0x16 ==> forall i: nat :: A.Bit(r, i) == A.Bit(next, i) * A.Bit(top, i))
    && (op == 0x17 ==> forall i: nat :: A.Bit(r, i) == A.Bit(next, i) + A.Bit(top, i) - A.Bit(next, i) * A.Bit(top, i))
    && (op == 0x18 ==> forall i: nat :: A.Bit(r, i) == (A.Bit(next, i) + A.Bit(top, i)) % 2)
    && (op == 0x1A ==> r == if top < 32 then ToBytes(next, 32)[top] else 0)
    && (op == 0x1B ==> r == if top < 256 then next * Pow2(top) % MODULUS else 0)
    && (op == 0x1C ==> r == if top < 256 then next / Pow2(top) else 0)
    && (op == 0x1D ==> Signed(r) == if top < 256 then Signed(next) / Pow2(top) else if Signed(next) < 0 then -1 else 0)
  }

  predicate TakesTwo(op: Byte) {
    op in {0x01, 0x02, 0x03, 0x04, 0x06, 0x10, 0x11, 0x14, 0x16, 0x17, 0x18, 0x1A, 0x1B, 0x1C, 0x1D}
  }

  /** The word such an opcode pushes. */
  function Answer(op: Byte, next: Word, top: Word): Word {
    var binary, shift := BinaryOperation(op, next, top), ShiftOperation(op, top, next);
    Wrap(if binary.Some? then binary.value else if shift.Some? then shift.value else 0)
  }

  /** Both operands go, the answer takes their place, and multiplication and division cost two more than the others. */
  lemma ArithmeticMeaning(o: Oracle, ctx: Context, w: State, f: Frame, below: seq<Word>, next: Word, top: Word, op: Byte)
    returns (r: Word)
    requires TakesTwo(op) && Runs(ctx, f, op) && f.stack == below + [next, top]
    ensures Answers(op, next, top, r)
    ensures PaidStep(Step(o, ctx, w, f), w, f, if op in {0x02, 0x04, 0x06} then 5 else 3, below + [r])
  {
    hide Step, LocalHandler, Pop, Answers, BinaryOperation, ShiftOperation, Wrap;
    r := Answer(op, next, top);
    AnswerIsRight(op, next, top);
    var price := if op in {0x02, 0x04, 0x06} then 5 else 3;
    var f1 := BaseOf(f, price);
    PopTwo(f1, below, next, top);
    HandledByArithmetic(o, ctx, w, f1, op, next, top);
    LocalStep(o, ctx, w, f, op, price, if op < 0x1A then OpBinary(f1, op) else OpShift(f1, op));
  }

  lemma HandledByArithmetic(o: Oracle, ctx: Context, w: State, f: Frame, op: Byte, next: Word, top: Word)
    requires TakesTwo(op)
    ensures op < 0x1A ==> BinaryOperation(op, 0, 0).Some? && LocalHandler(o, ctx, w, f, op) == Some(OpBinary(f, op))
    ensures op >= 0x1A ==> ShiftOperation(op, 0, 0).Some? && LocalHandler(o, ctx, w, f, op) == Some(OpShift(f, op))
    ensures BaseOpcodeGas(op) == if op in {0x02, 0x04, 0x06} then 5 else 3
    ensures BinaryOperation(op, next, top).Some? <==> op < 0x1A
    ensures ShiftOperation(op, top, next).Some? <==> op >= 0x1A
  {
    hide OpBinary, OpShift;
  }

  lemma AnswerIsRight(op: Byte, next: Word, top: Word)
    requires TakesTwo(op)
    ensures Answers(op, next, top, Answer(op, next, top))
  {
    hide Answers, Answer;
    if op in {0x16, 0x17, 0x18} {
      BitsAnswer(op, next, top);
    } else if op < 0x1A {
      NumberAnswer(op, next, top);
    } else {
      ShiftAnswer(op, next, top);
    }
  }

  lemma BitsAnswer(op: Byte, next: Word, top: Word)
    requires op in {0x16, 0x17, 0x18}
    ensures Answers(op, next, top, Answer(op, next, top))
  {
    hide A.Bit, Bitwise, Wrap, Pow2;
    var r := A.Pushed(op, next, top);
    forall i: nat
      ensures op == 0x16 ==> A.Bit(r, i) == A.Bit(next, i) * A.Bit(top, i)
      ensures op == 0x17 ==> A.Bit(r, i) == A.Bit(next, i) + A.Bit(top, i) - A.Bit(next, i) * A.Bit(top, i)
      ensures op == 0x18 ==> A.Bit(r, i) == (A.Bit(next, i) + A.Bit(top, i)) % 2
    {
      A.BinaryLaws(next, top, i);
    }
  }

  lemma NumberAnswer(op: Byte, next: Word, top: Word)
    requires op in {0x01, 0x02, 0x03, 0x04, 0x06, 0x10, 0x11, 0x14}
    ensures Answers(op, next, top, Answer(op, next, top))
  {
    hide A.Bit, Answer;
    SumAnswer(next, top);
    QuotientAnswer(next, top);
    OrderAnswer(next, top);
  }

  lemma SumAnswer(next: Word, top: Word)
    ensures Answer(0x01, next, top) == (next + top) % MODULUS
    ensures Answer(0x02, next, top) == (next * top) % MODULUS
    ensures Answer(0x03, next, top) == (next - top) % MODULUS
  {
    hide Wrap;
    WrapIs(next + top);
    WrapIs(next * top);
    WrapIs(next - top);
  }

  lemma QuotientAnswer(next: Word, top: Word)
    ensures Answer(0x04, next, top) == if top == 0 then 0 else next / top
    ensures Answer(0x06, next, top) == if top == 0 then 0 else next % top
  {
    hide Wrap;
    A.WrapWord(0);
    if top > 0 {
      QuotientIsWord(next, top);
    }
  }

  lemma QuotientIsWord(n: nat, d: nat)
    requires n < MODULUS && d > 0
    ensures Wrap(n / d) == n / d && Wrap(n % d) == n % d
  {
    hide Wrap;
    A.DivBound(n, d);
    A.WrapWord(n / d);
    A.WrapWord(n % d);
  }

  lemma OrderAnswer(next: Word, top: Word)
    ensures Answer(0x10, next, top) == if next < top then 1 else 0
    ensures Answer(0x11, next, top) == if next > top then 1 else 0
    ensures Answer(0x14, next, top) == if next == top then 1 else 0
  {
    hide Wrap;
    A.WrapWord(0);
    A.WrapWord(1);
  }

  lemma WrapIs(v: int)
    ensures Wrap(v) == v % MODULUS
  {
  }

  lemma ShiftAnswer(op: Byte, next: Word, top: Word)
    requires op in {0x1A, 0x1B, 0x1C, 0x1D}
    ensures Answers(op, next, top, Answer(op, next, top))
  {
    hide A.Bit, Answer, Pow2, ToBytes;
    ByteAnswer(next, top);
    LogicalAnswer(next, top);
    SignedAnswer(next, top);
  }

  lemma ByteAnswer(next: Word, top: Word)
    ensures Answer(0x1A, next, top) == if top < 32 then ToBytes(next, 32)[top] else 0
  {
    hide Wrap, ToBytes, Pow2;
    A.WrapWord(0);
    A.ShiftMeaning(top, next);
    if top < 32 {
      A.WrapWord(ToBytes(next, 32)[top]);
    }
  }

  lemma LogicalAnswer(next: Word, top: Word)
    ensures Answer(0x1B, next, top) == if top < 256 then next * Pow2(top) % MODULUS else 0
    ensures Answer(0x1C, next, top) == if top < 256 then next / Pow2(top) else 0
  {
    hide Wrap, Pow2;
    A.WrapWord(0);
    if top < 256 {
      WrapIs(next * Pow2(top));
      QuotientIsWord(next, Pow2(top));
    }
  }

  lemma SignedAnswer(next: Word, top: Word)
    ensures Signed(Answer(0x1D, next, top))
            == if top < 256 then Signed(next) / Pow2(top) else if Signed(next) < 0 then -1 else 0
  {
    hide Wrap, Pow2;
    A.WrapWord(0);
    A.WrapWord(MODULUS - 1);
    SignedIs(next);
    SignedIs(Answer(0x1D, next, top));
    if top < 256 {
      SignedQuotient(ToSigned(next), Pow2(top));
    }
  }

  lemma SignedIs(v: Word)
    ensures Signed(v) == ToSigned(v)
  {
  }

  lemma SignedQuotient(s: int, p: nat)
    requires p > 0 && -(MODULUS / 2) <= s < MODULUS / 2
    ensures ToSigned(Wrap(s / p)) == s / p
  {
    hide Wrap, ToSigned;
    A.FloorBound(s, p);
    A.SignedWrap(s / p);
  }

  /** JUMP goes to the word on the stack if that is the offset of an instruction JUMPDEST, and raises otherwise. */
  lemma JumpMeaning(o: Oracle, ctx: Context, w: State, f: Frame, below: seq<Word>, target: Word)
    requires Runs(ctx, f, 0x56) && f.stack == below + [target] && f.gas >= 8
    ensures Step(o, ctx, w, f)
         == if target in Jumpdests(ctx.code) then Ok((Next(f.(pc := target, gas := f.gas - 8, stack := below)), w))
            else Raise(InvalidJumpDestination)
  {
    hide Step, LocalHandler, Pop, Jumpdests;
    var f1 := BaseOf(f, 8);
    PopOne(f1, below, target);
    HandledByJump(o, ctx, w, f1);
    LocalStep(o, ctx, w, f, 0x56, 8, OpJump(ctx, f1));
  }

  /** JUMPI does so if the condition is not zero, and otherwise goes on. */
  lemma JumpiMeaning(o: Oracle, ctx: Context, w: State, f: Frame, below: seq<Word>, condition: Word, target: Word)
    requires Runs(ctx, f, 0x57) && f.stack == below + [condition, target] && f.gas >= 10
    ensures Step(o, ctx, w, f)
         == if condition == 0 then Ok((Next(f.(pc := f.pc + 1, gas := f.gas - 10, stack := below)), w))
            else if target in Jumpdests(ctx.code) then Ok((Next(f.(pc := target, gas := f.gas - 10, stack := below)), w))
            else Raise(InvalidJumpDestination)
  {
    hide Step, LocalHandler, Pop, Jumpdests;
    var f1 := BaseOf(f, 10);
    PopTwo(f1, below, condition, target);
    HandledByJump(o, ctx, w, f1);
    LocalStep(o, ctx, w, f, 0x57, 10, OpJumpi(ctx, f1));
  }

  lemma HandledByJump(o: Oracle, ctx: Context, w: State, f: Frame)
    ensures LocalHandler(o, ctx, w, f, 0x56) == Some(OpJump(ctx, f)) && BaseOpcodeGas(0x56) == 8
    ensures LocalHandler(o, ctx, w, f, 0x57) == Some(OpJumpi(ctx, f)) && BaseOpcodeGas(0x57) == 10
  {
    hide OpJump, OpJumpi;
  }

  /** What the opcodes without operands push; PC and GAS speak of the opcode itself and of the gas left after it. */
  function Reading(ctx: Context, f: Frame, op: Byte): Option<int> {
    match op
    case 0x30 => Some(ctx.address)
    case 0x32 => Some(ctx.origin)
    case 0x33 => Some(ctx.caller)
    case 0x34 => Some(ctx.value)
    case 0x36 => Some(|ctx.calldata|)
    case 0x38 => Some(|ctx.code|)
    case 0x3A => Some(ctx.gasPrice)
    case 0x3D => Some(|f.lastReturn|)
    case 0x46 => Some(ctx.chainId)
    case 0x58 => Some(f.pc)
    case 0x59 => Some(|f.memory|)
    case 0x5A => Some(f.gas - 2)
    case _ => None
  }

  lemma ReadingMeaning(o: Oracle, ctx: Context, w: State, f: Frame, op: Byte)
    requires Runs(ctx, f, op) && Reading(ctx, f, op).Some? && f.gas >= 2 && |f.stack| < 1024
    ensures Step(o, ctx, w, f)
         == Ok((Next(f.(pc := f.pc + 1, gas := f.gas - 2, stack := f.stack + [Wrap(Reading(ctx, f, op).value)])), w))
  {
    hide Step, LocalHandler, Wrap;
    var f1 := BaseOf(f, 2);
    HandledByReading(o, ctx, w, f, op);
    LocalStep(o, ctx, w, f, op, 2, Push(f1, Reading(ctx, f, op).value));
  }

  lemma HandledByReading(o: Oracle, ctx: Context, w: State, f: Frame, op: Byte)
    requires Reading(ctx, f, op).Some? && f.gas >= 2
    ensures LocalHandler(o, ctx, w, BaseOf(f, 2), op) == Some(Push(BaseOf(f, 2), Reading(ctx, f, op).value))
    ensures BaseOpcodeGas(op) == 2
  {
    hide Push;
  }

  // ---------------------------------------------------------------------------------------------
  // Accounts and storage
  // ---------------------------------------------------------------------------------------------

  /** BALANCE and SLOAD read the state as it is now. */
  lemma StateReadMeaning(o: Oracle, ctx: Context, w: State, f: Frame, below: seq<Word>, a: Word, op: Byte)
    requires op in {0x31, 0x54} && Runs(ctx, f, op) && f.stack == below + [a]
    ensures PaidStep(Step(o, ctx, w, f), w, f, 100,
                     below + [if op == 0x31 then At(w, ToAddress(a)).balance
                              else SlotAt(At(w, ctx.address).slots, a).current])
  {
    hide Step, LocalHandler, Pop, At, SlotAt, ToAddress;
    var f1 := BaseOf(f, 100);
    PopOne(f1, below, a);
    HandledByState(o, ctx, w, f1);
    LocalStep(o, ctx, w, f, op, 100, if op == 0x31 then OpBalance(w, f1) else OpSload(ctx, w, f1));
  }

  lemma HandledByState(o: Oracle, ctx: Context, w: State, f: Frame)
    ensures LocalHandler(o, ctx, w, f, 0x31) == Some(OpBalance(w, f)) && BaseOpcodeGas(0x31) == 100
    ensures LocalHandler(o, ctx, w, f, 0x54) == Some(OpSload(ctx, w, f)) && BaseOpcodeGas(0x54) == 100
  {
    hide OpBalance, OpSload;
  }

  /** The price of a storage write and the change of the refund, as EIP-2200 and EIP-3529 have them. */
  function WritePrice(original: Word, current: Word, value: Word): int {
    if value == current || original != current then 100 else if original == 0 then 20_000 else 5_000
  }

  function WriteRefund(original: Word, current: Word, value: Word): int {
    if value == current then 0
    else
      (if original != 0 && value == 0 then 4_800 else 0) - (if original != 0 && current == 0 then 4_800 else 0)
      + if original != value || original == current then 0 else if original == 0 then 19_900 else 4_900
  }

  /** The slot has the new value; its original value, all other slots and all other accounts are as before. */
  ghost predicate SlotWritten(w: State, w': State, a: Address, key: Word, value: Word) {
    && (forall b :: b != a ==> At(w', b) == At(w, b) && (b in w' <==> b in w))
    && At(w', a) == At(w, a).(slots := At(w', a).slots) && a in w'
    && forall k: Word :: SlotAt(At(w', a).slots, k)
         == if k == key then Slot(SlotAt(At(w, a).slots, k).original, value) else SlotAt(At(w, a).slots, k)
  }

  lemma SstoreMeaning(o: Oracle, ctx: Context, w: State, f: Frame, below: seq<Word>, value: Word, key: Word)
    requires Runs(ctx, f, 0x55) && f.stack == below + [value, key]
    ensures var r, slot := Step(o, ctx, w, f), SlotAt(At(w, ctx.address).slots, key);
      var price := WritePrice(slot.original, slot.current, value);
      if ctx.isStatic then r == Raise(WriteProtection)
      else if f.gas < price then r == Raise(OutOfGas)
      else
        && r.Ok? && SlotWritten(w, r.value.1, ctx.address, key, value)
        && r.value.0 == Next(f.(pc := f.pc + 1, gas := f.gas - price, stack := below,
                                refund := f.refund + WriteRefund(slot.original, slot.current, value)))
  {
    hide Pop, LocalHandler, SstoreCost, SetStorage, SlotWritten, WritePrice, WriteRefund, At, SlotAt;
    var f1 := f.(pc := f.pc + 1);
    PopTwo(f1, below, value, key);
    NotLocal(o, ctx, w, f1);
    PricedWrite(SlotAt(At(w, ctx.address).slots, key), value);
    WrittenSlot(w, ctx.address, key, value);
  }

  lemma PricedWrite(slot: Slot, value: Word)
    ensures SstoreCost(slot, value)
         == (WritePrice(slot.original, slot.current, value), WriteRefund(slot.original, slot.current, value))
  {
  }

  lemma WrittenSlot(w: State, a: Address, key: Word, value: Word)
    ensures SlotWritten(w, SetStorage(w, a, key, value), a, key, value)
  {
  }


  lemma NotLocal(o: Oracle, ctx: Context, w: State, f: Frame)
    ensures forall op :: op in {0x00, 0x55, 0xF3, 0xFD} ==> LocalHandler(o, ctx, w, f, op).None? && BaseOpcodeGas(op) == 0
  {
  }

  /** A word stored in a slot is what the next load of the slot pushes. */
  lemma SstoreThenSload(
    o: Oracle, ctx: Context, w: State, f: Frame, below: seq<Word>, value: Word, key: Word, g: Frame, w': State)
    requires Runs(ctx, f, 0x55) && f.stack == below + [value, key]
    requires Step(o, ctx, w, f) == Ok((Next(g), w')) && g.pc < |ctx.code| && ctx.code[g.pc] == 0x54
    ensures var again := g.(stack := below + [key]); var r := Step(o, ctx, w', again);
      r.Ok? ==> r.value.0.Next? && After(r).stack == below + [value]
  {
    hide Step, SlotAt, At;
    SstoreMeaning(o, ctx, w, f, below, value, key);
    var again := g.(stack := below + [key]);
    assert |again.stack| < |f.stack|;
    StateReadMeaning(o, ctx, w', again, below, key, 0x54);
  }

  // ---------------------------------------------------------------------------------------------
  // Logs and the end of a frame
  // ---------------------------------------------------------------------------------------------

  lemma PopMany(f: Frame, below: seq<Word>, top: seq<Word>)
    requires f.stack == below + top
    ensures Pop(f, |top|).Ok? && Pop(f, |top|).value.1 == f.(stack := below)
    ensures forall i :: 0 <= i < |top| ==> Pop(f, |top|).value.0[i] == top[|top| - 1 - i]
  {
    assert f.stack[..|f.stack| - |top|] == below;
  }

  /** LOGn appends one entry: the frame's address, the topics from the top of the stack on, and the bytes in memory. */
  lemma LogMeaning(
    o: Oracle, ctx: Context, w: State, f: Frame, op: Byte, below: seq<Word>, topics: seq<Word>, size: Word, offset: Word)
    requires 0xA0 <= op <= 0xA4 && Runs(ctx, f, op) && |topics| == op - 0xA0
    requires f.stack == below + topics + [size, offset]
    ensures var r, price := Step(o, ctx, w, f), AccessPrice(f, 375 + 375 * |topics| + 8 * size, offset, size);
      if ctx.isStatic then r == Raise(WriteProtection)
      else if f.gas < price then r == Raise(OutOfGas)
      else
        && r.Ok? && r.value.0.Next? && r.value.1 == w
        && var g := After(r);
           && g == f.(pc := f.pc + 1, gas := f.gas - price, stack := below, memory := g.memory, logs := g.logs)
           && |g.logs| == |f.logs| + 1 && g.logs[..|f.logs|] == f.logs
           && SameBytes(f, g) && |g.memory| == Extent(|f.memory|, offset, size)
           && var entry := g.logs[|f.logs|];
              && entry.address == ctx.address && entry.data == BytesAt(f.memory, offset, size)
              && |entry.topics| == |topics| && forall i :: 0 <= i < |topics| ==> entry.topics[i] == topics[|topics| - 1 - i]
  {
    hide Pop, ChargeMemory, Holding, Extent, BytesAt, Expand, Lookup;
    var f1 := f.(pc := f.pc + 1);
    PopTwo(f1, below + topics, size, offset);
    var f2 := f1.(stack := below + topics);
    PopMany(f2, below, topics);
    ChargedForMemory(f2.(stack := below), offset, size);
    GrownBytes(f.memory, offset, size);
    ReadIsBytes(f.memory, offset, size);
  }

  /** STOP ends the frame with nothing, RETURN and REVERT with the bytes in memory. */
  lemma HaltMeaning(o: Oracle, ctx: Context, w: State, f: Frame, op: Byte, below: seq<Word>, size: Word, offset: Word)
    requires op in {0xF3, 0xFD} && Runs(ctx, f, op) && f.stack == below + [size, offset]
    ensures var r, price := Step(o, ctx, w, f), AccessPrice(f, 0, offset, size);
      if f.gas < price then r == Raise(OutOfGas)
      else
        && r.Ok? && r.value.1 == w && r.value.0.frame.gas == f.gas - price
        && r.value.0.frame.logs == f.logs && r.value.0.frame.refund == f.refund
        && r.value.0 == (if op == 0xF3 then Return(r.value.0.frame, BytesAt(f.memory, offset, size))
                         else Revert(r.value.0.frame, BytesAt(f.memory, offset, size)))
  {
    hide Pop, LocalHandler, ChargeMemory, Holding, Extent, BytesAt, Expand, Lookup;
    var f1 := f.(pc := f.pc + 1);
    PopTwo(f1, below, size, offset);
    NotLocal(o, ctx, w, f1);
    ChargedForMemory(f1.(stack := below), offset, size);
    ReadIsBytes(f.memory, offset, size);
  }

  lemma StopMeaning(o: Oracle, ctx: Context, w: State, f: Frame)
    requires Runs(ctx, f, 0x00)
    ensures Step(o, ctx, w, f) == Ok((Return(f.(pc := f.pc + 1), []), w))
  {
    hide LocalHandler;
    NotLocal(o, ctx, w, f.(pc := f.pc + 1));
  }
}
