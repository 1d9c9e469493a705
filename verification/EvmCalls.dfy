/** What message calls and creates do, read off the words on the stack: prices, the frame they start, and what comes back. */
module EvmCalls {
  import opened Arithmetic
  import opened Bytes
  import opened Gas
  import opened FrameMemory
  import opened World
  import opened Evm

  // ---------------------------------------------------------------------------------------------
  // Memory
  // ---------------------------------------------------------------------------------------------

  /** Where the memory ends after an access. */
  function Extent(length: nat, offset: nat, size: nat): nat {
    if size == 0 || offset + size <= length then length else offset + size
  }

  /** The price of holding some bytes: 3 per word, and a 512th of the square. */
  function Holding(length: nat): nat {
    var words := (length + 31) / 32;
    3 * words + words * words / 512
  }

  /** The bytes of the infinite zero-filled memory at an offset. */
  function BytesAt(memory: seq<Byte>, offset: nat, size: nat): seq<Byte> {
    seq<Byte>(size, i requires 0 <= i < size => Lookup(memory, offset + i))
  }

  lemma ReadIsBytes(memory: seq<Byte>, offset: nat, size: nat)
    ensures Read(memory, offset, size) == BytesAt(memory, offset, size)
    ensures Read(Expand(memory, offset, size), offset, size) == BytesAt(memory, offset, size)
  {
    forall i | 0 <= i < size
      ensures Read(memory, offset, size)[i] == Lookup(memory, offset + i)
      ensures Read(Expand(memory, offset, size), offset, size)[i] == Lookup(memory, offset + i)
    {
      ReadIsLookup(memory, offset, size, i);
      ReadIsLookup(Expand(memory, offset, size), offset, size, i);
      ExpandKeepsBytes(memory, offset, size, offset + i);
    }
  }

  lemma HoldingIsCost(length: nat)
    ensures Holding(length) == MemoryCost(WordsForSize(length))
  {
  }

  /** Charging for memory takes exactly the difference of the holding prices. */
  lemma ChargedForMemory(f: Frame, offset: nat, size: nat)
    ensures var end := Extent(|f.memory|, offset, size);
      && |Expand(f.memory, offset, size)| == end && Holding(end) >= Holding(|f.memory|)
      && (f.gas < Holding(end) - Holding(|f.memory|) ==> ChargeMemory(f, offset, size) == Raise(OutOfGas))
      && (f.gas >= Holding(end) - Holding(|f.memory|) ==>
            ChargeMemory(f, offset, size)
            == Ok(f.(memory := Expand(f.memory, offset, size), gas := f.gas - (Holding(end) - Holding(|f.memory|)))))
  {
    hide MemoryCost, WordsForSize, ExpansionCost, Holding;
    ExpansionIsPaid(f.memory, offset, size);
    HoldingIsCost(|f.memory|);
    HoldingIsCost(Extent(|f.memory|, offset, size));
  }

  // ---------------------------------------------------------------------------------------------
  // Message calls
  // ---------------------------------------------------------------------------------------------

  /** The words a call opcode takes from the stack; only CALL has a value among them. */
  datatype CallWords = CallWords(
    gas: Word, target: Word, value: Word, inOffset: Word, inSize: Word, outOffset: Word, outSize: Word)

  predicate IsCall(op: Byte) {
    op in {0xF1, 0xF4, 0xFA}
  }

  /** As they lie on the stack, the top one last. */
  function CallStack(op: Byte, c: CallWords): seq<Word> {
    [c.outSize, c.outOffset, c.inSize, c.inOffset] + (if op == 0xF1 then [c.value] else []) + [c.target, c.gas]
  }

  /** The ether that a call moves: DELEGATECALL moves the frame's own value again. */
  function Moved(ctx: Context, op: Byte, c: CallWords): Word {
    if op == 0xF1 then c.value else if op == 0xF4 then ctx.value else 0
  }

  /** The frame in which the code of the target runs. DELEGATECALL keeps address and caller, STATICCALL forbids writing. */
  function ChildOf(ctx: Context, f: Frame, op: Byte, c: CallWords, code: seq<Byte>, gas: nat): Context {
    var target := ToAddress(c.target);
    Context(
      if op == 0xF4 then ctx.address else target, if op == 0xF4 then ctx.caller else ctx.address, ctx.origin,
      Moved(ctx, op, c), BytesAt(f.memory, c.inOffset, c.inSize), code, gas, op == 0xFA || ctx.isStatic, ctx.depth + 1,
      ctx.gasPrice, ctx.chainId)
  }

  /** What a callee leaves behind. */
  datatype Ran = Ran(success: bool, gasLeft: nat, output: seq<Byte>, logs: seq<Log>, refund: int, state: State)

  function RanFrame(result: ExecutionResult, before: State, after: State): Ran {
    Ran(result.success, result.gasRemaining, result.output, if result.success then result.logs else [],
        if result.success then result.gasRefund else 0, if result.success then after else before)
  }

  /** Whoever is called on `w1`, the state after the transfer: a precompile, nobody, or code. A precompile that cannot be
      paid gives nothing back. */
  ghost function Callee(o: Oracle, ctx: Context, f: Frame, w: State, w1: State, op: Byte, c: CallWords, gas: nat): Option<Ran> {
    var target := ToAddress(c.target);
    var calldata := BytesAt(f.memory, c.inOffset, c.inSize);
    var code := At(w1, target).code;
    if 1 <= target <= 4 then
      if gas < PrecompileGas(target, calldata) then None
      else Some(Ran(true, gas - PrecompileGas(target, calldata), o.precompile(target, calldata), [], 0, w1))
    else if code == [] then Some(Ran(true, gas, [], [], 0, w1))
    else
      var child := ChildOf(ctx, f, op, c, code, gas);
      Some(RanFrame(RunFrame(o, child, w1).0, w, RunFrame(o, child, w1).1))
  }

  function CallPrice(w: State, target: Address, value: Word): nat {
    700 + if value == 0 then 0 else 9_000 + if target in w then 0 else 25_000
  }

  /** The caller's frame goes on with `pushed` on the stack and these bytes returned and copied; everything else about it
      is as before. */
  ghost predicate GoesOn(f: Frame, g: Frame, below: seq<Word>, pushed: Word, end: nat) {
    && g.stack == below + [pushed] && g.pc == f.pc + 1 && |g.memory| == end
  }

  ghost predicate SameBytes(f: Frame, g: Frame) {
    forall i: nat :: Lookup(g.memory, i) == Lookup(f.memory, i)
  }

  /** A call that never reached a callee. */
  ghost predicate Declines(f: Frame, g: Frame) {
    SameBytes(f, g) && g.lastReturn == f.lastReturn && g.logs == f.logs && g.refund == f.refund
  }

  /** What the caller takes over from its callee: the output, as much of it in memory as was asked for, logs and refund. */
  ghost predicate TakesFrom(f: Frame, g: Frame, c: CallWords, ran: Ran) {
    && g.lastReturn == ran.output && g.logs == f.logs + ran.logs && g.refund == f.refund + ran.refund
    && forall i: nat :: Lookup(g.memory, i)
         == if c.outOffset <= i < c.outOffset + Min(c.outSize, |ran.output|) then ran.output[i - c.outOffset]
            else Lookup(f.memory, i)
  }

  /** After the call was paid for, `left` gas remains, and at most all but one 64th of it is forwarded. */
  ghost predicate Called(
    o: Oracle, ctx: Context, w: State, f: Frame, op: Byte, c: CallWords, below: seq<Word>, left: nat, end: nat, g: Frame,
    w': State)
  {
    var value, target := Moved(ctx, op, c), ToAddress(c.target);
    var forwarded := Min(c.gas, left - left / 64);
    if At(w, ctx.address).balance < value then
      w' == w && GoesOn(f, g, below, 0, end) && g.gas == left && Declines(f, g)
    else
      var w1 := if value == 0 then w else Transfer(w, ctx.address, target, value).1;
      match Callee(o, ctx, f, w, w1, op, c, forwarded + if value == 0 then 0 else 2_300)
      case None => w' == w && GoesOn(f, g, below, 0, end) && g.gas == left - forwarded && Declines(f, g)
      case Some(ran) =>
        && w' == ran.state && GoesOn(f, g, below, if ran.success then 1 else 0, end)
        && g.gas == left - forwarded + Min(ran.gasLeft, forwarded) && TakesFrom(f, g, c, ran)
  }

  /** For every call opcode on every stack, memory and state. */
  ghost predicate CallMeans(
    o: Oracle, ctx: Context, w: State, f: Frame, op: Byte, c: CallWords, below: seq<Word>, r: Result<(Flow, State)>)
  {
    var length, value := |f.memory|, Moved(ctx, op, c);
    var end1 := Extent(length, c.inOffset, c.inSize);
    var end2 := Extent(end1, c.outOffset, c.outSize);
    var price := Holding(end2) - Holding(length) + CallPrice(w, ToAddress(c.target), value);
    if f.gas < Holding(end1) - Holding(length) then r == Raise(OutOfGas)
    else if ctx.depth + 1 >= 1024 then
      && r.Ok? && r.value.0.Next? && r.value.1 == w
      && var g := r.value.0.frame;
         && GoesOn(f, g, below, 0, end1) && g.gas == f.gas - (Holding(end1) - Holding(length)) && Declines(f, g)
    else if value != 0 && (op == 0xFA || ctx.isStatic) then r == Raise(WriteProtection)
    else if f.gas < price then r == Raise(OutOfGas)
    else r.Ok? && r.value.0.Next? && Called(o, ctx, w, f, op, c, below, f.gas - price, end2, r.value.0.frame, r.value.1)
  }

  // ---------------------------------------------------------------------------------------------
  // Calls, layer by layer
  // ---------------------------------------------------------------------------------------------

  function Prepared(ctx: Context, f: Frame, op: Byte, c: CallWords): Call {
    var child := ChildOf(ctx, f, op, c, [], 0);
    Call(c.gas, ToAddress(c.target), child.calldata, c.outOffset, c.outSize, child.value, child.address, child.caller,
         child.isStatic)
  }

  lemma PreparedFields(ctx: Context, f: Frame, op: Byte, c: CallWords)
    ensures var call := Prepared(ctx, f, op, c);
      && call.gasRequested == c.gas && call.outOffset == c.outOffset && call.outSize == c.outSize
      && call.value == Moved(ctx, op, c) && call.target == ToAddress(c.target)
  {
  }

  lemma Operands(f: Frame, op: Byte, c: CallWords, below: seq<Word>)
    requires IsCall(op) && f.stack == below + CallStack(op, c)
    ensures var n := if op == 0xF1 then 7 else 6;
      && Pop(f, n).Ok? && Pop(f, n).value.1 == f.(stack := below)
      && Pop(f, n).value.0 == [c.gas, c.target] + (if op == 0xF1 then [c.value] else [])
                              + [c.inOffset, c.inSize, c.outOffset, c.outSize]
  {
    var n := if op == 0xF1 then 7 else 6;
    assert |CallStack(op, c)| == n && |f.stack| == |below| + n;
    assert f.stack[..|f.stack| - n] == below;
    var args := [c.gas, c.target] + (if op == 0xF1 then [c.value] else []) + [c.inOffset, c.inSize, c.outOffset, c.outSize];
    forall i | 0 <= i < n
      ensures f.stack[|f.stack| - 1 - i] == args[i]
    {
      assert f.stack[|f.stack| - 1 - i] == CallStack(op, c)[n - 1 - i];
    }
  }

  lemma PrepareMeaning(ctx: Context, f: Frame, op: Byte, c: CallWords, below: seq<Word>)
    requires IsCall(op) && f.stack == below + CallStack(op, c)
    ensures var end := Extent(|f.memory|, c.inOffset, c.inSize);
      var cost := Holding(end) - Holding(|f.memory|);
      PrepareCall(ctx, f, op)
      == if f.gas < cost then Raise(OutOfGas)
         else Ok((Prepared(ctx, f, op, c),
                  f.(stack := below, memory := Expand(f.memory, c.inOffset, c.inSize), gas := f.gas - cost)))
  {
    hide Pop, ChargeMemory, Expand, Holding, Extent, BytesAt;
    Operands(f, op, c, below);
    var f1 := f.(stack := below);
    ChargedForMemory(f1, c.inOffset, c.inSize);
    ReadIsBytes(f.memory, c.inOffset, c.inSize);
  }

  lemma ExtendTwice(f: Frame, f1: Frame, c: CallWords)
    requires f1.memory == Expand(f.memory, c.inOffset, c.inSize)
    ensures |f1.memory| == Extent(|f.memory|, c.inOffset, c.inSize)
    ensures |Expand(f1.memory, c.outOffset, c.outSize)|
         == Extent(Extent(|f.memory|, c.inOffset, c.inSize), c.outOffset, c.outSize)
    ensures forall i: nat :: Lookup(f1.memory, i) == Lookup(f.memory, i)
    ensures forall i: nat :: Lookup(Expand(f1.memory, c.outOffset, c.outSize), i) == Lookup(f.memory, i)
  {
  }

  lemma EnterMeaning(ctx: Context, w: State, f1: Frame, call: Call)
    ensures var end := Extent(|f1.memory|, call.outOffset, call.outSize);
      var price := Holding(end) - Holding(|f1.memory|) + CallPrice(w, call.target, call.value);
      var f2 := f1.(memory := Expand(f1.memory, call.outOffset, call.outSize),
                    gas := if f1.gas < price then 0 else f1.gas - price);
      EnterCall(ctx, w, f1, call)
      == if ctx.depth + 1 >= 1024 then Ok(Declined(Failed(Some(CallDepthExceeded)), f1))
         else if call.value != 0 && (call.isStatic || ctx.isStatic) then Raise(WriteProtection)
         else if f1.gas < price then Raise(OutOfGas)
         else if At(w, ctx.address).balance < call.value then Ok(Declined(Failed(None), f2))
         else Ok(Paid(f2))
  {
    hide ChargeMemory, Expand, Holding, Extent;
    ChargedForMemory(f1, call.outOffset, call.outSize);
  }

  lemma CalleeMeaning(
    o: Oracle, ctx: Context, w: State, f: Frame, op: Byte, c: CallWords, gas: nat)
    requires At(w, ctx.address).balance >= Moved(ctx, op, c)
    ensures var call, value := Prepared(ctx, f, op, c), Moved(ctx, op, c);
      var w1 := if value == 0 then w else Transfer(w, ctx.address, ToAddress(c.target), value).1;
      var r := RunCallee(o, ctx, w, call, gas);
      match Callee(o, ctx, f, w, w1, op, c, gas)
      case None => r == (None, w)
      case Some(ran) => r.0.Some? && RanFrame(r.0.value, w, r.1) == ran && r.1 == ran.state
  {
    hide RunFrame, BytesAt, PrecompileGas, At, ToAddress;
    TransferPays(w, ctx.address, ToAddress(c.target), Moved(ctx, op, c));
  }

  lemma TransferPays(w: State, sender: Address, recipient: Address, value: Word)
    requires At(w, sender).balance >= value
    ensures Transfer(w, sender, recipient, value).0
  {
  }

  /** The write into memory stays inside what was paid for. */
  lemma CopyMeaning(memory: seq<Byte>, offset: nat, size: nat, output: seq<Byte>)
    ensures var grown := Expand(memory, offset, size);
      var after := Write(grown, offset, Clip(output, 0, size));
      && |after| == |grown|
      && forall i: nat :: Lookup(after, i)
           == if offset <= i < offset + Min(size, |output|) then output[i - offset] else Lookup(grown, i)
  {
    hide Write, Lookup;
    var grown, raw := Expand(memory, offset, size), Clip(output, 0, size);
    assert |raw| == Min(size, |output|) && forall i :: 0 <= i < |raw| ==> raw[i] == output[i];
    assert |Expand(grown, offset, |raw|)| == |grown|;
    forall i: nat
      ensures Lookup(Write(grown, offset, raw), i)
           == if offset <= i < offset + Min(size, |output|) then output[i - offset] else Lookup(grown, i)
    {
      WriteIsUpdate(grown, offset, raw, i);
    }
  }

  /** What the caller's frame becomes once the callee has run. */
  lemma BackMeaning(
    f: Frame, f2: Frame, c: CallWords, call: Call, forwarded: nat, result: ExecutionResult, before: State, after: State,
    below: seq<Word>)
    requires f2.stack == below && |below| < MAX_STACK_DEPTH && f2.pc == f.pc + 1 && forwarded <= f2.gas
    requires f2.memory == Expand(Expand(f.memory, c.inOffset, c.inSize), c.outOffset, c.outSize)
    requires f2.logs == f.logs && f2.refund == f.refund && call.outOffset == c.outOffset && call.outSize == c.outSize
    ensures var f3 := TakeBack(f2.(gas := f2.gas - forwarded), call, forwarded, result);
      var g := FinishCall(result, f3, if result.success then 1 else 0);
      var ran := RanFrame(result, before, after);
      && g.Ok? && GoesOn(f, g.value, below, if ran.success then 1 else 0, |f2.memory|)
      && g.value.gas == f2.gas - forwarded + Min(ran.gasLeft, forwarded) && TakesFrom(f, g.value, c, ran)
  {
    hide Write, Clip, Expand, Lookup;
    ExtendTwice(f, f2.(memory := Expand(f.memory, c.inOffset, c.inSize)), c);
    CopyMeaning(Expand(f.memory, c.inOffset, c.inSize), c.outOffset, c.outSize, result.output);
    assert f.logs + [] == f.logs;
  }

  lemma NothingBack(f: Frame, f2: Frame, c: CallWords, forwarded: nat, below: seq<Word>)
    requires f2.stack == below && |below| < MAX_STACK_DEPTH && f2.pc == f.pc + 1 && forwarded <= f2.gas
    requires f2.memory == Expand(Expand(f.memory, c.inOffset, c.inSize), c.outOffset, c.outSize)
    requires f2.lastReturn == f.lastReturn && f2.logs == f.logs && f2.refund == f.refund
    ensures var g := FinishCall(Failed(None), f2.(gas := f2.gas - forwarded), 0);
      && g.Ok? && GoesOn(f, g.value, below, 0, |f2.memory|) && g.value.gas == f2.gas - forwarded && Declines(f, g.value)
  {
    hide Expand, Lookup;
    ExtendTwice(f, f2.(memory := Expand(f.memory, c.inOffset, c.inSize)), c);
  }

  /** Forwarding, running and taking back, from the frame in which the call has been paid for. */
  lemma ForwardMeaning(
    o: Oracle, ctx: Context, w: State, f: Frame, f2: Frame, op: Byte, c: CallWords, below: seq<Word>)
    requires f2.stack == below && |below| < MAX_STACK_DEPTH && f2.pc == f.pc + 1
    requires f2.memory == Expand(Expand(f.memory, c.inOffset, c.inSize), c.outOffset, c.outSize)
    requires f2.lastReturn == f.lastReturn && f2.logs == f.logs && f2.refund == f.refund
    requires At(w, ctx.address).balance >= Moved(ctx, op, c)
    ensures var (result, f3, w') := ForwardCall(o, ctx, w, f2, Prepared(ctx, f, op, c));
      var g := FinishCall(result, f3, if result.success then 1 else 0);
      g.Ok? && Called(o, ctx, w, f, op, c, below, f2.gas, |f2.memory|, g.value, w')
  {
    hide RunCallee, Callee, TakeBack, Expand, Transfer, FinishCall, GoesOn, TakesFrom, Declines, Prepared;
    var call, value := Prepared(ctx, f, op, c), Moved(ctx, op, c);
    var forwarded := Min(c.gas, f2.gas - f2.gas / 64);
    PreparedFields(ctx, f, op, c);
    assert forwarded == ForwardedGas(f2.gas, call.gasRequested);
    CalleeMeaning(o, ctx, w, f, op, c, forwarded + if value == 0 then 0 else 2_300);
    var ran := RunCallee(o, ctx, w, call, forwarded + Stipend(call));
    if ran.0.Some? {
      BackMeaning(f, f2, c, call, forwarded, ran.0.value, w, ran.1, below);
    } else {
      NothingBack(f, f2, c, forwarded, below);
    }
  }

  lemma PoorMeaning(
    o: Oracle, ctx: Context, w: State, f: Frame, f2: Frame, op: Byte, c: CallWords, below: seq<Word>)
    requires f2.stack == below && |below| < MAX_STACK_DEPTH && f2.pc == f.pc + 1
    requires f2.memory == Expand(Expand(f.memory, c.inOffset, c.inSize), c.outOffset, c.outSize)
    requires f2.lastReturn == f.lastReturn && f2.logs == f.logs && f2.refund == f.refund
    requires At(w, ctx.address).balance < Moved(ctx, op, c)
    ensures var g := FinishCall(Failed(None), f2, 0);
      g.Ok? && Called(o, ctx, w, f, op, c, below, f2.gas, |f2.memory|, g.value, w)
  {
    hide Callee, Expand, Lookup, Transfer;
    ExtendTwice(f, f2.(memory := Expand(f.memory, c.inOffset, c.inSize)), c);
  }

  /** The opcode's result once its handler is done. */
  function Finished(r: Result<(ExecutionResult, Frame, State)>): Result<(Flow, State)> {
    var (result, f, w) :- r;
    var g :- FinishCall(result, f, if result.success then 1 else 0);
    Ok((Next(g), w))
  }

  lemma CommonMeaning(
    o: Oracle, ctx: Context, w: State, f: Frame, f1: Frame, op: Byte, c: CallWords, below: seq<Word>)
    requires IsCall(op) && |below| < MAX_STACK_DEPTH
    requires f1 == f.(stack := below, memory := Expand(f.memory, c.inOffset, c.inSize), pc := f.pc + 1, gas := f1.gas)
    requires Holding(|f1.memory|) - Holding(|f.memory|) == f.gas - f1.gas
    ensures CallMeans(o, ctx, w, f, op, c, below, Finished(CallCommon(o, ctx, w, f1, Prepared(ctx, f, op, c))))
  {
    hide ForwardCall, Called, Expand, Holding, Lookup, EnterCall;
    var call := Prepared(ctx, f, op, c);
    EnterMeaning(ctx, w, f1, call);
    ExtendTwice(f, f1, c);
    var entry := EnterCall(ctx, w, f1, call);
    if entry.Ok? && entry.value.Paid? {
      ForwardMeaning(o, ctx, w, f, entry.value.frame, op, c, below);
    } else if ctx.depth + 1 >= 1024 {
      assert FinishCall(Failed(Some(CallDepthExceeded)), f1, 0).Ok?;
    } else if entry.Ok? {
      PoorMeaning(o, ctx, w, f, entry.value.frame, op, c, below);
    }
  }

  /** Every message call, from the words on the stack to the frame and the state after it. */
  lemma CallMeaning(o: Oracle, ctx: Context, w: State, f: Frame, c: CallWords, below: seq<Word>)
    requires f.pc < |ctx.code| && IsCall(ctx.code[f.pc]) && |below| < MAX_STACK_DEPTH
    requires f.stack == below + CallStack(ctx.code[f.pc], c)
    ensures CallMeans(o, ctx, w, f, ctx.code[f.pc], c, below, Step(o, ctx, w, f))
  {
    hide PrepareCall, CallCommon, FinishCall, CallMeans, LocalHandler;
    var op, f0 := ctx.code[f.pc], f.(pc := f.pc + 1);
    CallHasNoBasePrice(o, ctx, w, f0, op);
    PrepareMeaning(ctx, f0, op, c, below);
    CallSteps(o, ctx, w, f, op, c);
    if PrepareCall(ctx, f0, op).Ok? {
      ChargedForMemory(f0, c.inOffset, c.inSize);
      CommonMeaning(o, ctx, w, f, PrepareCall(ctx, f0, op).value.1, op, c, below);
    } else {
      UnpaidMeaning(o, ctx, w, f, op, c, below);
    }
  }

  lemma UnpaidMeaning(o: Oracle, ctx: Context, w: State, f: Frame, op: Byte, c: CallWords, below: seq<Word>)
    requires f.gas < Holding(Extent(|f.memory|, c.inOffset, c.inSize)) - Holding(|f.memory|)
    ensures CallMeans(o, ctx, w, f, op, c, below, Raise(OutOfGas))
  {
    hide Called;
  }

  lemma CallHasNoBasePrice(o: Oracle, ctx: Context, w: State, f: Frame, op: Byte)
    requires IsCall(op)
    ensures Charge(f, BaseOpcodeGas(op)) == Ok(f) && LocalHandler(o, ctx, w, f, op).None?
  {
  }

  lemma CallSteps(o: Oracle, ctx: Context, w: State, f: Frame, op: Byte, c: CallWords)
    requires f.pc < |ctx.code| && op == ctx.code[f.pc] && IsCall(op)
    ensures var prepared := PrepareCall(ctx, f.(pc := f.pc + 1), op);
      Step(o, ctx, w, f)
      == if prepared.Raise? then Raise(prepared.error)
         else Finished(CallCommon(o, ctx, w, prepared.value.1, prepared.value.0))
  {
    hide OpCall, LocalHandler, PrepareCall, CallCommon;
    CallHasNoBasePrice(o, ctx, w, f.(pc := f.pc + 1), op);
    OpCallSteps(o, ctx, w, f.(pc := f.pc + 1), op);
  }

  lemma OpCallSteps(o: Oracle, ctx: Context, w: State, f: Frame, op: Byte)
    requires IsCall(op)
    ensures var prepared, r := PrepareCall(ctx, f, op), OpCall(o, ctx, w, f, op);
      (if r.Raise? then Raise(r.error) else Ok((Next(r.value.0), r.value.1)))
      == if prepared.Raise? then Raise(prepared.error)
         else Finished(CallCommon(o, ctx, w, prepared.value.1, prepared.value.0))
  {
    hide PrepareCall, CallCommon, FinishCall;
  }

  // ---------------------------------------------------------------------------------------------
  // Creates
  // ---------------------------------------------------------------------------------------------

  /** The words a create opcode takes from the stack; only CREATE2 has a salt among them. */
  datatype CreateWords = CreateWords(value: Word, offset: Word, size: Word, salt: Word)

  predicate IsCreate(op: Byte) {
    op in {0xF0, 0xF5}
  }

  function CreateStack(op: Byte, c: CreateWords): seq<Word> {
    (if op == 0xF5 then [c.salt] else []) + [c.size, c.offset, c.value]
  }

  function NewAddress(o: Oracle, ctx: Context, w: State, op: Byte, c: CreateWords, initCode: seq<Byte>): Address {
    if op == 0xF0 then CreateAddress(o, ctx.address, At(w, ctx.address).nonce)
    else Create2Address(o, ctx.address, c.salt, initCode)
  }

  /** Memory, 32000, and for CREATE2 the hashing of the init code. */
  function CreatePrice(f: Frame, op: Byte, c: CreateWords): int {
    Holding(Extent(|f.memory|, c.offset, c.size)) - Holding(|f.memory|) + 32_000
    + if op == 0xF5 then (c.size + 31) / 32 * 6 else 0
  }

  /** A create that ran no init code: nothing but the nonce may have changed. */
  ghost predicate NotCreated(f: Frame, g: Frame, below: seq<Word>, left: int, end: nat) {
    GoesOn(f, g, below, 0, end) && g.gas == left && Declines(f, g)
  }

  /** The init code has run on the endowed account, with all gas but one 64th; what it did not use comes back, and on
      success the account holds its output as code. */
  ghost predicate Created(
    o: Oracle, ctx: Context, w: State, w1: State, f: Frame, c: CreateWords, below: seq<Word>, left: nat, end: nat,
    address: Address, g: Frame, w': State)
  {
    var initCode := BytesAt(f.memory, c.offset, c.size);
    var given := left - left / 64;
    var child := Context(address, ctx.address, ctx.origin, c.value, [], initCode, given, false, ctx.depth + 1,
                         ctx.gasPrice, ctx.chainId);
    var endowed := Transfer(SetNonce(w1, address, 1), ctx.address, address, c.value).1;
    var (run, w2) := RunFrame(o, child, endowed);
    && w' == (if run.success then SetCode(w2, address, run.output) else w1)
    && GoesOn(f, g, below, if run.success then address else 0, end) && SameBytes(f, g)
    && g.gas == left - given + run.gasRemaining && g.lastReturn == run.output
    && g.logs == f.logs + (if run.success then run.logs else [])
    && g.refund == f.refund + (if run.success then run.gasRefund else 0)
  }

  /** For every create opcode on every stack, memory and state. */
  ghost predicate CreateMeans(
    o: Oracle, ctx: Context, w: State, f: Frame, op: Byte, c: CreateWords, below: seq<Word>, r: Result<(Flow, State)>)
  {
    var length := |f.memory|;
    var end := Extent(length, c.offset, c.size);
    var initCode := BytesAt(f.memory, c.offset, c.size);
    var address := NewAddress(o, ctx, w, op, c, initCode);
    var left, w1 := f.gas - CreatePrice(f, op, c), IncrementNonce(w, ctx.address);
    if ctx.isStatic then r == Raise(WriteProtection)
    else if ctx.depth + 1 >= 1024 then
      r.Ok? && r.value.0.Next? && r.value.1 == w && NotCreated(f, r.value.0.frame, below, f.gas, length)
    else if left < 0 then r == Raise(OutOfGas)
    else
      && r.Ok? && r.value.0.Next?
      && if At(w, ctx.address).balance < c.value then
           r.value.1 == w && NotCreated(f, r.value.0.frame, below, left, end)
         else if At(w1, address).nonce != 0 || At(w1, address).code != [] then
           r.value.1 == w1 && NotCreated(f, r.value.0.frame, below, left, end)
         else Created(o, ctx, w, w1, f, c, below, left, end, address, r.value.0.frame, r.value.1)
  }

  lemma CreateOperands(f: Frame, op: Byte, c: CreateWords, below: seq<Word>)
    requires IsCreate(op) && f.stack == below + CreateStack(op, c)
    ensures var n := if op == 0xF0 then 3 else 4;
      && Pop(f, n).Ok? && Pop(f, n).value.1 == f.(stack := below)
      && Pop(f, n).value.0 == [c.value, c.offset, c.size] + (if op == 0xF5 then [c.salt] else [])
  {
    var n := if op == 0xF0 then 3 else 4;
    assert |CreateStack(op, c)| == n && |f.stack| == |below| + n;
    assert f.stack[..|f.stack| - n] == below;
    var args := [c.value, c.offset, c.size] + (if op == 0xF5 then [c.salt] else []);
    forall i | 0 <= i < n
      ensures f.stack[|f.stack| - 1 - i] == args[i]
    {
      assert f.stack[|f.stack| - 1 - i] == CreateStack(op, c)[n - 1 - i];
    }
  }

  function SaltOf(op: Byte, c: CreateWords): Option<Word> {
    if op == 0xF0 then None else Some(c.salt)
  }

  lemma EnterCreateMeaning(o: Oracle, ctx: Context, w: State, f: Frame, op: Byte, c: CreateWords)
    requires IsCreate(op)
    ensures var left, w1 := f.gas - CreatePrice(f, op, c), IncrementNonce(w, ctx.address);
      var initCode := BytesAt(f.memory, c.offset, c.size);
      var address := NewAddress(o, ctx, w, op, c, initCode);
      var f2 := f.(memory := Expand(f.memory, c.offset, c.size), gas := if left < 0 then 0 else left);
      EnterCreate(o, ctx, w, f, c.value, c.offset, c.size, SaltOf(op, c))
      == if ctx.isStatic then Raise(WriteProtection)
         else if ctx.depth + 1 >= 1024 then Ok(CreateDeclined(f, w))
         else if left < 0 then Raise(OutOfGas)
         else if At(w, ctx.address).balance < c.value then Ok(CreateDeclined(f2, w))
         else if At(w1, address).nonce != 0 || At(w1, address).code != [] then Ok(CreateDeclined(f2, w1))
         else Ok(Deploys(f2, w1, address, initCode))
  {
    hide ChargeMemory, Expand, Holding, Extent, BytesAt, CreateAddress, Create2Address, IncrementNonce, At;
    ChargedForMemory(f, c.offset, c.size);
    ReadIsBytes(f.memory, c.offset, c.size);
  }

  lemma NonceKeepsBalance(w: State, a: Address, b: Address)
    ensures At(IncrementNonce(w, a), b).balance == At(w, b).balance
    ensures At(SetNonce(w, a, 1), b).balance == At(w, b).balance
  {
  }

  lemma NotCreatedMeaning(f: Frame, f1: Frame, below: seq<Word>, memory: seq<Byte>)
    requires f1 == f.(stack := below, pc := f.pc + 1, memory := memory, gas := f1.gas) && |below| < MAX_STACK_DEPTH
    requires forall i: nat :: Lookup(memory, i) == Lookup(f.memory, i)
    ensures var g := FinishCall(Failed(None), f1, 0);
      g.Ok? && NotCreated(f, g.value, below, f1.gas, |memory|)
  {
  }

  lemma GrownBytes(memory: seq<Byte>, offset: nat, size: nat)
    ensures |Expand(memory, offset, size)| == Extent(|memory|, offset, size)
    ensures forall i: nat :: Lookup(Expand(memory, offset, size), i) == Lookup(memory, i)
  {
  }

  function PushedAddress(result: ExecutionResult): int {
    if result.success && result.created.Some? then result.created.value else 0
  }

  lemma DeployMeaning(
    o: Oracle, ctx: Context, w: State, w1: State, f: Frame, f1: Frame, c: CreateWords, below: seq<Word>, address: Address)
    requires |below| < MAX_STACK_DEPTH && At(w1, ctx.address).balance >= c.value
    requires f1 == f.(stack := below, pc := f.pc + 1, memory := Expand(f.memory, c.offset, c.size), gas := f1.gas)
    ensures var (result, f2, w') := Deploy(o, ctx, w1, f1, c.value, address, BytesAt(f.memory, c.offset, c.size));
      var g := FinishCall(result, f2, PushedAddress(result));
      g.Ok? && Created(o, ctx, w, w1, f, c, below, f1.gas, |f1.memory|, address, g.value, w')
  {
    hide RunFrame, BytesAt, Expand, Lookup, At, Transfer, SetNonce;
    GrownBytes(f.memory, c.offset, c.size);
    NonceKeepsBalance(w1, address, ctx.address);
    TransferPays(SetNonce(w1, address, 1), ctx.address, address, c.value);
    assert f.logs + [] == f.logs;
  }

  function FinishedCreate(r: Result<(ExecutionResult, Frame, State)>): Result<(Flow, State)> {
    var (result, f, w) :- r;
    var g :- FinishCall(result, f, PushedAddress(result));
    Ok((Next(g), w))
  }

  lemma CreateCommonMeaning(
    o: Oracle, ctx: Context, w: State, f: Frame, f1: Frame, op: Byte, c: CreateWords, below: seq<Word>)
    requires IsCreate(op) && |below| < MAX_STACK_DEPTH && f1 == f.(stack := below, pc := f.pc + 1)
    ensures CreateMeans(o, ctx, w, f, op, c, below,
                        FinishedCreate(CreateCommon(o, ctx, w, f1, c.value, c.offset, c.size, SaltOf(op, c))))
  {
    hide Deploy, Created, Expand, Holding, Lookup, EnterCreate, NewAddress, BytesAt, IncrementNonce, At, NotCreated;
    hide FinishCall, Failed, Declines, GoesOn;
    EnterCreateMeaning(o, ctx, w, f1, op, c);
    GrownBytes(f.memory, c.offset, c.size);
    NonceKeepsBalance(w, ctx.address, ctx.address);
    var entry := EnterCreate(o, ctx, w, f1, c.value, c.offset, c.size, SaltOf(op, c));
    if entry.Ok? {
      match entry.value
      case Deploys(f2, w1, address, _) => DeployMeaning(o, ctx, w, w1, f, f2, c, below, address);
      case CreateDeclined(f2, _) =>
        NoAddress();
        NotCreatedMeaning(f, f2, below, f2.memory);
    }
  }

  lemma NoAddress()
    ensures PushedAddress(Failed(None)) == 0
  {
  }

  lemma CreateHasNoBasePrice(o: Oracle, ctx: Context, w: State, f: Frame, op: Byte)
    requires IsCreate(op)
    ensures Charge(f, BaseOpcodeGas(op)) == Ok(f) && LocalHandler(o, ctx, w, f, op).None?
  {
  }

  lemma OpCreateSteps(o: Oracle, ctx: Context, w: State, f: Frame, op: Byte, c: CreateWords, below: seq<Word>)
    requires IsCreate(op) && f.stack == below + CreateStack(op, c)
    ensures var r := OpCreate(o, ctx, w, f, op);
      (if r.Raise? then Raise(r.error) else Ok((Next(r.value.0), r.value.1)))
      == FinishedCreate(CreateCommon(o, ctx, w, f.(stack := below), c.value, c.offset, c.size, SaltOf(op, c)))
  {
    hide CreateCommon, FinishCall, Pop;
    CreateOperands(f, op, c, below);
  }

  /** Every create, from the words on the stack to the frame and the state after it. */
  lemma CreateMeaning(o: Oracle, ctx: Context, w: State, f: Frame, c: CreateWords, below: seq<Word>)
    requires f.pc < |ctx.code| && IsCreate(ctx.code[f.pc]) && |below| < MAX_STACK_DEPTH
    requires f.stack == below + CreateStack(ctx.code[f.pc], c)
    ensures CreateMeans(o, ctx, w, f, ctx.code[f.pc], c, below, Step(o, ctx, w, f))
  {
    hide OpCreate, CreateCommon, FinishCall, CreateMeans, LocalHandler, FinishedCreate;
    var op, f0 := ctx.code[f.pc], f.(pc := f.pc + 1);
    CreateHasNoBasePrice(o, ctx, w, f0, op);
    OpCreateSteps(o, ctx, w, f0, op, c, below);
    CreateCommonMeaning(o, ctx, w, f, f0.(stack := below), op, c, below);
  }
}
