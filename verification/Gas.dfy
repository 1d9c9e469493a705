/** Gas constants, the cost functions and the gas meter. */
module Gas {
  import opened Bytes

  const GAS_SLOAD: nat := 100
  const GAS_SSTORE_SET: nat := 20_000
  const GAS_SSTORE_RESET: nat := 5_000
  const GAS_SSTORE_CLEAR_REFUND: int := 4_800
  const GAS_KECCAK256_WORD: nat := 6
  const GAS_LOG: nat := 375
  const GAS_LOG_TOPIC: nat := 375
  const GAS_LOG_DATA: nat := 8
  const GAS_CALL: nat := 700
  const GAS_CALL_VALUE: nat := 9_000
  const GAS_NEW_ACCOUNT: nat := 25_000
  const GAS_CALL_STIPEND: nat := 2_300
  const GAS_CREATE: nat := 32_000
  const GAS_CREATE2_WORD: nat := 6

  datatype EvmError =
    | StackUnderflow
    | StackOverflow
    | InvalidOpcode
    | InvalidJumpDestination
    | OutOfGas
    | WriteProtection
    | CallDepthExceeded
    | ReturnDataBounds

  /** A value, or the exception raised instead of it. */
  datatype Result<+T> = Ok(value: T) | Raise(error: EvmError) {
    predicate IsFailure() { Raise? }
    function PropagateFailure<U>(): Result<U>
      requires Raise?
    {
      Raise(error)
    }
    function Extract(): T
      requires Ok?
    {
      value
    }
  }

  /** The price charged before an opcode's handler runs; LOG and SSTORE charge inside their handlers. */
  function BaseOpcodeGas(op: Byte): nat {
    if op in {0x01, 0x03, 0x35, 0x37, 0x39, 0x3E, 0x51, 0x52, 0x53} || 0x10 <= op <= 0x11 || 0x14 <= op <= 0x1D
       || 0x60 <= op < 0xA0 then 3
    else if op in {0x02, 0x04, 0x06} then 5
    else if op == 0x20 then 30
    else if op in {0x31, 0x54} then 100
    else if op in {0x30, 0x32, 0x33, 0x34, 0x36, 0x38, 0x3A, 0x3D, 0x46, 0x50, 0x58, 0x59, 0x5A, 0x5F} then 2
    else if op == 0x56 then 8
    else if op == 0x57 then 10
    else if op == 0x5B then 1
    else 0
  }

  function Ceil32(size: nat): nat {
    if size == 0 then 0 else (size + 31) / 32 * 32
  }

  /** The number of 32-byte words that hold `size` bytes: the least w with 32 * w >= size. */
  function WordsForSize(size: nat): (w: nat)
    ensures size <= 32 * w < size + 32
  {
    Ceil32(size) / 32
  }

  function MemoryCost(words: nat): nat {
    3 * words + words * words / 512
  }

  lemma MemoryCostMonotone(a: nat, b: nat)
    requires a <= b
    ensures MemoryCost(a) <= MemoryCost(b)
  {
    assert a * a <= b * b by {
      assert a * a <= a * b;
      assert a * b <= b * b;
    }
  }

  /** What growing from `current` to `needed` words costs: the difference of the two totals, or nothing. */
  function MemoryExpansionCost(current: nat, needed: nat): (c: nat)
    ensures MemoryCost(current) + c == MemoryCost(if needed <= current then current else needed)
  {
    if needed <= current then 0
    else
      MemoryCostMonotone(current, needed);
      MemoryCost(needed) - MemoryCost(current)
  }

  function CopyCost(size: nat): nat {
    (size + 31) / 32 * 3
  }

  class GasMeter {
    var remaining: nat
    var refund: int

    constructor (gas: nat)
      ensures remaining == gas && refund == 0
    {
      remaining := gas;
      refund := 0;
    }

    /** Takes `amount`, or raises and takes nothing. */
    method Charge(amount: nat) returns (r: Result<()>)
      modifies this`remaining
      ensures r == if amount <= old(remaining) then Ok(()) else Raise(OutOfGas)
      ensures remaining == if r.Ok? then old(remaining) - amount else old(remaining)
    {
      if remaining < amount {
        return Raise(OutOfGas);
      }
      remaining := remaining - amount;
      return Ok(());
    }

    method AddRefund(amount: int)
      modifies this`refund
      ensures refund == old(refund) + amount
    {
      refund := refund + amount;
    }

    method ReturnGas(amount: nat)
      modifies this`remaining
      ensures remaining == old(remaining) + amount
    {
      remaining := remaining + amount;
    }

    method ConsumeAll()
      modifies this`remaining
      ensures remaining == 0
    {
      remaining := 0;
    }
  }
}
