/** Bytes, 256-bit words, 20-byte addresses and the big-endian conversions between them. */
module Bytes {

  /** 2^256, the modulus of every word operation. */
  const MODULUS: int := 0x1_0000000000000000_0000000000000000_0000000000000000_0000000000000000

  /** 2^160, one more than the largest address. */
  const ADDRESS_MODULUS: int := 0x1_00000000_0000000000000000_0000000000000000

  type Byte = x: int | 0 <= x < 256
  type Word = x: int | 0 <= x < 0x1_0000000000000000_0000000000000000_0000000000000000_0000000000000000
  type Address = x: int | 0 <= x < 0x1_00000000_0000000000000000_0000000000000000
  type Digest = s: seq<Byte> | |s| == 32 witness seq(32, _ => 0)

  /** Masking with 2^256 - 1; for a negative integer this is two's complement. */
  function Wrap(v: int): Word {
    v % 0x1_0000000000000000_0000000000000000_0000000000000000_0000000000000000
  }

  /** The low twenty bytes of a word, read as an address. */
  function ToAddress(v: nat): Address {
    v % 0x1_00000000_0000000000000000_0000000000000000
  }

  function Zeros(n: nat): (s: seq<Byte>)
    ensures |s| == n && forall i :: 0 <= i < n ==> s[i] == 0
  {
    seq(n, _ => 0)
  }

  function Pow256(n: nat): (p: nat)
    ensures p > 0
  {
    if n == 0 then 1 else 256 * Pow256(n - 1)
  }

  /** Big-endian reading of a byte string. */
  function FromBytes(s: seq<Byte>): (v: nat) {
    if s == [] then 0 else FromBytes(s[..|s| - 1]) * 256 + s[|s| - 1]
  }

  /** The low `n` bytes of `v`, big-endian. */
  function ToBytes(v: nat, n: nat): (s: seq<Byte>)
    ensures |s| == n
  {
    if n == 0 then [] else ToBytes(v / 256, n - 1) + [v % 256]
  }

  /** The shortest big-endian form: no leading zero byte, and empty for zero. */
  function Minimal(v: nat): (s: seq<Byte>)
    ensures s == [] <==> v == 0
    ensures s != [] ==> s[0] != 0
  {
    if v == 0 then [] else Minimal(v / 256) + [v % 256]
  }

  lemma {:induction false} FromMinimal(v: nat)
    ensures FromBytes(Minimal(v)) == v
  {
    if v != 0 {
      FromMinimal(v / 256);
      var s := Minimal(v);
      assert s[..|s| - 1] == Minimal(v / 256);
    }
  }

  lemma {:induction false} MinimalFrom(s: seq<Byte>)
    requires s == [] || s[0] != 0
    ensures Minimal(FromBytes(s)) == s
  {
    if s != [] {
      var front := s[..|s| - 1];
      MinimalFrom(front);
      assert s == front + [s[|s| - 1]];
      if front == [] {
        assert FromBytes(front) == 0;
        assert FromBytes(s) == s[0];
        assert Minimal(s[0] / 256) == [];
      } else {
        assert FromBytes(s) / 256 == FromBytes(front);
        assert FromBytes(s) % 256 == s[|s| - 1];
      }
    }
  }

  lemma {:induction false} FromToBytes(v: nat, n: nat)
    requires v < Pow256(n)
    ensures FromBytes(ToBytes(v, n)) == v
  {
    if n > 0 {
      FromToBytes(v / 256, n - 1);
      var s := ToBytes(v, n);
      assert s[..|s| - 1] == ToBytes(v / 256, n - 1);
    }
  }

  lemma {:induction false} ToFromBytes(s: seq<Byte>)
    ensures FromBytes(s) < Pow256(|s|)
    ensures ToBytes(FromBytes(s), |s|) == s
  {
    if s != [] {
      var front := s[..|s| - 1];
      ToFromBytes(front);
      assert s == front + [s[|s| - 1]];
      assert FromBytes(s) / 256 == FromBytes(front);
      assert FromBytes(s) % 256 == s[|s| - 1];
    }
  }

  /** A value below 256^n needs at most n bytes. */
  lemma {:induction false} MinimalLength(v: nat, n: nat)
    requires v < Pow256(n)
    ensures |Minimal(v)| <= n
  {
    if v != 0 {
      MinimalLength(v / 256, n - 1);
    }
  }

  lemma {:induction false} PowerSplit(m: nat, n: nat)
    ensures Pow256(m + n) == Pow256(m) * Pow256(n)
  {
    if m > 0 {
      PowerSplit(m - 1, n);
    }
  }

  lemma PowerFour()
    ensures Pow256(4) == 0x1_0000_0000
  {
  }

  /** Words have 32 bytes and addresses have 20. */
  lemma WordPower()
    ensures Pow256(32) == MODULUS
    ensures Pow256(20) == ADDRESS_MODULUS
  {
    hide Pow256;
    PowerFour();
    PowerSplit(4, 4);
    PowerSplit(8, 8);
    PowerSplit(16, 4);
    PowerSplit(16, 16);
  }

  lemma {:induction false} WordFits(v: Word)
    ensures |Minimal(v)| <= 32 && v < Pow256(32)
  {
    WordPower();
    MinimalLength(v, 32);
  }
}
