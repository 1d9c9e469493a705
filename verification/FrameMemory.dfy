/** The byte-addressed memory of one call frame. */
module FrameMemory {
  import opened Bytes
  import opened Gas

  // ---------------------------------------------------------------------------------------------
  // Memory as a value
  // ---------------------------------------------------------------------------------------------

  /** Grows to exactly the end of the access, never rounded up to a word; an empty access grows nothing. */
  function Expand(data: seq<Byte>, offset: nat, size: nat): (r: seq<Byte>)
    ensures data <= r
    ensures size > 0 ==> offset + size <= |r|
  {
    if size == 0 || offset + size <= |data| then data else data + Zeros(offset + size - |data|)
  }

  function ExpansionCost(data: seq<Byte>, offset: nat, size: nat): nat {
    if size == 0 then 0 else MemoryExpansionCost(WordsForSize(|data|), WordsForSize(offset + size))
  }

  function Read(data: seq<Byte>, offset: nat, size: nat): (r: seq<Byte>)
    ensures |r| == size
  {
    if size == 0 then [] else Expand(data, offset, size)[offset..offset + size]
  }

  function Write(data: seq<Byte>, offset: nat, raw: seq<Byte>): (r: seq<Byte>)
    ensures |r| == |Expand(data, offset, |raw|)|
  {
    if raw == [] then data
    else
      var grown := Expand(data, offset, |raw|);
      grown[..offset] + raw + grown[offset + |raw|..]
  }

  // ---------------------------------------------------------------------------------------------
  // The infinite zero-filled byte map that memory stands for
  // ---------------------------------------------------------------------------------------------

  /** The byte at address `i` of the infinite map. */
  function Lookup(data: seq<Byte>, i: nat): Byte {
    if i < |data| then data[i] else 0
  }

  lemma ExpandKeepsBytes(data: seq<Byte>, offset: nat, size: nat, i: nat)
    ensures Lookup(Expand(data, offset, size), i) == Lookup(data, i)
  {
  }

  lemma ReadIsLookup(data: seq<Byte>, offset: nat, size: nat, i: nat)
    requires i < size
    ensures Read(data, offset, size)[i] == Lookup(data, offset + i)
  {
    ExpandKeepsBytes(data, offset, size, offset + i);
  }

  /** A write changes exactly the addressed bytes of the infinite map. */
  lemma WriteIsUpdate(data: seq<Byte>, offset: nat, raw: seq<Byte>, i: nat)
    ensures Lookup(Write(data, offset, raw), i)
         == if offset <= i < offset + |raw| then raw[i - offset] else Lookup(data, i)
  {
    if raw != [] {
      ExpandKeepsBytes(data, offset, |raw|, i);
    }
  }

  /** Reading back what was just written. */
  lemma ReadAfterWrite(data: seq<Byte>, offset: nat, raw: seq<Byte>)
    ensures Read(Write(data, offset, raw), offset, |raw|) == raw
  {
    forall i | 0 <= i < |raw|
      ensures Read(Write(data, offset, raw), offset, |raw|)[i] == raw[i]
    {
      ReadIsLookup(Write(data, offset, raw), offset, |raw|, i);
      WriteIsUpdate(data, offset, raw, offset + i);
    }
  }

  /** Charging the expansion cost and expanding keeps gas plus total memory price constant. */
  lemma ExpansionIsPaid(data: seq<Byte>, offset: nat, size: nat)
    ensures MemoryCost(WordsForSize(|Expand(data, offset, size)|))
         == MemoryCost(WordsForSize(|data|)) + ExpansionCost(data, offset, size)
  {
    if size > 0 {
      var end := offset + size;
      if end <= |data| {
        assert WordsForSize(end) <= WordsForSize(|data|);
      } else {
        assert WordsForSize(|data|) <= WordsForSize(end);
      }
    }
  }

  // ---------------------------------------------------------------------------------------------
  // The growing buffer
  // ---------------------------------------------------------------------------------------------

  class Memory {
    var data: seq<Byte>

    constructor ()
      ensures data == []
    {
      data := [];
    }

    method ExpandForAccess(offset: nat, size: nat)
      modifies this
      ensures data == Expand(old(data), offset, size)
    {
      if size == 0 {
        return;
      }
      var end := offset + size;
      if end > |data| {
        data := data + Zeros(end - |data|);
      }
    }

    method ReadBytes(offset: nat, size: nat) returns (r: seq<Byte>)
      modifies this
      ensures r == Read(old(data), offset, size)
      ensures data == Expand(old(data), offset, size)
    {
      ExpandForAccess(offset, size);
      if size == 0 {
        return [];
      }
      return data[offset..offset + size];
    }

    method WriteBytes(offset: nat, raw: seq<Byte>)
      modifies this
      ensures data == Write(old(data), offset, raw)
    {
      ExpandForAccess(offset, |raw|);
      if raw != [] {
        data := data[..offset] + raw + data[offset + |raw|..];
      }
    }
  }
}
