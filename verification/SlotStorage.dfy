/** Contract storage with original and current values per slot, and the net gas metering of writes to it. */
module SlotStorage {
  import opened Bytes
  import opened Gas
  import opened Sums

  datatype Slot = Slot(original: Word, current: Word)

  type Slots = map<Word, Slot>

  function SlotAt(slots: Slots, key: Word): Slot {
    if key in slots then slots[key] else Slot(0, 0)
  }

  /** The charge for writing `value` over `slot`, and the change of the refund counter. */
  function SstoreCost(slot: Slot, value: Word): (nat, int) {
    var Slot(original, current) := slot;
    if value == current then (GAS_SLOAD, 0)
    else if original == current then
      if original == 0 then (GAS_SSTORE_SET, 0)
      else if value == 0 then (GAS_SSTORE_RESET, GAS_SSTORE_CLEAR_REFUND)
      else (GAS_SSTORE_RESET, 0)
    else
      var undoClear: int := if original != 0 && current == 0 then -GAS_SSTORE_CLEAR_REFUND else 0;
      var clear: int := if original != 0 && value == 0 then GAS_SSTORE_CLEAR_REFUND else 0;
      var restore: int :=
        if original != value then 0
        else if original == 0 then GAS_SSTORE_SET - GAS_SLOAD
        else GAS_SSTORE_RESET - GAS_SLOAD;
      (GAS_SLOAD, undoClear + clear + restore)
  }

  function WriteSlot(slots: Slots, key: Word, value: Word): Slots {
    slots[key := SlotAt(slots, key).(current := value)]
  }

  /** End of a transaction: zero slots disappear and every current value becomes the original one. */
  function CommitSlots(slots: Slots): Slots {
    map k | k in slots && slots[k].current != 0 :: Slot(slots[k].current, slots[k].current)
  }

  // ---------------------------------------------------------------------------------------------
  // Storage as the source keeps it
  // ---------------------------------------------------------------------------------------------

  class Storage {
    var slots: Slots
    ghost const owner: Address  // tells the storages of different accounts apart

    constructor (slots: Slots, ghost owner: Address)
      ensures this.slots == slots && this.owner == owner
    {
      this.slots := slots;
      this.owner := owner;
    }

    method EstimateSstoreCost(key: Word, value: Word) returns (cost: nat, refund: int)
      ensures (cost, refund) == SstoreCost(SlotAt(slots, key), value)
    {
      var original, current := 0, 0;
      if key in slots {
        current := slots[key].current;
        original := slots[key].original;
      }
      if value == current {
        return GAS_SLOAD, 0;
      }
      if original == current {
        if original == 0 {
          return GAS_SSTORE_SET, 0;
        }
        if value == 0 {
          return GAS_SSTORE_RESET, GAS_SSTORE_CLEAR_REFUND;
        }
        return GAS_SSTORE_RESET, 0;
      }
      refund := 0;
      if original != 0 {
        if current == 0 {
          refund := refund - GAS_SSTORE_CLEAR_REFUND;
        }
        if value == 0 {
          refund := refund + GAS_SSTORE_CLEAR_REFUND;
        }
      }
      if original == value {
        if original == 0 {
          refund := refund + (GAS_SSTORE_SET - GAS_SLOAD);
        } else {
          refund := refund + (GAS_SSTORE_RESET - GAS_SLOAD);
        }
      }
      return GAS_SLOAD, refund;
    }

    method Set(key: Word, value: Word) returns (cost: nat, refund: int)
      modifies this
      ensures slots == WriteSlot(old(slots), key, value)
      ensures (cost, refund) == SstoreCost(SlotAt(old(slots), key), value)
    {
      cost, refund := EstimateSstoreCost(key, value);
      if key !in slots {
        slots := slots[key := Slot(0, 0)];
      }
      slots := slots[key := slots[key].(current := value)];
    }

    method Commit()
      modifies this
      ensures slots == CommitSlots(old(slots))
    {
      var committed: Slots := map[];
      var todo := slots.Keys;
      while todo != {}
        invariant todo <= slots.Keys && slots == old(slots)
        invariant committed == map k | k in slots && k !in todo && slots[k].current != 0
                                   :: Slot(slots[k].current, slots[k].current)
        decreases todo
      {
        var key :| key in todo;
        todo := todo - {key};
        if slots[key].current != 0 {
          committed := committed[key := Slot(slots[key].current, slots[key].current)];
        }
      }
      slots := committed;
    }

    method Clone() returns (copy: Storage)
      ensures fresh(copy) && copy.slots == slots && copy.owner == owner
    {
      copy := new Storage(slots, owner);
    }
  }

  // ---------------------------------------------------------------------------------------------
  // Net metering over any sequence of writes
  // ---------------------------------------------------------------------------------------------

  /** What a transaction finally pays for a slot, beyond 100 per write, given only its first and last value. */
  function NetPrice(slot: Slot): (p: int)
    ensures p >= 0
  {
    if slot.original == slot.current then 0
    else if slot.original == 0 then 19_900
    else if slot.current == 0 then 100
    else 4_900
  }

  /** The refund that a later write may take back: a slot that was nonzero and is now cleared. */
  function Reclaimable(slot: Slot): (p: int)
    ensures p >= 0
  {
    if slot.original != 0 && slot.current == 0 then GAS_SSTORE_CLEAR_REFUND else 0
  }

  /** One write changes the net price of its slot by exactly what it costs, less the flat 100. */
  lemma WriteNetPrice(slot: Slot, value: Word)
    ensures var (cost, refund) := SstoreCost(slot, value);
      NetPrice(slot.(current := value)) == NetPrice(slot) + cost - refund - GAS_SLOAD
  {
  }

  /** One write never gives back more refund than the slot still holds. */
  lemma WriteReclaimable(slot: Slot, value: Word)
    ensures SstoreCost(slot, value).1 >= Reclaimable(slot.(current := value)) - Reclaimable(slot)
  {
  }

  datatype SlotWrite = SlotWrite(key: Word, value: Word)

  /** Total charge, total refund and final slots of a sequence of writes. */
  function RunWrites(slots: Slots, writes: seq<SlotWrite>): (nat, int, Slots)
    decreases |writes|
  {
    if writes == [] then (0, 0, slots)
    else
      var w := writes[0];
      var (cost, refund) := SstoreCost(SlotAt(slots, w.key), w.value);
      var (costs, refunds, final) := RunWrites(WriteSlot(slots, w.key, w.value), writes[1..]);
      (cost + costs, refund + refunds, final)
  }

  lemma SumSlotsUpdate(slots: Slots, price: Slot -> int, k: Word, s: Slot)
    requires price(Slot(0, 0)) == 0
    ensures Sum(slots[k := s], price) == Sum(slots, price) - price(SlotAt(slots, k)) + price(s)
  {
    SumUpdate(slots, price, k, s);
  }

  lemma {:induction false} RunWritesTotals(slots: Slots, writes: seq<SlotWrite>)
    ensures var (cost, refund, final) := RunWrites(slots, writes);
      && cost - refund == GAS_SLOAD * |writes| + Sum(final, NetPrice) - Sum(slots, NetPrice)
      && refund >= Sum(final, Reclaimable) - Sum(slots, Reclaimable)
    decreases |writes|
  {
    if writes != [] {
      var w := writes[0];
      var slot := SlotAt(slots, w.key);
      WriteNetPrice(slot, w.value);
      WriteReclaimable(slot, w.value);
      SumSlotsUpdate(slots, NetPrice, w.key, slot.(current := w.value));
      SumSlotsUpdate(slots, Reclaimable, w.key, slot.(current := w.value));
      RunWritesTotals(WriteSlot(slots, w.key, w.value), writes[1..]);
    }
  }

  predicate Clean(slots: Slots) {
    forall k :: k in slots ==> slots[k].original == slots[k].current
  }

  /** Writes never change an original value. */
  lemma {:induction false} OriginalsKept(slots: Slots, writes: seq<SlotWrite>, k: Word)
    ensures SlotAt(RunWrites(slots, writes).2, k).original == SlotAt(slots, k).original
    decreases |writes|
  {
    if writes != [] {
      OriginalsKept(WriteSlot(slots, writes[0].key, writes[0].value), writes[1..], k);
    }
  }

  /** Specifications of EIP-2200 and EIP-3529: from clean slots, n writes cost 100 * n plus one price per slot that
      depends only on its original and final value, and the refund counter never ends below zero. */
  lemma NetMetering(slots: Slots, writes: seq<SlotWrite>)
    requires Clean(slots)
    ensures var (cost, refund, final) := RunWrites(slots, writes);
      && cost - refund == GAS_SLOAD * |writes| + Sum(final, NetPrice)
      && refund >= Sum(final, Reclaimable) >= 0
  {
    RunWritesTotals(slots, writes);
    SumZero(slots, NetPrice);
    SumZero(slots, Reclaimable);
    SumNonNegative(RunWrites(slots, writes).2, Reclaimable);
  }

  lemma CommitIsClean(slots: Slots)
    ensures Clean(CommitSlots(slots))
    ensures forall k :: SlotAt(CommitSlots(slots), k).current == SlotAt(slots, k).current
  {
  }
}
