/** The trie object: entries that are updated in place, and a commit that rebuilds the store of nodes. */
module TrieStore {
  import opened Bytes
  import opened Rlp
  import opened Trie

  type Entries = map<seq<Byte>, seq<Byte>>
  type Store = map<Digest, seq<Byte>>

  /** `items` lists every entry once, under the nibbles of its transformed key, in the order `keys`. */
  ghost predicate Lists(items: seq<Entry>, keys: seq<seq<Byte>>, entries: Entries, transform: seq<Byte> -> seq<Byte>) {
    && |items| == |keys|
    && (forall i, j :: 0 <= i < j < |keys| ==> keys[i] != keys[j])
    && (forall key :: key in entries <==> key in keys)
    && forall i :: 0 <= i < |keys| ==>
         keys[i] in entries && items[i] == Entry(Nibbles(transform(keys[i])), entries[keys[i]])
  }

  predicate SmallEntries(entries: Entries, transform: seq<Byte> -> seq<Byte>) {
    forall key :: key in entries ==> 2 * |transform(key)| < MAX_SIZE && |entries[key]| < MAX_SIZE
  }

  /** From `before` to `after`, exactly some of `strings` were filed under their hashes, all of them at least once. */
  ghost predicate Stored(k: Hash, before: Store, after: Store, strings: set<seq<Byte>>) {
    && (forall d :: d in before ==> d in after)
    && (forall s :: s in strings ==> k(s) in after)
    && (forall d :: d in after ==>
          || (d in before && after[d] == before[d])
          || (after[d] in strings && k(after[d]) == d))
  }

  lemma {:induction false} StoredTrans(
    k: Hash, s0: Store, s1: Store, s2: Store, first: set<seq<Byte>>, second: set<seq<Byte>>)
    requires Stored(k, s0, s1, first) && Stored(k, s1, s2, second)
    ensures Stored(k, s0, s2, first + second)
  {
  }

  /** Starting from nothing, every hashed node can be fetched back under its digest. */
  lemma {:induction false} FiledResolves(k: Hash, after: Store, strings: set<seq<Byte>>, s: seq<Byte>)
    requires Stored(k, map[], after, strings) && NoCollision(k, strings) && s in strings
    ensures k(s) in after && after[k(s)] == s
  {
    assert after[k(s)] in strings && k(after[k(s)]) == k(s);
  }

  /** Different keys whose transforms do not collide give different paths, so the commitment binds the whole map. */
  lemma {:induction false} ListsCommittable(items: seq<Entry>, keys: seq<seq<Byte>>, entries: Entries, t: seq<Byte> -> seq<Byte>)
    requires Lists(items, keys, entries, t) && SmallEntries(entries, t)
    requires forall a, b :: a in entries && b in entries && t(a) == t(b) ==> a == b
    ensures Small(items) && Distinct(items)
    ensures (forall key :: key in entries ==> entries[key] != []) ==> NothingHidden(items)
  {
    forall i, j | 0 <= i < j < |items|
      ensures items[i].path != items[j].path
    {
      if items[i].path == items[j].path {
        NibblesInjective(t(keys[i]), t(keys[j]));
      }
    }
  }

  /** Two maps with the same root are equal, and equal maps have the same root whatever order they were listed in. */
  lemma {:induction false} CommitmentBinds(
    k: Hash, t: seq<Byte> -> seq<Byte>, e1: Entries, keys1: seq<seq<Byte>>, items1: seq<Entry>,
    e2: Entries, keys2: seq<seq<Byte>>, items2: seq<Entry>)
    requires Lists(items1, keys1, e1, t) && Lists(items2, keys2, e2, t) && SmallEntries(e1, t) && SmallEntries(e2, t)
    requires forall a, b :: a in e1.Keys + e2.Keys && b in e1.Keys + e2.Keys && t(a) == t(b) ==> a == b
    requires forall key :: key in e1 ==> e1[key] != []
    requires forall key :: key in e2 ==> e2[key] != []
    requires Small(items1) && Small(items2) && NoCollision(k, RootHashed(k, items1) + RootHashed(k, items2))
    ensures Root(k, items1) == Root(k, items2) <==> e1 == e2
  {
    hide RootHashed, Root, NoCollision;
    ListsCommittable(items1, keys1, e1, t);
    ListsCommittable(items2, keys2, e2, t);
    RootBinds(k, items1, items2);
    SameItemsSameMap(t, e1, keys1, items1, e2, keys2, items2);
  }

  lemma {:induction false} SameItemsSameMap(
    t: seq<Byte> -> seq<Byte>, e1: Entries, keys1: seq<seq<Byte>>, items1: seq<Entry>,
    e2: Entries, keys2: seq<seq<Byte>>, items2: seq<Entry>)
    requires Lists(items1, keys1, e1, t) && Lists(items2, keys2, e2, t)
    requires forall a, b :: a in e1.Keys + e2.Keys && b in e1.Keys + e2.Keys && t(a) == t(b) ==> a == b
    ensures SameEntries(items1, items2) <==> e1 == e2
  {
    if SameEntries(items1, items2) {
      ItemsWithin(t, e1, keys1, items1, e2, keys2, items2);
      ItemsWithin(t, e2, keys2, items2, e1, keys1, items1);
    }
    if e1 == e2 {
      MapWithin(t, e1, keys1, items1, keys2, items2);
      MapWithin(t, e1, keys2, items2, keys1, items1);
    }
  }

  lemma {:induction false} ItemsWithin(
    t: seq<Byte> -> seq<Byte>, e1: Entries, keys1: seq<seq<Byte>>, items1: seq<Entry>,
    e2: Entries, keys2: seq<seq<Byte>>, items2: seq<Entry>)
    requires Lists(items1, keys1, e1, t) && Lists(items2, keys2, e2, t)
    requires forall a, b :: a in e1.Keys + e2.Keys && b in e1.Keys + e2.Keys && t(a) == t(b) ==> a == b
    requires forall e :: e in items1 ==> e in items2
    ensures forall key :: key in e1 ==> key in e2 && e2[key] == e1[key]
  {
    forall key | key in e1
      ensures key in e2 && e2[key] == e1[key]
    {
      var i :| 0 <= i < |keys1| && keys1[i] == key;
      assert items1[i] in items2;
      var j :| 0 <= j < |items2| && items2[j] == items1[i];
      NibblesInjective(t(key), t(keys2[j]));
    }
  }

  lemma {:induction false} MapWithin(
    t: seq<Byte> -> seq<Byte>, entries: Entries, keys1: seq<seq<Byte>>, items1: seq<Entry>, keys2: seq<seq<Byte>>,
    items2: seq<Entry>)
    requires Lists(items1, keys1, entries, t) && Lists(items2, keys2, entries, t)
    ensures forall e :: e in items1 ==> e in items2
  {
    forall e | e in items1
      ensures e in items2
    {
      var i :| 0 <= i < |items1| && items1[i] == e;
      assert keys1[i] in keys2;
      var j :| 0 <= j < |keys2| && keys2[j] == keys1[i];
      assert items2[j] == e;
    }
  }

  /** The scan for the longest common prefix: the shortest path bounds it. */
  method LongestCommonPrefix(items: seq<Entry>) returns (n: nat)
    ensures n == if items == [] then 0 else Lcp(items)
  {
    if items == [] {
      return 0;
    }
    var limit := |items[0].path|;
    for i := 0 to |items|
      invariant limit <= |items[0].path| && forall j :: 0 <= j < i ==> limit <= |items[j].path|
      invariant exists j :: 0 <= j < |items| && limit == |items[j].path|
    {
      if |items[i].path| < limit {
        limit := |items[i].path|;
      }
    }
    n := 0;
    while n < limit
      invariant n <= limit && LcpFrom(items, n) == Lcp(items)
    {
      var same := AllHave(items, n, items[0].path[n]);
      if !same {
        return;
      }
      n := n + 1;
    }
    var j :| 0 <= j < |items| && limit == |items[j].path|;
    assert !AgreeAt(items, n);
  }

  method AllHave(items: seq<Entry>, offset: nat, nibble: Nibble) returns (same: bool)
    requires items != [] && offset < |items[0].path| && items[0].path[offset] == nibble
    requires forall i :: 0 <= i < |items| ==> offset < |items[i].path|
    ensures same <==> AgreeAt(items, offset)
  {
    same := true;
    for i := 0 to |items|
      invariant same <==> forall j :: 0 <= j < i ==> items[j].path[offset] == nibble
    {
      if items[i].path[offset] != nibble {
        same := false;
      }
    }
  }

  /** The strings hashed below the slots before `n`. */
  ghost function HashedBefore(k: Hash, items: seq<Entry>, n: nat): set<seq<Byte>>
    requires Small(items)
  {
    set m: Nibble, s | m in AllNibbles() && m < n && s in ChildHashed(k, items, m) :: s
  }

  lemma {:induction false} HashedBeforeStep(k: Hash, items: seq<Entry>, n: Nibble)
    requires Small(items)
    ensures HashedBefore(k, items, n + 1) == HashedBefore(k, items, n) + ChildHashed(k, items, n)
  {
    hide ChildHashed;
    assert n in AllNibbles();
  }

  lemma {:induction false} HashedBranch(k: Hash, items: seq<Entry>)
    requires Small(items) && |items| >= 2 && Lcp(items) == 0
    ensures Hashed(k, items) == HashedBefore(k, items, 16)
  {
    hide ChildHashed, Lcp;
  }

  class MerklePatriciaTrie {
    const k: Hash
    const transform: seq<Byte> -> seq<Byte>
    var entries: Entries
    var store: Store
    var root: Digest

    constructor (k: Hash, transform: seq<Byte> -> seq<Byte>)
      ensures this.k == k && this.transform == transform && entries == map[] && store == map[]
      ensures root == Root(k, [])
    {
      this.k := k;
      this.transform := transform;
      entries := map[];
      store := map[];
      root := k(Encode(Str([])));
    }

    method Update(key: seq<Byte>, value: seq<Byte>)
      modifies this
      ensures entries == old(entries)[key := value] && store == old(store) && root == old(root)
    {
      entries := entries[key := value];
    }

    method Delete(key: seq<Byte>)
      modifies this
      ensures entries == old(entries) - {key} && store == old(store) && root == old(root)
    {
      entries := entries - {key};
    }

    /** Files a node of digest length or more and answers its digest; a shorter node is its own reference. */
    method StoreReference(encoded: seq<Byte>) returns (reference: seq<Byte>)
      modifies this`store
      ensures reference == Reference(k, encoded)
      ensures Stored(k, old(store), store, HashedIn(encoded))
    {
      if |encoded| < 32 {
        return encoded;
      }
      var digest := k(encoded);
      store := store[digest := encoded];
      return digest;
    }

    /** Builds the node bottom-up, filing every node that is referred to by digest. */
    method BuildNode(items: seq<Entry>) returns (encoded: seq<Byte>)
      requires Small(items)
      modifies this`store
      ensures encoded == Build(k, items)
      ensures Stored(k, old(store), store, Hashed(k, items))
      decreases Weight(items), 2
    {
      hide Slots, Lcp, Compact;
      BuildIsNode(k, items);
      if items == [] {
        return Encode(Str([]));
      }
      if |items| == 1 {
        PairFits(Compact(items[0].path, true), items[0].value);
        return Encode(List([Str(Compact(items[0].path, true)), Str(items[0].value)]));
      }
      var n := LongestCommonPrefix(items);
      if n != 0 {
        encoded := BuildExtension(items, n);
      } else {
        encoded := BuildBranch(items);
      }
    }

    method BuildExtension(items: seq<Entry>, n: nat) returns (encoded: seq<Byte>)
      requires Small(items) && |items| >= 2 && n == Lcp(items) && n > 0
      modifies this`store
      ensures encoded == Build(k, items)
      ensures Stored(k, old(store), store, Hashed(k, items))
      decreases Weight(items), 1
    {
      hide Slots, Lcp, Compact, Stored;
      LcpShares(items);
      DropWeight(items, n);
      BuildIsNode(k, items);
      var rest := Drop(items, n);
      var child := BuildNode(rest);
      label built:
      var reference := StoreReference(child);
      StoredTrans(k, old(store), old@built(store), store, Hashed(k, rest), HashedIn(child));
      assert Hashed(k, items) == Hashed(k, rest) + HashedIn(child);
      var compact := Compact(items[0].path[..n], false);
      PairFits(compact, reference);
      encoded := Encode(List([Str(compact), Str(reference)]));
    }

    method BuildBranch(items: seq<Entry>) returns (encoded: seq<Byte>)
      requires Small(items) && |items| >= 2 && Lcp(items) == 0
      modifies this`store
      ensures encoded == Build(k, items)
      ensures Stored(k, old(store), store, Hashed(k, items))
      decreases Weight(items), 1
    {
      hide Slots, Lcp, Stored, Slot, ChildHashed, Child, Terminal;
      BuildIsNode(k, items);
      var branch: seq<seq<Byte>> := seq(17, _ => []);
      NothingStored(k, store);
      assert HashedBefore(k, items, 0) == {};
      for n := 0 to 16
        invariant |branch| == 17 && branch[16] == []
        invariant forall m :: 0 <= m < n ==> branch[m] == Slot(k, items, m)
        invariant forall m :: n <= m < 17 ==> branch[m] == []
        invariant Stored(k, old(store), store, HashedBefore(k, items, n))
      {
        label before:
        var slot := BuildSlot(items, n);
        HashedBeforeStep(k, items, n);
        StoredTrans(k, old(store), old@before(store), store, HashedBefore(k, items, n), ChildHashed(k, items, n));
        branch := branch[n := slot];
      }
      HashedBranch(k, items);
      branch := branch[16 := Terminal(items)];
      BranchIsSlots(k, items, branch);
      encoded := Encode(List(seq(17, i requires 0 <= i < 17 => Str(branch[i]))));
    }

    method BuildSlot(items: seq<Entry>, n: Nibble) returns (slot: seq<Byte>)
      requires Small(items)
      modifies this`store
      ensures slot == Slot(k, items, n)
      ensures Stored(k, old(store), store, ChildHashed(k, items, n))
      decreases Weight(items), 0
    {
      hide Stored, Child;
      var child := Child(items, n);
      ChildWeight(items, n);
      ChildSmall(items, n);
      if child == [] {
        NothingStored(k, store);
        return [];
      }
      var encoded := BuildNode(child);
      label built:
      slot := StoreReference(encoded);
      StoredTrans(k, old(store), old@built(store), store, Hashed(k, child), HashedIn(encoded));
      assert ChildHashed(k, items, n) == Hashed(k, child) + HashedIn(encoded);
    }

    /** Rebuilds the store from the entries and answers the root. */
    method Commit() returns (r: Digest, ghost keys: seq<seq<Byte>>, ghost items: seq<Entry>)
      requires SmallEntries(entries, transform)
      modifies this
      ensures entries == old(entries) && Lists(items, keys, entries, transform) && Small(items)
      ensures r == root == Root(k, items)
      ensures entries == map[] ==> store == map[]
      ensures entries != map[] ==> Stored(k, map[], store, RootHashed(k, items))
    {
      hide Stored, Hashed, Build, Nibbles, NoCollision;
      store := map[];
      var order, list := ListEntries();
      keys, items := order, list;
      SmallList(items, keys, entries, transform);
      BuildIsNode(k, items);
      if entries == map[] {
        NothingListed(items, keys, entries, transform);
        root := k(Encode(Str([])));
        return root, keys, items;
      }
      var encoded := BuildNode(list);
      label built:
      r := k(encoded);
      store := store[r := encoded];
      OneStored(k, old@built(store), encoded);
      StoredTrans(k, map[], old@built(store), store, Hashed(k, items), {encoded});
      root := r;
    }

    /** The entries under the nibbles of their transformed keys; the order is immaterial. */
    method ListEntries() returns (keys: seq<seq<Byte>>, items: seq<Entry>)
      ensures Lists(items, keys, entries, transform)
    {
      hide Nibbles;
      keys, items := [], [];
      var todo := entries.Keys;
      while todo != {}
        invariant todo <= entries.Keys && |items| == |keys|
        invariant forall i, j :: 0 <= i < j < |keys| ==> keys[i] != keys[j]
        invariant forall key :: key in keys <==> key in entries.Keys - todo
        invariant forall i :: 0 <= i < |keys| ==>
          keys[i] in entries && items[i] == Entry(Nibbles(transform(keys[i])), entries[keys[i]])
        decreases todo
      {
        var key :| key in todo;
        assert key !in keys;
        todo := todo - {key};
        keys := keys + [key];
        items := items + [Entry(Nibbles(transform(key)), entries[key])];
      }
    }
  }

  lemma {:induction false} NothingStored(k: Hash, store: Store)
    ensures Stored(k, store, store, {})
  {
  }

  lemma {:induction false} OneStored(k: Hash, store: Store, s: seq<Byte>)
    ensures Stored(k, store, store[k(s) := s], {s})
  {
  }

  lemma {:induction false} NothingListed(
    items: seq<Entry>, keys: seq<seq<Byte>>, entries: Entries, t: seq<Byte> -> seq<Byte>)
    requires Lists(items, keys, entries, t)
    ensures items == [] <==> entries == map[]
  {
    if items != [] {
      assert keys[0] in entries;
    } else {
      assert forall key :: key !in entries;
    }
  }

  lemma {:induction false} SmallList(
    items: seq<Entry>, keys: seq<seq<Byte>>, entries: Entries, t: seq<Byte> -> seq<Byte>)
    requires Lists(items, keys, entries, t) && SmallEntries(entries, t)
    ensures Small(items)
  {
  }

  /** A branch filled slot by slot is the branch node. */
  lemma {:induction false} BranchIsSlots(k: Hash, items: seq<Entry>, branch: seq<seq<Byte>>)
    requires Small(items) && |items| >= 2 && Lcp(items) == 0 && |branch| == 17
    requires forall m :: 0 <= m < 16 ==> branch[m] == Slot(k, items, m)
    requires branch[16] == Terminal(items)
    ensures Node(k, items) == List(seq(17, i requires 0 <= i < 17 => Str(branch[i])))
  {
    hide Slots, Lcp, Slot, Terminal;
    var slots := Slots(k, items, 0);
    forall i | 0 <= i < 17
      ensures slots[i] == Str(branch[i])
    {
      SlotsAt(k, items, 0, i);
    }
    assert slots == seq(17, i requires 0 <= i < 17 => Str(branch[i]));
  }
}
