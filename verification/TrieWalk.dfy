/** Going through the stored nodes: every reference leads on, and every path to the value that was put there. */
module TrieWalk {
  import opened Bytes
  import opened Rlp
  import opened Trie
  import opened TrieStore

  // ---------------------------------------------------------------------------------------------
  // Reading a node
  // ---------------------------------------------------------------------------------------------

  ghost predicate Encodes(v: Value, s: seq<Byte>) {
    Fits(v) && Encode(v) == s
  }

  /** The value that a string encodes; there is at most one. */
  ghost function Decoded(s: seq<Byte>): Value {
    if exists v :: Encodes(v, s) then
      var v :| Encodes(v, s);
      v
    else Str([])
  }

  lemma DecodedEncode(v: Value)
    requires Fits(v)
    ensures Decoded(Encode(v)) == v
  {
    hide Encode, Fits;
    var s := Encode(v);
    assert Encodes(v, s);
    EncodeInjective(v, Decoded(s));
  }

  /** The path in hex-prefix form, and whether it belongs to a leaf. */
  datatype Step = Step(path: Path, isLeaf: bool)

  predicate Spells(step: Step, data: seq<Byte>) {
    Compact(step.path, step.isLeaf) == data
  }

  ghost function StepOf(data: seq<Byte>): Step {
    if exists step :: Spells(step, data) then
      var step :| Spells(step, data);
      step
    else Step([], true)
  }

  lemma StepOfCompact(path: Path, isLeaf: bool)
    ensures StepOf(Compact(path, isLeaf)) == Step(path, isLeaf)
  {
    var data := Compact(path, isLeaf);
    assert Spells(Step(path, isLeaf), data);
    var step := StepOf(data);
    assert Spells(step, data);
    CompactInjective(path, step.path, isLeaf, step.isLeaf);
  }

  /** The strings of a node with two or with seventeen items. */
  predicate IsNode(v: Value, size: nat) {
    v.List? && |v.items| == size && forall i :: 0 <= i < size ==> v.items[i].Str?
  }

  // ---------------------------------------------------------------------------------------------
  // References
  // ---------------------------------------------------------------------------------------------

  /** The digests a node refers to: the child of an extension, or the slots of a branch; not the value of a leaf. */
  ghost function ReferencesIn(v: Value): set<seq<Byte>> {
    if IsNode(v, 2) then
      if !StepOf(v.items[0].payload).isLeaf && |v.items[1].payload| == 32 then {v.items[1].payload} else {}
    else if IsNode(v, 17) then
      set i | 0 <= i < 16 && |v.items[i].payload| == 32 :: v.items[i].payload
    else {}
  }

  function Digests(k: Hash, strings: set<seq<Byte>>): set<seq<Byte>> {
    set s | s in strings :: k(s)
  }

  lemma {:induction false} LongReference(k: Hash, s: seq<Byte>)
    requires |Reference(k, s)| == 32
    ensures Reference(k, s) in Digests(k, HashedIn(s))
  {
    assert s in HashedIn(s);
  }

  lemma {:induction false} DigestsMore(k: Hash, a: set<seq<Byte>>, b: set<seq<Byte>>)
    requires a <= b
    ensures Digests(k, a) <= Digests(k, b)
  {
  }

  lemma {:induction false} BranchIsNode(k: Hash, items: seq<Entry>)
    requires Small(items) && |items| >= 2 && Lcp(items) == 0
    ensures IsNode(Node(k, items), 17) && Node(k, items).items[16].payload == Terminal(items)
    ensures forall n: Nibble :: Node(k, items).items[n].payload == Slot(k, items, n)
  {
    hide Slots, Lcp, Slot, Terminal, Node;
    BranchNode(k, items);
    var slots := Slots(k, items, 0);
    forall n | 0 <= n <= 16
      ensures slots[n] == Str(if n == 16 then Terminal(items) else Slot(k, items, n))
    {
      SlotsAt(k, items, 0, n);
    }
  }

  /** A node refers only to nodes hashed below it. */
  lemma {:induction false} NodeRefers(k: Hash, items: seq<Entry>)
    requires Small(items)
    ensures ReferencesIn(Node(k, items)) <= Digests(k, Hashed(k, items))
  {
    hide Slots, Lcp, Compact, Hashed, Node, Build, Spells;
    if |items| <= 1 {
      LeafRefers(k, items);
    } else if Lcp(items) > 0 {
      LcpShares(items);
      ExtensionNode(k, items);
      ExtensionRefers(k, items);
    } else {
      BranchIsNode(k, items);
      hide Slot, Digests;
      forall n: Nibble | |Slot(k, items, n)| == 32
        ensures Slot(k, items, n) in Digests(k, Hashed(k, items))
      {
        SlotRefers(k, items, n);
      }
    }
  }

  lemma {:induction false} LeafRefers(k: Hash, items: seq<Entry>)
    requires Small(items) && |items| <= 1
    ensures ReferencesIn(Node(k, items)) == {}
  {
    hide Compact, Slots, Lcp, Spells;
    if items != [] {
      StepOfCompact(items[0].path, true);
    }
  }

  lemma {:induction false} ExtensionRefers(k: Hash, items: seq<Entry>)
    requires Small(items) && |items| >= 2 && Lcp(items) > 0
    requires forall i :: 0 <= i < |items| ==> Lcp(items) <= |items[i].path|
    ensures ReferencesIn(Node(k, items)) <= Digests(k, Hashed(k, items))
  {
    hide Slots, Lcp, Compact, Hashed, Node, Build, Spells, Reference, Digests, StepOf, HashedIn;
    ExtensionNode(k, items);
    var child := Build(k, Drop(items, Lcp(items)));
    if |Reference(k, child)| == 32 {
      LongReference(k, child);
      DigestsMore(k, HashedIn(child), Hashed(k, items));
    }
  }

  lemma {:induction false} SlotRefers(k: Hash, items: seq<Entry>, n: Nibble)
    requires Small(items) && |items| >= 2 && Lcp(items) == 0 && |Slot(k, items, n)| == 32
    ensures Slot(k, items, n) in Digests(k, Hashed(k, items))
  {
    hide Lcp, Hashed, Build, Digests, Reference, HashedIn, Child;
    var child := Child(items, n);
    ChildSmall(items, n);
    ChildHashedWithin(k, items, n);
    LongReference(k, Build(k, child));
    DigestsMore(k, HashedIn(Build(k, child)), Hashed(k, items));
  }

  lemma {:induction false} DecodedBuild(k: Hash, items: seq<Entry>)
    requires Small(items)
    ensures Decoded(Build(k, items)) == Node(k, items)
  {
    hide Node, Encode, Decoded;
    BuildIsNode(k, items);
    DecodedEncode(Node(k, items));
  }

  /** And so do all the nodes hashed below it. */
  lemma {:induction false} HashedRefer(k: Hash, items: seq<Entry>)
    requires Small(items)
    ensures forall s :: s in Hashed(k, items) ==> ReferencesIn(Decoded(s)) <= Digests(k, Hashed(k, items))
    decreases Weight(items), 1
  {
    hide Lcp, Build, Digests, ReferencesIn, Decoded, Child, ChildHashed, Node, Drop;
    if |items| >= 2 {
      if Lcp(items) > 0 {
        LcpShares(items);
        DropWeight(items, Lcp(items));
        BelowRefer(k, items, Drop(items, Lcp(items)));
      } else {
        forall n: Nibble, s | s in ChildHashed(k, items, n)
          ensures ReferencesIn(Decoded(s)) <= Digests(k, Hashed(k, items))
        {
          ChildRefers(k, items, n, s);
        }
      }
    }
  }

  lemma {:induction false} ChildRefers(k: Hash, items: seq<Entry>, n: Nibble, s: seq<Byte>)
    requires Small(items) && |items| >= 2 && Lcp(items) == 0 && s in ChildHashed(k, items, n)
    ensures ReferencesIn(Decoded(s)) <= Digests(k, Hashed(k, items))
    decreases Weight(items), 0, 1
  {
    hide Lcp, Build, Digests, ReferencesIn, Decoded, Child, Hashed;
    ChildWeight(items, n);
    ChildSmall(items, n);
    ChildHashedWithin(k, items, n);
    BelowRefer(k, items, Child(items, n));
  }

  lemma {:induction false} BelowRefer(k: Hash, items: seq<Entry>, below: seq<Entry>)
    requires Small(items) && Small(below) && Weight(below) < Weight(items)
    requires Hashed(k, below) <= Hashed(k, items)
    ensures forall s :: s in HashedIn(Build(k, below)) + Hashed(k, below) ==>
      ReferencesIn(Decoded(s)) <= Digests(k, Hashed(k, items))
    decreases Weight(items), 0, 0
  {
    hide Build, Digests, ReferencesIn, Decoded, Hashed;
    HashedRefer(k, below);
    NodeRefers(k, below);
    DecodedBuild(k, below);
    DigestsMore(k, Hashed(k, below), Hashed(k, items));
  }

  /** After a commit, every digest that occurs as a reference in a stored node is in the store, and leads to a node that was
      hashed to it: going from node to node never leaves the store. */
  lemma {:induction false} ReferencesResolve(k: Hash, items: seq<Entry>, store: Store, s: seq<Byte>, r: seq<Byte>)
    requires Small(items) && Stored(k, map[], store, RootHashed(k, items))
    requires s in RootHashed(k, items) && r in ReferencesIn(Decoded(s))
    ensures |r| == 32 && r in store && k(store[r]) == r && store[r] in RootHashed(k, items)
  {
    hide Build, ReferencesIn, Decoded, Hashed;
    HashedRefer(k, items);
    NodeRefers(k, items);
    DecodedBuild(k, items);
    assert r in Digests(k, Hashed(k, items));
  }

  // ---------------------------------------------------------------------------------------------
  // Walking along a path
  // ---------------------------------------------------------------------------------------------

  /** The node behind a reference: the stored one for a digest, the reference itself if it is shorter. */
  function NodeAt(store: Store, reference: seq<Byte>): seq<Byte> {
    if |reference| != 32 then reference else if reference in store then store[reference] else []
  }

  /** The value found by following a path from a node; nothing is found if the path ends anywhere else than at a value. */
  ghost function Follow(store: Store, s: seq<Byte>, p: Path): seq<Byte>
    decreases |p|
  {
    var v := Decoded(s);
    if IsNode(v, 2) then
      var step, last := StepOf(v.items[0].payload), v.items[1].payload;
      if step.isLeaf then if p == step.path then last else []
      else if 0 < |step.path| <= |p| && p[..|step.path|] == step.path then
        Follow(store, NodeAt(store, last), p[|step.path|..])
      else []
    else if IsNode(v, 17) then
      if p == [] then v.items[16].payload else Follow(store, NodeAt(store, v.items[p[0]].payload), p[1..])
    else []
  }

  /** What the entries have at a path. */
  ghost function ValueAt(items: seq<Entry>, p: Path): seq<Byte> {
    if e :| e in items && e.path == p then e.value else []
  }

  ghost predicate Resolves(k: Hash, store: Store, strings: set<seq<Byte>>) {
    forall s :: s in strings ==> k(s) in store && store[k(s)] == s
  }

  lemma {:induction false} ReferenceLeads(k: Hash, store: Store, s: seq<Byte>)
    requires Resolves(k, store, HashedIn(s))
    ensures NodeAt(store, Reference(k, s)) == s
  {
    if |s| >= 32 {
      assert s in HashedIn(s);
    }
  }

  lemma {:induction false} ResolvesFewer(k: Hash, store: Store, some: set<seq<Byte>>, all: set<seq<Byte>>)
    requires Resolves(k, store, all) && some <= all
    ensures Resolves(k, store, some)
  {
  }

  lemma {:induction false} ValueOf(items: seq<Entry>, e: Entry)
    requires Distinct(items) && e in items
    ensures ValueAt(items, e.path) == e.value
  {
  }

  lemma {:induction false} NoValue(items: seq<Entry>, p: Path)
    requires forall e :: e in items ==> e.path != p
    ensures ValueAt(items, p) == []
  {
  }

  /** Nothing is found from an empty slot. */
  lemma NothingFrom(store: Store, p: Path)
    ensures Follow(store, [], p) == []
  {
    hide Encode;
    if v :| Encodes(v, []) {
      EncodeIsSome(v);
    }
  }

  lemma EncodeIsSome(v: Value)
    requires Fits(v)
    ensures Encode(v) != []
  {
  }

  /** For every path: following it from the node of some entries finds what the entries have there. */
  lemma {:induction false} FollowFinds(k: Hash, items: seq<Entry>, store: Store, p: Path)
    requires Small(items) && Distinct(items) && Resolves(k, store, Hashed(k, items))
    ensures Follow(store, Build(k, items), p) == ValueAt(items, p)
    decreases Weight(items), 1
  {
    hide Slots, Lcp, Compact, Hashed, Build, Node, Distinct, ValueAt, Follow;
    if |items| <= 1 {
      LeafFound(k, items, store, p);
    } else if Lcp(items) > 0 {
      ExtensionFound(k, items, store, p);
    } else {
      BranchFound(k, items, store, p);
    }
  }

  lemma {:induction false} LeafFound(k: Hash, items: seq<Entry>, store: Store, p: Path)
    requires Small(items) && Distinct(items) && |items| <= 1
    ensures Follow(store, Build(k, items), p) == ValueAt(items, p)
  {
    hide Slots, Lcp, Compact, Build, Spells, StepOf, Decoded, Encode;
    DecodedBuild(k, items);
    if items != [] {
      StepOfCompact(items[0].path, true);
      assert items[0] in items && forall e :: e in items ==> e == items[0];
    }
  }

  lemma {:induction false} ExtensionFound(k: Hash, items: seq<Entry>, store: Store, p: Path)
    requires Small(items) && Distinct(items) && Resolves(k, store, Hashed(k, items))
    requires |items| >= 2 && Lcp(items) > 0
    ensures Follow(store, Build(k, items), p) == ValueAt(items, p)
    decreases Weight(items), 0
  {
    hide Slots, Lcp, Compact, Hashed, Build, Node, Distinct, ValueAt, StepOf, Decoded, Resolves, Reference, HashedIn;
    LcpShares(items);
    ExtensionNode(k, items);
    DecodedBuild(k, items);
    var n := Lcp(items);
    var prefix, rest := items[0].path[..n], Drop(items, n);
    StepOfCompact(prefix, false);
    if n <= |p| && p[..n] == prefix {
      DropWeight(items, n);
      DropDistinct(items, n);
      ResolvesFewer(k, store, Hashed(k, rest), Hashed(k, items));
      ResolvesFewer(k, store, HashedIn(Build(k, rest)), Hashed(k, items));
      ReferenceLeads(k, store, Build(k, rest));
      FollowFinds(k, rest, store, p[n..]);
      ValueInDrop(items, n, prefix, p);
    } else {
      assert forall e :: e in items ==> e.path != p;
      NoValue(items, p);
    }
  }

  lemma {:induction false} ValueInDrop(items: seq<Entry>, n: nat, prefix: Path, p: Path)
    requires |prefix| == n && forall i :: 0 <= i < |items| ==> n <= |items[i].path| && items[i].path[..n] == prefix
    requires Distinct(items) && Distinct(Drop(items, n)) && n <= |p| && p[..n] == prefix
    ensures ValueAt(Drop(items, n), p[n..]) == ValueAt(items, p)
  {
    hide ValueAt, Distinct;
    var rest := Drop(items, n);
    if e :| e in items && e.path == p {
      DropMember(items, n, prefix, e);
      ValueOf(items, e);
      ValueOf(rest, Entry(e.path[n..], e.value));
    } else {
      forall f | f in rest
        ensures f.path != p[n..]
      {
        var e := Entry(prefix + f.path, f.value);
        assert e.path[n..] == f.path && e.path[..n] == prefix && p == prefix + p[n..];
        DropMember(items, n, prefix, e);
      }
      NoValue(items, p);
      NoValue(rest, p[n..]);
    }
  }

  lemma {:induction false} BranchFound(k: Hash, items: seq<Entry>, store: Store, p: Path)
    requires Small(items) && Distinct(items) && Resolves(k, store, Hashed(k, items))
    requires |items| >= 2 && Lcp(items) == 0
    ensures Follow(store, Build(k, items), p) == ValueAt(items, p)
    decreases Weight(items), 0, 1
  {
    hide Slots, Lcp, Hashed, Build, Node, Distinct, ValueAt, Decoded, Resolves, Slot, Terminal, Child;
    BranchIsNode(k, items);
    DecodedBuild(k, items);
    if p == [] {
      EndFound(items);
    } else {
      ChildFound(k, items, store, p);
    }
  }

  lemma {:induction false} EndFound(items: seq<Entry>)
    requires Distinct(items)
    ensures Terminal(items) == ValueAt(items, [])
  {
    hide ValueAt, Distinct, Terminal;
    if e :| e in items && e.path == [] {
      TerminalValue(items, e);
      ValueOf(items, e);
    } else {
      NoTerminal(items);
      NoValue(items, []);
    }
  }

  lemma {:induction false} ChildFound(k: Hash, items: seq<Entry>, store: Store, p: Path)
    requires Small(items) && Distinct(items) && Resolves(k, store, Hashed(k, items))
    requires |items| >= 2 && Lcp(items) == 0 && p != []
    ensures Follow(store, NodeAt(store, Slot(k, items, p[0])), p[1..]) == ValueAt(items, p)
    decreases Weight(items), 0, 0
  {
    hide Lcp, Hashed, Build, Distinct, ValueAt, Follow, Resolves, Reference, HashedIn, Child;
    var n := p[0];
    var child := Child(items, n);
    ChildDistinct(items, n);
    ValueInChild(items, p);
    if child == [] {
      NothingFrom(store, p[1..]);
      NoValue(child, p[1..]);
    } else {
      ChildWeight(items, n);
      ChildSmall(items, n);
      ChildHashedWithin(k, items, n);
      ResolvesFewer(k, store, Hashed(k, child), Hashed(k, items));
      ResolvesFewer(k, store, HashedIn(Build(k, child)), Hashed(k, items));
      ReferenceLeads(k, store, Build(k, child));
      FollowFinds(k, child, store, p[1..]);
    }
  }

  lemma {:induction false} ValueInChild(items: seq<Entry>, p: Path)
    requires Distinct(items) && p != [] && Distinct(Child(items, p[0]))
    ensures ValueAt(Child(items, p[0]), p[1..]) == ValueAt(items, p)
  {
    hide ValueAt, Distinct, Child;
    var child := Child(items, p[0]);
    assert p == [p[0]] + p[1..];
    if e :| e in items && e.path == p {
      ValueOf(items, e);
      assert Entry([p[0]] + p[1..], e.value) == e;
      ValueOf(child, Entry(p[1..], e.value));
    } else {
      NoValue(items, p);
      NoValue(child, p[1..]);
    }
  }

  // ---------------------------------------------------------------------------------------------
  // The committed map
  // ---------------------------------------------------------------------------------------------

  /** Reading through the store from its root gives back every entry, and nothing under any other key. */
  lemma {:induction false} CommittedEntriesFound(
    k: Hash, t: seq<Byte> -> seq<Byte>, entries: Entries, keys: seq<seq<Byte>>, items: seq<Entry>, store: Store,
    key: seq<Byte>)
    requires Lists(items, keys, entries, t) && SmallEntries(entries, t) && Small(items)
    requires forall a, b :: a in entries.Keys + {key} && b in entries.Keys + {key} && t(a) == t(b) ==> a == b
    requires Stored(k, map[], store, RootHashed(k, items)) && NoCollision(k, RootHashed(k, items))
    ensures Root(k, items) in store
    ensures Follow(store, store[Root(k, items)], Nibbles(t(key))) == if key in entries then entries[key] else []
  {
    hide Hashed, Build, Nibbles, ValueAt, Follow;
    ListsCommittable(items, keys, entries, t);
    AllResolve(k, store, RootHashed(k, items));
    ResolvesFewer(k, store, Hashed(k, items), RootHashed(k, items));
    assert Build(k, items) in RootHashed(k, items);
    FollowFinds(k, items, store, Nibbles(t(key)));
    if key in entries {
      var i :| 0 <= i < |keys| && keys[i] == key;
      ValueOf(items, items[i]);
    } else {
      forall e | e in items
        ensures e.path != Nibbles(t(key))
      {
        var i :| 0 <= i < |items| && items[i] == e;
        if e.path == Nibbles(t(key)) {
          NibblesInjective(t(keys[i]), t(key));
        }
      }
      NoValue(items, Nibbles(t(key)));
    }
  }

  lemma {:induction false} AllResolve(k: Hash, store: Store, strings: set<seq<Byte>>)
    requires Stored(k, map[], store, strings) && NoCollision(k, strings)
    ensures Resolves(k, store, strings)
  {
    hide Stored, NoCollision;
    forall s | s in strings
      ensures k(s) in store && store[k(s)] == s
    {
      FiledResolves(k, store, strings, s);
    }
  }
}
