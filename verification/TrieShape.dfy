/** The one tree for some entries: what a canonical tree looks like, that there is one only, and that it is the one built. */
module TrieShape {
  import opened Bytes
  import opened Rlp
  import opened Trie
  import opened TrieStore
  import opened TrieWalk

  // ---------------------------------------------------------------------------------------------
  // Canonical trees
  // ---------------------------------------------------------------------------------------------

  /** A node below 32 bytes is its own reference; any other is referred to by its hash. */
  ghost predicate Names(k: Hash, store: Store, reference: seq<Byte>) {
    var s := NodeAt(store, reference);
    reference == if |s| < 32 then s else k(s)
  }

  /** A path in hex-prefix form and a value. */
  ghost predicate IsLeaf(v: Value) {
    && IsNode(v, 2) && v.items[1].payload != []
    && StepOf(v.items[0].payload).isLeaf && Spells(StepOf(v.items[0].payload), v.items[0].payload)
  }

  /** A path that is not empty and what is shared below it. */
  ghost predicate IsExtension(v: Value) {
    && IsNode(v, 2) && StepOf(v.items[0].payload).path != []
    && !StepOf(v.items[0].payload).isLeaf && Spells(StepOf(v.items[0].payload), v.items[0].payload)
  }

  /** Sixteen children and a value, at least two of the seventeen in use. */
  ghost predicate IsBranch(v: Value) {
    IsNode(v, 17) && exists i, j :: 0 <= i < j <= 16 && v.items[i].payload != [] && v.items[j].payload != []
  }

  /** Below `s` there are leaves, extensions that lead to branches, and branches, all found through their references. */
  ghost predicate Canonical(k: Hash, store: Store, s: seq<Byte>, depth: nat)
    decreases depth, 0
  {
    var v := Decoded(s);
    && depth > 0 && Encodes(v, s)
    && (|| IsLeaf(v)
        || (IsExtension(v) && LeadsOn(k, store, v.items[1].payload, depth - 1)
            && IsBranch(Decoded(NodeAt(store, v.items[1].payload))))
        || (IsBranch(v) && forall n: Nibble :: v.items[n].payload != [] ==> LeadsOn(k, store, v.items[n].payload, depth - 1)))
  }

  ghost predicate LeadsOn(k: Hash, store: Store, reference: seq<Byte>, depth: nat)
    decreases depth, 1
  {
    Names(k, store, reference) && Canonical(k, store, NodeAt(store, reference), depth)
  }

  // ---------------------------------------------------------------------------------------------
  // Following paths
  // ---------------------------------------------------------------------------------------------

  lemma {:induction false} FollowLeaf(store: Store, s: seq<Byte>, p: Path)
    requires IsLeaf(Decoded(s))
    ensures var v := Decoded(s);
      Follow(store, s, p) == if p == StepOf(v.items[0].payload).path then v.items[1].payload else []
  {
    hide Decoded, StepOf;
  }

  lemma {:induction false} FollowExtension(store: Store, s: seq<Byte>, p: Path, q: Path)
    requires IsExtension(Decoded(s))
    ensures var v := Decoded(s);
      var path := StepOf(v.items[0].payload).path;
      && Follow(store, s, path + q) == Follow(store, NodeAt(store, v.items[1].payload), q)
      && (Follow(store, s, p) != [] ==> |path| <= |p| && p[..|path|] == path)
  {
    hide Decoded, StepOf, NodeAt;
    var path := StepOf(Decoded(s).items[0].payload).path;
    assert (path + q)[..|path|] == path && (path + q)[|path|..] == q;
  }

  lemma {:induction false} FollowBranch(store: Store, s: seq<Byte>, n: Nibble, q: Path)
    requires IsBranch(Decoded(s))
    ensures Follow(store, s, []) == Decoded(s).items[16].payload
    ensures Follow(store, s, [n] + q) == Follow(store, NodeAt(store, Decoded(s).items[n].payload), q)
  {
    hide Decoded, NodeAt;
    assert ([n] + q)[0] == n && ([n] + q)[1..] == q;
  }

  /** Every canonical tree holds a value. */
  lemma {:induction false} SomeValue(k: Hash, store: Store, s: seq<Byte>, depth: nat) returns (p: Path)
    requires Canonical(k, store, s, depth)
    ensures Follow(store, s, p) != []
    decreases depth, 0
  {
    hide Decoded, StepOf, Follow, Encodes, Names;
    var v := Decoded(s);
    if IsLeaf(v) {
      p := StepOf(v.items[0].payload).path;
      FollowLeaf(store, s, p);
    } else if IsExtension(v) {
      var q := SomeValue(k, store, NodeAt(store, v.items[1].payload), depth - 1);
      p := StepOf(v.items[0].payload).path + q;
      FollowExtension(store, s, p, q);
    } else {
      var i, j :| 0 <= i < j <= 16 && v.items[i].payload != [] && v.items[j].payload != [];
      p := InUse(k, store, s, depth, i);
    }
  }

  lemma {:induction false} InUse(k: Hash, store: Store, s: seq<Byte>, depth: nat, i: nat) returns (p: Path)
    requires Canonical(k, store, s, depth) && IsBranch(Decoded(s)) && i <= 16 && Decoded(s).items[i].payload != []
    ensures Follow(store, s, p) != [] && if i == 16 then p == [] else p != [] && p[0] == i
    decreases depth, 0, 0
  {
    hide Decoded, StepOf, Follow, Encodes, Names;
    if i == 16 {
      p := [];
      FollowBranch(store, s, 0, []);
    } else {
      var n: Nibble := i;
      assert LeadsOn(k, store, Decoded(s).items[n].payload, depth - 1);
      var q := SomeValue(k, store, NodeAt(store, Decoded(s).items[n].payload), depth - 1);
      FollowBranch(store, s, n, q);
      p := [n] + q;
    }
  }

  /** No path leads to both before they part. */
  predicate Part(p: Path, q: Path) {
    p != q && (p == [] || q == [] || p[0] != q[0])
  }

  /** In a branch two values part at once. */
  lemma {:induction false} BranchParts(k: Hash, store: Store, s: seq<Byte>, depth: nat) returns (p: Path, q: Path)
    requires Canonical(k, store, s, depth) && IsBranch(Decoded(s))
    ensures Follow(store, s, p) != [] && Follow(store, s, q) != [] && Part(p, q)
  {
    hide Canonical, Decoded, Follow;
    var v := Decoded(s);
    var i, j :| 0 <= i < j <= 16 && v.items[i].payload != [] && v.items[j].payload != [];
    p := InUse(k, store, s, depth, i);
    q := InUse(k, store, s, depth, j);
  }

  // ---------------------------------------------------------------------------------------------
  // There is only one
  // ---------------------------------------------------------------------------------------------

  ghost predicate SameValues(store: Store, s: seq<Byte>, other: Store, t: seq<Byte>) {
    forall p :: Follow(store, s, p) == Follow(other, t, p)
  }

  lemma {:induction false} SameBack(store: Store, s: seq<Byte>, other: Store, t: seq<Byte>)
    requires SameValues(store, s, other, t)
    ensures SameValues(other, t, store, s)
  {
    hide Follow;
  }

  /** Only a leaf holds the values of a leaf. */
  lemma {:induction false} LeafAlone(k: Hash, store: Store, s: seq<Byte>, d: nat, other: Store, t: seq<Byte>, e: nat)
    requires Canonical(k, store, s, d) && Canonical(k, other, t, e) && SameValues(store, s, other, t)
    requires IsLeaf(Decoded(s))
    ensures IsLeaf(Decoded(t))
  {
    hide Decoded, StepOf, Follow, Encodes, Names, Spells;
    var v := Decoded(t);
    if IsExtension(v) {
      var path := StepOf(v.items[0].payload).path;
      var p, q := BranchParts(k, other, NodeAt(other, v.items[1].payload), e - 1);
      FollowExtension(other, t, [], p);
      FollowExtension(other, t, [], q);
      assert p == (path + p)[|path|..] && q == (path + q)[|path|..];
      FollowLeaf(store, s, path + p);
      FollowLeaf(store, s, path + q);
    } else if !IsLeaf(v) {
      var p, q := BranchParts(k, other, t, e);
      FollowLeaf(store, s, p);
      FollowLeaf(store, s, q);
    }
  }

  /** No branch holds the values of an extension. */
  lemma {:induction false} ExtensionAlone(k: Hash, store: Store, s: seq<Byte>, other: Store, t: seq<Byte>, e: nat)
    requires Canonical(k, other, t, e) && SameValues(store, s, other, t)
    requires IsExtension(Decoded(s))
    ensures !IsBranch(Decoded(t))
  {
    hide Canonical, IsBranch, Decoded, StepOf, Follow;
    if IsBranch(Decoded(t)) {
      var p, q := BranchParts(k, other, t, e);
      FollowExtension(store, s, p, []);
      FollowExtension(store, s, q, []);
    }
  }

  lemma {:induction false} GoesOn(longer: Path, path: Path, p: Path)
    requires longer <= path + p && |longer| > |path|
    ensures p != [] && longer[|path|] == p[0]
  {
    assert (path + p)[|path|] == p[0];
  }

  lemma {:induction false} ExtensionLeads(k: Hash, store: Store, s: seq<Byte>, d: nat)
    requires Canonical(k, store, s, d) && IsExtension(Decoded(s))
    ensures d > 0 && LeadsOn(k, store, Decoded(s).items[1].payload, d - 1)
    ensures IsBranch(Decoded(NodeAt(store, Decoded(s).items[1].payload)))
  {
    hide Decoded, StepOf, Encodes, Names, Spells, LeadsOn;
  }

  /** The paths of two extensions with the same values: neither is longer. */
  lemma {:induction false} PathNotLonger(k: Hash, store: Store, s: seq<Byte>, d: nat, other: Store, t: seq<Byte>)
    requires SameValues(store, s, other, t) && IsExtension(Decoded(s)) && IsExtension(Decoded(t))
    requires Canonical(k, store, s, d)
    ensures StepOf(Decoded(t).items[0].payload).path <= StepOf(Decoded(s).items[0].payload).path
  {
    hide Canonical, IsBranch, Decoded, StepOf, Follow, Encodes, Names, Spells;
    ExtensionLeads(k, store, s, d);
    var path, longer := StepOf(Decoded(s).items[0].payload).path, StepOf(Decoded(t).items[0].payload).path;
    var p, q := BranchParts(k, store, NodeAt(store, Decoded(s).items[1].payload), d - 1);
    FollowExtension(store, s, [], p);
    FollowExtension(store, s, [], q);
    FollowExtension(other, t, path + p, []);
    FollowExtension(other, t, path + q, []);
    if |longer| > |path| {
      GoesOn(longer, path, p);
      GoesOn(longer, path, q);
    }
  }

  lemma SameNode(v: Value, w: Value, size: nat)
    requires IsNode(v, size) && IsNode(w, size)
    requires forall i :: 0 <= i < size ==> v.items[i].payload == w.items[i].payload
    ensures v == w
  {
    assert forall i :: 0 <= i < size ==> v.items[i] == Str(v.items[i].payload) && w.items[i] == Str(w.items[i].payload);
    assert v.items == w.items;
  }

  /** Two canonical trees in which every path leads to the same value are the same string, whatever stores they lie in. */
  lemma {:induction false} OnlyOneTree(k: Hash, store: Store, s: seq<Byte>, d: nat, other: Store, t: seq<Byte>, e: nat)
    requires Canonical(k, store, s, d) && Canonical(k, other, t, e) && SameValues(store, s, other, t)
    ensures s == t
    decreases d, 1
  {
    hide Canonical, LeadsOn, SameValues, IsLeaf, IsExtension, IsBranch, IsNode, Encodes, Decoded;
    SameBack(store, s, other, t);
    CanonicalKinds(k, store, s, d);
    CanonicalKinds(k, other, t, e);
    var v, w := Decoded(s), Decoded(t);
    if IsLeaf(v) || IsLeaf(w) {
      if IsLeaf(v) { LeafAlone(k, store, s, d, other, t, e); } else { LeafAlone(k, other, t, e, store, s, d); }
      OnlyOneLeaf(store, s, other, t);
    } else if IsExtension(v) {
      ExtensionAlone(k, store, s, other, t, e);
      OnlyOneExtension(k, store, s, d, other, t, e);
    } else {
      if IsExtension(w) {
        ExtensionAlone(k, other, t, store, s, d);
      }
      OnlyOneBranch(k, store, s, d, other, t, e);
    }
    hide *;
    assert Encodes(v, s) && Encodes(w, t) && v == w;
    EncodesOnce(v, s, t);
  }

  lemma EncodesOnce(v: Value, s: seq<Byte>, t: seq<Byte>)
    requires Encodes(v, s) && Encodes(v, t)
    ensures s == t
  {
  }

  lemma {:induction false} CanonicalKinds(k: Hash, store: Store, s: seq<Byte>, d: nat)
    requires Canonical(k, store, s, d)
    ensures Encodes(Decoded(s), s) && (IsLeaf(Decoded(s)) || IsExtension(Decoded(s)) || IsBranch(Decoded(s)))
  {
    hide Decoded, StepOf, Encodes, Names, Spells, IsLeaf, IsExtension, IsBranch;
  }

  lemma {:induction false} OnlyOneLeaf(store: Store, s: seq<Byte>, other: Store, t: seq<Byte>)
    requires SameValues(store, s, other, t) && IsLeaf(Decoded(s)) && IsLeaf(Decoded(t))
    ensures Decoded(s) == Decoded(t)
  {
    hide Decoded, StepOf, Follow, Compact;
    var v, w := Decoded(s), Decoded(t);
    var path := StepOf(v.items[0].payload).path;
    FollowLeaf(store, s, path);
    FollowLeaf(other, t, path);
    assert StepOf(v.items[0].payload) == StepOf(w.items[0].payload);
    SameNode(v, w, 2);
  }

  lemma {:induction false} OnlyOneExtension(
    k: Hash, store: Store, s: seq<Byte>, d: nat, other: Store, t: seq<Byte>, e: nat)
    requires Canonical(k, store, s, d) && Canonical(k, other, t, e) && SameValues(store, s, other, t)
    requires IsExtension(Decoded(s)) && IsExtension(Decoded(t))
    ensures Decoded(s) == Decoded(t)
    decreases d, 0
  {
    hide Canonical, Decoded, StepOf, Follow, Compact, Encodes, IsBranch, NodeAt;
    ExtensionLeads(k, store, s, d);
    ExtensionLeads(k, other, t, e);
    var v, w := Decoded(s), Decoded(t);
    SameBack(store, s, other, t);
    PathNotLonger(k, store, s, d, other, t);
    PathNotLonger(k, other, t, e, store, s);
    var path := StepOf(v.items[0].payload).path;
    assert path == StepOf(w.items[0].payload).path;
    var child, twin := NodeAt(store, v.items[1].payload), NodeAt(other, w.items[1].payload);
    forall q
      ensures Follow(store, child, q) == Follow(other, twin, q)
    {
      FollowExtension(store, s, [], q);
      FollowExtension(other, t, [], q);
    }
    OnlyOneTree(k, store, child, d - 1, other, twin, e - 1);
    SameNode(v, w, 2);
  }

  lemma {:induction false} OnlyOneBranch(
    k: Hash, store: Store, s: seq<Byte>, d: nat, other: Store, t: seq<Byte>, e: nat)
    requires Canonical(k, store, s, d) && Canonical(k, other, t, e) && SameValues(store, s, other, t)
    requires IsBranch(Decoded(s)) && IsBranch(Decoded(t))
    ensures Decoded(s) == Decoded(t)
    decreases d, 0
  {
    hide Decoded, Follow, Canonical, SameValues;
    var v, w := Decoded(s), Decoded(t);
    forall i | 0 <= i < 17
      ensures v.items[i].payload == w.items[i].payload
    {
      if i == 16 {
        FollowBranch(store, s, 0, []);
        FollowBranch(other, t, 0, []);
        assert Follow(store, s, []) == Follow(other, t, []) by { SameAt(store, s, other, t, []); }
      } else {
        var n: Nibble := i;
        SlotsAgree(k, store, s, d, other, t, e, n);
      }
    }
    SameNode(v, w, 17);
  }

  lemma {:induction false} SameAt(store: Store, s: seq<Byte>, other: Store, t: seq<Byte>, p: Path)
    requires SameValues(store, s, other, t)
    ensures Follow(store, s, p) == Follow(other, t, p)
  {
  }

  lemma {:induction false} SlotLeadsOn(k: Hash, store: Store, s: seq<Byte>, d: nat, n: Nibble)
    requires Canonical(k, store, s, d) && IsBranch(Decoded(s))
    ensures d > 0 && (Decoded(s).items[n].payload != [] ==> LeadsOn(k, store, Decoded(s).items[n].payload, d - 1))
  {
    hide Decoded, StepOf, Encodes, LeadsOn, Spells;
  }

  lemma {:induction false} SlotsAgree(
    k: Hash, store: Store, s: seq<Byte>, d: nat, other: Store, t: seq<Byte>, e: nat, n: Nibble)
    requires Canonical(k, store, s, d) && Canonical(k, other, t, e) && SameValues(store, s, other, t)
    requires IsBranch(Decoded(s)) && IsBranch(Decoded(t))
    ensures Decoded(s).items[n].payload == Decoded(t).items[n].payload
    decreases d, 0, 0
  {
    hide Decoded, Follow, Canonical, NodeAt, Encodes;
    SlotLeadsOn(k, store, s, d, n);
    SlotLeadsOn(k, other, t, e, n);
    var r, x := Decoded(s).items[n].payload, Decoded(t).items[n].payload;
    var child, twin := NodeAt(store, r), NodeAt(other, x);
    forall q
      ensures Follow(store, child, q) == Follow(other, twin, q)
    {
      FollowBranch(store, s, n, q);
      FollowBranch(other, t, n, q);
    }
    if r == [] && x != [] {
      var p := SomeValue(k, other, twin, e - 1);
      EmptySlot(store, p);
    } else if x == [] && r != [] {
      var p := SomeValue(k, store, child, d - 1);
      EmptySlot(other, p);
    } else if r != [] {
      OnlyOneTree(k, store, child, d - 1, other, twin, e - 1);
    }
  }

  lemma {:induction false} EmptySlot(store: Store, p: Path)
    ensures Follow(store, NodeAt(store, []), p) == []
  {
    hide Follow;
    NothingFrom(store, p);
  }

  // ---------------------------------------------------------------------------------------------
  // The tree that is built
  // ---------------------------------------------------------------------------------------------

  predicate AllHold(items: seq<Entry>) {
    forall e :: e in items ==> e.value != []
  }

  lemma {:induction false} BuildLeads(k: Hash, items: seq<Entry>, store: Store)
    requires Small(items) && Resolves(k, store, HashedIn(Build(k, items)))
    ensures var r := Reference(k, Build(k, items)); NodeAt(store, r) == Build(k, items) && Names(k, store, r)
  {
    hide Build;
    ReferenceLeads(k, store, Build(k, items));
  }

  lemma {:induction false} BuildDecodes(k: Hash, items: seq<Entry>)
    requires Small(items)
    ensures Decoded(Build(k, items)) == Node(k, items) && Encodes(Node(k, items), Build(k, items))
  {
    hide Node, Encode, Decoded;
    BuildIsNode(k, items);
    DecodedBuild(k, items);
  }

  /** Entries without a common prefix use two slots of a branch. */
  lemma {:induction false} TwoSlots(k: Hash, items: seq<Entry>)
    requires Small(items) && Distinct(items) && AllHold(items) && |items| >= 2 && Lcp(items) == 0
    ensures IsBranch(Node(k, items))
  {
    hide Lcp, Node, Slot, Terminal, Child, Distinct;
    BranchIsNode(k, items);
    assert !AgreeAt(items, 0) by { NoAgreement(items); }
    if items[0].path == [] {
      SlotTaken(k, items, items[0]);
      assert items[1].path != [] by { assert Distinct(items); Apart(items); }
      SlotTaken(k, items, items[1]);
    } else {
      var i :| 0 <= i < |items| && !(0 < |items[i].path| && items[i].path[0] == items[0].path[0]);
      SlotTaken(k, items, items[0]);
      SlotTaken(k, items, items[i]);
    }
  }

  lemma {:induction false} NoAgreement(items: seq<Entry>)
    requires items != [] && Lcp(items) == 0
    ensures !AgreeAt(items, 0)
  {
  }

  lemma {:induction false} Apart(items: seq<Entry>)
    requires Distinct(items) && |items| >= 2
    ensures items[0].path != items[1].path
  {
  }

  lemma {:induction false} SlotTaken(k: Hash, items: seq<Entry>, e: Entry)
    requires Small(items) && Distinct(items) && AllHold(items) && |items| >= 2 && Lcp(items) == 0 && e in items
    ensures IsNode(Node(k, items), 17)
    ensures var i: nat := if e.path == [] then 16 else e.path[0]; Node(k, items).items[i].payload != []
  {
    hide Lcp, Node, Terminal, Child, Distinct;
    BranchIsNode(k, items);
    if e.path == [] {
      TerminalValue(items, e);
    } else {
      assert e == Entry([e.path[0]] + e.path[1..], e.value);
      assert Entry(e.path[1..], e.value) in Child(items, e.path[0]);
    }
  }

  lemma {:induction false} DropHolds(items: seq<Entry>, n: nat)
    requires AllHold(items) && items != [] && forall i :: 0 <= i < |items| ==> n <= |items[i].path|
    ensures AllHold(Drop(items, n)) && (n == Lcp(items) ==> Lcp(Drop(items, n)) == 0)
  {
    var rest := Drop(items, n);
    forall i | 0 <= i < |rest|
      ensures rest[i].value != []
    {
      assert items[i] in items;
    }
    if n == Lcp(items) && AgreeAt(rest, 0) {
      forall i | 0 <= i < |items|
        ensures n < |items[i].path| && items[i].path[n] == items[0].path[n]
      {
        assert rest[i].path[0] == rest[0].path[0];
      }
      assert AgreeAt(items, n);
    }
  }

  lemma {:induction false} ChildHolds(items: seq<Entry>, n: Nibble)
    requires AllHold(items)
    ensures AllHold(Child(items, n))
  {
    hide Child;
  }

  lemma {:induction false} DeepEnough(k: Hash, store: Store, s: seq<Byte>, d: nat, e: nat)
    requires Canonical(k, store, s, d) && d <= e
    ensures Canonical(k, store, s, e)
    decreases d
  {
    hide Decoded, StepOf, Encodes, Names, Spells;
    var v := Decoded(s);
    if IsExtension(v) && LeadsOn(k, store, v.items[1].payload, d - 1) {
      DeepEnough(k, store, NodeAt(store, v.items[1].payload), d - 1, e - 1);
    }
    if IsBranch(v) {
      forall n: Nibble | v.items[n].payload != [] && LeadsOn(k, store, v.items[n].payload, d - 1)
        ensures LeadsOn(k, store, v.items[n].payload, e - 1)
      {
        DeepEnough(k, store, NodeAt(store, v.items[n].payload), d - 1, e - 1);
      }
    }
  }

  /** The node built for entries that all hold a value is canonical. */
  lemma {:induction false} BuildIsCanonical(k: Hash, items: seq<Entry>, store: Store)
    requires Small(items) && Distinct(items) && AllHold(items) && items != [] && Resolves(k, store, Hashed(k, items))
    ensures Canonical(k, store, Build(k, items), Weight(items) + 1)
    decreases Weight(items), 2
  {
    hide Canonical, Lcp, Hashed, Build, Node, Distinct, Resolves, AllHold, Weight;
    if |items| == 1 {
      LeafIsCanonical(k, items, store);
    } else if Lcp(items) > 0 {
      ExtensionIsCanonical(k, items, store);
    } else {
      BranchIsCanonical(k, items, store);
    }
  }

  lemma {:induction false} LeafIsCanonical(k: Hash, items: seq<Entry>, store: Store)
    requires Small(items) && AllHold(items) && |items| == 1
    ensures Canonical(k, store, Build(k, items), Weight(items) + 1)
  {
    hide Lcp, Slots, Compact, Build, Decoded, StepOf, Encodes, Weight;
    BuildDecodes(k, items);
    StepOfCompact(items[0].path, true);
    assert items[0] in items;
    assert IsLeaf(Node(k, items));
  }

  lemma {:induction false} ExtensionIsCanonical(k: Hash, items: seq<Entry>, store: Store)
    requires Small(items) && Distinct(items) && AllHold(items) && Resolves(k, store, Hashed(k, items))
    requires |items| >= 2 && Lcp(items) > 0
    ensures Canonical(k, store, Build(k, items), Weight(items) + 1)
    decreases Weight(items), 1
  {
    hide Lcp, Slots, Compact, Build, Decoded, StepOf, Encodes, Weight, Hashed, Distinct, Resolves, AllHold, Node, Reference,
      HashedIn, IsBranch, Names;
    LcpShares(items);
    ExtensionNode(k, items);
    BuildDecodes(k, items);
    var n := Lcp(items);
    var rest := Drop(items, n);
    StepOfCompact(items[0].path[..n], false);
    DropWeight(items, n);
    DropDistinct(items, n);
    DropHolds(items, n);
    ResolvesFewer(k, store, Hashed(k, rest), Hashed(k, items));
    ResolvesFewer(k, store, HashedIn(Build(k, rest)), Hashed(k, items));
    BuildIsCanonical(k, rest, store);
    DeepEnough(k, store, Build(k, rest), Weight(rest) + 1, Weight(items));
    BuildLeads(k, rest, store);
    BuildDecodes(k, rest);
    TwoSlots(k, rest);
    hide Canonical;
    assert LeadsOn(k, store, Reference(k, Build(k, rest)), Weight(items));
    assert IsExtension(Node(k, items));
    ExtensionClosed(k, store, Build(k, items), Weight(items) + 1);
  }

  lemma {:induction false} ExtensionClosed(k: Hash, store: Store, s: seq<Byte>, d: nat)
    requires d > 0 && Encodes(Decoded(s), s) && IsExtension(Decoded(s))
    requires LeadsOn(k, store, Decoded(s).items[1].payload, d - 1)
    requires IsBranch(Decoded(NodeAt(store, Decoded(s).items[1].payload)))
    ensures Canonical(k, store, s, d)
  {
    hide Decoded, StepOf, Encodes, LeadsOn, Spells, IsBranch;
  }

  lemma {:induction false} BranchIsCanonical(k: Hash, items: seq<Entry>, store: Store)
    requires Small(items) && Distinct(items) && AllHold(items) && Resolves(k, store, Hashed(k, items))
    requires |items| >= 2 && Lcp(items) == 0
    ensures Canonical(k, store, Build(k, items), Weight(items) + 1)
    decreases Weight(items), 1
  {
    hide *;
    BuildDecodes(k, items);
    TwoSlots(k, items);
    SlotsLead(k, items, store);
    BranchClosed(k, store, Build(k, items), Weight(items) + 1);
  }

  lemma {:induction false} SlotsLead(k: Hash, items: seq<Entry>, store: Store)
    requires Small(items) && Distinct(items) && AllHold(items) && Resolves(k, store, Hashed(k, items))
    requires |items| >= 2 && Lcp(items) == 0
    ensures IsNode(Node(k, items), 17)
    ensures forall n: Nibble ::
      Node(k, items).items[n].payload != [] ==> LeadsOn(k, store, Node(k, items).items[n].payload, Weight(items))
    decreases Weight(items), 1, 0
  {
    hide Canonical, Lcp, Build, Decoded, Encodes, Weight, Hashed, Distinct, Resolves, AllHold, Node, Slot, LeadsOn;
    BranchIsNode(k, items);
    forall n: Nibble | Slot(k, items, n) != []
      ensures LeadsOn(k, store, Slot(k, items, n), Weight(items))
    {
      SlotIsCanonical(k, items, store, n);
    }
  }

  lemma {:induction false} BranchClosed(k: Hash, store: Store, s: seq<Byte>, d: nat)
    requires d > 0 && Encodes(Decoded(s), s) && IsBranch(Decoded(s))
    requires forall n: Nibble :: Decoded(s).items[n].payload != [] ==> LeadsOn(k, store, Decoded(s).items[n].payload, d - 1)
    ensures Canonical(k, store, s, d)
  {
    hide Decoded, StepOf, Encodes, LeadsOn, Spells;
  }

  lemma {:induction false} SlotIsCanonical(k: Hash, items: seq<Entry>, store: Store, n: Nibble)
    requires Small(items) && Distinct(items) && AllHold(items) && Resolves(k, store, Hashed(k, items))
    requires |items| >= 2 && Lcp(items) == 0 && Slot(k, items, n) != []
    ensures LeadsOn(k, store, Slot(k, items, n), Weight(items))
    decreases Weight(items), 0
  {
    hide Canonical, Lcp, Build, Weight, Hashed, Distinct, Resolves, AllHold, Reference, HashedIn, Child, Names;
    var child := Child(items, n);
    ChildWeight(items, n);
    ChildSmall(items, n);
    ChildDistinct(items, n);
    ChildHolds(items, n);
    ChildHashedWithin(k, items, n);
    ResolvesFewer(k, store, Hashed(k, child), Hashed(k, items));
    ResolvesFewer(k, store, HashedIn(Build(k, child)), Hashed(k, items));
    BuildIsCanonical(k, child, store);
    DeepEnough(k, store, Build(k, child), Weight(child) + 1, Weight(items));
    BuildLeads(k, child, store);
  }

  /** The commitment determines its tree and the other way round: after a commit of entries that all hold a value, the root
      leads to the canonical tree with these values, and any canonical tree with these values, in any store, is that one and
      has that root. */
  lemma {:induction false} CommitmentIsTheTree(k: Hash, items: seq<Entry>, store: Store, other: Store, t: seq<Byte>, e: nat)
    requires Small(items) && Distinct(items) && AllHold(items) && items != []
    requires Stored(k, map[], store, RootHashed(k, items)) && NoCollision(k, RootHashed(k, items))
    ensures Root(k, items) in store
    ensures Canonical(k, store, store[Root(k, items)], Weight(items) + 1)
    ensures forall p :: Follow(store, store[Root(k, items)], p) == ValueAt(items, p)
    ensures Canonical(k, other, t, e) && (forall p :: Follow(other, t, p) == ValueAt(items, p)) ==>
      t == store[Root(k, items)] && k(t) == Root(k, items)
  {
    hide Canonical, Hashed, Build, Distinct, AllHold, Weight, Follow, ValueAt, Stored, NoCollision, Resolves;
    AllResolve(k, store, RootHashed(k, items));
    RootLeads(k, items, store);
    ResolvesFewer(k, store, Hashed(k, items), RootHashed(k, items));
    BuildIsCanonical(k, items, store);
    forall p
      ensures Follow(store, Build(k, items), p) == ValueAt(items, p)
    {
      FollowFinds(k, items, store, p);
    }
    if Canonical(k, other, t, e) && forall p :: Follow(other, t, p) == ValueAt(items, p) {
      OnlyOneTree(k, store, Build(k, items), Weight(items) + 1, other, t, e);
    }
  }

  lemma {:induction false} RootLeads(k: Hash, items: seq<Entry>, store: Store)
    requires Small(items) && Resolves(k, store, RootHashed(k, items))
    ensures Root(k, items) in store && store[Root(k, items)] == Build(k, items) && k(Build(k, items)) == Root(k, items)
  {
    hide Hashed, Build;
    assert Build(k, items) in RootHashed(k, items);
  }
}
