/** The Merkle Patricia trie as a commitment: what its root determines. */
module Trie {
  import opened Bytes
  import opened Rlp

  type Nibble = x: int | 0 <= x < 16
  type Path = seq<Nibble>

  datatype Entry = Entry(path: Path, value: seq<Byte>)

  /** Sizes every Python byte string and tuple obeys. */
  const MAX_SIZE: int := 0x8000_0000_0000_0000

  predicate Small(items: seq<Entry>) {
    forall i :: 0 <= i < |items| ==> |items[i].path| < MAX_SIZE && |items[i].value| < MAX_SIZE
  }

  predicate Distinct(items: seq<Entry>) {
    forall i, j :: 0 <= i < j < |items| ==> items[i].path != items[j].path
  }

  ghost predicate SameEntries(a: seq<Entry>, b: seq<Entry>) {
    forall e :: e in a <==> e in b
  }

  // ---------------------------------------------------------------------------------------------
  // Paths
  // ---------------------------------------------------------------------------------------------

  function Nibbles(data: seq<Byte>): (p: Path)
    ensures |p| == 2 * |data|
  {
    if data == [] then [] else [data[0] / 16, data[0] % 16] + Nibbles(data[1..])
  }

  function Pack(nibbles: Path): (data: seq<Byte>)
    requires |nibbles| % 2 == 0
    ensures |data| == |nibbles| / 2
  {
    if nibbles == [] then [] else [nibbles[0] as int * 16 + nibbles[1]] + Pack(nibbles[2..])
  }

  /** The path behind a first nibble that says leaf or extension and odd or even length. */
  function Flagged(path: Path, isLeaf: bool): (p: Path)
    ensures |p| % 2 == 0 && |p| / 2 == |path| / 2 + 1
  {
    var flags: Nibble := if isLeaf then 2 else 0;
    if |path| % 2 == 1 then [flags + 1] + path else [flags, 0] + path
  }

  /** Hex-prefix form. */
  function Compact(path: Path, isLeaf: bool): (data: seq<Byte>)
    ensures |data| == |path| / 2 + 1
  {
    Pack(Flagged(path, isLeaf))
  }

  lemma {:induction false} NibblesInjective(a: seq<Byte>, b: seq<Byte>)
    requires Nibbles(a) == Nibbles(b)
    ensures a == b
  {
    if a != [] && b != [] {
      assert Nibbles(a)[0] == a[0] / 16 && Nibbles(a)[1] == a[0] % 16 && Nibbles(a)[2..] == Nibbles(a[1..]);
      assert Nibbles(b)[0] == b[0] / 16 && Nibbles(b)[1] == b[0] % 16 && Nibbles(b)[2..] == Nibbles(b[1..]);
      NibblesInjective(a[1..], b[1..]);
      assert a == [a[0]] + a[1..] && b == [b[0]] + b[1..];
    }
  }

  lemma {:induction false} PackInjective(a: Path, b: Path)
    requires |a| % 2 == 0 && |b| % 2 == 0 && Pack(a) == Pack(b)
    ensures a == b
  {
    if a != [] && b != [] {
      assert Pack(a)[0] == a[0] as int * 16 + a[1] && Pack(a)[1..] == Pack(a[2..]);
      assert Pack(b)[0] == b[0] as int * 16 + b[1] && Pack(b)[1..] == Pack(b[2..]);
      PackInjective(a[2..], b[2..]);
      assert a == [a[0], a[1]] + a[2..] && b == [b[0], b[1]] + b[2..];
    }
  }

  /** Both the path and the kind of node can be read back. */
  lemma {:induction false} CompactInjective(p: Path, q: Path, pLeaf: bool, qLeaf: bool)
    requires Compact(p, pLeaf) == Compact(q, qLeaf)
    ensures p == q && pLeaf == qLeaf
  {
    hide Pack, Flagged;
    PackInjective(Flagged(p, pLeaf), Flagged(q, qLeaf));
    FlaggedInjective(p, q, pLeaf, qLeaf);
  }

  lemma {:induction false} FlaggedInjective(p: Path, q: Path, pLeaf: bool, qLeaf: bool)
    requires Flagged(p, pLeaf) == Flagged(q, qLeaf)
    ensures p == q && pLeaf == qLeaf
  {
    var a, b := Flagged(p, pLeaf), Flagged(q, qLeaf);
    assert a[0] == b[0];
    assert p == if a[0] % 2 == 1 then a[1..] else a[2..];
    assert q == if b[0] % 2 == 1 then b[1..] else b[2..];
  }

  // ---------------------------------------------------------------------------------------------
  // Splitting a list of entries
  // ---------------------------------------------------------------------------------------------

  /** All paths have a nibble at `offset`, and it is the same one. */
  predicate AgreeAt(items: seq<Entry>, offset: nat)
    requires items != []
  {
    && offset < |items[0].path|
    && forall i :: 0 <= i < |items| ==> offset < |items[i].path| && items[i].path[offset] == items[0].path[offset]
  }

  function LcpFrom(items: seq<Entry>, offset: nat): (n: nat)
    requires items != [] && offset <= |items[0].path|
    ensures offset <= n <= |items[0].path|
    ensures forall k :: offset <= k < n ==> AgreeAt(items, k)
    ensures !AgreeAt(items, n)
    decreases |items[0].path| - offset
  {
    if AgreeAt(items, offset) then LcpFrom(items, offset + 1) else offset
  }

  /** Length of the longest common prefix of the paths. */
  function Lcp(items: seq<Entry>): nat
    requires items != []
  {
    LcpFrom(items, 0)
  }

  function Drop(items: seq<Entry>, n: nat): (r: seq<Entry>)
    requires forall i :: 0 <= i < |items| ==> n <= |items[i].path|
    ensures |r| == |items|
    ensures forall i :: 0 <= i < |r| ==> r[i] == Entry(items[i].path[n..], items[i].value)
  {
    seq(|items|, i requires 0 <= i < |items| => Entry(items[i].path[n..], items[i].value))
  }

  /** The entries whose path starts with `nibble`, without it. */
  function Child(items: seq<Entry>, nibble: Nibble): (r: seq<Entry>)
    ensures |r| <= |items|
    ensures forall e :: e in r <==> Entry([nibble] + e.path, e.value) in items
  {
    if items == [] then []
    else
      var rest := Child(items[1..], nibble);
      FirstChild(items, nibble);
      if items[0].path != [] && items[0].path[0] == nibble then [Entry(items[0].path[1..], items[0].value)] + rest else rest
  }

  lemma {:induction false} FirstChild(items: seq<Entry>, nibble: Nibble)
    requires items != []
    ensures forall e: Entry :: Entry([nibble] + e.path, e.value) in items <==>
      || Entry([nibble] + e.path, e.value) in items[1..]
      || (items[0].path != [] && items[0].path[0] == nibble && e == Entry(items[0].path[1..], items[0].value))
  {
    var first := items[0];
    assert items == [first] + items[1..];
    forall e: Entry
      ensures Entry([nibble] + e.path, e.value) == first <==>
        first.path != [] && first.path[0] == nibble && e == Entry(first.path[1..], first.value)
    {
      assert ([nibble] + e.path)[1..] == e.path;
      if first.path != [] && first.path[0] == nibble {
        assert first.path == [nibble] + first.path[1..];
      }
    }
  }

  /** The value of the first entry whose path is exhausted. */
  function Terminal(items: seq<Entry>): seq<Byte> {
    if items == [] then [] else if items[0].path == [] then items[0].value else Terminal(items[1..])
  }

  /** Total length of all paths: the termination measure. */
  function Weight(items: seq<Entry>): nat {
    if items == [] then 0 else |items[0].path| + Weight(items[1..])
  }

  lemma {:induction false} ChildWeight(items: seq<Entry>, nibble: Nibble)
    ensures Weight(Child(items, nibble)) + |Child(items, nibble)| <= Weight(items)
  {
    if items != [] {
      ChildWeight(items[1..], nibble);
      var e, rest := items[0], Child(items[1..], nibble);
      if e.path != [] && e.path[0] == nibble {
        assert ([Entry(e.path[1..], e.value)] + rest)[1..] == rest;
      }
    }
  }

  lemma {:induction false} DropWeight(items: seq<Entry>, n: nat)
    requires forall i :: 0 <= i < |items| ==> n <= |items[i].path|
    ensures Weight(Drop(items, n)) <= Weight(items)
    ensures n > 0 && items != [] ==> Weight(Drop(items, n)) < Weight(items)
  {
    if items != [] {
      DropWeight(items[1..], n);
      assert Drop(items, n)[1..] == Drop(items[1..], n);
    }
  }

  // ---------------------------------------------------------------------------------------------
  // Nodes
  // ---------------------------------------------------------------------------------------------

  type Hash = seq<Byte> -> Digest

  /** A node shorter than a digest stands for itself. */
  function Reference(k: Hash, encoded: seq<Byte>): (r: seq<Byte>)
    ensures |r| <= 32
  {
    if |encoded| < 32 then encoded else k(encoded)
  }

  lemma {:induction false} StringSize(s: seq<Byte>)
    requires |s| < MAX_LENGTH
    ensures Size(Str(s)) <= |s| + 9
  {
    if |s| > 55 {
      LengthOfLength(|s|);
    }
  }

  lemma {:induction false} SingleFits(s: seq<Byte>)
    requires |s| < MAX_LENGTH
    ensures AllFit([Str(s)]) && PayloadSize([Str(s)]) == Size(Str(s))
  {
    var items := [Str(s)];
    assert Fits(items[0]) && items[1..] == [] && AllFit(items[1..]) && PayloadSize(items[1..]) == 0;
  }

  lemma {:induction false} PairFits(a: seq<Byte>, b: seq<Byte>)
    requires |a| <= MAX_SIZE / 2 + 1 && |b| < MAX_SIZE
    ensures Fits(List([Str(a), Str(b)]))
  {
    StringSize(a);
    StringSize(b);
    var items := [Str(a), Str(b)];
    assert items[1..] == [Str(b)];
    SingleFits(b);
    assert Fits(Str(a));
    assert AllFit(items) && PayloadSize(items) == Size(Str(a)) + Size(Str(b));
  }

  lemma {:induction false} LcpShares(items: seq<Entry>)
    requires items != []
    ensures forall i :: 0 <= i < |items| ==>
      Lcp(items) <= |items[i].path| && items[i].path[..Lcp(items)] == items[0].path[..Lcp(items)]
  {
    var n := Lcp(items);
    forall i | 0 <= i < |items|
      ensures n <= |items[i].path| && items[i].path[..n] == items[0].path[..n]
    {
      if n > 0 {
        assert AgreeAt(items, n - 1);
      }
      forall j | 0 <= j < n
        ensures items[i].path[j] == items[0].path[j]
      {
        assert AgreeAt(items, j);
      }
    }
  }

  lemma {:induction false} ChildSmall(items: seq<Entry>, nibble: Nibble)
    requires Small(items)
    ensures Small(Child(items, nibble))
  {
    var child := Child(items, nibble);
    forall i | 0 <= i < |child|
      ensures |child[i].path| < MAX_SIZE && |child[i].value| < MAX_SIZE
    {
      assert Entry([nibble] + child[i].path, child[i].value) in items;
    }
  }

  lemma {:induction false} TerminalSmall(items: seq<Entry>)
    requires Small(items)
    ensures |Terminal(items)| < MAX_SIZE
  {
    if items != [] {
      TerminalSmall(items[1..]);
    }
  }

  /** The encoded node for a list of entries. */
  function Build(k: Hash, items: seq<Entry>): (e: seq<Byte>)
    requires Small(items)
    ensures e != []
    decreases Weight(items), 19
  {
    Encode(Node(k, items))
  }

  /** Leaf, extension or branch; an empty list gives the empty string. */
  function Node(k: Hash, items: seq<Entry>): (v: Value)
    requires Small(items)
    ensures Fits(v)
    decreases Weight(items), 18
  {
    if items == [] then Str([])
    else if |items| == 1 then
      var compact := Compact(items[0].path, true);
      PairFits(compact, items[0].value);
      List([Str(compact), Str(items[0].value)])
    else if Lcp(items) > 0 then
      LcpShares(items);
      var n := Lcp(items);
      var compact, rest := Compact(items[0].path[..n], false), Drop(items, n);
      DropWeight(items, n);
      var reference := Reference(k, Build(k, rest));
      PairFits(compact, reference);
      List([Str(compact), Str(reference)])
    else List(Slots(k, items, 0))
  }

  /** The last slots of a branch from `n` on, ending with the value stored at the branch itself. */
  function Slots(k: Hash, items: seq<Entry>, n: nat): (slots: seq<Value>)
    requires Small(items) && n <= 16
    ensures |slots| == 17 - n && AllFit(slots) && PayloadSize(slots) < MAX_SIZE + 41 * (16 - n) + 9
    decreases Weight(items), 17 - n
  {
    if n == 16 then
      var value := Terminal(items);
      TerminalSmall(items);
      StringSize(value);
      SingleFits(value);
      [Str(value)]
    else
      var slot, rest := Slot(k, items, n), Slots(k, items, n + 1);
      StringSize(slot);
      assert ([Str(slot)] + rest)[1..] == rest;
      [Str(slot)] + rest
  }

  function Slot(k: Hash, items: seq<Entry>, n: Nibble): (r: seq<Byte>)
    requires Small(items)
    ensures |r| <= 32 && (r == [] <==> Child(items, n) == [])
    decreases Weight(items), 0
  {
    var child := Child(items, n);
    ChildWeight(items, n);
    ChildSmall(items, n);
    if child == [] then [] else Reference(k, Build(k, child))
  }

  /** The strings hashed below the root. */
  function Hashed(k: Hash, items: seq<Entry>): set<seq<Byte>>
    requires Small(items)
    decreases Weight(items), 1
  {
    if |items| <= 1 then {}
    else if Lcp(items) > 0 then
      LcpShares(items);
      var rest := Drop(items, Lcp(items));
      DropWeight(items, Lcp(items));
      HashedIn(Build(k, rest)) + Hashed(k, rest)
    else set n: Nibble, s | n in AllNibbles() && s in ChildHashed(k, items, n) :: s
  }

  function AllNibbles(): set<Nibble> {
    {0, 1, 2, 3, 4, 5, 6, 7, 8, 9, 10, 11, 12, 13, 14, 15}
  }

  function HashedIn(encoded: seq<Byte>): set<seq<Byte>> {
    if |encoded| < 32 then {} else {encoded}
  }

  function ChildHashed(k: Hash, items: seq<Entry>, n: Nibble): set<seq<Byte>>
    requires Small(items)
    decreases Weight(items), 0
  {
    var child := Child(items, n);
    ChildWeight(items, n);
    ChildSmall(items, n);
    if child == [] then {} else HashedIn(Build(k, child)) + Hashed(k, child)
  }

  // ---------------------------------------------------------------------------------------------
  // Forks below a prefix
  // ---------------------------------------------------------------------------------------------

  predicate Extends(q: Path, p: Path) {
    |p| < |q| && q[..|p|] == p
  }

  /** Two entries continue the path `p` with different nibbles. */
  ghost predicate Branches(a: seq<Entry>, p: Path) {
    exists e, f :: e in a && f in a && Fork(e.path, f.path, p)
  }

  predicate Fork(q: Path, r: Path, p: Path) {
    Extends(q, p) && Extends(r, p) && q[|p|] != r[|p|]
  }

  /** Dropping a common prefix keeps forks. */
  lemma {:induction false} BranchesDrop(a: seq<Entry>, n: nat, prefix: Path, p: Path)
    requires |prefix| == n && forall i :: 0 <= i < |a| ==> n <= |a[i].path| && a[i].path[..n] == prefix
    requires n <= |p| && p[..n] == prefix
    ensures Branches(a, p) <==> Branches(Drop(a, n), p[n..])
  {
    if Branches(a, p) {
      ForkIntoDrop(a, n, prefix, p);
    }
    if Branches(Drop(a, n), p[n..]) {
      ForkFromDrop(a, n, prefix, p);
    }
  }

  lemma {:induction false} ForkIntoDrop(a: seq<Entry>, n: nat, prefix: Path, p: Path)
    requires |prefix| == n && forall i :: 0 <= i < |a| ==> n <= |a[i].path| && a[i].path[..n] == prefix
    requires n <= |p| && p[..n] == prefix && Branches(a, p)
    ensures Branches(Drop(a, n), p[n..])
  {
    hide Fork;
    var e, f :| e in a && f in a && Fork(e.path, f.path, p);
    DropMember(a, n, prefix, e);
    DropMember(a, n, prefix, f);
    ForkDrop(e.path, f.path, p, n);
    assert Fork(Entry(e.path[n..], e.value).path, Entry(f.path[n..], f.value).path, p[n..]);
  }

  lemma {:induction false} ForkFromDrop(a: seq<Entry>, n: nat, prefix: Path, p: Path)
    requires |prefix| == n && forall i :: 0 <= i < |a| ==> n <= |a[i].path| && a[i].path[..n] == prefix
    requires n <= |p| && p[..n] == prefix && Branches(Drop(a, n), p[n..])
    ensures Branches(a, p)
  {
    hide Fork;
    var e, f :| e in Drop(a, n) && f in Drop(a, n) && Fork(e.path, f.path, p[n..]);
    var i :| 0 <= i < |a| && Drop(a, n)[i] == e;
    var j :| 0 <= j < |a| && Drop(a, n)[j] == f;
    ForkDrop(a[i].path, a[j].path, p, n);
    assert a[i] in a && a[j] in a;
  }

  lemma {:induction false} ForkDrop(q: Path, r: Path, p: Path, n: nat)
    requires n <= |p| && n <= |q| && n <= |r| && q[..n] == p[..n] && r[..n] == p[..n]
    ensures Fork(q, r, p) <==> Fork(q[n..], r[n..], p[n..])
  {
    ExtendsDrop(q, p, n);
    ExtendsDrop(r, p, n);
  }

  lemma {:induction false} ExtendsDrop(q: Path, p: Path, n: nat)
    requires n <= |p| && n <= |q| && q[..n] == p[..n]
    ensures Extends(q, p) <==> Extends(q[n..], p[n..])
  {
    if |p| < |q| {
      assert q[..|p|] == q[..n] + q[n..][..|p| - n];
      assert p == p[..n] + p[n..];
      assert q[n..][..|p| - n] == q[..|p|][n..];
    }
  }

  /** Going down one nibble keeps forks. */
  lemma {:induction false} BranchesChild(a: seq<Entry>, p: Path)
    requires p != []
    ensures Branches(a, p) <==> Branches(Child(a, p[0]), p[1..])
  {
    hide Child;
    if Branches(a, p) {
      ForkIntoChild(a, p);
    }
    if Branches(Child(a, p[0]), p[1..]) {
      ForkFromChild(a, p);
    }
  }

  lemma {:induction false} ForkIntoChild(a: seq<Entry>, p: Path)
    requires p != [] && Branches(a, p)
    ensures Branches(Child(a, p[0]), p[1..])
  {
    hide Child;
    var e, f :| e in a && f in a && Fork(e.path, f.path, p);
    Below(e, p);
    Below(f, p);
    ForkDrop(e.path, f.path, p, 1);
    hide Fork;
    var e', f' := Entry(e.path[1..], e.value), Entry(f.path[1..], f.value);
    assert e' in Child(a, p[0]) && f' in Child(a, p[0]) && Fork(e'.path, f'.path, p[1..]);
  }

  lemma {:induction false} ForkFromChild(a: seq<Entry>, p: Path)
    requires p != [] && Branches(Child(a, p[0]), p[1..])
    ensures Branches(a, p)
  {
    hide Child, Fork;
    var c := Child(a, p[0]);
    var e, f :| e in c && f in c && Fork(e.path, f.path, p[1..]);
    var e', f' := Entry([p[0]] + e.path, e.value), Entry([p[0]] + f.path, f.value);
    assert e'.path[1..] == e.path && f'.path[1..] == f.path;
    assert e'.path[..1] == [p[0]] == p[..1] && f'.path[..1] == [p[0]];
    ForkDrop(e'.path, f'.path, p, 1);
    assert e' in a && f' in a;
  }

  lemma {:induction false} Below(e: Entry, p: Path)
    requires p != [] && Extends(e.path, p)
    ensures e.path != [] && e.path[0] == p[0] && e.path == [p[0]] + e.path[1..] && e.path[..1] == p[..1]
  {
    assert e.path[0] == e.path[..|p|][0];
  }

  /** At a branch itself there is a fork, unless one of the entries ends there. */
  lemma {:induction false} BranchesHere(a: seq<Entry>)
    requires |a| >= 2 && Lcp(a) == 0 && forall e :: e in a ==> e.path != []
    ensures Branches(a, [])
  {
    assert !AgreeAt(a, 0);
    assert forall i :: 0 <= i < |a| ==> a[i] in a;
    var i :| 0 <= i < |a| && a[i].path[0] != a[0].path[0];
    assert a[0] in a && a[i] in a && Fork(a[0].path, a[i].path, []);
  }

  // ---------------------------------------------------------------------------------------------
  // Binding
  // ---------------------------------------------------------------------------------------------

  /** No two of these strings have the same hash. */
  ghost predicate NoCollision(k: Hash, strings: set<seq<Byte>>) {
    forall s, t :: s in strings && t in strings && k(s) == k(t) ==> s == t
  }

  /** No entry with an empty value lies where other entries fork; a branch could not show it there. */
  ghost predicate NothingHidden(items: seq<Entry>) {
    forall e :: e in items && e.value == [] ==> !Branches(items, e.path)
  }

  /** What both sides of a comparison satisfy. */
  ghost predicate Committable(items: seq<Entry>) {
    Small(items) && Distinct(items) && NothingHidden(items)
  }

  lemma {:induction false} SlotsCons(k: Hash, items: seq<Entry>, m: nat)
    requires Small(items) && m <= 16
    ensures Slots(k, items, m)
            == if m == 16 then [Str(Terminal(items))] else [Str(Slot(k, items, m))] + Slots(k, items, m + 1)
  {
    hide Slot, Terminal, Node, Build, Size, Fits, AllFit, PayloadSize, Child, Weight;
  }

  lemma {:induction false} SlotsAt(k: Hash, items: seq<Entry>, m: nat, n: nat)
    requires Small(items) && m <= n <= 16
    ensures Slots(k, items, m)[n - m] == Str(if n == 16 then Terminal(items) else Slot(k, items, n))
    decreases n - m
  {
    hide Slots, Slot, Terminal, Node, Build, Size, Fits, AllFit, PayloadSize, Child, Weight;
    SlotsCons(k, items, m);
    if m < n {
      SlotsAt(k, items, m + 1, n);
    }
  }

  lemma {:induction false} NodeShapes(k: Hash, items: seq<Entry>)
    requires Small(items)
    ensures items == [] <==> Node(k, items).Str?
    ensures |items| >= 2 && Lcp(items) == 0 ==> |Node(k, items).items| == 17
    ensures items != [] && !(|items| >= 2 && Lcp(items) == 0) ==> |Node(k, items).items| == 2
  {
    hide Compact, Slots, Lcp;
  }

  lemma {:induction false} ExtensionNode(k: Hash, a: seq<Entry>)
    requires Small(a) && |a| >= 2 && Lcp(a) > 0
    requires forall i :: 0 <= i < |a| ==> Lcp(a) <= |a[i].path|
    ensures Node(k, a) == List([Str(Compact(a[0].path[..Lcp(a)], false)), Str(Reference(k, Build(k, Drop(a, Lcp(a)))))])
    ensures Hashed(k, a) == HashedIn(Build(k, Drop(a, Lcp(a)))) + Hashed(k, Drop(a, Lcp(a)))
  {
    hide Slots, Lcp, Compact;
  }

  lemma {:induction false} BranchNode(k: Hash, a: seq<Entry>)
    requires Small(a) && |a| >= 2 && Lcp(a) == 0
    ensures Node(k, a) == List(Slots(k, a, 0))
  {
    hide Slots, Lcp;
  }

  /** Equal references to nodes whose hashes do not collide refer to the same node. */
  lemma {:induction false} ReferenceBinds(k: Hash, s: seq<Byte>, t: seq<Byte>, strings: set<seq<Byte>>)
    requires NoCollision(k, strings) && HashedIn(s) <= strings && HashedIn(t) <= strings
    requires Reference(k, s) == Reference(k, t)
    ensures s == t
  {
    if |s| >= 32 && |t| >= 32 {
      assert s in HashedIn(s) && t in HashedIn(t);
    }
  }

  /** Node encodings determine the entries, as long as the hashes below them do not collide. */
  lemma {:induction false} BuildBinds(k: Hash, a: seq<Entry>, b: seq<Entry>, strings: set<seq<Byte>>)
    requires Committable(a) && Committable(b) && NoCollision(k, strings)
    requires Hashed(k, a) <= strings && Hashed(k, b) <= strings
    requires Build(k, a) == Build(k, b)
    ensures SameEntries(a, b)
    decreases Weight(a)
  {
    hide Slots, Lcp, Compact, Hashed;
    EncodeInjective(Node(k, a), Node(k, b));
    NodeShapes(k, a);
    NodeShapes(k, b);
    if a == [] || b == [] {
    } else if |a| == 1 || |b| == 1 {
      LeafBinds(k, a, b);
    } else if Lcp(a) > 0 {
      ExtensionBinds(k, a, b, strings);
    } else {
      BranchBinds(k, a, b, strings);
    }
  }

  lemma {:induction false} LeafBinds(k: Hash, a: seq<Entry>, b: seq<Entry>)
    requires Small(a) && Small(b) && a != [] && b != [] && (|a| == 1 || |b| == 1) && Node(k, a) == Node(k, b)
    ensures SameEntries(a, b)
  {
    hide Slots, Compact, Lcp;
    NodeShapes(k, a);
    NodeShapes(k, b);
    CompactInjective(KeyOf(a), KeyOf(b), |a| == 1, |b| == 1);
  }

  /** The path stored in a leaf or an extension. */
  function KeyOf(items: seq<Entry>): Path
    requires items != []
  {
    if |items| == 1 then items[0].path else items[0].path[..Lcp(items)]
  }

  lemma {:induction false} ExtensionBinds(k: Hash, a: seq<Entry>, b: seq<Entry>, strings: set<seq<Byte>>)
    requires Committable(a) && Committable(b) && NoCollision(k, strings)
    requires Hashed(k, a) <= strings && Hashed(k, b) <= strings
    requires |a| >= 2 && |b| >= 2 && Lcp(a) > 0 && Node(k, a) == Node(k, b)
    ensures SameEntries(a, b)
    decreases Weight(a), 0
  {
    hide Slots, Compact;
    NodeShapes(k, a);
    NodeShapes(k, b);
    var n := Lcp(a);
    LcpShares(a);
    LcpShares(b);
    CompactInjective(KeyOf(a), KeyOf(b), false, false);
    assert KeyOf(a) == KeyOf(b) && Lcp(b) == n;
    var c, d := Drop(a, n), Drop(b, n);
    DropWeight(a, n);
    DropCommittable(a, n);
    DropCommittable(b, n);
    ReferenceBinds(k, Build(k, c), Build(k, d), strings);
    BuildBinds(k, c, d, strings);
    DropDetermines(a, b, n, a[0].path[..n]);
  }

  lemma {:induction false} DropCommittable(a: seq<Entry>, n: nat)
    requires Committable(a) && a != [] && n == Lcp(a)
    requires forall i :: 0 <= i < |a| ==> n <= |a[i].path| && a[i].path[..n] == a[0].path[..n]
    ensures Committable(Drop(a, n))
  {
    hide Lcp, Branches;
    DropDistinct(a, n);
    var c := Drop(a, n);
    forall e | e in c && e.value == []
      ensures !Branches(c, e.path)
    {
      var i :| 0 <= i < |c| && c[i] == e;
      assert a[i] in a;
      BranchesDrop(a, n, a[0].path[..n], a[i].path);
    }
  }

  lemma {:induction false} DropDetermines(a: seq<Entry>, b: seq<Entry>, n: nat, prefix: Path)
    requires |prefix| == n
    requires forall i :: 0 <= i < |a| ==> n <= |a[i].path| && a[i].path[..n] == prefix
    requires forall i :: 0 <= i < |b| ==> n <= |b[i].path| && b[i].path[..n] == prefix
    requires SameEntries(Drop(a, n), Drop(b, n))
    ensures SameEntries(a, b)
  {
    forall e
      ensures e in a <==> e in b
    {
      DropMember(a, n, prefix, e);
      DropMember(b, n, prefix, e);
    }
  }

  lemma {:induction false} DropMember(a: seq<Entry>, n: nat, prefix: Path, e: Entry)
    requires |prefix| == n && forall i :: 0 <= i < |a| ==> n <= |a[i].path| && a[i].path[..n] == prefix
    ensures e in a <==> n <= |e.path| && e.path[..n] == prefix && Entry(e.path[n..], e.value) in Drop(a, n)
  {
    var c := Drop(a, n);
    if e in a {
      var i :| 0 <= i < |a| && a[i] == e;
      assert c[i] == Entry(e.path[n..], e.value);
    }
    if n <= |e.path| && e.path[..n] == prefix && Entry(e.path[n..], e.value) in c {
      var i :| 0 <= i < |c| && c[i] == Entry(e.path[n..], e.value);
      assert a[i].path == prefix + c[i].path && e.path == prefix + e.path[n..];
      assert a[i] == e;
    }
  }

  lemma {:induction false} BranchBinds(k: Hash, a: seq<Entry>, b: seq<Entry>, strings: set<seq<Byte>>)
    requires Committable(a) && Committable(b) && NoCollision(k, strings)
    requires Hashed(k, a) <= strings && Hashed(k, b) <= strings
    requires |a| >= 2 && |b| >= 2 && Lcp(a) == 0 && Node(k, a) == Node(k, b)
    ensures SameEntries(a, b)
    decreases Weight(a), 0
  {
    hide Slots, Compact, Lcp, Slot, Terminal, Child, Hashed, SameEntries, NoCollision;
    NodeShapes(k, a);
    NodeShapes(k, b);
    SameBranch(k, a, b);
    forall n: Nibble
      ensures SameEntries(Child(a, n), Child(b, n))
    {
      SlotBinds(k, a, b, n, strings);
    }
    ChildrenDetermine(a, b);
  }

  /** Equal branches have equal slots and equal values. */
  lemma {:induction false} SameBranch(k: Hash, a: seq<Entry>, b: seq<Entry>)
    requires Small(a) && Small(b) && Slots(k, a, 0) == Slots(k, b, 0)
    ensures forall n: Nibble :: Slot(k, a, n) == Slot(k, b, n)
    ensures Terminal(a) == Terminal(b)
  {
    hide Slots, Slot, Terminal, Child;
    forall n: Nibble
      ensures Slot(k, a, n) == Slot(k, b, n)
    {
      SlotsAt(k, a, 0, n);
      SlotsAt(k, b, 0, n);
    }
    SlotsAt(k, a, 0, 16);
    SlotsAt(k, b, 0, 16);
  }

  lemma {:induction false} SlotBinds(k: Hash, a: seq<Entry>, b: seq<Entry>, n: Nibble, strings: set<seq<Byte>>)
    requires Committable(a) && Committable(b) && NoCollision(k, strings)
    requires |a| >= 2 && |b| >= 2 && Lcp(a) == 0 && Lcp(b) == 0
    requires Hashed(k, a) <= strings && Hashed(k, b) <= strings
    requires Slot(k, a, n) == Slot(k, b, n)
    ensures SameEntries(Child(a, n), Child(b, n))
    decreases Weight(a), 0, 0
  {
    hide Lcp, Child;
    var c, d := Child(a, n), Child(b, n);
    if c != [] {
      ChildWeight(a, n);
      ChildCommittable(a, n);
      ChildCommittable(b, n);
      ChildHashedWithin(k, a, n);
      ChildHashedWithin(k, b, n);
      ReferenceBinds(k, Build(k, c), Build(k, d), strings);
      BuildBinds(k, c, d, strings);
    }
  }

  lemma {:induction false} ChildHashedWithin(k: Hash, a: seq<Entry>, n: Nibble)
    requires Small(a) && |a| >= 2 && Lcp(a) == 0
    ensures ChildHashed(k, a, n) <= Hashed(k, a)
  {
    hide Lcp, Child, ChildHashed;
    assert n in AllNibbles();
  }

  lemma {:induction false} ChildCommittable(a: seq<Entry>, n: Nibble)
    requires Committable(a)
    ensures Committable(Child(a, n))
  {
    hide Branches;
    ChildSmall(a, n);
    ChildDistinct(a, n);
    var c := Child(a, n);
    forall e | e in c && e.value == []
      ensures !Branches(c, e.path)
    {
      BranchesChild(a, [n] + e.path);
      assert ([n] + e.path)[1..] == e.path;
    }
  }

  lemma {:induction false} ChildDistinct(a: seq<Entry>, n: Nibble)
    requires Distinct(a)
    ensures Distinct(Child(a, n))
  {
    if a != [] {
      var e, rest := a[0], Child(a[1..], n);
      ChildDistinct(a[1..], n);
      if e.path != [] && e.path[0] == n {
        ChildAvoids(a, n);
        var c := Child(a, n);
        assert c[1..] == rest && c[0].path == e.path[1..];
        forall i, j | 0 <= i < j < |c|
          ensures c[i].path != c[j].path
        {
          assert c[j] == rest[j - 1] && (i > 0 ==> c[i] == rest[i - 1]);
        }
      }
    }
  }

  lemma {:induction false} ChildAvoids(a: seq<Entry>, n: Nibble)
    requires Distinct(a) && a != [] && a[0].path != [] && a[0].path[0] == n
    ensures forall j :: 0 <= j < |Child(a[1..], n)| ==> Child(a[1..], n)[j].path != a[0].path[1..]
  {
    hide Child;
    var e, rest := a[0], Child(a[1..], n);
    forall j | 0 <= j < |rest|
      ensures rest[j].path != e.path[1..]
    {
      assert Entry([n] + rest[j].path, rest[j].value) in a[1..];
      assert e.path == [n] + e.path[1..];
    }
  }

  lemma {:induction false} ChildrenDetermine(a: seq<Entry>, b: seq<Entry>)
    requires Distinct(a) && Distinct(b) && NothingHidden(a) && NothingHidden(b)
    requires |a| >= 2 && |b| >= 2 && Lcp(a) == 0 && Lcp(b) == 0
    requires Terminal(a) == Terminal(b)
    requires forall n: Nibble :: SameEntries(Child(a, n), Child(b, n))
    ensures SameEntries(a, b)
  {
    hide Child, Terminal, Lcp, NothingHidden;
    ChildrenWithin(a, b);
    ChildrenWithin(b, a);
  }

  lemma {:induction false} ChildrenWithin(a: seq<Entry>, b: seq<Entry>)
    requires Distinct(a) && Distinct(b) && NothingHidden(a)
    requires |b| >= 2 && Lcp(b) == 0
    requires Terminal(a) == Terminal(b)
    requires forall n: Nibble :: SameEntries(Child(a, n), Child(b, n))
    ensures forall e :: e in a ==> e in b
  {
    hide Child, Terminal, Lcp, NothingHidden, Distinct;
    forall e | e in a
      ensures e in b
    {
      if e.path == [] {
        EndWithin(a, b, e);
      } else {
        var n, f := e.path[0], Entry(e.path[1..], e.value);
        assert e.path == [n] + f.path;
        assert f in Child(a, n) <==> f in Child(b, n);
      }
    }
  }

  /** The entry that ends at a branch, if there is one: without it the others would fork there. */
  lemma {:induction false} EndWithin(a: seq<Entry>, b: seq<Entry>, e: Entry)
    requires Distinct(a) && Distinct(b) && NothingHidden(a)
    requires |b| >= 2 && Lcp(b) == 0
    requires Terminal(a) == Terminal(b)
    requires forall n: Nibble :: SameEntries(Child(a, n), Child(b, n))
    requires e in a && e.path == []
    ensures e in b
  {
    hide Child, Terminal, Lcp, Branches, SameEntries, Distinct;
    TerminalValue(a, e);
    if f :| f in b && f.path == [] {
      TerminalValue(b, f);
      assert e == f;
    } else {
      NoTerminal(b);
      BranchesHere(b);
      SameFork(a, b);
    }
  }

  lemma {:induction false} SameFork(a: seq<Entry>, b: seq<Entry>)
    requires forall n: Nibble :: SameEntries(Child(a, n), Child(b, n))
    requires Branches(b, [])
    ensures Branches(a, [])
  {
    hide Child;
    var e, f :| e in b && f in b && Fork(e.path, f.path, []);
    forall g | g in b && g.path != []
      ensures g in a
    {
      assert g.path == [g.path[0]] + g.path[1..];
      assert Entry(g.path[1..], g.value) in Child(b, g.path[0]);
    }
  }

  lemma {:induction false} FirstIsUnique(a: seq<Entry>)
    requires Distinct(a) && a != []
    ensures forall e :: e in a[1..] ==> e.path != a[0].path
  {
    forall i | 0 <= i < |a[1..]|
      ensures a[1..][i].path != a[0].path
    {
      assert a[1..][i] == a[i + 1];
    }
  }

  // ---------------------------------------------------------------------------------------------
  // Determined by the entries
  // ---------------------------------------------------------------------------------------------

  lemma {:induction false} SingleIsSame(a: seq<Entry>, b: seq<Entry>)
    requires Distinct(a) && Distinct(b) && SameEntries(a, b)
    ensures a == [] <==> b == []
    ensures |a| == 1 <==> |b| == 1
    ensures |a| == 1 ==> a == b
  {
    NoMembers(a);
    NoMembers(b);
    if |a| == 1 {
      OnlyMember(b, a[0]);
    }
    if |b| == 1 {
      OnlyMember(a, b[0]);
    }
  }

  lemma {:induction false} NoMembers(a: seq<Entry>)
    ensures a == [] <==> forall e :: e !in a
  {
    if a != [] {
      assert a[0] in a;
    }
  }

  lemma {:induction false} OnlyMember(a: seq<Entry>, e: Entry)
    requires Distinct(a) && a != [] && forall f :: f in a ==> f == e
    ensures a == [e]
  {
    forall i | 0 <= i < |a|
      ensures a[i] == e
    {
      assert a[i] in a;
    }
    assert a[0].path == a[|a| - 1].path;
  }

  lemma {:induction false} SameAgreement(a: seq<Entry>, b: seq<Entry>, offset: nat)
    requires a != [] && b != [] && SameEntries(a, b)
    ensures AgreeAt(a, offset) ==> AgreeAt(b, offset)
  {
    if AgreeAt(a, offset) {
      forall i | 0 <= i < |b|
        ensures offset < |b[i].path| && b[i].path[offset] == a[0].path[offset]
      {
        assert b[i] in a;
      }
    }
  }

  lemma {:induction false} SamePrefix(a: seq<Entry>, b: seq<Entry>)
    requires a != [] && b != [] && SameEntries(a, b)
    ensures Lcp(a) == Lcp(b) && a[0].path[..Lcp(a)] == b[0].path[..Lcp(a)]
  {
    var m, n := Lcp(a), Lcp(b);
    if m < n {
      SameAgreement(b, a, m);
    } else if n < m {
      SameAgreement(a, b, n);
    }
    LcpShares(a);
    assert b[0] in a;
  }

  /** The order of the entries does not matter: the node is a function of their set. */
  lemma {:induction false} BuildDetermined(k: Hash, a: seq<Entry>, b: seq<Entry>)
    requires Small(a) && Small(b) && Distinct(a) && Distinct(b) && SameEntries(a, b)
    ensures Node(k, a) == Node(k, b)
    decreases Weight(a), 1
  {
    hide Slots, Lcp, Compact, Distinct, SameEntries;
    SingleIsSame(a, b);
    if |a| >= 2 {
      SamePrefix(a, b);
      var n := Lcp(a);
      LcpShares(a);
      LcpShares(b);
      if n > 0 {
        DropWeight(a, n);
        DropDistinct(a, n);
        DropDistinct(b, n);
        SameDrop(a, b, n);
        BuildDetermined(k, Drop(a, n), Drop(b, n));
      } else {
        SameSlots(k, a, b, 0);
      }
    }
  }

  lemma {:induction false} DropDistinct(a: seq<Entry>, n: nat)
    requires Distinct(a) && a != [] && n <= |a[0].path|
    requires forall i :: 0 <= i < |a| ==> n <= |a[i].path| && a[i].path[..n] == a[0].path[..n]
    ensures Distinct(Drop(a, n))
  {
    var c := Drop(a, n);
    forall i, j | 0 <= i < j < |c|
      ensures c[i].path != c[j].path
    {
      assert a[i].path == a[0].path[..n] + c[i].path && a[j].path == a[0].path[..n] + c[j].path;
    }
  }

  lemma {:induction false} SameDrop(a: seq<Entry>, b: seq<Entry>, n: nat)
    requires SameEntries(a, b)
    requires forall i :: 0 <= i < |a| ==> n <= |a[i].path|
    requires forall i :: 0 <= i < |b| ==> n <= |b[i].path|
    ensures SameEntries(Drop(a, n), Drop(b, n))
  {
    DropWithin(a, b, n);
    DropWithin(b, a, n);
  }

  lemma {:induction false} DropWithin(a: seq<Entry>, b: seq<Entry>, n: nat)
    requires forall e :: e in a ==> e in b
    requires forall i :: 0 <= i < |a| ==> n <= |a[i].path|
    requires forall i :: 0 <= i < |b| ==> n <= |b[i].path|
    ensures forall e :: e in Drop(a, n) ==> e in Drop(b, n)
  {
    forall e | e in Drop(a, n)
      ensures e in Drop(b, n)
    {
      var i :| 0 <= i < |a| && Drop(a, n)[i] == e;
      assert a[i] in b;
      var j :| 0 <= j < |b| && b[j] == a[i];
      assert Drop(b, n)[j] == e;
    }
  }

  lemma {:induction false} SameSlots(k: Hash, a: seq<Entry>, b: seq<Entry>, m: nat)
    requires Small(a) && Small(b) && Distinct(a) && Distinct(b) && SameEntries(a, b) && m <= 16
    ensures Slots(k, a, m) == Slots(k, b, m)
    decreases Weight(a), 0, 16 - m
  {
    hide Slots, Slot, Terminal, Child, Distinct, SameEntries;
    SlotsCons(k, a, m);
    SlotsCons(k, b, m);
    if m == 16 {
      SameTerminal(a, b);
    } else {
      SameSlot(k, a, b, m);
      SameSlots(k, a, b, m + 1);
    }
  }

  lemma {:induction false} SameSlot(k: Hash, a: seq<Entry>, b: seq<Entry>, n: Nibble)
    requires Small(a) && Small(b) && Distinct(a) && Distinct(b) && SameEntries(a, b)
    ensures Slot(k, a, n) == Slot(k, b, n)
    decreases Weight(a), 0, 0
  {
    hide Child, Distinct, Build;
    var c, d := Child(a, n), Child(b, n);
    assert SameEntries(c, d);
    ChildDistinct(a, n);
    ChildDistinct(b, n);
    ChildSmall(a, n);
    ChildSmall(b, n);
    ChildWeight(a, n);
    SingleIsSame(c, d);
    if c != [] {
      BuildDetermined(k, c, d);
      assert Build(k, c) == Build(k, d) by {
        BuildIsNode(k, c);
        BuildIsNode(k, d);
      }
    }
  }

  lemma {:induction false} BuildIsNode(k: Hash, items: seq<Entry>)
    requires Small(items)
    ensures Build(k, items) == Encode(Node(k, items))
  {
    hide Node, Encode;
  }

  lemma {:induction false} SameTerminal(a: seq<Entry>, b: seq<Entry>)
    requires Distinct(a) && Distinct(b) && SameEntries(a, b)
    ensures Terminal(a) == Terminal(b)
  {
    hide Terminal;
    if e :| e in a && e.path == [] {
      TerminalValue(a, e);
      TerminalValue(b, e);
    } else {
      NoTerminal(a);
      NoTerminal(b);
    }
  }

  lemma {:induction false} TerminalValue(a: seq<Entry>, e: Entry)
    requires Distinct(a) && e in a && e.path == []
    ensures Terminal(a) == e.value
  {
    assert a == [a[0]] + a[1..];
    var i :| 0 <= i < |a| && a[i] == e;
    if i > 0 {
      assert a[1..][i - 1] == e;
      TerminalValue(a[1..], e);
    }
  }

  lemma {:induction false} NoTerminal(a: seq<Entry>)
    requires forall e :: e in a ==> e.path != []
    ensures Terminal(a) == []
  {
    if a != [] {
      assert a[0] in a && a == [a[0]] + a[1..];
      NoTerminal(a[1..]);
    }
  }

  // ---------------------------------------------------------------------------------------------
  // The root
  // ---------------------------------------------------------------------------------------------

  /** The commitment; for no entries at all this is the hash of the encoded empty string. */
  function Root(k: Hash, items: seq<Entry>): Digest
    requires Small(items)
  {
    k(Build(k, items))
  }

  /** Every string hashed to reach the root. */
  function RootHashed(k: Hash, items: seq<Entry>): set<seq<Byte>>
    requires Small(items)
  {
    Hashed(k, items) + {Build(k, items)}
  }

  /** The root is binding: barring a collision among the finitely many strings actually hashed, two sets of entries none of
      which is hidden have the same root exactly if they are the same set. */
  lemma {:induction false} RootBinds(k: Hash, a: seq<Entry>, b: seq<Entry>)
    requires Committable(a) && Committable(b) && NoCollision(k, RootHashed(k, a) + RootHashed(k, b))
    ensures Root(k, a) == Root(k, b) <==> SameEntries(a, b)
  {
    hide Hashed, Build, SameEntries;
    if Root(k, a) == Root(k, b) {
      assert Build(k, a) in RootHashed(k, a) && Build(k, b) in RootHashed(k, b);
      BuildBinds(k, a, b, RootHashed(k, a) + RootHashed(k, b));
    } else if SameEntries(a, b) {
      BuildDetermined(k, a, b);
      BuildIsNode(k, a);
      BuildIsNode(k, b);
    }
  }

  /** Only the empty trie has the empty root. */
  lemma {:induction false} EmptyRootOnlyForEmpty(k: Hash, a: seq<Entry>)
    requires Committable(a) && NoCollision(k, RootHashed(k, a) + {Encode(Str([]))})
    ensures Root(k, a) == k(Encode(Str([]))) <==> a == []
  {
    hide Build;
    BuildIsNode(k, []);
    RootBinds(k, a, []);
    NoMembers(a);
  }

}
