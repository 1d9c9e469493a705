/** Where the trie is not binding: exactly which entries with an empty value its root does not show. */
module TrieEmptyValues {
  import opened Bytes
  import opened Rlp
  import opened Trie

  /** An empty value is taken for no value at a branch, so an entry that has one shows only where no others fork. */
  ghost predicate Shows(a: seq<Entry>, e: Entry) {
    e.value != [] || !Branches(a, e.path)
  }

  ghost function Shown(items: seq<Entry>, a: seq<Entry>): (r: seq<Entry>)
    ensures forall e :: e in r <==> e in items && Shows(a, e)
  {
    if items == [] then []
    else
      assert items == [items[0]] + items[1..];
      (if Shows(a, items[0]) then [items[0]] else []) + Shown(items[1..], a)
  }

  /** The entries of `a` that its root shows. */
  ghost function Visible(a: seq<Entry>): seq<Entry> {
    Shown(a, a)
  }

  lemma {:induction false} ShownCons(items: seq<Entry>, a: seq<Entry>)
    ensures Shown(items, a)
      == if items == [] then [] else (if Shows(a, items[0]) then [items[0]] else []) + Shown(items[1..], a)
  {
  }

  lemma {:induction false} ShownDistinct(items: seq<Entry>, a: seq<Entry>)
    requires Distinct(items)
    ensures Distinct(Shown(items, a))
  {
    hide Shows, Shown;
    ShownCons(items, a);
    if items != [] {
      ShownDistinct(items[1..], a);
      FirstIsUnique(items);
      DistinctCons(items[0], Shown(items[1..], a));
    }
  }

  lemma {:induction false} DistinctCons(e: Entry, rest: seq<Entry>)
    requires Distinct(rest) && forall f :: f in rest ==> f.path != e.path
    ensures Distinct([e] + rest) && [] + rest == rest
  {
  }

  /** What hides an entry is still there among the visible ones, which therefore hide nothing themselves. */
  lemma {:induction false} VisibleCommittable(a: seq<Entry>)
    requires Small(a) && Distinct(a)
    ensures Committable(Visible(a))
  {
    var v := Visible(a);
    ShownDistinct(a, a);
    forall i | 0 <= i < |v|
      ensures |v[i].path| < MAX_SIZE && |v[i].value| < MAX_SIZE
    {
      assert v[i] in v;
    }
  }

  // ---------------------------------------------------------------------------------------------
  // Hidden entries leave the shape alone
  // ---------------------------------------------------------------------------------------------

  lemma {:induction false} Forked(a: seq<Entry>, p: Path) returns (e: Entry)
    requires Branches(a, p)
    ensures e in a && Extends(e.path, p)
  {
    var f;
    e, f :| e in a && f in a && Fork(e.path, f.path, p);
  }

  /** Every path can be followed to one that is shown. */
  lemma {:induction false} LeadsToVisible(a: seq<Entry>, e: Entry) returns (f: Entry)
    requires Small(a) && e in a
    ensures f in Visible(a) && |e.path| <= |f.path| && f.path[..|e.path|] == e.path
    decreases MAX_SIZE - |e.path|
  {
    hide Branches, Shown;
    f := e;
    if !Shows(a, e) {
      var g := Forked(a, e.path);
      f := LeadsToVisible(a, g);
      assert f.path[..|e.path|] == f.path[..|g.path|][..|e.path|];
    }
  }

  lemma {:induction false} VisibleBranches(a: seq<Entry>, p: Path)
    requires Small(a)
    ensures Branches(Visible(a), p) <==> Branches(a, p)
  {
    hide Fork, Shown, Shows;
    if Branches(a, p) {
      var e, f :| e in a && f in a && Fork(e.path, f.path, p);
      var e' := LeadsToVisible(a, e);
      var f' := LeadsToVisible(a, f);
      ForkAbove(e.path, f.path, p, e'.path, f'.path);
    }
  }

  lemma {:induction false} ForkAbove(q: Path, r: Path, p: Path, q': Path, r': Path)
    requires Fork(q, r, p) && |q| <= |q'| && q'[..|q|] == q && |r| <= |r'| && r'[..|r|] == r
    ensures Fork(q', r', p)
  {
    assert q'[..|p|] == q[..|p|] && q'[|p|] == q[|p|];
    assert r'[..|p|] == r[..|p|] && r'[|p|] == r[|p|];
  }

  lemma {:induction false} StillMany(a: seq<Entry>)
    requires Small(a) && Distinct(a) && |a| >= 2
    ensures |Visible(a)| >= 2
  {
    hide Branches;
    var v := Visible(a);
    if e :| e in a && !Shows(a, e) {
      VisibleBranches(a, e.path);
      TwoOfFork(v, e.path);
    } else {
      assert a[0] in v && a[1] in v && a[0].path != a[1].path;
    }
  }

  lemma {:induction false} TwoOfFork(v: seq<Entry>, p: Path)
    requires Branches(v, p)
    ensures |v| >= 2
  {
  }

  lemma {:induction false} SamePrefixShown(a: seq<Entry>)
    requires Small(a) && Distinct(a) && |a| >= 2
    ensures |Visible(a)| >= 2 && Lcp(Visible(a)) == Lcp(a)
    ensures forall i :: 0 <= i < |a| ==> Lcp(a) <= |a[i].path| && a[i].path[..Lcp(a)] == a[0].path[..Lcp(a)]
    ensures Visible(a)[0].path[..Lcp(a)] == a[0].path[..Lcp(a)]
  {
    hide Shown, Branches, Shows;
    StillMany(a);
    LcpShares(a);
    var v := Visible(a);
    assert v[0] in v;
    var m, n := Lcp(v), Lcp(a);
    if m < n {
      AgreementShown(a, m);
    } else if n < m {
      AgreementHidden(a, n);
    }
  }

  lemma {:induction false} AgreementShown(a: seq<Entry>, j: nat)
    requires a != [] && Visible(a) != [] && AgreeAt(a, j)
    ensures AgreeAt(Visible(a), j)
  {
    hide Shown, Shows;
    var v := Visible(a);
    forall i | 0 <= i < |v|
      ensures j < |v[i].path| && v[i].path[j] == a[0].path[j]
    {
      assert v[i] in v;
    }
  }

  lemma {:induction false} AgreementHidden(a: seq<Entry>, j: nat)
    requires Small(a) && a != [] && Visible(a) != [] && j < Lcp(Visible(a))
    ensures AgreeAt(a, j)
  {
    hide Shown, Shows, Lcp, Branches;
    var v := Visible(a);
    LcpShares(v);
    var prefix := v[0].path[..Lcp(v)];
    forall e | e in a
      ensures j < |e.path| && e.path[j] == prefix[j]
    {
      ReachesPrefix(a, e, prefix);
    }
    assert forall i :: 0 <= i < |a| ==> a[i] in a;
  }

  /** What all visible entries start with, the hidden ones start with too: each of them ends where visible ones part. */
  lemma {:induction false} ReachesPrefix(a: seq<Entry>, e: Entry, prefix: Path)
    requires Small(a) && e in a
    requires forall f :: f in Visible(a) ==> |prefix| <= |f.path| && f.path[..|prefix|] == prefix
    ensures |prefix| <= |e.path| && e.path[..|prefix|] == prefix
  {
    hide Shown, Fork;
    var v := Visible(a);
    if Shows(a, e) {
      assert e in v;
    } else {
      VisibleBranches(a, e.path);
      var f, g :| f in v && g in v && Fork(f.path, g.path, e.path);
      ForkBelow(f.path, g.path, e.path, prefix);
    }
  }

  lemma {:induction false} ForkNotInside(q: Path, r: Path, p: Path, prefix: Path)
    requires Fork(q, r, p) && |prefix| <= |q| && |prefix| <= |r| && q[..|prefix|] == prefix == r[..|prefix|]
    ensures |prefix| <= |p|
  {
    forall i | 0 <= i < |prefix|
      ensures q[i] == r[i]
    {
      assert q[i] == prefix[i] == r[i];
    }
  }

  lemma {:induction false} ForkBelow(q: Path, r: Path, p: Path, prefix: Path)
    requires Fork(q, r, p) && |prefix| <= |q| && |prefix| <= |r| && q[..|prefix|] == prefix == r[..|prefix|]
    ensures |prefix| <= |p| && p[..|prefix|] == prefix
  {
    ForkNotInside(q, r, p, prefix);
    assert p[..|prefix|] == q[..|p|][..|prefix|] == q[..|prefix|];
  }

  lemma {:induction false} DropShown(items: seq<Entry>, a: seq<Entry>, n: nat, prefix: Path)
    requires |prefix| == n && forall i :: 0 <= i < |a| ==> n <= |a[i].path| && a[i].path[..n] == prefix
    requires forall i :: 0 <= i < |items| ==> n <= |items[i].path| && items[i].path[..n] == prefix
    ensures forall i :: 0 <= i < |Shown(items, a)| ==> n <= |Shown(items, a)[i].path|
    ensures Drop(Shown(items, a), n) == Shown(Drop(items, n), Drop(a, n))
  {
    hide Branches, Shown;
    ShownCons(items, a);
    ShownCons(Drop(items, n), Drop(a, n));
    if items != [] {
      DropShown(items[1..], a, n, prefix);
      BranchesDrop(a, n, prefix, items[0].path);
      assert Drop(items, n)[1..] == Drop(items[1..], n);
    }
  }

  lemma {:induction false} ChildShown(items: seq<Entry>, a: seq<Entry>, n: Nibble)
    ensures Child(Shown(items, a), n) == Shown(Child(items, n), Child(a, n))
  {
    hide Branches, Child, Shown, Contribution, Shows;
    ShownCons(items, a);
    if items == [] {
      NoChild(n);
      ShownCons(Child(items, n), Child(a, n));
    } else {
      var e, rest := items[0], Shown(items[1..], a);
      ChildShown(items[1..], a, n);
      ChildCons(items, n);
      if Shows(a, e) {
        assert Shown(items, a)[1..] == rest;
        ChildCons(Shown(items, a), n);
      } else {
        assert Shown(items, a) == rest;
      }
      OneShown(e, a, n, Child(items[1..], n));
    }
  }

  lemma {:induction false} NoChild(n: Nibble)
    ensures Child([], n) == []
  {
  }

  /** An entry shows exactly if it shows in the child it goes to. */
  lemma {:induction false} OneShown(e: Entry, a: seq<Entry>, n: Nibble, rest: seq<Entry>)
    ensures Shown(Contribution(e, n) + rest, Child(a, n))
         == (if Shows(a, e) then Contribution(e, n) else []) + Shown(rest, Child(a, n))
  {
    hide Branches, Child, Shown;
    if e.path != [] && e.path[0] == n {
      var f := Entry(e.path[1..], e.value);
      assert ([f] + rest)[1..] == rest;
      ShownCons([f] + rest, Child(a, n));
      BranchesChild(a, e.path);
    } else {
      assert Contribution(e, n) + rest == rest;
    }
  }

  /** What one entry contributes to a child. */
  function Contribution(e: Entry, n: Nibble): seq<Entry> {
    if e.path != [] && e.path[0] == n then [Entry(e.path[1..], e.value)] else []
  }

  lemma {:induction false} ChildCons(a: seq<Entry>, n: Nibble)
    requires a != []
    ensures Child(a, n) == Contribution(a[0], n) + Child(a[1..], n)
  {
  }

  lemma {:induction false} TerminalShown(a: seq<Entry>)
    requires Distinct(a)
    ensures Terminal(Visible(a)) == Terminal(a)
  {
    hide Terminal, Branches, Shown, Distinct;
    var v := Visible(a);
    ShownDistinct(a, a);
    if e :| e in a && e.path == [] {
      TerminalValue(a, e);
      if Shows(a, e) {
        TerminalValue(v, e);
      } else {
        forall f | f in v
          ensures f.path != []
        {
          if f.path == [] {
            OneByPath(a, e, f);
          }
        }
        NoTerminal(v);
      }
    } else {
      NoTerminal(a);
      NoTerminal(v);
    }
  }

  lemma {:induction false} OneByPath(a: seq<Entry>, e: Entry, f: Entry)
    requires Distinct(a) && e in a && f in a && e.path == f.path
    ensures e == f
  {
  }

  // ---------------------------------------------------------------------------------------------
  // The node shows the visible entries
  // ---------------------------------------------------------------------------------------------

  /** Leaving the hidden entries out changes neither the node nor anything hashed below it. */
  lemma {:induction false} NodeOfVisible(k: Hash, a: seq<Entry>)
    requires Small(a) && Distinct(a)
    ensures Small(Visible(a)) && Node(k, Visible(a)) == Node(k, a) && Hashed(k, Visible(a)) == Hashed(k, a)
    decreases Weight(a), 1
  {
    hide Slots, Lcp, Compact, Hashed, Branches, Node, Shown, Distinct;
    VisibleCommittable(a);
    if |a| <= 1 {
      AllVisible(a);
    } else {
      SamePrefixShown(a);
      if Lcp(a) > 0 {
        ExtensionOfVisible(k, a);
      } else {
        BranchOfVisible(k, a);
      }
    }
  }

  lemma {:induction false} AllVisible(a: seq<Entry>)
    requires |a| <= 1
    ensures Visible(a) == a
  {
    if a != [] {
      assert a[1..] == [] && Shown(a[1..], a) == [] && a == [a[0]];
    }
  }

  lemma {:induction false} ExtensionOfVisible(k: Hash, a: seq<Entry>)
    requires Small(a) && Distinct(a) && |a| >= 2 && Lcp(a) > 0
    ensures Small(Visible(a)) && Node(k, Visible(a)) == Node(k, a) && Hashed(k, Visible(a)) == Hashed(k, a)
    decreases Weight(a), 0
  {
    hide Slots, Lcp, Compact, Hashed, Branches, Node, Shown, Distinct, Build;
    var n, v := Lcp(a), Visible(a);
    VisibleCommittable(a);
    SamePrefixShown(a);
    LcpShares(v);
    DropShown(a, a, n, a[0].path[..n]);
    DropWeight(a, n);
    DropDistinct(a, n);
    NodeOfVisible(k, Drop(a, n));
    BuildIsNode(k, Drop(a, n));
    BuildIsNode(k, Drop(v, n));
    ExtensionNode(k, a);
    ExtensionNode(k, v);
  }

  lemma {:induction false} BranchOfVisible(k: Hash, a: seq<Entry>)
    requires Small(a) && Distinct(a) && |a| >= 2 && Lcp(a) == 0 && |Visible(a)| >= 2 && Lcp(Visible(a)) == 0
    ensures Small(Visible(a)) && Node(k, Visible(a)) == Node(k, a) && Hashed(k, Visible(a)) == Hashed(k, a)
    decreases Weight(a), 0, 18
  {
    hide Slots, Lcp, Hashed, ChildHashed, Child, Shown, Distinct, Slot;
    var v := Visible(a);
    VisibleCommittable(a);
    forall n: Nibble
      ensures Slot(k, v, n) == Slot(k, a, n) && ChildHashed(k, v, n) == ChildHashed(k, a, n)
    {
      SlotOfVisible(k, a, n);
    }
    TerminalShown(a);
    SlotsAgree(k, a, v, 0);
    BranchNode(k, a);
    BranchNode(k, v);
    HashedAgree(k, a, v);
  }

  lemma {:induction false} SlotOfVisible(k: Hash, a: seq<Entry>, n: Nibble)
    requires Small(a) && Distinct(a)
    ensures Small(Visible(a)) && Slot(k, Visible(a), n) == Slot(k, a, n)
    ensures ChildHashed(k, Visible(a), n) == ChildHashed(k, a, n)
    decreases Weight(a), 0, 17
  {
    hide Child, Shown, Distinct, Hashed, Build, Branches;
    var c := Child(a, n);
    VisibleCommittable(a);
    ChildShown(a, a, n);
    ChildWeight(a, n);
    ChildSmall(a, n);
    ChildDistinct(a, n);
    if c == [] {
      AllVisible(c);
    } else {
      SomeVisible(c);
      NodeOfVisible(k, c);
      BuildIsNode(k, c);
      BuildIsNode(k, Visible(c));
    }
  }

  lemma {:induction false} SomeVisible(a: seq<Entry>)
    requires Small(a) && a != []
    ensures Visible(a) != []
  {
    var f := LeadsToVisible(a, a[0]);
  }

  lemma {:induction false} SlotsAgree(k: Hash, a: seq<Entry>, b: seq<Entry>, m: nat)
    requires Small(a) && Small(b) && m <= 16 && Terminal(a) == Terminal(b)
    requires forall n: Nibble :: Slot(k, b, n) == Slot(k, a, n)
    ensures Slots(k, a, m) == Slots(k, b, m)
    decreases 16 - m
  {
    hide Slots, Slot, Terminal;
    SlotsCons(k, a, m);
    SlotsCons(k, b, m);
    if m < 16 {
      SlotsAgree(k, a, b, m + 1);
    }
  }

  lemma {:induction false} HashedAgree(k: Hash, a: seq<Entry>, b: seq<Entry>)
    requires Small(a) && Small(b) && |a| >= 2 && |b| >= 2 && Lcp(a) == 0 && Lcp(b) == 0
    requires forall n: Nibble :: ChildHashed(k, b, n) == ChildHashed(k, a, n)
    ensures Hashed(k, a) == Hashed(k, b)
  {
    hide Lcp, ChildHashed;
  }

  // ---------------------------------------------------------------------------------------------
  // The root
  // ---------------------------------------------------------------------------------------------

  /** For any two sets of entries whatsoever: the roots agree exactly if the visible entries do. */
  lemma {:induction false} RootShows(k: Hash, a: seq<Entry>, b: seq<Entry>)
    requires Small(a) && Distinct(a) && Small(b) && Distinct(b)
    requires NoCollision(k, RootHashed(k, a) + RootHashed(k, b))
    ensures Root(k, a) == Root(k, b) <==> SameEntries(Visible(a), Visible(b))
  {
    hide Hashed, Build, Node, Visible, SameEntries, NoCollision;
    RootOfVisible(k, a);
    RootOfVisible(k, b);
    RootBinds(k, Visible(a), Visible(b));
  }

  lemma {:induction false} RootOfVisible(k: Hash, a: seq<Entry>)
    requires Small(a) && Distinct(a)
    ensures Committable(Visible(a)) && Root(k, Visible(a)) == Root(k, a) && RootHashed(k, Visible(a)) == RootHashed(k, a)
  {
    hide Hashed, Build, Node, Visible;
    VisibleCommittable(a);
    NodeOfVisible(k, a);
    BuildIsNode(k, a);
    BuildIsNode(k, Visible(a));
  }

  function With(a: seq<Entry>, p: Path): seq<Entry> {
    a + [Entry(p, [])]
  }

  /** The root fails to show an added entry with an empty value exactly if the other entries fork at its path. */
  lemma {:induction false} EmptyValueHidden(k: Hash, a: seq<Entry>, p: Path)
    requires Small(With(a, p)) && Small(a) && Distinct(With(a, p))
    requires NoCollision(k, RootHashed(k, a) + RootHashed(k, With(a, p)))
    ensures Root(k, a) == Root(k, With(a, p)) <==> Branches(a, p)
  {
    hide RootHashed, Root, NoCollision, Branches;
    assert Distinct(a) by {
      assert forall i :: 0 <= i < |a| ==> With(a, p)[i] == a[i];
    }
    RootShows(k, a, With(a, p));
    VisibleWith(a, p);
  }

  lemma {:induction false} VisibleWith(a: seq<Entry>, p: Path)
    requires Small(With(a, p)) && Distinct(With(a, p))
    ensures SameEntries(Visible(a), Visible(With(a, p))) <==> Branches(a, p)
  {
    hide Shown, Branches;
    var w, e := With(a, p), Entry(p, []);
    ForksWith(a, p);
    assert e !in a by {
      assert w[|a|] == e && forall i :: 0 <= i < |a| ==> w[i] == a[i];
    }
    if Branches(a, p) {
      forall q
        ensures Branches(w, q) <==> Branches(a, q)
      {
        VisibleBranches(w, q);
        if Branches(w, q) {
          ForksWithin(Visible(w), a, q);
        } else if Branches(a, q) {
          ForksWithin(a, w, q);
        }
      }
    } else {
      assert e in Visible(w);
    }
  }

  lemma {:induction false} ForksWithin(a: seq<Entry>, b: seq<Entry>, p: Path)
    requires Branches(a, p) && forall e :: e in a ==> e in b
    ensures Branches(b, p)
  {
  }

  /** An entry is not part of a fork at its own path. */
  lemma {:induction false} ForksWith(a: seq<Entry>, p: Path)
    ensures Branches(With(a, p), p) <==> Branches(a, p)
  {
    if Branches(With(a, p), p) {
      var e, f :| e in With(a, p) && f in With(a, p) && Fork(e.path, f.path, p);
      assert e in a && f in a;
    }
  }
}
