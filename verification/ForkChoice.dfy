/** Heaviest-subtree fork choice over the blocks a node knows. */
module ForkChoice {
  import opened Sums

  /** A root stands for the block it hashes, so it determines its parent; other roots are anchors such as genesis. */
  datatype Root = Anchor(name: nat) | RootOf(block: BeaconBlock)

  datatype BeaconBlock = BeaconBlock(parent: Root, slot: nat, proposer: nat, body: nat)

  type Children = map<Root, set<Root>>

  datatype LatestMessage = LatestMessage(epoch: nat, root: Root)

  type Messages = map<nat, LatestMessage>

  /** What fork choice reads of the beacon state. */
  datatype BeaconView = BeaconView(justified: Root, finalized: Root, latest: Root, score: nat -> real, boost: real)

  /** Scores are never negative. */
  ghost predicate NonNegative(score: nat -> real) {
    forall i :: score(i) >= 0.0
  }

  // ---------------------------------------------------------------------------------------------
  // Descent
  // ---------------------------------------------------------------------------------------------

  /** `x` hangs below `r` by known blocks only. */
  predicate Descends(blocks: set<Root>, r: Root, x: Root) {
    x in blocks && x.RootOf? && (x.block.parent == r || Descends(blocks, r, x.block.parent))
  }

  function Below(blocks: set<Root>, r: Root): (d: set<Root>)
    ensures forall x :: x in d <==> Descends(blocks, r, x)
  {
    set x | x in blocks && Descends(blocks, r, x)
  }

  /** A root with everything below it. */
  function Subtree(blocks: set<Root>, r: Root): set<Root> {
    Below(blocks, r) + {r}
  }

  lemma {:induction false} DescendsTrans(blocks: set<Root>, r: Root, y: Root, x: Root)
    requires Descends(blocks, r, y) && Descends(blocks, y, x)
    ensures Descends(blocks, r, x)
    decreases x
  {
    if x.block.parent != y {
      DescendsTrans(blocks, r, y, x.block.parent);
    }
  }

  function Depth(x: Root): nat {
    if x.Anchor? then 0 else 1 + Depth(x.block.parent)
  }

  lemma {:induction false} DescendantIsDeeper(blocks: set<Root>, r: Root, x: Root)
    requires Descends(blocks, r, x)
    ensures Depth(r) < Depth(x)
    decreases x
  {
    if x.block.parent != r {
      DescendantIsDeeper(blocks, r, x.block.parent);
    }
  }

  /** Below a root, every block is a child or below a child. */
  lemma {:induction false} ThroughChild(blocks: set<Root>, r: Root, x: Root) returns (c: Root)
    requires Descends(blocks, r, x)
    ensures c in blocks && c.RootOf? && c.block.parent == r && (x == c || Descends(blocks, c, x))
    decreases x
  {
    if x.block.parent == r {
      c := x;
    } else {
      c := ThroughChild(blocks, r, x.block.parent);
    }
  }

  /** Two ancestors of one block are comparable. */
  lemma {:induction false} AncestorsComparable(blocks: set<Root>, a: Root, b: Root, x: Root)
    requires (x == a || Descends(blocks, a, x)) && (x == b || Descends(blocks, b, x))
    ensures a == b || Descends(blocks, a, b) || Descends(blocks, b, a)
    decreases x
  {
    if x != a && x != b {
      AncestorsComparable(blocks, a, b, x.block.parent);
    }
  }

  /** Subtrees of different children of one parent share nothing. */
  lemma {:induction false} SiblingsDisjoint(blocks: set<Root>, a: Root, b: Root)
    requires a.RootOf? && b.RootOf? && a.block.parent == b.block.parent && a != b
    ensures Subtree(blocks, a) !! Subtree(blocks, b)
  {
    forall x | x in Subtree(blocks, a) && x in Subtree(blocks, b)
      ensures false
    {
      AncestorsComparable(blocks, a, b, x);
      if Descends(blocks, a, b) {
        DescendantIsDeeper(blocks, a, b);
      } else {
        DescendantIsDeeper(blocks, b, a);
      }
    }
  }

  // ---------------------------------------------------------------------------------------------
  // Votes
  // ---------------------------------------------------------------------------------------------

  function VotersIn(messages: Messages, within: set<Root>): set<nat> {
    set i | i in messages && messages[i].root in within
  }

  /** Total score of the validators whose latest message lies in `within`. */
  ghost function Votes(messages: Messages, score: nat -> real, within: set<Root>): real {
    ScoreOf(score, VotersIn(messages, within))
  }

  /** All votes there are, for whatever block. */
  ghost function TotalVotes(messages: Messages, score: nat -> real): real {
    ScoreOf(score, messages.Keys)
  }

  lemma VotesMonotone(messages: Messages, score: nat -> real, a: set<Root>, b: set<Root>)
    requires a <= b && NonNegative(score)
    ensures Votes(messages, score, a) <= Votes(messages, score, b)
  {
    ScoreMonotone(score, VotersIn(messages, a), VotersIn(messages, b));
  }

  /** Disjoint sets of blocks cannot together hold more votes than there are. */
  lemma DisjointVotes(messages: Messages, score: nat -> real, a: set<Root>, b: set<Root>)
    requires a !! b && NonNegative(score)
    ensures Votes(messages, score, a) + Votes(messages, score, b) <= TotalVotes(messages, score)
  {
    var va, vb := VotersIn(messages, a), VotersIn(messages, b);
    ScoreSplit(score, va, vb);
    ScoreMonotone(score, va + vb, messages.Keys);
  }

  // ---------------------------------------------------------------------------------------------
  // The rule
  // ---------------------------------------------------------------------------------------------

  /** Everything the rule depends on. `order` is the order of roots as strings. */
  datatype Tree = Tree(
    blocks: set<Root>, messages: Messages, score: nat -> real, boosted: set<Root>, boost: real, order: Root -> int)

  ghost function Weight(t: Tree, r: Root): real {
    Votes(t.messages, t.score, Subtree(t.blocks, r)) + if r in t.boosted then t.boost else 0.0
  }

  predicate IsChild(t: Tree, p: Root, c: Root) {
    c in t.blocks && c.RootOf? && c.block.parent == p
  }

  /** Lexicographic order of weight, slot and root. */
  predicate NotBetter(weight: real, slot: nat, order: int, otherWeight: real, otherSlot: nat, otherOrder: int) {
    weight < otherWeight || (weight == otherWeight && (slot < otherSlot || (slot == otherSlot && order <= otherOrder)))
  }

  /** No other child weighs more, or weighs the same and is newer, or is as new and has the larger root. */
  ghost predicate BestChild(t: Tree, p: Root, c: Root) {
    && IsChild(t, p, c)
    && forall d :: IsChild(t, p, d) ==>
         NotBetter(Weight(t, d), d.block.slot, t.order(d), Weight(t, c), c.block.slot, t.order(c))
  }

  ghost predicate Childless(t: Tree, p: Root) {
    forall c :: !IsChild(t, p, c)
  }

  ghost predicate GoodStep(t: Tree, path: seq<Root>, i: nat)
    requires i + 1 < |path|
  {
    BestChild(t, path[i], path[i + 1])
  }

  /** The walk from the justified root along best children to a block without children. */
  ghost predicate HeadPath(t: Tree, path: seq<Root>, justified: Root) {
    && path != [] && path[0] == justified
    && (forall i :: 0 <= i < |path| - 1 ==> GoodStep(t, path, i))
    && Childless(t, path[|path| - 1])
  }

  /** More than half of all votes and boost stand behind the subtree of `d`. */
  ghost predicate Majority(t: Tree, d: Root) {
    2.0 * Votes(t.messages, t.score, Subtree(t.blocks, d)) > TotalVotes(t.messages, t.score) + t.boost
  }

  /** A child whose subtree holds more than half of all votes and boost outweighs every sibling. */
  lemma MajorityChildWins(t: Tree, p: Root, c: Root, best: Root, d: Root)
    requires NonNegative(t.score) && t.boost >= 0.0
    requires IsChild(t, p, c) && BestChild(t, p, best) && (d == c || Descends(t.blocks, c, d))
    requires Majority(t, d)
    ensures best == c
  {
    hide Votes;
    SubtreeWithin(t.blocks, c, d);
    VotesMonotone(t.messages, t.score, Subtree(t.blocks, d), Subtree(t.blocks, c));
    if best != c {
      SiblingsDisjoint(t.blocks, c, best);
      DisjointVotes(t.messages, t.score, Subtree(t.blocks, c), Subtree(t.blocks, best));
    }
  }

  lemma SubtreeWithin(blocks: set<Root>, c: Root, d: Root)
    requires d == c || Descends(blocks, c, d)
    ensures Subtree(blocks, d) <= Subtree(blocks, c)
  {
    if d != c {
      forall x | x in Subtree(blocks, d)
        ensures x in Subtree(blocks, c)
      {
        if x != d {
          DescendsTrans(blocks, c, d, x);
        }
      }
    }
  }

  /** Any block below the justified root whose subtree holds more than half of all votes and boost lies on the walk. */
  lemma {:induction false} MajorityIsOnPath(t: Tree, path: seq<Root>, justified: Root, d: Root)
    requires NonNegative(t.score) && t.boost >= 0.0 && HeadPath(t, path, justified)
    requires d == justified || Descends(t.blocks, justified, d)
    requires Majority(t, d)
    ensures d in path
    decreases |path|
  {
    hide Votes, BestChild;
    if d != justified {
      var c := ThroughChild(t.blocks, justified, d);
      assert IsChild(t, justified, c);
      assert |path| > 1;
      assert GoodStep(t, path, 0);
      MajorityChildWins(t, justified, c, path[1], d);
      TailWalk(t, path, justified);
      MajorityIsOnPath(t, path[1..], c, d);
    }
  }

  /** With an order that tells roots apart there is only one walk, and so only one head. */
  lemma {:induction false} WalkIsUnique(t: Tree, p: seq<Root>, q: seq<Root>, justified: Root)
    requires HeadPath(t, p, justified) && HeadPath(t, q, justified)
    requires forall c, d :: c in t.blocks && d in t.blocks && t.order(c) == t.order(d) ==> c == d
    ensures p == q
    decreases |p|
  {
    hide Weight, NotBetter;
    WalkGoesOn(t, p, justified);
    WalkGoesOn(t, q, justified);
    if |p| > 1 {
      assert GoodStep(t, p, 0) && GoodStep(t, q, 0);
      BestIsUnique(t, justified, p[1], q[1]);
      TailWalk(t, p, justified);
      TailWalk(t, q, justified);
      WalkIsUnique(t, p[1..], q[1..], p[1]);
      assert p == [p[0]] + p[1..] && q == [q[0]] + q[1..];
    }
  }

  /** The walk goes on exactly as long as there are children. */
  lemma WalkGoesOn(t: Tree, path: seq<Root>, justified: Root)
    requires HeadPath(t, path, justified)
    ensures |path| > 1 <==> !Childless(t, justified)
  {
    hide Weight, NotBetter;
    if |path| > 1 {
      assert GoodStep(t, path, 0);
      assert IsChild(t, justified, path[1]);
    }
  }

  lemma BestIsUnique(t: Tree, p: Root, c: Root, d: Root)
    requires BestChild(t, p, c) && BestChild(t, p, d)
    requires forall a, b :: a in t.blocks && b in t.blocks && t.order(a) == t.order(b) ==> a == b
    ensures c == d
  {
    hide Weight;
  }

  lemma TailWalk(t: Tree, path: seq<Root>, justified: Root)
    requires HeadPath(t, path, justified) && |path| > 1
    ensures HeadPath(t, path[1..], path[1])
  {
    hide BestChild;
    var rest := path[1..];
    forall i | 0 <= i < |rest| - 1
      ensures GoodStep(t, rest, i)
    {
      assert GoodStep(t, path, i + 1);
    }
  }

  /** What comes later on the walk lies below what comes before. */
  lemma {:induction false} WalkDescends(t: Tree, path: seq<Root>, justified: Root, i: nat, j: nat)
    requires HeadPath(t, path, justified) && i <= j < |path|
    ensures path[j] in Subtree(t.blocks, path[i])
    decreases j
  {
    hide BestChild;
    if i < j {
      WalkDescends(t, path, justified, i, j - 1);
      assert GoodStep(t, path, j - 1);
      BestIsChild(t, path[j - 1], path[j]);
      if path[j - 1] != path[i] {
        DescendsTrans(t.blocks, path[i], path[j - 1], path[j]);
      }
    }
  }

  /** So the head itself lies in every subtree that holds a majority. */
  lemma HeadIsInMajority(t: Tree, path: seq<Root>, justified: Root, d: Root)
    requires NonNegative(t.score) && t.boost >= 0.0 && HeadPath(t, path, justified)
    requires d in Subtree(t.blocks, justified) && Majority(t, d)
    ensures path[|path| - 1] in Subtree(t.blocks, d)
  {
    hide Majority, HeadPath, Descends, NonNegative;
    MajorityIsOnPath(t, path, justified, d);
    var i :| 0 <= i < |path| && path[i] == d;
    WalkDescends(t, path, justified, i, |path| - 1);
  }

  // ---------------------------------------------------------------------------------------------
  // What the walk goes by
  // ---------------------------------------------------------------------------------------------

  /** The weight of a block: the scores of all validators whose latest message names it or a block below it, and the boost
      if it is the block that was proposed last. */
  lemma WeightMeaning(t: Tree, r: Root, who: set<nat>)
    requires forall i :: i in who <==>
      i in t.messages && (t.messages[i].root == r || Descends(t.blocks, r, t.messages[i].root))
    ensures Weight(t, r) == ScoreOf(t.score, who) + (if r in t.boosted then t.boost else 0.0)
  {
    assert VotersIn(t.messages, Subtree(t.blocks, r)) == who;
  }

  /** At every step the walk takes the child of greatest weight, the newest among those, and the one with the largest root
      among the newest. */
  lemma StepMeaning(t: Tree, path: seq<Root>, justified: Root, i: nat, d: Root)
    requires HeadPath(t, path, justified) && i + 1 < |path|
    requires d in t.blocks && d.RootOf? && d.block.parent == path[i]
    ensures var c := path[i + 1];
      && c in t.blocks && c.RootOf? && c.block.parent == path[i] && Weight(t, d) <= Weight(t, c)
      && (Weight(t, d) == Weight(t, c) ==> d.block.slot <= c.block.slot)
      && (Weight(t, d) == Weight(t, c) && d.block.slot == c.block.slot ==> t.order(d) <= t.order(c))
  {
    hide Weight;
    assert GoodStep(t, path, i);
  }

  /** Validators with more than half of all scores and boost decide: once their latest messages name a block, it holds a
      majority, whatever the others have said or say. */
  lemma AttestersDecide(t: Tree, attesters: set<nat>, d: Root)
    requires NonNegative(t.score) && attesters <= t.messages.Keys
    requires forall i :: i in attesters ==> t.messages[i].root in Subtree(t.blocks, d)
    requires 2.0 * ScoreOf(t.score, attesters) > ScoreOf(t.score, t.messages.Keys) + t.boost
    ensures Majority(t, d)
  {
    hide Subtree;
    ScoreMonotone(t.score, attesters, VotersIn(t.messages, Subtree(t.blocks, d)));
  }

  // ---------------------------------------------------------------------------------------------
  // The store
  // ---------------------------------------------------------------------------------------------

  /** The child index is exactly the parent relation of the known blocks. */
  ghost predicate Indexed(blocks: map<Root, BeaconBlock>, children: Children) {
    && (forall r :: r in blocks ==> r == RootOf(blocks[r]) && r.block.parent in children && r in children[r.block.parent])
    && (forall p, c :: p in children && c in children[p] ==> c in blocks && c.block.parent == p)
  }

  function Siblings(children: Children, p: Root): set<Root> {
    if p in children then children[p] else {}
  }

  lemma AddKeepsIndex(blocks: map<Root, BeaconBlock>, children: Children, block: BeaconBlock)
    requires Indexed(blocks, children)
    ensures Indexed(blocks[RootOf(block) := block],
                    children[block.parent := Siblings(children, block.parent) + {RootOf(block)}])
  {
  }

  lemma IndexedChildren(blocks: map<Root, BeaconBlock>, children: Children, p: Root)
    requires Indexed(blocks, children)
    ensures forall c :: c in Siblings(children, p) <==> c in blocks.Keys && c.RootOf? && c.block.parent == p
  {
    forall c | c in blocks.Keys && c.RootOf? && c.block.parent == p
      ensures c in Siblings(children, p)
    {
      assert c in blocks && c.block.parent in children;
    }
    forall c | c in Siblings(children, p)
      ensures c in blocks.Keys && c.RootOf? && c.block.parent == p
    {
      assert c in blocks;
    }
  }

  /** What the worklist has found so far, and where it must still look. */
  ghost predicate Sweep(blocks: set<Root>, r: Root, found: set<Root>, frontier: seq<Root>) {
    && found <= Below(blocks, r)
    && (forall x :: x in frontier ==> x in Below(blocks, r))
    && (forall c :: c in blocks && c.RootOf? && (c.block.parent == r || c.block.parent in found) ==> c in found || c in frontier)
  }

  lemma SweepKnown(blocks: set<Root>, r: Root, found: set<Root>, frontier: seq<Root>, child: Root)
    requires Sweep(blocks, r, found, frontier + [child]) && child in found
    ensures Sweep(blocks, r, found, frontier)
  {
    hide Below;
    assert child in frontier + [child];
    assert forall x :: x in frontier ==> x in frontier + [child];
  }

  lemma SweepNew(blocks: set<Root>, r: Root, found: set<Root>, frontier: seq<Root>, child: Root, more: seq<Root>)
    requires Sweep(blocks, r, found, frontier + [child])
    requires forall c :: c in more <==> c in blocks && c.RootOf? && c.block.parent == child
    ensures child in Below(blocks, r) && Sweep(blocks, r, found + {child}, frontier + more)
  {
    hide Below;
    assert child in frontier + [child];
    assert forall x :: x in frontier ==> x in frontier + [child];
    forall x | x in frontier + more
      ensures x in Below(blocks, r)
    {
      if x in more {
        DescendsTrans(blocks, r, child, x);
      }
    }
    forall c | c in blocks && c.RootOf? && (c.block.parent == r || c.block.parent in found + {child})
      ensures c in found + {child} || c in frontier + more
    {
      assert c in frontier + [child] ==> c in frontier || c == child;
    }
  }

  lemma SweepStart(blocks: set<Root>, r: Root, frontier: seq<Root>)
    requires forall c :: c in frontier <==> c in blocks && c.RootOf? && c.block.parent == r
    ensures Sweep(blocks, r, {}, frontier)
  {
  }

  lemma SweepDone(blocks: set<Root>, r: Root, found: set<Root>)
    requires Sweep(blocks, r, found, [])
    ensures found == Below(blocks, r)
  {
    forall x | x in Below(blocks, r)
      ensures x in found
    {
      AllFound(blocks, r, found, x);
    }
    assert Below(blocks, r) <= found;
  }

  datatype BoostRoot = NoBoost | BoostOn(root: Root)

  class ForkChoiceStore {
    const order: Root -> int
    var justifiedRoot: Root
    var finalizedRoot: Root
    var blocks: map<Root, BeaconBlock>
    var children: Children
    var latestMessages: Messages
    var boostRoot: BoostRoot
    var boostScore: real

    ghost predicate Valid()
      reads this
    {
      Indexed(blocks, children) && boostScore >= 0.0
    }

    ghost function View(score: nat -> real): Tree
      reads this
    {
      Tree(blocks.Keys, latestMessages, score, if boostRoot.NoBoost? then {} else {boostRoot.root}, boostScore, order)
    }

    constructor (justified: Root, finalized: Root, order: Root -> int)
      ensures this.order == order
      ensures Valid() && justifiedRoot == justified && finalizedRoot == finalized && blocks == map[] && boostScore == 0.0
      ensures latestMessages == map[]
    {
      this.order := order;
      justifiedRoot, finalizedRoot := justified, finalized;
      blocks, children, latestMessages := map[], map[], map[];
      boostRoot, boostScore := NoBoost, 0.0;
    }

    method OnBlock(block: BeaconBlock, v: BeaconView) returns (root: Root)
      requires Valid()
      modifies this
      ensures Valid() && root == RootOf(block) && blocks == old(blocks)[root := block]
      ensures justifiedRoot == v.justified && finalizedRoot == v.finalized && latestMessages == old(latestMessages)
      ensures boostRoot == BoostOn(root)
      ensures boostScore >= old(boostScore) && boostScore >= v.score(block.proposer) * v.boost
      ensures boostScore == old(boostScore) || boostScore == v.score(block.proposer) * v.boost
    {
      hide Indexed;
      root := RootOf(block);
      AddKeepsIndex(blocks, children, block);
      blocks := blocks[root := block];
      var siblings := if block.parent in children then children[block.parent] else {};
      children := children[block.parent := siblings + {root}];
      justifiedRoot, finalizedRoot := v.justified, v.finalized;
      boostRoot := BoostOn(root);
      var score := v.score(block.proposer) * v.boost;
      if score > boostScore {
        boostScore := score;
      }
    }

    /** The latest message of every attester is replaced. */
    method OnAttestation(attesters: seq<nat>, message: LatestMessage, v: BeaconView)
      requires Valid()
      modifies this
      ensures Valid() && blocks == old(blocks) && boostRoot == old(boostRoot) && boostScore == old(boostScore)
      ensures justifiedRoot == v.justified && finalizedRoot == v.finalized
      ensures forall i :: i in latestMessages <==> i in old(latestMessages) || i in attesters
      ensures forall i :: i in latestMessages ==>
        latestMessages[i] == if i in attesters then message else old(latestMessages)[i]
    {
      var k := 0;
      while k < |attesters|
        invariant 0 <= k <= |attesters| && Valid()
        invariant blocks == old(blocks) && boostRoot == old(boostRoot) && boostScore == old(boostScore)
        invariant forall i :: i in latestMessages <==> i in old(latestMessages) || i in attesters[..k]
        invariant forall i :: i in latestMessages ==>
          latestMessages[i] == if i in attesters[..k] then message else old(latestMessages)[i]
      {
        assert attesters[..k + 1] == attesters[..k] + [attesters[k]];
        latestMessages := latestMessages[attesters[k] := message];
        k := k + 1;
      }
      assert attesters[..k] == attesters;
      justifiedRoot, finalizedRoot := v.justified, v.finalized;
    }

    method ChildrenOf(r: Root) returns (kids: set<Root>)
      requires Valid()
      ensures forall c :: c in kids <==> c in blocks && c.RootOf? && c.block.parent == r
    {
      hide Indexed;
      IndexedChildren(blocks, children, r);
      kids := if r in children then children[r] else {};
    }

    /** The worklist finds exactly the blocks below a root. */
    method DescendantsOf(r: Root) returns (found: set<Root>)
      requires Valid()
      ensures found == Below(blocks.Keys, r)
    {
      hide Indexed, Sweep, Below;
      found := {};
      var kids := ChildrenOf(r);
      var frontier := Listing(kids);
      SweepStart(blocks.Keys, r, frontier);
      while frontier != []
        invariant Sweep(blocks.Keys, r, found, frontier)
        decreases Below(blocks.Keys, r) - found, |frontier|
      {
        var child := frontier[|frontier| - 1];
        var rest := frontier[..|frontier| - 1];
        assert frontier == rest + [child];
        if child in found {
          SweepKnown(blocks.Keys, r, found, rest, child);
          frontier := rest;
          continue;
        }
        kids := ChildrenOf(child);
        var more := Listing(kids);
        SweepNew(blocks.Keys, r, found, rest, child, more);
        found := found + {child};
        frontier := rest + more;
      }
      SweepDone(blocks.Keys, r, found);
    }

    /** Score behind the subtree of a root, with the boost if the root itself carries it. */
    method SubtreeVoteWeight(score: nat -> real, r: Root) returns (weight: real)
      requires Valid()
      ensures weight == Weight(View(score), r)
    {
      weight := 0.0;
      var descendants := DescendantsOf(r);
      descendants := descendants + {r};
      var todo := latestMessages.Keys;
      ghost var voters: set<nat> := {};
      while todo != {}
        invariant todo <= latestMessages.Keys
        invariant voters == set i | i in latestMessages && i !in todo && latestMessages[i].root in descendants
        invariant weight == ScoreOf(score, voters)
        decreases todo
      {
        var i :| i in todo;
        todo := todo - {i};
        if latestMessages[i].root in descendants {
          ScoreAdd(score, voters, i);
          voters := voters + {i};
          weight := weight + score(i);
        }
      }
      assert voters == VotersIn(latestMessages, descendants);
      if boostRoot == BoostOn(r) {
        weight := weight + boostScore;
      }
    }

    /** The child of greatest weight, the newest among equals, and of the largest root among those. */
    method BestOf(score: nat -> real, p: Root, kids: set<Root>) returns (best: Root)
      requires Valid() && kids != {}
      requires forall c :: c in kids <==> IsChild(View(score), p, c)
      ensures BestChild(View(score), p, best)
    {
      hide Weight;
      best :| best in kids;
      var bestWeight := SubtreeVoteWeight(score, best);
      var todo := kids - {best};
      while todo != {}
        invariant best in kids && todo <= kids && bestWeight == Weight(View(score), best)
        invariant forall d :: d in kids - todo ==>
          NotBetter(Weight(View(score), d), d.block.slot, order(d), bestWeight, best.block.slot, order(best))
        decreases todo
      {
        var child :| child in todo;
        var weight := SubtreeVoteWeight(score, child);
        todo := todo - {child};
        if !NotBetter(weight, child.block.slot, order(child), bestWeight, best.block.slot, order(best)) {
          best, bestWeight := child, weight;
        }
      }
    }

    /** Walks from the justified root along best children, unless that root is unknown. */
    method GetHead(v: BeaconView) returns (head: Root, ghost path: seq<Root>)
      requires Valid()
      ensures justifiedRoot !in blocks && justifiedRoot != finalizedRoot ==> head == v.latest && path == []
      ensures justifiedRoot in blocks || justifiedRoot == finalizedRoot ==>
        HeadPath(View(v.score), path, justifiedRoot) && head == path[|path| - 1]
      ensures justifiedRoot in blocks || justifiedRoot == finalizedRoot ==>
        head in Subtree(blocks.Keys, justifiedRoot) && Childless(View(v.score), head)
      ensures (justifiedRoot in blocks || justifiedRoot == finalizedRoot) && NonNegative(v.score) ==>
        forall d :: d in Subtree(blocks.Keys, justifiedRoot) && Majority(View(v.score), d) ==> head in Subtree(blocks.Keys, d)
    {
      hide BestChild, Below, Majority, NonNegative;
      var current := justifiedRoot;
      path := [];
      if current !in blocks && current != finalizedRoot {
        return v.latest, path;
      }
      path := [current];
      var kids := ChildrenOf(current);
      while kids != {}
        invariant path != [] && path[0] == justifiedRoot && path[|path| - 1] == current
        invariant forall i :: 0 <= i < |path| - 1 ==> GoodStep(View(v.score), path, i)
        invariant forall c :: c in kids <==> IsChild(View(v.score), current, c)
        decreases Below(blocks.Keys, current)
      {
        var best := BestOf(v.score, current, kids);
        BestIsChild(View(v.score), current, best);
        BelowShrinks(blocks.Keys, current, best);
        ghost var longer := path + [best];
        forall i | 0 <= i < |longer| - 1
          ensures GoodStep(View(v.score), longer, i)
        {
          assert i < |path| - 1 ==> GoodStep(View(v.score), path, i);
        }
        path := longer;
        current := best;
        kids := ChildrenOf(current);
      }
      WalkDescends(View(v.score), path, justifiedRoot, 0, |path| - 1);
      forall d | NonNegative(v.score) && d in Subtree(blocks.Keys, justifiedRoot) && Majority(View(v.score), d)
        ensures current in Subtree(blocks.Keys, d)
      {
        HeadIsInMajority(View(v.score), path, justifiedRoot, d);
      }
      return current, path;
    }
  }

  lemma BestIsChild(t: Tree, p: Root, c: Root)
    requires BestChild(t, p, c)
    ensures IsChild(t, p, c)
  {
  }

  /** A child has strictly less below it. */
  lemma BelowShrinks(blocks: set<Root>, p: Root, c: Root)
    requires c in blocks && c.RootOf? && c.block.parent == p
    ensures Below(blocks, c) < Below(blocks, p)
  {
    forall x | x in Below(blocks, c)
      ensures x in Below(blocks, p)
    {
      DescendsTrans(blocks, p, c, x);
    }
    if Descends(blocks, c, c) {
      DescendantIsDeeper(blocks, c, c);
    }
    assert c in Below(blocks, p) && c !in Below(blocks, c);
  }

  /** Whatever is closed under taking children contains everything below. */
  lemma {:induction false} AllFound(blocks: set<Root>, r: Root, found: set<Root>, x: Root)
    requires forall c :: c in blocks && c.RootOf? && c.block.parent == r ==> c in found
    requires forall y, c :: y in found && c in blocks && c.RootOf? && c.block.parent == y ==> c in found
    requires Descends(blocks, r, x)
    ensures x in found
    decreases x
  {
    if x.block.parent != r {
      AllFound(blocks, r, found, x.block.parent);
    }
  }

  /** The elements of a set in some order. */
  method Listing(s: set<Root>) returns (l: seq<Root>)
    ensures forall x :: x in l <==> x in s
  {
    l := [];
    var todo := s;
    while todo != {}
      invariant todo <= s && forall x :: x in l <==> x in s - todo
      decreases todo
    {
      var x :| x in todo;
      l := l + [x];
      todo := todo - {x};
    }
  }
}
