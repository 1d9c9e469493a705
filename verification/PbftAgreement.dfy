/** When one committee can finalize two blocks of the same height: exactly how many members must be handed both. */
module PbftAgreement {
  import opened Collections
  import opened Pbft
  import opened PbftProgress
  import opened PbftRuns

  /** Some node finalized the block itself, or stored it. */
  ghost predicate Final(g: Global, body: Body) {
    exists n :: n in g.nodes && FinalAt(g.nodes[n], body)
  }

  predicate FinalAt(s: NodeState, body: Body) {
    (KeyOf(body) in s.sessions && s.sessions[KeyOf(body)].finalized) || HashOf(body) in s.byHash
  }

  ghost predicate Disagree(g: Global, c: Committee, height: int) {
    exists a, b :: Final(g, a) && Final(g, b) && a != b && IsBlock(a, c, height) && IsBlock(b, c, height)
  }

  predicate IsBlock(body: Body, c: Committee, height: int) {
    body.committee == c && body.height == height
  }

  predicate HandedTwo(handed: set<(NodeId, Key)>, n: NodeId, c: Committee, height: int) {
    exists p, q :: p in handed && q in handed && p.0 == n && q.0 == n && p.1 != q.1
      && p.1.committee == c && q.1.committee == c && p.1.body.height == height && q.1.body.height == height
  }

  /** Honest members of the committee that were handed two different blocks of one height. */
  function TwiceHanded(init: Global, events: seq<Event>, c: Committee, height: int): set<NodeId> {
    set n | n in Honest(init, c) && HandedTwo(Handed(events), n, c, height)
  }

  // ---------------------------------------------------------------------------------------------
  // Agreement
  // ---------------------------------------------------------------------------------------------

  /** Whoever validated a block was handed it, and registration never changes. */
  lemma {:induction false} ValidatedWasHanded(init: Global, events: seq<Event>)
    requires RunAll(init, events).Reached?
    ensures var g := RunAll(init, events).state;
      && g.nodes.Keys == init.nodes.Keys && g.net.bad == init.net.bad
      && forall v :: v in g.net.validated ==>
           v in init.net.validated || ((v.node, v.key) in Handed(events) && v.node in init.nodes)
    decreases |events|
  {
    hide OnTask, OnVote, OnGossip, OnPropose, ValidateBlock, Handed;
    if events != [] {
      var front, e := events[..|events| - 1], events[|events| - 1];
      ValidatedWasHanded(init, front);
      HandedSnoc(front, e);
      assert front + [e] == events;
    }
  }

  /** So whoever prevoted is an honest member that was handed the block. */
  lemma PrevotersWereHanded(init: Global, events: seq<Event>, g: Global, body: Body)
    requires Initial(init) && RunAll(init, events) == Reached(g) && Certificate(g.net, body)
    ensures var voters := Voters(g.net, Prevote, KeyOf(body));
      && voters <= Honest(init, body.committee) && |voters| >= Quorum(|body.committee.members|)
      && forall n :: n in voters ==> (n, KeyOf(body)) in Handed(events)
  {
    hide Voters, Handed, RunAll;
    ValidatedWasHanded(init, events);
    forall n | n in Voters(g.net, Prevote, KeyOf(body))
      ensures n in Honest(init, body.committee) && (n, KeyOf(body)) in Handed(events)
    {
      assert ValidatedOwnHead(g.net, n, KeyOf(body));
    }
  }

  lemma FinalMeansCertified(init: Global, events: seq<Event>, g: Global, body: Body)
    requires Initial(init) && RunAll(init, events) == Reached(g) && Final(g, body)
    ensures Certificate(g.net, body)
  {
    hide Certificate, RunAll;
    var n :| n in g.nodes && FinalAt(g.nodes[n], body);
    assert Reachable(g);
    FinalizedMeansCertified(g, n);
  }

  /** Two blocks of one committee and height are final only if enough honest members were handed two. */
  lemma DisagreementNeeds(init: Global, events: seq<Event>, g: Global, c: Committee, height: int)
    requires Initial(init) && RunAll(init, events) == Reached(g) && Disagree(g, c, height)
    ensures var q, h := Quorum(|c.members|), Honest(init, c);
      |h| >= q && |TwiceHanded(init, events, c, height)| >= 2 * q - |h|
  {
    hide Voters, Certificate, RunAll, Final, Honest, Initial, Handed;
    var a, b :| Final(g, a) && Final(g, b) && a != b && IsBlock(a, c, height) && IsBlock(b, c, height);
    FinalMeansCertified(init, events, g, a);
    FinalMeansCertified(init, events, g, b);
    PrevotersWereHanded(init, events, g, a);
    PrevotersWereHanded(init, events, g, b);
    var va, vb := Voters(g.net, Prevote, KeyOf(a)), Voters(g.net, Prevote, KeyOf(b));
    OverlapSize(va, vb, Honest(init, c));
    SubsetSize(va, Honest(init, c));
    forall n | n in va * vb
      ensures n in TwiceHanded(init, events, c, height)
    {
      var p, q := (n, KeyOf(a)), (n, KeyOf(b));
      assert p in Handed(events) && q in Handed(events) && p.1 != q.1;
      assert HandedTwo(Handed(events), n, c, height);
    }
    SubsetSize(va * vb, TwiceHanded(init, events, c, height));
  }

  lemma HonestWithin(g: Global, c: Committee)
    ensures |Honest(g, c)| <= |c.members|
  {
    ElementsSize(c.members);
    SubsetSize(Honest(g, c), Elements(c.members));
  }

  /** Agreement per height: while fewer than 2q - n of the n members are handed two blocks of one height, at most one of
      that height becomes final. In particular when nobody is. */
  lemma AgreementHolds(init: Global, events: seq<Event>, g: Global, a: Body, b: Body)
    requires Initial(init) && RunAll(init, events) == Reached(g) && Final(g, a) && Final(g, b)
    requires a.committee == b.committee && a.height == b.height
    requires var n := |a.committee.members|; |TwiceHanded(init, events, a.committee, a.height)| < 2 * Quorum(n) - n
    ensures a == b
  {
    hide RunAll, Initial, Final, TwiceHanded, Honest;
    if a != b {
      assert IsBlock(a, a.committee, a.height) && IsBlock(b, a.committee, a.height);
      assert Disagree(g, a.committee, a.height);
      DisagreementNeeds(init, events, g, a.committee, a.height);
      HonestWithin(init, a.committee);
    }
  }

  // ---------------------------------------------------------------------------------------------
  // Disagreement
  // ---------------------------------------------------------------------------------------------

  function FirstKey(c: Committee, transaction: nat): Key {
    KeyOf(Body(Genesis, [transaction], c, 0, 1, c.members))
  }

  lemma {:induction false} PartOf<T>(s: set<T>, size: nat) returns (part: set<T>)
    requires size <= |s|
    ensures part <= s && |part| == size
    decreases s
  {
    if size == |s| {
      part := s;
    } else {
      var x :| x in s;
      part := PartOf(s - {x}, size);
    }
  }

  /** Two quorums among the honest members that share no more than they must, and share them inside `d`. */
  lemma TwoQuorums(h: set<NodeId>, d: set<NodeId>, q: nat) returns (va: set<NodeId>, vb: set<NodeId>)
    requires d <= h && |h| >= q && |d| >= 2 * q - |h|
    ensures va <= h && vb <= h && |va| >= q && |vb| >= q && va * vb <= d
  {
    if 2 * q <= |h| {
      va := PartOf(h, q);
      vb := h - va;
    } else {
      var both := PartOf(d, 2 * q - |h|);
      var rest := h - both;
      var half := PartOf(rest, |h| - q);
      va, vb := both + half, both + (rest - half);
    }
  }

  /** The run: each quorum is handed one of two blocks, and only `d` is handed both. */
  lemma DisagreementRun(init: Global, c: Committee, d: set<NodeId>) returns (events: seq<Event>, g: Global)
    requires Initial(init) && d <= Honest(init, c)
    requires |Honest(init, c)| >= Quorum(|c.members|) && |d| >= 2 * Quorum(|c.members|) - |Honest(init, c)|
    ensures RunAll(init, events) == Reached(g) && TwiceHanded(init, events, c, 1) <= d && Disagree(g, c, 1)
  {
    hide Grew, Honest, Initial, RunAll, Prompt, Handed, Final, FirstBlock;
    var va, vb := TwoQuorums(Honest(init, c), d, Quorum(|c.members|));
    FirstKeys(c);
    var keyA, keyB := FirstKey(c, 0), FirstKey(c, 1);
    var t := FinalizeBoth(init, va, keyA, vb, keyB);
    events, g := t.events, t.state;
    FinalSomewhere(g, va, keyA);
    FinalSomewhere(g, vb, keyB);
    assert IsBlock(keyA.body, c, 1) && IsBlock(keyB.body, c, 1);
    OnlyShared(init, events, va, keyA, vb, keyB, c);
  }

  lemma FirstKeys(c: Committee)
    ensures var keyA, keyB := FirstKey(c, 0), FirstKey(c, 1);
      && FirstBlock(keyA) && FirstBlock(keyB) && keyA.body != keyB.body && keyA.committee == keyB.committee == c
  {
    assert FirstKey(c, 0).body.transactions[0] != FirstKey(c, 1).body.transactions[0];
  }

  lemma FinalSomewhere(g: Global, voters: set<NodeId>, key: Key)
    requires (forall n :: n in voters ==> Answered(g, n, Commit, key)) && |voters| >= 1 && key == KeyOf(key.body)
    ensures Final(g, key.body)
  {
    var n :| n in voters;
    assert Answered(g, n, Commit, key);
    assert FinalAt(g.nodes[n], key.body);
  }

  lemma OnlyShared(
    init: Global, events: seq<Event>, va: set<NodeId>, keyA: Key, vb: set<NodeId>, keyB: Key, c: Committee)
    requires Handed(events) == (set n | n in va :: (n, keyA)) + (set n | n in vb :: (n, keyB))
    ensures TwiceHanded(init, events, c, 1) <= va * vb
  {
    hide Honest, Handed;
    forall n | n in TwiceHanded(init, events, c, 1)
      ensures n in va * vb
    {
      var p, q :| p in Handed(events) && q in Handed(events) && p.0 == n && q.0 == n && p.1 != q.1;
    }
  }

  // ---------------------------------------------------------------------------------------------
  // The exact condition
  // ---------------------------------------------------------------------------------------------

  /** Some run, in which only members in `d` are handed two blocks of one height, makes two such blocks final. */
  ghost predicate CanDisagree(init: Global, c: Committee, d: set<NodeId>) {
    exists events, height ::
      && RunAll(init, events).Reached? && Disagree(RunAll(init, events).state, c, height)
      && TwiceHanded(init, events, c, height) <= d
  }

  /** For every network, committee and set of members that may be handed two blocks. */
  lemma DisagreementIff(init: Global, c: Committee, d: set<NodeId>)
    requires Initial(init) && d <= Honest(init, c)
    ensures CanDisagree(init, c, d) <==>
      |Honest(init, c)| >= Quorum(|c.members|) && |d| >= 2 * Quorum(|c.members|) - |Honest(init, c)|
  {
    hide RunAll, Initial, Disagree, TwiceHanded, Honest;
    if CanDisagree(init, c, d) {
      var events, height :|
        && RunAll(init, events).Reached? && Disagree(RunAll(init, events).state, c, height)
        && TwiceHanded(init, events, c, height) <= d;
      DisagreementNeeds(init, events, RunAll(init, events).state, c, height);
      SubsetSize(TwiceHanded(init, events, c, height), d);
    }
    if |Honest(init, c)| >= Quorum(|c.members|) && |d| >= 2 * Quorum(|c.members|) - |Honest(init, c)| {
      var events, g := DisagreementRun(init, c, d);
      assert Disagree(RunAll(init, events).state, c, 1);
    }
  }

  /** With proposals left free, a committee can disagree exactly if its honest members reach a quorum at all. */
  lemma CommitteeDisagreesIff(init: Global, c: Committee)
    requires Initial(init)
    ensures CanDisagree(init, c, Honest(init, c)) <==> |Honest(init, c)| >= Quorum(|c.members|)
  {
    hide CanDisagree, Initial, Honest;
    DisagreementIff(init, c, Honest(init, c));
  }

  // ---------------------------------------------------------------------------------------------
  // The smallest committee that needs more than one vote
  // ---------------------------------------------------------------------------------------------

  const PAIR := Committee(0, [0, 1])
  const KEY_A := FirstKey(PAIR, 0)
  const KEY_B := FirstKey(PAIR, 1)
  const TWO_NODES := Global(map[0 := NewNode(0, false, {}), 1 := NewNode(1, false, {})], Net({}, {}, {}, {}))

  /** Two honest members prevote two blocks of one height, because the flag that stops a second prevote is kept per
      block, and both finalize both. */
  lemma AgreementFails() returns (g: Global)
    ensures Reachable(g) && g.nodes.Keys == {0, 1} && !g.nodes[0].malicious && !g.nodes[1].malicious
    ensures KEY_A.body != KEY_B.body && KEY_A.body.height == KEY_B.body.height && KEY_A.committee == KEY_B.committee
    ensures forall n :: n in {0, 1} ==> Vote(Prevote, KEY_A, n) in g.net.sent && Vote(Prevote, KEY_B, n) in g.net.sent
    ensures forall n :: n in {0, 1} ==> KEY_A in g.nodes[n].sessions && g.nodes[n].sessions[KEY_A].finalized
    ensures forall n :: n in {0, 1} ==> KEY_B in g.nodes[n].sessions && g.nodes[n].sessions[KEY_B].finalized
  {
    FirstKeys(PAIR);
    PairIsHonest();
    hide RunAll, Prompt, Handed, FirstBlock, NodeLe, Ready, Honest;
    var t := FinalizeBoth(TWO_NODES, {0, 1}, KEY_A, {0, 1}, KEY_B);
    g := t.state;
    assert forall n :: n in TWO_NODES.nodes ==> NodeGrew(TWO_NODES.nodes[n], g.nodes[n]);
    forall n | n in {0, 1}
      ensures Answered(g, n, Commit, KEY_A) && Answered(g, n, Commit, KEY_B)
    {
    }
    assert RunAll(TWO_NODES, t.events) == Reached(g);
    SameMalice(TWO_NODES, g, 0);
    SameMalice(TWO_NODES, g, 1);
  }

  lemma PairIsHonest()
    ensures Initial(TWO_NODES) && Honest(TWO_NODES, PAIR) == {0, 1} && |{0, 1}| == Quorum(|PAIR.members|) == 2
  {
    assert PAIR.members[0] == 0 && PAIR.members[1] == 1;
    assert {0, 1} == {0} + {1};
  }

  lemma SameMalice(g: Global, h: Global, n: NodeId)
    requires Grew(g, h) && n in g.nodes
    ensures n in h.nodes && h.nodes[n].malicious == g.nodes[n].malicious
  {
    assert NodeGrew(g.nodes[n], h.nodes[n]);
  }
}
