/** A chain can grow: whatever blocks are proposed one on top of the other, honest members finalize them one by one. */
module PbftGrowth {
  import opened Collections
  import opened Pbft
  import opened PbftProgress
  import opened PbftTrack
  import opened PbftRuns

  // ---------------------------------------------------------------------------------------------
  // One more block
  // ---------------------------------------------------------------------------------------------

  /** An honest member that has this head, and no session for the block. */
  predicate CanTake(g: Global, n: NodeId, key: Key) {
    && n in g.nodes && n in key.committee.members && !g.nodes[n].malicious && g.nodes[n].id == n
    && g.nodes[n].head == key.body.parent && g.nodes[n].height + 1 == key.body.height
    && key !in g.nodes[n].sessions
  }

  /** A block for the committee it names, with its members and without repeated transactions. */
  predicate WellFormed(key: Key) {
    key == KeyOf(key.body) && key.body.members == key.committee.members && NoRepeats(key.body.transactions)
  }

  /** The block was accepted and waits for its votes. */
  predicate HasTaken(g: Global, n: NodeId, key: Key) {
    && n in Honest(g, key.committee) && Ready(g.nodes[n], key) && OnTrack(g.nodes[n], key)
    && !g.nodes[n].sessions[key].finalized
  }

  lemma OneTakes(g: Global, n: NodeId, key: Key)
    requires CanTake(g, n, key) && WellFormed(key)
    ensures Enabled(g, Propose(n, key)) && HasTaken(Occur(g, Propose(n, key)), n, key)
    ensures forall m :: m in g.nodes && m != n ==> Occur(g, Propose(n, key)).nodes[m] == g.nodes[m]
    ensures Occur(g, Propose(n, key)).nodes.Keys == g.nodes.Keys
    ensures Occur(g, Propose(n, key)).nodes[n].sessions.Keys == g.nodes[n].sessions.Keys + {key}
  {
    var s := g.nodes[n];
    assert ValidateBlock(s, key);
    ProposedIsReady(s, key);
  }

  /** Sessions are opened for this block only. */
  ghost predicate OnlyOpened(g: Global, h: Global, nodes: set<NodeId>, key: Key) {
    && h.nodes.Keys == g.nodes.Keys
    && forall n :: n in g.nodes ==> h.nodes[n].sessions.Keys <= g.nodes[n].sessions.Keys + {key}
  }

  /** Everybody in `nodes` is handed the block, and takes it. */
  lemma {:induction false} ProposeAll(init: Global, r: Run, nodes: set<NodeId>, key: Key) returns (t: Run)
    requires IsRun(init, r) && WellFormed(key) && forall n :: n in nodes ==> CanTake(r.state, n, key)
    ensures IsRun(init, t) && Grew(r.state, t.state) && OnlyOpened(r.state, t.state, nodes, key)
    ensures forall n :: n in nodes ==> HasTaken(t.state, n, key)
    ensures forall n :: n in r.state.nodes && n !in nodes ==> t.state.nodes[n] == r.state.nodes[n]
    decreases nodes
  {
    hide IsRun, Grew, Occur, WellFormed, HasTaken, CanTake;
    if nodes == {} {
      t := r;
      GrewSelf(r.state);
    } else {
      var n :| n in nodes;
      TakersExist(r.state, nodes, key);
      var t1 := ProposeAll(init, r, nodes - {n}, key);
      Untouched(r.state, t1.state, n, key);
      OneTakes(t1.state, n, key);
      t := Extend(init, t1, Propose(n, key));
      GrewTrans(r.state, t1.state, t.state);
      forall m | m in nodes
        ensures HasTaken(t.state, m, key)
      {
        if m != n {
          TakenExists(t1.state, m, key);
          StillTaken(t1.state, t.state, m, key);
        }
      }
    }
  }

  lemma TakersExist(g: Global, nodes: set<NodeId>, key: Key)
    requires forall n :: n in nodes ==> CanTake(g, n, key)
    ensures nodes <= g.nodes.Keys
  {
  }

  lemma TakenExists(g: Global, n: NodeId, key: Key)
    requires HasTaken(g, n, key)
    ensures n in g.nodes
  {
  }

  lemma Untouched(g: Global, h: Global, n: NodeId, key: Key)
    requires CanTake(g, n, key) && n in h.nodes && h.nodes[n] == g.nodes[n]
    ensures CanTake(h, n, key)
  {
  }

  lemma StillTaken(g: Global, h: Global, m: NodeId, key: Key)
    requires HasTaken(g, m, key) && m in h.nodes && h.nodes[m] == g.nodes[m]
    ensures HasTaken(h, m, key)
  {
    hide Ready, OnTrack;
  }

  /** All of `nodes` have this block as their head. */
  predicate AllAt(g: Global, nodes: set<NodeId>, head: Hash, height: int) {
    forall n :: n in nodes ==> n in g.nodes && g.nodes[n].head == head && g.nodes[n].height == height
  }

  lemma TakenIsReady(g: Global, nodes: set<NodeId>, key: Key)
    requires forall n :: n in nodes ==> HasTaken(g, n, key)
    ensures AllReady(g, nodes, key) && forall n :: n in nodes ==> n in g.nodes && OnTrack(g.nodes[n], key)
  {
    hide Ready, OnTrack;
  }

  lemma FinalizedIsHead(g: Global, nodes: set<NodeId>, key: Key)
    requires forall n :: n in nodes ==> Answered(g, n, Commit, key)
    requires forall n :: n in nodes ==> n in g.nodes && OnTrack(g.nodes[n], key)
    ensures AllAt(g, nodes, HashOf(key.body), key.body.height)
  {
    forall n | n in nodes
      ensures n in g.nodes && g.nodes[n].head == HashOf(key.body) && g.nodes[n].height == key.body.height
    {
      assert Answered(g, n, Commit, key);
    }
  }

  /** From any reachable state: if more than two thirds of a committee are honest and have the same head, then any block on
      top of it, proposed to them, becomes the head of all of them. */
  lemma NextBlock(init: Global, r: Run, nodes: set<NodeId>, key: Key) returns (t: Run)
    requires IsRun(init, r) && WellFormed(key) && (forall n :: n in nodes ==> CanTake(r.state, n, key))
    requires TwoThirds(|nodes|, |key.committee.members|)
    ensures IsRun(init, t) && Grew(r.state, t.state) && AllAt(t.state, nodes, HashOf(key.body), key.body.height)
    ensures OnlyOpened(r.state, t.state, nodes, key)
  {
    hide IsRun, Grew, WellFormed, HasTaken, CanTake, AllReady, OnTrack, AllAt, Answered, ContinuesFor, TwoThirds;
    var t1 := ProposeAll(init, r, nodes, key);
    TakenIsReady(t1.state, nodes, key);
    QuorumReached(|nodes|, |key.committee.members|);
    IsReadyQuorum(t1.state, nodes, key);
    t := FinalizeReady(init, t1, nodes, key);
    ForFacts(init, t1, t, key);
    GrewTrans(r.state, t1.state, t.state);
    FinalizedIsHead(t.state, nodes, key);
  }

  lemma QuorumReached(n: nat, members: nat)
    requires TwoThirds(n, members)
    ensures n >= Quorum(members)
  {
  }

  // ---------------------------------------------------------------------------------------------
  // A chain of any length
  // ---------------------------------------------------------------------------------------------

  /** The hash of the last block of a chain on top of genesis, one block for each list of transactions. */
  function HeadOf(c: Committee, blocks: seq<seq<nat>>): Hash {
    if blocks == [] then Genesis else HashOf(BlockOn(c, blocks[..|blocks| - 1], blocks[|blocks| - 1]))
  }

  function BlockOn(c: Committee, below: seq<seq<nat>>, transactions: seq<nat>): Body
    decreases |below|, 1
  {
    Body(if below == [] then Genesis else HashOf(BlockOn(c, below[..|below| - 1], below[|below| - 1])), transactions, c, 0,
         |below| + 1, c.members)
  }

  /** Sessions of these nodes are about blocks up to this height. */
  ghost predicate UpTo(g: Global, nodes: set<NodeId>, height: int) {
    forall n, key :: n in nodes && n in g.nodes && key in g.nodes[n].sessions ==> key.body.height <= height
  }

  lemma UpToNext(g: Global, h: Global, nodes: set<NodeId>, key: Key, height: int)
    requires UpTo(g, nodes, height) && OnlyOpened(g, h, nodes, key) && key.body.height == height + 1
    ensures UpTo(h, nodes, height + 1)
  {
  }

  lemma AllCanTake(init: Global, g: Global, c: Committee, key: Key, height: int)
    requires Prompt(g) && Grew(init, g) && key.committee == c && key.body.height == height + 1
    requires AllAt(g, Honest(init, c), key.body.parent, height) && UpTo(g, Honest(init, c), height)
    ensures forall n :: n in Honest(init, c) ==> CanTake(g, n, key)
  {
    hide NodePrompt, NodeLe, Ready;
    HonestStays(init, g, c);
    assert Honest(g, c) == Honest(init, c);
  }

  /** Whatever blocks of transactions without repeats: if more than two thirds of a committee are honest, a run finalizes
      them all, one on top of the other, at every honest member. */
  lemma {:induction false} ChainGrows(init: Global, c: Committee, blocks: seq<seq<nat>>) returns (t: Run)
    requires Initial(init) && TwoThirds(|Honest(init, c)|, |c.members|)
    requires forall i :: 0 <= i < |blocks| ==> NoRepeats(blocks[i])
    ensures IsRun(init, t) && Grew(init, t.state) && UpTo(t.state, Honest(init, c), |blocks|)
    ensures AllAt(t.state, Honest(init, c), HeadOf(c, blocks), |blocks|)
  {
    var nodes := Honest(init, c);
    if blocks == [] {
      Start(init);
      t := Run([], init);
      GrewSelf(init);
    } else {
      hide IsRun, Grew, Honest, AllAt, UpTo, Initial, CanTake, Prompt, TwoThirds, NoRepeats;
      var last := |blocks| - 1;
      var t1 := ChainGrows(init, c, blocks[..last]);
      var body := BlockOn(c, blocks[..last], blocks[last]);
      var key := KeyOf(body);
      BlockFields(c, blocks[..last], blocks[last]);
      IsPrompt(init, t1);
      AllCanTake(init, t1.state, c, key, last);
      t := NextBlock(init, t1, nodes, key);
      GrewTrans(init, t1.state, t.state);
      UpToNext(t1.state, t.state, nodes, key, last);
    }
  }

  lemma BlockFields(c: Committee, below: seq<seq<nat>>, transactions: seq<nat>)
    requires NoRepeats(transactions)
    ensures var body := BlockOn(c, below, transactions);
      && WellFormed(KeyOf(body)) && body.parent == HeadOf(c, below) && body.height == |below| + 1 && body.committee == c
  {
  }

  // ---------------------------------------------------------------------------------------------
  // What the others learn
  // ---------------------------------------------------------------------------------------------

  /** A block heard of by gossip is stored exactly if it is new and carries enough signatures, and then it becomes the head
      unless the node is ahead of it. */
  lemma GossipMeaning(s: NodeState, c: Certified)
    ensures var t, hash := OnGossip(s, c), HashOf(c.body);
      if hash in s.byHash || (c.body.members != [] && !TwoThirds(|c.signers|, |c.body.members|)) then t == s
      else
        && t.byHash == s.byHash[hash := c] && t.byHeight == s.byHeight[c.body.height := c]
        && (forall x :: x in t.txPool <==> x in s.txPool && x !in c.body.transactions)
        && (if c.body.height >= s.height then t.head == hash && t.height == c.body.height
            else t.head == s.head && t.height == s.height)
        && t.sessions == s.sessions && t.pending == s.pending && t.tasks == s.tasks
  {
  }

  /** Any block that has been finalized anywhere can be brought to any node, which has it from then on. */
  lemma FinalReaches(init: Global, r: Run, n: NodeId, c: Certified) returns (t: Run)
    requires IsRun(init, r) && c in r.state.net.blocks && n in r.state.nodes
    ensures IsRun(init, t) && n in t.state.nodes && HashOf(c.body) in t.state.nodes[n].byHash
    ensures t.state.nodes[n].height >= r.state.nodes[n].height
    ensures HashOf(c.body) !in r.state.nodes[n].byHash ==> t.state.nodes[n].height >= c.body.height
  {
    hide RunAll, Initial, Voters, StoreOk, NodeOk, Occur;
    RunKeepsInv(init, r.events);
    assert CertOk(r.state.net, c);
    GossipMeaning(r.state.nodes[n], c);
    t := Extend(init, r, Gossip(n, c));
    OneGossip(r.state, n, c);
  }

  lemma OneGossip(g: Global, n: NodeId, c: Certified)
    requires Enabled(g, Gossip(n, c))
    ensures n in Occur(g, Gossip(n, c)).nodes && Occur(g, Gossip(n, c)).nodes[n] == OnGossip(g.nodes[n], c)
  {
    hide OnGossip;
  }

  // ---------------------------------------------------------------------------------------------
  // The pool
  // ---------------------------------------------------------------------------------------------

  predicate InStored(s: NodeState, x: nat) {
    exists h :: h in s.byHash && x in s.byHash[h].body.transactions
  }

  /** Stored blocks are filed under their own hashes, and the pool is what was there at first less what they hold. */
  ghost predicate PoolOk(s: NodeState, first: set<nat>) {
    && (forall h :: h in s.byHash ==> h == HashOf(s.byHash[h].body))
    && forall x :: x in s.txPool <==> x in first && !InStored(s, x)
  }

  lemma StoredMore(s: NodeState, t: NodeState, c: Certified, x: nat)
    requires forall h :: h in s.byHash ==> h == HashOf(s.byHash[h].body)
    requires t.byHash == s.byHash[HashOf(c.body) := c]
    ensures InStored(t, x) <==> InStored(s, x) || x in c.body.transactions
  {
    var hash := HashOf(c.body);
    assert hash in t.byHash && t.byHash[hash] == c;
    if InStored(s, x) {
      var h :| h in s.byHash && x in s.byHash[h].body.transactions;
      assert h in t.byHash && t.byHash[h].body == s.byHash[h].body;
    }
  }

  lemma StoringFields(s: NodeState, c: Certified)
    ensures var t := ApplyFinalizedBlock(s, c).1;
      || t == s
      || (t.byHash == s.byHash[HashOf(c.body) := c]
          && forall x :: x in t.txPool <==> x in s.txPool && x !in c.body.transactions)
  {
  }

  lemma StoringKeepsPool(s: NodeState, c: Certified, first: set<nat>)
    requires PoolOk(s, first)
    ensures PoolOk(ApplyFinalizedBlock(s, c).1, first)
  {
    hide ApplyFinalizedBlock, InStored;
    StoringFields(s, c);
    var t := ApplyFinalizedBlock(s, c).1;
    if t != s {
      forall x
        ensures x in t.txPool <==> x in first && !InStored(t, x)
      {
        StoredMore(s, t, c, x);
      }
    }
  }

  lemma SamePool(s: NodeState, t: NodeState, first: set<nat>)
    requires PoolOk(s, first) && t.byHash == s.byHash && t.txPool == s.txPool
    ensures PoolOk(t, first)
  {
  }

  lemma VoteKeepsPool(s: NodeState, v: Vote, first: set<nat>)
    requires PoolOk(s, first)
    ensures PoolOk(OnVote(s, v).node, first)
  {
    match v.phase
    case Prevote => PrevoteKeepsPool(s, v, first);
    case Precommit => PrecommitKeepsPool(s, v, first);
    case Commit => CommitKeepsPool(s, v, first);
  }

  lemma CommitKeepsPool(s: NodeState, v: Vote, first: set<nat>)
    requires PoolOk(s, first)
    ensures PoolOk(OnCommit(s, v).node, first)
  {
    hide ApplyFinalizedBlock, PoolOk;
    SamePool(s, Buffer(s, v), first);
    if v.key in s.sessions {
      var session := s.sessions[v.key].(commits := s.sessions[v.key].commits + {v.voter});
      SamePool(s, SetSession(s, v.key, session), first);
      var s1 := SetSession(s, v.key, session.(finalized := true));
      SamePool(s, s1, first);
      StoringKeepsPool(s1, Certified(v.key.body, session.commits), first);
    }
  }

  lemma PrecommitKeepsPool(s: NodeState, v: Vote, first: set<nat>)
    requires PoolOk(s, first)
    ensures PoolOk(OnPrecommit(s, v).node, first)
  {
    hide OnCommit, PoolOk;
    SamePool(s, Buffer(s, v), first);
    if v.key in s.sessions {
      var session := s.sessions[v.key].(precommits := s.sessions[v.key].precommits + {v.voter});
      SamePool(s, SetSession(s, v.key, session), first);
      var s1 := SetSession(s, v.key, session.(commitSent := true));
      SamePool(s, s1, first);
      CommitKeepsPool(s1, Vote(Commit, v.key, s.id), first);
    }
  }

  lemma PrevoteKeepsPool(s: NodeState, v: Vote, first: set<nat>)
    requires PoolOk(s, first)
    ensures PoolOk(OnPrevote(s, v).node, first)
  {
    hide OnPrecommit, PoolOk;
    SamePool(s, Buffer(s, v), first);
    if v.key in s.sessions {
      var session := s.sessions[v.key].(prevotes := s.sessions[v.key].prevotes + {v.voter});
      SamePool(s, SetSession(s, v.key, session), first);
      var s1 := SetSession(s, v.key, session.(precommitSent := true));
      SamePool(s, s1, first);
      PrecommitKeepsPool(s1, Vote(Precommit, v.key, s.id), first);
    }
  }

  lemma TaskKeepsPool(s: NodeState, i: nat, first: set<nat>)
    requires PoolOk(s, first) && i < |s.tasks|
    ensures PoolOk(OnTask(s, i).node, first)
  {
    hide OnVote, OnPrevote, PoolOk;
    var task := s.tasks[i];
    if task.replay != [] {
      var s1 := s.(tasks := s.tasks[i := task.(replay := task.replay[1..])]);
      SamePool(s, s1, first);
      VoteKeepsPool(s1, task.replay[0], first);
    } else {
      var rest := s.(tasks := s.tasks[..i] + s.tasks[i + 1..]);
      SamePool(s, rest, first);
      if task.key in s.sessions {
        var s1 := SetSession(rest, task.key, s.sessions[task.key].(prevoteSent := true));
        SamePool(rest, s1, first);
        PrevoteKeepsPool(s1, Vote(Prevote, task.key, s.id), first);
      }
    }
  }

  lemma StepKeepsPool(g: Global, e: Event, n: NodeId, first: set<nat>)
    requires Enabled(g, e) && n in g.nodes && PoolOk(g.nodes[n], first)
    ensures n in Occur(g, e).nodes && PoolOk(Occur(g, e).nodes[n], first)
  {
    hide OnTask, OnVote, ApplyFinalizedBlock, ValidateBlock, PoolOk;
    if n == e.node {
      var s := g.nodes[n];
      match e
      case Propose(_, key) => SamePool(s, OnPropose(s, key), first);
      case RunTask(_, i) => TaskKeepsPool(s, i, first);
      case Deliver(_, v) => VoteKeepsPool(s, v, first);
      case Gossip(_, c) => StoringKeepsPool(s, c, first);
    }
  }

  /** In every run: a node's pool holds exactly the transactions it had at first that no block it stores contains. */
  lemma {:induction false} PoolIsExact(init: Global, events: seq<Event>, n: NodeId)
    requires Initial(init) && RunAll(init, events).Reached? && n in init.nodes
    ensures n in RunAll(init, events).state.nodes && PoolOk(RunAll(init, events).state.nodes[n], init.nodes[n].txPool)
    decreases |events|
  {
    hide Occur;
    if events != [] {
      hide PoolOk, Initial;
      var front := events[..|events| - 1];
      PoolIsExact(init, front, n);
      StepKeepsPool(RunAll(init, front).state, events[|front|], n, init.nodes[n].txPool);
    }
  }
}
