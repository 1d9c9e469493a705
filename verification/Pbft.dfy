/** The three-phase vote as a state machine: handlers of one node, and a network that delivers in any order. */
module Pbft {
  import opened Collections

  type NodeId = nat

  /** Hashes stand for what they hash: a committee identifier for key and members, a block hash for the block's body. */
  datatype Committee = Committee(key: nat, members: seq<NodeId>)

  datatype Hash = Genesis | HashOf(body: Body)

  datatype Body = Body(
    parent: Hash, transactions: seq<nat>, committee: Committee, proposer: NodeId, height: int, members: seq<NodeId>)

  /** A session belongs to one committee and one block. */
  datatype Key = Key(committee: Committee, body: Body)

  datatype Phase = Prevote | Precommit | Commit

  /** Authentic: the voter is who it says, and the signature is a function of the rest. */
  datatype Vote = Vote(phase: Phase, key: Key, voter: NodeId)

  /** The voters recorded in each phase, and what this node has already sent. */
  datatype Session = Session(
    prevotes: set<NodeId>, precommits: set<NodeId>, commits: set<NodeId>,
    prevoteSent: bool, precommitSent: bool, commitSent: bool, finalized: bool)

  const NEW_SESSION := Session({}, {}, {}, false, false, false, false)

  /** A block together with the voters whose commit signatures it carries. */
  datatype Certified = Certified(body: Body, signers: set<NodeId>)

  /** A proposal that passed validation and waits for its buffered votes to be replayed. */
  datatype Task = Task(key: Key, replay: seq<Vote>)

  datatype NodeState = NodeState(
    id: NodeId, malicious: bool, sessions: map<Key, Session>, pending: map<Key, seq<Vote>>, tasks: seq<Task>,
    head: Hash, height: int, byHash: map<Hash, Certified>, byHeight: map<int, Certified>, txPool: set<nat>)

  /** More than two thirds of the members. */
  predicate TwoThirds(voters: nat, members: nat) {
    3 * voters > 2 * members
  }

  /** The least number above two thirds. */
  function Quorum(members: nat): (q: nat)
    ensures 1 <= q && TwoThirds(q, members) && !TwoThirds(q - 1, members)
  {
    2 * members / 3 + 1
  }

  /** What a member checks of a proposal, against its own head. */
  predicate ValidateBlock(s: NodeState, key: Key) {
    && key.body.committee == key.committee
    && key.body.members == key.committee.members
    && NoRepeats(key.body.transactions)
    && key.body.parent == s.head
    && key.body.height == s.height + 1
  }

  // ---------------------------------------------------------------------------------------------
  // Handlers
  // ---------------------------------------------------------------------------------------------

  /** What a handler leaves behind: the node, the votes it broadcast, and the blocks it finalized. */
  datatype Outcome = Outcome(node: NodeState, votes: set<Vote>, certified: set<Certified>)

  function Quiet(s: NodeState): Outcome {
    Outcome(s, {}, {})
  }

  function SetSession(s: NodeState, key: Key, session: Session): NodeState {
    s.(sessions := s.sessions[key := session])
  }

  function Buffer(s: NodeState, v: Vote): NodeState {
    s.(pending := s.pending[v.key := (if v.key in s.pending then s.pending[v.key] else []) + [v]])
  }

  function Without(pool: set<nat>, transactions: seq<nat>): set<nat> {
    set t | t in pool && t !in transactions
  }

  /** Stores a block, drops its transactions from the pool, and moves the head if it is not behind. `None` when the
      certificate is too small. */
  function ApplyFinalizedBlock(s: NodeState, c: Certified): (r: (bool, NodeState)) {
    var hash := HashOf(c.body);
    if c.body.height <= s.height && hash in s.byHash then (true, s)
    else if c.body.members != [] && |c.signers| < Quorum(|c.body.members|) then (false, s)
    else
      var stored := s.(byHash := s.byHash[hash := c], byHeight := s.byHeight[c.body.height := c],
                       txPool := Without(s.txPool, c.body.transactions));
      (true, if c.body.height >= s.height then stored.(height := c.body.height, head := hash) else stored)
  }

  function OnCommit(s: NodeState, v: Vote): Outcome {
    if v.key !in s.sessions then Quiet(Buffer(s, v))
    else if v.voter !in v.key.committee.members then Quiet(s)
    else
      var session := s.sessions[v.key].(commits := s.sessions[v.key].commits + {v.voter});
      if |session.commits| < Quorum(|v.key.committee.members|) || session.finalized then Quiet(SetSession(s, v.key, session))
      else
        var block := Certified(v.key.body, session.commits);
        var applied := ApplyFinalizedBlock(SetSession(s, v.key, session.(finalized := true)), block).1;
        Outcome(applied, {}, {block})
  }

  function OnPrecommit(s: NodeState, v: Vote): Outcome {
    if v.key !in s.sessions then Quiet(Buffer(s, v))
    else if v.voter !in v.key.committee.members then Quiet(s)
    else
      var session := s.sessions[v.key].(precommits := s.sessions[v.key].precommits + {v.voter});
      if s.malicious || session.commitSent || |session.precommits| < Quorum(|v.key.committee.members|)
      then Quiet(SetSession(s, v.key, session))
      else
        var commit := Vote(Commit, v.key, s.id);
        var o := OnCommit(SetSession(s, v.key, session.(commitSent := true)), commit);
        o.(votes := o.votes + {commit})
  }

  function OnPrevote(s: NodeState, v: Vote): Outcome {
    if v.key !in s.sessions then Quiet(Buffer(s, v))
    else if v.voter !in v.key.committee.members then Quiet(s)
    else
      var session := s.sessions[v.key].(prevotes := s.sessions[v.key].prevotes + {v.voter});
      if s.malicious || session.precommitSent || |session.prevotes| < Quorum(|v.key.committee.members|)
      then Quiet(SetSession(s, v.key, session))
      else
        var precommit := Vote(Precommit, v.key, s.id);
        var o := OnPrecommit(SetSession(s, v.key, session.(precommitSent := true)), precommit);
        o.(votes := o.votes + {precommit})
  }

  function OnVote(s: NodeState, v: Vote): Outcome {
    match v.phase
    case Prevote => OnPrevote(s, v)
    case Precommit => OnPrecommit(s, v)
    case Commit => OnCommit(s, v)
  }

  /** A proposal arrives: the session is created whether or not the block is valid; a valid one becomes a task that takes
      over the buffered votes. */
  function OnPropose(s: NodeState, key: Key): NodeState {
    if s.id !in key.committee.members then s
    else
      var ready := if key in s.sessions then s else SetSession(s, key, NEW_SESSION);
      if s.malicious || !ValidateBlock(s, key) then ready
      else
        var buffered := if key in s.pending then s.pending[key] else [];
        ready.(pending := s.pending - {key}, tasks := s.tasks + [Task(key, buffered)])
  }

  /** The next step of a task: one buffered vote, or, when none is left, the prevote if it has not been sent. */
  function OnTask(s: NodeState, i: nat): Outcome
    requires i < |s.tasks|
  {
    var task := s.tasks[i];
    if task.replay != [] then OnVote(s.(tasks := s.tasks[i := task.(replay := task.replay[1..])]), task.replay[0])
    else
      var rest := s.(tasks := s.tasks[..i] + s.tasks[i + 1..]);
      if task.key !in s.sessions || s.sessions[task.key].prevoteSent then Quiet(rest)
      else
        var prevote := Vote(Prevote, task.key, s.id);
        var o := OnPrevote(SetSession(rest, task.key, s.sessions[task.key].(prevoteSent := true)), prevote);
        o.(votes := o.votes + {prevote})
  }

  /** A finalized block arrives by gossip or sync. */
  function OnGossip(s: NodeState, c: Certified): NodeState {
    if HashOf(c.body) in s.byHash || (c.body.members != [] && |c.signers| < Quorum(|c.body.members|)) then s
    else ApplyFinalizedBlock(s, c).1
  }

  // ---------------------------------------------------------------------------------------------
  // The network
  // ---------------------------------------------------------------------------------------------

  /** A successful validation: `node` found the block to extend its own head at that moment. */
  datatype Validation = Validation(node: NodeId, key: Key, head: Hash, height: int)

  /** Everything ever sent stays deliverable, any number of times, to anyone, or never. */
  datatype Net = Net(sent: set<Vote>, blocks: set<Certified>, validated: set<Validation>, bad: set<NodeId>)

  datatype Global = Global(nodes: map<NodeId, NodeState>, net: Net)

  datatype Event =
    | Propose(node: NodeId, key: Key)
    | RunTask(node: NodeId, task: nat)
    | Deliver(node: NodeId, vote: Vote)
    | Gossip(node: NodeId, block: Certified)

  predicate Enabled(g: Global, e: Event) {
    && e.node in g.nodes
    && match e
       case Propose(_, _) => true
       case RunTask(n, i) => i < |g.nodes[n].tasks|
       case Deliver(_, v) => v in g.net.sent
       case Gossip(_, c) => c in g.net.blocks
  }

  function Absorb(net: Net, o: Outcome): Net {
    net.(sent := net.sent + o.votes, blocks := net.blocks + o.certified)
  }

  function Occur(g: Global, e: Event): Global
    requires Enabled(g, e)
  {
    var s := g.nodes[e.node];
    match e
    case Propose(n, key) =>
      var accepted := n in key.committee.members && !s.malicious && ValidateBlock(s, key);
      var net := if accepted then g.net.(validated := g.net.validated + {Validation(n, key, s.head, s.height)}) else g.net;
      Global(g.nodes[n := OnPropose(s, key)], net)
    case RunTask(n, i) =>
      var o := OnTask(s, i);
      Global(g.nodes[n := o.node], Absorb(g.net, o))
    case Deliver(n, v) =>
      var o := OnVote(s, v);
      Global(g.nodes[n := o.node], Absorb(g.net, o))
    case Gossip(n, c) =>
      Global(g.nodes[n := OnGossip(s, c)], g.net)
  }

  /** The state after a sequence of events; `None` when one of them is not possible. */
  datatype Maybe = Stuck | Reached(state: Global)

  function RunAll(g: Global, events: seq<Event>): Maybe {
    if events == [] then Reached(g)
    else
      match RunAll(g, events[..|events| - 1])
      case Stuck => Stuck
      case Reached(h) => if Enabled(h, events[|events| - 1]) then Reached(Occur(h, events[|events| - 1])) else Stuck
  }

  function NewNode(id: NodeId, malicious: bool, txPool: set<nat>): NodeState {
    NodeState(id, malicious, map[], map[], [], Genesis, 0, map[], map[], txPool)
  }

  /** Any set of nodes, any of them malicious, none of which has heard anything yet. */
  predicate Initial(g: Global) {
    && g.net.sent == {} && g.net.blocks == {} && g.net.validated == {}
    && forall n :: n in g.nodes ==> g.nodes[n] == NewNode(n, n in g.net.bad, g.nodes[n].txPool)
  }

  ghost predicate Reachable(g: Global) {
    exists init, events :: Initial(init) && RunAll(init, events) == Reached(g)
  }

  // ---------------------------------------------------------------------------------------------
  // The invariant
  // ---------------------------------------------------------------------------------------------

  function Voters(net: Net, phase: Phase, key: Key): set<NodeId> {
    set v | v in net.sent && v.phase == phase && v.key == key :: v.voter
  }

  ghost predicate HasQuorum(net: Net, phase: Phase, key: Key) {
    |Voters(net, phase, key)| >= Quorum(|key.committee.members|)
  }

  ghost predicate HasValidated(net: Net, n: NodeId, key: Key) {
    exists head, height :: Validation(n, key, head, height) in net.validated
  }

  /** Behind every vote stands a validation or a quorum of the phase before. */
  ghost predicate VoteOk(net: Net, v: Vote) {
    && v.voter in v.key.committee.members && v.voter !in net.bad
    && match v.phase
       case Prevote => HasValidated(net, v.voter, v.key)
       case Precommit => HasQuorum(net, Prevote, v.key)
       case Commit => HasQuorum(net, Precommit, v.key)
  }

  function KeyOf(body: Body): Key {
    Key(body.committee, body)
  }

  ghost predicate CertOk(net: Net, c: Certified) {
    && c.signers <= Voters(net, Commit, KeyOf(c.body))
    && |c.signers| >= Quorum(|c.body.members|)
    && c.body.members == c.body.committee.members && c.body.height >= 1
  }

  predicate ValidationOk(v: Validation) {
    && v.key.body.committee == v.key.committee && v.key.body.members == v.key.committee.members
    && v.key.body.parent == v.head && v.key.body.height == v.height + 1 && v.height >= 0
    && NoRepeats(v.key.body.transactions)
  }

  ghost predicate NetOk(net: Net) {
    && (forall v :: v in net.sent ==> VoteOk(net, v))
    && (forall c :: c in net.blocks ==> CertOk(net, c))
    && (forall v :: v in net.validated ==> ValidationOk(v))
  }

  ghost predicate SessionOk(net: Net, n: NodeId, key: Key, session: Session) {
    && n in key.committee.members
    && session.prevotes <= Voters(net, Prevote, key)
    && session.precommits <= Voters(net, Precommit, key)
    && session.commits <= Voters(net, Commit, key)
    && (session.finalized ==> HasQuorum(net, Commit, key))
  }

  ghost predicate TaskOk(net: Net, s: NodeState, task: Task) {
    && task.key in s.sessions && HasValidated(net, s.id, task.key) && !s.malicious
    && forall v :: v in task.replay ==> v in net.sent
  }

  /** The head is the stored block of the largest height, and both indexes hold certified blocks only. */
  ghost predicate StoreOk(net: Net, s: NodeState) {
    && (forall h :: h in s.byHash ==> s.byHash[h] in net.blocks && HashOf(s.byHash[h].body) == h)
    && (forall k :: k in s.byHeight ==>
          s.byHeight[k] in net.blocks && s.byHeight[k].body.height == k && HashOf(s.byHeight[k].body) in s.byHash)
    && (forall h :: h in s.byHash ==> s.byHash[h].body.height <= s.height)
    && if s.head == Genesis then s.height == 0 && s.byHash == map[]
       else s.height in s.byHeight && HashOf(s.byHeight[s.height].body) == s.head
  }

  ghost predicate NodeOk(net: Net, s: NodeState) {
    && (s.malicious <==> s.id in net.bad) && s.height >= 0
    && (forall key :: key in s.sessions ==> SessionOk(net, s.id, key, s.sessions[key]))
    && (forall key, v :: key in s.pending && v in s.pending[key] ==> v in net.sent)
    && (forall i :: 0 <= i < |s.tasks| ==> TaskOk(net, s, s.tasks[i]))
    && StoreOk(net, s)
  }

  ghost predicate Inv(g: Global) {
    && NetOk(g.net)
    && forall n :: n in g.nodes ==> g.nodes[n].id == n && NodeOk(g.net, g.nodes[n])
  }

  // ---------------------------------------------------------------------------------------------
  // What more votes do to old evidence
  // ---------------------------------------------------------------------------------------------

  predicate Grows(net: Net, net': Net) {
    net.sent <= net'.sent && net.blocks <= net'.blocks && net.validated <= net'.validated && net.bad == net'.bad
  }

  lemma VotersGrow(net: Net, net': Net, phase: Phase, key: Key)
    requires Grows(net, net')
    ensures Voters(net, phase, key) <= Voters(net', phase, key)
    ensures HasQuorum(net, phase, key) ==> HasQuorum(net', phase, key)
  {
    SubsetSize(Voters(net, phase, key), Voters(net', phase, key));
  }

  lemma VoteStaysOk(net: Net, net': Net, v: Vote)
    requires Grows(net, net') && VoteOk(net, v)
    ensures VoteOk(net', v)
  {
    VotersGrow(net, net', Prevote, v.key);
    VotersGrow(net, net', Precommit, v.key);
  }

  lemma CertStaysOk(net: Net, net': Net, c: Certified)
    requires Grows(net, net') && CertOk(net, c)
    ensures CertOk(net', c)
  {
    VotersGrow(net, net', Commit, KeyOf(c.body));
  }

  lemma SessionStaysOk(net: Net, net': Net, n: NodeId, key: Key, session: Session)
    requires Grows(net, net') && SessionOk(net, n, key, session)
    ensures SessionOk(net', n, key, session)
  {
    VotersGrow(net, net', Prevote, key);
    VotersGrow(net, net', Precommit, key);
    VotersGrow(net, net', Commit, key);
  }

  lemma NodeStaysOk(net: Net, net': Net, s: NodeState)
    requires Grows(net, net') && NodeOk(net, s)
    ensures NodeOk(net', s)
  {
    hide SessionOk;
    forall key | key in s.sessions
      ensures SessionOk(net', s.id, key, s.sessions[key])
    {
      SessionStaysOk(net, net', s.id, key, s.sessions[key]);
    }
  }

  /** One more vote, with its evidence, keeps the network in order. */
  lemma SendKeepsNet(net: Net, v: Vote)
    requires NetOk(net) && VoteOk(net, v)
    ensures NetOk(net.(sent := net.sent + {v}))
  {
    hide VoteOk, CertOk;
    var net' := net.(sent := net.sent + {v});
    forall u | u in net'.sent
      ensures VoteOk(net', u)
    {
      VoteStaysOk(net, net', u);
    }
    forall c | c in net'.blocks
      ensures CertOk(net', c)
    {
      CertStaysOk(net, net', c);
    }
  }

  lemma FileKeepsNet(net: Net, c: Certified)
    requires NetOk(net) && CertOk(net, c)
    ensures NetOk(net.(blocks := net.blocks + {c}))
  {
    hide VoteOk, CertOk;
    var net' := net.(blocks := net.blocks + {c});
    forall u | u in net'.sent
      ensures VoteOk(net', u)
    {
      VoteStaysOk(net, net', u);
    }
    forall d | d in net'.blocks
      ensures CertOk(net', d)
    {
      CertStaysOk(net, net', d);
    }
  }

  lemma ValidateKeepsNet(net: Net, v: Validation)
    requires NetOk(net) && ValidationOk(v)
    ensures NetOk(net.(validated := net.validated + {v}))
  {
    hide VoteOk, CertOk;
    var net' := net.(validated := net.validated + {v});
    forall u | u in net'.sent
      ensures VoteOk(net', u)
    {
      VoteStaysOk(net, net', u);
    }
    forall d | d in net'.blocks
      ensures CertOk(net', d)
    {
      CertStaysOk(net, net', d);
    }
  }

  // ---------------------------------------------------------------------------------------------
  // The chain of evidence
  // ---------------------------------------------------------------------------------------------

  lemma SomeVoter(net: Net, phase: Phase, key: Key) returns (v: Vote)
    requires |Voters(net, phase, key)| >= 1
    ensures v in net.sent && v.phase == phase && v.key == key
  {
    var n :| n in Voters(net, phase, key);
    v :| v in net.sent && v.phase == phase && v.key == key && v.voter == n;
  }

  /** A single commit vote means that quorums precommitted and prevoted, and that the block names its committee. */
  lemma ChainOfEvidence(net: Net, key: Key)
    requires NetOk(net) && |Voters(net, Commit, key)| >= 1
    ensures HasQuorum(net, Precommit, key) && HasQuorum(net, Prevote, key)
    ensures key.body.committee == key.committee && key.body.members == key.committee.members && key.body.height >= 1
    ensures NoRepeats(key.body.transactions)
  {
    hide Voters, NoRepeats;
    var commit := SomeVoter(net, Commit, key);
    assert VoteOk(net, commit);
    var precommit := SomeVoter(net, Precommit, key);
    assert VoteOk(net, precommit);
    var prevote := SomeVoter(net, Prevote, key);
    assert VoteOk(net, prevote);
    var head, height :| Validation(prevote.voter, key, head, height) in net.validated;
    assert ValidationOk(Validation(prevote.voter, key, head, height));
  }

  /** Every prevote counted is by a member that validated the block against its own head. */
  lemma PrevotersValidated(net: Net, key: Key, n: NodeId)
    requires NetOk(net) && n in Voters(net, Prevote, key)
    ensures n in key.committee.members && n !in net.bad
    ensures exists v :: v in net.validated && v.node == n && v.key == key && v.head == key.body.parent
                        && v.height == key.body.height - 1
  {
    var v :| v in net.sent && v.phase == Prevote && v.key == key && v.voter == n;
    assert VoteOk(net, v);
    var head, height :| Validation(n, key, head, height) in net.validated;
    assert ValidationOk(Validation(n, key, head, height));
  }

  // ---------------------------------------------------------------------------------------------
  // Every handler keeps the invariant
  // ---------------------------------------------------------------------------------------------

  ghost predicate Keeps(net: Net, s: NodeState, o: Outcome) {
    && NetOk(Absorb(net, o)) && NodeOk(Absorb(net, o), o.node)
    && o.node.id == s.id && o.node.malicious == s.malicious && s.height <= o.node.height
  }

  lemma QuietKeeps(net: Net, s: NodeState, s': NodeState)
    requires NetOk(net) && NodeOk(net, s') && s'.id == s.id && s'.malicious == s.malicious && s.height <= s'.height
    ensures Keeps(net, s, Quiet(s'))
  {
    assert Absorb(net, Quiet(s')) == net;
  }

  lemma SetSessionOk(net: Net, s: NodeState, key: Key, session: Session)
    requires NodeOk(net, s) && SessionOk(net, s.id, key, session)
    ensures NodeOk(net, SetSession(s, key, session))
  {
    hide SessionOk, StoreOk, HasValidated;
    var s' := SetSession(s, key, session);
    assert StoreOk(net, s') by {
      SameStore(net, s, s');
    }
  }

  lemma SameStore(net: Net, s: NodeState, s': NodeState)
    requires StoreOk(net, s) && s'.byHash == s.byHash && s'.byHeight == s.byHeight
    requires s'.head == s.head && s'.height == s.height
    ensures StoreOk(net, s')
  {
  }

  lemma BufferOk(net: Net, s: NodeState, v: Vote)
    requires NodeOk(net, s) && v in net.sent
    ensures NodeOk(net, Buffer(s, v))
  {
    hide SessionOk, StoreOk, HasValidated;
    SameStore(net, s, Buffer(s, v));
  }

  lemma VoterCounts(net: Net, v: Vote)
    requires v in net.sent
    ensures v.voter in Voters(net, v.phase, v.key)
  {
  }

  /** A certified block is never refused, and storing it keeps the indexes and the head in step. */
  lemma ApplyOk(net: Net, s: NodeState, c: Certified)
    requires NodeOk(net, s) && c in net.blocks && CertOk(net, c)
    ensures ApplyFinalizedBlock(s, c).0
    ensures NodeOk(net, ApplyFinalizedBlock(s, c).1) && s.height <= ApplyFinalizedBlock(s, c).1.height
  {
    hide SessionOk, HasValidated, CertOk, StoreOk, ApplyFinalizedBlock;
    CertFacts(net, c);
    ApplyFrame(s, c);
    ApplyStore(net, s, c);
  }

  lemma ApplyStore(net: Net, s: NodeState, c: Certified)
    requires StoreOk(net, s) && c in net.blocks && c.body.height >= 1 && |c.signers| >= Quorum(|c.body.members|) && s.height >= 0
    ensures ApplyFinalizedBlock(s, c).0
    ensures StoreOk(net, ApplyFinalizedBlock(s, c).1) && s.height <= ApplyFinalizedBlock(s, c).1.height
  {
  }

  lemma CertFacts(net: Net, c: Certified)
    requires CertOk(net, c)
    ensures c.body.height >= 1 && |c.signers| >= Quorum(|c.body.members|)
  {
  }

  lemma OnCommitKeeps(net: Net, s: NodeState, v: Vote)
    requires NetOk(net) && NodeOk(net, s) && v in net.sent && v.phase == Commit
    ensures Keeps(net, s, OnCommit(s, v)) && OnCommit(s, v).votes == {}
  {
    hide NetOk, NodeOk, Voters, ApplyFinalizedBlock;
    if v.key !in s.sessions {
      BufferOk(net, s, v);
      QuietKeeps(net, s, Buffer(s, v));
    } else if v.voter !in v.key.committee.members {
      QuietKeeps(net, s, s);
    } else {
      var session := s.sessions[v.key].(commits := s.sessions[v.key].commits + {v.voter});
      VoterCounts(net, v);
      SessionOf(net, s, v.key);
      SetSessionOk(net, s, v.key, session);
      if |session.commits| < Quorum(|v.key.committee.members|) || session.finalized {
        QuietKeeps(net, s, SetSession(s, v.key, session));
      } else {
        FinalizeKeeps(net, s, v.key, session);
      }
    }
  }

  lemma SessionOf(net: Net, s: NodeState, key: Key)
    requires NodeOk(net, s) && key in s.sessions
    ensures SessionOk(net, s.id, key, s.sessions[key])
  {
  }

  lemma FinalizeKeeps(net: Net, s: NodeState, key: Key, session: Session)
    requires NetOk(net) && NodeOk(net, s) && SessionOk(net, s.id, key, session)
    requires |session.commits| >= Quorum(|key.committee.members|)
    ensures var block := Certified(key.body, session.commits);
      Keeps(net, s, Outcome(ApplyFinalizedBlock(SetSession(s, key, session.(finalized := true)), block).1, {}, {block}))
  {
    hide NetOk, NodeOk, Voters, ApplyFinalizedBlock;
    var block := Certified(key.body, session.commits);
    var marked := session.(finalized := true);
    var s1 := SetSession(s, key, marked);
    SubsetSize(session.commits, Voters(net, Commit, key));
    ChainOfEvidence(net, key);
    assert KeyOf(key.body) == key;
    SetSessionOk(net, s, key, marked);
    var net' := net.(blocks := net.blocks + {block});
    FileKeepsNet(net, block);
    NodeStaysOk(net, net', s1);
    CertStaysOk(net, net', block);
    ApplyOk(net', s1, block);
    var o := Outcome(ApplyFinalizedBlock(s1, block).1, {}, {block});
    assert Absorb(net, o) == net';
    ApplyFrame(s1, block);
  }

  lemma ApplyFrame(s: NodeState, c: Certified)
    ensures var s' := ApplyFinalizedBlock(s, c).1;
      s'.id == s.id && s'.malicious == s.malicious && s'.sessions == s.sessions && s'.tasks == s.tasks && s'.pending == s.pending
  {
  }

  /** Sending a justified vote and handling it oneself. */
  lemma SelfVoteKeeps(net: Net, s: NodeState, s1: NodeState, v: Vote, o: Outcome)
    requires NetOk(net) && VoteOk(net, v) && s1.id == s.id && s1.malicious == s.malicious && s1.height == s.height
    requires Keeps(net.(sent := net.sent + {v}), s1, o)
    ensures Keeps(net, s, o.(votes := o.votes + {v}))
  {
    hide NetOk, NodeOk;
    assert Absorb(net, o.(votes := o.votes + {v})) == Absorb(net.(sent := net.sent + {v}), o);
  }

  lemma MemberHere(net: Net, s: NodeState, key: Key)
    requires NodeOk(net, s) && key in s.sessions
    ensures s.id in key.committee.members && (s.malicious <==> s.id in net.bad)
  {
  }

  lemma OnPrecommitKeeps(net: Net, s: NodeState, v: Vote)
    requires NetOk(net) && NodeOk(net, s) && v in net.sent && v.phase == Precommit
    ensures Keeps(net, s, OnPrecommit(s, v))
  {
    hide NetOk, NodeOk, Voters, OnCommit, Keeps;
    if v.key !in s.sessions {
      BufferOk(net, s, v);
      QuietKeeps(net, s, Buffer(s, v));
    } else if v.voter !in v.key.committee.members {
      QuietKeeps(net, s, s);
    } else {
      var session := s.sessions[v.key].(precommits := s.sessions[v.key].precommits + {v.voter});
      VoterCounts(net, v);
      SessionOf(net, s, v.key);
      if s.malicious || session.commitSent || |session.precommits| < Quorum(|v.key.committee.members|) {
        SetSessionOk(net, s, v.key, session);
        QuietKeeps(net, s, SetSession(s, v.key, session));
      } else {
        var commit := Vote(Commit, v.key, s.id);
        var s1 := SetSession(s, v.key, session.(commitSent := true));
        SubsetSize(session.precommits, Voters(net, Precommit, v.key));
        MemberHere(net, s, v.key);
        SetSessionOk(net, s, v.key, session.(commitSent := true));
        var net1 := net.(sent := net.sent + {commit});
        SendKeepsNet(net, commit);
        NodeStaysOk(net, net1, s1);
        OnCommitKeeps(net1, s1, commit);
        SelfVoteKeeps(net, s, s1, commit, OnCommit(s1, commit));
      }
    }
  }

  lemma OnPrevoteKeeps(net: Net, s: NodeState, v: Vote)
    requires NetOk(net) && NodeOk(net, s) && v in net.sent && v.phase == Prevote
    ensures Keeps(net, s, OnPrevote(s, v))
  {
    hide NetOk, NodeOk, Voters, OnPrecommit, Keeps;
    if v.key !in s.sessions {
      BufferOk(net, s, v);
      QuietKeeps(net, s, Buffer(s, v));
    } else if v.voter !in v.key.committee.members {
      QuietKeeps(net, s, s);
    } else {
      var session := s.sessions[v.key].(prevotes := s.sessions[v.key].prevotes + {v.voter});
      VoterCounts(net, v);
      SessionOf(net, s, v.key);
      if s.malicious || session.precommitSent || |session.prevotes| < Quorum(|v.key.committee.members|) {
        SetSessionOk(net, s, v.key, session);
        QuietKeeps(net, s, SetSession(s, v.key, session));
      } else {
        var precommit := Vote(Precommit, v.key, s.id);
        var s1 := SetSession(s, v.key, session.(precommitSent := true));
        SubsetSize(session.prevotes, Voters(net, Prevote, v.key));
        MemberHere(net, s, v.key);
        SetSessionOk(net, s, v.key, session.(precommitSent := true));
        var net1 := net.(sent := net.sent + {precommit});
        SendKeepsNet(net, precommit);
        NodeStaysOk(net, net1, s1);
        OnPrecommitKeeps(net1, s1, precommit);
        SelfVoteKeeps(net, s, s1, precommit, OnPrecommit(s1, precommit));
      }
    }
  }

  lemma OnVoteKeeps(net: Net, s: NodeState, v: Vote)
    requires NetOk(net) && NodeOk(net, s) && v in net.sent
    ensures Keeps(net, s, OnVote(s, v))
  {
    hide NetOk, NodeOk, Voters, OnPrevote, OnPrecommit, OnCommit, Keeps;
    match v.phase
    case Prevote => OnPrevoteKeeps(net, s, v);
    case Precommit => OnPrecommitKeeps(net, s, v);
    case Commit => OnCommitKeeps(net, s, v);
  }

  lemma OnTaskKeeps(net: Net, s: NodeState, i: nat)
    requires NetOk(net) && NodeOk(net, s) && i < |s.tasks|
    ensures Keeps(net, s, OnTask(s, i))
  {
    hide NetOk, NodeOk, Voters, OnPrevote, OnVote, Keeps;
    var task := s.tasks[i];
    TaskOf(net, s, i);
    if task.replay != [] {
      var s1 := s.(tasks := s.tasks[i := task.(replay := task.replay[1..])]);
      ReplayShrinks(net, s, i);
      OnVoteKeeps(net, s1, task.replay[0]);
      KeepsFrom(net, s, s1, OnVote(s1, task.replay[0]));
    } else {
      var rest := s.(tasks := s.tasks[..i] + s.tasks[i + 1..]);
      TaskDone(net, s, i);
      if s.sessions[task.key].prevoteSent {
        QuietKeeps(net, s, rest);
      } else {
        var prevote := Vote(Prevote, task.key, s.id);
        var session := s.sessions[task.key].(prevoteSent := true);
        var s1 := SetSession(rest, task.key, session);
        SessionOf(net, s, task.key);
        MemberHere(net, s, task.key);
        SetSessionOk(net, rest, task.key, session);
        var net1 := net.(sent := net.sent + {prevote});
        SendKeepsNet(net, prevote);
        NodeStaysOk(net, net1, s1);
        OnPrevoteKeeps(net1, s1, prevote);
        SelfVoteKeeps(net, s, s1, prevote, OnPrevote(s1, prevote));
      }
    }
  }

  lemma TaskOf(net: Net, s: NodeState, i: nat)
    requires NodeOk(net, s) && i < |s.tasks|
    ensures TaskOk(net, s, s.tasks[i])
  {
  }

  lemma KeepsFrom(net: Net, s: NodeState, s1: NodeState, o: Outcome)
    requires Keeps(net, s1, o) && s1.id == s.id && s1.malicious == s.malicious && s1.height == s.height
    ensures Keeps(net, s, o)
  {
    hide NetOk, NodeOk;
  }

  lemma ReplayShrinks(net: Net, s: NodeState, i: nat)
    requires NodeOk(net, s) && i < |s.tasks| && s.tasks[i].replay != []
    ensures NodeOk(net, s.(tasks := s.tasks[i := s.tasks[i].(replay := s.tasks[i].replay[1..])]))
    ensures s.tasks[i].replay[0] in net.sent
  {
    hide SessionOk, StoreOk, HasValidated;
    var task := s.tasks[i];
    assert TaskOk(net, s, task);
    var s1 := s.(tasks := s.tasks[i := task.(replay := task.replay[1..])]);
    SameStore(net, s, s1);
    forall j | 0 <= j < |s1.tasks|
      ensures TaskOk(net, s1, s1.tasks[j])
    {
      assert TaskOk(net, s, s.tasks[j]);
    }
  }

  lemma TaskDone(net: Net, s: NodeState, i: nat)
    requires NodeOk(net, s) && i < |s.tasks|
    ensures NodeOk(net, s.(tasks := s.tasks[..i] + s.tasks[i + 1..]))
  {
    hide SessionOk, StoreOk, HasValidated;
    var s1 := s.(tasks := s.tasks[..i] + s.tasks[i + 1..]);
    SameStore(net, s, s1);
    forall j | 0 <= j < |s1.tasks|
      ensures TaskOk(net, s1, s1.tasks[j])
    {
      assert TaskOk(net, s, s.tasks[if j < i then j else j + 1]);
    }
  }

  lemma OnProposeKeeps(net: Net, s: NodeState, key: Key)
    requires NetOk(net) && NodeOk(net, s)
    ensures var accepted := s.id in key.committee.members && !s.malicious && ValidateBlock(s, key);
      var net' := if accepted then net.(validated := net.validated + {Validation(s.id, key, s.head, s.height)}) else net;
      NetOk(net') && NodeOk(net', OnPropose(s, key)) && OnPropose(s, key).id == s.id && OnPropose(s, key).height == s.height
  {
    hide NetOk, NodeOk, Voters;
    if s.id in key.committee.members {
      var ready := if key in s.sessions then s else SetSession(s, key, NEW_SESSION);
      if key !in s.sessions {
        SetSessionOk(net, s, key, NEW_SESSION);
      }
      if !s.malicious && ValidateBlock(s, key) {
        var v := Validation(s.id, key, s.head, s.height);
        HeightKnown(net, s);
        ValidateKeepsNet(net, v);
        var net' := net.(validated := net.validated + {v});
        NodeStaysOk(net, net', ready);
        TaskStarts(net', ready, key, v);
      }
    }
  }

  lemma HeightKnown(net: Net, s: NodeState)
    requires NodeOk(net, s)
    ensures s.height >= 0
  {
  }

  lemma TaskStarts(net: Net, s: NodeState, key: Key, v: Validation)
    requires NodeOk(net, s) && key in s.sessions && !s.malicious && v in net.validated && v.node == s.id && v.key == key
    ensures NodeOk(net, s.(pending := s.pending - {key},
                           tasks := s.tasks + [Task(key, if key in s.pending then s.pending[key] else [])]))
  {
    hide SessionOk, StoreOk;
    var task := Task(key, if key in s.pending then s.pending[key] else []);
    var s1 := s.(pending := s.pending - {key}, tasks := s.tasks + [task]);
    SameStore(net, s, s1);
    forall i | 0 <= i < |s1.tasks|
      ensures TaskOk(net, s1, s1.tasks[i])
    {
      if i < |s.tasks| {
        assert TaskOk(net, s, s.tasks[i]);
      } else {
        assert Validation(s.id, key, v.head, v.height) in net.validated;
      }
    }
  }

  lemma OnGossipKeeps(net: Net, s: NodeState, c: Certified)
    requires NetOk(net) && NodeOk(net, s) && c in net.blocks
    ensures NodeOk(net, OnGossip(s, c)) && OnGossip(s, c).id == s.id && s.height <= OnGossip(s, c).height
  {
    hide NodeOk, ApplyFinalizedBlock, CertOk;
    assert CertOk(net, c);
    ApplyOk(net, s, c);
    ApplyFrame(s, c);
  }

  /** One event keeps the invariant. */
  lemma StepKeepsInv(g: Global, e: Event)
    requires Inv(g) && Enabled(g, e)
    ensures Inv(Occur(g, e)) && Occur(g, e).nodes.Keys == g.nodes.Keys
    ensures forall n :: n in g.nodes ==> g.nodes[n].height <= Occur(g, e).nodes[n].height
  {
    hide NetOk, NodeOk, OnTask, OnVote, OnGossip, OnPropose, ValidateBlock;
    var s, h := g.nodes[e.node], Occur(g, e);
    match e {
      case Propose(n, key) => OnProposeKeeps(g.net, s, key);
      case RunTask(n, i) => OnTaskKeeps(g.net, s, i);
      case Deliver(n, v) => OnVoteKeeps(g.net, s, v);
      case Gossip(n, c) => OnGossipKeeps(g.net, s, c);
    }
    forall n | n in h.nodes
      ensures h.nodes[n].id == n && NodeOk(h.net, h.nodes[n])
    {
      if n != e.node {
        assert h.nodes[n] == g.nodes[n];
        NodeStaysOk(g.net, h.net, g.nodes[n]);
      }
    }
  }

  lemma InitialInv(g: Global)
    requires Initial(g)
    ensures Inv(g)
  {
  }

  /** The invariant holds after any events in any order. */
  lemma {:induction false} RunKeepsInv(init: Global, events: seq<Event>)
    requires Initial(init)
    ensures RunAll(init, events).Reached? ==> Inv(RunAll(init, events).state)
  {
    hide Inv, Occur;
    InitialInv(init);
    if events != [] {
      var front := events[..|events| - 1];
      RunKeepsInv(init, front);
      if RunAll(init, front).Reached? && Enabled(RunAll(init, front).state, events[|front|]) {
        StepKeepsInv(RunAll(init, front).state, events[|front|]);
      }
    }
  }

  // ---------------------------------------------------------------------------------------------
  // Main results
  // ---------------------------------------------------------------------------------------------

  /** What a certificate is worth: more than two thirds of the committee committed, precommitted and prevoted, each prevoter
      found the block to extend its own head, and the block holds no transaction twice. */
  ghost predicate Certificate(net: Net, body: Body) {
    var key := KeyOf(body);
    && body.members == body.committee.members && NoRepeats(body.transactions)
    && (forall phase :: TwoThirds(|Voters(net, phase, key)|, |body.members|))
    && forall n :: n in Voters(net, Prevote, key) ==>
         n in body.members && n !in net.bad && ValidatedOwnHead(net, n, key)
  }

  /** The signatures stored with a block are commit votes of more than two thirds of its committee. */
  ghost predicate Signed(net: Net, c: Certified) {
    c.signers <= Voters(net, Commit, KeyOf(c.body)) && TwoThirds(|c.signers|, |c.body.members|)
  }

  ghost predicate ValidatedOwnHead(net: Net, n: NodeId, key: Key) {
    exists v :: v in net.validated && v.node == n && v.key == key && v.head == key.body.parent && v.height == key.body.height - 1
  }

  lemma CertificateFor(net: Net, body: Body)
    requires NetOk(net) && body.members == body.committee.members && HasQuorum(net, Commit, KeyOf(body))
    ensures Certificate(net, body)
  {
    hide NetOk, Voters, NoRepeats;
    var key := KeyOf(body);
    QuorumIsSome(net, key);
    ChainOfEvidence(net, key);
    forall phase
      ensures TwoThirds(|Voters(net, phase, key)|, |body.members|)
    {
      match phase
      case Prevote => assert HasQuorum(net, Prevote, key);
      case Precommit => assert HasQuorum(net, Precommit, key);
      case Commit => assert HasQuorum(net, Commit, key);
    }
    forall n | n in Voters(net, Prevote, key)
      ensures n in body.members && n !in net.bad && ValidatedOwnHead(net, n, key)
    {
      PrevotersValidated(net, key, n);
    }
  }

  /** In every reachable state, under any delivery, loss, duplication and order: whatever block a node has finalized in a
      session or stored, by its own votes or from gossip, carries a certificate. */
  lemma FinalizedMeansCertified(g: Global, n: NodeId)
    requires Reachable(g) && n in g.nodes
    ensures forall key :: key in g.nodes[n].sessions && g.nodes[n].sessions[key].finalized ==>
      KeyOf(key.body) == key && Certificate(g.net, key.body)
    ensures forall h :: h in g.nodes[n].byHash ==>
      h == HashOf(g.nodes[n].byHash[h].body) && Certificate(g.net, g.nodes[n].byHash[h].body)
      && Signed(g.net, g.nodes[n].byHash[h])
  {
    var init, events :| Initial(init) && RunAll(init, events) == Reached(g);
    RunKeepsInv(init, events);
    hide Voters, Certificate, HasQuorum, RunAll, Signed;
    var s := g.nodes[n];
    forall key | key in s.sessions && s.sessions[key].finalized
      ensures KeyOf(key.body) == key && Certificate(g.net, key.body)
    {
      QuorumIsSome(g.net, key);
      ChainOfEvidence(g.net, key);
      CertificateFor(g.net, key.body);
    }
    forall h | h in s.byHash
      ensures h == HashOf(s.byHash[h].body) && Certificate(g.net, s.byHash[h].body) && Signed(g.net, s.byHash[h])
    {
      CertQuorum(g.net, s.byHash[h]);
      CertificateFor(g.net, s.byHash[h].body);
    }
  }

  lemma QuorumIsSome(net: Net, key: Key)
    requires HasQuorum(net, Commit, key)
    ensures |Voters(net, Commit, key)| >= 1
  {
  }

  lemma CertQuorum(net: Net, c: Certified)
    requires CertOk(net, c)
    ensures HasQuorum(net, Commit, KeyOf(c.body)) && c.body.members == c.body.committee.members && Signed(net, c)
  {
    SubsetSize(c.signers, Voters(net, Commit, KeyOf(c.body)));
  }

  /** The head of every node is a stored, certified block, and its height never falls. */
  lemma HeadIsCertified(g: Global, n: NodeId)
    requires Reachable(g) && n in g.nodes && g.nodes[n].head != Genesis
    ensures var s := g.nodes[n];
      && s.height in s.byHeight && HashOf(s.byHeight[s.height].body) == s.head && s.head in s.byHash
      && s.byHeight[s.height].body.height == s.height && Certificate(g.net, s.byHash[s.head].body)
  {
    var init, events :| Initial(init) && RunAll(init, events) == Reached(g);
    RunKeepsInv(init, events);
    hide Voters, Certificate, RunAll;
    FinalizedMeansCertified(g, n);
  }

  lemma {:induction false} OverlapSize<T>(a: set<T>, b: set<T>, all: set<T>)
    requires a <= all && b <= all
    ensures |a * b| >= |a| + |b| - |all|
  {
    assert |a + b| == |a| + |b| - |a * b|;
    SubsetSize(a + b, all);
  }

  lemma QuorumArithmetic(n: nat)
    ensures 2 * Quorum(n) - n >= n / 3 + 1
  {
  }

  /** Two blocks certified by one committee: at least a third of its members, plus one, prevoted both. */
  lemma QuorumsOverlap(g: Global, body1: Body, body2: Body)
    requires Certificate(g.net, body1) && Certificate(g.net, body2) && body1.committee == body2.committee
    ensures var n := |body1.members|;
      var both := Voters(g.net, Prevote, KeyOf(body1)) * Voters(g.net, Prevote, KeyOf(body2));
      && |both| >= 2 * Quorum(n) - n >= n / 3 + 1
      && forall voter :: voter in both ==>
           ValidatedOwnHead(g.net, voter, KeyOf(body1)) && ValidatedOwnHead(g.net, voter, KeyOf(body2))
  {
    hide Voters, ValidatedOwnHead;
    var all := Elements(body1.members);
    ElementsSize(body1.members);
    QuorumArithmetic(|body1.members|);
    OverlapSize(Voters(g.net, Prevote, KeyOf(body1)), Voters(g.net, Prevote, KeyOf(body2)), all);
  }
}
