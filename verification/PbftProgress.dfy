/** How far votes carry: nodes never go back, they answer every quorum at once, and so any quorum can be led to finalize. */
module PbftProgress {
  import opened Collections
  import opened Pbft

  // ---------------------------------------------------------------------------------------------
  // Nodes move forward and answer at once
  // ---------------------------------------------------------------------------------------------

  predicate SessionLe(a: Session, b: Session) {
    && a.prevotes <= b.prevotes && a.precommits <= b.precommits && a.commits <= b.commits
    && (a.prevoteSent ==> b.prevoteSent) && (a.precommitSent ==> b.precommitSent)
    && (a.commitSent ==> b.commitSent) && (a.finalized ==> b.finalized)
  }

  predicate NodeLe(s: NodeState, t: NodeState) {
    && t.id == s.id && t.malicious == s.malicious
    && forall key :: key in s.sessions ==> key in t.sessions && SessionLe(s.sessions[key], t.sessions[key])
  }

  /** Every quorum seen has been answered, and every answer has been sent. */
  predicate SessionPrompt(sent: set<Vote>, n: NodeId, key: Key, x: Session) {
    var q := Quorum(|key.committee.members|);
    && (x.prevoteSent ==> Vote(Prevote, key, n) in sent)
    && (|x.prevotes| >= q ==> x.precommitSent) && (x.precommitSent ==> Vote(Precommit, key, n) in sent)
    && (|x.precommits| >= q ==> x.commitSent) && (x.commitSent ==> Vote(Commit, key, n) in sent)
    && (|x.commits| >= q ==> x.finalized)
  }

  predicate NodePrompt(sent: set<Vote>, s: NodeState) {
    s.malicious || forall key :: key in s.sessions ==> SessionPrompt(sent, s.id, key, s.sessions[key])
  }

  /** The prevote has been sent, or a task is there that will send it, after whatever buffered votes it has to replay. */
  predicate Ready(s: NodeState, key: Key) {
    key in s.sessions && (s.sessions[key].prevoteSent || HasTask(s, key))
  }

  predicate HasTask(s: NodeState, key: Key) {
    exists j :: 0 <= j < |s.tasks| && s.tasks[j].key == key
  }

  function Recorded(phase: Phase, x: Session): set<NodeId> {
    match phase
    case Prevote => x.prevotes
    case Precommit => x.precommits
    case Commit => x.commits
  }

  /** What handling a vote does to a node. */
  ghost predicate Handled(sent: set<Vote>, s: NodeState, v: Vote, o: Outcome) {
    && NodePrompt(sent + o.votes, o.node) && NodeLe(s, o.node) && o.node.tasks == s.tasks
    && (v.key in s.sessions && v.voter in v.key.committee.members ==>
          v.voter in Recorded(v.phase, o.node.sessions[v.key]))
  }

  lemma PromptMore(sent: set<Vote>, more: set<Vote>, s: NodeState)
    requires NodePrompt(sent, s) && sent <= more
    ensures NodePrompt(more, s)
  {
  }

  lemma SetPrompt(sent: set<Vote>, s: NodeState, key: Key, x: Session)
    requires NodePrompt(sent, s) && (s.malicious || SessionPrompt(sent, s.id, key, x))
    requires key in s.sessions ==> SessionLe(s.sessions[key], x)
    ensures NodePrompt(sent, SetSession(s, key, x)) && NodeLe(s, SetSession(s, key, x))
  {
  }

  lemma LeTrans(s: NodeState, t: NodeState, u: NodeState)
    requires NodeLe(s, t) && NodeLe(t, u)
    ensures NodeLe(s, u)
  {
  }

  lemma CommitHandled(sent: set<Vote>, s: NodeState, v: Vote)
    requires NodePrompt(sent, s) && v.phase == Commit
    ensures Handled(sent, s, v, OnCommit(s, v))
  {
    hide ApplyFinalizedBlock;
    var o := OnCommit(s, v);
    assert sent + o.votes == sent;
    if v.key in s.sessions && v.voter in v.key.committee.members {
      var session := s.sessions[v.key].(commits := s.sessions[v.key].commits + {v.voter});
      var done := |session.commits| < Quorum(|v.key.committee.members|) || session.finalized;
      var x := if done then session else session.(finalized := true);
      SetPrompt(sent, s, v.key, x);
      ApplyFrame(SetSession(s, v.key, x), Certified(v.key.body, session.commits));
    }
  }

  /** A node hears the vote it has just sent, after having marked it as sent. */
  lemma SelfHandled(sent: set<Vote>, s: NodeState, s1: NodeState, v: Vote, own: Vote, o: Outcome)
    requires NodeLe(s, s1) && s1.tasks == s.tasks && Handled(sent + {own}, s1, own, o)
    requires v.key in s1.sessions && v.voter in Recorded(v.phase, s1.sessions[v.key])
    ensures Handled(sent, s, v, o.(votes := o.votes + {own}))
  {
    hide NodePrompt;
    LeTrans(s, s1, o.node);
    assert sent + (o.votes + {own}) == sent + {own} + o.votes;
  }

  lemma PrecommitHandled(sent: set<Vote>, s: NodeState, v: Vote)
    requires NodePrompt(sent, s) && v.phase == Precommit
    ensures Handled(sent, s, v, OnPrecommit(s, v))
  {
    hide OnCommit, NodeLe, NodePrompt;
    var o := OnPrecommit(s, v);
    if v.key in s.sessions && v.voter in v.key.committee.members {
      var session := s.sessions[v.key].(precommits := s.sessions[v.key].precommits + {v.voter});
      PromptOf(sent, s, v.key);
      if s.malicious || session.commitSent || |session.precommits| < Quorum(|v.key.committee.members|) {
        assert sent + o.votes == sent;
        SetPrompt(sent, s, v.key, session);
      } else {
        var commit := Vote(Commit, v.key, s.id);
        var x := session.(commitSent := true);
        PromptMore(sent, sent + {commit}, s);
        SetPrompt(sent + {commit}, s, v.key, x);
        CommitHandled(sent + {commit}, SetSession(s, v.key, x), commit);
        SelfHandled(sent, s, SetSession(s, v.key, x), v, commit, OnCommit(SetSession(s, v.key, x), commit));
      }
    } else {
      NothingHandled(sent, s, o.node, v);
    }
  }

  lemma PromptOf(sent: set<Vote>, s: NodeState, key: Key)
    requires NodePrompt(sent, s) && key in s.sessions
    ensures s.malicious || SessionPrompt(sent, s.id, key, s.sessions[key])
  {
  }

  lemma NothingHandled(sent: set<Vote>, s: NodeState, t: NodeState, v: Vote)
    requires NodePrompt(sent, s) && t == s.(pending := t.pending)
    requires v.key !in s.sessions || v.voter !in v.key.committee.members
    ensures Handled(sent, s, v, Quiet(t))
  {
    assert sent + {} == sent;
  }

  lemma PrevoteHandled(sent: set<Vote>, s: NodeState, v: Vote)
    requires NodePrompt(sent, s) && v.phase == Prevote
    ensures Handled(sent, s, v, OnPrevote(s, v))
  {
    hide OnPrecommit, NodeLe, NodePrompt;
    var o := OnPrevote(s, v);
    if v.key in s.sessions && v.voter in v.key.committee.members {
      var session := s.sessions[v.key].(prevotes := s.sessions[v.key].prevotes + {v.voter});
      PromptOf(sent, s, v.key);
      if s.malicious || session.precommitSent || |session.prevotes| < Quorum(|v.key.committee.members|) {
        assert sent + o.votes == sent;
        SetPrompt(sent, s, v.key, session);
      } else {
        var precommit := Vote(Precommit, v.key, s.id);
        var x := session.(precommitSent := true);
        PromptMore(sent, sent + {precommit}, s);
        SetPrompt(sent + {precommit}, s, v.key, x);
        PrecommitHandled(sent + {precommit}, SetSession(s, v.key, x), precommit);
        SelfHandled(sent, s, SetSession(s, v.key, x), v, precommit, OnPrecommit(SetSession(s, v.key, x), precommit));
      }
    } else {
      NothingHandled(sent, s, o.node, v);
    }
  }

  lemma VoteHandled(sent: set<Vote>, s: NodeState, v: Vote)
    requires NodePrompt(sent, s)
    ensures Handled(sent, s, v, OnVote(s, v))
  {
    hide OnPrevote, OnPrecommit, OnCommit, Handled, NodePrompt;
    match v.phase
    case Prevote => PrevoteHandled(sent, s, v);
    case Precommit => PrecommitHandled(sent, s, v);
    case Commit => CommitHandled(sent, s, v);
  }

  /** A step of a task: ready blocks stay ready, a vote to replay is gone, and without one the prevote has been sent. */
  ghost predicate TaskStep(sent: set<Vote>, s: NodeState, i: nat, o: Outcome)
    requires i < |s.tasks|
  {
    && NodePrompt(sent + o.votes, o.node) && NodeLe(s, o.node)
    && (forall key :: Ready(s, key) ==> Ready(o.node, key))
    && (s.tasks[i].replay == [] && s.tasks[i].key in s.sessions ==>
          s.tasks[i].key in o.node.sessions && o.node.sessions[s.tasks[i].key].prevoteSent)
    && (s.tasks[i].replay != [] ==> o.node.tasks == s.tasks[i := Task(s.tasks[i].key, s.tasks[i].replay[1..])])
  }

  lemma TaskHandled(sent: set<Vote>, s: NodeState, i: nat)
    requires NodePrompt(sent, s) && i < |s.tasks|
    ensures TaskStep(sent, s, i, OnTask(s, i))
  {
    hide OnVote, OnPrevote, NodePrompt;
    var task, o := s.tasks[i], OnTask(s, i);
    if task.replay != [] {
      var s1 := s.(tasks := s.tasks[i := task.(replay := task.replay[1..])]);
      SamePrompt(sent, s, s1);
      VoteHandled(sent, s1, task.replay[0]);
      forall key | Ready(s, key)
        ensures Ready(o.node, key)
      {
        if HasTask(s, key) {
          var j :| 0 <= j < |s.tasks| && s.tasks[j].key == key;
          assert s1.tasks[j].key == key;
        }
      }
    } else {
      var rest := s.(tasks := s.tasks[..i] + s.tasks[i + 1..]);
      SamePrompt(sent, s, rest);
      forall key | HasTask(s, key) && key != task.key
        ensures HasTask(rest, key)
      {
        var j :| 0 <= j < |s.tasks| && s.tasks[j].key == key;
        assert rest.tasks[if j < i then j else j - 1] == s.tasks[j];
      }
      if task.key !in s.sessions || s.sessions[task.key].prevoteSent {
        assert sent + o.votes == sent;
      } else {
        SendsPrevote(sent, rest, task.key);
      }
    }
  }

  lemma SamePrompt(sent: set<Vote>, s: NodeState, t: NodeState)
    requires NodePrompt(sent, s) && t == s.(tasks := t.tasks)
    ensures NodePrompt(sent, t) && NodeLe(s, t)
  {
  }

  lemma SendsPrevote(sent: set<Vote>, s: NodeState, key: Key)
    requires NodePrompt(sent, s) && key in s.sessions && !s.sessions[key].prevoteSent
    ensures var prevote := Vote(Prevote, key, s.id);
      var o := OnPrevote(SetSession(s, key, s.sessions[key].(prevoteSent := true)), prevote);
      && NodePrompt(sent + (o.votes + {prevote}), o.node) && NodeLe(s, o.node) && o.node.tasks == s.tasks
      && key in o.node.sessions && o.node.sessions[key].prevoteSent
  {
    hide OnPrevote, NodePrompt;
    var prevote := Vote(Prevote, key, s.id);
    var x := s.sessions[key].(prevoteSent := true);
    var s1 := SetSession(s, key, x);
    PromptOf(sent, s, key);
    PromptMore(sent, sent + {prevote}, s);
    SetPrompt(sent + {prevote}, s, key, x);
    PrevoteHandled(sent + {prevote}, s1, prevote);
    var o := OnPrevote(s1, prevote);
    LeTrans(s, s1, o.node);
    assert sent + (o.votes + {prevote}) == sent + {prevote} + o.votes;
  }

  // ---------------------------------------------------------------------------------------------
  // The network
  // ---------------------------------------------------------------------------------------------

  predicate Prompt(g: Global) {
    forall n :: n in g.nodes ==> g.nodes[n].id == n && NodePrompt(g.net.sent, g.nodes[n])
  }

  ghost predicate NodeGrew(s: NodeState, t: NodeState) {
    NodeLe(s, t) && forall key :: Ready(s, key) ==> Ready(t, key)
  }

  ghost predicate Grew(g: Global, h: Global) {
    && h.nodes.Keys == g.nodes.Keys && h.net.bad == g.net.bad && g.net.sent <= h.net.sent
    && forall n :: n in g.nodes ==> NodeGrew(g.nodes[n], h.nodes[n])
  }

  lemma GrewTrans(g: Global, h: Global, i: Global)
    requires Grew(g, h) && Grew(h, i)
    ensures Grew(g, i)
  {
    hide NodeLe, Ready;
    forall n | n in g.nodes
      ensures NodeGrew(g.nodes[n], i.nodes[n])
    {
      LeTrans(g.nodes[n], h.nodes[n], i.nodes[n]);
    }
  }

  lemma GrewSelf(g: Global)
    ensures Grew(g, g)
  {
  }

  lemma ProposeHandled(sent: set<Vote>, s: NodeState, key: Key)
    requires NodePrompt(sent, s)
    ensures NodePrompt(sent, OnPropose(s, key)) && NodeGrew(s, OnPropose(s, key))
  {
    hide ValidateBlock;
    assert key !in s.sessions ==> SessionPrompt(sent, s.id, key, NEW_SESSION);
    forall other | HasTask(s, other)
      ensures HasTask(OnPropose(s, key), other)
    {
      var j :| 0 <= j < |s.tasks| && s.tasks[j].key == other;
      assert OnPropose(s, key).tasks[j].key == other;
    }
  }

  lemma GossipHandled(sent: set<Vote>, s: NodeState, c: Certified)
    requires NodePrompt(sent, s)
    ensures NodePrompt(sent, OnGossip(s, c)) && NodeGrew(s, OnGossip(s, c))
  {
    hide ApplyFinalizedBlock;
    ApplyFrame(s, c);
  }

  /** Every event leaves everybody prompt, and takes nothing back. */
  lemma StepIsPrompt(g: Global, e: Event)
    requires Prompt(g) && Enabled(g, e)
    ensures Prompt(Occur(g, e)) && Grew(g, Occur(g, e))
  {
    hide OnTask, OnVote, OnGossip, OnPropose, ValidateBlock, NodePrompt, NodeLe, Ready;
    var s, h := g.nodes[e.node], Occur(g, e);
    match e {
      case Propose(n, key) => ProposeHandled(g.net.sent, s, key);
      case RunTask(n, i) => TaskHandled(g.net.sent, s, i);
      case Deliver(n, v) => VoteHandled(g.net.sent, s, v); HandledGrew(g.net.sent, s, v);
      case Gossip(n, c) => GossipHandled(g.net.sent, s, c);
    }
    forall n | n in g.nodes
      ensures h.nodes[n].id == n && NodePrompt(h.net.sent, h.nodes[n]) && NodeGrew(g.nodes[n], h.nodes[n])
    {
      if n != e.node {
        assert h.nodes[n] == g.nodes[n];
        PromptMore(g.net.sent, h.net.sent, g.nodes[n]);
        LeSelf(g.nodes[n]);
      } else {
        LeIds(g.nodes[n], h.nodes[n]);
      }
    }
  }

  /** In every reachable state every node is prompt, and every accepted proposal has led to a prevote, or will. */
  lemma {:induction false} RunIsPrompt(init: Global, events: seq<Event>)
    requires Initial(init)
    ensures RunAll(init, events).Reached? ==>
      Prompt(RunAll(init, events).state) && AcceptedAreReady(RunAll(init, events).state)
  {
    hide Occur, Grew;
    if events == [] {
      NothingYet(init);
    } else {
      hide Prompt, AcceptedAreReady, Initial;
      var front := events[..|events| - 1];
      RunIsPrompt(init, front);
      if RunAll(init, front).Reached? && Enabled(RunAll(init, front).state, events[|front|]) {
        StepIsPrompt(RunAll(init, front).state, events[|front|]);
        StepKeepsAccepted(RunAll(init, front).state, events[|front|]);
      }
    }
  }

  lemma NothingYet(init: Global)
    requires Initial(init)
    ensures Prompt(init) && AcceptedAreReady(init)
  {
  }

  /** The nodes that accepted the proposal of a block. */
  function Accepted(g: Global, key: Key): set<NodeId> {
    set v | v in g.net.validated && v.key == key :: v.node
  }

  predicate MayPrevote(g: Global, n: NodeId, key: Key) {
    n in key.committee.members && n in g.nodes && !g.nodes[n].malicious && Ready(g.nodes[n], key)
  }

  /** Whoever accepted a proposal is an honest member and has sent its prevote, or has a task that will. */
  ghost predicate AcceptedAreReady(g: Global) {
    forall v :: v in g.net.validated ==> MayPrevote(g, v.node, v.key)
  }

  lemma StepKeepsAccepted(g: Global, e: Event)
    requires Prompt(g) && Enabled(g, e) && AcceptedAreReady(g) && Grew(g, Occur(g, e))
    ensures AcceptedAreReady(Occur(g, e))
    ensures !e.Propose? ==> Occur(g, e).net.validated == g.net.validated
  {
    hide OnTask, OnVote, OnGossip, OnPropose, ValidateBlock, NodePrompt, NodeLe, Ready;
    var h := Occur(g, e);
    forall v | v in h.net.validated
      ensures MayPrevote(h, v.node, v.key)
    {
      if v in g.net.validated {
        assert NodeGrew(g.nodes[v.node], h.nodes[v.node]);
        LeIds(g.nodes[v.node], h.nodes[v.node]);
      } else {
        ProposedIsReady(g.nodes[e.node], v.key);
      }
    }
  }

  lemma ProposedIsReady(s: NodeState, key: Key)
    requires s.id in key.committee.members && !s.malicious && ValidateBlock(s, key)
    ensures Ready(OnPropose(s, key), key) && !OnPropose(s, key).malicious
  {
    hide ValidateBlock;
    var s' := OnPropose(s, key);
    assert s'.tasks[|s.tasks|].key == key;
  }

  lemma LeSelf(s: NodeState)
    ensures NodeLe(s, s)
  {
  }

  lemma LeIds(s: NodeState, t: NodeState)
    requires NodeLe(s, t)
    ensures s.id == t.id && s.malicious == t.malicious
  {
  }

  lemma HandledGrew(sent: set<Vote>, s: NodeState, v: Vote)
    requires Handled(sent, s, v, OnVote(s, v))
    ensures NodeGrew(s, OnVote(s, v).node)
  {
    hide OnVote, NodePrompt;
  }
}
