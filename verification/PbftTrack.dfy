/** What events about one block leave alone: no vote is lost, no other block is touched, and the head follows the block. */
module PbftTrack {
  import opened Collections
  import opened Pbft
  import opened PbftProgress

  // ---------------------------------------------------------------------------------------------
  // Votes belong to their block
  // ---------------------------------------------------------------------------------------------

  /** Buffered votes are filed under their own block, also once a task has taken them over. */
  predicate Pure(s: NodeState) {
    && (forall key, v :: key in s.pending && v in s.pending[key] ==> v.key == key)
    && (forall i, v :: 0 <= i < |s.tasks| && v in s.tasks[i].replay ==> v.key == s.tasks[i].key)
  }

  lemma VoteKeepsPure(s: NodeState, v: Vote)
    requires Pure(s)
    ensures Pure(OnVote(s, v).node) && OnVote(s, v).node.tasks == s.tasks
  {
    hide ApplyFinalizedBlock;
    VoteFrame(s, v);
  }

  /** A vote changes the buffer only by being buffered, and no task. */
  lemma VoteFrame(s: NodeState, v: Vote)
    ensures var t := OnVote(s, v).node;
      && t.tasks == s.tasks && t.id == s.id && t.malicious == s.malicious
      && t.pending == (if v.key in s.sessions then s.pending else Buffer(s, v).pending)
      && t.sessions.Keys == s.sessions.Keys
  {
    hide ApplyFinalizedBlock;
    match v.phase
    case Prevote => PrevoteFrame(s, v);
    case Precommit => PrecommitFrame(s, v);
    case Commit => CommitFrame(s, v);
  }

  lemma CommitFrame(s: NodeState, v: Vote)
    ensures var t := OnCommit(s, v).node;
      && t.tasks == s.tasks && t.id == s.id && t.malicious == s.malicious
      && t.pending == (if v.key in s.sessions then s.pending else Buffer(s, v).pending)
      && t.sessions.Keys == s.sessions.Keys
  {
    hide ApplyFinalizedBlock;
    if v.key in s.sessions {
      var session := s.sessions[v.key].(commits := s.sessions[v.key].commits + {v.voter});
      ApplyFrame(SetSession(s, v.key, session.(finalized := true)), Certified(v.key.body, session.commits));
    }
  }

  lemma PrecommitFrame(s: NodeState, v: Vote)
    ensures var t := OnPrecommit(s, v).node;
      && t.tasks == s.tasks && t.id == s.id && t.malicious == s.malicious
      && t.pending == (if v.key in s.sessions then s.pending else Buffer(s, v).pending)
      && t.sessions.Keys == s.sessions.Keys
  {
    hide OnCommit;
    if v.key in s.sessions {
      var session := s.sessions[v.key].(precommits := s.sessions[v.key].precommits + {v.voter});
      CommitFrame(SetSession(s, v.key, session.(commitSent := true)), Vote(Commit, v.key, s.id));
    }
  }

  lemma PrevoteFrame(s: NodeState, v: Vote)
    ensures var t := OnPrevote(s, v).node;
      && t.tasks == s.tasks && t.id == s.id && t.malicious == s.malicious
      && t.pending == (if v.key in s.sessions then s.pending else Buffer(s, v).pending)
      && t.sessions.Keys == s.sessions.Keys
  {
    hide OnPrecommit;
    if v.key in s.sessions {
      var session := s.sessions[v.key].(prevotes := s.sessions[v.key].prevotes + {v.voter});
      PrecommitFrame(SetSession(s, v.key, session.(precommitSent := true)), Vote(Precommit, v.key, s.id));
    }
  }

  lemma TaskKeepsPure(s: NodeState, i: nat)
    requires Pure(s) && i < |s.tasks|
    ensures Pure(OnTask(s, i).node)
  {
    hide OnVote, OnPrevote;
    var task := s.tasks[i];
    if task.replay != [] {
      var s1 := s.(tasks := s.tasks[i := task.(replay := task.replay[1..])]);
      VoteKeepsPure(s1, task.replay[0]);
    } else if task.key in s.sessions {
      var rest := s.(tasks := s.tasks[..i] + s.tasks[i + 1..]);
      PrevoteFrame(SetSession(rest, task.key, s.sessions[task.key].(prevoteSent := true)), Vote(Prevote, task.key, s.id));
    }
  }

  lemma GossipKeepsPure(s: NodeState, c: Certified)
    requires Pure(s)
    ensures Pure(OnGossip(s, c)) && OnGossip(s, c).pending == s.pending && OnGossip(s, c).tasks == s.tasks
    ensures OnGossip(s, c).sessions == s.sessions
  {
  }

  ghost predicate AllPure(g: Global) {
    forall n :: n in g.nodes ==> Pure(g.nodes[n])
  }

  lemma StepIsPure(g: Global, e: Event)
    requires AllPure(g) && Enabled(g, e)
    ensures AllPure(Occur(g, e))
  {
    hide OnTask, OnVote, OnGossip, ValidateBlock;
    var s := g.nodes[e.node];
    match e
    case Propose(_, key) =>
    case RunTask(_, i) => TaskKeepsPure(s, i);
    case Deliver(_, v) => VoteKeepsPure(s, v);
    case Gossip(_, c) => GossipKeepsPure(s, c);
  }

  lemma {:induction false} RunIsPure(init: Global, events: seq<Event>)
    requires Initial(init)
    ensures RunAll(init, events).Reached? ==> AllPure(RunAll(init, events).state)
  {
    hide Occur;
    if events != [] {
      hide AllPure;
      var front := events[..|events| - 1];
      RunIsPure(init, front);
      if RunAll(init, front).Reached? && Enabled(RunAll(init, front).state, events[|front|]) {
        StepIsPure(RunAll(init, front).state, events[|front|]);
      }
    }
  }

  // ---------------------------------------------------------------------------------------------
  // No vote is lost
  // ---------------------------------------------------------------------------------------------

  /** A vote a node has heard is recorded in the session of its block, or still waits for it, or is no member's. */
  predicate Kept(s: NodeState, v: Vote) {
    || v.voter !in v.key.committee.members
    || (v.key in s.sessions && v.voter in Recorded(v.phase, s.sessions[v.key]))
    || (v.key in s.pending && v in s.pending[v.key])
    || exists i :: 0 <= i < |s.tasks| && s.tasks[i].key == v.key && v in s.tasks[i].replay
  }

  lemma RecordedStays(s: NodeState, t: NodeState, v: Vote)
    requires NodeLe(s, t) && v.key in s.sessions && v.voter in Recorded(v.phase, s.sessions[v.key])
    ensures Kept(t, v)
  {
  }

  lemma HearingKeeps(sent: set<Vote>, s: NodeState, u: Vote, v: Vote)
    requires NodePrompt(sent, s) && (Kept(s, v) || u == v)
    ensures Kept(OnVote(s, u).node, v)
  {
    hide OnVote, NodePrompt, NodeLe, Recorded;
    VoteHandled(sent, s, u);
    VoteFrame(s, u);
    var t := OnVote(s, u).node;
    if v.key in s.sessions && v.voter in Recorded(v.phase, s.sessions[v.key]) {
      RecordedStays(s, t, v);
    } else if exists i :: 0 <= i < |s.tasks| && s.tasks[i].key == v.key && v in s.tasks[i].replay {
      var i :| 0 <= i < |s.tasks| && s.tasks[i].key == v.key && v in s.tasks[i].replay;
      assert t.tasks[i] == s.tasks[i];
    }
  }

  lemma RunningKeeps(sent: set<Vote>, s: NodeState, i: nat, v: Vote)
    requires NodePrompt(sent, s) && Pure(s) && Kept(s, v) && i < |s.tasks|
    ensures Kept(OnTask(s, i).node, v)
  {
    hide OnVote, OnPrevote, NodePrompt, NodeLe, Recorded;
    var task := s.tasks[i];
    TaskHandled(sent, s, i);
    if v.key in s.sessions && v.voter in Recorded(v.phase, s.sessions[v.key]) {
      RecordedStays(s, OnTask(s, i).node, v);
    } else if task.replay != [] {
      var s1 := s.(tasks := s.tasks[i := task.(replay := task.replay[1..])]);
      SamePrompt(sent, s, s1);
      assert task.replay == [task.replay[0]] + task.replay[1..];
      if j :| 0 <= j < |s.tasks| && s.tasks[j].key == v.key && v in s.tasks[j].replay {
        assert v == task.replay[0] || (s1.tasks[j].key == v.key && v in s1.tasks[j].replay);
      }
      HearingKeeps(sent, s1, task.replay[0], v);
    } else {
      FinishingKeeps(s, i, v);
    }
  }

  lemma FinishingKeeps(s: NodeState, i: nat, v: Vote)
    requires i < |s.tasks| && s.tasks[i].replay == [] && Kept(s, v)
    requires !(v.key in s.sessions && v.voter in Recorded(v.phase, s.sessions[v.key]))
    ensures Kept(OnTask(s, i).node, v)
  {
    hide OnPrevote, Recorded;
    var task, t := s.tasks[i], OnTask(s, i).node;
    var rest := s.(tasks := s.tasks[..i] + s.tasks[i + 1..]);
    if task.key in s.sessions {
      PrevoteFrame(SetSession(rest, task.key, s.sessions[task.key].(prevoteSent := true)), Vote(Prevote, task.key, s.id));
    }
    assert t.tasks == rest.tasks && t.pending == s.pending;
    if j :| 0 <= j < |s.tasks| && s.tasks[j].key == v.key && v in s.tasks[j].replay {
      assert rest.tasks[if j < i then j else j - 1] == s.tasks[j];
    }
  }

  lemma ProposingKeeps(s: NodeState, key: Key, v: Vote)
    requires Kept(s, v)
    ensures Kept(OnPropose(s, key), v)
  {
    hide ValidateBlock, Recorded;
    var t := OnPropose(s, key);
    if v.key in s.sessions && v.voter in Recorded(v.phase, s.sessions[v.key]) {
      assert t.sessions[v.key] == s.sessions[v.key];
    } else if j :| 0 <= j < |s.tasks| && s.tasks[j].key == v.key && v in s.tasks[j].replay {
      assert t.tasks[j] == s.tasks[j];
    } else if v.key in s.pending && v in s.pending[v.key] && v.key == key && |t.tasks| > |s.tasks| {
      assert t.tasks[|s.tasks|].key == key && v in t.tasks[|s.tasks|].replay;
    }
  }

  lemma StepKeeps(g: Global, e: Event, n: NodeId, v: Vote)
    requires Prompt(g) && AllPure(g) && Enabled(g, e) && n in g.nodes
    requires Kept(g.nodes[n], v) || e == Deliver(n, v)
    ensures n in Occur(g, e).nodes && Kept(Occur(g, e).nodes[n], v)
  {
    hide OnTask, OnVote, OnGossip, OnPropose, ValidateBlock, NodePrompt, Kept, Pure;
    if n == e.node {
      var s := g.nodes[n];
      match e
      case Propose(_, key) => ProposingKeeps(s, key, v);
      case RunTask(_, i) => RunningKeeps(g.net.sent, s, i, v);
      case Deliver(_, u) => HearingKeeps(g.net.sent, s, u, v);
      case Gossip(_, c) => GossipKeepsVote(s, c, v);
    }
  }

  lemma GossipKeepsVote(s: NodeState, c: Certified, v: Vote)
    requires Kept(s, v) && Pure(s)
    ensures Kept(OnGossip(s, c), v)
  {
    hide OnGossip, Recorded;
    GossipKeepsPure(s, c);
  }

  /** In every run: whatever vote of a member a node has ever been delivered, before its proposal or after, the node counts
      it or still has it to count. */
  lemma {:induction false} NoVoteIsLost(init: Global, events: seq<Event>, i: nat)
    requires Initial(init) && RunAll(init, events).Reached? && i < |events| && events[i].Deliver?
    ensures var g := RunAll(init, events).state;
      events[i].node in g.nodes && Kept(g.nodes[events[i].node], events[i].vote)
    decreases |events|
  {
    hide Occur, Kept, Prompt, AllPure, AcceptedAreReady, Initial;
    var last := |events| - 1;
    var front := events[..last];
    var g := RunAll(init, front).state;
    RunIsPrompt(init, front);
    RunIsPure(init, front);
    if i < last {
      NoVoteIsLost(init, front, i);
      assert front[i] == events[i];
    }
    StepKeeps(g, events[last], events[i].node, events[i].vote);
  }

  // ---------------------------------------------------------------------------------------------
  // Keeping to one block
  // ---------------------------------------------------------------------------------------------

  /** An honest member that is about to finalize the block on top of its head, or has done so and has it as its head. */
  predicate OnTrack(s: NodeState, key: Key) {
    && key in s.sessions && key.body.members == key.committee.members
    && if s.sessions[key].finalized then s.head == HashOf(key.body) && s.height == key.body.height
       else s.height + 1 == key.body.height
  }

  lemma CommitOnTrack(s: NodeState, v: Vote)
    requires OnTrack(s, v.key)
    ensures OnTrack(OnCommit(s, v).node, v.key)
  {
  }

  lemma PrecommitOnTrack(s: NodeState, v: Vote)
    requires OnTrack(s, v.key)
    ensures OnTrack(OnPrecommit(s, v).node, v.key)
  {
    hide OnCommit;
    var session := s.sessions[v.key].(precommits := s.sessions[v.key].precommits + {v.voter});
    CommitOnTrack(SetSession(s, v.key, session.(commitSent := true)), Vote(Commit, v.key, s.id));
  }

  lemma PrevoteOnTrack(s: NodeState, v: Vote)
    requires OnTrack(s, v.key)
    ensures OnTrack(OnPrevote(s, v).node, v.key)
  {
    hide OnPrecommit;
    var session := s.sessions[v.key].(prevotes := s.sessions[v.key].prevotes + {v.voter});
    PrecommitOnTrack(SetSession(s, v.key, session.(precommitSent := true)), Vote(Precommit, v.key, s.id));
  }

  lemma VoteOnTrack(s: NodeState, v: Vote)
    requires OnTrack(s, v.key)
    ensures OnTrack(OnVote(s, v).node, v.key)
  {
    hide OnPrevote, OnPrecommit, OnCommit, OnTrack;
    match v.phase
    case Prevote => PrevoteOnTrack(s, v);
    case Precommit => PrecommitOnTrack(s, v);
    case Commit => CommitOnTrack(s, v);
  }

  lemma TaskOnTrack(s: NodeState, i: nat)
    requires i < |s.tasks| && Pure(s) && OnTrack(s, s.tasks[i].key)
    ensures OnTrack(OnTask(s, i).node, s.tasks[i].key)
  {
    hide OnVote, OnPrevote;
    var task := s.tasks[i];
    if task.replay != [] {
      assert task.replay[0].key == task.key;
      VoteOnTrack(s.(tasks := s.tasks[i := task.(replay := task.replay[1..])]), task.replay[0]);
    } else if !s.sessions[task.key].prevoteSent {
      var rest := s.(tasks := s.tasks[..i] + s.tasks[i + 1..]);
      PrevoteOnTrack(SetSession(rest, task.key, s.sessions[task.key].(prevoteSent := true)), Vote(Prevote, task.key, s.id));
    }
  }

  lemma TaskFrame(s: NodeState, i: nat)
    requires i < |s.tasks|
    ensures OnTask(s, i).node.sessions.Keys == s.sessions.Keys
  {
    hide OnVote, OnPrevote;
    var task := s.tasks[i];
    if task.replay != [] {
      VoteFrame(s.(tasks := s.tasks[i := task.(replay := task.replay[1..])]), task.replay[0]);
    } else if task.key in s.sessions {
      var rest := s.(tasks := s.tasks[..i] + s.tasks[i + 1..]);
      PrevoteFrame(SetSession(rest, task.key, s.sessions[task.key].(prevoteSent := true)), Vote(Prevote, task.key, s.id));
    }
  }

  /** Whoever was on track for the block still is, and no session was opened. */
  ghost predicate Focused(g: Global, h: Global, key: Key) {
    && h.nodes.Keys == g.nodes.Keys
    && forall n :: n in g.nodes ==>
         && h.nodes[n].sessions.Keys == g.nodes[n].sessions.Keys
         && (OnTrack(g.nodes[n], key) ==> OnTrack(h.nodes[n], key))
  }

  lemma FocusedSelf(g: Global, key: Key)
    ensures Focused(g, g, key)
  {
  }

  lemma FocusedTrans(g: Global, h: Global, i: Global, key: Key)
    requires Focused(g, h, key) && Focused(h, i, key)
    ensures Focused(g, i, key)
  {
    hide OnTrack;
  }

  lemma DeliverFocused(g: Global, n: NodeId, v: Vote)
    requires Enabled(g, Deliver(n, v))
    ensures Focused(g, Occur(g, Deliver(n, v)), v.key)
  {
    hide OnVote, OnTrack;
    VoteFrame(g.nodes[n], v);
    if OnTrack(g.nodes[n], v.key) {
      VoteOnTrack(g.nodes[n], v);
    }
  }

  lemma TaskFocused(g: Global, n: NodeId, i: nat)
    requires Enabled(g, RunTask(n, i)) && Pure(g.nodes[n])
    ensures Focused(g, Occur(g, RunTask(n, i)), g.nodes[n].tasks[i].key)
  {
    hide OnTask, OnTrack, Pure;
    TaskFrame(g.nodes[n], i);
    if OnTrack(g.nodes[n], g.nodes[n].tasks[i].key) {
      TaskOnTrack(g.nodes[n], i);
    }
  }
}
