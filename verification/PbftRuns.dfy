/** Runs that lead any quorums to finalize, whatever blocks they were handed: how two blocks of one height become final. */
module PbftRuns {
  import opened Collections
  import opened Pbft
  import opened PbftProgress
  import opened PbftTrack

  datatype Run = Run(events: seq<Event>, state: Global)

  ghost predicate IsRun(init: Global, r: Run) {
    Initial(init) && RunAll(init, r.events) == Reached(r.state)
  }

  /** Which nodes were handed which proposals. */
  function Handed(events: seq<Event>): set<(NodeId, Key)> {
    set e | e in events && e.Propose? :: (e.node, e.key)
  }

  /** `t` continues `r` without any further proposal. */
  ghost predicate Continues(init: Global, r: Run, t: Run) {
    && IsRun(init, t) && Grew(r.state, t.state) && t.state.net.validated == r.state.net.validated
    && r.events <= t.events && forall i :: |r.events| <= i < |t.events| ==> !t.events[i].Propose?
  }

  lemma ContinuesTrans(init: Global, r: Run, t: Run, u: Run)
    requires Continues(init, r, t) && Continues(init, t, u)
    ensures Continues(init, r, u)
  {
    hide Grew;
    GrewTrans(r.state, t.state, u.state);
  }

  /** Without votes for other blocks either: whoever was about to finalize the block on top of its head still is, or has. */
  ghost predicate ContinuesFor(init: Global, r: Run, t: Run, key: Key) {
    Continues(init, r, t) && Focused(r.state, t.state, key)
  }

  lemma ForTrans(init: Global, r: Run, t: Run, u: Run, key: Key)
    requires ContinuesFor(init, r, t, key) && ContinuesFor(init, t, u, key)
    ensures ContinuesFor(init, r, u, key)
  {
    hide Continues, Focused;
    ContinuesTrans(init, r, t, u);
    FocusedTrans(r.state, t.state, u.state, key);
  }

  lemma ForSelf(init: Global, r: Run, key: Key)
    requires IsRun(init, r)
    ensures ContinuesFor(init, r, r, key)
  {
    hide Continues, Focused;
    ContinuesSelf(init, r);
    FocusedSelf(r.state, key);
  }

  lemma ForFacts(init: Global, r: Run, t: Run, key: Key)
    requires ContinuesFor(init, r, t, key)
    ensures Continues(init, r, t) && IsRun(init, t) && Grew(r.state, t.state) && Handed(t.events) == Handed(r.events)
    ensures Focused(r.state, t.state, key)
  {
    hide Focused;
    ContinuesFacts(init, r, t);
  }

  lemma ContinuesSelf(init: Global, r: Run)
    requires IsRun(init, r)
    ensures Continues(init, r, r)
  {
    GrewSelf(r.state);
  }

  lemma Extend(init: Global, r: Run, e: Event) returns (t: Run)
    requires IsRun(init, r) && Enabled(r.state, e)
    ensures t == Run(r.events + [e], Occur(r.state, e)) && IsRun(init, t) && Grew(r.state, t.state)
    ensures Handed(t.events) == if e.Propose? then Handed(r.events) + {(e.node, e.key)} else Handed(r.events)
    ensures !e.Propose? ==> Continues(init, r, t)
  {
    hide Occur, Prompt, Grew, AcceptedAreReady, Handed, Initial;
    t := Run(r.events + [e], Occur(r.state, e));
    assert t.events[..|t.events| - 1] == r.events;
    RunIsPrompt(init, r.events);
    StepIsPrompt(r.state, e);
    StepKeepsAccepted(r.state, e);
    HandedSnoc(r.events, e);
  }

  lemma IsPrompt(init: Global, r: Run)
    requires IsRun(init, r)
    ensures Prompt(r.state)
  {
    RunIsPrompt(init, r.events);
  }

  lemma HandedSnoc(events: seq<Event>, e: Event)
    ensures Handed(events + [e]) == if e.Propose? then Handed(events) + {(e.node, e.key)} else Handed(events)
  {
    assert forall f :: f in events + [e] <==> f in events || f == e;
    var more := Handed(events + [e]);
    forall p | p in Handed(events)
      ensures p in more
    {
      var f :| f in events && f.Propose? && (f.node, f.key) == p;
      assert f in events + [e];
    }
    if e.Propose? {
      assert e in events + [e];
    }
  }

  // ---------------------------------------------------------------------------------------------
  // Proposals first
  // ---------------------------------------------------------------------------------------------

  /** Nobody has a block yet, and no vote waits for its session. */
  predicate Early(g: Global) {
    forall n :: n in g.nodes ==> g.nodes[n].head == Genesis && g.nodes[n].height == 0 && g.nodes[n].pending == map[]
  }

  /** A block that extends genesis, for the committee it names. */
  predicate FirstBlock(key: Key) {
    && key == KeyOf(key.body) && key.body.members == key.committee.members && NoRepeats(key.body.transactions)
    && key.body.parent == Genesis && key.body.height == 1
  }

  /** Registered members of the committee that do not keep silent. */
  function Honest(g: Global, c: Committee): set<NodeId> {
    set n | n in c.members && n in g.nodes && !g.nodes[n].malicious
  }

  ghost predicate AllReady(g: Global, nodes: set<NodeId>, key: Key) {
    forall n :: n in nodes ==> n in Honest(g, key.committee) && Ready(g.nodes[n], key)
  }

  lemma StayReady(g: Global, h: Global, nodes: set<NodeId>, key: Key)
    requires Grew(g, h) && AllReady(g, nodes, key)
    ensures AllReady(h, nodes, key)
  {
    hide Ready;
    forall n | n in nodes
      ensures n in Honest(h, key.committee) && Ready(h.nodes[n], key)
    {
      assert NodeGrew(g.nodes[n], h.nodes[n]);
    }
  }

  lemma HonestStays(g: Global, h: Global, c: Committee)
    requires Grew(g, h)
    ensures Honest(h, c) == Honest(g, c)
  {
    forall n | n in g.nodes
      ensures h.nodes[n].malicious == g.nodes[n].malicious
    {
      assert NodeGrew(g.nodes[n], h.nodes[n]);
    }
  }

  lemma {:induction false} ProposeTo(init: Global, r: Run, nodes: set<NodeId>, key: Key) returns (t: Run)
    requires IsRun(init, r) && Early(r.state) && FirstBlock(key) && nodes <= Honest(r.state, key.committee)
    ensures IsRun(init, t) && Early(t.state) && Grew(r.state, t.state) && AllReady(t.state, nodes, key)
    ensures Handed(t.events) == Handed(r.events) + (set n | n in nodes :: (n, key))
    decreases nodes
  {
    hide IsRun, Grew, Occur, FirstBlock, AllReady, Early, Honest;
    if nodes == {} {
      t := r;
      GrewSelf(r.state);
      NoneReady(r.state, key);
    } else {
      var n :| n in nodes;
      var t1 := ProposeTo(init, r, nodes - {n}, key);
      HonestStays(r.state, t1.state, key.committee);
      MemberOf(init, t1, n, key.committee);
      t := Extend(init, t1, Propose(n, key));
      OneProposed(t1.state, n, key);
      GrewTrans(r.state, t1.state, t.state);
      StayReady(t1.state, t.state, nodes - {n}, key);
      OneMoreReady(t.state, nodes - {n}, n, key);
      assert nodes == nodes - {n} + {n};
      assert (set m | m in nodes :: (m, key)) == (set m | m in nodes - {n} :: (m, key)) + {(n, key)};
    }
  }

  lemma NoneReady(g: Global, key: Key)
    ensures AllReady(g, {}, key)
  {
  }

  lemma MemberOf(init: Global, r: Run, n: NodeId, c: Committee)
    requires IsRun(init, r) && n in Honest(r.state, c)
    ensures n in c.members && n in r.state.nodes && !r.state.nodes[n].malicious && r.state.nodes[n].id == n
  {
    IsPrompt(init, r);
  }

  lemma OneMoreReady(g: Global, nodes: set<NodeId>, n: NodeId, key: Key)
    requires AllReady(g, nodes, key) && n in Honest(g, key.committee) && Ready(g.nodes[n], key)
    ensures AllReady(g, nodes + {n}, key)
  {
  }

  lemma OneProposed(g: Global, n: NodeId, key: Key)
    requires Early(g) && n in Honest(g, key.committee) && g.nodes[n].id == n && FirstBlock(key)
    ensures var h := Occur(g, Propose(n, key));
      n in Honest(h, key.committee) && Ready(h.nodes[n], key) && Early(h)
  {
    var s, h := g.nodes[n], Occur(g, Propose(n, key));
    assert ValidateBlock(s, key);
    assert s.pending - {key} == map[];
    ProposedIsReady(s, key);
  }

  // ---------------------------------------------------------------------------------------------
  // Votes
  // ---------------------------------------------------------------------------------------------

  ghost predicate AllSent(g: Global, nodes: set<NodeId>, phase: Phase, key: Key) {
    forall n :: n in nodes ==> Vote(phase, key, n) in g.net.sent
  }

  /** Every ready node lets its task run and prevotes. */
  lemma {:induction false} AllPrevote(init: Global, r: Run, nodes: set<NodeId>, key: Key) returns (t: Run)
    requires IsRun(init, r) && AllReady(r.state, nodes, key)
    ensures ContinuesFor(init, r, t, key) && AllSent(t.state, nodes, Prevote, key)
    decreases nodes
  {
    hide IsRun, Grew, AllReady, ContinuesFor;
    if nodes == {} {
      t := r;
      ForSelf(init, r, key);
    } else {
      var n :| n in nodes;
      FewerReady(r.state, nodes, nodes - {n}, key);
      var t1 := AllPrevote(init, r, nodes - {n}, key);
      ForFacts(init, r, t1, key);
      StayReady(r.state, t1.state, nodes, key);
      t := OnePrevotes(init, t1, nodes, n, key);
      ForFacts(init, t1, t, key);
      StaysSent(t1.state, t.state, nodes - {n}, Prevote, key);
      ForTrans(init, r, t1, t, key);
    }
  }

  lemma ContinuesFacts(init: Global, r: Run, t: Run)
    requires Continues(init, r, t)
    ensures IsRun(init, t) && Grew(r.state, t.state) && Handed(t.events) == Handed(r.events)
  {
  }

  lemma FewerReady(g: Global, nodes: set<NodeId>, some: set<NodeId>, key: Key)
    requires AllReady(g, nodes, key) && some <= nodes
    ensures AllReady(g, some, key)
  {
  }

  lemma StaysSent(g: Global, h: Global, nodes: set<NodeId>, phase: Phase, key: Key)
    requires Grew(g, h) && AllSent(g, nodes, phase, key)
    ensures AllSent(h, nodes, phase, key)
  {
  }

  lemma OnePrevotes(init: Global, r: Run, nodes: set<NodeId>, n: NodeId, key: Key) returns (t: Run)
    requires IsRun(init, r) && AllReady(r.state, nodes, key) && n in nodes
    ensures ContinuesFor(init, r, t, key) && Vote(Prevote, key, n) in t.state.net.sent
  {
    hide Grew, NodeLe, IsRun;
    var s := r.state.nodes[n];
    IsPrompt(init, r);
    if s.sessions[key].prevoteSent {
      t := r;
      ForSelf(init, r, key);
      PromptOf(r.state.net.sent, s, key);
    } else {
      var i :| 0 <= i < |s.tasks| && s.tasks[i].key == key;
      t := RunTaskOff(init, r, n, i, key);
    }
  }

  /** A task replays its buffered votes one after the other and then prevotes. */
  lemma {:induction false} RunTaskOff(init: Global, r: Run, n: NodeId, i: nat, key: Key) returns (t: Run)
    requires IsRun(init, r) && n in r.state.nodes && !r.state.nodes[n].malicious && i < |r.state.nodes[n].tasks|
    requires r.state.nodes[n].tasks[i].key == key && key in r.state.nodes[n].sessions
    ensures ContinuesFor(init, r, t, key) && Vote(Prevote, key, n) in t.state.net.sent
    decreases |r.state.nodes[n].tasks[i].replay|
  {
    hide Grew, NodeLe, Occur, NodePrompt, IsRun, Continues, Focused;
    var task := r.state.nodes[n].tasks[i];
    IsPrompt(init, r);
    TaskRuns(r.state, n, i);
    var t1 := OneTask(init, r, n, i);
    ForFacts(init, r, t1, key);
    if task.replay == [] {
      t := t1;
      IsPrompt(init, t);
      PromptOf(t.state.net.sent, t.state.nodes[n], key);
    } else {
      t := RunTaskOff(init, t1, n, i, key);
      ForTrans(init, r, t1, t, key);
    }
  }

  lemma OneTask(init: Global, r: Run, n: NodeId, i: nat) returns (t: Run)
    requires IsRun(init, r) && n in r.state.nodes && i < |r.state.nodes[n].tasks|
    ensures t == Run(r.events + [RunTask(n, i)], Occur(r.state, RunTask(n, i)))
    ensures ContinuesFor(init, r, t, r.state.nodes[n].tasks[i].key)
  {
    hide Occur, Grew, Continues, Focused, Pure;
    RunIsPure(init, r.events);
    TaskFocused(r.state, n, i);
    t := Extend(init, r, RunTask(n, i));
  }

  lemma TaskRuns(g: Global, n: NodeId, i: nat)
    requires Prompt(g) && n in g.nodes && i < |g.nodes[n].tasks|
    requires g.nodes[n].tasks[i].key in g.nodes[n].sessions
    ensures var h, task := Occur(g, RunTask(n, i)), g.nodes[n].tasks[i];
      && n in h.nodes && h.nodes[n].id == n && h.nodes[n].malicious == g.nodes[n].malicious
      && task.key in h.nodes[n].sessions
      && if task.replay == [] then h.nodes[n].sessions[task.key].prevoteSent
         else i < |h.nodes[n].tasks| && h.nodes[n].tasks[i] == Task(task.key, task.replay[1..])
  {
    hide OnTask, NodePrompt;
    TaskHandled(g.net.sent, g.nodes[n], i);
  }

  /** A member hears one vote. */
  lemma Hear(init: Global, r: Run, n: NodeId, v: Vote) returns (t: Run)
    requires IsRun(init, r) && n in r.state.nodes && v.key in r.state.nodes[n].sessions
    requires v in r.state.net.sent && v.voter in v.key.committee.members
    ensures ContinuesFor(init, r, t, v.key) && n in t.state.nodes && v.key in t.state.nodes[n].sessions
    ensures v.voter in Recorded(v.phase, t.state.nodes[n].sessions[v.key])
  {
    hide OnVote, NodePrompt, Grew, IsRun, Continues, Focused;
    IsPrompt(init, r);
    DeliverFocused(r.state, n, v);
    t := Extend(init, r, Deliver(n, v));
    VoteHandled(r.state.net.sent, r.state.nodes[n], v);
  }

  /** A member hears the votes of many. */
  lemma {:induction false} HearAll(init: Global, r: Run, n: NodeId, phase: Phase, key: Key, voters: set<NodeId>)
    returns (t: Run)
    requires IsRun(init, r) && n in r.state.nodes && key in r.state.nodes[n].sessions
    requires AllSent(r.state, voters, phase, key) && forall m :: m in voters ==> m in key.committee.members
    ensures ContinuesFor(init, r, t, key) && n in t.state.nodes && key in t.state.nodes[n].sessions
    ensures voters <= Recorded(phase, t.state.nodes[n].sessions[key])
    decreases voters
  {
    hide IsRun, Grew, ContinuesFor, Recorded;
    if voters == {} {
      t := r;
      ForSelf(init, r, key);
    } else {
      var m :| m in voters;
      var t1 := HearAll(init, r, n, phase, key, voters - {m});
      ForFacts(init, r, t1, key);
      StaysSent(r.state, t1.state, voters, phase, key);
      t := Hear(init, t1, n, Vote(phase, key, m));
      ForFacts(init, t1, t, key);
      StaysRecorded(t1.state, t.state, n, phase, key);
      ForTrans(init, r, t1, t, key);
    }
  }

  lemma StaysRecorded(g: Global, h: Global, n: NodeId, phase: Phase, key: Key)
    requires Grew(g, h) && n in g.nodes && key in g.nodes[n].sessions
    ensures n in h.nodes && key in h.nodes[n].sessions && h.nodes[n].malicious == g.nodes[n].malicious
    ensures Recorded(phase, g.nodes[n].sessions[key]) <= Recorded(phase, h.nodes[n].sessions[key])
    ensures g.nodes[n].sessions[key].finalized ==> h.nodes[n].sessions[key].finalized
  {
    assert NodeGrew(g.nodes[n], h.nodes[n]);
  }

  // ---------------------------------------------------------------------------------------------
  // Quorums
  // ---------------------------------------------------------------------------------------------

  /** How a member answers a quorum of a phase. */
  ghost predicate Answered(g: Global, n: NodeId, phase: Phase, key: Key) {
    match phase
    case Prevote => Vote(Precommit, key, n) in g.net.sent
    case Precommit => Vote(Commit, key, n) in g.net.sent
    case Commit => n in g.nodes && key in g.nodes[n].sessions && g.nodes[n].sessions[key].finalized
  }

  /** Enough members, all of them ready for the block. */
  ghost predicate ReadyQuorum(g: Global, voters: set<NodeId>, key: Key) {
    AllReady(g, voters, key) && |voters| >= Quorum(|key.committee.members|)
  }

  lemma OneAnswers(init: Global, r: Run, n: NodeId, phase: Phase, key: Key, voters: set<NodeId>) returns (t: Run)
    requires IsRun(init, r) && ReadyQuorum(r.state, voters, key) && AllSent(r.state, voters, phase, key) && n in voters
    ensures ContinuesFor(init, r, t, key) && Answered(t.state, n, phase, key)
  {
    hide Grew, NodePrompt, NodeLe;
    t := HearAll(init, r, n, phase, key, voters);
    SubsetSize(voters, Recorded(phase, t.state.nodes[n].sessions[key]));
    StaysRecorded(r.state, t.state, n, phase, key);
    IsPrompt(init, t);
    PromptOf(t.state.net.sent, t.state.nodes[n], key);
  }

  lemma {:induction false} AllAnswer(
    init: Global, r: Run, nodes: set<NodeId>, phase: Phase, key: Key, voters: set<NodeId>) returns (t: Run)
    requires IsRun(init, r) && ReadyQuorum(r.state, voters, key) && AllSent(r.state, voters, phase, key) && nodes <= voters
    ensures ContinuesFor(init, r, t, key) && forall n :: n in nodes ==> Answered(t.state, n, phase, key)
    decreases nodes
  {
    hide IsRun, Grew, ContinuesFor, Answered, AllReady;
    if nodes == {} {
      t := r;
      ForSelf(init, r, key);
    } else {
      var n :| n in nodes;
      var t1 := AllAnswer(init, r, nodes - {n}, phase, key, voters);
      ForFacts(init, r, t1, key);
      StayReady(r.state, t1.state, voters, key);
      StaysSent(r.state, t1.state, voters, phase, key);
      t := OneAnswers(init, t1, n, phase, key, voters);
      ForFacts(init, t1, t, key);
      forall m | m in nodes
        ensures Answered(t.state, m, phase, key)
      {
        if m != n {
          StaysAnswered(t1.state, t.state, m, phase, key);
        }
      }
      ForTrans(init, r, t1, t, key);
    }
  }

  lemma StaysAnswered(g: Global, h: Global, n: NodeId, phase: Phase, key: Key)
    requires Grew(g, h) && Answered(g, n, phase, key)
    ensures Answered(h, n, phase, key)
  {
    if phase == Commit {
      StaysRecorded(g, h, n, phase, key);
    }
  }

  /** Any quorum of ready members can finalize its block, without anybody else and whatever happened before. */
  lemma FinalizeReady(init: Global, r: Run, voters: set<NodeId>, key: Key) returns (t: Run)
    requires IsRun(init, r) && ReadyQuorum(r.state, voters, key)
    ensures ContinuesFor(init, r, t, key)
    ensures AllSent(t.state, voters, Prevote, key)
    ensures forall n :: n in voters ==> Answered(t.state, n, Commit, key)
  {
    hide IsRun, Grew, ContinuesFor, AllReady;
    var t1 := AllPrevote(init, r, voters, key);
    ForFacts(init, r, t1, key);
    StayReady(r.state, t1.state, voters, key);
    var t2 := AllAnswer(init, t1, voters, Prevote, key, voters);
    ForFacts(init, t1, t2, key);
    StayReady(t1.state, t2.state, voters, key);
    StaysSent(t1.state, t2.state, voters, Prevote, key);
    assert AllSent(t2.state, voters, Precommit, key);
    var t3 := AllAnswer(init, t2, voters, Precommit, key, voters);
    ForFacts(init, t2, t3, key);
    StayReady(t2.state, t3.state, voters, key);
    StaysSent(t2.state, t3.state, voters, Prevote, key);
    assert AllSent(t3.state, voters, Commit, key);
    t := AllAnswer(init, t3, voters, Commit, key, voters);
    ForFacts(init, t3, t, key);
    StaysSent(t3.state, t.state, voters, Prevote, key);
    ForTrans(init, r, t1, t2, key);
    ForTrans(init, r, t2, t3, key);
    ForTrans(init, r, t3, t, key);
  }

  /** In every reachable state: once a quorum has accepted a block, the run can go on, without another proposal, until all
      who accepted have finalized it, whatever votes they had buffered and whatever happened before. */
  lemma Finalize(init: Global, r: Run, key: Key) returns (t: Run)
    requires Initial(init) && RunAll(init, r.events) == Reached(r.state)
    requires TwoThirds(|Accepted(r.state, key)|, |key.committee.members|)
    ensures Continues(init, r, t)
    ensures AllSent(t.state, Accepted(r.state, key), Prevote, key)
    ensures forall n :: n in Accepted(r.state, key) ==> Answered(t.state, n, Commit, key)
  {
    AcceptedQuorum(init, r, key);
    hide Grew, Continues, ContinuesFor, AllReady, Accepted, Answered, AllSent, Initial;
    IsReadyQuorum(r.state, Accepted(r.state, key), key);
    t := FinalizeReady(init, r, Accepted(r.state, key), key);
    ForFacts(init, r, t, key);
  }

  lemma AcceptedQuorum(init: Global, r: Run, key: Key)
    requires IsRun(init, r)
    ensures AllReady(r.state, Accepted(r.state, key), key)
  {
    hide Ready, Prompt, Initial;
    RunIsPrompt(init, r.events);
  }

  /** Somebody finalizes the block in some continuation without another proposal. */
  ghost predicate CanFinalize(init: Global, r: Run, key: Key) {
    exists t, n :: Continues(init, r, t) && Answered(t.state, n, Commit, key)
  }

  /** A block can still be finalized by anybody exactly if a quorum has accepted it. */
  lemma FinalizableIff(init: Global, r: Run, key: Key)
    requires IsRun(init, r)
    ensures CanFinalize(init, r, key) <==> TwoThirds(|Accepted(r.state, key)|, |key.committee.members|)
  {
    hide Continues, Answered, Accepted, IsRun;
    if CanFinalize(init, r, key) {
      var t, n :| Continues(init, r, t) && Answered(t.state, n, Commit, key);
      ContinuesFacts(init, r, t);
      FinalizedWasAccepted(init, t, n, key);
      SameAccepted(init, r, t, key);
    }
    if TwoThirds(|Accepted(r.state, key)|, |key.committee.members|) {
      var n :| n in Accepted(r.state, key);
      var t := Finalize(init, r, key) by { RunFacts(init, r); }
      assert Answered(t.state, n, Commit, key);
    }
  }

  lemma RunFacts(init: Global, r: Run)
    requires IsRun(init, r)
    ensures Initial(init) && RunAll(init, r.events) == Reached(r.state)
  {
  }

  lemma SameAccepted(init: Global, r: Run, t: Run, key: Key)
    requires Continues(init, r, t)
    ensures Accepted(t.state, key) == Accepted(r.state, key)
  {
  }

  lemma FinalizedWasAccepted(init: Global, r: Run, n: NodeId, key: Key)
    requires IsRun(init, r) && Answered(r.state, n, Commit, key)
    ensures |Accepted(r.state, key)| >= Quorum(|key.committee.members|)
  {
    hide RunAll, Initial, Voters, StoreOk;
    var net := r.state.net;
    RunKeepsInv(init, r.events);
    assert SessionOk(net, n, key, r.state.nodes[n].sessions[key]);
    QuorumIsSome(net, key);
    ChainOfEvidence(net, key);
    PrevotersAccepted(r.state, key);
    SubsetSize(Voters(net, Prevote, key), Accepted(r.state, key));
  }

  lemma PrevotersAccepted(g: Global, key: Key)
    requires NetOk(g.net)
    ensures Voters(g.net, Prevote, key) <= Accepted(g, key)
  {
    forall n | n in Voters(g.net, Prevote, key)
      ensures n in Accepted(g, key)
    {
      assert VoteOk(g.net, Vote(Prevote, key, n));
      var head, height :| Validation(n, key, head, height) in g.net.validated;
    }
  }

  /** Everybody is handed its proposals before anybody votes: then a node may even be ready for both blocks. */
  lemma ProposeBoth(init: Global, va: set<NodeId>, keyA: Key, vb: set<NodeId>, keyB: Key) returns (t: Run)
    requires Initial(init) && FirstBlock(keyA) && FirstBlock(keyB)
    requires va <= Honest(init, keyA.committee) && vb <= Honest(init, keyB.committee)
    ensures IsRun(init, t) && Grew(init, t.state) && AllReady(t.state, va, keyA) && AllReady(t.state, vb, keyB)
    ensures Handed(t.events) == (set n | n in va :: (n, keyA)) + (set n | n in vb :: (n, keyB))
  {
    Start(init);
    hide IsRun, Grew, AllReady, Initial, Early, FirstBlock, Honest;
    var t1 := ProposeTo(init, Run([], init), va, keyA);
    HonestStays(init, t1.state, keyB.committee);
    t := ProposeTo(init, t1, vb, keyB);
    StayReady(t1.state, t.state, va, keyA);
    GrewTrans(init, t1.state, t.state);
  }

  /** Two quorums, handed one block each, both finalize, although the blocks have the same height. */
  lemma FinalizeBoth(init: Global, va: set<NodeId>, keyA: Key, vb: set<NodeId>, keyB: Key) returns (t: Run)
    requires Initial(init) && FirstBlock(keyA) && FirstBlock(keyB)
    requires va <= Honest(init, keyA.committee) && |va| >= Quorum(|keyA.committee.members|)
    requires vb <= Honest(init, keyB.committee) && |vb| >= Quorum(|keyB.committee.members|)
    ensures IsRun(init, t) && Grew(init, t.state)
    ensures Handed(t.events) == (set n | n in va :: (n, keyA)) + (set n | n in vb :: (n, keyB))
    ensures AllSent(t.state, va, Prevote, keyA) && AllSent(t.state, vb, Prevote, keyB)
    ensures forall n :: n in va ==> Answered(t.state, n, Commit, keyA)
    ensures forall n :: n in vb ==> Answered(t.state, n, Commit, keyB)
  {
    hide *;
    var t1 := ProposeBoth(init, va, keyA, vb, keyB);
    IsReadyQuorum(t1.state, va, keyA);
    var t2 := FinalizeReady(init, t1, va, keyA);
    ForFacts(init, t1, t2, keyA);
    StayReady(t1.state, t2.state, vb, keyB);
    IsReadyQuorum(t2.state, vb, keyB);
    t := FinalizeReady(init, t2, vb, keyB);
    ForFacts(init, t2, t, keyB);
    StaysSent(t2.state, t.state, va, Prevote, keyA);
    GrewTrans(init, t1.state, t2.state);
    GrewTrans(init, t2.state, t.state);
    forall n | n in va
      ensures Answered(t.state, n, Commit, keyA)
    {
      StaysAnswered(t2.state, t.state, n, Commit, keyA);
    }
  }

  lemma IsReadyQuorum(g: Global, voters: set<NodeId>, key: Key)
    requires AllReady(g, voters, key) && |voters| >= Quorum(|key.committee.members|)
    ensures ReadyQuorum(g, voters, key)
  {
  }

  lemma Start(init: Global)
    requires Initial(init)
    ensures IsRun(init, Run([], init)) && Early(init) && Handed([]) == {}
  {
  }
}
