/** The vote handlers of one node as they update its dictionaries in place. */
module PbftService {
  import opened Collections
  import opened Pbft

  class Service {
    const id: NodeId
    const malicious: bool
    var sessions: map<Key, Session>
    var pending: map<Key, seq<Vote>>
    var tasks: seq<Task>
    var head: Hash
    var height: int
    var byHash: map<Hash, Certified>
    var byHeight: map<int, Certified>
    var txPool: set<nat>

    ghost function View(): NodeState
      reads this
    {
      NodeState(id, malicious, sessions, pending, tasks, head, height, byHash, byHeight, txPool)
    }

    constructor (id: NodeId, malicious: bool)
      ensures View() == NewNode(id, malicious, {})
    {
      this.id, this.malicious := id, malicious;
      sessions, pending, tasks := map[], map[], [];
      head, height, byHash, byHeight, txPool := Genesis, 0, map[], map[], {};
    }

    method Buffer(v: Vote)
      modifies this
      ensures View() == Pbft.Buffer(old(View()), v)
    {
      if v.key in pending {
        pending := pending[v.key := pending[v.key] + [v]];
      } else {
        pending := pending[v.key := [] + [v]];
      }
    }

    /** Files a block and moves the head unless the block is behind it. Answers whether the certificate was accepted. */
    method ApplyFinalizedBlock(c: Certified) returns (ok: bool)
      modifies this
      ensures (ok, View()) == Pbft.ApplyFinalizedBlock(old(View()), c)
    {
      var hash := HashOf(c.body);
      if c.body.height <= height && hash in byHash {
        return true;
      }
      if c.body.members != [] && |c.signers| < Quorum(|c.body.members|) {
        return false;
      }
      byHash := byHash[hash := c];
      byHeight := byHeight[c.body.height := c];
      DropTransactions(c.body.transactions);
      if c.body.height >= height {
        height := c.body.height;
        head := hash;
      }
      return true;
    }

    method DropTransactions(transactions: seq<nat>)
      modifies this`txPool
      ensures txPool == Without(old(txPool), transactions)
    {
      var i := 0;
      while i < |transactions|
        invariant 0 <= i <= |transactions|
        invariant txPool == Without(old(txPool), transactions[..i])
      {
        assert transactions[..i + 1] == transactions[..i] + [transactions[i]];
        txPool := txPool - {transactions[i]};
        i := i + 1;
      }
      assert transactions[..i] == transactions;
    }

    /** A proposal opens its session before it is validated; buffered votes move to their replay. */
    method OnPropose(key: Key)
      modifies this
      ensures View() == Pbft.OnPropose(old(View()), key)
    {
      if id !in key.committee.members {
        return;
      }
      if key !in sessions {
        sessions := sessions[key := NEW_SESSION];
      }
      if malicious {
        return;
      }
      var valid := ValidateBlock(key);
      if !valid {
        return;
      }
      var buffered := if key in pending then pending[key] else [];
      pending := pending - {key};
      tasks := tasks + [Task(key, buffered)];
    }

    method ValidateBlock(key: Key) returns (valid: bool)
      ensures valid == Pbft.ValidateBlock(View(), key)
    {
      if key.body.committee != key.committee {
        return false;
      }
      if key.body.members != key.committee.members {
        return false;
      }
      var distinct := AllDistinct(key.body.transactions);
      if !distinct {
        return false;
      }
      if key.body.parent != head {
        return false;
      }
      return key.body.height == height + 1;
    }

    /** Compares the number of different transactions with the number of transactions. */
    static method AllDistinct(s: seq<nat>) returns (distinct: bool)
      ensures distinct <==> NoRepeats(s)
    {
      var seen := {};
      var i := 0;
      while i < |s|
        invariant 0 <= i <= |s| && seen == set x | x in s[..i]
        invariant |seen| <= i && (|seen| == i <==> NoRepeats(s[..i]))
      {
        assert s[..i + 1] == s[..i] + [s[i]];
        DuplicatesGrow(s, i);
        seen := seen + {s[i]};
        i := i + 1;
      }
      assert s[..i] == s;
      return |seen| == |s|;
    }

    method OnPrevote(v: Vote) returns (votes: set<Vote>, certified: set<Certified>)
      modifies this
      ensures Outcome(View(), votes, certified) == Pbft.OnPrevote(old(View()), v)
    {
      hide Pbft.OnPrecommit;
      if v.key !in sessions {
        Buffer(v);
        return {}, {};
      }
      if v.voter !in v.key.committee.members {
        return {}, {};
      }
      var session := sessions[v.key].(prevotes := sessions[v.key].prevotes + {v.voter});
      sessions := sessions[v.key := session];
      if malicious || session.precommitSent {
        return {}, {};
      }
      if |session.prevotes| >= Quorum(|v.key.committee.members|) {
        SameKeyTwice(old(sessions), v.key, session, session.(precommitSent := true));
        sessions := sessions[v.key := session.(precommitSent := true)];
        var precommit := Vote(Precommit, v.key, id);
        votes, certified := OnPrecommit(precommit);
        return votes + {precommit}, certified;
      }
      return {}, {};
    }

    method OnPrecommit(v: Vote) returns (votes: set<Vote>, certified: set<Certified>)
      modifies this
      ensures Outcome(View(), votes, certified) == Pbft.OnPrecommit(old(View()), v)
    {
      hide Pbft.OnCommit;
      if v.key !in sessions {
        Buffer(v);
        return {}, {};
      }
      if v.voter !in v.key.committee.members {
        return {}, {};
      }
      var session := sessions[v.key].(precommits := sessions[v.key].precommits + {v.voter});
      sessions := sessions[v.key := session];
      if malicious || session.commitSent {
        return {}, {};
      }
      if |session.precommits| >= Quorum(|v.key.committee.members|) {
        SameKeyTwice(old(sessions), v.key, session, session.(commitSent := true));
        sessions := sessions[v.key := session.(commitSent := true)];
        var commit := Vote(Commit, v.key, id);
        votes, certified := OnCommit(commit);
        return votes + {commit}, certified;
      }
      return {}, {};
    }

    method OnCommit(v: Vote) returns (votes: set<Vote>, certified: set<Certified>)
      modifies this
      ensures Outcome(View(), votes, certified) == Pbft.OnCommit(old(View()), v)
    {
      hide Pbft.ApplyFinalizedBlock;
      if v.key !in sessions {
        Buffer(v);
        return {}, {};
      }
      if v.voter !in v.key.committee.members {
        return {}, {};
      }
      var session := sessions[v.key].(commits := sessions[v.key].commits + {v.voter});
      sessions := sessions[v.key := session];
      if |session.commits| < Quorum(|v.key.committee.members|) {
        return {}, {};
      }
      if !session.finalized {
        SameKeyTwice(old(sessions), v.key, session, session.(finalized := true));
        sessions := sessions[v.key := session.(finalized := true)];
        var block := Certified(v.key.body, session.commits);
        var _ := ApplyFinalizedBlock(block);
        return {}, {block};
      }
      return {}, {};
    }

    method OnVote(v: Vote) returns (votes: set<Vote>, certified: set<Certified>)
      modifies this
      ensures Outcome(View(), votes, certified) == Pbft.OnVote(old(View()), v)
    {
      hide Pbft.OnPrevote, Pbft.OnPrecommit, Pbft.OnCommit;
      match v.phase {
        case Prevote => votes, certified := OnPrevote(v);
        case Precommit => votes, certified := OnPrecommit(v);
        case Commit => votes, certified := OnCommit(v);
      }
    }

    /** One step of a proposal's task: replay a buffered vote, or send the prevote once. */
    method RunTask(i: nat) returns (votes: set<Vote>, certified: set<Certified>)
      requires i < |tasks|
      modifies this
      ensures Outcome(View(), votes, certified) == OnTask(old(View()), i)
    {
      hide Pbft.OnPrevote, Pbft.OnVote;
      var task := tasks[i];
      if task.replay != [] {
        tasks := tasks[i := task.(replay := task.replay[1..])];
        votes, certified := OnVote(task.replay[0]);
        return;
      }
      tasks := tasks[..i] + tasks[i + 1..];
      if task.key !in sessions || sessions[task.key].prevoteSent {
        return {}, {};
      }
      sessions := sessions[task.key := sessions[task.key].(prevoteSent := true)];
      var prevote := Vote(Prevote, task.key, id);
      votes, certified := OnPrevote(prevote);
      return votes + {prevote}, certified;
    }

    /** A gossiped block is stored unless it is known or its certificate is too small. */
    method OnGossip(c: Certified)
      modifies this
      ensures View() == Pbft.OnGossip(old(View()), c)
    {
      if HashOf(c.body) in byHash {
        return;
      }
      if c.body.members != [] && |c.signers| < Quorum(|c.body.members|) {
        return;
      }
      var _ := ApplyFinalizedBlock(c);
    }
  }

  lemma SameKeyTwice(sessions: map<Key, Session>, key: Key, first: Session, second: Session)
    ensures sessions[key := first][key := second] == sessions[key := second]
  {
  }

  lemma DuplicatesGrow(s: seq<nat>, i: nat)
    requires i < |s|
    ensures NoRepeats(s[..i + 1]) <==> NoRepeats(s[..i]) && s[i] !in s[..i]
  {
    var more := s[..i + 1];
    assert more[..i] == s[..i] && more[i] == s[i];
    if NoRepeats(more) {
      forall j | 0 <= j < i
        ensures s[..i][j] != s[i]
      {
        assert more[j] != more[i];
      }
    }
  }
}
