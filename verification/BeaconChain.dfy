/** The beacon state updated in place: weighing attestations, justification, and the slot loop. */
module BeaconChain {
  import opened Finality
  import opened Collections
  import opened Sums

  /** Validator indices seen so far, and their total score. */
  method AddScores(score: nat -> real, attesters: seq<nat>, seen0: set<nat>, weight0: real)
    returns (seen: set<nat>, weight: real)
    requires weight0 == ScoreOf(score, seen0)
    ensures seen == seen0 + (set i | i in attesters) && weight == ScoreOf(score, seen)
  {
    seen, weight := seen0, weight0;
    var k := 0;
    while k < |attesters|
      invariant 0 <= k <= |attesters|
      invariant seen == seen0 + (set i | i in attesters[..k]) && weight == ScoreOf(score, seen)
    {
      var index := attesters[k];
      assert attesters[..k + 1] == attesters[..k] + [index];
      if index !in seen {
        ScoreAdd(score, seen, index);
        seen := seen + {index};
        weight := weight + score(index);
      }
      k := k + 1;
    }
    assert attesters[..k] == attesters;
  }

  method SumScores(score: nat -> real, who: seq<nat>) returns (total: real)
    ensures total == SumOver(score, who)
  {
    total := 0.0;
    var k := 0;
    while k < |who|
      invariant 0 <= k <= |who| && total == SumOver(score, who[..k])
    {
      assert who[..k + 1][..k] == who[..k];
      total := total + score(who[k]);
      k := k + 1;
    }
    assert who[..k] == who;
  }

  /** Everything dropped from `roots` is older than everything kept. */
  ghost predicate Newest(roots: map<nat, nat>, kept: map<nat, nat>) {
    && kept.Keys <= roots.Keys && (forall s :: s in kept ==> kept[s] == roots[s])
    && forall s, d :: s in kept && d in roots.Keys - kept.Keys ==> d < s
  }

  lemma DropKeepsNewest(roots: map<nat, nat>, kept: map<nat, nat>, oldest: nat)
    requires Newest(roots, kept) && IsLeast(kept.Keys, oldest)
    ensures Newest(roots, kept - {oldest}) && |kept - {oldest}| == |kept| - 1
  {
    var rest := kept - {oldest};
    assert rest.Keys == kept.Keys - {oldest};
    forall s, d | s in rest && d in roots.Keys - rest.Keys
      ensures d < s
    {
      assert s in kept.Keys && (d == oldest || d in roots.Keys - kept.Keys);
    }
  }

  /** `kept` holds the newest entries of `roots`, as many as the limit allows. */
  ghost predicate NewestOf(roots: map<nat, nat>, kept: map<nat, nat>, limit: nat) {
    |kept| == (if |roots| <= limit then |roots| else limit) && Newest(roots, kept)
  }

  method DropOldest(roots: map<nat, nat>, limit: nat) returns (kept: map<nat, nat>)
    ensures NewestOf(roots, kept, limit)
  {
    hide IsLeast;
    kept := roots;
    assert Newest(roots, kept);
    while |kept| > limit
      invariant |kept| <= |roots| && (|kept| < |roots| ==> |kept| >= limit) && Newest(roots, kept)
      decreases |kept|
    {
      hide Newest;
      LeastExists(kept.Keys);
      var oldest :| oldest in kept && IsLeast(kept.Keys, oldest);
      DropKeepsNewest(roots, kept, oldest);
      kept := kept - {oldest};
    }
  }

  class BeaconState {
    const config: Config
    var slot: nat
    var epoch: nat
    var justified: Checkpoint
    var finalized: Checkpoint
    var previousJustified: Checkpoint
    var justifiedHistory: seq<Checkpoint>
    var finalizedHistory: seq<Checkpoint>
    var blockRoots: map<nat, nat>
    var latestRoot: nat
    var votes: map<nat, seq<Attestation>>

    ghost function View(): State
      reads this
    {
      State(slot, epoch, justified, finalized, previousJustified, justifiedHistory, finalizedHistory, blockRoots,
            latestRoot, votes)
    }

    constructor (config: Config, root: nat)
      ensures this.config == config && View() == Genesis(root)
    {
      this.config := config;
      slot, epoch := 0, 0;
      justified, finalized, previousJustified := Checkpoint(0, root), Checkpoint(0, root), Checkpoint(0, root);
      justifiedHistory, finalizedHistory := [Checkpoint(0, root)], [Checkpoint(0, root)];
      blockRoots, latestRoot, votes := map[0 := root], root, map[];
    }

    method AddVote(a: Attestation)
      modifies this
      ensures View() == AddAttestation(old(View()), a)
    {
      var earlier := if a.target.epoch in votes then votes[a.target.epoch] else [];
      votes := votes[a.target.epoch := earlier + [a]];
    }

    /** Records a block and drops the roots of the oldest slots beyond the limit. */
    method RecordBlock(blockSlot: nat, root: nat)
      requires config.Valid()
      modifies this
      ensures View() == old(View()).(blockRoots := blockRoots, latestRoot := root)
      ensures NewestOf(old(blockRoots)[blockSlot := root], blockRoots, config.blockRootsLimit)
    {
      latestRoot := root;
      blockRoots := DropOldest(blockRoots[blockSlot := root], config.blockRootsLimit);
    }

    method CheckpointFor(e: nat) returns (c: Checkpoint)
      ensures c == Finality.CheckpointFor(View(), e, config)
    {
      var start := e * config.slotsPerEpoch;
      c := Checkpoint(e, if start in blockRoots then blockRoots[start] else latestRoot);
    }

    /** The total score of everyone who attested to the checkpoint, each counted once. */
    method GetAttestingWeight(score: nat -> real, c: Checkpoint) returns (weight: real)
      ensures weight == ScoreOf(score, Attesters(VotesAt(View(), c.epoch), c))
    {
      var seen: set<nat> := {};
      weight := 0.0;
      var list := if c.epoch in votes then votes[c.epoch] else [];
      var k := 0;
      while k < |list|
        invariant 0 <= k <= |list|
        invariant seen == Attesters(list[..k], c) && weight == ScoreOf(score, seen)
      {
        var attestation := list[k];
        assert list[..k + 1][..k] == list[..k];
        k := k + 1;
        if attestation.target != c {
          continue;
        }
        seen, weight := AddScores(score, attestation.attesters, seen, weight);
      }
      assert list[..k] == list;
    }

    method FinalizeParent(parent: Checkpoint, c: Checkpoint)
      modifies this
      ensures View() == Finality.FinalizeParent(old(View()), parent, c)
    {
      if parent.epoch + 1 == c.epoch && parent != finalized {
        finalized := parent;
        finalizedHistory := finalizedHistory + [parent];
      }
    }

    method Justify(c: Checkpoint)
      modifies this
      ensures View() == Finality.Justify(old(View()), c)
    {
      if c != justified {
        previousJustified := justified;
        justified := c;
        justifiedHistory := justifiedHistory + [c];
      }
    }

    method ProcessJustificationAndFinalization(w: Weights)
      modifies this
      ensures View() == ProcessJustification(old(View()), w, config)
    {
      hide Finality.Justify, Finality.FinalizeParent, ScoreOf, Attesters;
      var total := SumScores(w.score, w.eligible);
      if total <= 0.0 {
        return;
      }
      var previous := CheckpointFor(if epoch == 0 then 0 else epoch - 1);
      var current := CheckpointFor(epoch);
      var previousWeight := GetAttestingWeight(w.score, previous);
      var currentWeight := GetAttestingWeight(w.score, current);
      var prior := justified;
      var previousJustifies := previousWeight / total >= config.threshold;
      var currentJustifies := currentWeight / total >= config.threshold;
      if previousJustifies {
        FinalizeParent(prior, previous);
        Justify(previous);
      }
      if currentJustifies {
        FinalizeParent(if previousJustifies then previous else prior, current);
        Justify(current);
      }
    }

    method ProcessEpoch(w: Weights)
      modifies this
      ensures View() == Finality.ProcessEpoch(old(View()), w, config)
    {
      hide ProcessJustification;
      ProcessJustificationAndFinalization(w);
      JustificationKeepsEpoch(old(View()), w, config);
      var minimum := if epoch == 0 then 0 else epoch - 1;
      votes := Prune(votes, minimum);
    }

    method ProcessSlot(w: Weights)
      requires config.Valid()
      modifies this
      ensures View() == Finality.ProcessSlot(old(View()), w, config)
    {
      hide Finality.ProcessEpoch;
      slot := slot + 1;
      if slot !in blockRoots {
        blockRoots := blockRoots[slot := latestRoot];
      }
      var newEpoch := slot / config.slotsPerEpoch;
      if newEpoch != epoch {
        epoch := newEpoch;
        ProcessEpoch(w);
      }
    }

    /** Advances slot by slot; `weights` supplies the scores in force at each of them. Refuses to go backwards. */
    method ProcessSlotsUntil(target: nat, weights: seq<Weights>) returns (ok: bool)
      requires config.Valid() && (slot <= target ==> |weights| == target - slot)
      modifies this
      ensures ok == (old(slot) <= target)
      ensures !ok ==> View() == old(View())
      ensures ok ==> View() == Advance(old(View()), weights, config) && slot == target
    {
      if target < slot {
        return false;
      }
      ghost var before := View();
      var k := 0;
      while slot < target
        invariant k == slot - before.slot && slot <= target
        invariant View() == Advance(before, weights[..k], config)
      {
        hide Finality.ProcessSlot;
        assert weights[..k + 1][..k] == weights[..k];
        SlotAdvances(View(), weights[k], config);
        ProcessSlot(weights[k]);
        k := k + 1;
      }
      assert weights[..k] == weights;
      return true;
    }

    /** A run of the chain, slot by slot: the work of the slot, a block, and the attestations to it. */
    method Simulate(slots: seq<Proceedings>)
      requires config.Valid() && Inv(View(), config)
      modifies this
      ensures Inv(View(), config) && Follows(old(View()), View()) && slot == old(slot) + |slots|
    {
      hide Inv, Follows, Finality.ProcessSlot;
      ghost var before := View();
      FollowsSelf(before);
      for k := 0 to |slots|
        invariant Inv(View(), config) && Follows(before, View()) && slot == before.slot + k
      {
        ghost var s0 := View();
        var _ := ProcessSlotsUntil(slot + 1, [slots[k].weights]);
        OneSlot(s0, slots[k].weights, config);
        StepKeepsInv(s0, Slot(slots[k].weights), config);
        ghost var s1 := View();
        FollowsTrans(before, s0, s1);
        RecordBlock(slot, slots[k].block);
        ghost var s2 := View();
        StepKeepsInv(s1, Record(s2.blockRoots, s2.latestRoot), config);
        FollowsTrans(before, s1, s2);
        AddVotes(slots[k].attestations);
        FollowsTrans(before, s2, View());
      }
    }

    method AddVotes(attestations: seq<Attestation>)
      requires config.Valid() && Inv(View(), config)
      modifies this
      ensures Inv(View(), config) && Follows(old(View()), View()) && slot == old(slot)
    {
      hide Inv, Follows;
      ghost var before := View();
      FollowsSelf(before);
      for k := 0 to |attestations|
        invariant Inv(View(), config) && Follows(before, View()) && slot == before.slot
      {
        ghost var s0 := View();
        AddVote(attestations[k]);
        StepKeepsInv(s0, Attest(attestations[k]), config);
        FollowsTrans(before, s0, View());
      }
    }
  }

  /** What a slot brings: the scores in force, the root of its block, and the attestations to it. */
  datatype Proceedings = Proceedings(weights: Weights, block: nat, attestations: seq<Attestation>)

  lemma OneSlot(s: State, w: Weights, config: Config)
    requires config.Valid()
    ensures Advance(s, [w], config) == Finality.ProcessSlot(s, w, config)
  {
    hide Finality.ProcessSlot;
    assert [w][..0] == [] && Advance(s, [], config) == s;
  }

  ghost function Advance(s: State, weights: seq<Weights>, config: Config): State
    requires config.Valid()
  {
    if weights == [] then s
    else Finality.ProcessSlot(Advance(s, weights[..|weights| - 1], config), weights[|weights| - 1], config)
  }

  lemma JustificationKeepsEpoch(s: State, w: Weights, config: Config)
    ensures ProcessJustification(s, w, config).epoch == s.epoch && ProcessJustification(s, w, config).slot == s.slot
  {
    hide Reaches, Finality.Justify, Finality.FinalizeParent;
    FrameOfDecide(s);
  }

  /** Justifying and finalizing touch neither slot nor epoch. */
  lemma FrameOfDecide(s: State)
    ensures forall t: State, p: Checkpoint, c: Checkpoint ::
      Finality.FinalizeParent(t, p, c).epoch == t.epoch && Finality.FinalizeParent(t, p, c).slot == t.slot
    ensures forall t: State, c: Checkpoint :: Finality.Justify(t, c).epoch == t.epoch && Finality.Justify(t, c).slot == t.slot
  {
  }

  lemma SlotAdvances(s: State, w: Weights, config: Config)
    requires config.Valid()
    ensures Finality.ProcessSlot(s, w, config).slot == s.slot + 1
  {
    hide ProcessJustification;
    var slot := s.slot + 1;
    var s1 := s.(slot := slot, epoch := slot / config.slotsPerEpoch,
                 blockRoots := if slot in s.blockRoots then s.blockRoots else s.blockRoots[slot := s.latestRoot]);
    JustificationKeepsEpoch(s1, w, config);
  }
}
