/** Justification and finalization at epoch boundaries, and what holds along every run of slots and attestations. */
module Finality {
  import opened Arithmetic
  import opened Sums

  datatype Checkpoint = Checkpoint(epoch: nat, root: nat)

  datatype Attestation = Attestation(target: Checkpoint, attesters: seq<nat>)

  /** The scores in force when an epoch is processed, and the validators then eligible. */
  datatype Weights = Weights(score: nat -> real, eligible: seq<nat>)

  datatype Config = Config(slotsPerEpoch: nat, threshold: real, blockRootsLimit: nat) {
    predicate Valid() { slotsPerEpoch >= 1 && blockRootsLimit >= 1 }
  }

  datatype State = State(
    slot: nat, epoch: nat, justified: Checkpoint, finalized: Checkpoint, previousJustified: Checkpoint,
    justifiedHistory: seq<Checkpoint>, finalizedHistory: seq<Checkpoint>, blockRoots: map<nat, nat>, latestRoot: nat,
    votes: map<nat, seq<Attestation>>)

  function Genesis(root: nat): State {
    var c := Checkpoint(0, root);
    State(0, 0, c, c, c, [c], [c], map[0 := root], root, map[])
  }

  /** The checkpoint of an epoch: the root at its first slot, or the latest root if none is recorded there. */
  function CheckpointFor(s: State, epoch: nat, config: Config): Checkpoint {
    var start := epoch * config.slotsPerEpoch;
    Checkpoint(epoch, if start in s.blockRoots then s.blockRoots[start] else s.latestRoot)
  }

  // ---------------------------------------------------------------------------------------------
  // Weights
  // ---------------------------------------------------------------------------------------------

  function SumOver(score: nat -> real, who: seq<nat>): real {
    if who == [] then 0.0 else SumOver(score, who[..|who| - 1]) + score(who[|who| - 1])
  }

  /** Everyone who attested to exactly this checkpoint. */
  function Attesters(votes: seq<Attestation>, c: Checkpoint): set<nat> {
    if votes == [] then {}
    else
      var last := votes[|votes| - 1];
      Attesters(votes[..|votes| - 1], c) + if last.target == c then set i | i in last.attesters else {}
  }

  function VotesAt(s: State, epoch: nat): seq<Attestation> {
    if epoch in s.votes then s.votes[epoch] else []
  }

  /** The share of the total weight behind a checkpoint; every attester counts once. */
  ghost function Support(s: State, c: Checkpoint, w: Weights): real
    requires SumOver(w.score, w.eligible) > 0.0
  {
    ScoreOf(w.score, Attesters(VotesAt(s, c.epoch), c)) / SumOver(w.score, w.eligible)
  }

  // ---------------------------------------------------------------------------------------------
  // The rule
  // ---------------------------------------------------------------------------------------------

  function Finalize(s: State, c: Checkpoint): State {
    s.(finalized := c, finalizedHistory := s.finalizedHistory + [c])
  }

  function Justify(s: State, c: Checkpoint): State {
    if c == s.justified then s
    else s.(previousJustified := s.justified, justified := c, justifiedHistory := s.justifiedHistory + [c])
  }

  /** A justified parent one epoch back becomes final. */
  function FinalizeParent(s: State, parent: Checkpoint, c: Checkpoint): State {
    if parent.epoch + 1 == c.epoch && parent != s.finalized then Finalize(s, parent) else s
  }

  /** The decision, given which of the two checkpoints has reached the threshold. */
  function Decide(s: State, previous: Checkpoint, current: Checkpoint, previousOk: bool, currentOk: bool): State {
    var prior := s.justified;
    var s1 := if previousOk then Justify(FinalizeParent(s, prior, previous), previous) else s;
    if currentOk then Justify(FinalizeParent(s1, if previousOk then previous else prior, current), current) else s1
  }

  function PreviousEpoch(epoch: nat): nat {
    if epoch == 0 then 0 else epoch - 1
  }

  ghost predicate Reaches(s: State, c: Checkpoint, w: Weights, config: Config) {
    SumOver(w.score, w.eligible) > 0.0 && Support(s, c, w) >= config.threshold
  }

  ghost function ProcessJustification(s: State, w: Weights, config: Config): State {
    if SumOver(w.score, w.eligible) <= 0.0 then s
    else
      var previous, current := CheckpointFor(s, PreviousEpoch(s.epoch), config), CheckpointFor(s, s.epoch, config);
      Decide(s, previous, current, Reaches(s, previous, w, config), Reaches(s, current, w, config))
  }

  function Prune(votes: map<nat, seq<Attestation>>, minimum: nat): map<nat, seq<Attestation>> {
    map e | e in votes && e >= minimum :: votes[e]
  }

  ghost function ProcessEpoch(s: State, w: Weights, config: Config): State {
    var s1 := ProcessJustification(s, w, config);
    s1.(votes := Prune(s1.votes, PreviousEpoch(s1.epoch)))
  }

  ghost function ProcessSlot(s: State, w: Weights, config: Config): State
    requires config.Valid()
  {
    var slot := s.slot + 1;
    var s1 := s.(slot := slot, blockRoots := if slot in s.blockRoots then s.blockRoots else s.blockRoots[slot := s.latestRoot]);
    if slot / config.slotsPerEpoch == s.epoch then s1
    else ProcessEpoch(s1.(epoch := slot / config.slotsPerEpoch), w, config)
  }

  function AddAttestation(s: State, a: Attestation): State {
    s.(votes := s.votes[a.target.epoch := VotesAt(s, a.target.epoch) + [a]])
  }

  /** What can happen to the state: a slot passes, a block is recorded (with whatever older roots are dropped), or an
      attestation arrives. */
  datatype Event =
    | Slot(weights: Weights)
    | Record(blockRoots: map<nat, nat>, latestRoot: nat)
    | Attest(attestation: Attestation)

  ghost function Occur(s: State, e: Event, config: Config): State
    requires config.Valid()
  {
    match e
    case Slot(w) => ProcessSlot(s, w, config)
    case Record(roots, latest) => s.(blockRoots := roots, latestRoot := latest)
    case Attest(a) => AddAttestation(s, a)
  }

  ghost function Run(s: State, events: seq<Event>, config: Config): State
    requires config.Valid()
  {
    if events == [] then s else Occur(Run(s, events[..|events| - 1], config), events[|events| - 1], config)
  }

  // ---------------------------------------------------------------------------------------------
  // What holds along every run
  // ---------------------------------------------------------------------------------------------

  predicate NonDecreasing(h: seq<Checkpoint>) {
    forall i, j :: 0 <= i < j < |h| ==> h[i].epoch <= h[j].epoch
  }

  /** A history that ends with the present checkpoint. */
  predicate EndsWith(h: seq<Checkpoint>, c: Checkpoint) {
    h != [] && h[|h| - 1] == c
  }

  predicate Within(h: seq<Checkpoint>, g: seq<Checkpoint>) {
    forall c :: c in h ==> c in g
  }

  /** Finality lags justification; both histories only move forward; whatever is final has been justified. */
  predicate Ordered(s: State) {
    && s.finalized.epoch <= s.justified.epoch
    && EndsWith(s.justifiedHistory, s.justified) && NonDecreasing(s.justifiedHistory)
    && EndsWith(s.finalizedHistory, s.finalized) && NonDecreasing(s.finalizedHistory)
    && Within(s.finalizedHistory, s.justifiedHistory)
  }

  predicate Inv(s: State, config: Config)
    requires config.Valid()
  {
    Ordered(s) && s.epoch == s.slot / config.slotsPerEpoch && s.justified.epoch <= s.epoch
  }

  /** Later in the same run. */
  predicate Follows(s: State, t: State) {
    && s.slot <= t.slot && s.epoch <= t.epoch
    && s.justified.epoch <= t.justified.epoch && s.finalized.epoch <= t.finalized.epoch
    && s.justifiedHistory <= t.justifiedHistory && s.finalizedHistory <= t.finalizedHistory
  }

  lemma FinalizeOrdered(s: State, c: Checkpoint)
    requires Ordered(s) && s.finalized.epoch <= c.epoch <= s.justified.epoch && c in s.justifiedHistory
    ensures Ordered(Finalize(s, c))
  {
    hide Within;
    var h := s.finalizedHistory + [c];
    assert forall i :: 0 <= i < |s.finalizedHistory| ==> s.finalizedHistory[i].epoch <= s.finalized.epoch;
    WithinSnoc(s.finalizedHistory, c, s.justifiedHistory);
  }

  lemma WithinSnoc(h: seq<Checkpoint>, c: Checkpoint, g: seq<Checkpoint>)
    requires Within(h, g) && c in g
    ensures Within(h + [c], g)
  {
  }

  lemma JustifyOrdered(s: State, c: Checkpoint)
    requires Ordered(s) && s.justified.epoch <= c.epoch
    ensures Ordered(Justify(s, c)) && Justify(s, c).justified == c && c in Justify(s, c).justifiedHistory
    ensures Follows(s, Justify(s, c)) && Justify(s, c).finalized == s.finalized
  {
    hide Within;
    assert forall i :: 0 <= i < |s.justifiedHistory| ==> s.justifiedHistory[i].epoch <= s.justified.epoch;
    WithinMore(s.finalizedHistory, s.justifiedHistory, c);
    var h := Justify(s, c).justifiedHistory;
    assert h[|h| - 1] == c;
  }

  lemma WithinMore(h: seq<Checkpoint>, g: seq<Checkpoint>, c: Checkpoint)
    requires Within(h, g)
    ensures Within(h, g + [c])
  {
  }

  lemma ParentOrdered(s: State, parent: Checkpoint, c: Checkpoint)
    requires Ordered(s) && parent == s.justified
    ensures var t := FinalizeParent(s, parent, c);
      && Ordered(t) && t.justified == s.justified && t.slot == s.slot && t.epoch == s.epoch
      && t.justifiedHistory == s.justifiedHistory && Follows(s, t)
      && (t.finalized != s.finalized ==> t.finalized == parent && parent.epoch + 1 == c.epoch)
  {
    hide Ordered, Finalize;
    assert parent in s.justifiedHistory && s.finalized.epoch <= parent.epoch by {
      OrderedFacts(s);
    }
    if parent.epoch + 1 == c.epoch && parent != s.finalized {
      FinalizeOrdered(s, parent);
      FinalizeFrame(s, parent);
    }
  }

  lemma OrderedFacts(s: State)
    requires Ordered(s)
    ensures s.justified in s.justifiedHistory && s.finalized.epoch <= s.justified.epoch
  {
    assert s.justifiedHistory[|s.justifiedHistory| - 1] == s.justified;
  }

  lemma FinalizeFrame(s: State, c: Checkpoint)
    requires s.finalized.epoch <= c.epoch
    ensures Follows(s, Finalize(s, c)) && Finalize(s, c).justified == s.justified && Finalize(s, c).finalized == c
    ensures Finalize(s, c).justifiedHistory == s.justifiedHistory
    ensures Finalize(s, c).slot == s.slot && Finalize(s, c).epoch == s.epoch
  {
  }

  lemma FollowsTrans(s: State, t: State, u: State)
    requires Follows(s, t) && Follows(t, u)
    ensures Follows(s, u)
  {
  }

  /** One decision keeps everything in order, and finalizes a checkpoint only on the strength of the next epoch's. */
  lemma DecideOrdered(s: State, previous: Checkpoint, current: Checkpoint, previousOk: bool, currentOk: bool)
    requires Ordered(s) && previous.epoch + 1 == current.epoch && s.justified.epoch <= previous.epoch
    ensures var t := Decide(s, previous, current, previousOk, currentOk);
      && Ordered(t) && Follows(s, t) && t.justified.epoch <= current.epoch && t.slot == s.slot && t.epoch == s.epoch
      && (t.finalized != s.finalized ==>
            || (previousOk && t.finalized.epoch + 1 == previous.epoch)
            || (currentOk && t.finalized.epoch + 1 == current.epoch))
      && (t.justified != s.justified ==>
            t.justified == (if currentOk then current else previous) && (currentOk || previousOk))
  {
    hide Ordered, Justify, FinalizeParent, Follows;
    var prior := s.justified;
    FollowsSelf(s);
    if previousOk {
      var f := FinalizeParent(s, prior, previous);
      ParentOrdered(s, prior, previous);
      JustifyOrdered(f, previous);
      var s1 := Justify(f, previous);
      FollowsTrans(s, f, s1);
      JustifyFrame(f, previous);
      if currentOk {
        Second(s1, current);
        FollowsTrans(s, s1, Justify(FinalizeParent(s1, previous, current), current));
      }
    } else if currentOk {
      Second(s, current);
    }
  }

  lemma JustifyFrame(s: State, c: Checkpoint)
    ensures Justify(s, c).slot == s.slot && Justify(s, c).epoch == s.epoch
  {
  }

  lemma Second(s: State, current: Checkpoint)
    requires Ordered(s) && s.justified.epoch <= current.epoch
    ensures var t := Justify(FinalizeParent(s, s.justified, current), current);
      && Ordered(t) && Follows(s, t) && t.justified == current && t.slot == s.slot && t.epoch == s.epoch
      && (t.finalized != s.finalized ==> t.finalized.epoch + 1 == current.epoch)
  {
    hide Ordered, Justify, FinalizeParent, Follows;
    var f := FinalizeParent(s, s.justified, current);
    ParentOrdered(s, s.justified, current);
    JustifyOrdered(f, current);
    JustifyFrame(f, current);
    FollowsTrans(s, f, Justify(f, current));
  }

  lemma FollowsSelf(s: State)
    ensures Follows(s, s)
  {
  }

  // ---------------------------------------------------------------------------------------------
  // Epochs
  // ---------------------------------------------------------------------------------------------

  lemma NextEpoch(slot: nat, d: nat)
    requires d >= 1
    ensures slot / d <= (slot + 1) / d <= slot / d + 1
  {
    var p, q := slot / d, (slot + 1) / d;
    assert slot == d * p + slot % d && slot + 1 == d * q + (slot + 1) % d;
    if q < p {
      MulStep(d, q, p);
    } else if p + 1 < q {
      MulStep(d, p, p + 1);
      MulStep(d, p + 1, q);
    }
  }

  /** At the boundary into `epoch`, what changed was carried by a checkpoint that reached the threshold. */
  ghost predicate Carried(before: State, after: State, w: Weights, config: Config) {
    && (after.finalized != before.finalized ==>
          Reaches(before, CheckpointFor(before, after.finalized.epoch + 1, config), w, config)
          && after.finalized.epoch + 1 in {before.epoch, PreviousEpoch(before.epoch)})
    && (after.justified != before.justified ==> Reaches(before, after.justified, w, config))
  }

  lemma EpochOrdered(s: State, w: Weights, config: Config)
    requires Ordered(s) && s.epoch >= 1 && s.justified.epoch <= s.epoch - 1
    ensures var t := ProcessEpoch(s, w, config);
      && Ordered(t) && Follows(s, t) && t.justified.epoch <= s.epoch && t.slot == s.slot && t.epoch == s.epoch
      && Carried(s, t, w, config)
  {
    hide Reaches, Decide, Prune, Ordered;
    FollowsSelf(s);
    if SumOver(w.score, w.eligible) > 0.0 {
      var previous, current := CheckpointFor(s, s.epoch - 1, config), CheckpointFor(s, s.epoch, config);
      var previousOk, currentOk := Reaches(s, previous, w, config), Reaches(s, current, w, config);
      DecideOrdered(s, previous, current, previousOk, currentOk);
    }
    var s1 := ProcessJustification(s, w, config);
    PruneFrame(s1);
  }

  lemma PruneFrame(s: State)
    requires Ordered(s)
    ensures Ordered(s.(votes := Prune(s.votes, PreviousEpoch(s.epoch))))
  {
    hide NonDecreasing, Within;
  }

  lemma SlotKeepsInv(s: State, w: Weights, config: Config)
    requires config.Valid() && Inv(s, config)
    ensures Inv(ProcessSlot(s, w, config), config) && Follows(s, ProcessSlot(s, w, config))
  {
    hide ProcessEpoch, NonDecreasing, Within;
    var slot := s.slot + 1;
    NextEpoch(s.slot, config.slotsPerEpoch);
    var s1 := s.(slot := slot, blockRoots := if slot in s.blockRoots then s.blockRoots else s.blockRoots[slot := s.latestRoot]);
    if slot / config.slotsPerEpoch != s.epoch {
      EpochOrdered(s1.(epoch := slot / config.slotsPerEpoch), w, config);
    }
  }

  lemma StepKeepsInv(s: State, e: Event, config: Config)
    requires config.Valid() && Inv(s, config)
    ensures Inv(Occur(s, e, config), config) && Follows(s, Occur(s, e, config))
  {
    hide ProcessSlot, NonDecreasing, Within;
    match e
    case Slot(w) => SlotKeepsInv(s, w, config);
    case Record(_, _) =>
    case Attest(_) =>
  }

  /** Along every sequence of slots, blocks and attestations: finalized does not pass justified, justified does not pass
      the current epoch, neither ever goes back, and every finalized checkpoint has been justified. */
  lemma {:induction false} FinalityOverRuns(root: nat, events: seq<Event>, config: Config)
    requires config.Valid()
    ensures Inv(Run(Genesis(root), events, config), config)
    ensures events != [] ==>
      Follows(Run(Genesis(root), events[..|events| - 1], config), Run(Genesis(root), events, config))
  {
    hide Occur;
    if events == [] {
      assert 0 / config.slotsPerEpoch == 0;
    } else {
      var front := events[..|events| - 1];
      FinalityOverRuns(root, front, config);
      StepKeepsInv(Run(Genesis(root), front, config), events[|front|], config);
    }
  }

  /** Any prefix of a run comes before the whole run. */
  lemma {:induction false} RunsMoveForward(root: nat, events: seq<Event>, n: nat, config: Config)
    requires config.Valid() && n <= |events|
    ensures Follows(Run(Genesis(root), events[..n], config), Run(Genesis(root), events, config))
    decreases |events|
  {
    hide Follows, Run;
    if n == |events| {
      assert events[..n] == events;
      FollowsSelf(Run(Genesis(root), events, config));
    } else {
      var front := events[..|events| - 1];
      assert front[..n] == events[..n];
      RunsMoveForward(root, front, n, config);
      FinalityOverRuns(root, events, config);
      FollowsTrans(Run(Genesis(root), events[..n], config), Run(Genesis(root), front, config),
                   Run(Genesis(root), events, config));
    }
  }

  /** The state at an epoch boundary just before justification is processed. */
  function Boundary(s: State, config: Config): State
    requires config.Valid()
  {
    var slot := s.slot + 1;
    s.(slot := slot, epoch := slot / config.slotsPerEpoch,
       blockRoots := if slot in s.blockRoots then s.blockRoots else s.blockRoots[slot := s.latestRoot])
  }

  /** A slot finalizes a checkpoint only if the checkpoint of the next epoch has just reached the threshold, and justifies
      one only if it has reached the threshold itself. */
  lemma FinalityIsCarried(s: State, w: Weights, config: Config)
    requires config.Valid() && Inv(s, config)
    ensures Carried(Boundary(s, config), ProcessSlot(s, w, config), w, config)
  {
    hide ProcessEpoch, NonDecreasing, Within, Reaches;
    NextEpoch(s.slot, config.slotsPerEpoch);
    if (s.slot + 1) / config.slotsPerEpoch != s.epoch {
      EpochOrdered(Boundary(s, config), w, config);
    }
  }
}
