/** What a boundary does to checkpoints, in both directions, and when a chain does finalize. */
module FinalityProgress {
  import opened Arithmetic
  import opened Collections
  import opened Sums
  import opened Finality

  // ---------------------------------------------------------------------------------------------
  // One boundary
  // ---------------------------------------------------------------------------------------------

  /** The next slot opens a new epoch. */
  predicate Crosses(s: State, config: Config)
    requires config.Valid()
  {
    (s.slot + 1) / config.slotsPerEpoch != s.epoch
  }

  /** The checkpoint of the epoch that ends with the next slot, and of the one that begins. */
  function Ending(s: State, config: Config): Checkpoint
    requires config.Valid()
  {
    CheckpointFor(Boundary(s, config), s.epoch, config)
  }

  function Beginning(s: State, config: Config): Checkpoint
    requires config.Valid()
  {
    CheckpointFor(Boundary(s, config), s.epoch + 1, config)
  }

  /** The checkpoint has the support it needs at the boundary. */
  ghost predicate HasSupport(s: State, c: Checkpoint, w: Weights, config: Config)
    requires config.Valid()
  {
    Reaches(Boundary(s, config), c, w, config)
  }

  /** Among the two checkpoints with support the later one becomes justified; without support nothing changes. */
  ghost function NewJustified(s: State, w: Weights, config: Config): Checkpoint
    requires config.Valid()
  {
    if HasSupport(s, Beginning(s, config), w, config) then Beginning(s, config)
    else if HasSupport(s, Ending(s, config), w, config) then Ending(s, config)
    else s.justified
  }

  /** What becomes final: a justified checkpoint, once the checkpoint of the very next epoch has support. */
  ghost function NewFinalized(s: State, w: Weights, config: Config): Checkpoint
    requires config.Valid()
  {
    var ending, beginning := Ending(s, config), Beginning(s, config);
    if HasSupport(s, beginning, w, config) && HasSupport(s, ending, w, config) then ending
    else if HasSupport(s, beginning, w, config) && s.justified.epoch + 1 == beginning.epoch then s.justified
    else if HasSupport(s, ending, w, config) && s.justified.epoch + 1 == ending.epoch then s.justified
    else s.finalized
  }

  /** Whoever has support at the boundary is justified there. */
  ghost predicate JustifiesAll(s: State, t: State, w: Weights, config: Config)
    requires config.Valid()
  {
    forall c :: c in {Ending(s, config), Beginning(s, config)} && HasSupport(s, c, w, config) ==> c in t.justifiedHistory
  }

  /** A checkpoint justified before, or at this boundary, becomes final if the one of the next epoch has support. */
  ghost predicate FinalizesAll(s: State, t: State, w: Weights, config: Config)
    requires config.Valid()
  {
    var ending, beginning := Ending(s, config), Beginning(s, config);
    && (HasSupport(s, ending, w, config) && s.justified.epoch + 1 == ending.epoch ==> s.justified in t.finalizedHistory)
    && (HasSupport(s, beginning, w, config) && HasSupport(s, ending, w, config) ==> ending in t.finalizedHistory)
    && (HasSupport(s, beginning, w, config) && !HasSupport(s, ending, w, config) && s.justified.epoch + 1 == beginning.epoch
        ==> s.justified in t.finalizedHistory)
  }

  /** Nothing else enters the histories. */
  ghost predicate NothingElse(s: State, t: State, w: Weights, config: Config)
    requires config.Valid()
  {
    && (forall c :: c in t.justifiedHistory && c !in s.justifiedHistory ==>
          c in {Ending(s, config), Beginning(s, config)} && HasSupport(s, c, w, config))
    && (forall c :: c in t.finalizedHistory && c !in s.finalizedHistory ==>
          c in {s.justified, Ending(s, config)} && c in t.justifiedHistory)
  }

  lemma DecideMeaning(s: State, previous: Checkpoint, current: Checkpoint, previousOk: bool, currentOk: bool)
    requires Ordered(s) && previous.epoch + 1 == current.epoch
    ensures var t := Decide(s, previous, current, previousOk, currentOk);
      && t.justified == (if currentOk then current else if previousOk then previous else s.justified)
      && t.finalized
         == (if currentOk && previousOk then previous
             else if currentOk && s.justified.epoch + 1 == current.epoch then s.justified
             else if previousOk && s.justified.epoch + 1 == previous.epoch then s.justified
             else s.finalized)
      && (previousOk ==> previous in t.justifiedHistory) && (currentOk ==> current in t.justifiedHistory)
      && (previousOk && s.justified.epoch + 1 == previous.epoch ==> s.justified in t.finalizedHistory)
      && (currentOk && previousOk ==> previous in t.finalizedHistory)
      && (currentOk && !previousOk && s.justified.epoch + 1 == current.epoch ==> s.justified in t.finalizedHistory)
      && (forall c :: c in t.justifiedHistory && c !in s.justifiedHistory ==>
            (c == previous && previousOk) || (c == current && currentOk))
      && (forall c :: c in t.finalizedHistory && c !in s.finalizedHistory ==>
            c in {s.justified, previous} && c in t.justifiedHistory)
  {
    hide NonDecreasing, Within;
    LastIsIn(s.justifiedHistory, s.justified);
    LastIsIn(s.finalizedHistory, s.finalized);
  }

  lemma LastIsIn(h: seq<Checkpoint>, c: Checkpoint)
    requires EndsWith(h, c)
    ensures c in h
  {
  }

  /** A boundary in full: what is justified and final after it, as a function of the state before and the support. */
  lemma BoundaryMeaning(s: State, w: Weights, config: Config)
    requires config.Valid() && Inv(s, config) && Crosses(s, config)
    ensures var t := ProcessSlot(s, w, config);
      && t.justified == NewJustified(s, w, config) && t.finalized == NewFinalized(s, w, config)
      && JustifiesAll(s, t, w, config) && FinalizesAll(s, t, w, config) && NothingElse(s, t, w, config)
  {
    hide Decide, Reaches, Prune, NonDecreasing, Within;
    NextEpoch(s.slot, config.slotsPerEpoch);
    var b := Boundary(s, config);
    var previous, current := CheckpointFor(b, b.epoch - 1, config), CheckpointFor(b, b.epoch, config);
    NoWeightNoSupport(b, previous, w, config);
    NoWeightNoSupport(b, current, w, config);
    DecideMeaning(b, previous, current, Reaches(b, previous, w, config), Reaches(b, current, w, config));
    assert ProcessSlot(s, w, config) == ProcessEpoch(b, w, config);
    if SumOver(w.score, w.eligible) <= 0.0 {
      LastIsIn(s.justifiedHistory, s.justified);
    }
  }

  lemma NoWeightNoSupport(s: State, c: Checkpoint, w: Weights, config: Config)
    ensures Reaches(s, c, w, config) ==> SumOver(w.score, w.eligible) > 0.0
  {
  }

  /** A slot within an epoch changes no checkpoint. */
  lemma WithinEpoch(s: State, w: Weights, config: Config)
    requires config.Valid() && !Crosses(s, config)
    ensures var t := ProcessSlot(s, w, config);
      && t.justified == s.justified && t.finalized == s.finalized && t.epoch == s.epoch
      && t.justifiedHistory == s.justifiedHistory && t.finalizedHistory == s.finalizedHistory
  {
    hide ProcessEpoch;
  }

  /** Exactly when something becomes final. */
  lemma FinalizesExactly(s: State, w: Weights, config: Config)
    requires config.Valid() && Inv(s, config) && Crosses(s, config)
    ensures ProcessSlot(s, w, config).finalized != s.finalized <==>
      var ending, beginning := Ending(s, config), Beginning(s, config);
      || (HasSupport(s, ending, w, config) && HasSupport(s, beginning, w, config) && ending != s.finalized)
      || (HasSupport(s, ending, w, config) && !HasSupport(s, beginning, w, config)
          && s.justified.epoch + 1 == ending.epoch && s.justified != s.finalized)
      || (HasSupport(s, beginning, w, config) && !HasSupport(s, ending, w, config)
          && s.justified.epoch + 1 == beginning.epoch && s.justified != s.finalized)
  {
    hide ProcessSlot, HasSupport, Inv;
    BoundaryMeaning(s, w, config);
    NextEpoch(s.slot, config.slotsPerEpoch);
  }

  // ---------------------------------------------------------------------------------------------
  // Runs
  // ---------------------------------------------------------------------------------------------

  ghost function StateAt(root: nat, events: seq<Event>, n: nat, config: Config): State
    requires config.Valid() && n <= |events|
  {
    Run(Genesis(root), events[..n], config)
  }

  lemma NextState(root: nat, events: seq<Event>, n: nat, config: Config)
    requires config.Valid() && n < |events|
    ensures StateAt(root, events, n + 1, config) == Occur(StateAt(root, events, n, config), events[n], config)
  {
    hide Occur;
    assert events[..n + 1][..n] == events[..n];
  }

  /** Event `n` is the slot that ends the epoch, and the checkpoint of the ending epoch has support. */
  ghost predicate EndsSupported(root: nat, events: seq<Event>, n: nat, config: Config)
    requires config.Valid() && n < |events|
  {
    var s := StateAt(root, events, n, config);
    events[n].Slot? && Crosses(s, config) && HasSupport(s, Ending(s, config), events[n].weights, config)
  }

  lemma {:induction false} SameWithinEpoch(root: nat, events: seq<Event>, m: nat, n: nat, config: Config)
    requires config.Valid() && m <= n <= |events|
    requires StateAt(root, events, m, config).epoch == StateAt(root, events, n, config).epoch
    ensures StateAt(root, events, n, config).justified == StateAt(root, events, m, config).justified
    decreases n
  {
    hide Occur, Run;
    if m < n {
      var s, t := StateAt(root, events, n - 1, config), StateAt(root, events, n, config);
      OrderedStates(root, events, m, n - 1, config);
      OrderedStates(root, events, n - 1, n, config);
      SameWithinEpoch(root, events, m, n - 1, config);
      NextState(root, events, n - 1, config);
      NoCrossing(s, events[n - 1], config);
    }
  }

  lemma NoCrossing(s: State, e: Event, config: Config)
    requires config.Valid() && Occur(s, e, config).epoch == s.epoch
    ensures Occur(s, e, config).justified == s.justified
  {
    hide ProcessEpoch;
    if e.Slot? && Crosses(s, config) {
      CrossingMoves(s, e.weights, config);
    }
  }

  lemma CrossingMoves(s: State, w: Weights, config: Config)
    requires config.Valid() && Crosses(s, config)
    ensures ProcessSlot(s, w, config).epoch != s.epoch
  {
    hide Decide, Reaches;
    DecideFrame(Boundary(s, config));
  }

  lemma DecideFrame(s: State)
    ensures forall p: Checkpoint, c: Checkpoint, pOk: bool, cOk: bool :: Decide(s, p, c, pOk, cOk).epoch == s.epoch
  {
  }

  lemma OrderedStates(root: nat, events: seq<Event>, m: nat, n: nat, config: Config)
    requires config.Valid() && m <= n <= |events|
    ensures Inv(StateAt(root, events, n, config), config)
    ensures Follows(StateAt(root, events, m, config), StateAt(root, events, n, config))
  {
    hide Inv, Follows, Run;
    FinalityOverRuns(root, events[..n], config);
    RunsMoveForward(root, events[..n], m, config);
    assert events[..n][..m] == events[..m];
  }

  /** Whenever two consecutive epochs end with support, in any run, the first one becomes final and stays so. */
  lemma ConsecutiveEpochsFinalize(root: nat, events: seq<Event>, i: nat, j: nat, n: nat, config: Config)
    requires config.Valid() && i < j < n <= |events|
    requires EndsSupported(root, events, i, config) && EndsSupported(root, events, j, config)
    requires StateAt(root, events, i + 1, config).epoch == StateAt(root, events, j, config).epoch
    ensures var c := Ending(StateAt(root, events, i, config), config); var t := StateAt(root, events, n, config);
      c in t.finalizedHistory && c.epoch <= t.finalized.epoch
  {
    hide Run, ProcessSlot, HasSupport, Ordered;
    var s, s' := StateAt(root, events, i, config), StateAt(root, events, j, config);
    OrderedStates(root, events, 0, i, config);
    OrderedStates(root, events, 0, j, config);
    NextState(root, events, i, config);
    NextState(root, events, j, config);
    BoundaryMeaning(s, events[i].weights, config);
    BoundaryMeaning(s', events[j].weights, config);
    SameWithinEpoch(root, events, i + 1, j, config);
    NextEpoch(s.slot, config.slotsPerEpoch);
    SlotEpoch(s, events[i].weights, config);
    OrderedStates(root, events, i + 1, j, config);
    OrderedStates(root, events, j, j + 1, config);
    OrderedStates(root, events, j + 1, n, config);
    FinalizedIsLast(StateAt(root, events, n, config), Ending(s, config));
  }

  lemma SlotEpoch(s: State, w: Weights, config: Config)
    requires config.Valid() && Crosses(s, config)
    ensures ProcessSlot(s, w, config).epoch == (s.slot + 1) / config.slotsPerEpoch
  {
    hide Decide, Reaches;
    DecideFrame(Boundary(s, config));
  }

  lemma FinalizedIsLast(s: State, c: Checkpoint)
    requires Ordered(s) && c in s.finalizedHistory
    ensures c.epoch <= s.finalized.epoch
  {
    var i :| 0 <= i < |s.finalizedHistory| && s.finalizedHistory[i] == c;
  }

  // ---------------------------------------------------------------------------------------------
  // Support
  // ---------------------------------------------------------------------------------------------

  /** Somebody attests to a checkpoint if an attestation to it names them. */
  lemma {:induction false} AttestersMeaning(votes: seq<Attestation>, c: Checkpoint, v: nat)
    ensures v in Attesters(votes, c) <==> exists a :: a in votes && a.target == c && v in a.attesters
  {
    if votes != [] {
      var front, last := votes[..|votes| - 1], votes[|votes| - 1];
      AttestersMeaning(front, c, v);
      assert votes == front + [last];
      assert forall a :: a in votes <==> a in front || a == last;
    }
  }

  /** The share of the total score that the attesters of a checkpoint need at a boundary. */
  ghost predicate Outweighs(who: set<nat>, w: Weights, config: Config) {
    var total := SumOver(w.score, w.eligible);
    total > 0.0 && ScoreOf(w.score, who) / total >= config.threshold
  }

  /** Support at a boundary is the weight of everybody named in an attestation to the checkpoint. */
  lemma SupportMeaning(s: State, c: Checkpoint, who: set<nat>, w: Weights, config: Config)
    requires config.Valid()
    requires forall v :: v in who <==> exists a :: a in VotesAt(s, c.epoch) && a.target == c && v in a.attesters
    ensures HasSupport(s, c, w, config) <==> Outweighs(who, w, config)
  {
    var votes := VotesAt(s, c.epoch);
    forall v
      ensures v in Attesters(votes, c) <==> v in who
    {
      AttestersMeaning(votes, c, v);
    }
    assert Attesters(votes, c) == who;
    assert VotesAt(Boundary(s, config), c.epoch) == votes;
  }

  /** Attestations are kept until the boundary that counts them: through their own epoch and the next. */
  lemma {:induction false} AttestationCounts(root: nat, events: seq<Event>, k: nat, n: nat, config: Config)
    requires config.Valid() && k < n <= |events| && events[k].Attest?
    requires StateAt(root, events, n, config).epoch <= events[k].attestation.target.epoch + 1
    ensures events[k].attestation in VotesAt(StateAt(root, events, n, config), events[k].attestation.target.epoch)
    decreases n
  {
    hide Occur, Run;
    var a := events[k].attestation;
    NextState(root, events, n - 1, config);
    OrderedStates(root, events, n - 1, n, config);
    if k < n - 1 {
      AttestationCounts(root, events, k, n - 1, config);
      VotesStay(StateAt(root, events, n - 1, config), events[n - 1], a, config);
    } else {
      AttestationFiled(StateAt(root, events, n - 1, config), a, config);
    }
  }

  lemma AttestationFiled(s: State, a: Attestation, config: Config)
    requires config.Valid()
    ensures a in VotesAt(Occur(s, Attest(a), config), a.target.epoch)
  {
  }

  lemma VotesStay(s: State, e: Event, a: Attestation, config: Config)
    requires config.Valid() && a in VotesAt(s, a.target.epoch) && Occur(s, e, config).epoch <= a.target.epoch + 1
    ensures a in VotesAt(Occur(s, e, config), a.target.epoch)
  {
    match e
    case Slot(w) => VotesStayOverSlot(s, w, a, config);
    case Record(_, _) =>
    case Attest(_) =>
  }

  lemma VotesStayOverSlot(s: State, w: Weights, a: Attestation, config: Config)
    requires config.Valid() && a in VotesAt(s, a.target.epoch) && ProcessSlot(s, w, config).epoch <= a.target.epoch + 1
    ensures a in VotesAt(ProcessSlot(s, w, config), a.target.epoch)
  {
    hide Decide, Reaches;
    DecideFrame(Boundary(s, config));
    DecideVotes(Boundary(s, config));
  }

  lemma DecideVotes(s: State)
    ensures forall p: Checkpoint, c: Checkpoint, pOk: bool, cOk: bool :: Decide(s, p, c, pOk, cOk).votes == s.votes
  {
  }

  /** The checkpoint of an epoch is the block recorded at its first slot, or the latest one if that slot has none; the slot
      that opens an epoch always has one. */
  lemma CheckpointMeaning(s: State, epoch: nat, config: Config)
    requires config.Valid() && Inv(s, config)
    ensures var c := CheckpointFor(s, epoch, config); var first := epoch * config.slotsPerEpoch;
      && c.epoch == epoch && (first in s.blockRoots ==> c.root == s.blockRoots[first])
      && (first !in s.blockRoots ==> c.root == s.latestRoot)
    ensures Crosses(s, config) && s.slot + 1 !in s.blockRoots ==> Beginning(s, config).root == s.latestRoot
  {
    if Crosses(s, config) {
      FirstSlot(s.slot, config.slotsPerEpoch);
    }
  }

  /** A slot with a new epoch number is the first of its epoch. */
  lemma FirstSlot(slot: nat, d: nat)
    requires d >= 1 && (slot + 1) / d != slot / d
    ensures slot + 1 == (slot / d + 1) * d
  {
    NextEpoch(slot, d);
    var q := slot / d;
    assert slot == d * q + slot % d;
    assert slot + 1 == d * (q + 1) + (slot + 1) % d;
    assert (q + 1) * d == d * (q + 1) == d * q + d;
  }

  /** The total that a share is taken of: the scores of all eligible validators. */
  lemma {:induction false} TotalMeaning(score: nat -> real, who: seq<nat>)
    requires NoRepeats(who)
    ensures SumOver(score, who) == ScoreOf(score, Elements(who))
  {
    if who != [] {
      var front, last := who[..|who| - 1], who[|who| - 1];
      TotalMeaning(score, front);
      assert who == front + [last] && last !in front;
      ElementsSnoc(front, last);
      ScoreAdd(score, Elements(front), last);
    }
  }

  /** A boundary forgets exactly the votes for epochs before the one that ends. */
  lemma VotesAfterBoundary(s: State, w: Weights, config: Config, epoch: nat)
    requires config.Valid() && Inv(s, config) && Crosses(s, config)
    ensures VotesAt(ProcessSlot(s, w, config), epoch) == if epoch >= s.epoch then VotesAt(s, epoch) else []
  {
    hide Decide, Reaches, Ordered;
    DecideFrame(Boundary(s, config));
    DecideVotes(Boundary(s, config));
    NextEpoch(s.slot, config.slotsPerEpoch);
  }

  /** The previous justified checkpoint is the one before the last in the history. */
  predicate PreviousOk(s: State) {
    var n := |s.justifiedHistory|;
    n >= 1 && s.justifiedHistory[n - 1] == s.justified
    && s.previousJustified == s.justifiedHistory[if n == 1 then 0 else n - 2]
  }

  lemma DecideKeepsPrevious(s: State, p: Checkpoint, c: Checkpoint, pOk: bool, cOk: bool)
    requires PreviousOk(s)
    ensures PreviousOk(Decide(s, p, c, pOk, cOk))
  {
  }

  lemma SlotKeepsPrevious(s: State, w: Weights, config: Config)
    requires config.Valid() && PreviousOk(s)
    ensures PreviousOk(ProcessSlot(s, w, config))
  {
    hide Decide, Reaches;
    var b := Boundary(s, config);
    var previous, current := CheckpointFor(b, PreviousEpoch(b.epoch), config), CheckpointFor(b, b.epoch, config);
    DecideKeepsPrevious(b, previous, current, Reaches(b, previous, w, config), Reaches(b, current, w, config));
  }

  /** Along every run. */
  lemma {:induction false} PreviousOverRuns(root: nat, events: seq<Event>, config: Config)
    requires config.Valid()
    ensures PreviousOk(Run(Genesis(root), events, config))
  {
    hide ProcessSlot;
    if events != [] {
      var front := events[..|events| - 1];
      PreviousOverRuns(root, front, config);
      var s := Run(Genesis(root), front, config);
      if events[|front|].Slot? {
        SlotKeepsPrevious(s, events[|front|].weights, config);
      }
    }
  }
}
