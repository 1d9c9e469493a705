/** Choosing committee members in ranking order under a cap per operator that is relaxed only as far as needed. */
module Committee {
  import opened Arithmetic
  import opened Collections
  import opened Sums

  datatype Peer = Peer(operator: nat, region: nat)

  /** The nodes the network knows. */
  type Peers = map<nat, Peer>

  predicate AllKnown(peers: Peers, s: seq<nat>) {
    forall i :: 0 <= i < |s| ==> s[i] in peers
  }

  // ---------------------------------------------------------------------------------------------
  // Counting
  // ---------------------------------------------------------------------------------------------

  function One(peers: Peers, id: nat, op: nat): nat {
    if id in peers && peers[id].operator == op then 1 else 0
  }

  /** How many known nodes of a list belong to an operator. */
  function Count(peers: Peers, s: seq<nat>, op: nat): nat {
    if s == [] then 0 else Count(peers, s[..|s| - 1], op) + One(peers, s[|s| - 1], op)
  }

  lemma {:induction false} CountSnoc(peers: Peers, s: seq<nat>, id: nat, op: nat)
    ensures Count(peers, s + [id], op) == Count(peers, s, op) + One(peers, id, op)
  {
    assert (s + [id])[..|s|] == s;
  }

  lemma {:induction false} CountAppend(peers: Peers, s: seq<nat>, t: seq<nat>, op: nat)
    ensures Count(peers, s + t, op) == Count(peers, s, op) + Count(peers, t, op)
    decreases |t|
  {
    if t == [] {
      assert s + t == s;
    } else {
      var last := |t| - 1;
      CountAppend(peers, s, t[..last], op);
      assert s + t == (s + t[..last]) + [t[last]] && t == t[..last] + [t[last]];
      CountSnoc(peers, s + t[..last], t[last], op);
    }
  }

  /** Sum over a set of operators. */
  ghost function Total(ops: set<nat>, f: nat -> int): int {
    Sum(Each(ops), f)
  }

  function Each(ops: set<nat>): map<nat, nat> {
    map op | op in ops :: op
  }

  lemma TotalRemove(ops: set<nat>, f: nat -> int, op: nat)
    requires op in ops
    ensures Total(ops, f) == f(op) + Total(ops - {op}, f)
  {
    SumRemove(Each(ops), f, op);
    assert Each(ops) - {op} == Each(ops - {op});
  }

  lemma {:induction false} TotalLe(ops: set<nat>, f: nat -> int, g: nat -> int)
    requires forall op :: op in ops ==> f(op) <= g(op)
    ensures Total(ops, f) <= Total(ops, g)
    decreases ops
  {
    if ops != {} {
      var op :| op in ops;
      TotalRemove(ops, f, op);
      TotalRemove(ops, g, op);
      TotalLe(ops - {op}, f, g);
    }
  }

  /** Raising one term by one raises the sum by one. */
  lemma {:induction false} TotalBump(ops: set<nat>, f: nat -> int, g: nat -> int, op: nat)
    requires op in ops && g(op) == f(op) + 1 && forall o :: o in ops && o != op ==> g(o) == f(o)
    ensures Total(ops, g) == Total(ops, f) + 1
  {
    TotalRemove(ops, f, op);
    TotalRemove(ops, g, op);
    TotalLe(ops - {op}, f, g);
    TotalLe(ops - {op}, g, f);
  }

  lemma {:induction false} TotalZero(ops: set<nat>, f: nat -> int)
    requires forall op :: op in ops ==> f(op) == 0
    ensures Total(ops, f) == 0
    decreases ops
  {
    if ops != {} {
      var op :| op in ops;
      TotalRemove(ops, f, op);
      TotalZero(ops - {op}, f);
    }
  }

  function Operators(peers: Peers): set<nat> {
    set id | id in peers :: peers[id].operator
  }

  ghost function CountIn(peers: Peers, s: seq<nat>): nat -> int {
    (op: nat) => Count(peers, s, op)
  }

  ghost function CappedIn(peers: Peers, s: seq<nat>, cap: nat): nat -> int {
    (op: nat) => Min(Count(peers, s, op), cap)
  }

  /** The most members that respect a cap: every operator contributes what it has, up to the cap. */
  ghost function Room(peers: Peers, ranked: seq<nat>, cap: nat): int {
    Total(Operators(peers), CappedIn(peers, ranked, cap))
  }

  /** A list of known nodes is as long as the sum of its operators' shares. */
  lemma {:induction false} LengthIsTotal(peers: Peers, s: seq<nat>)
    requires AllKnown(peers, s)
    ensures |s| == Total(Operators(peers), CountIn(peers, s))
  {
    var ops := Operators(peers);
    if s == [] {
      TotalZero(ops, CountIn(peers, s));
    } else {
      var front, id := s[..|s| - 1], s[|s| - 1];
      LengthIsTotal(peers, front);
      assert s == front + [id];
      TotalBump(ops, CountIn(peers, front), CountIn(peers, s), peers[id].operator);
    }
  }

  // ---------------------------------------------------------------------------------------------
  // What no selection can beat
  // ---------------------------------------------------------------------------------------------

  /** Distinct known candidates, at most `cap` from each operator. */
  ghost predicate Admissible(peers: Peers, ranked: seq<nat>, s: seq<nat>, cap: nat) {
    && AllKnown(peers, s) && NoRepeats(s) && (forall i :: 0 <= i < |s| ==> s[i] in ranked)
    && forall op :: Count(peers, s, op) <= cap
  }

  function Positions(peers: Peers, s: seq<nat>, op: nat): set<nat> {
    set id | id in s && id in peers && peers[id].operator == op
  }

  lemma {:induction false} DistinctCount(peers: Peers, s: seq<nat>, op: nat)
    requires NoRepeats(s)
    ensures Count(peers, s, op) == |Positions(peers, s, op)|
  {
    if s != [] {
      var front, id := s[..|s| - 1], s[|s| - 1];
      DistinctCount(peers, front, op);
      assert s == front + [id];
      assert id !in front;
      assert Positions(peers, s, op)
          == Positions(peers, front, op) + if id in peers && peers[id].operator == op then {id} else {};
    }
  }

  /** No admissible selection is larger than the room under its cap. */
  lemma {:induction false} RoomIsBound(peers: Peers, ranked: seq<nat>, s: seq<nat>, cap: nat)
    requires Admissible(peers, ranked, s, cap) && NoRepeats(ranked)
    ensures |s| <= Room(peers, ranked, cap)
  {
    LengthIsTotal(peers, s);
    forall op
      ensures Count(peers, s, op) <= Count(peers, ranked, op)
    {
      DistinctCount(peers, s, op);
      DistinctCount(peers, ranked, op);
      SubsetSize(Positions(peers, s, op), Positions(peers, ranked, op));
    }
    TotalLe(Operators(peers), CountIn(peers, s), CappedIn(peers, ranked, cap));
  }

  // ---------------------------------------------------------------------------------------------
  // Who is picked
  // ---------------------------------------------------------------------------------------------

  predicate RegionUsed(peers: Peers, s: seq<nat>, region: nat) {
    exists i :: 0 <= i < |s| && s[i] in peers && peers[s[i]].region == region
  }

  /** Behind `before`, the operator of a known candidate still has room under the cap. */
  predicate HasRoom(peers: Peers, before: seq<nat>, id: nat, cap: nat) {
    id in peers && Count(peers, before, peers[id].operator) < cap
  }

  /** Regions are to be spread, and the candidate's is taken already. */
  predicate Crowded(peers: Peers, before: seq<nat>, id: nat, unique: bool) {
    unique && id in peers && RegionUsed(peers, before, peers[id].region)
  }

  /** The first pass, in ranking order: whoever has room and a region of its own, if that matters. */
  function FirstPass(peers: Peers, ranked: seq<nat>, cap: nat, unique: bool): seq<nat> {
    if ranked == [] then []
    else
      var taken, id := FirstPass(peers, ranked[..|ranked| - 1], cap, unique), ranked[|ranked| - 1];
      if HasRoom(peers, taken, id, cap) && !Crowded(peers, taken, id, unique) then taken + [id] else taken
  }

  /** The candidates put off in the first pass, for their region only. */
  function PutOff(peers: Peers, ranked: seq<nat>, cap: nat, unique: bool): seq<nat> {
    if ranked == [] then []
    else
      var front, id := ranked[..|ranked| - 1], ranked[|ranked| - 1];
      var taken := FirstPass(peers, front, cap, unique);
      PutOff(peers, front, cap, unique)
      + if HasRoom(peers, taken, id, cap) && Crowded(peers, taken, id, unique) then [id] else []
  }

  /** The second pass, over those put off: whoever has room. */
  function SecondPass(peers: Peers, taken: seq<nat>, putOff: seq<nat>, cap: nat): seq<nat> {
    if putOff == [] then taken
    else
      var s, id := SecondPass(peers, taken, putOff[..|putOff| - 1], cap), putOff[|putOff| - 1];
      if HasRoom(peers, s, id, cap) then s + [id] else s
  }

  /** Everybody the two passes would take if they had no size to stop at, in the order of taking. */
  function Queue(peers: Peers, ranked: seq<nat>, cap: nat, unique: bool): seq<nat> {
    SecondPass(peers, FirstPass(peers, ranked, cap, unique), PutOff(peers, ranked, cap, unique), cap)
  }

  lemma {:induction false} FirstPassGrows(peers: Peers, ranked: seq<nat>, i: nat, cap: nat, unique: bool)
    requires i <= |ranked|
    ensures FirstPass(peers, ranked[..i], cap, unique) <= FirstPass(peers, ranked, cap, unique)
    decreases |ranked|
  {
    hide HasRoom, Crowded;
    if i == |ranked| {
      assert ranked[..i] == ranked;
    } else {
      var front := ranked[..|ranked| - 1];
      FirstPassGrows(peers, front, i, cap, unique);
      assert front[..i] == ranked[..i];
    }
  }

  lemma {:induction false} SecondPassGrows(peers: Peers, taken: seq<nat>, putOff: seq<nat>, j: nat, cap: nat)
    requires j <= |putOff|
    ensures taken <= SecondPass(peers, taken, putOff[..j], cap) <= SecondPass(peers, taken, putOff, cap)
    decreases |putOff|
  {
    hide HasRoom;
    if j == |putOff| {
      assert putOff[..j] == putOff;
      if j > 0 {
        SecondPassGrows(peers, taken, putOff[..j - 1], j - 1, cap);
        assert putOff[..j - 1][..j - 1] == putOff[..j - 1];
      }
    } else {
      var front := putOff[..|putOff| - 1];
      SecondPassGrows(peers, taken, front, j, cap);
      assert front[..j] == putOff[..j];
    }
  }

  lemma {:induction false} OnlyRanked(peers: Peers, ranked: seq<nat>, cap: nat, unique: bool)
    ensures forall id :: id in FirstPass(peers, ranked, cap, unique) ==> id in ranked
  {
    hide HasRoom, Crowded;
    if ranked != [] {
      OnlyRanked(peers, ranked[..|ranked| - 1], cap, unique);
    }
  }

  /** Exactly who is taken in the first pass: a candidate with room behind the better ranked ones taken, and not crowded by
      them. */
  lemma {:induction false} FirstPassMeaning(peers: Peers, ranked: seq<nat>, cap: nat, unique: bool, i: nat)
    requires NoRepeats(ranked) && i < |ranked|
    ensures var before := FirstPass(peers, ranked[..i], cap, unique);
      ranked[i] in FirstPass(peers, ranked, cap, unique)
      <==> HasRoom(peers, before, ranked[i], cap) && !Crowded(peers, before, ranked[i], unique)
    decreases |ranked|
  {
    hide HasRoom, Crowded;
    var front, last := ranked[..|ranked| - 1], ranked[|ranked| - 1];
    OnlyRanked(peers, front, cap, unique);
    if i < |front| {
      FirstPassMeaning(peers, front, cap, unique, i);
      assert front[..i] == ranked[..i] && ranked[i] != last;
    } else {
      assert ranked[..i] == front && last !in front;
    }
  }

  /** Without a preference for regions nobody is put off, and the queue has a closed form: everybody known with fewer than
      `cap` better ranked candidates of the same operator. */
  lemma {:induction false} QueueWithoutRegions(peers: Peers, ranked: seq<nat>, cap: nat)
    ensures PutOff(peers, ranked, cap, false) == []
    ensures Queue(peers, ranked, cap, false) == FirstPass(peers, ranked, cap, false)
    ensures forall op :: Count(peers, FirstPass(peers, ranked, cap, false), op) == Min(Count(peers, ranked, op), cap)
  {
    if ranked != [] {
      var front, id := ranked[..|ranked| - 1], ranked[|ranked| - 1];
      QueueWithoutRegions(peers, front, cap);
      var taken := FirstPass(peers, front, cap, false);
      forall op
        ensures Count(peers, FirstPass(peers, ranked, cap, false), op) == Min(Count(peers, ranked, op), cap)
      {
        CountSnoc(peers, taken, id, op);
      }
    }
  }

  lemma PickedWithoutRegions(peers: Peers, ranked: seq<nat>, cap: nat, i: nat)
    requires NoRepeats(ranked) && i < |ranked|
    ensures ranked[i] in Queue(peers, ranked, cap, false)
      <==> ranked[i] in peers && Count(peers, ranked[..i], peers[ranked[i]].operator) < cap
  {
    hide NoRepeats;
    QueueWithoutRegions(peers, ranked, cap);
    QueueWithoutRegions(peers, ranked[..i], cap);
    FirstPassMeaning(peers, ranked, cap, false, i);
  }

  /** With the preference, no two of the first pass share a region, and whoever of the ranking is put off shares its region
      with somebody taken before. */
  lemma {:induction false} RegionsAreSpread(peers: Peers, ranked: seq<nat>, cap: nat)
    ensures var taken := FirstPass(peers, ranked, cap, true);
      && AllKnown(peers, taken)
      && forall i, j :: 0 <= i < j < |taken| ==> peers[taken[i]].region != peers[taken[j]].region
    ensures forall id :: id in PutOff(peers, ranked, cap, true) ==>
      id in peers && RegionUsed(peers, FirstPass(peers, ranked, cap, true), peers[id].region)
  {
    if ranked != [] {
      var front, id := ranked[..|ranked| - 1], ranked[|ranked| - 1];
      RegionsAreSpread(peers, front, cap);
      FirstPassGrows(peers, ranked, |front|, cap, true);
      var before, taken := FirstPass(peers, front, cap, true), FirstPass(peers, ranked, cap, true);
      forall region | RegionUsed(peers, before, region)
        ensures RegionUsed(peers, taken, region)
      {
        var i :| 0 <= i < |before| && before[i] in peers && peers[before[i]].region == region;
        assert taken[i] == before[i];
      }
    }
  }

  /** A selection in progress stops at a prefix of the queue. */
  lemma StopInFirstPass(peers: Peers, ranked: seq<nat>, i: nat, cap: nat, unique: bool, n: nat)
    requires i <= |ranked| && |FirstPass(peers, ranked[..i], cap, unique)| == n
    ensures var queue := Queue(peers, ranked, cap, unique);
      n <= |queue| && FirstPass(peers, ranked[..i], cap, unique) == queue[..n]
  {
    hide FirstPass, SecondPass, PutOff;
    var taken, putOff := FirstPass(peers, ranked, cap, unique), PutOff(peers, ranked, cap, unique);
    FirstPassGrows(peers, ranked, i, cap, unique);
    SecondPassGrows(peers, taken, putOff, |putOff|, cap);
  }

  // ---------------------------------------------------------------------------------------------
  // The two greedy passes
  // ---------------------------------------------------------------------------------------------

  /** Members taken so far and candidates put off, out of the candidates `seen`: of every operator, either the cap is
      used up or nobody has been lost. */
  ghost predicate Progress(peers: Peers, seen: seq<nat>, selected: seq<nat>, deferred: seq<nat>, cap: nat) {
    && AllKnown(peers, selected) && AllKnown(peers, deferred) && NoRepeats(selected + deferred)
    && (forall id :: id in selected + deferred ==> id in seen)
    && forall op :: ShareOk(peers, seen, selected, deferred, cap, op)
  }

  ghost predicate ShareOk(peers: Peers, seen: seq<nat>, selected: seq<nat>, deferred: seq<nat>, cap: nat, op: nat) {
    var taken, waiting, all := Count(peers, selected, op), Count(peers, deferred, op), Count(peers, seen, op);
    taken <= cap && taken + waiting <= all && (taken == cap || taken + waiting == all)
  }

  ghost predicate Tallied(peers: Peers, selected: seq<nat>, byOperator: map<nat, nat>) {
    forall op :: Tally(byOperator, op) == Count(peers, selected, op)
  }

  function Tally(byOperator: map<nat, nat>, op: nat): nat {
    if op in byOperator then byOperator[op] else 0
  }

  lemma TallyTake(peers: Peers, selected: seq<nat>, byOperator: map<nat, nat>, id: nat)
    requires Tallied(peers, selected, byOperator) && id in peers
    ensures var op := peers[id].operator;
      Tallied(peers, selected + [id], byOperator[op := Tally(byOperator, op) + 1])
  {
    forall op
      ensures Count(peers, selected + [id], op) == Count(peers, selected, op) + One(peers, id, op)
    {
      CountSnoc(peers, selected, id, op);
    }
  }

  /** A candidate nobody knows, or whose operator has used up its cap, is passed over. */
  lemma SkipKeeps(peers: Peers, seen: seq<nat>, selected: seq<nat>, deferred: seq<nat>, cap: nat, id: nat)
    requires Progress(peers, seen, selected, deferred, cap)
    requires id !in peers || Count(peers, selected, peers[id].operator) >= cap
    ensures Progress(peers, seen + [id], selected, deferred, cap)
  {
    forall op
      ensures ShareOk(peers, seen + [id], selected, deferred, cap, op)
    {
      assert ShareOk(peers, seen, selected, deferred, cap, op);
      CountSnoc(peers, seen, id, op);
    }
  }

  lemma DeferKeeps(peers: Peers, seen: seq<nat>, selected: seq<nat>, deferred: seq<nat>, cap: nat, id: nat)
    requires Progress(peers, seen, selected, deferred, cap) && id in peers && id !in seen
    ensures Progress(peers, seen + [id], selected, deferred + [id], cap)
  {
    hide ShareOk;
    RepeatSnoc(selected + deferred, id);
    assert selected + (deferred + [id]) == selected + deferred + [id];
    forall op
      ensures ShareOk(peers, seen + [id], selected, deferred + [id], cap, op)
    {
      DeferShare(peers, seen, selected, deferred, cap, id, op);
    }
  }

  lemma DeferShare(peers: Peers, seen: seq<nat>, selected: seq<nat>, deferred: seq<nat>, cap: nat, id: nat, op: nat)
    requires ShareOk(peers, seen, selected, deferred, cap, op)
    ensures ShareOk(peers, seen + [id], selected, deferred + [id], cap, op)
  {
    CountSnoc(peers, seen, id, op);
    CountSnoc(peers, deferred, id, op);
  }

  lemma RepeatSnoc(s: seq<nat>, id: nat)
    requires NoRepeats(s) && id !in s
    ensures NoRepeats(s + [id])
  {
  }

  /** Taking a fresh candidate whose operator is below its cap. */
  lemma TakeKeeps(peers: Peers, seen: seq<nat>, selected: seq<nat>, deferred: seq<nat>, cap: nat, id: nat)
    requires Progress(peers, seen, selected, deferred, cap) && id in peers && id !in seen
    requires Count(peers, selected, peers[id].operator) < cap
    ensures Progress(peers, seen + [id], selected + [id], deferred, cap)
  {
    hide ShareOk;
    InsertFresh(selected, deferred, id);
    forall op
      ensures ShareOk(peers, seen + [id], selected + [id], deferred, cap, op)
    {
      TakeShare(peers, seen, selected, deferred, cap, id, op);
    }
  }

  lemma TakeShare(peers: Peers, seen: seq<nat>, selected: seq<nat>, deferred: seq<nat>, cap: nat, id: nat, op: nat)
    requires ShareOk(peers, seen, selected, deferred, cap, op) && id in peers
    requires Count(peers, selected, peers[id].operator) < cap
    ensures ShareOk(peers, seen + [id], selected + [id], deferred, cap, op)
  {
    CountSnoc(peers, seen, id, op);
    CountSnoc(peers, selected, id, op);
  }

  lemma InsertFresh(s: seq<nat>, t: seq<nat>, id: nat)
    requires NoRepeats(s + t) && id !in s && id !in t
    ensures NoRepeats(s + [id] + t)
  {
    var w, v := s + [id] + t, s + t;
    forall i, j | 0 <= i < j < |w|
      ensures w[i] != w[j]
    {
      if i != |s| && j != |s| {
        assert w[i] == v[if i < |s| then i else i - 1] && w[j] == v[if j < |s| then j else j - 1];
      }
    }
  }

  /** The first of those put off is taken, or passed over because its operator has used up its cap. */
  lemma TakeDeferred(peers: Peers, seen: seq<nat>, selected: seq<nat>, deferred: seq<nat>, cap: nat)
    requires deferred != [] && Progress(peers, seen, selected, deferred, cap)
    requires Count(peers, selected, peers[deferred[0]].operator) < cap
    ensures Progress(peers, seen, selected + [deferred[0]], deferred[1..], cap)
  {
    hide ShareOk;
    var id, rest := deferred[0], deferred[1..];
    assert selected + [id] + rest == selected + deferred;
    forall op
      ensures ShareOk(peers, seen, selected + [id], rest, cap, op)
    {
      CountSnoc(peers, selected, id, op);
      FirstShare(peers, deferred, op);
      TakenShare(peers, seen, selected, deferred, cap, op);
    }
  }

  lemma TakenShare(peers: Peers, seen: seq<nat>, selected: seq<nat>, deferred: seq<nat>, cap: nat, op: nat)
    requires deferred != [] && deferred[0] in peers && ShareOk(peers, seen, selected, deferred, cap, op)
    requires Count(peers, selected, peers[deferred[0]].operator) < cap
    ensures ShareOk(peers, seen, selected + [deferred[0]], deferred[1..], cap, op)
  {
    CountSnoc(peers, selected, deferred[0], op);
    FirstShare(peers, deferred, op);
  }

  lemma FirstShare(peers: Peers, s: seq<nat>, op: nat)
    requires s != []
    ensures Count(peers, s, op) == One(peers, s[0], op) + Count(peers, s[1..], op)
  {
    assert s == [s[0]] + s[1..];
    CountAppend(peers, [s[0]], s[1..], op);
    assert [s[0]][..0] == [] && Count(peers, [], op) == 0;
  }

  lemma DropDeferred(peers: Peers, seen: seq<nat>, selected: seq<nat>, deferred: seq<nat>, cap: nat)
    requires deferred != [] && Progress(peers, seen, selected, deferred, cap)
    requires Count(peers, selected, peers[deferred[0]].operator) >= cap
    ensures Progress(peers, seen, selected, deferred[1..], cap)
  {
    var rest := deferred[1..];
    DropRepeats(selected, deferred);
    forall op
      ensures ShareOk(peers, seen, selected, rest, cap, op)
    {
      FirstShare(peers, deferred, op);
      assert ShareOk(peers, seen, selected, deferred, cap, op);
    }
  }

  lemma DropRepeats(s: seq<nat>, t: seq<nat>)
    requires t != [] && NoRepeats(s + t)
    ensures NoRepeats(s + t[1..])
  {
    var w, v := s + t[1..], s + t;
    forall i, j | 0 <= i < j < |w|
      ensures w[i] != w[j]
    {
      assert w[i] == v[if i < |s| then i else i + 1] && w[j] == v[if j < |s| then j else j + 1];
    }
  }

  /** What a selection in progress amounts to. */
  lemma ProgressAdmissible(peers: Peers, ranked: seq<nat>, seen: seq<nat>, selected: seq<nat>, deferred: seq<nat>, cap: nat)
    requires Progress(peers, seen, selected, deferred, cap) && NoRepeats(ranked) && forall id :: id in seen ==> id in ranked
    ensures Admissible(peers, ranked, selected, cap) && |selected| <= Room(peers, ranked, cap)
  {
    forall i, j | 0 <= i < j < |selected|
      ensures selected[i] != selected[j]
    {
      assert (selected + deferred)[i] == selected[i] && (selected + deferred)[j] == selected[j];
    }
    forall i | 0 <= i < |selected|
      ensures selected[i] in ranked
    {
      assert selected[i] in selected + deferred;
    }
    forall op
      ensures Count(peers, selected, op) <= cap
    {
      assert ShareOk(peers, seen, selected, deferred, cap, op);
    }
    RoomIsBound(peers, ranked, selected, cap);
  }

  lemma NothingDeferred(peers: Peers, ranked: seq<nat>, selected: seq<nat>, cap: nat)
    requires Progress(peers, ranked, selected, [], cap)
    ensures |selected| == Room(peers, ranked, cap)
  {
    LengthIsTotal(peers, selected);
    forall op
      ensures Count(peers, selected, op) == Min(Count(peers, ranked, op), cap)
    {
      assert ShareOk(peers, ranked, selected, [], cap, op);
    }
    TotalLe(Operators(peers), CountIn(peers, selected), CappedIn(peers, ranked, cap));
    TotalLe(Operators(peers), CappedIn(peers, ranked, cap), CountIn(peers, selected));
  }

  /** As many distinct members as the size asks for and the cap allows, whether or not regions are spread first. The size
      is only compared after a candidate is taken, so asking for none is asking for one. */
  method PickMembers(peers: Peers, ranked: seq<nat>, size: nat, cap: nat, preferUniqueRegions: bool)
    returns (selected: seq<nat>)
    requires NoRepeats(ranked)
    ensures Admissible(peers, ranked, selected, cap)
    ensures |selected| == Min(Max(size, 1), Room(peers, ranked, cap))
    ensures selected <= Queue(peers, ranked, cap, preferUniqueRegions)
  {
    hide Progress, Tallied, Admissible, Room, Queue;
    selected := [];
    var deferred: seq<nat> := [];
    var byOperator: map<nat, nat> := map[];
    var usedRegions: set<nat> := {};
    StartPick(peers, cap);
    var i := 0;
    while i < |ranked|
      invariant 0 <= i <= |ranked| && |selected| < Max(size, 1)
      invariant Progress(peers, ranked[..i], selected, deferred, cap) && Tallied(peers, selected, byOperator)
      invariant selected == FirstPass(peers, ranked[..i], cap, preferUniqueRegions)
      invariant deferred == PutOff(peers, ranked[..i], cap, preferUniqueRegions)
      invariant forall region :: region in usedRegions <==> RegionUsed(peers, selected, region)
    {
      var id := ranked[i];
      assert ranked[..i + 1] == ranked[..i] + [id] && id !in ranked[..i];
      assert ranked[..i + 1][..i] == ranked[..i];
      i := i + 1;
      if id !in peers {
        SkipKeeps(peers, ranked[..i - 1], selected, deferred, cap, id);
        continue;
      }
      var peer := peers[id];
      TallyIs(peers, selected, byOperator, peer.operator);
      if Tally(byOperator, peer.operator) >= cap {
        SkipKeeps(peers, ranked[..i - 1], selected, deferred, cap, id);
        continue;
      }
      if preferUniqueRegions && peer.region in usedRegions {
        DeferKeeps(peers, ranked[..i - 1], selected, deferred, cap, id);
        deferred := deferred + [id];
        continue;
      }
      TakeKeeps(peers, ranked[..i - 1], selected, deferred, cap, id);
      TallyTake(peers, selected, byOperator, id);
      RegionsGrow(peers, selected, id);
      selected := selected + [id];
      byOperator := byOperator[peer.operator := Tally(byOperator, peer.operator) + 1];
      usedRegions := usedRegions + {peer.region};
      if |selected| >= size {
        ProgressAdmissible(peers, ranked, ranked[..i], selected, deferred, cap);
        StopInFirstPass(peers, ranked, i, cap, preferUniqueRegions, |selected|);
        return;
      }
    }
    assert ranked[..i] == ranked;
    QueueIs(peers, ranked, cap, preferUniqueRegions);
    selected := PickDeferred(peers, ranked, selected, deferred, byOperator, size, cap);
  }

  lemma QueueIs(peers: Peers, ranked: seq<nat>, cap: nat, unique: bool)
    ensures Queue(peers, ranked, cap, unique)
         == SecondPass(peers, FirstPass(peers, ranked, cap, unique), PutOff(peers, ranked, cap, unique), cap)
  {
  }

  lemma RegionsGrow(peers: Peers, selected: seq<nat>, id: nat)
    requires id in peers
    ensures forall region ::
      (RegionUsed(peers, selected + [id], region) <==> RegionUsed(peers, selected, region) || region == peers[id].region)
  {
    var more := selected + [id];
    forall region
      ensures RegionUsed(peers, more, region) <==> RegionUsed(peers, selected, region) || region == peers[id].region
    {
      if RegionUsed(peers, selected, region) {
        var i :| 0 <= i < |selected| && selected[i] in peers && peers[selected[i]].region == region;
        assert more[i] == selected[i];
      }
      if region == peers[id].region {
        assert more[|selected|] == id;
      }
    }
  }

  /** The second pass, over the candidates that were put off. */
  method PickDeferred(
    peers: Peers, ghost ranked: seq<nat>, selected0: seq<nat>, deferred: seq<nat>, byOperator0: map<nat, nat>, size: nat,
    cap: nat)
    returns (selected: seq<nat>)
    requires NoRepeats(ranked) && |selected0| < Max(size, 1)
    requires Progress(peers, ranked, selected0, deferred, cap) && Tallied(peers, selected0, byOperator0)
    ensures Admissible(peers, ranked, selected, cap)
    ensures |selected| == Min(Max(size, 1), Room(peers, ranked, cap))
    ensures selected <= SecondPass(peers, selected0, deferred, cap)
  {
    hide Progress, Tallied, Admissible, Room;
    selected := selected0;
    var byOperator: map<nat, nat> := byOperator0;
    var j := 0;
    while j < |deferred|
      invariant 0 <= j <= |deferred| && |selected| < Max(size, 1)
      invariant Progress(peers, ranked, selected, deferred[j..], cap) && Tallied(peers, selected, byOperator)
      invariant selected == SecondPass(peers, selected0, deferred[..j], cap)
    {
      assert deferred[..j + 1][..j] == deferred[..j];
      DeferredKnown(peers, ranked, selected, deferred[j..], cap);
      var id := deferred[j];
      assert deferred[j..][0] == id && deferred[j..][1..] == deferred[j + 1..];
      TallyIs(peers, selected, byOperator, peers[id].operator);
      j := j + 1;
      var operator := peers[id].operator;
      if Tally(byOperator, operator) >= cap {
        DropDeferred(peers, ranked, selected, deferred[j - 1..], cap);
        continue;
      }
      TakeDeferred(peers, ranked, selected, deferred[j - 1..], cap);
      TallyTake(peers, selected, byOperator, id);
      selected := selected + [id];
      byOperator := byOperator[operator := Tally(byOperator, operator) + 1];
      if |selected| >= size {
        ProgressAdmissible(peers, ranked, ranked, selected, deferred[j..], cap);
        SecondPassGrows(peers, selected0, deferred, j, cap);
        return;
      }
    }
    assert deferred[j..] == [] && deferred[..j] == deferred;
    ProgressAdmissible(peers, ranked, ranked, selected, [], cap);
    NothingDeferred(peers, ranked, selected, cap);
  }

  lemma DeferredKnown(peers: Peers, seen: seq<nat>, selected: seq<nat>, deferred: seq<nat>, cap: nat)
    requires Progress(peers, seen, selected, deferred, cap)
    ensures AllKnown(peers, deferred)
  {
  }

  lemma StartPick(peers: Peers, cap: nat)
    ensures Progress(peers, [], [], [], cap) && Tallied(peers, [], map[])
  {
  }

  lemma TallyIs(peers: Peers, selected: seq<nat>, byOperator: map<nat, nat>, op: nat)
    requires Tallied(peers, selected, byOperator)
    ensures Tally(byOperator, op) == Count(peers, selected, op)
  {
  }

  // ---------------------------------------------------------------------------------------------
  // Relaxing the cap
  // ---------------------------------------------------------------------------------------------

  /** The candidates the network knows. */
  function Known(peers: Peers, ranked: seq<nat>): (known: seq<nat>)
    ensures AllKnown(peers, known)
  {
    if ranked == [] then []
    else
      var last := ranked[|ranked| - 1];
      Known(peers, ranked[..|ranked| - 1]) + if last in peers then [last] else []
  }

  lemma {:induction false} KnownCounts(peers: Peers, ranked: seq<nat>, op: nat)
    ensures Count(peers, Known(peers, ranked), op) == Count(peers, ranked, op)
  {
    if ranked != [] {
      var front, last := ranked[..|ranked| - 1], ranked[|ranked| - 1];
      KnownCounts(peers, front, op);
      if last in peers {
        CountSnoc(peers, Known(peers, front), last, op);
      } else {
        assert Known(peers, ranked) == Known(peers, front);
      }
    }
  }

  lemma KnownTotal(peers: Peers, ranked: seq<nat>)
    ensures |Known(peers, ranked)| == Total(Operators(peers), CountIn(peers, ranked))
  {
    LengthIsTotal(peers, Known(peers, ranked));
    forall op
      ensures Count(peers, Known(peers, ranked), op) == Count(peers, ranked, op)
    {
      KnownCounts(peers, ranked, op);
    }
    TotalLe(Operators(peers), CountIn(peers, Known(peers, ranked)), CountIn(peers, ranked));
    TotalLe(Operators(peers), CountIn(peers, ranked), CountIn(peers, Known(peers, ranked)));
  }

  /** A cap of the committee's size is always loose enough, if there are enough candidates at all. */
  lemma LoosestCapSuffices(peers: Peers, ranked: seq<nat>, size: nat, cap: nat)
    requires cap >= size
    ensures |Known(peers, ranked)| >= size ==> Room(peers, ranked, cap) >= size
  {
    var ops := Operators(peers);
    KnownTotal(peers, ranked);
    if op :| op in ops && Count(peers, ranked, op) > cap {
      TotalRemove(ops, CappedIn(peers, ranked, cap), op);
      SumNonNegative(Each(ops - {op}), CappedIn(peers, ranked, cap));
    } else {
      TotalLe(ops, CountIn(peers, ranked), CappedIn(peers, ranked, cap));
    }
  }

  /** No cap conjures up candidates that are not there. */
  lemma RoomWithinKnown(peers: Peers, ranked: seq<nat>, cap: nat)
    ensures Room(peers, ranked, cap) <= |Known(peers, ranked)|
  {
    KnownTotal(peers, ranked);
    TotalLe(Operators(peers), CappedIn(peers, ranked, cap), CountIn(peers, ranked));
  }

  /** When there is room at all, so that asking for nobody yields somebody. */
  lemma RoomForOne(peers: Peers, ranked: seq<nat>, cap: nat)
    ensures Room(peers, ranked, cap) >= 1 <==> cap >= 1 && Known(peers, ranked) != []
  {
    RoomWithinKnown(peers, ranked, cap);
    if cap >= 1 {
      LoosestCapSuffices(peers, ranked, 1, cap);
    } else {
      TotalZero(Operators(peers), CappedIn(peers, ranked, cap));
    }
  }

  /** `cap` is the smallest one from the strict limit on under which a full committee exists. */
  ghost predicate SmallestCap(peers: Peers, ranked: seq<nat>, size: nat, strict: nat, cap: nat) {
    && strict <= cap <= Max(strict, size)
    && Room(peers, ranked, cap) >= size
    && forall m :: strict <= m < cap ==> Room(peers, ranked, m) < size
  }

  /** With enough known candidates: a full committee of distinct members under the smallest workable cap, whether or not
      regions are to be spread. With too few, the head of the ranking, unchecked. */
  method EnforceConstraints(peers: Peers, ranked: seq<nat>, size: nat, strict: nat, preferUniqueRegions: bool)
    returns (members: seq<nat>, ghost cap: nat)
    requires NoRepeats(ranked) && strict >= 1
    ensures |Known(peers, ranked)| < size ==> members == ranked[..Min(size, |ranked|)]
    ensures |Known(peers, ranked)| >= size >= 1 ==>
      |members| == size && SmallestCap(peers, ranked, size, strict, cap) && Admissible(peers, ranked, members, cap)
      && members <= Queue(peers, ranked, cap, preferUniqueRegions)
    ensures size == 0 ==> members == []
  {
    hide Room, Known, Admissible, Queue;
    cap := strict;
    var pass := 0;
    while pass < 2
      invariant 0 <= pass <= 2
      invariant pass > 0 ==> size >= 1 && |Known(peers, ranked)| < size
    {
      var prefer := preferUniqueRegions && pass == 0;
      var m := strict;
      while m <= Max(strict, size)
        invariant strict <= m <= Max(strict, size) + 1
        invariant forall n :: strict <= n < m ==> size >= 1 && Room(peers, ranked, n) < size
      {
        var selected := PickMembers(peers, ranked, size, m, prefer);
        if |selected| >= size {
          RoomWithinKnown(peers, ranked, m);
          cap := m;
          if size >= 1 {
            assert selected[..size] == selected;
          }
          return selected[..size], m;
        }
        m := m + 1;
      }
      LoosestCapSuffices(peers, ranked, size, Max(strict, size));
      assert Room(peers, ranked, Max(strict, size)) < size;
      pass := pass + 1;
    }
    return ranked[..Min(size, |ranked|)], cap;
  }

  /** Under a smaller cap than the one arrived at, nobody could have picked a full committee. */
  lemma SmallerCapsFail(peers: Peers, ranked: seq<nat>, size: nat, strict: nat, cap: nat, m: nat, s: seq<nat>)
    requires SmallestCap(peers, ranked, size, strict, cap) && strict <= m < cap && NoRepeats(ranked)
    requires Admissible(peers, ranked, s, m)
    ensures |s| < size
  {
    RoomIsBound(peers, ranked, s, m);
  }
}
