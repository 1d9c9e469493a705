/** Multi-hop payment routes over channels, searched from the receiver back to the sender. */
module PhantomRouting {
  import opened Arithmetic
  import opened Collections

  type Party = nat

  datatype Channel = Channel(
    id: nat, first: Party, second: Party, firstAvailable: int, secondAvailable: int, isOpen: bool, feeBase: nat, feePpm: nat)
  {
    predicate Has(p: Party) { p == first || p == second }

    function Other(p: Party): Party { if second == p then first else second }

    function Available(p: Party): int { if p == first then firstAvailable else secondAvailable }

    /** The base fee plus a rate in millionths, rounded up. */
    function RoutingFee(amount: nat): nat {
      feeBase + if feePpm == 0 then 0 else (amount * feePpm + 999_999) / 1_000_000
    }
  }

  /** Beyond the base fee a channel charges the least whole number that covers its rate, in millionths, of what it passes
      on, so no more for less, and never less than the base fee. */
  lemma FeeCoversRate(c: Channel, amount: nat, less: nat)
    requires less <= amount
    ensures var rated := c.RoutingFee(amount) - c.feeBase;
      && rated * 1_000_000 >= amount * c.feePpm
      && (forall fee: nat :: fee * 1_000_000 >= amount * c.feePpm ==> rated <= fee)
      && 0 <= c.RoutingFee(less) - c.feeBase <= rated
  {
    assert c.feePpm == 0 ==> amount * c.feePpm == 0;
    assert less * c.feePpm <= amount * c.feePpm by {
      MulLe(c.feePpm, less, amount);
    }
  }

  /** Each of the two parties spends from its own side and meets the other one. */
  lemma SidesOf(c: Channel)
    requires c.first != c.second
    ensures c.Available(c.first) == c.firstAvailable && c.Other(c.first) == c.second
    ensures c.Available(c.second) == c.secondAvailable && c.Other(c.second) == c.first
    ensures forall p :: c.Has(p) ==> c.Has(c.Other(p)) && c.Other(p) != p && c.Other(c.Other(p)) == p
  {
  }

  type Channels = map<nat, Channel>

  /** Channels are filed under their own identifier and join two different parties. */
  predicate Filed(channels: Channels) {
    forall id :: id in channels ==> channels[id].id == id && channels[id].first != channels[id].second
  }

  datatype Hop = Hop(channel: nat, sender: Party, receiver: Party, amount: nat, fee: nat)

  datatype Candidate = Candidate(score: nat, hopCount: nat, required: nat, node: Party, path: seq<Hop>)

  datatype Route = NoRoute | Found(total: nat, hops: seq<Hop>)

  // ---------------------------------------------------------------------------------------------
  // What a route must satisfy
  // ---------------------------------------------------------------------------------------------

  /** A hop over an open channel between its two ends, paid for by its sender, charging the channel's fee on what it
      passes on. */
  predicate HopOk(channels: Channels, hop: Hop, passedOn: nat) {
    && hop.channel in channels
    && var c := channels[hop.channel];
    && c.isOpen && c.Has(hop.sender) && c.Has(hop.receiver) && hop.sender != hop.receiver
    && hop.fee == c.RoutingFee(passedOn) && hop.amount == passedOn + hop.fee
    && c.Available(hop.sender) >= hop.amount
  }

  /** From `from`, paying in `required`, the hops deliver `amount` to the receiver. */
  predicate Delivers(channels: Channels, hops: seq<Hop>, from: Party, required: nat, receiver: Party, amount: nat) {
    if hops == [] then from == receiver && required == amount
    else
      && hops[0].sender == from && hops[0].amount == required && hops[0].fee <= required
      && HopOk(channels, hops[0], required - hops[0].fee)
      && Delivers(channels, hops[1..], hops[0].receiver, required - hops[0].fee, receiver, amount)
  }

  /** The parties along a route after the first. */
  function Receivers(hops: seq<Hop>): seq<Party> {
    if hops == [] then [] else [hops[0].receiver] + Receivers(hops[1..])
  }

  function Fees(hops: seq<Hop>): nat {
    if hops == [] then 0 else hops[0].fee + Fees(hops[1..])
  }

  /** The sender pays the amount and every fee on the way. */
  lemma {:induction false} FeesAddUp(
    channels: Channels, hops: seq<Hop>, from: Party, required: nat, receiver: Party, amount: nat)
    requires Delivers(channels, hops, from, required, receiver, amount)
    ensures required == amount + Fees(hops)
  {
    if hops != [] {
      FeesAddUp(channels, hops[1..], hops[0].receiver, required - hops[0].fee, receiver, amount);
    }
  }

  /** Parties a candidate has visited, its own node included. */
  function Visited(c: Candidate): set<Party> {
    {c.node} + (set h | h in c.path :: h.sender) + (set h | h in c.path :: h.receiver)
  }

  /** A candidate is a deliverable route from its node on, without repeated parties; the sender can only be its head. */
  predicate CandidateOk(channels: Channels, c: Candidate, sender: Party, receiver: Party, amount: nat) {
    && Delivers(channels, c.path, c.node, c.required, receiver, amount)
    && |c.path| == c.hopCount
    && NoRepeats([c.node] + Receivers(c.path)) && sender !in Receivers(c.path)
  }

  lemma {:induction false} VisitedIsPath(
    channels: Channels, hops: seq<Hop>, from: Party, required: nat, receiver: Party, amount: nat)
    requires Delivers(channels, hops, from, required, receiver, amount)
    ensures forall p :: p in Receivers(hops) <==> p in set h | h in hops :: h.receiver
    ensures forall h :: h in hops ==> h.sender == from || h.sender in Receivers(hops)
  {
    if hops != [] {
      assert hops == [hops[0]] + hops[1..];
      VisitedIsPath(channels, hops[1..], hops[0].receiver, required - hops[0].fee, receiver, amount);
    }
  }

  lemma VisitedParties(channels: Channels, c: Candidate, sender: Party, receiver: Party, amount: nat)
    requires CandidateOk(channels, c, sender, receiver, amount)
    ensures forall p :: p in Visited(c) <==> p == c.node || p in Receivers(c.path)
  {
    VisitedIsPath(channels, c.path, c.node, c.required, receiver, amount);
  }

  // ---------------------------------------------------------------------------------------------
  // One step of the search
  // ---------------------------------------------------------------------------------------------

  function Extend(c: Candidate, ch: Channel): Candidate {
    var neighbor, fee := ch.Other(c.node), ch.RoutingFee(c.required);
    var required := c.required + fee;
    var spare := if ch.Available(neighbor) > required then ch.Available(neighbor) - required else 0;
    Candidate(c.score + fee * 1_000 + 100 + 1_000_000 / (spare + 1), c.hopCount + 1, required, neighbor,
              [Hop(ch.id, neighbor, c.node, required, fee)] + c.path)
  }

  predicate Usable(channels: Channels, c: Candidate, ch: Channel, sender: Party) {
    && ch.id in channels && channels[ch.id] == ch && ch.isOpen && ch.Has(c.node)
    && (ch.Other(c.node) !in Visited(c) || ch.Other(c.node) == sender)
    && ch.Available(ch.Other(c.node)) >= c.required + ch.RoutingFee(c.required)
  }

  lemma ExtendOk(channels: Channels, c: Candidate, ch: Channel, sender: Party, receiver: Party, amount: nat)
    requires Filed(channels) && CandidateOk(channels, c, sender, receiver, amount) && c.node != sender
    requires Usable(channels, c, ch, sender)
    ensures CandidateOk(channels, Extend(c, ch), sender, receiver, amount)
  {
    var e := Extend(c, ch);
    VisitedParties(channels, c, sender, receiver, amount);
    assert e.path[1..] == c.path && e.path[0] == Hop(ch.id, e.node, c.node, e.required, ch.RoutingFee(c.required));
    assert Receivers(e.path) == [c.node] + Receivers(c.path);
    assert e.node !in [c.node] + Receivers(c.path);
  }

  // ---------------------------------------------------------------------------------------------
  // Termination: a candidate outweighs all it can give rise to
  // ---------------------------------------------------------------------------------------------

  function Weight(c: Candidate, base: nat, maxHops: nat): nat {
    if c.hopCount <= maxHops then Power(base, maxHops - c.hopCount) else 0
  }

  function TotalWeight(heap: seq<Candidate>, base: nat, maxHops: nat): nat {
    if heap == [] then 0
    else TotalWeight(heap[..|heap| - 1], base, maxHops) + Weight(heap[|heap| - 1], base, maxHops)
  }

  lemma WeightSnoc(heap: seq<Candidate>, c: Candidate, base: nat, maxHops: nat)
    ensures TotalWeight(heap + [c], base, maxHops) == TotalWeight(heap, base, maxHops) + Weight(c, base, maxHops)
  {
    assert (heap + [c])[..|heap|] == heap;
  }

  lemma {:induction false} WeightRemove(heap: seq<Candidate>, i: nat, base: nat, maxHops: nat)
    requires i < |heap|
    ensures TotalWeight(heap[..i] + heap[i + 1..], base, maxHops)
         == TotalWeight(heap, base, maxHops) - Weight(heap[i], base, maxHops)
    decreases |heap|
  {
    hide Weight;
    var last := |heap| - 1;
    if i == last {
      assert heap[..i] + heap[i + 1..] == heap[..last];
    } else {
      WeightRemove(heap[..last], i, base, maxHops);
      assert heap[..i] + heap[i + 1..] == (heap[..last][..i] + heap[..last][i + 1..]) + [heap[last]];
      WeightSnoc(heap[..last][..i] + heap[..last][i + 1..], heap[last], base, maxHops);
    }
  }

  // ---------------------------------------------------------------------------------------------
  // The search
  // ---------------------------------------------------------------------------------------------

  /** Candidates are compared by score, then hops, then amount. */
  datatype Rank = Rank(score: nat, hops: nat, required: nat)

  function RankOf(c: Candidate): Rank {
    Rank(c.score, c.hopCount, c.required)
  }

  /** Lexicographic order on lists of channels. */
  predicate Less(a: seq<nat>, b: seq<nat>) {
    b != [] && (a == [] || a[0] < b[0] || (a[0] == b[0] && Less(a[1..], b[1..])))
  }

  function ChannelsOf(path: seq<Hop>): seq<nat> {
    seq(|path|, i requires 0 <= i < |path| => path[i].channel)
  }

  /** The order of the heap: by rank, and by the channels of the path among equals. */
  predicate Ahead(a: Candidate, b: Candidate) {
    Before(RankOf(a), RankOf(b)) || (RankOf(a) == RankOf(b) && Less(ChannelsOf(a.path), ChannelsOf(b.path)))
  }

  lemma {:induction false} LessTrans(a: seq<nat>, b: seq<nat>, c: seq<nat>)
    requires Less(a, b) && Less(b, c)
    ensures Less(a, c)
    decreases |b|
  {
    if a != [] && a[0] == b[0] == c[0] {
      LessTrans(a[1..], b[1..], c[1..]);
    }
  }

  /** Whatever is not ahead of a candidate is not ahead of one that is. */
  lemma AheadChain(a: Candidate, b: Candidate, c: Candidate)
    requires Ahead(a, b) && !Ahead(c, b)
    ensures !Ahead(c, a)
  {
    hide ChannelsOf;
    if Ahead(c, a) && RankOf(a) == RankOf(b) == RankOf(c) {
      LessTrans(ChannelsOf(c.path), ChannelsOf(a.path), ChannelsOf(b.path));
    }
  }

  predicate Before(a: Rank, b: Rank) {
    a.score < b.score || (a.score == b.score && (a.hops < b.hops || (a.hops == b.hops && a.required < b.required)))
  }

  type Best = map<Party, Rank>

  ghost predicate HeapOk(
    channels: Channels, heap: seq<Candidate>, sender: Party, receiver: Party, amount: nat, maxHops: nat)
  {
    forall i :: 0 <= i < |heap| ==> CandidateOk(channels, heap[i], sender, receiver, amount) && heap[i].hopCount <= maxHops
  }

  /** If a party has been reached, the best way to it is still waiting. */
  ghost predicate Waits(heap: seq<Candidate>, best: Best, p: Party) {
    p in best ==> exists i :: 0 <= i < |heap| && heap[i].node == p && RankOf(heap[i]) == best[p]
  }

  /** Everybody on the way of a waiting candidate has been reached. */
  ghost predicate PathsKnown(heap: seq<Candidate>, best: Best, receiver: Party) {
    forall i :: 0 <= i < |heap| ==> PathKnown(heap[i], best, receiver)
  }

  predicate PathKnown(c: Candidate, best: Best, receiver: Party) {
    forall p :: p in [c.node] + Receivers(c.path) ==> p == receiver || p in best
  }

  /** One hop from sender to receiver that can carry the amount and its fee. */
  predicate Direct(ch: Channel, sender: Party, receiver: Party, amount: nat) {
    && ch.isOpen && ch.Has(receiver) && ch.Other(receiver) == sender
    && ch.Available(sender) >= amount + ch.RoutingFee(amount)
  }

  /** The channels filed under some identifiers that are open and touch a party, in the order of the identifiers. */
  function Touching(channels: Channels, ids: seq<nat>, p: Party): (list: seq<Channel>)
    requires forall id :: id in ids ==> id in channels
    ensures |list| <= |ids|
    ensures forall ch :: ch in list <==> exists id :: id in ids && channels[id] == ch && ch.isOpen && ch.Has(p)
  {
    if ids == [] then []
    else
      var ch, rest := channels[ids[0]], Touching(channels, ids[1..], p);
      assert ids == [ids[0]] + ids[1..];
      if ch.isOpen && ch.Has(p) then [ch] + rest else rest
  }

  ghost predicate Listed(channels: Channels, p: Party, list: seq<Channel>) {
    exists order: seq<nat> ::
      && Ascending(order) && Elements(order) == channels.Keys && (forall id :: id in order ==> id in channels)
      && list == Touching(channels, order, p)
  }

  /** The open channels of a party, by identifier. */
  method ChannelsFor(channels: Channels, p: Party) returns (list: seq<Channel>)
    requires Filed(channels)
    ensures Listed(channels, p, list)
  {
    var order := Ascend(channels.Keys);
    KeysOf(channels, order);
    list := [];
    for i := 0 to |order|
      invariant list + Touching(channels, order[i..], p) == Touching(channels, order, p)
    {
      assert order[i..][0] == order[i] && order[i..][1..] == order[i + 1..];
      if channels[order[i]].isOpen && channels[order[i]].Has(p) {
        list := list + [channels[order[i]]];
      }
    }
    assert order[|order|..] == [];
  }

  lemma KeysOf(channels: Channels, order: seq<nat>)
    requires Elements(order) == channels.Keys
    ensures forall id :: id in order <==> id in channels
  {
    forall id
      ensures id in order <==> id in channels
    {
      InElements(order, id);
    }
  }

  /** Takes the candidate that is ahead out of the heap. */
  method Pop(heap: seq<Candidate>) returns (c: Candidate, rest: seq<Candidate>, ghost at: nat)
    requires heap != []
    ensures at < |heap| && c == heap[at] && rest == heap[..at] + heap[at + 1..]
    ensures forall i :: 0 <= i < |heap| ==> !Ahead(heap[i], c)
  {
    hide Ahead;
    var m := 0;
    NotAhead(heap[0]);
    for i := 1 to |heap|
      invariant m < |heap| && forall j :: 0 <= j < i ==> !Ahead(heap[j], heap[m])
    {
      if Ahead(heap[i], heap[m]) {
        forall j | 0 <= j < i
          ensures !Ahead(heap[j], heap[i])
        {
          AheadChain(heap[i], heap[m], heap[j]);
        }
        m := i;
        NotAhead(heap[m]);
      }
    }
    return heap[m], heap[..m] + heap[m + 1..], m;
  }

  lemma NotAhead(c: Candidate)
    ensures !Ahead(c, c)
  {
    NotLess(ChannelsOf(c.path));
  }

  lemma {:induction false} NotLess(a: seq<nat>)
    ensures !Less(a, a)
  {
    if a != [] {
      NotLess(a[1..]);
    }
  }

  /** Nobody reached is forgotten, and whoever is new, or was waiting, waits. */
  ghost predicate KeepsWaiting(heap0: seq<Candidate>, best0: Best, heap: seq<Candidate>, best: Best) {
    && best0.Keys <= best.Keys
    && (forall p :: Waits(heap0, best0, p) ==> Waits(heap, best, p))
    && forall p :: p in best ==> p in best0 || Waits(heap, best, p)
  }

  lemma WaitingSame(heap: seq<Candidate>, best: Best)
    ensures KeepsWaiting(heap, best, heap, best)
  {
  }

  lemma PushKeepsWaiting(heap0: seq<Candidate>, best0: Best, heap: seq<Candidate>, best: Best, next: Candidate)
    requires KeepsWaiting(heap0, best0, heap, best)
    ensures KeepsWaiting(heap0, best0, heap + [next], best[next.node := RankOf(next)])
  {
    hide Waits;
    var longer, better := heap + [next], best[next.node := RankOf(next)];
    forall p | Waits(heap, best, p) || p == next.node
      ensures Waits(longer, better, p)
    {
      PushWaits(heap, best, p, next);
    }
    assert better.Keys == best.Keys + {next.node};
    forall p | p in better
      ensures p in best0 || Waits(longer, better, p)
    {
      if p != next.node {
        assert p in best;
      }
    }
  }

  // ---------------------------------------------------------------------------------------------
  // Scores
  // ---------------------------------------------------------------------------------------------

  /** What a hop adds to the score: its fee, a flat part, and more the less its sender has left. */
  function HopStrain(ch: Channel, hop: Hop): nat {
    var left := ch.Available(hop.sender) - hop.amount;
    hop.fee * 1_000 + 100 + 1_000_000 / ((if left > 0 then left else 0) + 1)
  }

  function Strain(channels: Channels, hops: seq<Hop>): nat {
    if hops == [] then 0
    else (if hops[0].channel in channels then HopStrain(channels[hops[0].channel], hops[0]) else 0) + Strain(channels, hops[1..])
  }

  /** The score is that of the path; nobody on it has been reached at a higher score, and its head no worse. */
  ghost predicate Fair(channels: Channels, c: Candidate, best: Best, receiver: Party) {
    && c.score == Strain(channels, c.path)
    && (c.node != receiver ==> c.node in best && !Before(RankOf(c), best[c.node]))
    && forall p :: p in Receivers(c.path) && p != receiver ==> p in best && best[p].score <= c.score
  }

  ghost predicate AllFair(channels: Channels, heap: seq<Candidate>, best: Best, receiver: Party) {
    forall i :: 0 <= i < |heap| ==> Fair(channels, heap[i], best, receiver)
  }

  /** From one candidate on, scores only fell, and only to values above its own; whatever is new in the heap is above it. */
  ghost predicate Above(score: nat, heap0: seq<Candidate>, best0: Best, heap: seq<Candidate>, best: Best) {
    && (forall p :: p in best0 ==>
          p in best && best[p].score <= best0[p].score && (best0[p].score <= score ==> best[p].score == best0[p].score))
    && |heap0| <= |heap| && heap[..|heap0|] == heap0
    && forall i :: |heap0| <= i < |heap| ==> heap[i].score >= score
  }

  lemma AboveSelf(score: nat, heap: seq<Candidate>, best: Best)
    ensures Above(score, heap, best, heap, best)
  {
  }

  lemma ExtendStrain(channels: Channels, c: Candidate, ch: Channel, sender: Party)
    requires Usable(channels, c, ch, sender)
    ensures var e := Extend(c, ch);
      && e.score == c.score + HopStrain(ch, e.path[0]) && e.score >= c.score + 100
      && Strain(channels, e.path) == HopStrain(ch, e.path[0]) + Strain(channels, c.path)
      && Receivers(e.path) == [c.node] + Receivers(c.path)
  {
    hide Visited;
    var e := Extend(c, ch);
    assert e.path[1..] == c.path && e.path[0] == Hop(ch.id, e.node, c.node, e.required, ch.RoutingFee(c.required));
  }

  lemma FairStays(channels: Channels, c: Candidate, best: Best, better: Best, receiver: Party, p: Party)
    requires Fair(channels, c, best, receiver) && p in better && better == best[p := better[p]]
    requires p in best ==> Before(better[p], best[p])
    ensures Fair(channels, c, better, receiver)
  {
    hide Strain, Receivers;
  }

  lemma ExtendFair(channels: Channels, c: Candidate, ch: Channel, sender: Party, best: Best, receiver: Party)
    requires Usable(channels, c, ch, sender) && Fair(channels, c, best, receiver)
    requires var next := Extend(c, ch); next.node in best && best[next.node] == RankOf(next)
    ensures Fair(channels, Extend(c, ch), best, receiver)
  {
    hide Usable, Strain, HopStrain, Extend;
    ExtendStrain(channels, c, ch, sender);
    RankIrreflexive(RankOf(Extend(c, ch)));
  }

  lemma RankIrreflexive(a: Rank)
    ensures !Before(a, a)
  {
  }

  lemma PushFair(
    channels: Channels, c: Candidate, ch: Channel, sender: Party, receiver: Party, heap0: seq<Candidate>, best0: Best,
    heap: seq<Candidate>, best: Best)
    requires Usable(channels, c, ch, sender) && Fair(channels, c, best, receiver) && AllFair(channels, heap, best, receiver)
    requires Above(c.score, heap0, best0, heap, best)
    requires ch.Other(c.node) in best ==> Before(RankOf(Extend(c, ch)), best[ch.Other(c.node)])
    ensures var next := Extend(c, ch); var better := best[next.node := RankOf(next)];
      && Fair(channels, c, better, receiver) && AllFair(channels, heap + [next], better, receiver)
      && Above(c.score, heap0, best0, heap + [next], better)
  {
    hide Usable, Strain, Receivers, HopStrain, Fair;
    var next := Extend(c, ch);
    var better := best[next.node := RankOf(next)];
    ExtendStrain(channels, c, ch, sender);
    FairStays(channels, c, best, better, receiver, next.node);
    forall i | 0 <= i < |heap|
      ensures Fair(channels, heap[i], better, receiver)
    {
      FairStays(channels, heap[i], best, better, receiver, next.node);
    }
    ExtendFair(channels, c, ch, sender, better, receiver);
  }

  /** Tries every channel at the candidate's node. */
  method Expand(
    channels: Channels, c: Candidate, heap0: seq<Candidate>, best0: Best, sender: Party, ghost receiver: Party,
    ghost amount: nat, ghost maxHops: nat)
    returns (heap: seq<Candidate>, best: Best)
    requires Filed(channels) && CandidateOk(channels, c, sender, receiver, amount) && c.node != sender
    requires c.hopCount < maxHops
    requires HeapOk(channels, heap0, sender, receiver, amount, maxHops)
    requires PathsKnown(heap0, best0, receiver) && PathKnown(c, best0, receiver)
    requires AllFair(channels, heap0, best0, receiver) && Fair(channels, c, best0, receiver)
    ensures HeapOk(channels, heap, sender, receiver, amount, maxHops) && PathsKnown(heap, best, receiver)
    ensures var base := |channels| + 1;
      TotalWeight(heap, base, maxHops) < TotalWeight(heap0, base, maxHops) + Weight(c, base, maxHops)
    ensures KeepsWaiting(heap0, best0, heap, best)
    ensures forall id :: id in channels && Usable(channels, c, channels[id], sender) ==> Relaxed(c, channels[id], best)
    ensures AllFair(channels, heap, best, receiver) && Above(c.score, heap0, best0, heap, best)
  {
    hide CandidateOk, Visited, Extend, TotalWeight, Weight, Usable, Waits, KeepsWaiting, Before, PathKnown, Listed, Fair, AllFair,
      Above, Relaxed;
    WaitingSame(heap0, best0);
    AboveSelf(c.score, heap0, best0);
    heap, best := heap0, best0;
    var list := ChannelsFor(channels, c.node);
    ListedMeans(channels, c.node, list);
    ghost var base := |channels| + 1;
    ghost var unit := Power(base, maxHops - c.hopCount - 1);
    var i := 0;
    while i < |list|
      invariant 0 <= i <= |list|
      invariant HeapOk(channels, heap, sender, receiver, amount, maxHops)
      invariant PathsKnown(heap, best, receiver) && PathKnown(c, best, receiver)
      invariant TotalWeight(heap, base, maxHops) <= TotalWeight(heap0, base, maxHops) + i * unit
      invariant KeepsWaiting(heap0, best0, heap, best)
      invariant forall j :: 0 <= j < i && Usable(channels, c, list[j], sender) ==> Relaxed(c, list[j], best)
      invariant AllFair(channels, heap, best, receiver) && Fair(channels, c, best, receiver)
      invariant Above(c.score, heap0, best0, heap, best)
    {
      var ch := list[i];
      assert ch in list;
      OneMoreUnit(i, unit);
      i := i + 1;
      UsableMeans(channels, c, ch, sender);
      var neighbor := ch.Other(c.node);
      if neighbor in Visited(c) && neighbor != sender {
        continue;
      }
      if ch.Available(neighbor) < c.required + ch.RoutingFee(c.required) {
        continue;
      }
      var next := Extend(c, ch);
      ExtendOk(channels, c, ch, sender, receiver, amount);
      ExtendFrame(c, ch, base, maxHops);
      if neighbor in best && !Before(RankOf(next), best[neighbor]) {
        AlreadyRelaxed(c, ch, best);
        continue;
      }
      PushFair(channels, c, ch, sender, receiver, heap0, best0, heap, best);
      forall j | 0 <= j < i && Usable(channels, c, list[j], sender)
        ensures Relaxed(c, list[j], best[neighbor := RankOf(next)])
      {
        StillRelaxed(c, list[j], ch, best);
      }
      WeightSnoc(heap, next, base, maxHops);
      PushKeepsWaiting(heap0, best0, heap, best, next);
      PushKnown(heap, best, receiver, c, ch);
      best := best[neighbor := RankOf(next)];
      heap := heap + [next];
    }
    AllUnits(|list|, |channels|, unit);
    WeightOf(c, base, maxHops);
    PowerPositive(base, maxHops - c.hopCount - 1);
    forall id | id in channels && Usable(channels, c, channels[id], sender)
      ensures Relaxed(c, channels[id], best)
    {
      UsableMeans(channels, c, channels[id], sender);
      assert channels[id] in list;
    }
  }

  /** The other party has been reached at no higher a score than through this channel. */
  predicate Relaxed(c: Candidate, ch: Channel, best: Best) {
    ch.Other(c.node) in best && best[ch.Other(c.node)].score <= Extend(c, ch).score
  }

  lemma AlreadyRelaxed(c: Candidate, ch: Channel, best: Best)
    requires ch.Other(c.node) in best && !Before(RankOf(Extend(c, ch)), best[ch.Other(c.node)])
    ensures Relaxed(c, ch, best)
  {
    hide Extend;
  }

  lemma StillRelaxed(c: Candidate, earlier: Channel, ch: Channel, best: Best)
    requires earlier == ch || Relaxed(c, earlier, best)
    requires ch.Other(c.node) in best ==> Before(RankOf(Extend(c, ch)), best[ch.Other(c.node)])
    ensures Relaxed(c, earlier, best[ch.Other(c.node) := RankOf(Extend(c, ch))])
  {
  }

  lemma ListedMeans(channels: Channels, p: Party, list: seq<Channel>)
    requires Filed(channels) && Listed(channels, p, list)
    ensures |list| <= |channels|
    ensures forall ch :: ch in list <==> ch.id in channels && channels[ch.id] == ch && ch.isOpen && ch.Has(p)
  {
    var order: seq<nat> :| && Ascending(order) && Elements(order) == channels.Keys && (forall id :: id in order ==> id in channels)
      && list == Touching(channels, order, p);
    DistinctSize(order);
    KeysOf(channels, order);
  }

  lemma PushKnown(heap: seq<Candidate>, best: Best, receiver: Party, c: Candidate, ch: Channel)
    requires PathsKnown(heap, best, receiver) && PathKnown(c, best, receiver)
    ensures var next := Extend(c, ch);
      var more := best[next.node := RankOf(next)]; PathsKnown(heap + [next], more, receiver) && PathKnown(c, more, receiver)
  {
    var next := Extend(c, ch);
    assert next.path[1..] == c.path && next.path[0].receiver == c.node;
    assert Receivers(next.path) == [c.node] + Receivers(c.path);
  }

  lemma OneMoreUnit(i: nat, unit: nat)
    ensures (i + 1) * unit == i * unit + unit
  {
  }

  lemma AllUnits(n: nat, all: nat, unit: nat)
    requires n <= all
    ensures n * unit + unit <= (all + 1) * unit
  {
    assert (all + 1) * unit == n * unit + unit + (all - n) * unit;
  }

  lemma WeightOf(c: Candidate, base: nat, maxHops: nat)
    requires c.hopCount < maxHops
    ensures Weight(c, base, maxHops) == base * Power(base, maxHops - c.hopCount - 1)
  {
  }

  lemma UsableMeans(channels: Channels, c: Candidate, ch: Channel, sender: Party)
    ensures Usable(channels, c, ch, sender) <==>
      && ch.id in channels && channels[ch.id] == ch && ch.isOpen && ch.Has(c.node)
      && (ch.Other(c.node) !in Visited(c) || ch.Other(c.node) == sender)
      && ch.Available(ch.Other(c.node)) >= c.required + ch.RoutingFee(c.required)
  {
    hide Visited;
  }

  lemma ExtendFrame(c: Candidate, ch: Channel, base: nat, maxHops: nat)
    requires c.hopCount < maxHops
    ensures Extend(c, ch).node == ch.Other(c.node) && Extend(c, ch).hopCount == c.hopCount + 1
    ensures Weight(Extend(c, ch), base, maxHops) == Power(base, maxHops - c.hopCount - 1)
  {
  }

  lemma PushWaits(heap: seq<Candidate>, best: Best, sender: Party, next: Candidate)
    requires Waits(heap, best, sender) || sender == next.node
    ensures Waits(heap + [next], best[next.node := RankOf(next)], sender)
  {
    var longer := heap + [next];
    if next.node == sender {
      assert longer[|heap|] == next;
    } else if sender in best {
      var i :| 0 <= i < |heap| && heap[i].node == sender && RankOf(heap[i]) == best[sender];
      assert longer[i] == heap[i];
    }
  }

  /** Dropping a candidate that is not the best way to the sender. */
  lemma DropWaits(heap: seq<Candidate>, best: Best, sender: Party, at: nat)
    requires Waits(heap, best, sender) && at < |heap|
    requires heap[at].node == sender ==> sender !in best || best[sender] != RankOf(heap[at])
    ensures Waits(heap[..at] + heap[at + 1..], best, sender)
  {
    var rest := heap[..at] + heap[at + 1..];
    if sender in best {
      var i :| 0 <= i < |heap| && heap[i].node == sender && RankOf(heap[i]) == best[sender];
      assert i != at && rest[if i < at then i else i - 1] == heap[i];
    }
  }

  lemma PopHeap(
    channels: Channels, heap: seq<Candidate>, at: nat, sender: Party, receiver: Party, amount: nat, maxHops: nat)
    requires HeapOk(channels, heap, sender, receiver, amount, maxHops) && at < |heap|
    ensures HeapOk(channels, heap[..at] + heap[at + 1..], sender, receiver, amount, maxHops)
    ensures var base := |channels| + 1;
      && TotalWeight(heap[..at] + heap[at + 1..], base, maxHops) + Weight(heap[at], base, maxHops)
         == TotalWeight(heap, base, maxHops)
      && Weight(heap[at], base, maxHops) >= 1
  {
    hide CandidateOk, TotalWeight;
    var base := |channels| + 1;
    WeightRemove(heap, at, base, maxHops);
    PowerPositive(base, maxHops - heap[at].hopCount);
    var rest := heap[..at] + heap[at + 1..];
    forall i | 0 <= i < |rest|
      ensures CandidateOk(channels, rest[i], sender, receiver, amount) && rest[i].hopCount <= maxHops
    {
      assert rest[i] == heap[if i < at then i else i + 1];
    }
  }

  /** A found route pays for itself hop by hop and visits nobody twice. */
  predicate Sound(channels: Channels, r: Route, sender: Party, receiver: Party, amount: nat, maxHops: nat)
    requires r.Found?
  {
    && Delivers(channels, r.hops, sender, r.total, receiver, amount)
    && NoRepeats([sender] + Receivers(r.hops)) && |r.hops| <= maxHops
  }

  predicate SoundRequest(channels: Channels, r: Route, sender: Party, receiver: Party, amount: int, maxHops: int)
    requires r.Found?
  {
    && amount > 0 && sender != receiver && maxHops >= 0
    && Sound(channels, r, sender, receiver, amount, maxHops) && r.total == amount + Fees(r.hops)
  }

  /** A well-formed request that one channel could serve. */
  predicate DirectExists(channels: Channels, sender: Party, receiver: Party, amount: int, maxHops: int) {
    && amount > 0 && sender != receiver && maxHops >= 1
    && exists id :: id in channels && Direct(channels[id], sender, receiver, amount)
  }

  // ---------------------------------------------------------------------------------------------
  // Which requests have a route
  // ---------------------------------------------------------------------------------------------

  /** Some open channel lets `from` pay the amount to `to`. */
  predicate Pays(channels: Channels, amount: int, from: Party, to: Party) {
    exists id :: id in channels && Carries(channels[id], amount, from, to)
  }

  predicate Carries(ch: Channel, amount: int, from: Party, to: Party) {
    ch.isOpen && ch.Has(from) && ch.Has(to) && from != to && ch.Available(from) >= amount
  }

  predicate Walk(channels: Channels, amount: int, parties: seq<Party>) {
    forall i :: 0 <= i < |parties| - 1 ==> Pays(channels, amount, parties[i], parties[i + 1])
  }

  /** Balances that cover the amount lead from the sender to the receiver. */
  ghost predicate Reaches(channels: Channels, sender: Party, receiver: Party, amount: int) {
    exists p :: p != [] && p[0] == sender && p[|p| - 1] == receiver && Walk(channels, amount, p)
  }

  function Parties(channels: Channels): set<Party> {
    (set id | id in channels :: channels[id].first) + (set id | id in channels :: channels[id].second)
  }

  /** No channel charges a fee, and the hop limit leaves room for a walk through everybody. */
  predicate Unhindered(channels: Channels, maxHops: int) {
    && (forall id :: id in channels ==> channels[id].feeBase == 0 && channels[id].feePpm == 0)
    && |Parties(channels)| <= maxHops + 1
  }

  /** A route found is such a walk, fees or not. */
  lemma {:induction false} RouteIsWalk(
    channels: Channels, hops: seq<Hop>, from: Party, required: nat, receiver: Party, amount: nat)
    requires Delivers(channels, hops, from, required, receiver, amount)
    ensures var p := [from] + Receivers(hops);
      p[|p| - 1] == receiver && Walk(channels, amount, p)
  {
    if hops != [] {
      var next := hops[0].receiver;
      RouteIsWalk(channels, hops[1..], next, required - hops[0].fee, receiver, amount);
      FeesAddUp(channels, hops, from, required, receiver, amount);
      var p, rest := [from] + Receivers(hops), [next] + Receivers(hops[1..]);
      assert p == [from] + rest;
      assert Carries(channels[hops[0].channel], amount, from, next);
      forall i | 0 <= i < |p| - 1
        ensures Pays(channels, amount, p[i], p[i + 1])
      {
        if i > 0 {
          assert Pays(channels, amount, rest[i - 1], rest[i]);
        }
      }
    }
  }

  lemma FoundReaches(channels: Channels, r: Route, sender: Party, receiver: Party, amount: int, maxHops: int)
    requires r.Found? && SoundRequest(channels, r, sender, receiver, amount, maxHops)
    ensures Reaches(channels, sender, receiver, amount)
  {
    RouteIsWalk(channels, r.hops, sender, r.total, receiver, amount);
  }

  lemma {:induction false} NoFees(
    channels: Channels, hops: seq<Hop>, from: Party, required: nat, receiver: Party, amount: nat)
    requires Delivers(channels, hops, from, required, receiver, amount)
    requires forall id :: id in channels ==> channels[id].feeBase == 0 && channels[id].feePpm == 0
    ensures required == amount
  {
    if hops != [] {
      NoFees(channels, hops[1..], hops[0].receiver, required - hops[0].fee, receiver, amount);
    }
  }

  lemma {:induction false} PathWithin(
    channels: Channels, hops: seq<Hop>, from: Party, required: nat, receiver: Party, amount: nat)
    requires hops != [] && Delivers(channels, hops, from, required, receiver, amount)
    ensures Elements([from] + Receivers(hops)) <= Parties(channels)
  {
    var next := hops[0].receiver;
    assert HopOk(channels, hops[0], required - hops[0].fee);
    var ch := channels[hops[0].channel];
    assert ch.first in Parties(channels) && ch.second in Parties(channels);
    assert from in Parties(channels) && next in Parties(channels);
    if hops[1..] != [] {
      PathWithin(channels, hops[1..], next, required - hops[0].fee, receiver, amount);
    }
    assert [from] + Receivers(hops) == [from] + ([next] + Receivers(hops[1..]));
  }

  /** A candidate that has not met the sender has a hop left. */
  lemma HopLeft(channels: Channels, c: Candidate, sender: Party, receiver: Party, amount: nat, maxHops: int)
    requires Filed(channels) && CandidateOk(channels, c, sender, receiver, amount) && c.node != sender
    requires sender in Parties(channels) && |Parties(channels)| <= maxHops + 1
    ensures c.hopCount < maxHops
  {
    if c.hopCount == 0 {
      var id :| id in channels && channels[id].Has(sender);
      SubsetSize({channels[id].first, channels[id].second}, Parties(channels));
    } else {
      PathWithin(channels, c.path, c.node, c.required, receiver, amount);
      var path := [c.node] + Receivers(c.path);
      DistinctSize(path);
      ReceiversLength(c.path);
      assert sender !in path;
      SubsetSize(Elements(path), Parties(channels) - {sender});
    }
  }

  lemma {:induction false} ReceiversLength(hops: seq<Hop>)
    ensures |Receivers(hops)| == |hops|
  {
    if hops != [] {
      ReceiversLength(hops[1..]);
    }
  }

  /** Whoever has been reached is waiting or has been expanded, and whoever can pay somebody expanded has been reached. */
  ghost predicate Covered(
    channels: Channels, heap: seq<Candidate>, best: Best, expanded: set<Party>, sender: Party, receiver: Party, amount: nat)
  {
    && sender !in expanded
    && (forall p :: p in best ==> p in expanded || Waits(heap, best, p))
    && forall u, v :: u in expanded && Pays(channels, amount, v, u) ==> v in best || v == receiver
  }

  /** Once nothing waits, everybody who could pay towards the receiver has been expanded, and the sender has not. */
  lemma {:induction false} NoWalk(
    channels: Channels, best: Best, expanded: set<Party>, sender: Party, receiver: Party, amount: nat, p: seq<Party>,
    i: nat)
    requires Covered(channels, [], best, expanded, sender, receiver, amount) && receiver in expanded
    requires i < |p| && p[|p| - 1] == receiver && Walk(channels, amount, p)
    ensures p[i] in expanded
    decreases |p| - i
  {
    hide Pays;
    if i < |p| - 1 {
      NoWalk(channels, best, expanded, sender, receiver, amount, p, i + 1);
      assert Pays(channels, amount, p[i], p[i + 1]);
    }
  }

  /** After expanding a candidate without fees, everybody who can pay its node has been reached. */
  lemma PayersReached(
    channels: Channels, c: Candidate, best: Best, sender: Party, receiver: Party, amount: nat, v: Party)
    requires Filed(channels) && CandidateOk(channels, c, sender, receiver, amount) && PathKnown(c, best, receiver)
    requires forall id :: id in channels ==> channels[id].feeBase == 0 && channels[id].feePpm == 0
    requires forall id :: id in channels && Usable(channels, c, channels[id], sender) ==> Relaxed(c, channels[id], best)
    requires Pays(channels, amount, v, c.node)
    ensures v in best || v == receiver
  {
    NoFees(channels, c.path, c.node, c.required, receiver, amount);
    VisitedParties(channels, c, sender, receiver, amount);
    var id :| id in channels && Carries(channels[id], amount, v, c.node);
    assert channels[id].Other(c.node) == v;
    if v in Visited(c) && v != sender {
      assert v in [c.node] + Receivers(c.path);
    } else {
      assert Usable(channels, c, channels[id], sender);
    }
  }

  lemma CoverMore(
    channels: Channels, heap: seq<Candidate>, at: nat, heap': seq<Candidate>, best: Best, best': Best, expanded: set<Party>,
    sender: Party, receiver: Party, amount: nat)
    requires at < |heap| && Covered(channels, heap, best, expanded, sender, receiver, amount)
    requires var c, rest := heap[at], heap[..at] + heap[at + 1..];
      && Filed(channels) && CandidateOk(channels, c, sender, receiver, amount) && PathKnown(c, best, receiver)
      && c.node != sender && KeepsWaiting(rest, best, heap', best')
      && (forall id :: id in channels && Usable(channels, c, channels[id], sender) ==> Relaxed(c, channels[id], best'))
    requires forall id :: id in channels ==> channels[id].feeBase == 0 && channels[id].feePpm == 0
    ensures Covered(channels, heap', best', expanded + {heap[at].node}, sender, receiver, amount)
  {
    hide Usable, CandidateOk, Waits, Pays;
    var c := heap[at];
    forall p | p in best'
      ensures p in expanded + {c.node} || Waits(heap', best', p)
    {
      if p in best && p !in expanded && p != c.node {
        DropWaits(heap, best, p, at);
      }
    }
    KnownStays(c, best, best', receiver);
    forall u, v | u in expanded + {c.node} && Pays(channels, amount, v, u)
      ensures v in best' || v == receiver
    {
      if u == c.node {
        PayersReached(channels, c, best', sender, receiver, amount, v);
      }
    }
  }

  lemma KnownStays(c: Candidate, best: Best, best': Best, receiver: Party)
    requires PathKnown(c, best, receiver) && best.Keys <= best'.Keys
    ensures PathKnown(c, best', receiver)
  {
  }

  /** Dropping a superseded candidate. */
  lemma DropCovered(
    channels: Channels, heap: seq<Candidate>, at: nat, best: Best, expanded: set<Party>, sender: Party, receiver: Party,
    amount: nat)
    requires at < |heap| && Covered(channels, heap, best, expanded, sender, receiver, amount)
    requires heap[at].node in best && best[heap[at].node] != RankOf(heap[at])
    ensures Covered(channels, heap[..at] + heap[at + 1..], best, expanded, sender, receiver, amount)
  {
    hide Waits, Pays;
    forall p | p in best && p !in expanded
      ensures Waits(heap[..at] + heap[at + 1..], best, p)
    {
      DropWaits(heap, best, p, at);
    }
  }

  lemma NothingCovered(
    channels: Channels, heap: seq<Candidate>, best: Best, expanded: set<Party>, sender: Party, receiver: Party, amount: nat)
    requires heap == [] && Covered(channels, heap, best, expanded, sender, receiver, amount) && receiver in expanded
    ensures !Reaches(channels, sender, receiver, amount)
  {
    hide Covered, Walk;
    if Reaches(channels, sender, receiver, amount) {
      var p :| p != [] && p[0] == sender && p[|p| - 1] == receiver && Walk(channels, amount, p);
      NoWalk(channels, best, expanded, sender, receiver, amount, p, 0);
      SenderOut(channels, heap, best, expanded, sender, receiver, amount);
    }
  }

  lemma SenderOut(
    channels: Channels, heap: seq<Candidate>, best: Best, expanded: set<Party>, sender: Party, receiver: Party, amount: nat)
    requires Covered(channels, heap, best, expanded, sender, receiver, amount)
    ensures sender !in expanded
  {
  }

  /** A walk starts at the end of some channel. */
  lemma WalkStarts(channels: Channels, sender: Party, receiver: Party, amount: int)
    requires sender != receiver && Reaches(channels, sender, receiver, amount)
    ensures sender in Parties(channels)
  {
    var p :| p != [] && p[0] == sender && p[|p| - 1] == receiver && Walk(channels, amount, p);
    assert Pays(channels, amount, p[0], p[1]);
    var id :| id in channels && Carries(channels[id], amount, p[0], p[1]);
    assert channels[id].first in Parties(channels) && channels[id].second in Parties(channels);
  }

  // ---------------------------------------------------------------------------------------------
  // Least scores, where there are no fees
  // ---------------------------------------------------------------------------------------------

  /** The score at which a party has been reached; the receiver starts at 0. */
  function ScoreOf(best: Best, u: Party, receiver: Party): nat {
    if u == receiver || u !in best then 0 else best[u].score
  }

  /** The other party can pay the amount to `u`. */
  predicate CanPay(ch: Channel, amount: nat, u: Party) {
    ch.isOpen && ch.Has(u) && ch.Available(ch.Other(u)) >= amount
  }

  function FreeHop(ch: Channel, amount: nat, u: Party): Hop {
    Hop(ch.id, ch.Other(u), u, amount, 0)
  }

  /** Whoever can pay `u` has been reached at no more than the score of `u` and that hop. */
  ghost predicate PayersNear(channels: Channels, best: Best, receiver: Party, amount: nat, u: Party) {
    forall id :: id in channels && CanPay(channels[id], amount, u) ==> PayerNear(channels[id], best, receiver, amount, u)
  }

  predicate PayerNear(ch: Channel, best: Best, receiver: Party, amount: nat, u: Party) {
    var v := ch.Other(u);
    v == receiver || (v in best && best[v].score <= ScoreOf(best, u, receiver) + HopStrain(ch, FreeHop(ch, amount, u)))
  }

  ghost predicate NoLaterThan(heap: seq<Candidate>, score: nat) {
    forall i :: 0 <= i < |heap| ==> score <= heap[i].score
  }

  /** Whoever has been expanded is no farther than what waits, and so reached at the final score. */
  ghost predicate Nearest(
    channels: Channels, heap: seq<Candidate>, best: Best, expanded: set<Party>, receiver: Party, amount: nat)
  {
    forall u :: u in expanded ==>
      && (u == receiver || u in best) && NoLaterThan(heap, ScoreOf(best, u, receiver))
      && PayersNear(channels, best, receiver, amount, u)
  }

  lemma {:induction false} ReceiverStarts(channels: Channels, c: Candidate, sender: Party, receiver: Party, amount: nat)
    requires CandidateOk(channels, c, sender, receiver, amount) && c.node == receiver
    ensures c.path == []
  {
    hide Walk;
    RouteIsWalk(channels, c.path, c.node, c.required, receiver, amount);
    ReceiversLength(c.path);
    var p := [c.node] + Receivers(c.path);
    assert p[0] == p[|p| - 1];
  }

  /** A candidate taken from the heap that is not superseded has the score of its node. */
  lemma ScoreIsFinal(channels: Channels, c: Candidate, best: Best, sender: Party, receiver: Party, amount: nat)
    requires CandidateOk(channels, c, sender, receiver, amount) && Fair(channels, c, best, receiver)
    requires c.node in best ==> !Before(best[c.node], RankOf(c))
    ensures ScoreOf(best, c.node, receiver) == c.score && (c.node == receiver || c.node in best)
  {
    hide CandidateOk, Receivers;
    if c.node == receiver {
      ReceiverStarts(channels, c, sender, receiver, amount);
    }
  }

  lemma NearestLess(
    channels: Channels, heap: seq<Candidate>, at: nat, best: Best, expanded: set<Party>, receiver: Party, amount: nat)
    requires at < |heap| && Nearest(channels, heap, best, expanded, receiver, amount)
    ensures Nearest(channels, heap[..at] + heap[at + 1..], best, expanded, receiver, amount)
  {
    hide PayersNear;
    var rest := heap[..at] + heap[at + 1..];
    forall u | u in expanded
      ensures NoLaterThan(rest, ScoreOf(best, u, receiver))
    {
      forall i | 0 <= i < |rest|
        ensures ScoreOf(best, u, receiver) <= rest[i].score
      {
        assert rest[i] == heap[if i < at then i else i + 1];
      }
    }
  }

  lemma PayersStay(
    channels: Channels, heap0: seq<Candidate>, best: Best, heap: seq<Candidate>, best': Best, receiver: Party, amount: nat,
    u: Party, score: nat)
    requires PayersNear(channels, best, receiver, amount, u) && Above(score, heap0, best, heap, best')
    requires (u == receiver || u in best) && ScoreOf(best, u, receiver) <= score
    ensures ScoreOf(best', u, receiver) == ScoreOf(best, u, receiver) && PayersNear(channels, best', receiver, amount, u)
  {
    hide HopStrain, CanPay;
    forall id | id in channels && CanPay(channels[id], amount, u)
      ensures PayerNear(channels[id], best', receiver, amount, u)
    {
      assert PayerNear(channels[id], best, receiver, amount, u);
    }
  }

  /** After expanding a candidate without fees, its payers are near. */
  lemma PayersRelaxed(
    channels: Channels, c: Candidate, heap0: seq<Candidate>, best: Best, heap: seq<Candidate>, best': Best, sender: Party,
    receiver: Party, amount: nat)
    requires Filed(channels) && CandidateOk(channels, c, sender, receiver, amount) && Fair(channels, c, best, receiver)
    requires ScoreOf(best', c.node, receiver) == c.score && Above(c.score, heap0, best, heap, best')
    requires forall id :: id in channels ==> channels[id].feeBase == 0 && channels[id].feePpm == 0
    requires forall id :: id in channels && Usable(channels, c, channels[id], sender) ==> Relaxed(c, channels[id], best')
    ensures PayersNear(channels, best', receiver, amount, c.node)
  {
    hide CandidateOk, Fair, HopStrain, Receivers, Strain, Delivers;
    OkDelivers(channels, c, sender, receiver, amount);
    NoFees(channels, c.path, c.node, c.required, receiver, amount);
    VisitedParties(channels, c, sender, receiver, amount);
    forall id | id in channels && CanPay(channels[id], amount, c.node)
      ensures PayerNear(channels[id], best', receiver, amount, c.node)
    {
      var ch := channels[id];
      var v := ch.Other(c.node);
      if v in Visited(c) && v != sender {
        FairOnPath(channels, c, best, receiver, v);
      } else {
        assert Usable(channels, c, ch, sender);
        ExtendStrain(channels, c, ch, sender);
        assert Extend(c, ch).path[0] == FreeHop(ch, amount, c.node);
        assert Relaxed(c, ch, best');
      }
    }
  }

  lemma OkDelivers(channels: Channels, c: Candidate, sender: Party, receiver: Party, amount: nat)
    requires CandidateOk(channels, c, sender, receiver, amount)
    ensures Delivers(channels, c.path, c.node, c.required, receiver, amount)
  {
  }

  lemma FairOnPath(channels: Channels, c: Candidate, best: Best, receiver: Party, v: Party)
    requires Fair(channels, c, best, receiver) && v in Receivers(c.path)
    ensures v == receiver || (v in best && best[v].score <= c.score)
  {
  }

  lemma ExpandNearest(
    channels: Channels, heap: seq<Candidate>, at: nat, heap': seq<Candidate>, best: Best, best': Best, expanded: set<Party>,
    sender: Party, receiver: Party, amount: nat)
    requires at < |heap| && Nearest(channels, heap, best, expanded, receiver, amount)
    requires NoLaterThan(heap, heap[at].score)
    requires var c, rest := heap[at], heap[..at] + heap[at + 1..];
      && Filed(channels) && CandidateOk(channels, c, sender, receiver, amount) && Fair(channels, c, best, receiver)
      && (c.node in best ==> !Before(best[c.node], RankOf(c))) && Above(c.score, rest, best, heap', best')
      && (forall id :: id in channels && Usable(channels, c, channels[id], sender) ==> Relaxed(c, channels[id], best'))
    requires forall id :: id in channels ==> channels[id].feeBase == 0 && channels[id].feePpm == 0
    ensures Nearest(channels, heap', best', expanded + {heap[at].node}, receiver, amount)
  {
    hide CandidateOk, Fair, PayersNear, Usable, Relaxed, Before;
    var c, rest := heap[at], heap[..at] + heap[at + 1..];
    ScoreIsFinal(channels, c, best, sender, receiver, amount);
    AboveKeeps(c.score, rest, best, heap', best', c.node, receiver);
    PayersRelaxed(channels, c, rest, best, heap', best', sender, receiver, amount);
    forall u | u in expanded + {c.node}
      ensures (u == receiver || u in best') && NoLaterThan(heap', ScoreOf(best', u, receiver))
      ensures PayersNear(channels, best', receiver, amount, u)
    {
      assert ScoreOf(best, u, receiver) <= c.score;
      AboveKeeps(c.score, rest, best, heap', best', u, receiver);
      NewAreLater(c.score, heap, at, best, heap', best', ScoreOf(best', u, receiver));
      if u != c.node {
        PayersStay(channels, rest, best, heap', best', receiver, amount, u, c.score);
      }
    }
  }

  lemma AboveKeeps(score: nat, heap0: seq<Candidate>, best: Best, heap: seq<Candidate>, best': Best, u: Party, receiver: Party)
    requires Above(score, heap0, best, heap, best') && (u == receiver || u in best) && ScoreOf(best, u, receiver) <= score
    ensures (u == receiver || u in best') && ScoreOf(best', u, receiver) == ScoreOf(best, u, receiver)
  {
  }

  lemma NewAreLater(
    score: nat, heap: seq<Candidate>, at: nat, best: Best, heap': seq<Candidate>, best': Best, low: nat)
    requires at < |heap| && Above(score, heap[..at] + heap[at + 1..], best, heap', best') && low <= score
    requires NoLaterThan(heap, score)
    ensures NoLaterThan(heap', low)
  {
    var rest := heap[..at] + heap[at + 1..];
    forall i | 0 <= i < |heap'|
      ensures low <= heap'[i].score
    {
      if i < |rest| {
        assert heap'[i] == rest[i] && rest[i] == heap[if i < at then i else i + 1];
      }
    }
  }

  /** When the candidate at the front has a score, no route to the receiver from anybody still waiting has less. */
  lemma {:induction false} NoneBelow(
    channels: Channels, heap: seq<Candidate>, best: Best, expanded: set<Party>, sender: Party, receiver: Party, amount: nat,
    score: nat, hops: seq<Hop>, from: Party, required: nat)
    requires Filed(channels) && receiver in expanded && Covered(channels, heap, best, expanded, sender, receiver, amount)
    requires Nearest(channels, heap, best, expanded, receiver, amount) && NoLaterThan(heap, score)
    requires forall id :: id in channels ==> channels[id].feeBase == 0 && channels[id].feePpm == 0
    requires Delivers(channels, hops, from, required, receiver, amount)
    ensures score <= Strain(channels, hops) || (from in expanded && ScoreOf(best, from, receiver) <= Strain(channels, hops))
    decreases |hops|
  {
    hide HopStrain, PayersNear;
    if hops != [] {
      var hop, u := hops[0], hops[0].receiver;
      NoneBelow(channels, heap, best, expanded, sender, receiver, amount, score, hops[1..], u, required - hop.fee);
      NoFees(channels, hops, from, required, receiver, amount);
      if score > Strain(channels, hops[1..]) {
        var ch := channels[hop.channel];
        assert HopOk(channels, hop, required - hop.fee);
        assert hop == FreeHop(ch, amount, u) && CanPay(ch, amount, u);
        PayersAt(channels, best, receiver, amount, u, hop.channel);
        if from != receiver && from !in expanded {
          Waiting(heap, best, from, score);
        }
      }
    }
  }

  lemma PayersAt(channels: Channels, best: Best, receiver: Party, amount: nat, u: Party, id: nat)
    requires PayersNear(channels, best, receiver, amount, u) && id in channels && CanPay(channels[id], amount, u)
    ensures PayerNear(channels[id], best, receiver, amount, u)
  {
  }

  lemma Waiting(heap: seq<Candidate>, best: Best, p: Party, score: nat)
    requires p in best && Waits(heap, best, p) && NoLaterThan(heap, score)
    ensures score <= best[p].score
  {
    var i :| 0 <= i < |heap| && heap[i].node == p && RankOf(heap[i]) == best[p];
    assert RankOf(heap[i]).score == heap[i].score;
  }

  /** No route from the sender to the receiver has a lower score. */
  ghost predicate Least(channels: Channels, r: Route, sender: Party, receiver: Party, amount: int)
    requires r.Found?
  {
    amount > 0 && forall hops, total: nat :: Delivers(channels, hops, sender, total, receiver, amount) ==>
      Strain(channels, r.hops) <= Strain(channels, hops)
  }

  lemma FoundIsLeast(
    channels: Channels, heap: seq<Candidate>, at: nat, best: Best, expanded: set<Party>, sender: Party, receiver: Party,
    amount: nat, maxHops: int)
    requires Filed(channels) && at < |heap| && NoLaterThan(heap, heap[at].score) && sender != receiver && amount > 0
    requires Tracked(channels, heap, best, expanded, sender, receiver, amount, maxHops)
    requires heap[at].node == sender && Fair(channels, heap[at], best, receiver)
    requires CandidateOk(channels, heap[at], sender, receiver, amount)
    ensures Unhindered(channels, maxHops) ==>
      Least(channels, Found(heap[at].required, heap[at].path), sender, receiver, amount)
  {
    hide CandidateOk, Covered, Nearest, Strain, Receivers, Delivers, NoLaterThan;
    var c := heap[at];
    if Unhindered(channels, maxHops) {
      OkDelivers(channels, c, sender, receiver, amount);
      SenderIsParty(channels, c, sender, receiver, amount);
      SenderOut(channels, heap, best, expanded, sender, receiver, amount);
      forall hops, total: nat | Delivers(channels, hops, sender, total, receiver, amount)
        ensures Strain(channels, c.path) <= Strain(channels, hops)
      {
        NoneBelow(channels, heap, best, expanded, sender, receiver, amount, c.score, hops, sender, total);
      }
    }
  }

  lemma SenderIsParty(channels: Channels, c: Candidate, sender: Party, receiver: Party, amount: nat)
    requires CandidateOk(channels, c, sender, receiver, amount) && c.node == sender && sender != receiver
    ensures sender in Parties(channels)
  {
    PathWithin(channels, c.path, c.node, c.required, receiver, amount);
    var path := [c.node] + Receivers(c.path);
    assert path[0] in Elements(path);
  }

  /** What the loop keeps about the heap. */
  ghost predicate SearchOk(
    channels: Channels, heap: seq<Candidate>, best: Best, sender: Party, receiver: Party, amount: nat, bound: nat)
  {
    && HeapOk(channels, heap, sender, receiver, amount, bound) && PathsKnown(heap, best, receiver)
    && Waits(heap, best, sender) && AllFair(channels, heap, best, receiver)
  }

  /** What a search without fees and with hops to spare keeps about whom it has reached. */
  ghost predicate Tracked(
    channels: Channels, heap: seq<Candidate>, best: Best, expanded: set<Party>, sender: Party, receiver: Party, amount: nat,
    maxHops: int)
  {
    Unhindered(channels, maxHops) && sender in Parties(channels) ==>
      && Covered(channels, heap, best, expanded, sender, receiver, amount)
      && Nearest(channels, heap, best, expanded, receiver, amount)
      && (receiver in expanded || (expanded == {} && best == map[] && |heap| == 1 && heap[0].node == receiver))
  }

  /** The search ends, and what it finds is sound. It finds something whenever one direct channel would do; and where no
      channel charges a fee and the hop limit is no obstacle, exactly when balances lead from sender to receiver, and
      then no route has a lower score. */
  method FindRoute(channels: Channels, sender: Party, receiver: Party, amount: int, maxHops: int) returns (r: Route)
    requires Filed(channels)
    ensures r.Found? ==> SoundRequest(channels, r, sender, receiver, amount, maxHops)
    ensures r.Found? ==> Reaches(channels, sender, receiver, amount)
    ensures DirectExists(channels, sender, receiver, amount, maxHops) ==> r.Found?
    ensures Unhindered(channels, maxHops) ==>
      (r.Found? <==> amount > 0 && sender != receiver && Reaches(channels, sender, receiver, amount))
    ensures r.Found? && Unhindered(channels, maxHops) ==> Least(channels, r, sender, receiver, amount)
  {
    hide CandidateOk, TotalWeight, Weight, HeapOk, Waits, Before, PathKnown, PathsKnown, Covered, Unhindered, Reaches, Parties,
      Direct, Usable, Delivers, Nearest, Fair, AllFair, Above, NoLaterThan, Relaxed, Least, Ahead, Strain;
    if amount <= 0 || sender == receiver {
      return NoRoute;
    }
    ghost var bound: nat := if maxHops < 0 then 0 else maxHops;
    ghost var base := |channels| + 1;
    ghost var expanded: set<Party> := {};
    var start := Candidate(0, 0, amount, receiver, []);
    var heap, best: Best := [start], map[];
    StartSearch(channels, start, sender, receiver, amount, bound);
    while heap != []
      invariant SearchOk(channels, heap, best, sender, receiver, amount, bound)
      invariant Tracked(channels, heap, best, expanded, sender, receiver, amount, maxHops)
      invariant (heap == [start] && best == map[])
        || maxHops < 1 || (forall id :: id in channels && Direct(channels[id], sender, receiver, amount) ==> sender in best)
      decreases TotalWeight(heap, base, bound)
    {
      var c, rest;
      ghost var at;
      c, rest, at := Pop(heap);
      PopHeap(channels, heap, at, sender, receiver, amount, bound);
      Unheap(channels, heap, at, sender, receiver, amount, bound);
      PopKnown(heap, best, receiver, at);
      PoppedFirst(channels, heap, at, best, receiver);
      if c.node in best && Before(best[c.node], RankOf(c)) {
        RankIrreflexive(RankOf(c));
        DropWaits(heap, best, sender, at);
        DropTracked(channels, heap, at, best, expanded, sender, receiver, amount, maxHops);
        heap := rest;
        continue;
      }
      if c.node == sender {
        FeesAddUp(channels, c.path, c.node, c.required, receiver, amount);
        r := Found(c.required, c.path);
        FoundReaches(channels, r, sender, receiver, amount, maxHops);
        FoundIsLeast(channels, heap, at, best, expanded, sender, receiver, amount, maxHops);
        return;
      }
      DropWaits(heap, best, sender, at);
      if c.hopCount >= maxHops {
        OutOfHops(channels, c, heap, rest, best, expanded, sender, receiver, amount, maxHops);
        heap := rest;
        continue;
      }
      ghost var first := heap == [start] && best == map[];
      ghost var heap0, best0 := heap, best;
      heap, best := Expand(channels, c, rest, best, sender, receiver, amount, bound);
      ExpandTracked(channels, heap0, at, heap, best0, best, expanded, sender, receiver, amount, maxHops);
      expanded := expanded + {c.node};
      if first {
        DirectReached(channels, start, best, sender, receiver, amount);
      }
    }
    NobodyWaits(best, sender);
    NothingLeft(channels, heap, best, expanded, sender, receiver, amount, maxHops);
    return NoRoute;
  }

  lemma PopKnown(heap: seq<Candidate>, best: Best, receiver: Party, at: nat)
    requires PathsKnown(heap, best, receiver) && at < |heap|
    ensures PathKnown(heap[at], best, receiver) && PathsKnown(heap[..at] + heap[at + 1..], best, receiver)
  {
    hide PathKnown;
    var rest := heap[..at] + heap[at + 1..];
    forall i | 0 <= i < |rest|
      ensures PathKnown(rest[i], best, receiver)
    {
      assert rest[i] == heap[if i < at then i else i + 1];
    }
  }

  lemma DropTracked(
    channels: Channels, heap: seq<Candidate>, at: nat, best: Best, expanded: set<Party>, sender: Party, receiver: Party,
    amount: nat, maxHops: int)
    requires at < |heap| && Tracked(channels, heap, best, expanded, sender, receiver, amount, maxHops)
    requires heap[at].node in best && best[heap[at].node] != RankOf(heap[at])
    ensures Tracked(channels, heap[..at] + heap[at + 1..], best, expanded, sender, receiver, amount, maxHops)
  {
    hide Covered, Nearest, Unhindered, Parties;
    if Unhindered(channels, maxHops) && sender in Parties(channels) {
      DropCovered(channels, heap, at, best, expanded, sender, receiver, amount);
      NearestLess(channels, heap, at, best, expanded, receiver, amount);
    }
  }

  lemma OutOfHops(
    channels: Channels, c: Candidate, heap: seq<Candidate>, rest: seq<Candidate>, best: Best, expanded: set<Party>,
    sender: Party, receiver: Party, amount: nat, maxHops: int)
    requires Filed(channels) && CandidateOk(channels, c, sender, receiver, amount) && c.node != sender && c.hopCount >= maxHops
    ensures Tracked(channels, rest, best, expanded, sender, receiver, amount, maxHops)
  {
    hide CandidateOk;
    if Unhindered(channels, maxHops) && sender in Parties(channels) {
      HopLeft(channels, c, sender, receiver, amount, maxHops);
    }
  }

  lemma ExpandTracked(
    channels: Channels, heap: seq<Candidate>, at: nat, heap': seq<Candidate>, best: Best, best': Best, expanded: set<Party>,
    sender: Party, receiver: Party, amount: nat, maxHops: int)
    requires at < |heap| && Tracked(channels, heap, best, expanded, sender, receiver, amount, maxHops)
    requires var c, rest := heap[at], heap[..at] + heap[at + 1..];
      && Filed(channels) && CandidateOk(channels, c, sender, receiver, amount) && PathKnown(c, best, receiver)
      && c.node != sender && KeepsWaiting(rest, best, heap', best')
      && (forall id :: id in channels && Usable(channels, c, channels[id], sender) ==> Relaxed(c, channels[id], best'))
      && Fair(channels, c, best, receiver) && (c.node in best ==> !Before(best[c.node], RankOf(c)))
      && Above(c.score, rest, best, heap', best') && NoLaterThan(heap, c.score)
    ensures Tracked(channels, heap', best', expanded + {heap[at].node}, sender, receiver, amount, maxHops)
  {
    hide Covered, Nearest, Parties, CandidateOk, Usable, Waits, KeepsWaiting, PathKnown, Relaxed, Fair, Before, Above,
      NoLaterThan;
    if Unhindered(channels, maxHops) && sender in Parties(channels) {
      CoverMore(channels, heap, at, heap', best, best', expanded, sender, receiver, amount);
      ExpandNearest(channels, heap, at, heap', best, best', expanded, sender, receiver, amount);
    }
  }

  lemma NothingLeft(
    channels: Channels, heap: seq<Candidate>, best: Best, expanded: set<Party>, sender: Party, receiver: Party, amount: nat,
    maxHops: int)
    requires heap == [] && sender != receiver
    requires Tracked(channels, heap, best, expanded, sender, receiver, amount, maxHops)
    ensures Unhindered(channels, maxHops) ==> !Reaches(channels, sender, receiver, amount)
  {
    hide Covered, Parties, Unhindered, Reaches;
    if Unhindered(channels, maxHops) {
      if sender in Parties(channels) {
        NothingCovered(channels, heap, best, expanded, sender, receiver, amount);
      } else if Reaches(channels, sender, receiver, amount) {
        WalkStarts(channels, sender, receiver, amount);
      }
    }
  }

  /** Nothing in the heap has a lower score than what is taken from it. */
  lemma PoppedFirst(channels: Channels, heap: seq<Candidate>, at: nat, best: Best, receiver: Party)
    requires at < |heap| && forall i :: 0 <= i < |heap| ==> !Ahead(heap[i], heap[at])
    requires AllFair(channels, heap, best, receiver)
    ensures NoLaterThan(heap, heap[at].score) && Fair(channels, heap[at], best, receiver)
    ensures AllFair(channels, heap[..at] + heap[at + 1..], best, receiver)
  {
    hide Fair, Less, ChannelsOf;
    var rest := heap[..at] + heap[at + 1..];
    forall i | 0 <= i < |rest|
      ensures Fair(channels, rest[i], best, receiver)
    {
      assert rest[i] == heap[if i < at then i else i + 1];
    }
  }

  lemma StartSearch(channels: Channels, start: Candidate, sender: Party, receiver: Party, amount: nat, maxHops: nat)
    requires start == Candidate(0, 0, amount, receiver, []) && sender != receiver
    ensures SearchOk(channels, [start], map[], sender, receiver, amount, maxHops)
    ensures Covered(channels, [start], map[], {}, sender, receiver, amount)
    ensures Nearest(channels, [start], map[], {}, receiver, amount)
  {
    assert Receivers(start.path) == [];
  }

  lemma Unheap(channels: Channels, heap: seq<Candidate>, at: nat, sender: Party, receiver: Party, amount: nat, maxHops: nat)
    requires HeapOk(channels, heap, sender, receiver, amount, maxHops) && at < |heap|
    ensures var c := heap[at];
      && CandidateOk(channels, c, sender, receiver, amount) && c.hopCount <= maxHops
      && Delivers(channels, c.path, c.node, c.required, receiver, amount)
      && NoRepeats([c.node] + Receivers(c.path)) && |c.path| == c.hopCount
      && (c.node != receiver ==> c.hopCount >= 1)
  {
  }

  lemma DirectReached(
    channels: Channels, start: Candidate, best: Best, sender: Party, receiver: Party, amount: nat)
    requires Filed(channels) && start == Candidate(0, 0, amount, receiver, [])
    requires forall id :: id in channels && Usable(channels, start, channels[id], sender) ==> Relaxed(start, channels[id], best)
    ensures (exists id :: id in channels && Direct(channels[id], sender, receiver, amount)) ==> sender in best
  {
    if id :| id in channels && Direct(channels[id], sender, receiver, amount) {
      assert Usable(channels, start, channels[id], sender);
      assert Relaxed(start, channels[id], best);
    }
  }

  lemma NobodyWaits(best: Best, sender: Party)
    requires Waits([], best, sender)
    ensures sender !in best
  {
  }

  // ---------------------------------------------------------------------------------------------
  // The graph
  // ---------------------------------------------------------------------------------------------

  class ChannelGraph {
    var nodes: set<Party>
    var channels: Channels

    /** Both ends of every channel are known nodes. */
    ghost predicate Valid()
      reads this
    {
      Filed(channels) && forall id :: id in channels ==> channels[id].first in nodes && channels[id].second in nodes
    }

    constructor ()
      ensures Valid() && nodes == {} && channels == map[]
    {
      nodes, channels := {}, map[];
    }

    method SyncChannel(channel: Channel)
      requires Valid() && channel.first != channel.second
      modifies this
      ensures Valid() && channels == old(channels)[channel.id := channel]
      ensures nodes == old(nodes) + {channel.first, channel.second}
    {
      channels := channels[channel.id := channel];
      nodes := nodes + {channel.first, channel.second};
    }

    /** Forgets a channel, and its two ends if neither of them has another channel. */
    method RemoveChannel(id: nat)
      requires Valid()
      modifies this
      ensures Valid() && channels == old(channels) - {id}
      ensures nodes == if id in old(channels) && !Linked(old(channels) - {id}, old(channels)[id])
                       then old(nodes) - {old(channels)[id].first, old(channels)[id].second} else old(nodes)
    {
      if id !in channels {
        return;
      }
      var channel := channels[id];
      channels := channels - {id};
      var linked := AnyLinked(channels, channel);
      if !linked {
        nodes := nodes - {channel.first, channel.second};
      }
    }
  }

  /** Some channel touches one of the ends of `channel`. */
  predicate Linked(channels: Channels, channel: Channel) {
    exists id :: id in channels && (channels[id].Has(channel.first) || channels[id].Has(channel.second))
  }

  method AnyLinked(channels: Channels, channel: Channel) returns (linked: bool)
    ensures linked <==> Linked(channels, channel)
  {
    linked := false;
    var todo := channels.Keys;
    while todo != {}
      invariant todo <= channels.Keys
      invariant linked <==> exists id :: id in channels.Keys - todo && (channels[id].Has(channel.first) || channels[id].Has(channel.second))
      decreases todo
    {
      var id :| id in todo;
      todo := todo - {id};
      if channels[id].Has(channel.first) || channels[id].Has(channel.second) {
        linked := true;
      }
    }
  }
}
