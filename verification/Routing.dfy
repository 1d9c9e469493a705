/** Shortest-path routing over weighted links, with a frontier that keeps superseded entries. */
module Routing {

  type Links = map<(nat, nat), real>

  datatype Item = Item(cost: real, node: nat, path: seq<nat>)

  datatype Route = NoRoute | Found(path: seq<nat>, cost: real)

  predicate NonNegative(links: Links) {
    forall l :: l in links ==> links[l] >= 0.0
  }

  predicate IsPath(links: Links, p: seq<nat>) {
    p != [] && forall i :: 0 <= i < |p| - 1 ==> (p[i], p[i + 1]) in links
  }

  predicate Connects(links: Links, p: seq<nat>, sender: nat, recipient: nat) {
    IsPath(links, p) && p[0] == sender && p[|p| - 1] == recipient
  }

  /** Total latency along a path. */
  function Cost(links: Links, p: seq<nat>): real
    requires IsPath(links, p)
  {
    var n := |p|;
    if n == 1 then 0.0
    else
      PrefixIsPath(links, p, n - 1);
      Cost(links, p[..n - 1]) + links[(p[n - 2], p[n - 1])]
  }

  lemma PrefixIsPath(links: Links, p: seq<nat>, n: nat)
    requires IsPath(links, p) && 1 <= n <= |p|
    ensures IsPath(links, p[..n])
  {
  }

  lemma {:induction false} PrefixCost(links: Links, p: seq<nat>, n: nat)
    requires IsPath(links, p) && NonNegative(links) && 1 <= n <= |p|
    ensures IsPath(links, p[..n]) && Cost(links, p[..n]) <= Cost(links, p)
    decreases |p|
  {
    PrefixIsPath(links, p, n);
    if n == |p| {
      assert p[..n] == p;
    } else {
      var front := p[..|p| - 1];
      PrefixIsPath(links, p, |p| - 1);
      PrefixCost(links, front, n);
      assert front[..n] == p[..n];
    }
  }

  lemma StepPath(links: Links, p: seq<nat>, next: nat)
    requires IsPath(links, p) && (p[|p| - 1], next) in links
    ensures IsPath(links, p + [next])
    ensures Cost(links, p + [next]) == Cost(links, p) + links[(p[|p| - 1], next)]
  {
    assert (p + [next])[..|p|] == p;
  }

  /** All endpoints of links. */
  function Nodes(links: Links): set<nat> {
    (set l | l in links :: l.0) + (set l | l in links :: l.1)
  }

  // ---------------------------------------------------------------------------------------------
  // The state of the search
  // ---------------------------------------------------------------------------------------------

  type Best = map<nat, real>

  /** An entry is an actual path to its node, no cheaper than the best known cost and than anything popped before. */
  ghost predicate ItemOk(links: Links, best: Best, sender: nat, floor: real, item: Item) {
    && Connects(links, item.path, sender, item.node) && Cost(links, item.path) == item.cost
    && item.node in best && best[item.node] <= item.cost && floor <= item.cost
  }

  ghost predicate FrontierOk(links: Links, best: Best, sender: nat, floor: real, frontier: seq<Item>) {
    forall i :: 0 <= i < |frontier| ==> ItemOk(links, best, sender, floor, frontier[i])
  }

  /** Every neighbour of `v` is known at a cost no worse than going through `v`. */
  ghost predicate Expanded(links: Links, best: Best, v: nat) {
    v in best && forall u: nat :: (v, u) in links ==> u in best && best[u] <= best[v] + links[(v, u)]
  }

  ghost predicate Open(frontier: seq<Item>, v: nat, cost: real) {
    exists i :: 0 <= i < |frontier| && frontier[i].node == v && frontier[i].cost == cost
  }

  /** Closed nodes have been expanded at their best cost, which can no longer improve; every other known node waits in
      the frontier at its best cost. */
  ghost predicate SearchOk(links: Links, best: Best, frontier: seq<Item>, closed: set<nat>, sender: nat, floor: real) {
    && sender in best && best[sender] <= 0.0
    && FrontierOk(links, best, sender, floor, frontier)
    && (forall v :: v in closed ==> Expanded(links, best, v) && best[v] <= floor)
    && (forall v :: v in best && v !in closed ==> Open(frontier, v, best[v]))
  }

  /** The first node on a path that is not closed is known at no more than the cost of the path up to it. */
  lemma {:induction false} FirstOpenNode(
    links: Links, best: Best, frontier: seq<Item>, closed: set<nat>, sender: nat, floor: real, p: seq<nat>) returns (i: nat)
    requires NonNegative(links) && SearchOk(links, best, frontier, closed, sender, floor)
    requires IsPath(links, p) && p[0] == sender && p[|p| - 1] !in closed
    ensures i < |p| && p[i] !in closed && p[i] in best && best[p[i]] <= Cost(links, p)
    decreases |p|
  {
    hide FrontierOk, Open;
    i := 0;
    while p[i] in closed
      invariant i < |p| && IsPath(links, p[..i + 1])
      invariant p[i] in best && best[p[i]] <= Cost(links, p[..i + 1])
      decreases |p| - i
    {
      assert Expanded(links, best, p[i]);
      assert p[..i + 1] + [p[i + 1]] == p[..i + 2];
      StepPath(links, p[..i + 1], p[i + 1]);
      i := i + 1;
    }
    PrefixCost(links, p, i + 1);
  }

  /** No path is cheaper than the cheapest entry, for a recipient that is not closed. */
  lemma CheapestIsOptimal(
    links: Links, best: Best, frontier: seq<Item>, closed: set<nat>, sender: nat, floor: real, recipient: nat, bound: real)
    requires NonNegative(links) && SearchOk(links, best, frontier, closed, sender, floor) && recipient !in closed
    requires forall i :: 0 <= i < |frontier| ==> bound <= frontier[i].cost
    ensures forall p :: Connects(links, p, sender, recipient) ==> bound <= Cost(links, p)
  {
    hide FrontierOk;
    forall p | Connects(links, p, sender, recipient)
      ensures bound <= Cost(links, p)
    {
      var i := FirstOpenNode(links, best, frontier, closed, sender, floor, p);
      assert Open(frontier, p[i], best[p[i]]);
    }
  }

  /** With nothing left in the frontier, the recipient cannot be reached. */
  lemma NothingLeft(
    links: Links, best: Best, closed: set<nat>, sender: nat, floor: real, recipient: nat, p: seq<nat>)
    requires NonNegative(links) && SearchOk(links, best, [], closed, sender, floor) && recipient !in closed
    ensures !Connects(links, p, sender, recipient)
  {
    hide FrontierOk;
    if Connects(links, p, sender, recipient) {
      var i := FirstOpenNode(links, best, [], closed, sender, floor, p);
    }
  }

  // ---------------------------------------------------------------------------------------------
  // The algorithm
  // ---------------------------------------------------------------------------------------------

  method PeersOf(links: Links, node: nat) returns (peers: seq<nat>)
    ensures forall u :: u in peers <==> (node, u) in links
  {
    peers := [];
    var todo := links.Keys;
    while todo != {}
      invariant todo <= links.Keys
      invariant forall u :: u in peers <==> (node, u) in links.Keys - todo
      decreases todo
    {
      var l :| l in todo;
      todo := todo - {l};
      if l.0 == node {
        peers := peers + [l.1];
      }
    }
  }

  /** Takes an entry of least cost out of the frontier. */
  method PopCheapest(frontier: seq<Item>) returns (item: Item, rest: seq<Item>, ghost at: nat)
    requires frontier != []
    ensures at < |frontier| && item == frontier[at] && rest == frontier[..at] + frontier[at + 1..]
    ensures forall i :: 0 <= i < |frontier| ==> item.cost <= frontier[i].cost
  {
    var m := 0;
    for i := 1 to |frontier|
      invariant m < |frontier| && forall j :: 0 <= j < i ==> frontier[m].cost <= frontier[j].cost
    {
      if frontier[i].cost < frontier[m].cost {
        m := i;
      }
    }
    return frontier[m], frontier[..m] + frontier[m + 1..], m;
  }

  /** A popped entry either belongs to a closed node, or is that node's best. */
  lemma PoppedIsBestOrStale(
    links: Links, best: Best, frontier: seq<Item>, closed: set<nat>, sender: nat, floor: real, at: nat)
    requires SearchOk(links, best, frontier, closed, sender, floor) && at < |frontier|
    requires forall i :: 0 <= i < |frontier| ==> frontier[at].cost <= frontier[i].cost
    ensures frontier[at].node in closed || best[frontier[at].node] == frontier[at].cost
  {
    var item := frontier[at];
    assert ItemOk(links, best, sender, floor, item);
    if item.node !in closed {
      assert Open(frontier, item.node, best[item.node]);
    }
  }

  /** Between popping an entry and having looked at its neighbours, only its node may be neither closed nor open. */
  ghost predicate Popped(
    links: Links, best: Best, frontier: seq<Item>, closed: set<nat>, sender: nat, item: Item)
  {
    && sender in best && best[sender] <= 0.0
    && ItemOk(links, best, sender, item.cost, item)
    && FrontierOk(links, best, sender, item.cost, frontier)
    && (item.node in closed || best[item.node] == item.cost)
    && (forall v :: v in closed ==> Expanded(links, best, v) && best[v] <= item.cost)
    && (forall v :: v in best && v !in closed && v != item.node ==> Open(frontier, v, best[v]))
  }

  lemma PopKeeps(
    links: Links, best: Best, frontier: seq<Item>, closed: set<nat>, sender: nat, floor: real, at: nat)
    requires SearchOk(links, best, frontier, closed, sender, floor) && at < |frontier|
    requires forall i :: 0 <= i < |frontier| ==> frontier[at].cost <= frontier[i].cost
    ensures Popped(links, best, frontier[..at] + frontier[at + 1..], closed, sender, frontier[at])
  {
    hide Expanded;
    PoppedIsBestOrStale(links, best, frontier, closed, sender, floor, at);
    var item, rest := frontier[at], frontier[..at] + frontier[at + 1..];
    assert ItemOk(links, best, sender, floor, item);
    forall i | 0 <= i < |rest|
      ensures ItemOk(links, best, sender, item.cost, rest[i])
    {
      var j := if i < at then i else i + 1;
      assert rest[i] == frontier[j] && ItemOk(links, best, sender, floor, frontier[j]);
    }
    forall v | v in best && v !in closed && v != item.node
      ensures Open(rest, v, best[v])
    {
      assert Open(frontier, v, best[v]);
      var j :| 0 <= j < |frontier| && frontier[j].node == v && frontier[j].cost == best[v];
      var i := if j < at then j else j - 1;
      assert rest[i] == frontier[j];
    }
  }

  /** A cheaper way to a node that is not closed: its cost is lowered and an entry for it is pushed. */
  lemma PushKeeps(
    links: Links, best: Best, frontier: seq<Item>, closed: set<nat>, sender: nat, item: Item, u: nat)
    requires NonNegative(links) && Popped(links, best, frontier, closed, sender, item) && (item.node, u) in links
    requires var cost := item.cost + links[(item.node, u)]; u !in best || cost < best[u]
    ensures var cost := item.cost + links[(item.node, u)];
      && Popped(links, best[u := cost], frontier + [Item(cost, u, item.path + [u])], closed, sender, item)
      && u !in closed && u != item.node
  {
    var cost := item.cost + links[(item.node, u)];
    var best', frontier' := best[u := cost], frontier + [Item(cost, u, item.path + [u])];
    StepPath(links, item.path, u);
    forall i | 0 <= i < |frontier'|
      ensures ItemOk(links, best', sender, item.cost, frontier'[i])
    {
      if i < |frontier| {
        assert ItemOk(links, best, sender, item.cost, frontier[i]);
      }
    }
    forall v | v in best' && v !in closed && v != item.node
      ensures Open(frontier', v, best'[v])
    {
      if v == u {
        assert frontier'[|frontier|].node == v;
      } else {
        assert Open(frontier, v, best[v]);
        var i :| 0 <= i < |frontier| && frontier[i].node == v && frontier[i].cost == best[v];
        assert frontier'[i] == frontier[i];
      }
    }
    forall v | v in closed
      ensures Expanded(links, best', v)
    {
      assert Expanded(links, best, v);
    }
  }

  /** Looks at all neighbours of a popped entry. A superseded entry changes nothing. */
  method Expand(
    links: Links, sender: nat, item: Item, rest: seq<Item>, best0: Best, ghost closed: set<nat>)
    returns (frontier: seq<Item>, best: Best)
    requires NonNegative(links) && Popped(links, best0, rest, closed, sender, item)
    ensures SearchOk(links, best, frontier, closed + {item.node}, sender, item.cost)
    ensures item.node in closed ==> frontier == rest
  {
    hide FrontierOk, Open, IsPath, Cost, Connects;
    var peers := PeersOf(links, item.node);
    frontier, best := rest, best0;
    var i := 0;
    while i < |peers|
      invariant 0 <= i <= |peers|
      invariant Popped(links, best, frontier, closed, sender, item)
      invariant item.node in closed ==> frontier == rest && best == best0
      invariant forall j :: 0 <= j < i ==> peers[j] in best && best[peers[j]] <= item.cost + links[(item.node, peers[j])]
    {
      var neighbor := peers[i];
      assert neighbor in peers;
      i := i + 1;
      var nextCost := item.cost + links[(item.node, neighbor)];
      if neighbor in best && nextCost >= best[neighbor] {
        continue;
      }
      Useful(links, best, frontier, closed, sender, item, neighbor);
      PushKeeps(links, best, frontier, closed, sender, item, neighbor);
      best := best[neighbor := nextCost];
      frontier := frontier + [Item(nextCost, neighbor, item.path + [neighbor])];
    }
    forall u: nat | (item.node, u) in links
      ensures u in best && best[u] <= item.cost + links[(item.node, u)]
    {
      assert u in peers;
    }
    Closes(links, best, frontier, closed, sender, item);
  }

  /** An entry of a closed node offers nobody a cheaper way. */
  lemma Useful(links: Links, best: Best, frontier: seq<Item>, closed: set<nat>, sender: nat, item: Item, u: nat)
    requires Popped(links, best, frontier, closed, sender, item) && (item.node, u) in links
    requires u !in best || item.cost + links[(item.node, u)] < best[u]
    ensures item.node !in closed
  {
    hide FrontierOk, Open;
  }

  lemma Closes(links: Links, best: Best, frontier: seq<Item>, closed: set<nat>, sender: nat, item: Item)
    requires Popped(links, best, frontier, closed, sender, item)
    requires forall u: nat :: (item.node, u) in links ==> u in best && best[u] <= item.cost + links[(item.node, u)]
    ensures SearchOk(links, best, frontier, closed + {item.node}, sender, item.cost)
  {
    hide FrontierOk, Open;
  }

  /** Entries always sit at the sender or at an endpoint of a link. */
  lemma ItemNode(links: Links, best: Best, sender: nat, floor: real, item: Item)
    requires ItemOk(links, best, sender, floor, item)
    ensures item.node in Nodes(links) + {sender}
  {
    var p := item.path;
    if |p| > 1 {
      assert (p[|p| - 2], p[|p| - 1]) in links;
    }
  }

  /** The cheapest path from sender to recipient, if there is any. */
  method FindRoute(links: Links, sender: nat, recipient: nat) returns (r: Route)
    requires NonNegative(links)
    ensures r.NoRoute? <==> forall p :: !Connects(links, p, sender, recipient)
    ensures r.Found? ==> Connects(links, r.path, sender, recipient) && Cost(links, r.path) == r.cost
    ensures r.Found? ==> forall p :: Connects(links, p, sender, recipient) ==> r.cost <= Cost(links, p)
  {
    if sender == recipient {
      TrivialRoute(links, sender);
      return Found([sender], 0.0);
    }
    var frontier := [Item(0.0, sender, [sender])];
    var best: Best := map[sender := 0.0];
    ghost var closed, floor := {}, 0.0;
    StartSearch(links, sender);
    while frontier != []
      invariant SearchOk(links, best, frontier, closed, sender, floor)
      invariant closed <= Nodes(links) + {sender} && recipient !in closed
      decreases (Nodes(links) + {sender}) - closed, |frontier|
    {
      hide FrontierOk, Open, Expanded;
      var item, rest;
      ghost var at;
      item, rest, at := PopCheapest(frontier);
      PopKeeps(links, best, frontier, closed, sender, floor, at);
      if item.node == recipient {
        CheapestIsOptimal(links, best, frontier, closed, sender, floor, recipient, item.cost);
        return Found(item.path, item.cost);
      }
      ItemNode(links, best, sender, item.cost, item);
      frontier, best := Expand(links, sender, item, rest, best, closed);
      if item.node in closed {
        assert closed + {item.node} == closed;
      }
      closed, floor := closed + {item.node}, item.cost;
    }
    forall p
      ensures !Connects(links, p, sender, recipient)
    {
      NothingLeft(links, best, closed, sender, floor, recipient, p);
    }
    return NoRoute;
  }

  lemma TrivialRoute(links: Links, n: nat)
    requires NonNegative(links)
    ensures Connects(links, [n], n, n) && Cost(links, [n]) == 0.0
    ensures forall p :: IsPath(links, p) ==> 0.0 <= Cost(links, p)
  {
    forall p | IsPath(links, p)
      ensures 0.0 <= Cost(links, p)
    {
      PrefixCost(links, p, 1);
    }
  }

  lemma StartSearch(links: Links, sender: nat)
    ensures SearchOk(links, map[sender := 0.0], [Item(0.0, sender, [sender])], {}, sender, 0.0)
  {
    var frontier := [Item(0.0, sender, [sender])];
    assert frontier[0].node == sender;
  }
}
