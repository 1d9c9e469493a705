/** Closest-node lookup by XOR distance, and the routing table it starts from. */
module Dht {
  import opened Arithmetic
  import opened Collections
  import opened Evm

  /** Bitwise exclusive or of two identifiers. */
  function Distance(a: nat, b: nat): nat {
    Bitwise(Xor, a, b)
  }

  lemma {:induction false} DistanceInjective(a: nat, b: nat, target: nat)
    requires Distance(a, target) == Distance(b, target)
    ensures a == b
    decreases a + b + target
  {
    if a > 0 || b > 0 || target > 0 {
      XorStep(a, target);
      XorStep(b, target);
      if a / 2 + b / 2 + target / 2 < a + b + target {
        DistanceInjective(a / 2, b / 2, target / 2);
      }
    }
  }

  /** The lowest bit and the rest of a distance. */
  lemma XorStep(a: nat, b: nat)
    ensures Distance(a, b) / 2 == Distance(a / 2, b / 2)
    ensures Distance(a, b) % 2 == if a % 2 == b % 2 then 0 else 1
  {
  }

  lemma {:induction false} DistanceZero(a: nat, b: nat)
    ensures Distance(a, b) == 0 <==> a == b
    decreases a + b
  {
    if a > 0 || b > 0 {
      XorStep(a, b);
      DistanceZero(a / 2, b / 2);
    }
  }

  // ---------------------------------------------------------------------------------------------
  // The k closest
  // ---------------------------------------------------------------------------------------------

  predicate Ascending(s: seq<nat>, target: nat) {
    forall i, j :: 0 <= i < j < |s| ==> Distance(s[i], target) < Distance(s[j], target)
  }

  predicate AllCloser(near: set<nat>, far: set<nat>, target: nat) {
    forall x, y :: x in near && y in far ==> Distance(x, target) < Distance(y, target)
  }

  /** `s` lists the `k` identifiers of `all` closest to the target, nearest first, or all of them if there are fewer. */
  predicate Closest(s: seq<nat>, all: set<nat>, target: nat, k: nat) {
    && Ascending(s, target) && Elements(s) <= all
    && |s| == Min(k, |all|) && AllCloser(Elements(s), all - Elements(s), target)
  }

  predicate Nearest(among: set<nat>, x: nat, target: nat) {
    x in among && forall y :: y in among ==> Distance(x, target) <= Distance(y, target)
  }

  lemma {:induction false} NearestExists(among: set<nat>, target: nat)
    requires among != {}
    ensures exists x :: x in among && Nearest(among, x, target)
    decreases among
  {
    hide Distance;
    var x :| x in among;
    var rest := among - {x};
    assert among == rest + {x};
    if rest == {} {
      assert among == {x};
      assert Nearest(among, x, target);
    } else {
      NearestExists(rest, target);
      var y :| y in rest && Nearest(rest, y, target);
      var low := if Distance(y, target) <= Distance(x, target) then y else x;
      assert low in among && forall z :: z in rest + {x} ==> Distance(low, target) <= Distance(z, target);
      assert Nearest(among, low, target);
    }
  }

  /** Sorting by distance and cutting off after `k`. */
  method TakeClosest(all: set<nat>, target: nat, k: nat) returns (s: seq<nat>)
    ensures Closest(s, all, target, k)
  {
    hide Distance, Nearest;
    s := [];
    var todo := all;
    while |s| < k && todo != {}
      invariant |s| <= k && |s| + |todo| == |all|
      invariant Elements(s) <= all && todo == all - Elements(s)
      invariant Ascending(s, target) && AllCloser(Elements(s), todo, target)
      decreases todo
    {
      NearestExists(todo, target);
      var x :| x in todo && Nearest(todo, x, target);
      TakeNext(s, todo, x, target);
      s := s + [x];
      todo := todo - {x};
    }
  }

  lemma TakeNext(s: seq<nat>, todo: set<nat>, x: nat, target: nat)
    requires Ascending(s, target) && AllCloser(Elements(s), todo, target) && Nearest(todo, x, target)
    ensures Ascending(s + [x], target) && AllCloser(Elements(s + [x]), todo - {x}, target)
    ensures Elements(s + [x]) == Elements(s) + {x}
  {
    hide Distance;
    forall i | 0 <= i < |s|
      ensures Distance(s[i], target) < Distance(x, target)
    {
      assert s[i] in Elements(s);
    }
    forall y | y in todo - {x}
      ensures Distance(x, target) < Distance(y, target)
    {
      if Distance(x, target) == Distance(y, target) {
        DistanceInjective(x, y, target);
      }
    }
  }

  lemma LastIsNew(s: seq<nat>, target: nat)
    requires s != [] && Ascending(s, target)
    ensures s[|s| - 1] !in s[..|s| - 1]
  {
    hide Distance;
    var front, last := s[..|s| - 1], s[|s| - 1];
    forall i | 0 <= i < |front|
      ensures front[i] != last
    {
      assert Distance(s[i], target) < Distance(s[|s| - 1], target);
    }
  }

  lemma {:induction false} AscendingSize(s: seq<nat>, target: nat)
    requires Ascending(s, target)
    ensures |Elements(s)| == |s|
  {
    hide Distance;
    if s != [] {
      var front, last := s[..|s| - 1], s[|s| - 1];
      AscendingSize(front, target);
      assert s == front + [last];
      LastIsNew(s, target);
      assert Elements(s) == Elements(front) + {last};
    }
  }

  /** There is only one such list. */
  lemma {:induction false} ClosestIsUnique(s: seq<nat>, t: seq<nat>, all: set<nat>, target: nat, k: nat)
    requires Closest(s, all, target, k) && Closest(t, all, target, k)
    ensures Elements(s) == Elements(t)
  {
    hide Distance, Ascending;
    AscendingSize(s, target);
    AscendingSize(t, target);
    if x :| x in Elements(s) && x !in Elements(t) {
      Outnumbered(s, t, all, target, k, x);
    }
    SubsetSame(Elements(s), Elements(t));
  }

  /** And so the list itself is determined. */
  lemma {:induction false} SameClosest(s: seq<nat>, t: seq<nat>, all: set<nat>, target: nat, k: nat)
    requires Closest(s, all, target, k) && Closest(t, all, target, k)
    ensures s == t
  {
    hide Distance, Ascending;
    ClosestIsUnique(s, t, all, target, k);
    SameAscending(s, t, target);
  }

  lemma {:induction false} SameAscending(s: seq<nat>, t: seq<nat>, target: nat)
    requires Ascending(s, target) && Ascending(t, target) && Elements(s) == Elements(t)
    ensures s == t
    decreases |s|
  {
    hide Distance;
    if s == [] || t == [] {
      EmptyElements(s);
      EmptyElements(t);
    } else {
      var m, n := |s| - 1, |t| - 1;
      LastIsNew(s, target);
      LastIsNew(t, target);
      LastIsFarthest(s, t, target);
      assert s == s[..m] + [s[m]] && t == t[..n] + [t[n]];
      assert Elements(s[..m]) == Elements(s) - {s[m]};
      assert Elements(t[..n]) == Elements(t) - {t[n]};
      SameAscending(s[..m], t[..n], target);
    }
  }

  lemma EmptyElements(s: seq<nat>)
    ensures s == [] <==> Elements(s) == {}
  {
    if s != [] {
      assert s[0] in Elements(s);
    }
  }

  lemma LastIsFarthest(s: seq<nat>, t: seq<nat>, target: nat)
    requires Ascending(s, target) && Ascending(t, target) && Elements(s) == Elements(t) && s != [] && t != []
    ensures s[|s| - 1] == t[|t| - 1]
  {
    hide Distance;
    assert s[|s| - 1] in Elements(t) && t[|t| - 1] in Elements(s);
    var i :| 0 <= i < |t| && t[i] == s[|s| - 1];
    var j :| 0 <= j < |s| && s[j] == t[|t| - 1];
  }

  lemma {:induction false} ClosestExists(all: set<nat>, target: nat, k: nat) returns (s: seq<nat>)
    ensures Closest(s, all, target, k)
  {
    hide Distance, Ascending, Nearest;
    if k == 0 {
      s := [];
      assert Ascending(s, target) by {
        EmptyAscends(target);
      }
    } else {
      s := ClosestExists(all, target, k - 1);
      AscendingSize(s, target);
      var todo := all - Elements(s);
      assert |todo| == |all| - |s|;
      if todo != {} {
        NearestExists(todo, target);
        var x :| x in todo && Nearest(todo, x, target);
        TakeNext(s, todo, x, target);
        s := s + [x];
        assert all - Elements(s) == todo - {x};
      }
    }
  }

  lemma EmptyAscends(target: nat)
    ensures Ascending([], target)
  {
  }

  /** The list of the `k` closest. */
  ghost function ClosestOf(all: set<nat>, target: nat, k: nat): (s: seq<nat>)
    ensures Closest(s, all, target, k)
  {
    assert exists s :: Closest(s, all, target, k) by {
      var s := ClosestExists(all, target, k);
    }
    var s :| Closest(s, all, target, k);
    s
  }

  lemma Outnumbered(s: seq<nat>, t: seq<nat>, all: set<nat>, target: nat, k: nat, x: nat)
    requires Closest(s, all, target, k) && Closest(t, all, target, k)
    requires |Elements(s)| == |s| && |Elements(t)| == |t| && x in Elements(s)
    ensures x in Elements(t)
  {
    hide Distance, Ascending;
    if x !in Elements(t) {
      forall y | y in Elements(t)
        ensures y in Elements(s)
      {
        assert Distance(y, target) < Distance(x, target);
      }
      SubsetSize(Elements(t) + {x}, Elements(s));
    }
  }

  /** What was cut off before can be forgotten: the closest of the old best and the new are the closest of everything. */
  lemma ClosestOfMore(best: seq<nat>, more: seq<nat>, learned: set<nat>, added: set<nat>, target: nat, k: nat)
    requires Closest(best, learned, target, k) && Closest(more, Elements(best) + added, target, k)
    ensures Closest(more, learned + added, target, k)
  {
    hide Distance, Ascending;
    AscendingSize(best, target);
    AscendingSize(more, target);
    var pool, all := Elements(best) + added, learned + added;
    if |best| < k {
      SubsetSame(Elements(best), learned);
      assert pool == all;
    } else {
      SubsetSize(pool, all);
      SubsetSize(Elements(best), pool);
      forall x, y | x in Elements(more) && y in all - Elements(more)
        ensures Distance(x, target) < Distance(y, target)
      {
        if y !in pool {
          CutOffIsFarther(best, more, learned, added, target, k, x, y);
        }
      }
    }
  }

  lemma CutOffIsFarther(
    best: seq<nat>, more: seq<nat>, learned: set<nat>, added: set<nat>, target: nat, k: nat, x: nat, y: nat)
    requires Closest(best, learned, target, k) && Closest(more, Elements(best) + added, target, k)
    requires |best| == k && |Elements(best)| == k && |Elements(more)| == |more| && |more| == k
    requires x in Elements(more) && y in learned - Elements(best)
    ensures Distance(x, target) < Distance(y, target)
  {
    hide Distance, Ascending;
    if Distance(x, target) >= Distance(y, target) {
      forall b | b in Elements(best)
        ensures b in Elements(more)
      {
        assert Distance(b, target) < Distance(y, target);
      }
      SubsetSize(Elements(best) + {x}, Elements(more));
    }
  }

  // ---------------------------------------------------------------------------------------------
  // The lookup
  // ---------------------------------------------------------------------------------------------

  /** What the reachable nodes answer when asked for the nodes closest to the target. */
  type Answers = map<nat, seq<nat>>

  function Reported(answers: Answers, self: nat, id: nat): set<nat> {
    if id in answers then Elements(answers[id]) - {self} else {}
  }

  /** Everything reported by the nodes asked. */
  function Heard(answers: Answers, self: nat, queried: set<nat>): set<nat> {
    set q, x | q in queried && x in Reported(answers, self, q) :: x
  }

  lemma HeardMore(answers: Answers, self: nat, queried: set<nat>, id: nat)
    ensures Heard(answers, self, queried + {id}) == Heard(answers, self, queried) + Reported(answers, self, id)
  {
    hide Reported;
  }

  lemma HeardNothing(answers: Answers, self: nat)
    ensures Heard(answers, self, {}) == {}
  {
  }

  lemma HeardUnion(answers: Answers, self: nat, a: set<nat>, b: set<nat>)
    ensures Heard(answers, self, a + b) == Heard(answers, self, a) + Heard(answers, self, b)
  {
    hide Reported;
  }

  function Universe(known: set<nat>, answers: Answers): set<nat> {
    known + set q, x | q in answers && x in answers[q] :: x
  }

  lemma ReportedWithin(known: set<nat>, answers: Answers, self: nat, id: nat)
    ensures Reported(answers, self, id) <= Universe(known, answers)
  {
  }

  /** What a lookup is about: who asks, whom it knows at first, what the others answer, and the target. */
  datatype Query = Query(self: nat, known: set<nat>, answers: Answers, target: nat, k: nat, alpha: nat)

  /** The running list, the next candidates, and everything heard so far, repeats included. */
  datatype Round = Round(best: seq<nat>, found: seq<nat>, heard: seq<nat>)

  function AnswerOf(answers: Answers, id: nat): seq<nat> {
    if id in answers then answers[id] else []
  }

  /** One id of an answer: the asking node passes over itself, and only what is not in the running list is new. */
  function HearOne(r: Round, x: nat, self: nat): Round {
    if x == self then r
    else if x in r.best then r.(heard := r.heard + [x])
    else Round(r.best + [x], r.found + [x], r.heard + [x])
  }

  function HearAll(r: Round, answer: seq<nat>, self: nat): Round {
    if answer == [] then r
    else HearOne(HearAll(r, answer[..|answer| - 1], self), answer[|answer| - 1], self)
  }

  function AskAll(r: Round, batch: seq<nat>, answers: Answers, self: nat): Round {
    if batch == [] then r
    else HearAll(AskAll(r, batch[..|batch| - 1], answers, self), AnswerOf(answers, batch[|batch| - 1]), self)
  }

  /** What hearing some ids does to a round. */
  ghost predicate Adds(r: Round, s: Round, ids: set<nat>) {
    && Elements(s.best) == Elements(r.best) + ids
    && Elements(r.found) <= Elements(s.found) <= Elements(r.found) + ids
    && Elements(s.best) <= Elements(r.best) + Elements(s.found)
    && Elements(s.heard) == Elements(r.heard) + ids
    && (FoundOk(r) ==> FoundOk(s))
  }

  predicate FoundOk(r: Round) {
    NoRepeats(r.found) && Elements(r.found) <= Elements(r.best)
  }

  lemma {:induction false} HearAllAdds(r: Round, answer: seq<nat>, self: nat)
    ensures Adds(r, HearAll(r, answer, self), Elements(answer) - {self})
  {
    hide Elements;
    NoElements<nat>();
    if answer != [] {
      var front, x := answer[..|answer| - 1], answer[|answer| - 1];
      var r1 := HearAll(r, front, self);
      HearAllAdds(r, front, self);
      assert answer == front + [x];
      ElementsSnoc(front, x);
      ElementsSnoc(r1.best, x);
      ElementsSnoc(r1.found, x);
      ElementsSnoc(r1.heard, x);
      InElements(r1.best, x);
    }
  }

  lemma {:induction false} AskAllAdds(r: Round, batch: seq<nat>, answers: Answers, self: nat)
    ensures Adds(r, AskAll(r, batch, answers, self), Heard(answers, self, Elements(batch)))
  {
    hide Elements, Heard;
    NoElements<nat>();
    HeardNothing(answers, self);
    if batch != [] {
      var front, id := batch[..|batch| - 1], batch[|batch| - 1];
      AskAllAdds(r, front, answers, self);
      assert batch == front + [id];
      ElementsSnoc(front, id);
      HearAllAdds(AskAll(r, front, answers, self), AnswerOf(answers, id), self);
      HeardMore(answers, self, Elements(front), id);
    }
  }

  /** The first `alpha` candidates not asked before. */
  function NextBatch(candidates: seq<nat>, asked: set<nat>, alpha: nat): (batch: seq<nat>)
    ensures forall x :: x in batch ==> x in candidates && x !in asked
    ensures batch == [] <==> alpha == 0 || forall x :: x in candidates ==> x in asked
    ensures |candidates| <= alpha ==> forall x :: x in candidates ==> x in asked || x in batch
  {
    if candidates == [] || alpha == 0 then []
    else if candidates[0] in asked then NextBatch(candidates[1..], asked, alpha)
    else [candidates[0]] + NextBatch(candidates[1..], asked, alpha - 1)
  }

  /** How a lookup ends: the list it returns, whom it asked, and all it heard, in order. */
  datatype Lookup = Lookup(best: seq<nat>, asked: set<nat>, heard: seq<nat>)

  /** Round after round: ask a batch, and go on with what was new in the answers and the list cut off at `k`. */
  ghost function Rounds(q: Query, r: Round, asked: set<nat>): Lookup
    requires Elements(r.found) <= Universe(q.known, q.answers)
    decreases Universe(q.known, q.answers) - asked
  {
    var batch := NextBatch(r.found, asked, q.alpha);
    if batch == [] then Lookup(r.best, asked, r.heard)
    else
      RoundWithin(q, r, asked);
      Rounds(q, NextRound(q, r, asked), asked + Elements(batch))
  }

  ghost function NextRound(q: Query, r: Round, asked: set<nat>): Round {
    var r1 := AskAll(r.(found := []), NextBatch(r.found, asked, q.alpha), q.answers, q.self);
    r1.(best := ClosestOf(Elements(r1.best), q.target, q.k))
  }

  ghost function FirstRound(q: Query): Round {
    var best := ClosestOf(q.known, q.target, q.k);
    Round(best, best, [])
  }

  ghost function LookUp(q: Query): Lookup {
    FirstWithin(q);
    Rounds(q, FirstRound(q), {})
  }

  lemma FirstWithin(q: Query)
    ensures Elements(FirstRound(q).found) <= Universe(q.known, q.answers)
  {
    hide Universe;
    KnownWithin(q.known, q.answers);
  }

  /** The new candidates are ids of the universe, and the batch is not empty and was not asked before. */
  lemma RoundWithin(q: Query, r: Round, asked: set<nat>)
    requires Elements(r.found) <= Universe(q.known, q.answers)
    ensures Elements(NextRound(q, r, asked).found) <= Universe(q.known, q.answers)
    ensures var batch := NextBatch(r.found, asked, q.alpha);
      batch != [] ==> batch[0] in Universe(q.known, q.answers) - asked && batch[0] in Elements(batch)
  {
    hide Universe, Heard, ClosestOf;
    var batch := NextBatch(r.found, asked, q.alpha);
    AskAllAdds(r.(found := []), batch, q.answers, q.self);
    HeardWithin(q, Elements(batch));
    if batch != [] {
      assert batch[0] in batch;
    }
  }

  lemma HeardWithin(q: Query, asked: set<nat>)
    ensures Heard(q.answers, q.self, asked) <= Universe(q.known, q.answers)
  {
  }

  // ---------------------------------------------------------------------------------------------
  // What a lookup finds
  // ---------------------------------------------------------------------------------------------

  ghost predicate Good(q: Query, best: seq<nat>, asked: set<nat>) {
    Closest(best, q.known + Heard(q.answers, q.self, asked), q.target, q.k)
  }

  lemma NextIsGood(q: Query, r: Round, asked: set<nat>)
    requires Good(q, r.best, asked)
    ensures Good(q, NextRound(q, r, asked).best, asked + Elements(NextBatch(r.found, asked, q.alpha)))
  {
    hide Closest, Heard, Elements;
    var batch := NextBatch(r.found, asked, q.alpha);
    var learned, added := q.known + Heard(q.answers, q.self, asked), Heard(q.answers, q.self, Elements(batch));
    AskAllAdds(r.(found := []), batch, q.answers, q.self);
    HeardUnion(q.answers, q.self, asked, Elements(batch));
    ClosestOfMore(r.best, NextRound(q, r, asked).best, learned, added, q.target, q.k);
    assert learned + added == q.known + Heard(q.answers, q.self, asked + Elements(batch));
  }

  lemma {:induction false} RoundsAreGood(q: Query, r: Round, asked: set<nat>)
    requires Elements(r.found) <= Universe(q.known, q.answers) && Good(q, r.best, asked)
    ensures var l := Rounds(q, r, asked); Good(q, l.best, l.asked) && asked <= l.asked
    decreases Universe(q.known, q.answers) - asked
  {
    hide Universe, Good, NextRound, Elements;
    var batch := NextBatch(r.found, asked, q.alpha);
    if batch != [] {
      RoundWithin(q, r, asked);
      NextIsGood(q, r, asked);
      RoundsAreGood(q, NextRound(q, r, asked), asked + Elements(batch));
    }
  }

  /** The result is exactly the `k` closest of the ids known at first and all heard from those asked, although whatever is
      cut off after a round is forgotten. */
  lemma LookUpIsClosest(q: Query)
    ensures var l := LookUp(q); Closest(l.best, q.known + Heard(q.answers, q.self, l.asked), q.target, q.k)
    ensures q.self !in q.known ==> q.self !in LookUp(q).best
  {
    hide Rounds, Closest, Universe, Elements, Heard;
    FirstWithin(q);
    HeardNothing(q.answers, q.self);
    assert q.known + {} == q.known;
    RoundsAreGood(q, FirstRound(q), {});
    var l := LookUp(q);
    ClosestWithin(l.best, q.known + Heard(q.answers, q.self, l.asked), q.target, q.k);
    HeardNotSelf(q.answers, q.self, l.asked);
    InElements(l.best, q.self);
  }

  // ---------------------------------------------------------------------------------------------
  // Whom a lookup asks
  // ---------------------------------------------------------------------------------------------

  /** Asked are only ids that were among the first or that somebody asked has reported, and what was heard is exactly what
      those asked reported. */
  ghost predicate AskedIsHeard(q: Query, r: Round, asked: set<nat>) {
    var heard := Heard(q.answers, q.self, asked);
    asked + Elements(r.found) <= q.known + heard && Elements(r.heard) == heard
  }

  lemma NextIsHeard(q: Query, r: Round, asked: set<nat>)
    requires AskedIsHeard(q, r, asked)
    ensures AskedIsHeard(q, NextRound(q, r, asked), asked + Elements(NextBatch(r.found, asked, q.alpha)))
  {
    hide Heard, ClosestOf;
    var batch := NextBatch(r.found, asked, q.alpha);
    AskAllAdds(r.(found := []), batch, q.answers, q.self);
    HeardUnion(q.answers, q.self, asked, Elements(batch));
  }

  lemma {:induction false} RoundsAskHeard(q: Query, r: Round, asked: set<nat>)
    requires Elements(r.found) <= Universe(q.known, q.answers) && AskedIsHeard(q, r, asked)
    ensures var l := Rounds(q, r, asked);
      && l.asked <= q.known + Heard(q.answers, q.self, l.asked)
      && Elements(l.heard) == Heard(q.answers, q.self, l.asked)
    decreases Universe(q.known, q.answers) - asked
  {
    hide Universe, AskedIsHeard, NextRound, Elements, Heard;
    var batch := NextBatch(r.found, asked, q.alpha);
    if batch == [] {
      AskedFacts(q, r, asked);
    } else {
      RoundWithin(q, r, asked);
      NextIsHeard(q, r, asked);
      RoundsAskHeard(q, NextRound(q, r, asked), asked + Elements(batch));
    }
  }

  lemma AskedFacts(q: Query, r: Round, asked: set<nat>)
    requires AskedIsHeard(q, r, asked)
    ensures asked <= q.known + Heard(q.answers, q.self, asked) && Elements(r.heard) == Heard(q.answers, q.self, asked)
  {
  }

  /** Whom the lookup asks: at least the first `alpha` of the closest known, and nobody it had not known or heard of from
      somebody asked; it hears exactly what these report. */
  lemma LookUpAsks(q: Query)
    ensures var l, first := LookUp(q), ClosestOf(q.known, q.target, q.k);
      && (forall i :: 0 <= i < |first| && i < q.alpha ==> first[i] in l.asked)
      && l.asked <= q.known + Heard(q.answers, q.self, l.asked)
      && Elements(l.heard) == Heard(q.answers, q.self, l.asked)
  {
    hide Universe, Heard, ClosestOf;
    var r := FirstRound(q);
    FirstWithin(q);
    HeardNothing(q.answers, q.self);
    RoundsAskHeard(q, r, {});
    var batch := NextBatch(r.found, {}, q.alpha);
    FirstBatch(r.found, q.alpha);
    if batch != [] {
      hide Rounds, NextRound, Elements;
      RoundWithin(q, r, {});
      RoundsStep(q, r, {});
      RoundsAskMore(q, NextRound(q, r, {}), {} + Elements(batch));
      AllInElements(batch);
    }
  }

  lemma AllInElements(s: seq<nat>)
    ensures forall i :: 0 <= i < |s| ==> s[i] in Elements(s)
  {
  }

  lemma {:induction false} FirstBatch(candidates: seq<nat>, alpha: nat)
    ensures NextBatch(candidates, {}, alpha) == candidates[..Min(alpha, |candidates|)]
  {
    if candidates != [] && alpha > 0 {
      FirstBatch(candidates[1..], alpha - 1);
    }
  }

  lemma RoundsStep(q: Query, r: Round, asked: set<nat>)
    requires Elements(r.found) <= Universe(q.known, q.answers) && NextBatch(r.found, asked, q.alpha) != []
    requires Elements(NextRound(q, r, asked).found) <= Universe(q.known, q.answers)
    ensures Rounds(q, r, asked) == Rounds(q, NextRound(q, r, asked), asked + Elements(NextBatch(r.found, asked, q.alpha)))
  {
    hide NextRound, Universe, Elements;
  }

  lemma {:induction false} RoundsAskMore(q: Query, r: Round, asked: set<nat>)
    requires Elements(r.found) <= Universe(q.known, q.answers)
    ensures asked <= Rounds(q, r, asked).asked
    decreases Universe(q.known, q.answers) - asked
  {
    hide Universe, NextRound, Elements;
    var batch := NextBatch(r.found, asked, q.alpha);
    if batch != [] {
      RoundWithin(q, r, asked);
      RoundsAskMore(q, NextRound(q, r, asked), asked + Elements(batch));
    }
  }

  // ---------------------------------------------------------------------------------------------
  // Convergence
  // ---------------------------------------------------------------------------------------------

  /** The batch takes all candidates, and whatever is in the list has been asked or is a candidate. */
  ghost predicate Covering(q: Query, r: Round, asked: set<nat>) {
    Elements(r.best) <= asked + Elements(r.found) && NoRepeats(r.found)
  }

  lemma FewCandidates(q: Query, r: Round)
    requires NoRepeats(r.found) && Elements(r.found) <= Universe(q.known, q.answers)
    requires |Universe(q.known, q.answers)| <= q.alpha
    ensures |r.found| <= q.alpha
  {
    hide Universe, Elements;
    DistinctSize(r.found);
    SubsetSize(Elements(r.found), Universe(q.known, q.answers));
  }

  lemma NextConverges(q: Query, r: Round, asked: set<nat>)
    requires Covering(q, r, asked) && |r.found| <= q.alpha
    ensures Covering(q, NextRound(q, r, asked), asked + Elements(NextBatch(r.found, asked, q.alpha)))
  {
    hide Heard, ClosestOf;
    var batch := NextBatch(r.found, asked, q.alpha);
    AskAllAdds(r.(found := []), batch, q.answers, q.self);
    var r1 := AskAll(r.(found := []), batch, q.answers, q.self);
    ClosestWithin(ClosestOf(Elements(r1.best), q.target, q.k), Elements(r1.best), q.target, q.k);
  }

  lemma {:induction false} RoundsConverge(q: Query, r: Round, asked: set<nat>)
    requires Elements(r.found) <= Universe(q.known, q.answers) && Covering(q, r, asked)
    requires |Universe(q.known, q.answers)| <= q.alpha
    ensures Elements(Rounds(q, r, asked).best) <= Rounds(q, r, asked).asked
    decreases Universe(q.known, q.answers) - asked
  {
    hide Universe, NextRound, Heard;
    var batch := NextBatch(r.found, asked, q.alpha);
    FewCandidates(q, r);
    if batch != [] {
      hide Covering, Elements;
      RoundWithin(q, r, asked);
      NextConverges(q, r, asked);
      RoundsConverge(q, NextRound(q, r, asked), asked + Elements(batch));
    }
  }

  /** With a batch size that no round exceeds, the lookup goes on until everybody in its result has been asked, and nobody
      of them knows anyone closer than what it returns. */
  lemma LookUpConverges(q: Query)
    requires |Universe(q.known, q.answers)| <= q.alpha
    ensures var l := LookUp(q);
      && Elements(l.best) <= l.asked
      && forall p, x, y :: p in l.best && x in Reported(q.answers, q.self, p) && x !in l.best && y in l.best ==>
           Distance(y, q.target) < Distance(x, q.target)
  {
    hide Universe, Rounds, Distance, Reported;
    var r, l := FirstRound(q), LookUp(q);
    FirstWithin(q);
    AscendingDistinct(r.best, q.target);
    RoundsConverge(q, r, {});
    LookUpIsClosest(q);
    assert forall p :: p in l.best ==> p in Elements(l.best);
  }

  lemma AscendingDistinct(s: seq<nat>, target: nat)
    requires Ascending(s, target)
    ensures NoRepeats(s)
  {
    hide Distance;
    forall i, j | 0 <= i < j < |s|
      ensures s[i] != s[j]
    {
      assert Distance(s[i], target) < Distance(s[j], target);
    }
  }

  /** If the list has room for everybody too, then everybody who can be heard of is found. */
  lemma LookUpFindsAll(q: Query)
    requires |Universe(q.known, q.answers)| <= q.alpha && |Universe(q.known, q.answers)| <= q.k
    ensures var all := Elements(LookUp(q).best);
      q.known <= all && forall p, x :: p in all && x in Reported(q.answers, q.self, p) ==> x in all
  {
    hide LookUp, Universe, Closest, Elements, Distance, Reported;
    LookUpConverges(q);
    LookUpIsClosest(q);
    var l := LookUp(q);
    var learned := q.known + Heard(q.answers, q.self, l.asked);
    HeardWithin(q, l.asked);
    KnownWithin(q.known, q.answers);
    SubsetSize(learned, Universe(q.known, q.answers));
    WholeList(l.best, learned, q.target, q.k);
  }

  lemma WholeList(s: seq<nat>, all: set<nat>, target: nat, k: nat)
    requires Closest(s, all, target, k) && |all| <= k
    ensures Elements(s) == all
  {
    hide Distance, Ascending;
    AscendingSize(s, target);
    SubsetSame(Elements(s), all);
  }

  const NARROW := Query(9, {2, 4}, map[2 := [], 4 := [1]], 0, 2, 1)

  /** With smaller batches it may stop before: here 4 is returned without having been asked, and knows 1, which is closer
      than both results. */
  lemma LookUpMayMiss()
    ensures LookUp(NARROW).best == [2, 4] && LookUp(NARROW).asked == {2}
    ensures 1 in Reported(NARROW.answers, NARROW.self, 4) && Distance(1, 0) < Distance(2, 0) < Distance(4, 0)
  {
    hide Closest, Distance, NextRound, Universe, ClosestOf;
    DistancesToZero();
    NarrowClosest();
    SameClosest(ClosestOf({2, 4}, 0, 2), [2, 4], {2, 4}, 0, 2);
    FirstWithin(NARROW);
    var r := Round([2, 4], [2, 4], []);
    FirstBatch(r.found, 1);
    assert NextBatch(r.found, {}, 1) == [2] && {} + Elements([2]) == {2};
    RoundWithin(NARROW, r, {});
    NarrowRound();
    RoundsStep(NARROW, r, {});
  }

  lemma NarrowClosest()
    ensures Closest([2, 4], {2, 4}, 0, 2)
  {
    DistancesToZero();
    hide Distance;
    assert |{2, 4}| == 2 && Elements([2, 4]) == {2, 4};
  }

  /** The node 2 knows nobody, so the first round finds no new candidate. */
  lemma NarrowRound()
    ensures NextRound(NARROW, Round([2, 4], [2, 4], []), {}) == Round([2, 4], [], [])
  {
    hide Closest, Distance, ClosestOf;
    var r := Round([2, 4], [], []);
    FirstBatch([2, 4], 1);
    assert NextBatch([2, 4], {}, 1) == [2] && [2][..0] == [];
    assert AskAll(r, [], NARROW.answers, 9) == r && HearAll(r, [], 9) == r && AnswerOf(NARROW.answers, 2) == [];
    assert AskAll(r, [2], NARROW.answers, 9) == HearAll(AskAll(r, [2][..0], NARROW.answers, 9), [], 9);
    assert Elements(r.best) == {2, 4};
    assert Round([2, 4], [2, 4], []).(found := []) == r;
    assert NextRound(NARROW, Round([2, 4], [2, 4], []), {}) == r.(best := ClosestOf({2, 4}, 0, 2));
    NarrowClosest();
    SameClosest(ClosestOf({2, 4}, 0, 2), [2, 4], {2, 4}, 0, 2);
  }

  lemma DistancesToZero()
    ensures Distance(1, 0) == 1 && Distance(2, 0) == 2 && Distance(4, 0) == 4
  {
    XorStep(4, 0);
    XorStep(2, 0);
    XorStep(1, 0);
    DistanceZero(0, 0);
  }

  lemma ClosestWithin(s: seq<nat>, all: set<nat>, target: nat, k: nat)
    requires Closest(s, all, target, k)
    ensures Elements(s) <= all
  {
  }

  lemma KnownWithin(known: set<nat>, answers: Answers)
    ensures known <= Universe(known, answers)
  {
  }

  lemma HeardNotSelf(answers: Answers, self: nat, queried: set<nat>)
    ensures self !in Heard(answers, self, queried)
  {
  }

  // ---------------------------------------------------------------------------------------------
  // Buckets
  // ---------------------------------------------------------------------------------------------

  function BitLength(n: nat): nat {
    if n == 0 then 0 else 1 + BitLength(n / 2)
  }

  function BucketIndex(local: nat, remote: nat): nat {
    var distance := Distance(local, remote);
    if distance == 0 then 0 else BitLength(distance) - 1
  }

  lemma {:induction false} BitLengthMeans(n: nat)
    requires n > 0
    ensures BitLength(n) >= 1 && Pow2(BitLength(n) - 1) <= n < Pow2(BitLength(n))
  {
    if n > 1 {
      BitLengthMeans(n / 2);
    } else {
      assert BitLength(1) == 1 && Pow2(1) == 2;
    }
  }

  /** Bucket `i` holds the nodes at distance 2^i up to 2^(i+1). */
  lemma BucketMeans(local: nat, remote: nat)
    requires local != remote
    ensures Pow2(BucketIndex(local, remote)) <= Distance(local, remote) < Pow2(BucketIndex(local, remote) + 1)
  {
    DistanceZero(local, remote);
    BitLengthMeans(Distance(local, remote));
  }

  function Without(s: seq<nat>, x: nat): (r: seq<nat>)
    ensures |r| <= |s| && (x in s ==> |r| < |s|)
    ensures forall y :: y in r <==> y in s && y != x
    ensures NoRepeats(s) ==> NoRepeats(r)
  {
    if s == [] then []
    else
      var last := s[|s| - 1];
      var front := Without(s[..|s| - 1], x);
      assert s == s[..|s| - 1] + [last];
      assert NoRepeats(s) ==> NoRepeats(s[..|s| - 1]) && last !in s[..|s| - 1];
      assert last in front ==> last in s[..|s| - 1];
      if last == x then front else front + [last]
  }

  /** A bucket after hearing from a node: the node is last, and the one heard from longest ago makes room if need be. */
  function Heeded(peers: seq<nat>, x: nat, k: nat): (r: seq<nat>)
    requires k >= 1
    ensures NoRepeats(peers) && |peers| <= k ==> NoRepeats(r) && |r| <= k
    ensures x in r && forall y :: y in r ==> y == x || y in peers
    ensures x in peers || |peers| < k ==> forall y :: y in peers ==> y in r
  {
    var rest := if x in peers then Without(peers, x) else if |peers| >= k && peers != [] then peers[1..] else peers;
    assert forall y :: y in peers && |peers| > 0 ==> y == peers[0] || y in peers[1..];
    rest + [x]
  }

  class RoutingTable {
    const local: nat
    const k: nat
    var buckets: seq<seq<nat>>

    /** Every bucket is small, without repeats, and holds only nodes of its own distance class. */
    ghost predicate Valid()
      reads this
    {
      k >= 1 && forall i :: 0 <= i < |buckets| ==> BucketOk(i, buckets[i])
    }

    ghost predicate BucketOk(i: nat, bucket: seq<nat>)
      reads this
    {
      NoRepeats(bucket) && |bucket| <= k && forall x :: x in bucket ==> x != local && BucketIndex(local, x) == i
    }

    constructor (local: nat, k: nat, bits: nat)
      requires k >= 1
      ensures Valid() && this.local == local && this.k == k && buckets == seq(bits, _ => [])
    {
      this.local, this.k := local, k;
      buckets := seq(bits, _ => []);
    }

    /** Hears from a node. Fails for an identifier with too many bits. */
    method Update(x: nat) returns (ok: bool)
      requires Valid()
      modifies this
      ensures Valid() && ok == (x == local || BucketIndex(local, x) < |buckets|)
      ensures !ok || x == local ==> buckets == old(buckets)
      ensures ok && x != local ==>
        var i := BucketIndex(local, x);
        i < |old(buckets)| && buckets == old(buckets)[i := Heeded(old(buckets)[i], x, k)]
    {
      hide BucketIndex, Heeded, NoRepeats;
      if x == local {
        return true;
      }
      var i := BucketIndex(local, x);
      if i >= |buckets| {
        return false;
      }
      assert BucketOk(i, buckets[i]);
      buckets := buckets[i := Heeded(buckets[i], x, k)];
      return true;
    }

    /** All known nodes, bucket by bucket; no node is in two buckets, so nothing has to be dropped. */
    method AllPeers() returns (peers: seq<nat>)
      requires Valid()
      ensures peers == Flatten(buckets) && NoRepeats(peers) && local !in peers
    {
      peers := [];
      var i := 0;
      while i < |buckets|
        invariant 0 <= i <= |buckets| && peers == Flatten(buckets[..i]) && NoRepeats(peers)
        invariant forall x :: x in peers ==> x != local && BucketIndex(local, x) < i
      {
        hide BucketIndex;
        assert BucketOk(i, buckets[i]);
        assert buckets[..i + 1] == buckets[..i] + [buckets[i]];
        FlattenSnoc(buckets[..i], buckets[i]);
        AppendDistinct(peers, buckets[i]);
        peers := peers + buckets[i];
        i := i + 1;
      }
      assert buckets[..i] == buckets;
    }
  }

  // ---------------------------------------------------------------------------------------------
  // The lookup in place
  // ---------------------------------------------------------------------------------------------

  /** The buckets after hearing from some ids, one after the other. */
  function ObserveAll(local: nat, k: nat, buckets: seq<seq<nat>>, xs: seq<nat>): (r: seq<seq<nat>>)
    requires k >= 1
    ensures |r| == |buckets|
  {
    if xs == [] then buckets
    else
      var before, x := ObserveAll(local, k, buckets, xs[..|xs| - 1]), xs[|xs| - 1];
      var i := BucketIndex(local, x);
      if x == local || i >= |before| then before else before[i := Heeded(before[i], x, k)]
  }

  /** Identifiers have no more bits than the table was made for. */
  predicate InRange(local: nat, bits: nat, ids: seq<nat>) {
    forall x :: x in ids ==> x == local || BucketIndex(local, x) < bits
  }

  /** Adds what one node answers to the running list, to the next candidates and to the routing table. */
  method Merge(
    table: RoutingTable, best0: seq<nat>, candidates0: seq<nat>, answer: seq<nat>, ghost heard0: seq<nat>,
    ghost base: seq<seq<nat>>)
    returns (best: seq<nat>, candidates: seq<nat>, ghost heard: seq<nat>)
    requires table.Valid() && InRange(table.local, |table.buckets|, answer)
    requires table.buckets == ObserveAll(table.local, table.k, base, heard0)
    modifies table
    ensures table.Valid() && table.buckets == ObserveAll(table.local, table.k, base, heard)
    ensures Round(best, candidates, heard) == HearAll(Round(best0, candidates0, heard0), answer, table.local)
  {
    hide BucketIndex, Heeded, table.BucketOk;
    best, candidates, heard := best0, candidates0, heard0;
    ghost var start := Round(best0, candidates0, heard0);
    assert answer[..0] == [];
    for i := 0 to |answer|
      invariant table.Valid() && table.buckets == ObserveAll(table.local, table.k, base, heard)
      invariant Round(best, candidates, heard) == HearAll(start, answer[..i], table.local)
    {
      var candidate := answer[i];
      assert candidate in answer && answer[..i + 1][..i] == answer[..i];
      if candidate == table.local {
        continue;
      }
      var _ := table.Update(candidate);
      assert (heard + [candidate])[..|heard|] == heard;
      heard := heard + [candidate];
      if candidate !in best {
        best := best + [candidate];
        candidates := candidates + [candidate];
      }
    }
    assert answer[..|answer|] == answer;
  }

  /** Asks every node of a batch; one that cannot be reached answers nothing. */
  method AskBatch(
    table: RoutingTable, best0: seq<nat>, batch: seq<nat>, asked0: set<nat>, answers: Answers, ghost heard0: seq<nat>,
    ghost base: seq<seq<nat>>)
    returns (best: seq<nat>, candidates: seq<nat>, asked: set<nat>, ghost heard: seq<nat>)
    requires table.Valid() && forall id :: id in answers ==> InRange(table.local, |table.buckets|, answers[id])
    requires table.buckets == ObserveAll(table.local, table.k, base, heard0)
    modifies table
    ensures table.Valid() && table.buckets == ObserveAll(table.local, table.k, base, heard)
    ensures asked == asked0 + Elements(batch)
    ensures Round(best, candidates, heard) == AskAll(Round(best0, [], heard0), batch, answers, table.local)
  {
    hide Elements, ObserveAll, InRange, RoutingTable.BucketOk, HearAll;
    best, candidates, asked, heard := best0, [], asked0, heard0;
    ghost var start, bits := Round(best0, [], heard0), |table.buckets|;
    NoElements<nat>();
    assert batch[..0] == [];
    for i := 0 to |batch|
      invariant table.Valid() && |table.buckets| == bits
      invariant table.buckets == ObserveAll(table.local, table.k, base, heard)
      invariant asked == asked0 + Elements(batch[..i])
      invariant Round(best, candidates, heard) == AskAll(start, batch[..i], answers, table.local)
    {
      var id := batch[i];
      assert batch[..i + 1] == batch[..i] + [id] && batch[..i + 1][..i] == batch[..i];
      ElementsSnoc(batch[..i], id);
      NothingHeard(Round(best, candidates, heard), table.local);
      asked := asked + {id};
      if id in answers {
        best, candidates, heard := Merge(table, best, candidates, answers[id], heard, base);
      }
    }
    assert batch[..|batch|] == batch;
  }

  lemma NothingHeard(r: Round, self: nat)
    ensures HearAll(r, [], self) == r
  {
  }

  function QueryOf(local: nat, k: nat, buckets: seq<seq<nat>>, answers: Answers, target: nat, alpha: nat): Query {
    Query(local, Elements(Flatten(buckets)), answers, target, k, alpha)
  }

  /** The lookup in place: it ends with the list, and asks the nodes, of the functional one, and its routing table has heard
      from everybody reported on the way, in that order. */
  method FindNode(table: RoutingTable, answers: Answers, target: nat, alpha: nat)
    returns (best: seq<nat>, asked: set<nat>, ghost heard: seq<nat>)
    requires table.Valid() && forall id :: id in answers ==> InRange(table.local, |table.buckets|, answers[id])
    modifies table
    ensures table.Valid()
    ensures Lookup(best, asked, heard) == LookUp(QueryOf(table.local, table.k, old(table.buckets), answers, target, alpha))
    ensures table.buckets == ObserveAll(table.local, table.k, old(table.buckets), heard)
  {
    hide Rounds, Closest, Universe, Elements, InRange, RoutingTable.BucketOk, ClosestOf;
    ghost var base, bits := table.buckets, |table.buckets|;
    var peers := table.AllPeers();
    ghost var q := QueryOf(table.local, table.k, base, answers, target, alpha);
    best := TakeClosest(Elements(peers), target, table.k);
    SameClosest(best, ClosestOf(q.known, target, q.k), q.known, target, q.k);
    FirstWithin(q);
    var candidates := best;
    asked, heard := {}, [];
    while candidates != []
      invariant table.Valid() && |table.buckets| == bits
      invariant table.buckets == ObserveAll(table.local, table.k, base, heard)
      invariant Elements(candidates) <= Universe(q.known, answers)
      invariant Rounds(q, Round(best, candidates, heard), asked) == LookUp(q)
      decreases Universe(q.known, answers) - asked
    {
      ghost var r := Round(best, candidates, heard);
      var batch := NextBatch(candidates, asked, alpha);
      RoundWithin(q, r, asked);
      if batch == [] {
        break;
      }
      RoundsStep(q, r, asked);
      ghost var asked0 := asked;
      best, candidates, asked, heard := AskBatch(table, best, batch, asked, answers, heard, base);
      ghost var all := best;
      best := TakeClosest(Elements(best), target, table.k);
      SameClosest(best, ClosestOf(Elements(all), target, q.k), Elements(all), target, q.k);
      assert NextRound(q, r, asked0) == Round(best, candidates, heard);
    }
    RoundsEnd(q, Round(best, candidates, heard), asked);
  }

  lemma RoundsEnd(q: Query, r: Round, asked: set<nat>)
    requires Elements(r.found) <= Universe(q.known, q.answers) && NextBatch(r.found, asked, q.alpha) == []
    ensures Rounds(q, r, asked) == Lookup(r.best, asked, r.heard)
  {
    hide Universe, Elements;
  }

  lemma AppendDistinct(s: seq<nat>, t: seq<nat>)
    requires NoRepeats(s) && NoRepeats(t) && forall x :: x in t ==> x !in s
    ensures NoRepeats(s + t)
  {
    forall i, j | 0 <= i < j < |s + t|
      ensures (s + t)[i] != (s + t)[j]
    {
      if i < |s| <= j {
        assert t[j - |s|] in t;
      }
    }
  }
}
