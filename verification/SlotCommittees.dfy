/** Splitting the eligible validators of a slot into committees. */
module SlotCommittees {
  import opened Arithmetic
  import opened Collections

  /** Quotient rounded up. */
  function CeilDiv(n: nat, d: nat): nat
    requires d >= 1
  {
    (n + d - 1) / d
  }

  function CommitteeCount(n: nat, target: nat, limit: nat): (c: nat)
    requires target >= 1 && limit >= 1
    ensures c >= 1
  {
    Max(1, Min(target, CeilDiv(n, limit)))
  }

  function CommitteeSize(n: nat, count: nat, limit: nat): (size: nat)
    requires count >= 1 && limit >= 1
    ensures size >= 1
  {
    Max(1, Min(limit, CeilDiv(n, count)))
  }

  // ---------------------------------------------------------------------------------------------
  // Arithmetic of the split
  // ---------------------------------------------------------------------------------------------

  /** The rounded-up quotient covers `n`, and one less does not. */
  lemma CeilDivBounds(n: nat, d: nat)
    requires d >= 1
    ensures CeilDiv(n, d) * d >= n
    ensures n >= 1 ==> CeilDiv(n, d) >= 1 && (CeilDiv(n, d) - 1) * d < n
  {
    var q := CeilDiv(n, d);
    assert n + d - 1 == d * q + (n + d - 1) % d;
    assert q * d == d * q;
    if n >= 1 {
      assert (q - 1) * d == q * d - d;
    }
  }

  lemma CeilDivLeast(n: nat, d: nat, k: nat)
    requires d >= 1 && k * d >= n && n >= 1
    ensures CeilDiv(n, d) <= k
  {
    CeilDivBounds(n, d);
    if k < CeilDiv(n, d) {
      MulLe(d, k, CeilDiv(n, d) - 1);
    }
  }

  /** Before the last committee is drawn, somebody is always left. */
  lemma SomebodyLeft(n: nat, target: nat, limit: nat)
    requires n >= 1 && target >= 1 && limit >= 1
    ensures var count := CommitteeCount(n, target, limit);
      (count - 1) * CommitteeSize(n, count, limit) < n
  {
    var count := CommitteeCount(n, target, limit);
    var size := CommitteeSize(n, count, limit);
    CeilDivBounds(n, limit);
    CeilDivBounds(n, count);
    MulLe(count - 1, size, limit);
    MulLe(limit, count - 1, CeilDiv(n, limit) - 1);
  }

  /** The committees have room for everyone exactly if the target count does not cap their number. */
  lemma RoomForAll(n: nat, target: nat, limit: nat)
    requires n >= 1 && target >= 1 && limit >= 1
    ensures var count := CommitteeCount(n, target, limit);
      count * CommitteeSize(n, count, limit) >= n <==> target >= CeilDiv(n, limit)
  {
    var count := CommitteeCount(n, target, limit);
    var size := CommitteeSize(n, count, limit);
    CeilDivBounds(n, limit);
    CeilDivBounds(n, count);
    if target >= CeilDiv(n, limit) {
      MulSwap(count, limit);
      CeilDivLeast(n, count, limit);
      assert size == CeilDiv(n, count);
      MulSwap(count, size);
    } else {
      MulLe(count, size, limit);
      MulLe(limit, count, CeilDiv(n, limit) - 1);
    }
  }

  lemma MulSwap(a: nat, b: nat)
    ensures a * b == b * a
  {
  }

  // ---------------------------------------------------------------------------------------------
  // Drawing
  // ---------------------------------------------------------------------------------------------

  /** The members of a list with a positive weight. */
  function Positive(s: seq<nat>, weight: nat -> real): set<nat> {
    set x | x in s && weight(x) > 0.0
  }

  /** Lottery keys decide, and the smaller index between equal keys. */
  predicate DrawnFirst(key: nat -> real, x: nat, y: nat) {
    key(x) < key(y) || (key(x) == key(y) && x <= y)
  }

  predicate IsLowest(among: set<nat>, x: nat, key: nat -> real) {
    x in among && forall y :: y in among ==> DrawnFirst(key, x, y)
  }

  lemma {:induction false} LowestExists(among: set<nat>, key: nat -> real)
    requires among != {}
    ensures exists x :: x in among && IsLowest(among, x, key)
    decreases among
  {
    var x :| x in among;
    var rest := among - {x};
    assert among == rest + {x};
    if rest == {} {
      assert among == {x};
      assert IsLowest(among, x, key);
    } else {
      LowestExists(rest, key);
      var y :| y in rest && IsLowest(rest, y, key);
      var low := if DrawnFirst(key, y, x) then y else x;
      assert low in among && forall z :: z in rest + {x} ==> DrawnFirst(key, low, z);
      assert IsLowest(among, low, key);
    }
  }

  /** What a draw gives: of those with positive weight the first `size` by lottery key, in that order. */
  ghost predicate IsDraw(source: set<nat>, committee: seq<nat>, size: nat, key: nat -> real) {
    && NoRepeats(committee) && Elements(committee) <= source && |committee| == Min(size, |source|)
    && (forall i, j :: 0 <= i < j < |committee| ==> DrawnFirst(key, committee[i], committee[j]))
    && forall x, y :: x in committee && y in source - Elements(committee) ==> DrawnFirst(key, x, y)
  }

  /** There is only one draw. */
  lemma {:induction false} DrawIsUnique(source: set<nat>, c: seq<nat>, d: seq<nat>, size: nat, key: nat -> real)
    requires IsDraw(source, c, size, key) && IsDraw(source, d, size, key)
    ensures c == d
  {
    DistinctSize(c);
    DistinctSize(d);
    forall x | x in c
      ensures x in d
    {
      NoneMissing(source, c, d, size, key, x);
    }
    SubsetSame(Elements(c), Elements(d));
    SameOrder(c, d, key);
  }

  lemma NoneMissing(source: set<nat>, c: seq<nat>, d: seq<nat>, size: nat, key: nat -> real, x: nat)
    requires IsDraw(source, c, size, key) && IsDraw(source, d, size, key) && x in c
    ensures x in d
  {
    if x !in d {
      SomeMissing(c, d, x);
      var y :| y in d && y !in c;
      Members(source, c, d, size, key, x, y);
      ComesFirst(source, c, size, key, x, y);
      ComesFirst(source, d, size, key, y, x);
    }
  }

  lemma Members(source: set<nat>, c: seq<nat>, d: seq<nat>, size: nat, key: nat -> real, x: nat, y: nat)
    requires IsDraw(source, c, size, key) && IsDraw(source, d, size, key) && x in c && y in d
    ensures x in source && y in source
  {
    assert x in Elements(c) && y in Elements(d);
  }

  lemma ComesFirst(source: set<nat>, c: seq<nat>, size: nat, key: nat -> real, x: nat, y: nat)
    requires IsDraw(source, c, size, key) && x in c && y in source && y !in c
    ensures DrawnFirst(key, x, y)
  {
    assert y in source - Elements(c);
  }

  lemma SomeMissing(c: seq<nat>, d: seq<nat>, x: nat)
    requires NoRepeats(c) && NoRepeats(d) && |c| == |d| && x in c && x !in d
    ensures exists y :: y in d && y !in c
  {
    DistinctSize(c);
    DistinctSize(d);
    if forall y :: y in d ==> y in c {
      SubsetSize(Elements(d) + {x}, Elements(c));
    }
  }

  lemma {:induction false} SameOrder(c: seq<nat>, d: seq<nat>, key: nat -> real)
    requires NoRepeats(c) && NoRepeats(d) && Elements(c) == Elements(d) && |c| == |d|
    requires forall i, j :: 0 <= i < j < |c| ==> DrawnFirst(key, c[i], c[j])
    requires forall i, j :: 0 <= i < j < |d| ==> DrawnFirst(key, d[i], d[j])
    ensures c == d
  {
    if c != [] {
      assert c[0] in Elements(d) && d[0] in Elements(c);
      var i :| 0 <= i < |d| && d[i] == c[0];
      var j :| 0 <= j < |c| && c[j] == d[0];
      assert c[0] == d[0];
      assert c == [c[0]] + c[1..] && d == [d[0]] + d[1..];
      assert Elements(c[1..]) == Elements(c) - {c[0]};
      assert Elements(d[1..]) == Elements(d) - {d[0]};
      SameOrder(c[1..], d[1..], key);
    }
  }

  /** A draw in progress: those drawn so far come before all the others. */
  ghost predicate Drawing(source: set<nat>, committee: seq<nat>, todo: set<nat>, key: nat -> real) {
    && NoRepeats(committee) && Elements(committee) <= source && todo == source - Elements(committee)
    && |committee| + |todo| == |source|
    && (forall i, j :: 0 <= i < j < |committee| ==> DrawnFirst(key, committee[i], committee[j]))
    && forall x, y :: x in committee && y in todo ==> DrawnFirst(key, x, y)
  }

  lemma DrawOne(source: set<nat>, committee: seq<nat>, todo: set<nat>, key: nat -> real, x: nat)
    requires Drawing(source, committee, todo, key) && IsLowest(todo, x, key)
    ensures Drawing(source, committee + [x], todo - {x}, key)
  {
    hide DrawnFirst;
    ElementsSnoc(committee, x);
    assert x !in Elements(committee);
    var more := committee + [x];
    forall i, j | 0 <= i < j < |more|
      ensures DrawnFirst(key, more[i], more[j])
    {
      assert i < |committee| ==> more[i] in committee;
    }
  }

  lemma Drawn(source: set<nat>, committee: seq<nat>, todo: set<nat>, size: nat, key: nat -> real)
    requires Drawing(source, committee, todo, key) && |committee| <= size && (|committee| == size || todo == {})
    ensures IsDraw(source, committee, size, key)
  {
    hide DrawnFirst;
  }

  lemma NoneDrawn(source: set<nat>, key: nat -> real)
    ensures Drawing(source, [], source, key)
  {
  }

  /** The `size` members of positive weight with the lowest lottery keys, or all of them if there are fewer. */
  method SampleWeightedCommittee(source: seq<nat>, size: nat, weight: nat -> real, key: nat -> real)
    returns (committee: seq<nat>)
    requires NoRepeats(source)
    ensures IsDraw(Positive(source, weight), committee, size, key)
  {
    hide IsLowest, Drawing, Positive, IsDraw;
    committee := [];
    var todo := Positive(source, weight);
    NoneDrawn(todo, key);
    while |committee| < size && todo != {}
      invariant |committee| <= size && Drawing(Positive(source, weight), committee, todo, key)
      decreases todo
    {
      LowestExists(todo, key);
      var x :| x in todo && IsLowest(todo, x, key);
      DrawOne(Positive(source, weight), committee, todo, key, x);
      committee := committee + [x];
      todo := todo - {x};
    }
    Drawn(Positive(source, weight), committee, todo, size, key);
  }

  // ---------------------------------------------------------------------------------------------
  // The committees of a slot
  // ---------------------------------------------------------------------------------------------

  function Without(s: seq<nat>, drop: seq<nat>): (r: seq<nat>)
    ensures forall x :: x in r <==> x in s && x !in drop
    ensures NoRepeats(s) ==> NoRepeats(r)
  {
    if s == [] then []
    else
      var last := s[|s| - 1];
      assert s == s[..|s| - 1] + [last];
      var front := Without(s[..|s| - 1], drop);
      if last in drop then front else front + [last]
  }

  /** Those already placed and those still waiting are the eligible validators, each once. */
  ghost predicate Split(eligible: seq<nat>, placed: seq<nat>, waiting: seq<nat>) {
    && NoRepeats(placed) && NoRepeats(waiting) && Elements(placed) !! Elements(waiting)
    && Elements(placed) + Elements(waiting) == Elements(eligible)
  }

  lemma SplitSize(eligible: seq<nat>, placed: seq<nat>, waiting: seq<nat>)
    requires NoRepeats(eligible) && Split(eligible, placed, waiting)
    ensures |placed| + |waiting| == |eligible|
  {
    DistinctSize(eligible);
    DistinctSize(placed);
    DistinctSize(waiting);
  }

  lemma SplitStep(eligible: seq<nat>, placed: seq<nat>, waiting: seq<nat>, committee: seq<nat>)
    requires Split(eligible, placed, waiting) && NoRepeats(committee) && Elements(committee) <= Elements(waiting)
    ensures Split(eligible, placed + committee, Without(waiting, committee))
  {
    var more := placed + committee;
    forall i, j | 0 <= i < j < |more|
      ensures more[i] != more[j]
    {
      if i < |placed| <= j {
        assert more[i] in Elements(placed) && more[j] in Elements(committee);
      }
    }
    assert Elements(more) == Elements(placed) + Elements(committee);
    assert Elements(Without(waiting, committee)) == Elements(waiting) - Elements(committee);
  }

  /** Nobody sits in two committees; with positive weights everyone who fits is placed. */
  ghost predicate GoodCommittees(eligible: seq<nat>, committees: seq<seq<nat>>, count: nat, size: nat, weight: nat -> real) {
    && |committees| == count && (forall k :: 0 <= k < |committees| ==> |committees[k]| <= size)
    && NoRepeats(Flatten(committees)) && Elements(Flatten(committees)) <= Positive(eligible, weight)
    && (Positive(eligible, weight) == Elements(eligible) ==> |Flatten(committees)| == Min(|eligible|, count * size))
  }

  /** Each committee is the draw by its own keys from whoever of positive weight the ones before have left. */
  ghost predicate AllDrawn(eligible: seq<nat>, committees: seq<seq<nat>>, size: nat, weight: nat -> real, key: nat -> nat -> real) {
    forall k :: 0 <= k < |committees| ==>
      IsDraw(Positive(eligible, weight) - Elements(Flatten(committees[..k])), committees[k], size, key(k))
  }

  lemma DrawnNext(
    eligible: seq<nat>, committees: seq<seq<nat>>, waiting: seq<nat>, committee: seq<nat>, size: nat, weight: nat -> real,
    key: nat -> nat -> real)
    requires AllDrawn(eligible, committees, size, weight, key) && Split(eligible, Flatten(committees), waiting)
    requires IsDraw(Positive(waiting, weight), committee, size, key(|committees|))
    ensures AllDrawn(eligible, committees + [committee], size, weight, key)
  {
    hide IsDraw, Positive, Elements, Flatten, Split;
    WaitingPositive(eligible, Flatten(committees), waiting, weight);
    var more := committees + [committee];
    assert more[..|committees|] == committees;
    forall k | 0 <= k < |more|
      ensures IsDraw(Positive(eligible, weight) - Elements(Flatten(more[..k])), more[k], size, key(k))
    {
      assert k < |committees| ==> more[..k] == committees[..k] && more[k] == committees[k];
    }
  }

  lemma WaitingPositive(eligible: seq<nat>, placed: seq<nat>, waiting: seq<nat>, weight: nat -> real)
    requires Split(eligible, placed, waiting)
    ensures Positive(waiting, weight) == Positive(eligible, weight) - Elements(placed)
  {
    forall x
      ensures x in waiting <==> x in eligible && x !in placed
    {
      assert x in Elements(waiting) <==> x in Elements(eligible) && x !in Elements(placed);
    }
  }

  /** The lottery keys may depend on the committee; `key(k)` are those of committee `k`. */
  method GetSlotCommittees(eligible: seq<nat>, target: nat, limit: nat, weight: nat -> real, key: nat -> nat -> real)
    returns (committees: seq<seq<nat>>)
    requires NoRepeats(eligible) && target >= 1 && limit >= 1
    ensures eligible == [] ==> committees == []
    ensures eligible != [] ==>
      var count := CommitteeCount(|eligible|, target, limit);
      var size := CommitteeSize(|eligible|, count, limit);
      GoodCommittees(eligible, committees, count, size, weight) && AllDrawn(eligible, committees, size, weight, key)
  {
    hide IsDraw, AllDrawn, Split, Positive, Elements, NoRepeats, CommitteeCount, CommitteeSize;
    if eligible == [] {
      return [];
    }
    var n := |eligible|;
    var count := CommitteeCount(n, target, limit);
    var size := CommitteeSize(n, count, limit);
    committees := [];
    var remaining := eligible;
    StartSplit(eligible);
    NothingDrawn(eligible, size, weight, key);
    SomebodyLeft(n, target, limit);
    var k := 0;
    while k < count
      invariant 0 <= k <= count && |committees| == k
      invariant Split(eligible, Flatten(committees), remaining) && AllDrawn(eligible, committees, size, weight, key)
      invariant forall j :: 0 <= j < k ==> |committees[j]| <= size
      invariant |Flatten(committees)| <= k * size
      invariant Elements(Flatten(committees)) <= Positive(eligible, weight)
      invariant Positive(eligible, weight) == Elements(eligible) ==> |Flatten(committees)| == Min(n, k * size)
    {
      SplitSize(eligible, Flatten(committees), remaining);
      MulLe(size, k, count - 1);
      assert remaining != [];
      var source := if remaining != [] then remaining else eligible;
      SplitFacts(eligible, Flatten(committees), remaining, weight);
      var committee := SampleWeightedCommittee(source, size, weight, key(k));
      DrawFacts(Positive(source, weight), committee, size, key(k));
      DrawnNext(eligible, committees, remaining, committee, size, weight, key);
      SplitStep(eligible, Flatten(committees), remaining, committee);
      ghost var placed := Flatten(committees);
      FlattenSnoc(committees, committee);
      ElementsAppend(placed, committee);
      NextMultiple(k, size);
      committees := committees + [committee];
      remaining := Without(remaining, committee);
      k := k + 1;
    }
    SplitFacts(eligible, Flatten(committees), remaining, weight);
  }

  lemma DrawFacts(source: set<nat>, committee: seq<nat>, size: nat, key: nat -> real)
    requires IsDraw(source, committee, size, key)
    ensures NoRepeats(committee) && Elements(committee) <= source && |committee| == Min(size, |source|)
  {
  }

  lemma NothingDrawn(eligible: seq<nat>, size: nat, weight: nat -> real, key: nat -> nat -> real)
    ensures AllDrawn(eligible, [], size, weight, key)
  {
  }

  lemma NextMultiple(k: nat, size: nat)
    ensures (k + 1) * size == k * size + size
  {
  }

  lemma StartSplit(eligible: seq<nat>)
    requires NoRepeats(eligible)
    ensures Split(eligible, [], eligible)
    ensures Elements<nat>([]) == {}
  {
  }

  lemma ElementsAppend(s: seq<nat>, t: seq<nat>)
    ensures Elements(s + t) == Elements(s) + Elements(t)
  {
  }

  lemma SplitFacts(eligible: seq<nat>, placed: seq<nat>, waiting: seq<nat>, weight: nat -> real)
    requires Split(eligible, placed, waiting)
    ensures NoRepeats(placed) && NoRepeats(waiting)
    ensures Positive(waiting, weight) <= Positive(eligible, weight) && Positive(waiting, weight) <= Elements(waiting)
    ensures Positive(eligible, weight) == Elements(eligible) ==> |Positive(waiting, weight)| == |waiting|
  {
    DistinctSize(waiting);
    forall x | x in waiting
      ensures x in eligible
    {
      assert x in Elements(waiting) && x in Elements(eligible);
    }
    if Positive(eligible, weight) == Elements(eligible) {
      forall x | x in waiting
        ensures weight(x) > 0.0
      {
        assert x in Elements(eligible) && x in Positive(eligible, weight);
      }
      assert Positive(waiting, weight) == Elements(waiting);
    }
  }

  /** With positive weights everybody is placed exactly if the target count does not cap the number of committees. */
  lemma EveryoneIsPlaced(
    eligible: seq<nat>, committees: seq<seq<nat>>, target: nat, limit: nat, weight: nat -> real)
    requires eligible != [] && NoRepeats(eligible) && target >= 1 && limit >= 1
    requires Positive(eligible, weight) == Elements(eligible)
    requires var count := CommitteeCount(|eligible|, target, limit);
      GoodCommittees(eligible, committees, count, CommitteeSize(|eligible|, count, limit), weight)
    ensures Elements(Flatten(committees)) == Elements(eligible) <==> target >= CeilDiv(|eligible|, limit)
  {
    hide CommitteeCount, CommitteeSize;
    RoomForAll(|eligible|, target, limit);
    DistinctSize(eligible);
    DistinctSize(Flatten(committees));
    if |Flatten(committees)| == |eligible| {
      SubsetSame(Elements(Flatten(committees)), Elements(eligible));
    }
  }

}
