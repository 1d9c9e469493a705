/** Lists without repeats and the sizes of finite sets. */
module Collections {

  predicate NoRepeats<T(==)>(s: seq<T>) {
    forall i, j :: 0 <= i < j < |s| ==> s[i] != s[j]
  }

  function Elements<T(==)>(s: seq<T>): set<T> {
    set x | x in s
  }

  lemma {:induction false} SubsetSize<T>(a: set<T>, b: set<T>)
    requires a <= b
    ensures |a| <= |b|
  {
    if a != {} {
      var x :| x in a;
      SubsetSize(a - {x}, b - {x});
    }
  }

  lemma {:induction false} SubsetSame<T>(a: set<T>, b: set<T>)
    requires a <= b && |a| == |b|
    ensures a == b
  {
    if x :| x in b && x !in a {
      SubsetSize(a, b - {x});
    }
  }

  lemma {:induction false} DistinctSize<T>(s: seq<T>)
    requires NoRepeats(s)
    ensures |Elements(s)| == |s|
  {
    if s != [] {
      var front, last := s[..|s| - 1], s[|s| - 1];
      DistinctSize(front);
      assert s == front + [last] && last !in front;
      assert Elements(s) == Elements(front) + {last};
    }
  }

  lemma {:induction false} ElementsSize<T>(s: seq<T>)
    ensures |Elements(s)| <= |s|
  {
    if s != [] {
      var last := |s| - 1;
      ElementsSize(s[..last]);
      assert s == s[..last] + [s[last]];
      assert Elements(s) == Elements(s[..last]) + {s[last]};
    }
  }

  lemma NoElements<T>()
    ensures Elements<T>([]) == {}
  {
  }

  lemma ElementsSnoc<T>(s: seq<T>, x: T)
    ensures Elements(s + [x]) == Elements(s) + {x}
    ensures NoRepeats(s) && x !in Elements(s) ==> NoRepeats(s + [x])
  {
  }

  lemma InElements<T>(s: seq<T>, x: T)
    ensures x in s <==> x in Elements(s)
  {
  }

  function Flatten<T>(lists: seq<seq<T>>): seq<T> {
    if lists == [] then [] else Flatten(lists[..|lists| - 1]) + lists[|lists| - 1]
  }

  lemma FlattenSnoc<T>(lists: seq<seq<T>>, list: seq<T>)
    ensures Flatten(lists + [list]) == Flatten(lists) + list
  {
    assert (lists + [list])[..|lists|] == lists;
  }

  predicate Ascending(s: seq<nat>) {
    forall i, j :: 0 <= i < j < |s| ==> s[i] < s[j]
  }

  predicate IsLeast(s: set<nat>, x: nat) {
    x in s && forall y :: y in s ==> x <= y
  }

  lemma {:induction false} LeastExists(s: set<nat>)
    requires s != {}
    ensures exists x :: x in s && IsLeast(s, x)
    decreases s
  {
    var x :| x in s;
    var rest := s - {x};
    assert s == rest + {x};
    if rest == {} {
      assert IsLeast(s, x);
    } else {
      LeastExists(rest);
      var low :| low in rest && IsLeast(rest, low);
      assert IsLeast(s, if low < x then low else x);
    }
  }

  lemma AscendingSnoc(s: seq<nat>, x: nat)
    requires Ascending(s) && forall y :: y in s ==> y < x
    ensures Ascending(s + [x])
  {
    assert forall i :: 0 <= i < |s| ==> s[i] in s;
  }

  /** The elements of a set in ascending order. */
  method Ascend(s: set<nat>) returns (order: seq<nat>)
    ensures Ascending(order) && Elements(order) == s
  {
    order := [];
    var todo := s;
    NoElements<nat>();
    while todo != {}
      invariant todo <= s && Elements(order) == s - todo && Ascending(order)
      invariant forall x, y :: x in order && y in todo ==> x < y
      decreases todo
    {
      LeastExists(todo);
      var x :| x in todo && IsLeast(todo, x);
      assert forall y :: y in todo - {x} ==> x < y;
      ElementsSnoc(order, x);
      AscendingSnoc(order, x);
      order := order + [x];
      todo := todo - {x};
    }
  }
}
