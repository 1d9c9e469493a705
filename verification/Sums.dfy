/** Sums of a price over the values of a finite map, and of a score over a finite set. */
module Sums {

  ghost function Sum<K, V>(m: map<K, V>, price: V -> int): int
    decreases |m|
  {
    if m == map[] then 0
    else
      var k :| k in m;
      price(m[k]) + Sum(m - {k}, price)
  }

  /** The sum does not depend on the order in which keys are taken. */
  lemma {:induction false} SumRemove<K, V>(m: map<K, V>, price: V -> int, k: K)
    requires k in m
    ensures Sum(m, price) == price(m[k]) + Sum(m - {k}, price)
    decreases |m|
  {
    var first :| first in m && Sum(m, price) == price(m[first]) + Sum(m - {first}, price);
    if first != k {
      SumRemove(m - {first}, price, k);
      SumRemove(m - {k}, price, first);
      assert m - {first} - {k} == m - {k} - {first};
    }
  }

  lemma SumUpdate<K, V>(m: map<K, V>, price: V -> int, k: K, v: V)
    ensures Sum(m[k := v], price) == Sum(m, price) - (if k in m then price(m[k]) else 0) + price(v)
  {
    SumRemove(m[k := v], price, k);
    assert m[k := v] - {k} == m - {k};
    if k in m {
      SumRemove(m, price, k);
    } else {
      assert m - {k} == m;
    }
  }

  lemma {:induction false} SumZero<K, V>(m: map<K, V>, price: V -> int)
    requires forall k :: k in m ==> price(m[k]) == 0
    ensures Sum(m, price) == 0
    decreases |m|
  {
    if m != map[] {
      var k :| k in m;
      SumRemove(m, price, k);
      SumZero(m - {k}, price);
    }
  }

  lemma {:induction false} SumNonNegative<K, V>(m: map<K, V>, price: V -> int)
    requires forall k :: k in m ==> price(m[k]) >= 0
    ensures Sum(m, price) >= 0
    decreases |m|
  {
    if m != map[] {
      var k :| k in m;
      SumRemove(m, price, k);
      SumNonNegative(m - {k}, price);
    }
  }

  /** With non-negative prices no single value is dearer than the whole, and two different keys together are not. */
  lemma SumBounds<K, V>(m: map<K, V>, price: V -> int, j: K, k: K)
    requires forall i :: i in m ==> price(m[i]) >= 0
    requires j in m
    ensures 0 <= price(m[j]) <= Sum(m, price)
    ensures k in m && k != j ==> price(m[j]) + price(m[k]) <= Sum(m, price)
  {
    SumRemove(m, price, j);
    SumNonNegative(m - {j}, price);
    if k in m && k != j {
      SumRemove(m - {j}, price, k);
      SumNonNegative(m - {j} - {k}, price);
    }
  }

  /** Two maps whose keys differ only by zero-priced values, and whose common keys are priced alike. */
  lemma {:induction false} SumSupport<K, V>(m: map<K, V>, n: map<K, V>, price: V -> int)
    requires forall k :: k in m && k in n ==> price(m[k]) == price(n[k])
    requires forall k :: k in m && k !in n ==> price(m[k]) == 0
    requires forall k :: k in n && k !in m ==> price(n[k]) == 0
    ensures Sum(m, price) == Sum(n, price)
    decreases |m|
  {
    if m == map[] {
      SumZero(n, price);
    } else {
      var k :| k in m;
      SumRemove(m, price, k);
      SumSupport(m - {k}, n - {k}, price);
      if k in n {
        SumRemove(n, price, k);
      } else {
        assert n - {k} == n;
      }
    }
  }

  // ---------------------------------------------------------------------------------------------
  // Scores
  // ---------------------------------------------------------------------------------------------

  /** Total score of a set. */
  ghost function ScoreOf<K>(score: K -> real, who: set<K>): real
    decreases who
  {
    if who == {} then 0.0
    else
      var i :| i in who;
      score(i) + ScoreOf(score, who - {i})
  }

  lemma {:induction false} ScoreAdd<K>(score: K -> real, who: set<K>, i: K)
    requires i !in who
    ensures ScoreOf(score, who + {i}) == score(i) + ScoreOf(score, who)
    decreases who
  {
    var all := who + {i};
    var first :| first in all && ScoreOf(score, all) == score(first) + ScoreOf(score, all - {first});
    if first == i {
      assert all - {i} == who;
    } else {
      assert all - {first} == (who - {first}) + {i};
      ScoreAdd(score, who - {first}, i);
      assert who == (who - {first}) + {first};
      ScoreAdd(score, who - {first}, first);
    }
  }

  lemma {:induction false} ScoreSplit<K>(score: K -> real, a: set<K>, b: set<K>)
    requires a !! b
    ensures ScoreOf(score, a + b) == ScoreOf(score, a) + ScoreOf(score, b)
    decreases b
  {
    if b == {} {
      assert a + b == a;
    } else {
      var i :| i in b;
      ScoreSplit(score, a, b - {i});
      assert a + b == a + (b - {i}) + {i} && b == b - {i} + {i};
      ScoreAdd(score, a + (b - {i}), i);
      ScoreAdd(score, b - {i}, i);
    }
  }

  lemma {:induction false} ScoreNonNegative<K>(score: K -> real, who: set<K>)
    requires forall i :: i in who ==> score(i) >= 0.0
    ensures ScoreOf(score, who) >= 0.0
    decreases who
  {
    if who != {} {
      var i :| i in who;
      ScoreNonNegative(score, who - {i});
      assert who == who - {i} + {i};
      ScoreAdd(score, who - {i}, i);
    }
  }

  lemma ScoreMonotone<K>(score: K -> real, a: set<K>, b: set<K>)
    requires a <= b && forall i :: i in b ==> score(i) >= 0.0
    ensures 0.0 <= ScoreOf(score, a) <= ScoreOf(score, b)
  {
    ScoreSplit(score, a, b - a);
    assert a + (b - a) == b;
    ScoreNonNegative(score, a);
    ScoreNonNegative(score, b - a);
  }
}
