/**
 * Statistics over the fare set of one route: the smallest, the largest and
 * the sum of a non-empty set of fares in cents. The fares are kept in a
 * set, so each distinct fare counts once.
 */
module Stats {

  /** A set that is not empty has an element. */
  lemma NonEmptyHasElement(s: set<int>)
    requires s != {}
    ensures exists y :: y in s
  {
    if forall y :: y !in s {
      assert false;
    }
  }

  /** Some element of a non-empty set is below or equal to all of them. */
  lemma {:induction false} MinExists(s: set<int>)
    requires s != {}
    ensures exists m :: m in s && forall x :: x in s ==> m <= x
  {
    NonEmptyHasElement(s);
    var y :| y in s;
    if s != {y} {
      MinExists(s - {y});
      var m :| m in s - {y} && forall x :: x in s - {y} ==> m <= x;
      var w := if y < m then y else m;
      forall x | x in s
        ensures w <= x
      {
        if x != y {
          assert x in s - {y};
        }
      }
    }
  }

  /** Some element of a non-empty set is above or equal to all of them. */
  lemma {:induction false} MaxExists(s: set<int>)
    requires s != {}
    ensures exists m :: m in s && forall x :: x in s ==> x <= m
  {
    NonEmptyHasElement(s);
    var y :| y in s;
    if s != {y} {
      MaxExists(s - {y});
      var m :| m in s - {y} && forall x :: x in s - {y} ==> x <= m;
      var w := if m < y then y else m;
      forall x | x in s
        ensures x <= w
      {
        if x != y {
          assert x in s - {y};
        }
      }
    }
  }

  /** The least fare of a non-empty set (the first element of an ordered set). */
  function SetMin(s: set<int>): (m: int)
    requires s != {}
    ensures m in s
    ensures forall x :: x in s ==> m <= x
  {
    MinExists(s);
    var m :| m in s && forall x :: x in s ==> m <= x; m
  }

  /** The greatest fare of a non-empty set (the last element of an ordered set). */
  function SetMax(s: set<int>): (m: int)
    requires s != {}
    ensures m in s
    ensures forall x :: x in s ==> x <= m
  {
    MaxExists(s);
    var m :| m in s && forall x :: x in s ==> x <= m; m
  }

  /** The sum of the elements of a set, taken in increasing order. */
  function SetSum(s: set<int>): (r: int)
    ensures s == {} ==> r == 0
    decreases |s|
  {
    if s == {} then 0 else SetMin(s) + SetSum(s - {SetMin(s)})
  }

  /**
   * The sum does not depend on the order the fares are taken in: any fare
   * can be taken first. So SetSum is the sum of the set, not only of one
   * traversal of it.
   */
  lemma {:induction false} SumRemove(s: set<int>, x: int)
    requires x in s
    ensures SetSum(s) == x + SetSum(s - {x})
    decreases |s|
  {
    var m := SetMin(s);
    if x != m {
      var rest := s - {m};
      assert SetSum(s) == m + SetSum(rest);
      SumRemove(rest, x);
      SumRemove(s - {x}, m);
      assert rest - {x} == s - {x} - {m};
    }
  }

  /** The sum of n distinct fares lies between n times the least and n times the greatest. */
  lemma {:induction false} SumBounds(s: set<int>)
    requires s != {}
    ensures |s| * SetMin(s) <= SetSum(s) <= |s| * SetMax(s)
  {
    var m, top := SetMin(s), SetMax(s);
    var rest := s - {m};
    assert |rest| == |s| - 1;
    assert SetSum(s) == m + SetSum(rest);
    if rest != {} {
      SumBounds(rest);
      ExtendBounds(|rest|, m, SetMin(rest), SetSum(rest), SetMax(rest), top);
    } else {
      assert s == {m};
    }
  }

  /** Adding a fare below all others and above none of the greatest widens the bounds by one fare. */
  lemma ExtendBounds(n: nat, m: int, lo: int, sum: int, hi: int, top: int)
    requires n * lo <= sum <= n * hi
    requires m <= lo && hi <= top && m <= top
    ensures (n + 1) * m <= m + sum <= (n + 1) * top
  {
    MulMonotone(n, m, lo);
    MulMonotone(n, hi, top);
  }

  lemma MulMonotone(n: nat, a: int, b: int)
    requires a <= b
    ensures n * a <= n * b
  {
  }

  /**
   * The mean of a non-empty set of fares, in dollars (each fare divided by
   * 100, then averaged), lies between its least and greatest fare in dollars.
   */
  lemma MeanBounds(s: set<int>)
    requires s != {}
    ensures SetMin(s) as real / 100.0 <= (SetSum(s) as real / 100.0) / |s| as real <= SetMax(s) as real / 100.0
  {
    SumBounds(s);
    ScaledBounds(|s|, SetMin(s), SetSum(s), SetMax(s));
  }

  lemma ScaledBounds(n: nat, lo: int, sum: int, hi: int)
    requires n > 0 && n * lo <= sum <= n * hi
    ensures lo as real / 100.0 <= (sum as real / 100.0) / n as real <= hi as real / 100.0
  {
    CastMul(n, lo);
    CastMul(n, hi);
    DivBounds(sum as real, n as real, lo as real, hi as real);
  }

  lemma CastMul(n: nat, a: int)
    ensures (n * a) as real == n as real * a as real
  {
  }

  lemma DivBounds(sum: real, n: real, lo: real, hi: real)
    requires n > 0.0 && n * lo <= sum <= n * hi
    ensures lo / 100.0 <= (sum / 100.0) / n <= hi / 100.0
  {
    assert lo <= sum / n <= hi;
    assert (sum / 100.0) / n == (sum / n) / 100.0;
  }
}
