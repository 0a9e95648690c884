/** Facts about finite sets of integer keys: the key set of the viewer's
    `std::map<int, ...>`, which the source walks in ascending order and whose
    first and last entries give the extreme instance numbers. */
module Keys {

  predicate IsLeast(s: set<int>, x: int)
  {
    x in s && forall y :: y in s ==> x <= y
  }

  predicate IsGreatest(s: set<int>, x: int)
  {
    x in s && forall y :: y in s ==> y <= x
  }

  /** A non-empty set has an element to pick. */
  lemma HasElement(s: set<int>)
    requires s != {}
    ensures exists x :: x in s
  {
    if forall x :: x !in s { assert false; }
  }

  /** A non-empty finite set of integers has a least element. */
  lemma {:induction false} LeastExists(s: set<int>)
    requires s != {}
    ensures exists x :: IsLeast(s, x)
    decreases |s|
  {
    HasElement(s);
    var y :| y in s;
    if s == {y} {
      assert IsLeast(s, y);
    } else {
      LeastExists(s - {y});
      var m :| IsLeast(s - {y}, m);
      var x := if y < m then y else m;
      forall z | z in s ensures x <= z {
        if z != y { assert z in s - {y}; }
      }
      assert IsLeast(s, x);
    }
  }

  /** A non-empty finite set of integers has a greatest element. */
  lemma {:induction false} GreatestExists(s: set<int>)
    requires s != {}
    ensures exists x :: IsGreatest(s, x)
    decreases |s|
  {
    HasElement(s);
    var y :| y in s;
    if s == {y} {
      assert IsGreatest(s, y);
    } else {
      GreatestExists(s - {y});
      var m :| IsGreatest(s - {y}, m);
      var x := if y > m then y else m;
      forall z | z in s ensures z <= x {
        if z != y { assert z in s - {y}; }
      }
      assert IsGreatest(s, x);
    }
  }

  /** The first key of a non-empty map (`begin()->first`). */
  ghost function Least(s: set<int>): (m: int)
    requires s != {}
    ensures IsLeast(s, m)
  {
    LeastExists(s);
    var m :| IsLeast(s, m); m
  }

  /** The last key of a non-empty map (`rbegin()->first`). */
  ghost function Greatest(s: set<int>): (m: int)
    requires s != {}
    ensures IsGreatest(s, m)
  {
    GreatestExists(s);
    var m :| IsGreatest(s, m); m
  }

  /** With two keys or more, the first key is strictly below the last. */
  lemma LeastBelowGreatest(s: set<int>)
    requires |s| >= 2
    ensures Least(s) < Greatest(s)
  {
    var lo := Least(s);
    if lo == Greatest(s) {
      forall y | y in s ensures y == lo { }
      assert s <= {lo};
      SubsetSize(s, {lo});
    }
  }

  /** The integers from lo to hi inclusive. */
  function Range(lo: int, hi: int): (r: set<int>)
    ensures forall x :: x in r <==> lo <= x <= hi
    decreases hi - lo
  {
    if hi < lo then {} else Range(lo, hi - 1) + {hi}
  }

  /** [lo, hi] holds hi - lo + 1 integers. */
  lemma {:induction false} RangeSize(lo: int, hi: int)
    requires lo <= hi + 1
    ensures |Range(lo, hi)| == hi - lo + 1
    decreases hi - lo
  {
    if lo <= hi {
      RangeSize(lo, hi - 1);
      assert hi !in Range(lo, hi - 1);
    }
  }

  /** A subset is no larger than its superset. */
  lemma {:induction false} SubsetSize(a: set<int>, b: set<int>)
    requires a <= b
    ensures |a| <= |b|
    decreases |a|
  {
    if a != {} {
      HasElement(a);
      var x :| x in a;
      SubsetSize(a - {x}, b - {x});
    }
  }

  /** A set contained in a finite set of the same size is that set. */
  lemma SubsetSameSize(a: set<int>, b: set<int>)
    requires a <= b && |a| == |b|
    ensures a == b
  {
    if a != b {
      if forall x :: x in b ==> x in a { assert false; }
      var x :| x in b && x !in a;
      SubsetSize(a, b - {x});
    }
  }

  /** A key set has no gap (it is every integer from its first to its last
      key) exactly when its size is `last - first + 1`. */
  lemma CompleteIffSize(s: set<int>)
    requires s != {}
    ensures |s| == Greatest(s) - Least(s) + 1 <==> s == Range(Least(s), Greatest(s))
  {
    var lo, hi := Least(s), Greatest(s);
    RangeSize(lo, hi);
    assert s <= Range(lo, hi);
    if |s| == hi - lo + 1 {
      SubsetSameSize(s, Range(lo, hi));
    }
  }
}
