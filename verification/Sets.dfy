/** Sizes of finite sets. */
module Sets {
  lemma {:induction false} SubsetSize<T>(a: set<T>, b: set<T>)
    requires a <= b
    ensures |a| <= |b|
  {
    if a != {} {
      var x :| x in a;
      SubsetSize(a - {x}, b - {x});
    }
  }

  /** Removing an element from the part of a set that is still to be counted. */
  lemma CountOut<T>(a: set<T>, todo: set<T>, x: T)
    requires x in todo
    ensures |a * todo| == |a * (todo - {x})| + (if x in a then 1 else 0)
  {
    if x in a {
      assert a * todo == a * (todo - {x}) + {x};
    } else {
      assert a * todo == a * (todo - {x});
    }
  }

  /** A number that is not in the set. */
  lemma {:induction false} Outside(a: set<nat>) returns (x: nat)
    ensures forall y :: y in a ==> y < x
  {
    x := 0;
    if y :| y in a {
      var rest := Outside(a - {y});
      assert a == (a - {y}) + {y};
      x := if rest <= y then y + 1 else rest;
    }
  }
}
