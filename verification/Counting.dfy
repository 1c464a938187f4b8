/** Cardinalities of sets that change one element at a time. */
module Counting {

  function Max(a: int, b: int): int {
    if a > b then a else b
  }

  /** The set after `x` was reconsidered: in it exactly when `inside`. */
  ghost function Moved<T>(s: set<T>, x: T, inside: bool): set<T> {
    if inside then s + {x} else s - {x}
  }

  lemma MovedCard<T>(s: set<T>, x: T, inside: bool)
    ensures |Moved(s, x, inside)| == |s| - (if x in s then 1 else 0) + (if inside then 1 else 0)
  {
    if x in s {
      assert s == (s - {x}) + {x};
      if inside { assert s + {x} == s; }
    } else if !inside {
      assert s - {x} == s;
    }
  }

  lemma SubsetCard<T>(a: set<T>, b: set<T>)
    requires a <= b
    ensures |a| <= |b|
    ensures |a| == |b| ==> a == b
  {
    assert b == a + (b - a);
  }

  predicate Within(a: nat, x: nat, b: nat) {
    a <= x < b
  }

  ghost function Range(a: nat, b: nat): set<nat> {
    set x: nat | x < b && Within(a, x, b)
  }

  lemma {:induction false} RangeCard(a: nat, b: nat)
    requires a <= b
    ensures |Range(a, b)| == b - a
    decreases b
  {
    if a < b {
      RangeCard(a, b - 1);
      assert Within(a, b - 1, b);
      assert Range(a, b) == Range(a, b - 1) + {b - 1} by {
        forall x | x in Range(a, b) && x != b - 1 ensures x in Range(a, b - 1) { assert Within(a, x, b - 1); }
        forall x | x in Range(a, b - 1) ensures x in Range(a, b) { assert Within(a, x, b); }
      }
    } else {
      assert Range(a, b) == {};
    }
  }
}
