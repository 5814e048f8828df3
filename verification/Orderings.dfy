/**
 Orderings of the numbers below `n`: lists that hold each of them once. They are the
 permutations of dimensions and the orders in which parsers can be matched. The one
 fact that both need is a counting argument: numbers below `n` without repetition are
 all of them exactly when they are `n` many. It is proved with sets of natural numbers
 and their sizes.
 */
module Orderings {

  /** The numbers below `n`, each exactly once. */
  predicate IsOrdering(order: seq<nat>, n: nat) {
    && |order| == n && (forall k | 0 <= k < n :: order[k] < n)
    && (forall j, k | 0 <= j < k < n :: order[j] != order[k])
  }

  function Below(n: nat): set<nat> {
    if n == 0 then {} else Below(n - 1) + {n - 1}
  }

  lemma {:induction false} BelowSize(n: nat)
    ensures |Below(n)| == n && forall i: nat :: i in Below(n) <==> i < n
  {
    if n > 0 {
      BelowSize(n - 1);
    }
  }

  function Elements(order: seq<nat>): set<nat> {
    set i | i in order
  }

  lemma {:induction false} DistinctSize(order: seq<nat>)
    requires forall j, k | 0 <= j < k < |order| :: order[j] != order[k]
    ensures |Elements(order)| == |order|
  {
    if order != [] {
      DistinctSize(order[1..]);
      assert Elements(order) == Elements(order[1..]) + {order[0]};
    }
  }

  lemma {:induction false} SubsetSize(s: set<nat>, t: set<nat>)
    requires s <= t
    ensures |s| <= |t| && (|s| == |t| ==> s == t)
  {
    if s != {} {
      var x :| x in s;
      SubsetSize(s - {x}, t - {x});
      if |s| == |t| {
        assert s == (s - {x}) + {x} && t == (t - {x}) + {x};
      }
    } else if |t| == 0 {
      assert t == {};
    }
  }

  /** Numbers below `n` without repetition are all of them exactly when they are `n` many. */
  lemma OrderingCovers(order: seq<nat>, n: nat)
    requires (forall k | 0 <= k < |order| :: order[k] < n) && (forall j, k | 0 <= j < k < |order| :: order[j] != order[k])
    ensures |order| == n <==> forall i: nat | i < n :: i in order
  {
    BelowSize(n);
    DistinctSize(order);
    SubsetSize(Elements(order), Below(n));
    if |order| == n {
      forall i: nat | i < n ensures i in order {
        assert i in Below(n);
      }
    }
    if forall i: nat | i < n :: i in order {
      assert Elements(order) == Below(n);
    }
  }
}
