/** `weighted_choice` of awp/rand.py: pick a key with probability
    proportional to its weight by walking the keys and subtracting weights
    from a uniform draw scaled to the total. The scaled draw
    `x = random.random() * sum(d.values())` is an input; the choice is then
    deterministic. The dict's iteration order is the order of the sequence `d`. */
module Rand {
  import opened Wrappers

  /** The sum of the first `n` weights. */
  function Prefix<K>(d: seq<(K, real)>, n: nat): real
    requires n <= |d|
  {
    if n == 0 then 0.0 else d[0].1 + Prefix(d[1..], n - 1)
  }

  /** `sum(d.values())` */
  function Total<K>(d: seq<(K, real)>): real {
    Prefix(d, |d|)
  }

  /** The index the walk stops at when the remaining draw is `x`: the first
      entry whose subtraction brings the remainder to zero or below. */
  function Choose<K>(d: seq<(K, real)>, x: real): (r: Option<nat>)
    ensures r.Some? ==> r.value < |d|
  {
    if d == [] then None
    else if x - d[0].1 <= 0.0 then Some(0)
    else Shift(Choose(d[1..], x - d[0].1), 1)
  }

  function Shift(o: Option<nat>, offset: nat): Option<nat> {
    match o
    case None => None
    case Some(i) => Some(i + offset)
  }

  function KeyAt<K>(d: seq<(K, real)>, o: Option<nat>): Option<K>
    requires o.Some? ==> o.value < |d|
  {
    match o
    case None => None
    case Some(i) => Some(d[i].0)
  }

  /** `weighted_choice(d)` with the scaled draw `x`. */
  method WeightedChoice<K>(d: seq<(K, real)>, x: real) returns (r: Option<K>)
    ensures r == KeyAt(d, Choose(d, x))
    ensures d == [] ==> r == None
  {
    ghost var x0 := x;
    var x := x;
    var i := 0;
    while i < |d|
      invariant 0 <= i <= |d|
      invariant Choose(d, x0) == Shift(Choose(d[i..], x), i)
    {
      assert d[i..][1..] == d[i + 1..];
      x := x - d[i].1;
      if x <= 0.0 {
        return Some(d[i].0);
      }
      i := i + 1;
    }
    return None;
  }

  /** The walk picks exactly the first index at which the running sum of
      weights reaches `x`. */
  lemma {:induction false} ChooseIsFirstReaching<K>(d: seq<(K, real)>, x: real, i: nat)
    requires i < |d|
    requires Prefix(d, i + 1) >= x
    requires forall n :: 0 < n <= i ==> Prefix(d, n) < x
    ensures Choose(d, x) == Some(i)
  {
    assert Prefix(d, i + 1) == d[0].1 + Prefix(d[1..], i);
    if i > 0 {
      assert Prefix(d, 1) < x;
      assert Prefix(d, 1) == d[0].1 + Prefix(d[1..], 0);
      forall n | 0 < n <= i - 1 ensures Prefix(d[1..], n) < x - d[0].1 {
        assert Prefix(d, n + 1) < x;
      }
      ChooseIsFirstReaching(d[1..], x - d[0].1, i - 1);
    }
  }

  /** No running sum of weights reaches `x`. */
  predicate NeverReaches<K>(d: seq<(K, real)>, x: real) {
    forall n :: 0 < n <= |d| ==> Prefix(d, n) < x
  }

  /** The walk falls off the end, and `weighted_choice` returns None,
      exactly when no running sum reaches `x`. */
  lemma ChooseNoneIffNeverReached<K>(d: seq<(K, real)>, x: real)
    ensures Choose(d, x) == None <==> NeverReaches(d, x)
  {
    if Choose(d, x) == None {
      NoneNeverReaches(d, x);
    }
    if NeverReaches(d, x) {
      NeverReachedIsNone(d, x);
    }
  }

  lemma {:induction false} NoneNeverReaches<K>(d: seq<(K, real)>, x: real)
    requires Choose(d, x) == None
    ensures NeverReaches(d, x)
  {
    if d != [] {
      assert x - d[0].1 > 0.0;
      NoneNeverReaches(d[1..], x - d[0].1);
      forall n | 0 < n <= |d| ensures Prefix(d, n) < x {
        if n > 1 {
          assert Prefix(d[1..], n - 1) < x - d[0].1;
        }
      }
    }
  }

  lemma {:induction false} NeverReachedIsNone<K>(d: seq<(K, real)>, x: real)
    requires NeverReaches(d, x)
    ensures Choose(d, x) == None
  {
    if d != [] {
      assert Prefix(d, 1) < x;
      assert Prefix(d, 1) == d[0].1 + Prefix(d[1..], 0);
      forall n | 0 < n <= |d| - 1 ensures Prefix(d[1..], n) < x - d[0].1 {
        assert Prefix(d, n + 1) < x;
      }
      NeverReachedIsNone(d[1..], x - d[0].1);
    }
  }

  lemma {:induction false} PrefixNonNegMonotone<K>(d: seq<(K, real)>, n: nat)
    requires n <= |d|
    requires forall i :: 0 <= i < |d| ==> d[i].1 >= 0.0
    ensures 0.0 <= Prefix(d, n) <= Total(d)
  {
    if d != [] {
      assert d[0].1 >= 0.0;
      forall i | 0 <= i < |d[1..]| ensures d[1..][i].1 >= 0.0 {
        assert d[1..][i] == d[i + 1];
      }
      PrefixNonNegMonotone(d[1..], if n == 0 then 0 else n - 1);
    }
  }

  /** With non-negative weights and a draw in [0, total], some key is always chosen. */
  lemma NonEmptyAlwaysChooses<K>(d: seq<(K, real)>, x: real)
    requires d != []
    requires forall i :: 0 <= i < |d| ==> d[i].1 >= 0.0
    requires 0.0 <= x <= Total(d)
    ensures Choose(d, x).Some?
  {
    assert !NeverReaches(d, x);
    ChooseNoneIffNeverReached(d, x);
  }

  /** With a positive remaining draw the chosen entry has positive weight,
      whatever the signs of the other weights. */
  lemma {:induction false} ChosenHasPositiveWeight<K>(d: seq<(K, real)>, x: real)
    requires x > 0.0
    ensures Choose(d, x).Some? ==> d[Choose(d, x).value].1 > 0.0
  {
    if d != [] && x - d[0].1 > 0.0 {
      ChosenHasPositiveWeight(d[1..], x - d[0].1);
    }
  }

  /** When every weight is zero the total is zero, so is the draw
      `random.random() * 0`, and the first key is chosen: there is no failure. */
  lemma AllZeroChoosesFirst<K>(d: seq<(K, real)>)
    requires d != []
    requires forall i :: 0 <= i < |d| ==> d[i].1 == 0.0
    ensures Total(d) == 0.0
    ensures Choose(d, 0.0) == Some(0)
  {
    PrefixNonPositive(d, |d|);
  }

  lemma {:induction false} PrefixNonPositive<K>(d: seq<(K, real)>, n: nat)
    requires n <= |d|
    requires forall i :: 0 <= i < |d| ==> d[i].1 == 0.0
    ensures Prefix(d, n) == 0.0
  {
    if n > 0 {
      forall i | 0 <= i < |d[1..]| ensures d[1..][i].1 == 0.0 {
        assert d[1..][i] == d[i + 1];
      }
      PrefixNonPositive(d[1..], n - 1);
    }
  }
}
