/** The engine's `randomizeArray`: an in-place Fisher–Yates shuffle on a copy, driven by
    an oracle draw source. */
module Shuffles {
  /** The draw source: the c-th call of `rng()` returns `rng(c)`. */
  type Draws = nat -> real

  /** Every draw lies in [0, 1), as with `Math.random`. */
  ghost predicate UnitDraws(rng: Draws)
  {
    forall c: nat :: 0.0 <= rng(c) < 1.0
  }

  /** `Math.floor(r * n)`: a draw in [0, 1) scaled to an index below `n`. */
  function ScaledIndex(r: real, n: nat): (j: nat)
    requires 0.0 <= r < 1.0 && 0 < n
    ensures j < n
    ensures j as real <= r * n as real < j as real + 1.0
  {
    var x := r * n as real;
    assert x < n as real by {
      assert r * n as real < 1.0 * n as real;
    }
    x.Floor
  }

  function Swap<T>(s: seq<T>, i: nat, j: nat): (r: seq<T>)
    requires i < |s| && j < |s|
    ensures |r| == |s|
    ensures r[i] == s[j] && r[j] == s[i]
    ensures forall k :: 0 <= k < |s| && k != i && k != j ==> r[k] == s[k]
  {
    s[i := s[j]][j := s[i]]
  }

  /** The Fisher–Yates pass over positions `i`, `i - 1`, …, 1: position `i` is swapped
      with a position drawn from [0, i], the draw for position `i` being read at `c`. */
  function ShuffleFrom<T>(s: seq<T>, i: nat, rng: Draws, c: nat): (r: seq<T>)
    requires UnitDraws(rng) && i < |s|
    ensures |r| == |s|
    decreases i
  {
    if i == 0 then s
    else ShuffleFrom(Swap(s, i, ScaledIndex(rng(c), i + 1)), i - 1, rng, c + 1)
  }

  function Shuffle<T>(s: seq<T>, rng: Draws, c: nat): (r: seq<T>)
    requires UnitDraws(rng)
    ensures |r| == |s|
  {
    if |s| == 0 then s else ShuffleFrom(s, |s| - 1, rng, c)
  }

  /** A shuffle of `n` entries reads one draw per position from `n - 1` down to 1. */
  function ShuffleDraws(n: nat): nat
  {
    if n == 0 then 0 else n - 1
  }

  /** Exchanges two slots of `a` through a temporary. */
  method SwapAt<T>(a: array<T>, i: nat, j: nat)
    requires i < a.Length && j < a.Length
    modifies a
    ensures a[..] == Swap(old(a[..]), i, j)
  {
    var tmp := a[i];
    a[i] := a[j];
    a[j] := tmp;
  }

  /** The Fisher–Yates loop on `a`, from its last position down to 1. */
  method ShuffleInPlace<T>(a: array<T>, rng: Draws, c: nat) returns (next: nat)
    requires UnitDraws(rng) && a.Length > 0
    modifies a
    ensures a[..] == ShuffleFrom(old(a[..]), a.Length - 1, rng, c)
    ensures next == c + (a.Length - 1)
  {
    ghost var goal := ShuffleFrom(a[..], a.Length - 1, rng, c);
    ghost var current := a[..];
    var i := a.Length - 1;
    next := c;
    while i > 0
      invariant 0 <= i < a.Length == |current|
      invariant next == c + (a.Length - 1 - i)
      invariant a[..] == current
      invariant ShuffleFrom(current, i, rng, next) == goal
    {
      var j := ScaledIndex(rng(next), i + 1);
      current := Swap(current, i, j);
      next := next + 1;
      SwapAt(a, i, j);
      i := i - 1;
    }
  }

  /** The shuffle of a fresh copy of `s`; `s` itself is left alone. */
  method RandomizeArray<T>(s: seq<T>, rng: Draws, c: nat) returns (result: seq<T>, next: nat)
    requires UnitDraws(rng)
    ensures result == Shuffle(s, rng, c)
    ensures next == c + ShuffleDraws(|s|)
  {
    if |s| == 0 {
      return s, c;
    }
    var a := new T[|s|](k requires 0 <= k < |s| => s[k]);
    assert a[..] == s;
    next := ShuffleInPlace(a, rng, c);
    result := a[..];
  }

  function Range(n: nat): (r: seq<nat>)
    ensures |r| == n && forall k :: 0 <= k < n ==> r[k] == k
  {
    seq(n, k => k)
  }

  /** Every position in `order` is below `n`. */
  ghost predicate Bounded(order: seq<nat>, n: nat)
  {
    forall k :: 0 <= k < |order| ==> order[k] < n
  }

  /** The entries of `s` at the positions `order` lists. */
  function Select<T>(s: seq<T>, order: seq<nat>): (r: seq<T>)
    requires Bounded(order, |s|)
    ensures |r| == |order| && forall k :: 0 <= k < |order| ==> r[k] == s[order[k]]
  {
    seq(|order|, k requires 0 <= k < |order| => s[order[k]])
  }

  ghost predicate Distinct<T>(s: seq<T>)
  {
    forall a, b :: 0 <= a < b < |s| ==> s[a] != s[b]
  }

  /** A shuffle is a permutation: every entry keeps its multiplicity. */
  lemma {:induction false} ShuffleFromPermutes<T>(s: seq<T>, i: nat, rng: Draws, c: nat)
    requires UnitDraws(rng) && i < |s|
    ensures multiset(ShuffleFrom(s, i, rng, c)) == multiset(s)
    decreases i
  {
    if i > 0 {
      var j := ScaledIndex(rng(c), i + 1);
      var t := Swap(s, i, j);
      assert multiset(t) == multiset(s) by {
        assert t == s[i := s[j]][j := s[i]];
      }
      ShuffleFromPermutes(t, i - 1, rng, c + 1);
    }
  }

  lemma ShufflePermutes<T>(s: seq<T>, rng: Draws, c: nat)
    requires UnitDraws(rng)
    ensures multiset(Shuffle(s, rng, c)) == multiset(s)
  {
    if |s| > 0 {
      ShuffleFromPermutes(s, |s| - 1, rng, c);
    }
  }

  /** A shuffle moves entries without duplicating them. */
  lemma {:induction false} ShuffleFromKeepsDistinct<T>(s: seq<T>, i: nat, rng: Draws, c: nat)
    requires UnitDraws(rng) && i < |s| && Distinct(s)
    ensures Distinct(ShuffleFrom(s, i, rng, c))
    decreases i
  {
    if i > 0 {
      var j := ScaledIndex(rng(c), i + 1);
      var t := Swap(s, i, j);
      assert Distinct(t) by {
        forall a, b | 0 <= a < b < |t|
          ensures t[a] != t[b]
        {
          var a' := if a == i then j else if a == j then i else a;
          var b' := if b == i then j else if b == j then i else b;
          assert t[a] == s[a'] && t[b] == s[b'] && a' != b';
        }
      }
      ShuffleFromKeepsDistinct(t, i - 1, rng, c + 1);
    }
  }

  /** A shuffle of positions below `bound` yields positions below `bound`. */
  lemma {:induction false} ShuffleFromBounded(u: seq<nat>, i: nat, rng: Draws, c: nat, bound: nat)
    requires UnitDraws(rng) && i < |u| && Bounded(u, bound)
    ensures Bounded(ShuffleFrom(u, i, rng, c), bound)
    decreases i
  {
    if i > 0 {
      var j := ScaledIndex(rng(c), i + 1);
      ShuffleFromBounded(Swap(u, i, j), i - 1, rng, c + 1, bound);
    }
  }

  /** The shuffled positions of a roster of `n` are each of 0 … n-1 exactly once. */
  lemma ShuffledRange(n: nat, rng: Draws, c: nat)
    requires UnitDraws(rng)
    ensures |Shuffle(Range(n), rng, c)| == n
    ensures Distinct(Shuffle(Range(n), rng, c))
    ensures Bounded(Shuffle(Range(n), rng, c), n)
  {
    if n > 0 {
      ShuffleFromKeepsDistinct(Range(n), n - 1, rng, c);
      ShuffleFromBounded(Range(n), n - 1, rng, c, n);
    }
  }

  lemma SelectSwap<T>(s: seq<T>, u: seq<nat>, i: nat, j: nat)
    requires i < |u| && j < |u| && Bounded(u, |s|)
    ensures Bounded(Swap(u, i, j), |s|)
    ensures Select(s, Swap(u, i, j)) == Swap(Select(s, u), i, j)
  {
    var w := Swap(u, i, j);
    assert Bounded(w, |s|) by {
      forall k | 0 <= k < |w|
        ensures w[k] < |s|
      {
        assert w[k] == u[if k == i then j else if k == j then i else k];
      }
    }
  }

  /** Shuffling a selection is selecting by the shuffled positions: the same draws move
      entries and positions alike. */
  lemma {:induction false} SelectShuffleFrom<T>(s: seq<T>, u: seq<nat>, i: nat, rng: Draws, c: nat)
    requires UnitDraws(rng) && i < |u| && Bounded(u, |s|)
    ensures && Bounded(ShuffleFrom(u, i, rng, c), |s|)
            && Select(s, ShuffleFrom(u, i, rng, c)) == ShuffleFrom(Select(s, u), i, rng, c)
    decreases i
  {
    ShuffleFromBounded(u, i, rng, c, |s|);
    if i > 0 {
      var j := ScaledIndex(rng(c), i + 1);
      var w := Swap(u, i, j);
      SelectSwap(s, u, i, j);
      SelectShuffleFrom(s, w, i - 1, rng, c + 1);
    }
  }

  /** The shuffle of `s` is `s` read in the order of the shuffled positions. */
  lemma ShuffleIsSelect<T>(s: seq<T>, rng: Draws, c: nat)
    requires UnitDraws(rng)
    ensures && Bounded(Shuffle(Range(|s|), rng, c), |s|)
            && Select(s, Shuffle(Range(|s|), rng, c)) == Shuffle(s, rng, c)
  {
    var n := |s|;
    if n > 0 {
      var u := Range(n);
      assert Bounded(u, n);
      var selected := Select(s, u);
      assert selected == s by {
        assert forall k :: 0 <= k < n ==> selected[k] == s[k];
      }
      SelectShuffleFrom(s, u, n - 1, rng, c);
    }
  }

  /** The number of entries of `s` that satisfy `p`. */
  function Count<T>(s: seq<T>, p: T -> bool): (n: nat)
    ensures n <= |s|
  {
    if s == [] then 0 else Count(s[..|s| - 1], p) + (if p(s[|s| - 1]) then 1 else 0)
  }

  lemma {:induction false} CountUpdate<T>(s: seq<T>, i: nat, x: T, p: T -> bool)
    requires i < |s|
    ensures Count(s[i := x], p) == Count(s, p) - (if p(s[i]) then 1 else 0) + (if p(x) then 1 else 0)
    decreases |s|
  {
    var t := s[i := x];
    if i == |s| - 1 {
      assert t[..|t| - 1] == s[..|s| - 1];
    } else {
      assert t[..|t| - 1] == s[..|s| - 1][i := x];
      CountUpdate(s[..|s| - 1], i, x, p);
    }
  }

  /** Shuffling does not change how many entries satisfy `p`. */
  lemma {:induction false} CountShuffleFrom<T>(s: seq<T>, i: nat, rng: Draws, c: nat, p: T -> bool)
    requires UnitDraws(rng) && i < |s|
    ensures Count(ShuffleFrom(s, i, rng, c), p) == Count(s, p)
    decreases i
  {
    if i > 0 {
      var j := ScaledIndex(rng(c), i + 1);
      CountUpdate(s, i, s[j], p);
      CountUpdate(s[i := s[j]], j, s[i], p);
      assert Swap(s, i, j) == s[i := s[j]][j := s[i]];
      CountShuffleFrom(Swap(s, i, j), i - 1, rng, c + 1, p);
    }
  }

  lemma CountShuffle<T>(s: seq<T>, rng: Draws, c: nat, p: T -> bool)
    requires UnitDraws(rng)
    ensures Count(Shuffle(s, rng, c), p) == Count(s, p)
  {
    if |s| > 0 {
      CountShuffleFrom(s, |s| - 1, rng, c, p);
    }
  }

  /** Reading `s` in shuffled order does not change how many entries satisfy `p`. */
  lemma CountSelectShuffle<T>(s: seq<T>, order: seq<nat>, rng: Draws, c: nat, p: T -> bool)
    requires UnitDraws(rng) && order == Shuffle(Range(|s|), rng, c)
    ensures Bounded(order, |s|) && Count(Select(s, order), p) == Count(s, p)
  {
    CountShuffle(s, rng, c, p);
    ShuffleIsSelect(s, rng, c);
  }

  /** A sequence read as consecutive pairs, no pair with both entries satisfying `p`, has at
      most one such entry per pair, and exactly one per pair when every pair has one. */
  lemma {:induction false} CountPairs<T>(t: seq<T>, m: nat, p: T -> bool)
    requires |t| == 2 * m
    requires forall q :: 0 <= q < m ==> !(p(t[2 * q]) && p(t[2 * q + 1]))
    ensures Count(t, p) <= m
    ensures (forall q :: 0 <= q < m ==> p(t[2 * q]) || p(t[2 * q + 1])) ==> Count(t, p) == m
    decreases m
  {
    if m > 0 {
      var init := t[..2 * m - 2];
      assert t[..|t| - 1][..|t| - 2] == init;
      forall q | 0 <= q < m - 1
        ensures init[2 * q] == t[2 * q] && init[2 * q + 1] == t[2 * q + 1]
      {
      }
      CountPairs(init, m - 1, p);
      assert !(p(t[2 * (m - 1)]) && p(t[2 * (m - 1) + 1]));
    }
  }
}
