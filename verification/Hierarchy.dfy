/** Trees of groups given by parent indices.  A group is created after its
    parent, so a parent's index is smaller than its children's; group 0 is the
    root. */
module Hierarchy {
  import opened Arith

  predicate IsTree(par: seq<nat>) {
    |par| > 0 && par[0] == 0 && forall i :: 0 < i < |par| ==> par[i] < i
  }

  /** Whether `a` is a proper ancestor of `i`. */
  predicate Above(par: seq<nat>, a: nat, i: nat)
    requires IsTree(par) && i < |par|
  {
    i > 0 && (par[i] == a || Above(par, a, par[i]))
  }

  lemma {:induction false} AboveParent(par: seq<nat>, c: nat, i: nat)
    requires IsTree(par) && 0 < c < |par| && i < |par| && (c == i || Above(par, c, i))
    ensures Above(par, par[c], i)
  {
    if c != i && par[i] != c {
      AboveParent(par, c, par[i]);
    }
  }

  lemma {:induction false} AboveIsBelow(par: seq<nat>, a: nat, i: nat)
    requires IsTree(par) && i < |par| && Above(par, a, i)
    ensures a < i
  {
    if par[i] != a {
      AboveIsBelow(par, a, par[i]);
    }
  }

  /** The sum of `v` over the children of `p` with an index below `k`. */
  function ChildSum(par: seq<nat>, v: seq<int>, p: int, k: nat): int
    requires k <= |par| == |v|
  {
    if k <= 1 then 0
    else ChildSum(par, v, p, k - 1) + if par[k - 1] == p then v[k - 1] else 0
  }

  function Total(v: seq<int>, k: nat): int
    requires k <= |v|
  {
    if k == 0 then 0 else Total(v, k - 1) + v[k - 1]
  }

  lemma ChildSumUpdate(par: seq<nat>, v: seq<int>, i: nat, x: int, p: int, k: nat)
    requires k <= |par| == |v| && i < |v|
    ensures ChildSum(par, v[i := x], p, k) ==
            ChildSum(par, v, p, k) + if 0 < i < k && par[i] == p then x - v[i] else 0
  {
    if k > 1 {
      ChildSumUpdate(par, v, i, x, p, k - 1);
    }
  }

  lemma ChildSumNonneg(par: seq<nat>, v: seq<int>, p: int, k: nat)
    requires k <= |par| == |v| && forall j :: 0 <= j < |v| ==> v[j] >= 0
    ensures ChildSum(par, v, p, k) >= 0
    ensures forall i :: 0 < i < k && par[i] == p ==> v[i] <= ChildSum(par, v, p, k)
  {
  }

  /** Sums of values that are no larger, child by child, are no larger. */
  lemma ChildSumLe(par: seq<nat>, v: seq<int>, w: seq<int>, p: int, k: nat)
    requires k <= |par| == |v| == |w|
    requires forall i :: 0 < i < k && par[i] == p ==> v[i] <= w[i]
    ensures ChildSum(par, v, p, k) <= ChildSum(par, w, p, k)
  {
  }

  lemma ChildSumSame(par: seq<nat>, v: seq<int>, w: seq<int>, p: int, k: nat)
    requires k <= |par| == |v| == |w|
    requires forall i :: 0 < i < k && par[i] == p ==> v[i] == w[i]
    ensures ChildSum(par, v, p, k) == ChildSum(par, w, p, k)
  {
  }

  lemma ChildSumScaled(par: seq<nat>, v: seq<int>, d: int, w: seq<int>, r: int, p: int, k: nat)
    requires k <= |par| == |v| == |w|
    requires forall i :: 0 < i < k && par[i] == p ==> v[i] * d <= r * w[i]
    ensures ChildSum(par, v, p, k) * d <= r * ChildSum(par, w, p, k)
  {
    if k > 1 {
      ChildSumScaled(par, v, d, w, r, p, k - 1);
      var x := if par[k - 1] == p then v[k - 1] else 0;
      var y := if par[k - 1] == p then w[k - 1] else 0;
      assert x * d <= r * y;
      assert (ChildSum(par, v, p, k - 1) + x) * d == ChildSum(par, v, p, k - 1) * d + x * d;
      assert r * (ChildSum(par, w, p, k - 1) + y) == r * ChildSum(par, w, p, k - 1) + r * y;
    }
  }

  function ChildSums(par: seq<nat>, v: seq<int>, k: nat): (s: seq<int>)
    requires k <= |par| == |v|
    ensures |s| == |par|
  {
    seq(|par|, p => ChildSum(par, v, p, k))
  }

  lemma TotalBump(v: seq<int>, w: seq<int>, p: int, x: int, k: nat)
    requires k <= |v| == |w| && 0 <= p < |v|
    requires forall i :: 0 <= i < k ==> w[i] == v[i] + if i == p then x else 0
    ensures Total(w, k) == Total(v, k) + if p < k then x else 0
  {
  }

  /** Every group but the root is the child of exactly one group. */
  lemma {:induction false} TotalOfChildSums(par: seq<nat>, v: seq<int>, k: nat)
    requires IsTree(par) && 1 <= k <= |par| == |v|
    ensures Total(ChildSums(par, v, k), |par|) == Total(v, k) - v[0]
  {
    if k == 1 {
      TotalZero(ChildSums(par, v, 1), |par|);
      assert Total(v, 1) == Total(v, 0) + v[0];
    } else {
      TotalOfChildSums(par, v, k - 1);
      TotalBump(ChildSums(par, v, k - 1), ChildSums(par, v, k), par[k - 1], v[k - 1], |par|);
    }
  }

  lemma TotalZero(v: seq<int>, k: nat)
    requires k <= |v| && forall i :: 0 <= i < k ==> v[i] == 0
    ensures Total(v, k) == 0
  {
  }

  lemma TotalLe(v: seq<int>, w: seq<int>, k: nat)
    requires k <= |v| && k <= |w| && forall i :: 0 <= i < k ==> v[i] <= w[i]
    ensures Total(v, k) <= Total(w, k)
  {
  }

  lemma TotalAdd(u: seq<int>, v: seq<int>, w: seq<int>, k: nat)
    requires k <= |u| && k <= |v| && k <= |w| && forall i :: 0 <= i < k ==> w[i] == u[i] + v[i]
    ensures Total(w, k) == Total(u, k) + Total(v, k)
  {
  }

  // ------------------------------------------------------------- flattening

  function LeafParts(share: seq<int>, leaf: seq<bool>): (s: seq<int>)
    requires |share| == |leaf|
    ensures |s| == |share|
  {
    seq(|share|, i requires 0 <= i < |share| => if leaf[i] then share[i] else 0)
  }

  /** What group `i` gets of its parent's share, and who may have children. */
  ghost predicate SplitsAt(par: seq<nat>, share: seq<int>, w: seq<int>, leaf: seq<bool>, i: nat)
    requires IsTree(par) && |share| == |w| == |leaf| == |par| && 0 < i < |par|
  {
    && (w[i] > 0 ==> share[i] * ChildSum(par, w, par[i], |par|) <= share[par[i]] * w[i])
    && (leaf[i] ==> w[i] > 0)
    && (leaf[i] || w[i] == 0 ==> ChildSum(par, w, i, |par|) == 0)
  }

  /** `share` splits a whole down the tree in proportion to `w`, rounding down. */
  ghost predicate Splits(par: seq<nat>, share: seq<int>, w: seq<int>, leaf: seq<bool>) {
    && IsTree(par) && |share| == |w| == |leaf| == |par| && !leaf[0]
    && (forall i :: 0 <= i < |par| ==> share[i] >= 0 && w[i] >= 0)
    && (forall i :: 0 < i < |par| ==> SplitsAt(par, share, w, leaf, i))
  }

  function Live(share: seq<int>, w: seq<int>, leaf: seq<bool>, keepLeaves: bool, keepInner: bool): (s: seq<int>)
    requires |share| == |w| == |leaf|
    ensures |s| == |share|
  {
    seq(|share|, i requires 0 <= i < |share| =>
      if i > 0 && w[i] > 0 && (if leaf[i] then keepLeaves else keepInner) then share[i] else 0)
  }

  /** The children of a group together get no more than the group. */
  lemma ChildrenWithin(par: seq<nat>, share: seq<int>, w: seq<int>, leaf: seq<bool>, p: nat)
    requires Splits(par, share, w, leaf) && p < |par|
    ensures ChildSum(par, Live(share, w, leaf, true, true), p, |par|) <=
            if p == 0 || (w[p] > 0 && !leaf[p]) then share[p] else 0
  {
    var v := Live(share, w, leaf, true, true);
    var sum := ChildSum(par, w, p, |par|);
    ChildSumNonneg(par, w, p, |par|);
    assert p > 0 ==> SplitsAt(par, share, w, leaf, p);
    if sum == 0 {
      ChildSumZero(par, v, p, |par|);
    } else {
      forall i | 0 < i < |par| && par[i] == p ensures v[i] * sum <= share[p] * w[i] {
        assert SplitsAt(par, share, w, leaf, i);
      }
      ChildSumScaled(par, v, sum, w, share[p], p, |par|);
      Cancel(sum, ChildSum(par, v, p, |par|), share[p]);
    }
  }

  lemma Cancel(d: nat, a: int, b: int)
    requires d > 0 && a * d <= b * d
    ensures a <= b
  {
    assert a * d == d * a && b * d == d * b;
    MulCancelLe(d, a, b);
  }

  lemma ChildSumZero(par: seq<nat>, v: seq<int>, p: int, k: nat)
    requires k <= |par| == |v| && forall i :: 0 < i < k && par[i] == p ==> v[i] == 0
    ensures ChildSum(par, v, p, k) == 0
  {
  }

  /** The leaves together get no more than the whole. */
  lemma LeavesWithin(par: seq<nat>, share: seq<int>, w: seq<int>, leaf: seq<bool>)
    requires Splits(par, share, w, leaf)
    ensures Total(LeafParts(share, leaf), |par|) <= share[0]
  {
    var n := |par|;
    var live := Live(share, w, leaf, true, true);
    var inner := Live(share, w, leaf, false, true);
    var root := seq(n, i => if i == 0 then share[0] else 0);
    var bound := seq(n, i requires 0 <= i < n => inner[i] + root[i]);
    assert forall i :: 0 < i < n ==> leaf[i] ==> SplitsAt(par, share, w, leaf, i);
    forall p | 0 <= p < n ensures ChildSums(par, live, n)[p] <= bound[p] {
      ChildrenWithin(par, share, w, leaf, p);
    }
    TotalLe(ChildSums(par, live, n), bound, n);
    TotalOfChildSums(par, live, n);
    TotalAdd(inner, root, bound, n);
    TotalAdd(inner, LeafParts(share, leaf), live, n);
    TotalBump(seq(n, i => 0), root, 0, share[0], n);
    TotalZero(seq(n, i => 0), n);
  }

  /** `s` is short of the exact part `x / sum` of `r` by at most one. */
  predicate NearPart(s: int, r: int, x: int, sum: int) {
    r * x <= sum * (s + 1)
  }

  /** Group `i` is short of its exact part by at most one, and a group with weight
      is a leaf or has children with weight. */
  ghost predicate NearlySplitsAt(par: seq<nat>, share: seq<int>, w: seq<int>, leaf: seq<bool>, i: nat)
    requires IsTree(par) && |share| == |w| == |leaf| == |par| && 0 < i < |par|
  {
    && (w[i] > 0 ==> NearPart(share[i], share[par[i]], w[i], ChildSum(par, w, par[i], |par|)))
    && (w[i] > 0 && !leaf[i] ==> ChildSum(par, w, i, |par|) > 0)
  }

  ghost predicate NearlySplits(par: seq<nat>, share: seq<int>, w: seq<int>, leaf: seq<bool>) {
    && Splits(par, share, w, leaf) && ChildSum(par, w, 0, |par|) > 0
    && (forall i :: 0 < i < |par| ==> NearlySplitsAt(par, share, w, leaf, i))
  }

  /** One for every group with weight below the root. */
  function Busy(w: seq<int>): (s: seq<int>)
    ensures |s| == |w|
  {
    seq(|w|, i requires 0 <= i < |w| => if i > 0 && w[i] > 0 then 1 else 0)
  }

  function RoundedUp(share: seq<int>, w: seq<int>): (s: seq<int>)
    requires |share| == |w|
    ensures |s| == |share|
  {
    seq(|share|, i requires 0 <= i < |share| => if i > 0 && w[i] > 0 then share[i] + 1 else 0)
  }

  /** The children of a group together get all of it but at most one each. */
  lemma ChildrenReach(par: seq<nat>, share: seq<int>, w: seq<int>, leaf: seq<bool>, p: nat)
    requires NearlySplits(par, share, w, leaf) && p < |par|
    ensures ChildSum(par, RoundedUp(share, w), p, |par|) >= if p == 0 || (w[p] > 0 && !leaf[p]) then share[p] else 0
  {
    var up := RoundedUp(share, w);
    var sum := ChildSum(par, w, p, |par|);
    ChildSumNonneg(par, up, p, |par|);
    if p == 0 || (w[p] > 0 && !leaf[p]) {
      assert p > 0 ==> NearlySplitsAt(par, share, w, leaf, p);
      forall i | 0 < i < |par| && par[i] == p ensures w[i] * share[p] <= sum * up[i] {
        assert NearlySplitsAt(par, share, w, leaf, i);
      }
      ChildSumScaled(par, w, share[p], up, sum, p, |par|);
      MulCancelLe(sum, share[p], ChildSum(par, up, p, |par|));
    }
  }

  /** The leaves together get the whole but at most one for every group with
      weight. */
  lemma LeavesReach(par: seq<nat>, share: seq<int>, w: seq<int>, leaf: seq<bool>)
    requires NearlySplits(par, share, w, leaf)
    ensures Total(LeafParts(share, leaf), |par|) + Total(Busy(w), |par|) >= share[0]
  {
    var n := |par|;
    var up, live := RoundedUp(share, w), Live(share, w, leaf, true, true);
    var inner := Live(share, w, leaf, false, true);
    var root := seq(n, i => if i == 0 then share[0] else 0);
    var bound := seq(n, i requires 0 <= i < n => inner[i] + root[i]);
    assert forall i :: 0 < i < n ==> leaf[i] ==> SplitsAt(par, share, w, leaf, i);
    forall p | 0 <= p < n ensures bound[p] <= ChildSums(par, up, n)[p] {
      ChildrenReach(par, share, w, leaf, p);
    }
    TotalLe(bound, ChildSums(par, up, n), n);
    TotalOfChildSums(par, up, n);
    TotalAdd(inner, root, bound, n);
    TotalAdd(inner, LeafParts(share, leaf), live, n);
    TotalAdd(live, Busy(w), up, n);
    TotalBump(seq(n, i => 0), root, 0, share[0], n);
    TotalZero(seq(n, i => 0), n);
  }
}
