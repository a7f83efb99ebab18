/** The end of a donation in block/blk-iocost.c: the new inuse weights of the leaves
    are propagated up, and the shares follow from them, top down. */
module Settle {
  import opened Donation
  import opened Hierarchy
  import opened RealArith
  import opened Transfer

  lemma {:induction false} SumUpdate(par: seq<nat>, v: seq<real>, i: nat, x: real, p: int, k: nat)
    requires k <= |par| == |v| && i < |v|
    ensures SumOver(par, v[i := x], p, k) ==
            SumOver(par, v, p, k) + if 0 < i < k && par[i] == p then x - v[i] else 0.0
  {
    if k > 1 {
      SumUpdate(par, v, i, x, p, k - 1);
    }
  }

  /** Children that have weight at all make the sum positive. */
  lemma SumPositive(par: seq<nat>, a: seq<real>, v: seq<real>, p: int, k: nat)
    requires k <= |par| == |a| == |v| && forall c :: 0 < c < k && par[c] == p ==> v[c] > 0.0
    ensures SumOver(par, v, p, k) >= 0.0
    ensures SumOver(par, a, p, k) != 0.0 ==> SumOver(par, v, p, k) > 0.0
  {
  }

  /** Sums and inner weights follow from the leaves, except that inner group `x` may
      still be out of date; everything has weight. */
  ghost predicate Weighed(g: Groups, f: Final, x: int) {
    && Wf(g) && FinalShape(g, f)
    && (forall j :: 0 <= j < |g.par| ==> f.isum[j] == SumOver(g.par, f.inuse, j, |g.par|))
    && (forall j :: 0 < j < |g.par| ==> f.inuse[j] > 0.0)
    && (forall j :: 0 < j < |g.par| && j != x && !g.leaf[j] ==> InnerFinal(g, f, j))
  }

  lemma SumsNext(g: Groups, f: Final, e: Final, i: nat)
    requires Wf(g) && FinalShape(g, f) && FinalShape(g, e) && 0 < i < |g.par|
    requires e.inuse == f.inuse[i := e.inuse[i]]
    requires e.isum == f.isum[g.par[i] := f.isum[g.par[i]] + e.inuse[i] - f.inuse[i]]
    requires forall j :: 0 <= j < |g.par| ==> f.isum[j] == SumOver(g.par, f.inuse, j, |g.par|)
    ensures forall j :: 0 <= j < |g.par| ==> e.isum[j] == SumOver(g.par, e.inuse, j, |g.par|)
  {
    forall j | 0 <= j < |g.par| ensures e.isum[j] == SumOver(g.par, e.inuse, j, |g.par|) {
      SumUpdate(g.par, f.inuse, i, e.inuse[i], j, |g.par|);
    }
  }

  lemma InnerStays(g: Groups, f: Final, e: Final, j: nat)
    requires Wf(g) && FinalShape(g, f) && FinalShape(g, e) && 0 < j < |g.par|
    requires InnerFinal(g, f, j) && e.inuse[j] == f.inuse[j] && e.isum[j] == f.isum[j]
    ensures InnerFinal(g, e, j)
  {
  }

  /** The weight an inner group has by its children. */
  function ByChildren(g: Groups, f: Final, i: nat): real
    requires i < |g.active| && i < |g.sum| && i < |f.isum| && g.sum[i] != 0.0
  {
    g.active[i] * f.isum[i] / g.sum[i]
  }

  lemma InnerWeight(g: Groups, f: Final, x: int, i: nat)
    requires Weighed(g, f, x) && i < |g.par| && !g.leaf[i]
    ensures f.isum[i] > 0.0 && g.sum[i] > 0.0
    ensures i > 0 ==> ByChildren(g, f, i) > 0.0
  {
    assert GroupOk(g, i);
    SumPositive(g.par, g.active, f.inuse, i, |g.par|);
    if i > 0 {
      Positive(g.active[i], f.isum[i]);
      Positive(g.active[i] * f.isum[i], g.sum[i]);
    }
  }

  /** One level of the walk moves the only outdated weight to the parent. */
  lemma WeighNext(g: Groups, f: Final, e: Final, c: nat)
    requires Weighed(g, f, c) && 0 < c < |g.par| && FinalShape(g, e) && e.inuse[c] > 0.0
    requires e.inuse == f.inuse[c := e.inuse[c]]
    requires e.isum == f.isum[g.par[c] := f.isum[g.par[c]] + e.inuse[c] - f.inuse[c]]
    requires !g.leaf[c] ==> g.sum[c] != 0.0 && e.inuse[c] == ByChildren(g, f, c)
    ensures Weighed(g, e, g.par[c])
  {
    SumsNext(g, f, e, c);
    forall j | 0 < j < |g.par| && j != g.par[c] && !g.leaf[j] ensures InnerFinal(g, e, j) {
      if j != c {
        InnerStays(g, f, e, j);
      }
    }
  }

  ghost predicate SameLeavesBut(g: Groups, f: Final, e: Final, i: nat)
    requires |g.leaf| == |g.par| && FinalShape(g, f) && FinalShape(g, e)
  {
    forall j :: 0 < j < |g.par| && g.leaf[j] && j != i ==> e.inuse[j] == f.inuse[j]
  }

  lemma UpToDate(g: Groups, f: Final, x: nat)
    requires Weighed(g, f, x) && (x > 0 ==> x < |g.par| && g.sum[x] != 0.0 && f.inuse[x] == ByChildren(g, f, x))
    ensures Weighed(g, f, 0)
  {
  }

  /** One level of the loop: the sum of the parent, then the child. */
  method Apply(g: Groups, f: Final, c: nat, w: real) returns (e: Final)
    requires Weighed(g, f, c) && 0 < c < |g.par| && w > 0.0
    requires !g.leaf[c] ==> g.sum[c] != 0.0 && w == ByChildren(g, f, c)
    ensures Weighed(g, e, g.par[c]) && e.inuse == f.inuse[c := w] && !g.leaf[g.par[c]]
  {
    var p := g.par[c];
    e := f.(inuse := f.inuse[c := w], isum := f.isum[p := f.isum[p] + w - f.inuse[c]]);
    WeighNext(g, f, e, c);
    ParentIsInner(g, c);
  }

  /** The walk of __propagate_weights has come to group `c`, which should get `w`. */
  ghost predicate Walking(g: Groups, f0: Final, f: Final, i: nat, inuse: real, c: nat, w: real) {
    && c < |g.par| && Weighed(g, f, c) && FinalShape(g, f0) && SameLeavesBut(g, f0, f, i) && i < |g.par|
    && (if c == i then w == inuse else !g.leaf[c] && f.inuse[i] == inuse)
    && (c > 0 ==> w > 0.0)
    && (c > 0 && !g.leaf[c] ==> g.sum[c] != 0.0 && w == ByChildren(g, f, c))
  }

  /** The walk has come to group `c`, or is over at the root. */
  ghost predicate Walked(g: Groups, f0: Final, f: Final, i: nat, inuse: real, c: nat, w: real) {
    if c > 0 then Walking(g, f0, f, i, inuse, c, w) && i < |g.par| && g.leaf[i]
    else Arrived(g, f0, f, i, inuse)
  }

  ghost predicate Arrived(g: Groups, f0: Final, f: Final, i: nat, inuse: real) {
    Weighed(g, f, 0) && FinalShape(g, f0) && i < |g.par| && SameLeavesBut(g, f0, f, i) && f.inuse[i] == inuse
  }

  /** One round: apply the weight, and see what the parent should get. */
  method Climb(g: Groups, ghost f0: Final, f: Final, ghost i: nat, ghost inuse: real, c: nat, w: real)
    returns (e: Final, p: nat, v: real)
    requires c > 0 && Walked(g, f0, f, i, inuse, c, w)
    ensures p == g.par[c] < c && Walked(g, f0, e, i, inuse, p, v) && p < |g.par| && p < |e.inuse|
    ensures p > 0 ==> p != i
  {
    e := Apply(g, f, c, w);
    p, v := g.par[c], w;
    InnerWeight(g, e, p, p);
    assert GroupOk(g, c);
    if p > 0 {
      v := g.active[p] * e.isum[p] / g.sum[p];
    }
  }

  lemma WalkEnds(g: Groups, f0: Final, f: Final, i: nat, inuse: real, c: nat)
    requires 0 < c < |f.inuse| && c != i && Walked(g, f0, f, i, inuse, c, f.inuse[c])
    ensures Arrived(g, f0, f, i, inuse)
  {
    UpToDate(g, f, c);
  }

  /** __propagate_weights for a leaf: up to the root, or until nothing changes. */
  method PropagateLeaf(g: Groups, f0: Final, i: nat, inuse: real) returns (f: Final)
    requires Weighed(g, f0, 0) && 0 < i < |g.par| && g.leaf[i] && inuse > 0.0
    ensures Weighed(g, f, 0) && f.inuse[i] == inuse && SameLeavesBut(g, f0, f, i)
  {
    f := f0;
    if inuse == f.inuse[i] {
      return;
    }
    var c: nat, w: real := i, inuse;
    while c > 0
      invariant Walked(g, f0, f, i, inuse, c, w)
    {
      f, c, w := Climb(g, f0, f, i, inuse, c, w);
      if c > 0 && w == f.inuse[c] {
        WalkEnds(g, f0, f, i, inuse, c);
        return;
      }
    }
  }

  /** Leaves up to `k` have their final weight; others have not been touched, so those
      that do not donate have theirs as well. */
  ghost predicate LeavesFinal(g: Groups, d: Plan, f: Final, k: nat)
    requires Wf(g) && PlanShape(g, d) && FinalShape(g, f)
  {
    forall j :: 0 < j < |g.par| && g.leaf[j] && (j < k || !g.donor[j]) ==> LeafFinal(g, d, f, j)
  }

  /** The last loop of transfer_surpluses, from any weights in which the leaves that do
      not donate use all of theirs. */
  method PropagateInuse(g: Groups, d: Plan, f0: Final) returns (f: Final)
    requires Weighed(g, f0, 0) && PlanShape(g, d)
    requires forall j :: 0 < j < |g.par| && g.leaf[j] && !g.donor[j] ==> f0.inuse[j] == g.active[j]
    ensures Weighed(g, f, 0) && LeavesFinal(g, d, f, |g.par|)
  {
    f := f0;
    var i := 1;
    while i < |g.par|
      invariant 1 <= i <= |g.par| && Weighed(g, f, 0) && LeavesFinal(g, d, f, i)
    {
      assert GroupOk(g, i);
      if g.donor[i] {
        var e := PropagateLeaf(g, f, i, Clamp(d.inuse[i], 1.0, g.active[i]));
        forall j | 0 < j < |g.par| && g.leaf[j] && (j < i + 1 || !g.donor[j]) ensures LeafFinal(g, d, e, j) {
          assert j != i ==> LeafFinal(g, d, f, j);
        }
        f := e;
      }
      i := i + 1;
    }
  }

  /** A group's share of its parent's. */
  ghost predicate SharesFinal(g: Groups, f: Final, k: nat)
    requires Wf(g) && FinalShape(g, f)
  {
    f.share[0] == 1.0 && forall j :: 0 < j < k && j < |g.par| ==> ShareFinal(g, f, j)
  }

  lemma ShareNext(g: Groups, f: Final, e: Final, i: nat)
    requires Wf(g) && FinalShape(g, f) && 0 < i < |g.par| && SharesFinal(g, f, i) && f.isum[g.par[i]] != 0.0
    requires e == f.(share := f.share[i := f.share[g.par[i]] * f.inuse[i] / f.isum[g.par[i]]])
    ensures SharesFinal(g, e, i + 1)
  {
    forall j | 0 < j < i + 1 ensures ShareFinal(g, e, j) {
      assert j < i ==> ShareFinal(g, f, j);
    }
  }

  /** The shares, parents first. */
  method FlattenShares(g: Groups, d: Plan, f0: Final) returns (f: Final)
    requires Weighed(g, f0, 0) && PlanShape(g, d) && LeavesFinal(g, d, f0, |g.par|)
    ensures FinalOk(g, d, f)
  {
    f := f0.(share := f0.share[0 := 1.0]);
    var i := 1;
    while i < |g.par|
      invariant 1 <= i <= |g.par| && FinalShape(g, f) && f == f0.(share := f.share) && SharesFinal(g, f, i)
    {
      ParentIsInner(g, i);
      InnerWeight(g, f0, 0, g.par[i]);
      var e := f.(share := f.share[i := f.share[g.par[i]] * f.inuse[i] / f.isum[g.par[i]]]);
      ShareNext(g, f, e, i);
      f := e;
      i := i + 1;
    }
    AllFinal(g, d, f0, f);
  }

  lemma AllFinal(g: Groups, d: Plan, f0: Final, f: Final)
    requires Weighed(g, f0, 0) && PlanShape(g, d) && LeavesFinal(g, d, f0, |g.par|)
    requires FinalShape(g, f) && f == f0.(share := f.share) && SharesFinal(g, f, |g.par|)
    ensures FinalOk(g, d, f)
  {
    forall j | 0 < j < |g.par| ensures if g.leaf[j] then LeafFinal(g, d, f, j) else InnerFinal(g, f, j) {
      if g.leaf[j] {
        assert LeafFinal(g, d, f0, j);
      } else {
        InnerStays(g, f0, f, j);
      }
    }
  }

  /** A whole donation: the plan, and the shares everybody ends up with.  When the
      new weights need no clamping, donors get exactly their targets and every other
      leaf's share is multiplied by the same factor. */
  method Donate(g: Groups, f0: Final) returns (d: Plan, f: Final)
    requires Donatable(g) && Don(g, 0) > 0.0 && Weighed(g, f0, 0)
    requires forall j :: 0 < j < |g.par| && g.leaf[j] && !g.donor[j] ==> f0.inuse[j] == g.active[j]
    ensures PlanOk(g, d) && FinalOk(g, d, f) && d.gamma >= 1.0
    ensures RoomToDonate(g, d) ==> forall i :: 0 < i < |g.par| && g.leaf[i] ==>
      f.share[i] == if g.donor[i] then g.target[i] else d.gamma * g.hwa[i]
  {
    d := TransferSurpluses(g);
    f := PropagateInuse(g, d, f0);
    f := FlattenShares(g, d, f);
    assert d.gamma >= 1.0 by { GammaAtLeastOne(g, d); }
    if RoomToDonate(g, d) {
      forall i | 0 < i < |g.par| && g.leaf[i]
        ensures f.share[i] == if g.donor[i] then g.target[i] else d.gamma * g.hwa[i]
      {
        DonationOutcome(g, d, f, i);
      }
    }
  }
}
