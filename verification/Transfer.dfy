/** transfer_surpluses as the sequence of list walks it is, over the groups in
    creation order (parents first, so that a forward walk is a pre-order walk and
    a backward walk visits children first). */
module Transfer {
  import opened Donation
  import opened Hierarchy
  import opened RealArith

  /** What has reached group `j` when the backward walk has visited the groups
      from `k` on. */
  ghost function Gathered(par: seq<nat>, v: seq<real>, j: nat, k: nat): real
    requires IsTree(par) && |v| == |par| && j < |par| && k <= |par|
  {
    v[j] + SumOver(par, SubSums(par, v), j, |par|) - SumOver(par, SubSums(par, v), j, k)
  }

  lemma NoneYet(par: seq<nat>, v: seq<real>, j: nat, k: nat)
    requires IsTree(par) && |v| == |par| && k <= j + 1 <= |par|
    ensures SumOver(par, v, j, k) == 0.0
  {
    SumNone(par, v, j, k);
  }

  lemma GatheredAll(par: seq<nat>, v: seq<real>, j: nat, k: nat)
    requires IsTree(par) && |v| == |par| && k <= j + 1 <= |par|
    ensures Gathered(par, v, j, k) == SubSum(par, v, j)
  {
    NoneYet(par, SubSums(par, v), j, k);
    SubSumBelowIs(par, v, j, |par|);
  }

  /** Propagate a budget up the hierarchy, children first. */
  method PropagateUp(par: seq<nat>, v: seq<real>) returns (t: seq<real>)
    requires IsTree(par) && |v| == |par|
    ensures t == SubSums(par, v)
  {
    t := v;
    var i := |par|;
    assert forall j :: 0 <= j < |par| ==> v[j] == Gathered(par, v, j, |par|);
    while i > 1
      invariant 1 <= i <= |par| && |t| == |par|
      invariant forall j :: 0 <= j < |par| ==> t[j] == Gathered(par, v, j, i)
    {
      i := i - 1;
      var p := par[i];
      GatheredAll(par, v, i, i + 1);
      t := t[p := t[p] + t[i]];
    }
    forall j | 0 <= j < |par| ensures t[j] == SubSums(par, v)[j] {
      GatheredAll(par, v, j, 1);
    }
  }

  /** The parts of the plan that a group on the walk depends on. */
  ghost predicate Agree(g: Groups, d: Plan, e: Plan, i: nat)
    requires Wf(g) && PlanShape(g, d) && PlanShape(g, e) && 0 < i < |g.par|
  {
    var p := g.par[i];
    && d.gamma == e.gamma && d.don[i] == e.don[i] && d.after[i] == e.after[i] && d.hwi[i] == e.hwi[i]
    && d.inuse[i] == e.inuse[i] && d.adj[i] == e.adj[i] && d.hwi[p] == e.hwi[p] && d.adj[p] == e.adj[p]
  }

  ghost predicate InnerDone(g: Groups, d: Plan, i: nat)
    requires Wf(g) && PlanShape(g, d) && 0 < i < |g.par|
  {
    InnerShareAt(g, d, i) && WeightAt(g, d, i, d.hwi[i]) && InnerSumAt(g, d, i)
  }

  lemma InnerStays(g: Groups, d: Plan, e: Plan, i: nat)
    requires Wf(g) && PlanShape(g, d) && PlanShape(g, e) && 0 < i < |g.par| && Agree(g, d, e, i)
    requires InnerDone(g, d, i)
    ensures InnerDone(g, e, i)
  {
  }

  /** The range checks at the inner groups of the walk. */
  method CheckRanges(g: Groups, don: seq<real>, after: seq<real>) returns (don': seq<real>, after': seq<real>)
    requires Wf(g) && don == Dons(g) && after == Afters(g)
    ensures |don'| == |after'| == |g.par|
    ensures forall i :: 0 <= i < |g.par| && OnWalk(g, i) ==>
              don'[i] == Min(Don(g, i), g.hwa[i]) && after'[i] == Min(After(g, i), don'[i] - UNIT)
  {
    don', after' := don, after;
    var i := 0;
    while i < |g.par|
      invariant 0 <= i <= |g.par| == |don'| == |after'|
      invariant forall j :: i <= j < |g.par| ==> don'[j] == Don(g, j) && after'[j] == After(g, j)
      invariant forall j :: 0 <= j < i && OnWalk(g, j) ==>
                  don'[j] == Min(Don(g, j), g.hwa[j]) && after'[j] == Min(After(g, j), don'[j] - UNIT)
    {
      if !g.leaf[i] && don[i] > 0.0 {
        don' := don'[i := Min(don'[i], g.hwa[i])];
        after' := after'[i := Min(after'[i], don'[i] - UNIT)];
      }
      i := i + 1;
    }
  }

  ghost predicate Ranged(g: Groups, d: Plan) {
    && Donatable(g) && PlanShape(g, d) && Don(g, 0) > 0.0
    && (forall i :: 0 <= i < |g.par| && OnWalk(g, i) ==> ClampAt(g, d, i))
  }

  /** The global donation rate and the root's adjusted sum. */
  method PlanRoot(g: Groups, d: Plan) returns (e: Plan)
    requires Ranged(g, d)
    ensures Ranged(g, e) && RootAt(g, e) && e.gamma >= 1.0
  {
    ghost var walked := OnWalk(g, 0);
    assert GroupOk(g, 0);
    assert ClampAt(g, d, 0);
    ClampsIdle(g, 0);
    var gamma := Gamma(d.don[0], d.after[0]);
    AtLeastOne(1.0 - d.after[0], 1.0 - d.don[0]);
    e := d.(gamma := gamma, hwi := d.hwi[0 := 1.0],
            adj := d.adj[0 := RootSum(g.sum[0], d.don[0], d.after[0])]);
    forall i | 0 <= i < |g.par| && OnWalk(g, i) ensures ClampAt(g, e, i) {
      assert ClampAt(g, d, i);
    }
  }

  /** The body of the walk over the inner groups. */
  method PlanInner(g: Groups, d: Plan, i: nat) returns (e: Plan)
    requires Ranged(g, d) && d.gamma >= 1.0 && 0 < i < |g.par| && OnWalk(g, i) && d.hwi[g.par[i]] > 0.0
    ensures PlanShape(g, e) && InnerDone(g, e, i) && e.hwi[i] > 0.0
    ensures e.gamma == d.gamma && e.don == d.don && e.after == d.after
    ensures forall j :: 0 <= j < |g.par| && j != i ==>
              e.hwi[j] == d.hwi[j] && e.inuse[j] == d.inuse[j] && e.adj[j] == d.adj[j]
  {
    var p := g.par[i];
    assert ClampAt(g, d, i) && GroupOk(g, i);
    ClampsIdle(g, i);
    var h := Share(d.gamma, g.hwa[i], d.don[i], d.after[i]);
    SharePositive(d.gamma, g.hwa[i], d.don[i], d.after[i]);
    var w := Weight(d.adj[p], h, d.hwi[p]);
    Positive(g.active[i], d.don[i]);
    Positive(g.active[i] * d.don[i], g.hwa[i]);
    var s := AdjustedSum(g.sum[i], g.hwa[i], d.don[i], d.after[i], h, g.active[i], w);
    e := d.(hwi := d.hwi[i := h], inuse := d.inuse[i := w], adj := d.adj[i := s]);
  }

  /** The walk over the inner groups, top down. */
  method PlanWalk(g: Groups, d0: Plan, don: seq<real>) returns (d: Plan)
    requires Ranged(g, d0) && RootAt(g, d0) && d0.gamma >= 1.0 && don == Dons(g)
    ensures Ranged(g, d) && RootAt(g, d)
    ensures forall j :: 0 <= j < |g.par| && OnWalk(g, j) ==> d.hwi[j] > 0.0
    ensures forall j :: 0 < j < |g.par| && OnWalk(g, j) ==> InnerDone(g, d, j)
  {
    d := d0;
    var i := 1;
    while i < |g.par|
      invariant 1 <= i <= |g.par| && Ranged(g, d) && RootAt(g, d) && d.gamma >= 1.0
      invariant forall j :: 0 <= j < i && OnWalk(g, j) ==> d.hwi[j] > 0.0
      invariant forall j :: 0 < j < i && OnWalk(g, j) ==> InnerDone(g, d, j)
    {
      if !g.leaf[i] && don[i] > 0.0 {
        DonAbove(g, i);
        var e := PlanInner(g, d, i);
        PlanKeeps(g, d, e, i);
        d := e;
      }
      i := i + 1;
    }
  }

  /** The donors' new inuse. */
  method PlanDonors(g: Groups, d0: Plan) returns (d: Plan)
    requires Ranged(g, d0) && RootAt(g, d0)
    requires forall j :: 0 <= j < |g.par| && OnWalk(g, j) ==> d0.hwi[j] > 0.0
    requires forall j :: 0 < j < |g.par| && OnWalk(g, j) ==> InnerDone(g, d0, j)
    ensures PlanOk(g, d)
  {
    d := d0;
    var i := 1;
    while i < |g.par|
      invariant 1 <= i <= |g.par| && Ranged(g, d) && RootAt(g, d) && d.hwi == d0.hwi
      invariant forall j :: 0 < j < |g.par| && OnWalk(g, j) ==> InnerDone(g, d, j)
      invariant forall j :: 0 < j < i && g.donor[j] ==> WeightAt(g, d, j, g.target[j])
    {
      if g.donor[i] {
        assert Don(g, i) > 0.0 by { DonorShare(g, d, i); }
        DonAbove(g, i);
        var p := g.par[i];
        var e := d.(inuse := d.inuse[i := Weight(d.adj[p], g.target[i], d.hwi[p])]);
        DonorKeeps(g, d, e, i);
        d := e;
      }
      i := i + 1;
    }
  }

  method TransferSurpluses(g: Groups) returns (d: Plan)
    requires Donatable(g) && Don(g, 0) > 0.0
    ensures PlanOk(g, d)
  {
    var n := |g.par|;
    // the donating budget and the budget after donation, bottom up
    var shares := seq(n, i requires 0 <= i < n => if g.donor[i] then g.hwa[i] else 0.0);
    var targets := DonorTargets(g);
    assert shares == DonorShares(g);
    var don := PropagateUp(g.par, shares);
    var after := PropagateUp(g.par, targets);
    var don', after' := CheckRanges(g, don, after);
    var zeros := seq(n, i => 0.0);
    d := Plan(1.0, don', after', zeros, zeros, zeros);
    assert forall i :: 0 <= i < |g.par| && OnWalk(g, i) ==> ClampAt(g, d, i);
    d := PlanRoot(g, d);
    d := PlanWalk(g, d, don);
    d := PlanDonors(g, d);
  }

  lemma PlanKeeps(g: Groups, d: Plan, e: Plan, i: nat)
    requires Ranged(g, d) && RootAt(g, d) && PlanShape(g, e) && 0 < i < |g.par|
    requires e.gamma == d.gamma && e.don == d.don && e.after == d.after
    requires forall j :: 0 <= j < |g.par| && j != i ==>
               e.hwi[j] == d.hwi[j] && e.inuse[j] == d.inuse[j] && e.adj[j] == d.adj[j]
    requires forall j :: 0 < j < i && OnWalk(g, j) ==> InnerDone(g, d, j)
    ensures Ranged(g, e) && RootAt(g, e)
    ensures forall j :: 0 < j < i && OnWalk(g, j) ==> InnerDone(g, e, j)
  {
    forall j | 0 <= j < |g.par| && OnWalk(g, j) ensures ClampAt(g, e, j) {
      assert ClampAt(g, d, j);
    }
    forall j | 0 < j < i && OnWalk(g, j) ensures InnerDone(g, e, j) {
      assert Agree(g, d, e, j);
      InnerStays(g, d, e, j);
    }
  }

  lemma DonorKeeps(g: Groups, d: Plan, e: Plan, i: nat)
    requires Ranged(g, d) && RootAt(g, d) && 0 < i < |g.par| && g.donor[i]
    requires e == d.(inuse := e.inuse) && |e.inuse| == |g.par|
    requires forall j :: 0 <= j < |g.par| && j != i ==> e.inuse[j] == d.inuse[j]
    requires forall j :: 0 < j < |g.par| && OnWalk(g, j) ==> InnerDone(g, d, j)
    ensures Ranged(g, e) && RootAt(g, e)
    ensures forall j :: 0 < j < |g.par| && OnWalk(g, j) ==> InnerDone(g, e, j)
  {
    assert GroupOk(g, i);
    forall j | 0 <= j < |g.par| && OnWalk(g, j) ensures ClampAt(g, e, j) {
      assert ClampAt(g, d, j);
    }
    forall j | 0 < j < |g.par| && OnWalk(g, j) ensures InnerDone(g, e, j) {
      assert Agree(g, d, e, j);
      InnerStays(g, d, e, j);
    }
  }
}
