/** Surplus donation (transfer_surpluses in block/blk-iocost.c) in exact
    arithmetic.  Donors lower their inuse weight so that, once the new weights
    are propagated, each of them is left with exactly the share it asked for and
    everybody else's share grows by one common factor. */
module Donation {
  import opened Hierarchy
  import opened RealArith

  /** One unit of hierarchical weight, 1 / WEIGHT_ONE. */
  const UNIT: real := 1.0 / 65536.0

  /** The groups with active weight: their weights, which of them are leaves, and
      which leaves donate down to which share. */
  datatype Groups = Groups(
    par: seq<nat>,
    active: seq<real>,
    sum: seq<real>,        // child_active_sum
    hwa: seq<real>,        // hweight_active, the share before the donation (b)
    leaf: seq<bool>,
    donor: seq<bool>,
    target: seq<real>)     // hweight_after_donation of the donors

  // ------------------------------------------------------------- sums

  function SumOver(par: seq<nat>, v: seq<real>, p: int, k: nat): real
    requires k <= |par| == |v|
  {
    if k <= 1 then 0.0
    else SumOver(par, v, p, k - 1) + if par[k - 1] == p then v[k - 1] else 0.0
  }

  lemma SumLe(par: seq<nat>, v: seq<real>, w: seq<real>, p: int, k: nat)
    requires k <= |par| == |v| == |w|
    requires forall c :: 0 < c < k && par[c] == p ==> v[c] <= w[c]
    ensures SumOver(par, v, p, k) <= SumOver(par, w, p, k)
  {
  }

  lemma SumSame(par: seq<nat>, v: seq<real>, w: seq<real>, p: int, k: nat)
    requires k <= |par| == |v| == |w|
    requires forall c :: 0 < c < k && par[c] == p ==> v[c] == w[c]
    ensures SumOver(par, v, p, k) == SumOver(par, w, p, k)
  {
  }

  /** x is to e as y is to d. */
  ghost predicate InProportion(x: real, d: real, e: real, y: real) {
    x * d == e * y
  }

  lemma {:induction false} SumScaled(par: seq<nat>, v: seq<real>, d: real, w: seq<real>, e: real, p: int, k: nat)
    requires k <= |par| == |v| == |w|
    requires forall c :: 0 < c < k && par[c] == p ==> InProportion(v[c], d, e, w[c])
    ensures InProportion(SumOver(par, v, p, k), d, e, SumOver(par, w, p, k))
  {
    if k > 1 {
      SumScaled(par, v, d, w, e, p, k - 1);
      if par[k - 1] == p {
        assert InProportion(v[k - 1], d, e, w[k - 1]);
        Distribute(SumOver(par, v, p, k - 1), v[k - 1], d);
        Distribute(SumOver(par, w, p, k - 1), w[k - 1], e);
      }
    }
  }

  lemma {:induction false} SumMixed(par: seq<nat>, z: seq<real>, e: real,
                                    v: seq<real>, w: seq<real>, u: seq<real>, p: int, k: nat)
    requires k <= |par| == |v| == |w| == |z| == |u|
    requires forall c :: 0 < c < k && par[c] == p ==> z[c] == Share(e, v[c], w[c], u[c])
    ensures SumOver(par, z, p, k) == Share(e, SumOver(par, v, p, k), SumOver(par, w, p, k), SumOver(par, u, p, k))
  {
    if k > 1 {
      SumMixed(par, z, e, v, w, u, p, k - 1);
      if par[k - 1] == p {
        assert z[k - 1] == Share(e, v[k - 1], w[k - 1], u[k - 1]);
        Distribute(SumOver(par, v, p, k - 1) - SumOver(par, w, p, k - 1), v[k - 1] - w[k - 1], e);
      }
    }
  }

  /** The sum of `v` over the subtree of `i`. */
  function SubSum(par: seq<nat>, v: seq<real>, i: nat): real
    requires IsTree(par) && |v| == |par| && i < |par|
    decreases |par| - i, |par| + 1
  {
    v[i] + SubSumBelow(par, v, i, |par|)
  }

  function SubSumBelow(par: seq<nat>, v: seq<real>, i: nat, k: nat): real
    requires IsTree(par) && |v| == |par| && i < |par| && k <= |par|
    decreases |par| - i, k
  {
    if k <= 1 then 0.0
    else SubSumBelow(par, v, i, k - 1) + if par[k - 1] == i then SubSum(par, v, k - 1) else 0.0
  }

  function SubSums(par: seq<nat>, v: seq<real>): (s: seq<real>)
    requires IsTree(par) && |v| == |par|
    ensures |s| == |par|
  {
    seq(|par|, i requires 0 <= i < |par| => SubSum(par, v, i))
  }

  lemma {:induction false} SubSumBelowIs(par: seq<nat>, v: seq<real>, i: nat, k: nat)
    requires IsTree(par) && |v| == |par| && i < |par| && k <= |par|
    ensures SubSumBelow(par, v, i, k) == SumOver(par, SubSums(par, v), i, k)
  {
    if k > 1 {
      SubSumBelowIs(par, v, i, k - 1);
    }
  }

  // ------------------------------------------------------------- shares

  ghost predicate GroupOk(g: Groups, i: nat)
    requires IsTree(g.par) && |g.active| == |g.sum| == |g.hwa| == |g.leaf| == |g.donor| == |g.target| == |g.par|
    requires i < |g.par|
  {
    && (i > 0 ==> g.active[i] > 0.0)
    && g.hwa[i] > 0.0
    && g.sum[i] == SumOver(g.par, g.active, i, |g.par|)
    && (if g.leaf[i] then i > 0 && (forall c :: 0 < c < |g.par| ==> g.par[c] != i)
        else g.sum[i] > 0.0 && !g.donor[i])
  }

  /** A group's share is its part of its parent's share. */
  ghost predicate ShareOk(g: Groups, i: nat)
    requires IsTree(g.par) && |g.active| == |g.sum| == |g.hwa| == |g.par| && 0 < i < |g.par|
  {
    g.hwa[i] * g.sum[g.par[i]] == g.hwa[g.par[i]] * g.active[i]
  }

  ghost predicate Wf(g: Groups) {
    && IsTree(g.par)
    && |g.active| == |g.sum| == |g.hwa| == |g.leaf| == |g.donor| == |g.target| == |g.par|
    && g.hwa[0] == 1.0
    && (forall i :: 0 <= i < |g.par| ==> GroupOk(g, i))
    && (forall i :: 0 < i < |g.par| ==> ShareOk(g, i))
  }

  lemma ParentIsInner(g: Groups, i: nat)
    requires Wf(g) && 0 < i < |g.par|
    ensures !g.leaf[g.par[i]] && g.sum[g.par[i]] > 0.0 && g.active[i] > 0.0
  {
    assert GroupOk(g, i) && GroupOk(g, g.par[i]);
  }

  lemma HwaScaled(g: Groups, i: nat)
    requires Wf(g) && i < |g.par|
    ensures InProportion(SumOver(g.par, g.hwa, i, |g.par|), g.sum[i], g.hwa[i], SumOver(g.par, g.active, i, |g.par|))
  {
    forall c | 0 < c < |g.par| && g.par[c] == i ensures InProportion(g.hwa[c], g.sum[i], g.hwa[i], g.active[c]) {
      assert ShareOk(g, c);
    }
    SumScaled(g.par, g.hwa, g.sum[i], g.active, g.hwa[i], i, |g.par|);
  }

  /** The children of an inner group share what the group has. */
  lemma HwaSplits(g: Groups, i: nat)
    requires Wf(g) && i < |g.par| && !g.leaf[i]
    ensures SumOver(g.par, g.hwa, i, |g.par|) == g.hwa[i]
  {
    assert GroupOk(g, i);
    HwaScaled(g, i);
    CancelReal(SumOver(g.par, g.hwa, i, |g.par|), g.hwa[i], g.sum[i]);
  }

  ghost function DonorShares(g: Groups): (s: seq<real>)
    requires Wf(g)
    ensures |s| == |g.par|
  {
    seq(|g.par|, i requires 0 <= i < |g.par| => if g.donor[i] then g.hwa[i] else 0.0)
  }

  function DonorTargets(g: Groups): (s: seq<real>)
    requires |g.donor| == |g.target| == |g.par|
    ensures |s| == |g.par|
  {
    seq(|g.par|, i requires 0 <= i < |g.par| => if g.donor[i] then g.target[i] else 0.0)
  }

  /** hweight_donating (b_t): the shares of the donors below, donors included. */
  ghost function Don(g: Groups, i: nat): real
    requires Wf(g) && i < |g.par|
  {
    SubSum(g.par, DonorShares(g), i)
  }

  /** hweight_after_donation (b'_t): what those donors keep. */
  ghost function After(g: Groups, i: nat): real
    requires Wf(g) && i < |g.par|
  {
    SubSum(g.par, DonorTargets(g), i)
  }

  ghost function Dons(g: Groups): (s: seq<real>)
    requires Wf(g)
    ensures |s| == |g.par|
  {
    SubSums(g.par, DonorShares(g))
  }

  ghost function Afters(g: Groups): (s: seq<real>)
    requires Wf(g)
    ensures |s| == |g.par|
  {
    SubSums(g.par, DonorTargets(g))
  }

  lemma DonSplits(g: Groups, i: nat)
    requires Wf(g) && i < |g.par|
    ensures g.leaf[i] && g.donor[i] ==> Don(g, i) == g.hwa[i] && After(g, i) == g.target[i]
    ensures g.leaf[i] && !g.donor[i] ==> Don(g, i) == 0.0 == After(g, i)
    ensures !g.leaf[i] ==> Don(g, i) == SumOver(g.par, Dons(g), i, |g.par|)
    ensures !g.leaf[i] ==> After(g, i) == SumOver(g.par, Afters(g), i, |g.par|)
  {
    assert GroupOk(g, i);
    SubSumBelowIs(g.par, DonorShares(g), i, |g.par|);
    SubSumBelowIs(g.par, DonorTargets(g), i, |g.par|);
    if g.leaf[i] {
      SumNone(g.par, Dons(g), i, |g.par|);
      SumNone(g.par, Afters(g), i, |g.par|);
    }
  }

  lemma SumNone(par: seq<nat>, v: seq<real>, p: int, k: nat)
    requires k <= |par| == |v| && forall c :: 0 < c < k ==> par[c] != p
    ensures SumOver(par, v, p, k) == 0.0
  {
  }

  /** The inner groups with a donor below. */
  ghost predicate OnWalk(g: Groups, i: nat)
    requires Wf(g) && i < |g.par|
  {
    !g.leaf[i] && Don(g, i) > 0.0
  }

  /** When the method is exact: every donor keeps a positive share, and the range checks
      do not bite, that is the donors below an inner group together give away at least
      one unit, and at least one unit is not donated.  A single donor may well be asked
      to end up with more than it has. */
  ghost predicate Donatable(g: Groups) {
    && Wf(g)
    && (forall i :: 0 < i < |g.par| && g.donor[i] ==> g.target[i] > 0.0)
    && (forall i :: 0 <= i < |g.par| && OnWalk(g, i) ==> GivesAway(g, i))
    && Don(g, 0) <= 1.0 - UNIT
  }

  ghost predicate GivesAway(g: Groups, i: nat)
    requires Wf(g) && i < |g.par|
  {
    After(g, i) <= Don(g, i) - UNIT
  }

  ghost predicate Between(g: Groups, i: nat)
    requires Wf(g) && i < |g.par|
  {
    && 0.0 <= Don(g, i) <= g.hwa[i]
    && (if Don(g, i) > 0.0 then After(g, i) > 0.0 else After(g, i) == 0.0)
  }

  /** What donors have and keep below a group stays within what the group has, so the
      upper range check never changes anything. */
  lemma {:induction false} ClampsIdle(g: Groups, i: nat)
    requires Donatable(g) && i < |g.par|
    ensures Between(g, i)
    decreases |g.par| - i
  {
    forall c | i < c < |g.par| ensures Between(g, c) {
      ClampsIdle(g, c);
    }
    DonSplits(g, i);
    assert GroupOk(g, i);
    if !g.leaf[i] {
      HwaSplits(g, i);
      forall c | 0 < c < |g.par| && g.par[c] == i ensures Dons(g)[c] <= g.hwa[c] {
        assert Between(g, c);
      }
      SumLe(g.par, Dons(g), g.hwa, i, |g.par|);
      SumsBetween(g, i, |g.par|);
    }
  }

  lemma {:induction false} SumsBetween(g: Groups, i: nat, k: nat)
    requires Wf(g) && i < |g.par| && k <= |g.par|
    requires forall c :: i < c < |g.par| ==> Between(g, c)
    ensures var don, after := SumOver(g.par, Dons(g), i, k), SumOver(g.par, Afters(g), i, k);
            don >= 0.0 && (if don > 0.0 then after > 0.0 else after == 0.0)
  {
    if k > 1 {
      SumsBetween(g, i, k - 1);
      if g.par[k - 1] == i {
        assert Between(g, k - 1);
      }
    }
  }

  /** A donor that gives away at least one unit and keeps one. */
  predicate OrdinaryDonor(g: Groups, i: nat)
    requires i < |g.target| && i < |g.hwa|
  {
    UNIT <= g.target[i] <= g.hwa[i] - UNIT
  }

  ghost predicate Ordinary(g: Groups) {
    && Wf(g)
    && (forall i :: 0 < i < |g.par| && g.donor[i] ==> OrdinaryDonor(g, i))
  }

  ghost predicate Lowered(don: real, after: real) {
    if don > 0.0 then after <= don - UNIT else don == 0.0 == after
  }

  lemma {:induction false} OrdinaryLowered(g: Groups, i: nat)
    requires Ordinary(g) && i < |g.par|
    ensures Lowered(Don(g, i), After(g, i))
    decreases |g.par| - i, |g.par| + 1
  {
    DonSplits(g, i);
    assert GroupOk(g, i);
    if !g.leaf[i] {
      OrdinarySums(g, i, |g.par|);
    }
  }

  lemma {:induction false} OrdinarySums(g: Groups, i: nat, k: nat)
    requires Ordinary(g) && i < |g.par| && k <= |g.par|
    ensures Lowered(SumOver(g.par, Dons(g), i, k), SumOver(g.par, Afters(g), i, k))
    decreases |g.par| - i, k
  {
    if k > 1 {
      OrdinarySums(g, i, k - 1);
      if g.par[k - 1] == i {
        OrdinaryLowered(g, k - 1);
      }
    }
  }

  /** If every single donor gives away a unit, the range checks do not bite. */
  lemma OrdinaryIsDonatable(g: Groups)
    requires Ordinary(g) && Don(g, 0) <= 1.0 - UNIT
    ensures Donatable(g)
  {
    forall i | 0 <= i < |g.par| && OnWalk(g, i) ensures GivesAway(g, i) {
      OrdinaryLowered(g, i);
    }
  }

  // ------------------------------------------------------------- the plan

  /** What transfer_surpluses computes for the groups on its walk, that is the
      inner groups with a donor below, and for the donors. */
  datatype Plan = Plan(
    gamma: real,
    don: seq<real>,     // hweight_donating, range checked
    after: seq<real>,   // hweight_after_donation, range checked
    hwi: seq<real>,     // hweight_inuse (b')
    inuse: seq<real>,   // w'
    adj: seq<real>)     // child_adjusted_sum (s')

  function Min(a: real, b: real): real {
    if a < b then a else b
  }

  function Clamp(x: real, lo: real, hi: real): real {
    Min(if x < lo then lo else x, hi)
  }

  /** gamma = (1 - t'_r) / (1 - t_r), the rate at which other budgets grow. */
  function Gamma(don: real, after: real): real {
    (1.0 - after) / (1.0 - Min(don, 1.0 - UNIT))
  }

  /** s' = s * b_f / b'_f at the root. */
  function RootSum(s: real, don: real, after: real): real
    requires after < 1.0
  {
    s * (1.0 - don) / (1.0 - after)
  }

  /** b' = gamma * b_f + b'_t */
  function Share(gamma: real, b: real, don: real, after: real): real {
    gamma * (b - don) + after
  }

  /** w' = s'_p * b' / b'_p */
  function Weight(sp': real, h: real, hp: real): real
    requires hp != 0.0
  {
    sp' * h / hp
  }

  /** s' = s_f + s_t * w'_pt / w_pt */
  function AdjustedSum(s: real, b: real, don: real, after: real, h: real, w: real, w': real): real
    requires b != 0.0 && h != 0.0 && w * don / b != 0.0
  {
    var st := s * don / b;
    s - st + st * (w' * after / h) / (w * don / b)
  }

  predicate PlanShape(g: Groups, d: Plan) {
    |d.don| == |d.after| == |d.hwi| == |d.inuse| == |d.adj| == |g.par|
  }

  ghost predicate ClampAt(g: Groups, d: Plan, i: nat)
    requires Wf(g) && PlanShape(g, d) && i < |g.par|
  {
    d.don[i] == Min(Don(g, i), g.hwa[i]) && d.after[i] == Min(After(g, i), d.don[i] - UNIT)
  }

  ghost predicate RootAt(g: Groups, d: Plan)
    requires Wf(g) && PlanShape(g, d)
  {
    && d.after[0] < 1.0 && d.hwi[0] == 1.0
    && d.gamma == Gamma(d.don[0], d.after[0])
    && d.adj[0] == RootSum(g.sum[0], d.don[0], d.after[0])
  }

  ghost predicate InnerShareAt(g: Groups, d: Plan, i: nat)
    requires Wf(g) && PlanShape(g, d) && 0 < i < |g.par|
  {
    d.hwi[i] == Share(d.gamma, g.hwa[i], d.don[i], d.after[i])
  }

  /** The weight of a group that should get the share `h`. */
  ghost predicate WeightAt(g: Groups, d: Plan, i: nat, h: real)
    requires Wf(g) && PlanShape(g, d) && 0 < i < |g.par|
  {
    var p := g.par[i];
    d.hwi[p] != 0.0 && d.inuse[i] == Weight(d.adj[p], h, d.hwi[p])
  }

  ghost predicate InnerSumAt(g: Groups, d: Plan, i: nat)
    requires Wf(g) && PlanShape(g, d) && 0 < i < |g.par|
  {
    && g.hwa[i] != 0.0 && d.hwi[i] != 0.0 && g.active[i] * d.don[i] / g.hwa[i] != 0.0
    && d.adj[i] == AdjustedSum(g.sum[i], g.hwa[i], d.don[i], d.after[i], d.hwi[i], g.active[i], d.inuse[i])
  }

  ghost predicate PlanOk(g: Groups, d: Plan) {
    && Wf(g) && PlanShape(g, d)
    && (forall i :: 0 <= i < |g.par| && OnWalk(g, i) ==> ClampAt(g, d, i))
    && RootAt(g, d)
    && (forall i :: 0 < i < |g.par| && OnWalk(g, i) ==>
          InnerShareAt(g, d, i) && WeightAt(g, d, i, d.hwi[i]) && InnerSumAt(g, d, i))
    && (forall i :: 0 < i < |g.par| && g.donor[i] ==> WeightAt(g, d, i, g.target[i]))
  }

  /** The share a group should end up with: what is not donated grows by gamma,
      what is kept of the donated part is kept exactly. */
  ghost function NewShare(g: Groups, d: Plan, i: nat): real
    requires Wf(g) && i < |g.par|
  {
    Share(d.gamma, g.hwa[i], Don(g, i), After(g, i))
  }

  ghost predicate SumScaledAt(g: Groups, d: Plan, i: nat)
    requires Wf(g) && PlanShape(g, d) && i < |g.par|
  {
    d.adj[i] * (d.gamma * g.hwa[i]) == g.sum[i] * d.hwi[i]
  }

  ghost predicate WeightScaledAt(g: Groups, d: Plan, i: nat, h: real)
    requires Wf(g) && PlanShape(g, d) && i < |g.par|
  {
    d.inuse[i] * (d.gamma * g.hwa[i]) == g.active[i] * h
  }

  lemma RootScales(s: real, don: real, after: real)
    requires after <= don <= 1.0 - UNIT
    ensures Gamma(don, after) >= 1.0 && RootSum(s, don, after) * Gamma(don, after) == s
    ensures Share(Gamma(don, after), 1.0, don, after) == 1.0
  {
    var gamma, adj := Gamma(don, after), RootSum(s, don, after);
    RootScale(s, don, after, gamma, adj);
    AtLeastOne(1.0 - after, 1.0 - don);
    DivMul(1.0 - after, 1.0 - don);
  }

  lemma GammaAtLeastOne(g: Groups, d: Plan)
    requires Donatable(g) && PlanOk(g, d) && Don(g, 0) > 0.0
    ensures d.gamma >= 1.0 && NewShare(g, d, 0) == 1.0 && SumScaledAt(g, d, 0)
  {
    assert GroupOk(g, 0);
    assert OnWalk(g, 0) && ClampAt(g, d, 0);
    ClampsIdle(g, 0);
    RootScales(g.sum[0], d.don[0], d.after[0]);
  }

  lemma AtLeastOne(x: real, y: real)
    requires 0.0 < y <= x
    ensures x / y >= 1.0
  {
  }

  lemma DonAbove(g: Groups, i: nat)
    requires Donatable(g) && 0 < i < |g.par| && Don(g, i) > 0.0
    ensures OnWalk(g, g.par[i]) && Don(g, 0) > 0.0
    decreases i
  {
    var p := g.par[i];
    ParentIsInner(g, i);
    DonSplits(g, p);
    forall c | 0 < c < |g.par| ensures Dons(g)[c] >= 0.0 {
      ClampsIdle(g, c);
      assert Between(g, c);
    }
    PartOfSum(g.par, Dons(g), i, |g.par|);
    if p > 0 {
      DonAbove(g, p);
    }
  }

  lemma PartOfSum(par: seq<nat>, v: seq<real>, i: nat, k: nat)
    requires k <= |par| == |v| && i < |par| && forall c :: 0 < c < |par| ==> v[c] >= 0.0
    ensures SumOver(par, v, par[i], k) >= 0.0
    ensures 0 < i < k ==> SumOver(par, v, par[i], k) >= v[i]
  {
  }

  lemma ScaleShare(g: Groups, gamma: real, i: nat)
    requires Wf(g) && 0 < i < |g.par|
    ensures (gamma * g.hwa[i]) * g.sum[g.par[i]] == (gamma * g.hwa[g.par[i]]) * g.active[i]
  {
    assert ShareOk(g, i);
    Assoc(gamma, g.hwa[i], g.sum[g.par[i]]);
    Assoc(gamma, g.hwa[g.par[i]], g.active[i]);
  }

  lemma StepShare(g: Groups, d: Plan, i: nat)
    requires Wf(g) && PlanShape(g, d) && 0 < i < |g.par| && Don(g, i) > 0.0 && GivesAway(g, i)
    requires InnerShareAt(g, d, i) && ClampAt(g, d, i) && Between(g, i) && d.gamma >= 1.0
    ensures d.don[i] == Don(g, i) && d.after[i] == After(g, i)
    ensures d.hwi[i] == NewShare(g, d, i) && d.hwi[i] > 0.0
  {
    SharePositive(d.gamma, g.hwa[i], d.don[i], d.after[i]);
  }

  lemma SharePositive(gamma: real, b: real, t: real, t': real)
    requires gamma >= 1.0 && t <= b && t' > 0.0
    ensures gamma * (b - t) + t' > 0.0
  {
  }

  lemma StepWeight(g: Groups, d: Plan, i: nat, h: real)
    requires Wf(g) && PlanShape(g, d) && 0 < i < |g.par| && WeightAt(g, d, i, h)
    requires SumScaledAt(g, d, g.par[i])
    ensures WeightScaledAt(g, d, i, h)
  {
    var p := g.par[i];
    ParentIsInner(g, i);
    ScaleShare(g, d.gamma, i);
    WeightScale(d.adj[p], h, d.hwi[p], d.gamma * g.hwa[i], d.gamma * g.hwa[p], g.sum[p], g.active[i], d.inuse[i]);
  }

  lemma StepSum(g: Groups, d: Plan, i: nat)
    requires Wf(g) && PlanShape(g, d) && 0 < i < |g.par|
    requires InnerShareAt(g, d, i) && InnerSumAt(g, d, i) && WeightScaledAt(g, d, i, d.hwi[i])
    requires d.don[i] > 0.0 && d.hwi[i] > 0.0
    ensures SumScaledAt(g, d, i)
  {
    assert GroupOk(g, i);
    SumScale(g.sum[i], d.don[i], d.after[i], g.hwa[i], d.gamma, d.hwi[i], g.active[i], d.inuse[i], d.adj[i]);
  }

  /** The adjusted values on the walk are the old ones scaled by b' / (gamma b). */
  lemma {:induction false} PlanScales(g: Groups, d: Plan, i: nat)
    requires Donatable(g) && PlanOk(g, d) && i < |g.par| && OnWalk(g, i)
    ensures d.gamma >= 1.0
    ensures d.hwi[i] == NewShare(g, d, i) && d.hwi[i] > 0.0
    ensures SumScaledAt(g, d, i)
    ensures i > 0 ==> WeightScaledAt(g, d, i, d.hwi[i])
    decreases i
  {
    if i == 0 {
      GammaAtLeastOne(g, d);
    } else {
      DonAbove(g, i);
      PlanScales(g, d, g.par[i]);
      ClampsIdle(g, i);
      StepShare(g, d, i);
      StepWeight(g, d, i, d.hwi[i]);
      StepSum(g, d, i);
    }
  }

  lemma DonorShare(g: Groups, d: Plan, i: nat)
    requires Donatable(g) && 0 < i < |g.par| && g.donor[i]
    ensures NewShare(g, d, i) == g.target[i] && Don(g, i) > 0.0
  {
    assert GroupOk(g, i);
    DonSplits(g, i);
  }

  lemma DonorScales(g: Groups, d: Plan, i: nat)
    requires Donatable(g) && PlanOk(g, d) && 0 < i < |g.par| && g.donor[i]
    ensures WeightScaledAt(g, d, i, g.target[i]) && d.gamma >= 1.0
  {
    assert Don(g, i) > 0.0 by { DonorShare(g, d, i); }
    DonAbove(g, i);
    PlanScales(g, d, g.par[i]);
    StepWeight(g, d, i, g.target[i]);
  }

  // ------------------------------------------------------------- the outcome

  /** The weights once the donors' new inuse values have been propagated, and the
      shares that follow from them. */
  datatype Final = Final(inuse: seq<real>, isum: seq<real>, share: seq<real>)

  predicate FinalShape(g: Groups, f: Final) {
    |f.inuse| == |f.isum| == |f.share| == |g.par|
  }

  /** A donor's new inuse is clamped, other leaves keep all of their weight. */
  ghost predicate LeafFinal(g: Groups, d: Plan, f: Final, i: nat)
    requires Wf(g) && PlanShape(g, d) && FinalShape(g, f) && i < |g.par|
  {
    f.inuse[i] == if g.donor[i] then Clamp(d.inuse[i], 1.0, g.active[i]) else g.active[i]
  }

  ghost predicate InnerFinal(g: Groups, f: Final, i: nat)
    requires Wf(g) && FinalShape(g, f) && 0 < i < |g.par|
  {
    g.sum[i] != 0.0 && f.inuse[i] == g.active[i] * f.isum[i] / g.sum[i]
  }

  ghost predicate ShareFinal(g: Groups, f: Final, i: nat)
    requires Wf(g) && FinalShape(g, f) && 0 < i < |g.par|
  {
    f.isum[g.par[i]] != 0.0 && f.share[i] == f.share[g.par[i]] * f.inuse[i] / f.isum[g.par[i]]
  }

  ghost predicate FinalOk(g: Groups, d: Plan, f: Final) {
    && Wf(g) && PlanShape(g, d) && FinalShape(g, f) && f.share[0] == 1.0
    && (forall i :: 0 <= i < |g.par| ==> f.isum[i] == SumOver(g.par, f.inuse, i, |g.par|))
    && (forall i :: 0 < i < |g.par| && g.leaf[i] ==> LeafFinal(g, d, f, i))
    && (forall i :: 0 < i < |g.par| && !g.leaf[i] ==> InnerFinal(g, f, i))
    && (forall i :: 0 < i < |g.par| ==> ShareFinal(g, f, i))
  }

  /** A leaf's inuse is clamped between 1 and its weight: the donors' new weights must
      not leave that range. */
  ghost predicate RoomToDonate(g: Groups, d: Plan)
    requires Wf(g)
  {
    forall i :: 0 < i < |g.par| && g.donor[i] ==>
      g.active[i] * g.target[i] >= d.gamma * g.hwa[i] >= g.target[i]
  }

  lemma DonorUnclamped(g: Groups, d: Plan, i: nat)
    requires Donatable(g) && PlanOk(g, d) && RoomToDonate(g, d) && 0 < i < |g.par| && g.donor[i]
    ensures Clamp(d.inuse[i], 1.0, g.active[i]) == d.inuse[i]
  {
    DonorScales(g, d, i);
    assert GroupOk(g, i);
    InRange(d.inuse[i], d.gamma, g.hwa[i], g.active[i], g.target[i]);
  }

  lemma InRange(x: real, gamma: real, b: real, a: real, t: real)
    requires gamma >= 1.0 && b > 0.0 && a > 0.0 && 0.0 < t <= gamma * b
    requires x * (gamma * b) == a * t && a * t >= gamma * b
    ensures 1.0 <= x <= a
  {
    var k := gamma * b;
    assert a * t <= a * k by { Distribute(k, t, a); }
    assert (x - 1.0) * k >= 0.0 by { Distribute(x, 1.0, k); }
    assert (a - x) * k >= 0.0 by { Distribute(a, x, k); }
  }

  /** The weight a child of a walked group ends up with is its part of s'. */
  ghost predicate ChildFits(g: Groups, d: Plan, f: Final, c: nat)
    requires Wf(g) && PlanShape(g, d) && FinalShape(g, f) && 0 < c < |g.par|
  {
    f.inuse[c] * d.hwi[g.par[c]] == d.adj[g.par[c]] * NewShare(g, d, c)
  }

  ghost predicate Settled(g: Groups, d: Plan, f: Final, i: nat)
    requires Wf(g) && PlanShape(g, d) && FinalShape(g, f) && i < |g.par|
  {
    && (i > 0 ==> f.inuse[i] == if Don(g, i) > 0.0 then d.inuse[i] else g.active[i])
    && (!g.leaf[i] ==> f.isum[i] == if Don(g, i) > 0.0 then d.adj[i] else g.sum[i])
  }

  lemma FitsWith(g: Groups, d: Plan, f: Final, c: nat, h: real)
    requires Wf(g) && PlanShape(g, d) && FinalShape(g, f) && 0 < c < |g.par|
    requires WeightAt(g, d, c, h) && f.inuse[c] == d.inuse[c] && h == NewShare(g, d, c)
    ensures ChildFits(g, d, f, c)
  {
    DivMul(d.adj[g.par[c]] * h, d.hwi[g.par[c]]);
  }

  lemma WalkedChildFits(g: Groups, d: Plan, f: Final, c: nat)
    requires Donatable(g) && PlanOk(g, d) && FinalShape(g, f) && 0 < c < |g.par|
    requires Don(g, c) > 0.0 && f.inuse[c] == d.inuse[c]
    ensures ChildFits(g, d, f, c)
  {
    if g.leaf[c] {
      assert g.donor[c] by { DonSplits(g, c); }
      assert g.target[c] == NewShare(g, d, c) by { DonorShare(g, d, c); }
      FitsWith(g, d, f, c, g.target[c]);
    } else {
      assert d.hwi[c] == NewShare(g, d, c) by { PlanScales(g, d, c); }
      FitsWith(g, d, f, c, d.hwi[c]);
    }
  }

  lemma BystanderFits(g: Groups, d: Plan, f: Final, c: nat)
    requires Donatable(g) && PlanOk(g, d) && FinalShape(g, f) && 0 < c < |g.par|
    requires Don(g, c) <= 0.0 && f.inuse[c] == g.active[c] && SumScaledAt(g, d, g.par[c])
    ensures ChildFits(g, d, f, c)
  {
    var p := g.par[c];
    assert NewShare(g, d, c) == d.gamma * g.hwa[c] by { ClampsIdle(g, c); }
    assert g.sum[p] > 0.0 by { ParentIsInner(g, c); }
    BystanderPart(g, d, c);
  }

  lemma BystanderPart(g: Groups, d: Plan, c: nat)
    requires Wf(g) && PlanShape(g, d) && 0 < c < |g.par| && SumScaledAt(g, d, g.par[c]) && g.sum[g.par[c]] > 0.0
    ensures g.active[c] * d.hwi[g.par[c]] == d.adj[g.par[c]] * (d.gamma * g.hwa[c])
  {
    var p := g.par[c];
    ScaleShare(g, d.gamma, c);
    BystanderScale(d.adj[p], d.gamma * g.hwa[p], d.gamma * g.hwa[c], g.sum[p], d.hwi[p], g.active[c]);
  }

  ghost function NewShares(g: Groups, d: Plan): (s: seq<real>)
    requires Wf(g)
    ensures |s| == |g.par|
  {
    seq(|g.par|, i requires 0 <= i < |g.par| => NewShare(g, d, i))
  }

  /** New shares add up at every inner group. */
  lemma NewSharesSplit(g: Groups, d: Plan, i: nat)
    requires Wf(g) && i < |g.par| && !g.leaf[i]
    ensures SumOver(g.par, NewShares(g, d), i, |g.par|) == NewShare(g, d, i)
  {
    HwaSplits(g, i);
    DonSplits(g, i);
    SumMixed(g.par, NewShares(g, d), d.gamma, g.hwa, Dons(g), Afters(g), i, |g.par|);
  }

  /** On the walk, the propagated sum is the adjusted sum. */
  lemma SumMatches(g: Groups, d: Plan, f: Final, i: nat)
    requires Wf(g) && PlanShape(g, d) && FinalShape(g, f) && i < |g.par| && !g.leaf[i]
    requires f.isum[i] == SumOver(g.par, f.inuse, i, |g.par|)
    requires d.hwi[i] == NewShare(g, d, i) && d.hwi[i] > 0.0
    requires forall c :: 0 < c < |g.par| && g.par[c] == i ==> ChildFits(g, d, f, c)
    ensures f.isum[i] == d.adj[i]
  {
    var s := NewShares(g, d);
    forall c | 0 < c < |g.par| && g.par[c] == i ensures InProportion(f.inuse[c], d.hwi[i], d.adj[i], s[c]) {
      assert ChildFits(g, d, f, c);
    }
    assert SumOver(g.par, s, i, |g.par|) == d.hwi[i] by { NewSharesSplit(g, d, i); }
    SumCancels(g.par, f.inuse, d.hwi[i], s, d.adj[i], i);
  }

  lemma SumCancels(par: seq<nat>, v: seq<real>, h: real, w: seq<real>, e: real, p: int)
    requires |par| == |v| == |w| && h > 0.0 && SumOver(par, w, p, |par|) == h
    requires forall c :: 0 < c < |par| && par[c] == p ==> InProportion(v[c], h, e, w[c])
    ensures SumOver(par, v, p, |par|) == e
  {
    SumScaled(par, v, h, w, e, p, |par|);
    CancelReal(SumOver(par, v, p, |par|), e, h);
  }

  lemma WalkedSettles(g: Groups, d: Plan, f: Final, i: nat)
    requires Donatable(g) && PlanOk(g, d) && FinalOk(g, d, f) && i < |g.par| && OnWalk(g, i)
    requires forall c :: i < c < |g.par| ==> Settled(g, d, f, c)
    ensures Settled(g, d, f, i)
  {
    PlanScales(g, d, i);
    forall c | 0 < c < |g.par| && g.par[c] == i ensures ChildFits(g, d, f, c) {
      assert Settled(g, d, f, c);
      ClampsIdle(g, c);
      if Don(g, c) > 0.0 {
        WalkedChildFits(g, d, f, c);
      } else {
        BystanderFits(g, d, f, c);
      }
    }
    SumMatches(g, d, f, i);
    if i > 0 {
      WeightMatches(g, d, f, i);
    }
  }

  lemma WeightMatches(g: Groups, d: Plan, f: Final, i: nat)
    requires Wf(g) && PlanShape(g, d) && FinalShape(g, f) && 0 < i < |g.par| && !g.leaf[i]
    requires InnerFinal(g, f, i) && f.isum[i] == d.adj[i] && d.gamma >= 1.0
    requires SumScaledAt(g, d, i) && WeightScaledAt(g, d, i, d.hwi[i])
    ensures f.inuse[i] == d.inuse[i]
  {
    assert GroupOk(g, i);
    Positive(d.gamma, g.hwa[i]);
    PropagatedWeight(g.active[i], d.adj[i], g.sum[i], d.gamma * g.hwa[i], d.hwi[i], d.inuse[i]);
  }

  lemma BystanderSettles(g: Groups, d: Plan, f: Final, i: nat)
    requires Donatable(g) && FinalOk(g, d, f) && i < |g.par| && !g.leaf[i] && Don(g, i) == 0.0
    requires forall c :: i < c < |g.par| ==> Settled(g, d, f, c)
    ensures Settled(g, d, f, i)
  {
    forall c | 0 < c < |g.par| && g.par[c] == i ensures f.inuse[c] == g.active[c] {
      assert Settled(g, d, f, c);
      ClampsIdle(g, c);
      if Don(g, c) > 0.0 {
        DonAbove(g, c);
      }
    }
    SumSame(g.par, f.inuse, g.active, i, |g.par|);
    assert GroupOk(g, i);
    if i > 0 {
      assert InnerFinal(g, f, i);
    }
  }

  lemma {:induction false} AllSettle(g: Groups, d: Plan, f: Final, i: nat)
    requires Donatable(g) && PlanOk(g, d) && RoomToDonate(g, d) && FinalOk(g, d, f) && i < |g.par|
    ensures Settled(g, d, f, i)
    decreases |g.par| - i
  {
    forall c | i < c < |g.par| ensures Settled(g, d, f, c) {
      AllSettle(g, d, f, c);
    }
    ClampsIdle(g, i);
    if g.leaf[i] {
      assert GroupOk(g, i) && LeafFinal(g, d, f, i);
      DonSplits(g, i);
      if g.donor[i] {
        DonorUnclamped(g, d, i);
      }
    } else if Don(g, i) > 0.0 {
      WalkedSettles(g, d, f, i);
    } else {
      BystanderSettles(g, d, f, i);
    }
  }

  /** Every group ends up with the share it should have. */
  lemma {:induction false} DonationExact(g: Groups, d: Plan, f: Final, i: nat)
    requires Donatable(g) && PlanOk(g, d) && RoomToDonate(g, d) && FinalOk(g, d, f)
    requires i < |g.par| && Don(g, 0) > 0.0
    ensures f.share[i] == NewShare(g, d, i)
    decreases i
  {
    if i == 0 {
      GammaAtLeastOne(g, d);
    } else {
      var p := g.par[i];
      DonationExact(g, d, f, p);
      AllSettle(g, d, f, i);
      AllSettle(g, d, f, p);
      ParentIsInner(g, i);
      ClampsIdle(g, i);
      if Don(g, p) > 0.0 {
        assert ChildFits(g, d, f, i) by {
          PlanScales(g, d, p);
          if Don(g, i) > 0.0 {
            WalkedChildFits(g, d, f, i);
          } else {
            BystanderFits(g, d, f, i);
          }
        }
        assert f.share[p] == d.hwi[p] by { PlanScales(g, d, p); }
        ChildShare(g, d, f, i);
      } else {
        BystanderShare(g, d, f, i);
      }
    }
  }

  lemma ChildShare(g: Groups, d: Plan, f: Final, i: nat)
    requires Wf(g) && PlanShape(g, d) && FinalShape(g, f) && 0 < i < |g.par|
    requires ShareFinal(g, f, i) && ChildFits(g, d, f, i)
    requires f.share[g.par[i]] == d.hwi[g.par[i]] && f.isum[g.par[i]] == d.adj[g.par[i]]
    ensures f.share[i] == NewShare(g, d, i)
  {
    var p := g.par[i];
    ShareOfChild(d.hwi[p], f.inuse[i], d.adj[p], NewShare(g, d, i));
  }

  lemma BystanderShare(g: Groups, d: Plan, f: Final, i: nat)
    requires Donatable(g) && PlanShape(g, d) && FinalShape(g, f) && 0 < i < |g.par|
    requires ShareFinal(g, f, i) && Settled(g, d, f, i) && Settled(g, d, f, g.par[i])
    requires Don(g, g.par[i]) <= 0.0 && f.share[g.par[i]] == NewShare(g, d, g.par[i])
    ensures f.share[i] == NewShare(g, d, i)
  {
    var p := g.par[i];
    ParentIsInner(g, i);
    ClampsIdle(g, p);
    ClampsIdle(g, i);
    if Don(g, i) > 0.0 {
      DonAbove(g, i);
    }
    assert f.share[p] == d.gamma * g.hwa[p] && NewShare(g, d, i) == d.gamma * g.hwa[i];
    ScaleShare(g, d.gamma, i);
    ShareOfChild(d.gamma * g.hwa[p], g.active[i], g.sum[p], d.gamma * g.hwa[i]);
  }

  /** Donors keep exactly their target; every other leaf's share is multiplied by
      the same factor, which is at least 1. */
  lemma DonationOutcome(g: Groups, d: Plan, f: Final, i: nat)
    requires Donatable(g) && PlanOk(g, d) && RoomToDonate(g, d) && FinalOk(g, d, f)
    requires 0 < i < |g.par| && g.leaf[i] && Don(g, 0) > 0.0
    ensures g.donor[i] ==> f.share[i] == g.target[i]
    ensures !g.donor[i] ==> f.share[i] == d.gamma * g.hwa[i]
    ensures d.gamma >= 1.0
  {
    assert d.gamma >= 1.0 by { GammaAtLeastOne(g, d); }
    DonationExact(g, d, f, i);
    if g.donor[i] {
      DonorShare(g, d, i);
    } else {
      DonSplits(g, i);
    }
  }
}
