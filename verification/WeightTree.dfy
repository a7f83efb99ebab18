/** The weight tree of block/blk-iocost.c: per-level weight sums, kept by an
    upward walk that stops as soon as nothing changes, and the flattened
    hierarchical weights computed from them. */
module WeightTree {
  import opened Arith
  import opened Hierarchy

  const WEIGHT_ONE: nat := 65536

  function Clamp(x: int, lo: int, hi: int): int {
    if (if x < lo then lo else x) > hi then hi else if x < lo then lo else x
  }

  function Max(a: int, b: int): int {
    if a < b then b else a
  }

  /** The weight-related fields of all groups of a device. */
  datatype Weights = Weights(
    par: seq<nat>,
    weight: seq<nat>,
    active: seq<nat>,
    inuse: seq<nat>,
    activeSum: seq<int>,  // child_active_sum
    inuseSum: seq<int>,   // child_inuse_sum
    on: seq<bool>)        // on the device's active list

  predicate Wf(t: Weights) {
    && IsTree(t.par)
    && |t.weight| == |t.active| == |t.inuse| == |t.activeSum| == |t.inuseSum| == |t.on| == |t.par|
    && (forall i :: 0 <= i < |t.par| ==> t.weight[i] >= 1)
  }

  /** Every inner group's two sums are the sums over its children. */
  ghost predicate Sums(t: Weights)
    requires Wf(t)
  {
    forall p :: 0 <= p < |t.par| ==>
      t.activeSum[p] == ChildSum(t.par, t.active, p, |t.par|) &&
      t.inuseSum[p] == ChildSum(t.par, t.inuse, p, |t.par|)
  }

  /** The weights a group that is not on the active list must have. */
  predicate InnerOk(t: Weights, i: nat, active: int, inuse: int)
    requires Wf(t) && i < |t.par|
  {
    if t.activeSum[i] > 0 then
      active == t.weight[i] && t.inuseSum[i] >= 0 && inuse == CeilDiv(active * t.inuseSum[i], t.activeSum[i])
    else active == 0 && inuse == 0
  }

  predicate NodeOk(t: Weights, i: nat)
    requires Wf(t) && i < |t.par|
  {
    if t.on[i] then t.activeSum[i] == 0 && t.active[i] == t.weight[i] && 1 <= t.inuse[i] <= t.active[i]
    else InnerOk(t, i, t.active[i], t.inuse[i])
  }

  ghost predicate NodesOkBut(t: Weights, x: int, y: int)
    requires Wf(t)
  {
    forall i :: 0 < i < |t.par| && i != x && i != y ==> NodeOk(t, i)
  }

  ghost predicate Valid(t: Weights) {
    Wf(t) && Sums(t) && NodesOkBut(t, 0, 0) && !t.on[0]
  }

  lemma SumsNonneg(t: Weights, p: nat)
    requires Wf(t) && Sums(t) && p < |t.par|
    ensures t.activeSum[p] >= 0 && t.inuseSum[p] >= 0
    ensures forall i :: 0 < i < |t.par| && t.par[i] == p ==>
              t.active[i] <= t.activeSum[p] && t.inuse[i] <= t.inuseSum[p]
  {
    ChildSumNonneg(t.par, t.active, p, |t.par|);
    ChildSumNonneg(t.par, t.inuse, p, |t.par|);
  }

  // ------------------------------------------------------ leaf-only constraint

  /** A group with active weight makes every ancestor's sum positive. */
  lemma {:induction false} ActiveAbove(t: Weights, a: nat, i: nat)
    requires Valid(t) && i < |t.par| && Above(t.par, a, i) && t.active[i] > 0
    ensures a < |t.par| && t.activeSum[a] > 0
  {
    SumsNonneg(t, t.par[i]);
    if t.par[i] != a {
      assert NodeOk(t, t.par[i]);
      ActiveAbove(t, a, t.par[i]);
    }
  }

  /** Only leaves are active: no active group has an active ancestor. */
  lemma NoActivePairs(t: Weights, a: nat, i: nat)
    requires Valid(t) && i < |t.par| && Above(t.par, a, i) && t.on[i]
    ensures a < |t.par| && !t.on[a]
  {
    assert NodeOk(t, i);
    ActiveAbove(t, a, i);
    if a > 0 {
      assert NodeOk(t, a);
    }
  }

  // ------------------------------------------------------------- 1 <= inuse <= active

  lemma RatioBounds(w: nat, u: nat, a: nat)
    requires w >= 1 && 1 <= u <= a
    ensures 1 <= CeilDiv(w * u, a) <= w
  {
    var q := CeilDiv(w * u, a);
    assert w * u >= 1;
    MulLe(w, u, a);
    assert a * (w + 1) == w * a + a;
    MulCancel(a, 0, q);
    MulCancel(a, q, w + 1);
  }

  ghost predicate Bounded(t: Weights, i: nat)
    requires Wf(t) && i < |t.par|
  {
    if t.active[i] > 0 then 1 <= t.inuse[i] <= t.active[i] else t.inuse[i] == 0
  }

  /** Below the root, a group with active weight has 1 <= inuse <= active. */
  lemma {:induction false} InuseBounds(t: Weights, i: nat)
    requires Valid(t) && 0 < i < |t.par|
    ensures Bounded(t, i)
    decreases |t.par| - i
  {
    forall c | i < c < |t.par| ensures Bounded(t, c) {
      InuseBounds(t, c);
    }
    assert NodeOk(t, i);
    if !t.on[i] && t.activeSum[i] > 0 {
      forall c | 0 < c < |t.par| && t.par[c] == i ensures t.inuse[c] <= t.active[c] {
        assert Bounded(t, c);
      }
      ChildSumLe(t.par, t.inuse, t.active, i, |t.par|);
      PositiveChild(t, i, |t.par|);
      RatioBounds(t.weight[i], t.inuseSum[i], t.activeSum[i]);
    }
  }

  lemma {:induction false} PositiveChild(t: Weights, p: nat, k: nat)
    requires Wf(t) && k <= |t.par| && p < |t.par|
    requires forall c :: p < c < |t.par| ==> Bounded(t, c)
    ensures ChildSum(t.par, t.active, p, k) > 0 ==> ChildSum(t.par, t.inuse, p, k) > 0
    ensures ChildSum(t.par, t.inuse, p, k) >= 0
  {
    if k > 1 {
      PositiveChild(t, p, k - 1);
      if t.par[k - 1] == p {
        assert Bounded(t, k - 1);
      }
    }
  }

  // ------------------------------------------------------------- early stop is safe

  /** The leaves determine the tree: two valid trees with the same groups, weights
      and active leaves, and the same inuse on those leaves, agree everywhere
      below the root.  So an upward walk that ends in a valid tree has computed
      what a full recomputation would. */
  lemma {:induction false} LeavesDetermine(s: Weights, t: Weights, i: nat)
    requires Valid(s) && Valid(t) && s.par == t.par && s.weight == t.weight && s.on == t.on
    requires forall j :: 0 < j < |s.par| && s.on[j] ==> s.inuse[j] == t.inuse[j]
    requires i < |s.par|
    ensures s.activeSum[i] == t.activeSum[i] && s.inuseSum[i] == t.inuseSum[i]
    ensures i > 0 ==> s.active[i] == t.active[i] && s.inuse[i] == t.inuse[i]
    decreases |s.par| - i
  {
    forall c | i < c < |s.par| ensures s.active[c] == t.active[c] && s.inuse[c] == t.inuse[c] {
      LeavesDetermine(s, t, c);
    }
    ChildSumSame(s.par, s.active, t.active, i, |s.par|);
    ChildSumSame(s.par, s.inuse, t.inuse, i, |s.par|);
    if i > 0 {
      assert NodeOk(s, i) && NodeOk(t, i);
    }
  }

  // ------------------------------------------------------------- the upward walk

  /** Give group `c` new weights and adjust its parent's sums. */
  function SetChild(t: Weights, c: nat, active: nat, inuse: nat): Weights
    requires Wf(t) && 0 < c < |t.par|
  {
    var p := t.par[c];
    t.(activeSum := t.activeSum[p := t.activeSum[p] + active - t.active[c]],
       inuseSum := t.inuseSum[p := t.inuseSum[p] + inuse - t.inuse[c]],
       active := t.active[c := active],
       inuse := t.inuse[c := inuse])
  }

  lemma SetChildSums(t: Weights, c: nat, active: nat, inuse: nat)
    requires Wf(t) && Sums(t) && 0 < c < |t.par|
    ensures Wf(SetChild(t, c, active, inuse)) && Sums(SetChild(t, c, active, inuse))
  {
    forall p | 0 <= p < |t.par|
      ensures var s := SetChild(t, c, active, inuse);
              s.activeSum[p] == ChildSum(s.par, s.active, p, |s.par|) &&
              s.inuseSum[p] == ChildSum(s.par, s.inuse, p, |s.par|)
    {
      ChildSumUpdate(t.par, t.active, c, active, p, |t.par|);
      ChildSumUpdate(t.par, t.inuse, c, inuse, p, |t.par|);
    }
  }

  /** One step of the walk moves the only inconsistency one level up. */
  lemma SetChildNodes(t: Weights, i: nat, c: nat, active: nat, inuse: nat)
    requires Wf(t) && 0 < c < |t.par| && NodesOkBut(t, i, c)
    requires c != i ==> !t.on[c] && InnerOk(t, c, active, inuse)
    ensures NodesOkBut(SetChild(t, c, active, inuse), i, t.par[c])
  {
    var s := SetChild(t, c, active, inuse);
    forall j | 0 < j < |t.par| && j != i && j != t.par[c] ensures NodeOk(s, j) {
      if j != c {
        assert NodeOk(t, j);
      }
    }
  }

  /** What a parent's weights should be, given its sums. */
  function ParentWeights(t: Weights, p: nat): (nat, nat)
    requires Wf(t) && p < |t.par|
  {
    if t.activeSum[p] > 0 && t.inuseSum[p] >= 0
    then (t.weight[p], CeilDiv(t.weight[p] * t.inuseSum[p], t.activeSum[p]))
    else (0, 0)
  }

  /** The loop of __propagate_weights, with its early exit. */
  function Walk(t: Weights, c: nat, active: nat, inuse: nat): (r: Weights)
    requires Wf(t) && c < |t.par|
    ensures Wf(r) && r.par == t.par
    decreases c
  {
    if c == 0 then t
    else
      var s := SetChild(t, c, active, inuse);
      var p := t.par[c];
      var w := ParentWeights(s, p);
      if w.0 == s.active[p] && w.1 == s.inuse[p] then s else Walk(s, p, w.0, w.1)
  }

  /** The inuse __propagate_weights settles on: an inner group's follows from its
      children, a leaf's is clamped between 1 and its active weight. */
  function NewInuse(t: Weights, i: nat, active: nat, inuse: nat): nat
    requires Wf(t) && i < |t.par|
  {
    if !t.on[i] && t.activeSum[i] > 0 && t.inuseSum[i] >= 0
    then CeilDiv(active * t.inuseSum[i], t.activeSum[i])
    else Clamp(inuse, 1, active)
  }

  /** __propagate_weights */
  function Propagate(t: Weights, i: nat, active: nat, inuse: nat): (r: Weights)
    requires Wf(t) && i < |t.par|
    ensures Wf(r) && r.par == t.par
  {
    var u := NewInuse(t, i, active, inuse);
    if active == t.active[i] && u == t.inuse[i] then t else Walk(t, i, active, u)
  }

  /** No proper ancestor of `i` is active. */
  ghost predicate ClearAbove(t: Weights, i: nat)
    requires Wf(t) && i < |t.par|
  {
    forall a :: 0 <= a < |t.par| && Above(t.par, a, i) ==> !t.on[a]
  }

  /** What the walk leaves alone: the structure, group `i`'s own sums and every
      other leaf. */
  ghost predicate SameElsewhere(s: Weights, t: Weights, i: nat)
    requires Wf(s) && Wf(t) && i < |s.par|
  {
    && s.par == t.par && s.weight == t.weight && s.on == t.on
    && s.activeSum[i] == t.activeSum[i] && s.inuseSum[i] == t.inuseSum[i]
    && (forall j :: 0 <= j < |s.par| && j != i && s.on[j] ==> s.active[j] == t.active[j] && s.inuse[j] == t.inuse[j])
  }

  lemma {:induction false} WalkOk(t: Weights, i: nat, c: nat, active: nat, inuse: nat)
    requires Wf(t) && Sums(t) && 0 < i < |t.par| && ClearAbove(t, i) && 0 < c && (c == i || Above(t.par, c, i))
    requires c < |t.par| && NodesOkBut(t, i, c) && (c != i ==> InnerOk(t, c, active, inuse))
    ensures var s := Walk(t, c, active, inuse);
            Wf(s) && Sums(s) && NodesOkBut(s, i, i) && SameElsewhere(t, s, i)
    ensures var s := Walk(t, c, active, inuse);
            if c == i then s.active[i] == active && s.inuse[i] == inuse
            else s.active[i] == t.active[i] && s.inuse[i] == t.inuse[i]
    decreases c
  {
    var s := SetChild(t, c, active, inuse);
    var p := t.par[c];
    SetChildSums(t, c, active, inuse);
    SetChildNodes(t, i, c, active, inuse);
    AboveParent(t.par, c, i);
    AboveIsBelow(t.par, p, i);
    SumsNonneg(s, p);
    var w := ParentWeights(s, p);
    if p > 0 && !(w.0 == s.active[p] && w.1 == s.inuse[p]) {
      WalkOk(s, i, p, w.0, w.1);
    }
  }

  lemma PropagateOk(t: Weights, i: nat, active: nat, inuse: nat)
    requires Wf(t) && Sums(t) && 0 < i < |t.par| && ClearAbove(t, i) && NodesOkBut(t, i, i)
    ensures var s := Propagate(t, i, active, inuse);
            && Wf(s) && Sums(s) && NodesOkBut(s, i, i) && SameElsewhere(t, s, i)
            && s.active[i] == active && s.inuse[i] == NewInuse(t, i, active, inuse)
  {
    var u := NewInuse(t, i, active, inuse);
    if !(active == t.active[i] && u == t.inuse[i]) {
      WalkOk(t, i, i, active, u);
    }
  }

  // ------------------------------------------------------------- operations

  /** iocg_activate, once its checks have passed. */
  function Activate(t: Weights, i: nat, last: nat): Weights
    requires Wf(t) && i < |t.par|
  {
    var s := t.(on := t.on[i := true]);
    Propagate(s, i, t.weight[i], if last != 0 then last else t.weight[i])
  }

  /** Deactivation by the period timer. */
  function Deactivate(t: Weights, i: nat): Weights
    requires Wf(t) && i < |t.par|
  {
    var s := Propagate(t, i, 0, 0);
    s.(on := s.on[i := false])
  }

  /** Donation, snapback and debt handling all set an active leaf's inuse. */
  function SetInuse(t: Weights, i: nat, inuse: nat): Weights
    requires Wf(t) && i < |t.par|
  {
    Propagate(t, i, t.active[i], inuse)
  }

  /** weight_updated */
  function SetWeight(t: Weights, i: nat, weight: nat): Weights
    requires Wf(t) && i < |t.par|
  {
    var s := if weight != t.weight[i] && t.active[i] != 0 then Propagate(t, i, weight, t.inuse[i]) else t;
    s.(weight := s.weight[i := weight])
  }

  /** The checks of iocg_activate: not an inner group of active ones and not
      below an active one. */
  ghost predicate MayActivate(t: Weights, i: nat)
    requires Wf(t) && i < |t.par|
  {
    t.activeSum[i] == 0 && ClearAbove(t, i)
  }

  lemma ActivateValid(t: Weights, i: nat, last: nat)
    requires Valid(t) && 0 < i < |t.par| && !t.on[i] && MayActivate(t, i)
    ensures var s := Activate(t, i, last);
            && Valid(s) && s.on == t.on[i := true] && s.par == t.par && s.weight == t.weight
            && s.inuse[i] == Clamp(if last != 0 then last else t.weight[i], 1, t.weight[i])
            && (forall j :: 0 <= j < |t.par| && j != i && t.on[j] ==> s.inuse[j] == t.inuse[j])
  {
    var s := t.(on := t.on[i := true]);
    forall j | 0 < j < |t.par| && j != i ensures NodeOk(s, j) {
      assert NodeOk(t, j);
    }
    forall a | 0 <= a < |t.par| && Above(t.par, a, i) ensures !s.on[a] {
      AboveIsBelow(t.par, a, i);
    }
    PropagateOk(s, i, t.weight[i], if last != 0 then last else t.weight[i]);
    AllNodesOk(Activate(t, i, last), i);
  }

  lemma AllNodesOk(t: Weights, i: nat)
    requires Wf(t) && 0 < i < |t.par| && NodesOkBut(t, i, i) && NodeOk(t, i)
    ensures NodesOkBut(t, 0, 0)
  {
    forall j | 0 < j < |t.par| ensures NodeOk(t, j) {
    }
  }

  lemma LeafIsClear(t: Weights, i: nat)
    requires Valid(t) && 0 < i < |t.par| && t.active[i] > 0
    ensures ClearAbove(t, i)
  {
    forall a | 0 <= a < |t.par| && Above(t.par, a, i) ensures !t.on[a] {
      ActiveAbove(t, a, i);
      if a > 0 {
        assert NodeOk(t, a);
      }
    }
  }

  lemma DeactivateValid(t: Weights, i: nat)
    requires Valid(t) && 0 < i < |t.par| && t.on[i]
    ensures var s := Deactivate(t, i);
            && Valid(s) && s.on == t.on[i := false] && s.par == t.par && s.weight == t.weight
            && (forall j :: 0 <= j < |t.par| && j != i && t.on[j] ==> s.inuse[j] == t.inuse[j])
  {
    assert NodeOk(t, i);
    LeafIsClear(t, i);
    PropagateOk(t, i, 0, 0);
    var r := Propagate(t, i, 0, 0);
    var s := Deactivate(t, i);
    forall j | 0 < j < |t.par| && j != i ensures NodeOk(s, j) {
      assert NodeOk(r, j);
    }
    AllNodesOk(s, i);
  }

  lemma SetInuseValid(t: Weights, i: nat, inuse: nat)
    requires Valid(t) && 0 < i < |t.par| && t.on[i]
    ensures var s := SetInuse(t, i, inuse);
            && Valid(s) && s.on == t.on && s.par == t.par && s.weight == t.weight
            && s.inuse[i] == Clamp(inuse, 1, t.weight[i])
            && (forall j :: 0 <= j < |t.par| && j != i && t.on[j] ==> s.inuse[j] == t.inuse[j])
  {
    assert NodeOk(t, i);
    LeafIsClear(t, i);
    PropagateOk(t, i, t.active[i], inuse);
    AllNodesOk(SetInuse(t, i, inuse), i);
  }

  lemma SetWeightValid(t: Weights, i: nat, weight: nat)
    requires Valid(t) && 0 < i < |t.par| && weight >= 1
    ensures var s := SetWeight(t, i, weight);
            && Valid(s) && s.on == t.on && s.par == t.par && s.weight == t.weight[i := weight]
            && (t.on[i] && weight != t.weight[i] ==> s.inuse[i] == Clamp(t.inuse[i], 1, weight))
            && (forall j :: 0 <= j < |t.par| && j != i && t.on[j] ==> s.inuse[j] == t.inuse[j])
  {
    assert NodeOk(t, i);
    var s := SetWeight(t, i, weight);
    if weight != t.weight[i] && t.active[i] != 0 {
      LeafIsClear(t, i);
      PropagateOk(t, i, weight, t.inuse[i]);
      var r := Propagate(t, i, weight, t.inuse[i]);
      SumsNonneg(t, i);
      forall j | 0 < j < |t.par| && j != i ensures NodeOk(s, j) {
        assert NodeOk(r, j);
      }
    } else {
      forall j | 0 < j < |t.par| && j != i ensures NodeOk(s, j) {
        assert NodeOk(t, j);
      }
    }
    AllNodesOk(s, i);
  }

  // ------------------------------------------------------------- hierarchical weights

  /** The walk of current_hweight from the root, before the floor of 1. */
  function RawHweight(t: Weights, i: nat): (h: (nat, nat))
    requires Wf(t) && i < |t.par|
  {
    if i == 0 then (WEIGHT_ONE, WEIGHT_ONE)
    else DescendHweight(t, i, RawHweight(t, t.par[i]))
  }

  /** One level of the walk; the sums are clamped from below by the child's own
      weights, and a level whose sums read as zero is skipped. */
  function DescendHweight(t: Weights, i: nat, h: (nat, nat)): (nat, nat)
    requires Wf(t) && 0 < i < |t.par|
  {
    var p := t.par[i];
    if t.activeSum[p] <= 0 || t.inuseSum[p] <= 0 then h
    else (PartOf(h.0, t.active[i], Max(t.active[i], t.activeSum[p])),
          PartOf(h.1, t.inuse[i], Max(t.inuse[i], t.inuseSum[p])))
  }

  /** The part of `h` that a weight `w` out of `d` is entitled to, rounded down. */
  function PartOf(h: nat, w: nat, d: nat): nat
    requires d > 0
  {
    MulLe(h, 0, w);
    DivNonneg(h * w, d);
    h * w / d
  }

  function RawActive(t: Weights): (s: seq<int>)
    requires Wf(t)
    ensures |s| == |t.par|
  {
    seq(|t.par|, i requires 0 <= i < |t.par| => RawHweight(t, i).0)
  }

  function RawInuse(t: Weights): (s: seq<int>)
    requires Wf(t)
    ensures |s| == |t.par|
  {
    seq(|t.par|, i requires 0 <= i < |t.par| => RawHweight(t, i).1)
  }

  lemma ZeroSums(t: Weights, i: nat)
    requires Valid(t) && i < |t.par| && t.activeSum[i] == 0
    ensures t.inuseSum[i] == 0
  {
    SumsNonneg(t, i);
    forall c | 0 < c < |t.par| && t.par[c] == i ensures t.inuse[c] == 0 {
      InuseBounds(t, c);
    }
    ChildSumZero(t.par, t.inuse, i, |t.par|);
  }

  lemma SplitStep(h: nat, x: nat, sum: nat)
    requires 0 < x <= sum
    ensures h * x / sum * sum <= h * x
  {
    DivBounds(h * x, sum);
    assert h * x / sum * sum == sum * (h * x / sum);
  }

  lemma HweightSplitsAt(t: Weights, i: nat)
    requires Valid(t) && 0 < i < |t.par|
    ensures SplitsAt(t.par, RawActive(t), t.active, t.on, i)
    ensures SplitsAt(t.par, RawInuse(t), t.inuse, t.on, i)
  {
    var p := t.par[i];
    assert NodeOk(t, i);
    InuseBounds(t, i);
    SumsNonneg(t, i);
    SumsNonneg(t, p);
    if t.active[i] > 0 {
      SplitStep(RawHweight(t, p).0, t.active[i], t.activeSum[p]);
      SplitStep(RawHweight(t, p).1, t.inuse[i], t.inuseSum[p]);
    }
    if t.activeSum[i] == 0 {
      ZeroSums(t, i);
    }
  }

  /** Before the floor of 1, the flattened weights of the active leaves add up to
      at most the whole, both for the configured and for the lowered weights. */
  lemma HweightsWithinOne(t: Weights)
    requires Valid(t)
    ensures Total(LeafParts(RawActive(t), t.on), |t.par|) <= WEIGHT_ONE
    ensures Total(LeafParts(RawInuse(t), t.on), |t.par|) <= WEIGHT_ONE
  {
    forall i | 0 < i < |t.par|
      ensures SplitsAt(t.par, RawActive(t), t.active, t.on, i) && SplitsAt(t.par, RawInuse(t), t.inuse, t.on, i)
    {
      HweightSplitsAt(t, i);
    }
    LeavesWithin(t.par, RawActive(t), t.active, t.on);
    LeavesWithin(t.par, RawInuse(t), t.inuse, t.on);
  }

  lemma RoundingStep(h: nat, x: nat, sum: nat)
    requires sum > 0
    ensures NearPart(h * x / sum, h, x, sum)
  {
    DivBounds(h * x, sum);
    assert sum * (h * x / sum + 1) == sum * (h * x / sum) + sum;
  }

  /** One level of the walk for a group with weight, without its guards. */
  lemma RawOfParent(t: Weights, i: nat)
    requires Valid(t) && 0 < i < |t.par| && t.active[i] > 0
    ensures var p := t.par[i];
            && t.activeSum[p] > 0 && t.inuseSum[p] > 0 && t.inuse[i] > 0
            && RawHweight(t, i) == (RawHweight(t, p).0 * t.active[i] / t.activeSum[p],
                                    RawHweight(t, p).1 * t.inuse[i] / t.inuseSum[p])
  {
    InuseBounds(t, i);
    SumsNonneg(t, t.par[i]);
  }

  lemma BusyInner(t: Weights, i: nat)
    requires Valid(t) && 0 < i < |t.par| && t.active[i] > 0 && !t.on[i]
    ensures t.activeSum[i] > 0 && t.inuseSum[i] > 0
  {
    assert NodeOk(t, i);
    BusySums(t, i);
  }

  lemma HweightNearlySplitsAt(t: Weights, i: nat)
    requires Valid(t) && 0 < i < |t.par|
    ensures NearlySplitsAt(t.par, RawActive(t), t.active, t.on, i)
    ensures NearlySplitsAt(t.par, RawInuse(t), t.inuse, t.on, i)
  {
    var p := t.par[i];
    if t.active[i] > 0 {
      RawOfParent(t, i);
      RoundingStep(RawHweight(t, p).0, t.active[i], t.activeSum[p]);
      RoundingStep(RawHweight(t, p).1, t.inuse[i], t.inuseSum[p]);
      if !t.on[i] {
        BusyInner(t, i);
      }
    } else {
      InuseBounds(t, i);
    }
  }

  /** A group whose children have active weight has children with inuse weight. */
  lemma BusySums(t: Weights, p: nat)
    requires Valid(t) && p < |t.par| && t.activeSum[p] > 0
    ensures t.inuseSum[p] > 0
  {
    SumsNonneg(t, p);
    if forall c :: 0 < c < |t.par| && t.par[c] == p ==> t.active[c] == 0 {
      ChildSumZero(t.par, t.active, p, |t.par|);
    } else {
      var c :| 0 < c < |t.par| && t.par[c] == p && t.active[c] != 0;
      InuseBounds(t, c);
    }
  }

  /** Flattening rounds down at every level, and loses at most one unit for every
      group with active weight. */
  lemma HweightsNearOne(t: Weights)
    requires Valid(t) && t.activeSum[0] > 0
    ensures Total(LeafParts(RawActive(t), t.on), |t.par|) + Total(Busy(t.active), |t.par|) >= WEIGHT_ONE
    ensures Total(LeafParts(RawInuse(t), t.on), |t.par|) + Total(Busy(t.inuse), |t.par|) >= WEIGHT_ONE
  {
    forall i | 0 < i < |t.par|
      ensures SplitsAt(t.par, RawActive(t), t.active, t.on, i) && SplitsAt(t.par, RawInuse(t), t.inuse, t.on, i)
      ensures NearlySplitsAt(t.par, RawActive(t), t.active, t.on, i)
      ensures NearlySplitsAt(t.par, RawInuse(t), t.inuse, t.on, i)
    {
      HweightSplitsAt(t, i);
      HweightNearlySplitsAt(t, i);
    }
    BusySums(t, 0);
    LeavesReach(t.par, RawActive(t), t.active, t.on);
    LeavesReach(t.par, RawInuse(t), t.inuse, t.on);
  }
}
