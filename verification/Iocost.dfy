/** The weights of a device and its groups in block/blk-iocost.c, updated in
    place, with the generation-stamped cache of hierarchical weights. */
module Iocost {
  import opened Arith
  import opened Hierarchy
  import opened WeightTree

  /** ancestors[]: the groups from the root down to `i`. */
  function PathTo(par: seq<nat>, i: nat): (path: seq<nat>)
    requires IsTree(par) && i < |par|
    ensures |path| > 0 && path[0] == 0 && path[|path| - 1] == i
    ensures forall l :: 0 <= l < |path| ==> path[l] < |par|
    ensures forall l :: 0 < l < |path| ==> path[l] > 0 && path[l - 1] == par[path[l]]
  {
    if i == 0 then [0] else PathTo(par, par[i]) + [i]
  }

  /** `a` is on the path, above its last group. */
  ghost predicate OnPath(path: seq<nat>, a: nat) {
    exists l :: 0 <= l < |path| - 1 && path[l] == a
  }

  lemma OnPathAt(path: seq<nat>, a: nat, l: nat)
    requires l < |path| - 1 && path[l] == a
    ensures OnPath(path, a)
  {
  }

  /** The path to a group holds exactly its ancestors. */
  lemma {:induction false} PathIsAbove(par: seq<nat>, a: nat, i: nat)
    requires IsTree(par) && i < |par|
    ensures Above(par, a, i) <==> OnPath(PathTo(par, i), a)
  {
    if i > 0 {
      PathIsAbove(par, a, par[i]);
      var up := PathTo(par, par[i]);
      assert PathTo(par, i) == up + [i];
      OnLongerPath(up, i, a);
    }
  }

  lemma OnLongerPath(up: seq<nat>, i: nat, a: nat)
    requires |up| > 0
    ensures OnPath(up + [i], a) <==> OnPath(up, a) || up[|up| - 1] == a
  {
    var path := up + [i];
    if l :| 0 <= l < |up| - 1 && up[l] == a {
      OnPathAt(path, a, l);
    }
    if up[|up| - 1] == a {
      OnPathAt(path, a, |up| - 1);
    }
    if l :| 0 <= l < |path| - 1 && path[l] == a {
      assert up[l] == a;
      if l < |up| - 1 {
        OnPathAt(up, a, l);
      }
    }
  }

  class Ioc {
    const par: seq<nat>
    var weight: seq<nat>
    var active: seq<nat>
    var inuse: seq<nat>
    var lastInuse: seq<nat>
    var activeSum: seq<int>
    var inuseSum: seq<int>
    var on: seq<bool>
    var weightsUpdated: bool
    var gen: int              // hweight_gen of the device
    var cacheGen: seq<int>    // hweight_gen of each group
    var hwActive: seq<nat>
    var hwInuse: seq<nat>

    ghost function View(): Weights
      reads this
    {
      Weights(par, weight, active, inuse, activeSum, inuseSum, on)
    }

    ghost predicate Shape()
      reads this
    {
      Wf(View()) && |lastInuse| == |cacheGen| == |hwActive| == |hwInuse| == |par|
    }

    ghost predicate Fresh(i: nat)
      requires Shape() && i < |par|
      reads this
    {
      hwActive[i] == Max(RawHweight(View(), i).0, 1) && hwInuse[i] == Max(RawHweight(View(), i).1, 1)
    }

    /** A cached pair is what a fresh walk would compute, for every active leaf
        whose generation matches, unless a weight update is still uncommitted. */
    ghost predicate CacheOk()
      requires Shape()
      reads this
    {
      && (forall i :: 0 <= i < |par| && on[i] ==> cacheGen[i] <= gen)
      && (forall i :: 0 <= i < |par| && on[i] && cacheGen[i] == gen && !weightsUpdated ==> Fresh(i))
    }

    ghost predicate Consistent()
      reads this
    {
      Shape() && WeightTree.Valid(View()) && CacheOk()
    }

    /** A device with no active group. */
    constructor (par: seq<nat>, weight: seq<nat>)
      requires IsTree(par) && |weight| == |par| && forall i :: 0 <= i < |weight| ==> weight[i] >= 1
      ensures Consistent() && this.par == par && this.weight == weight
      ensures forall i :: 0 <= i < |par| ==> !on[i]
    {
      this.par, this.weight := par, weight;
      var zeros := seq(|par|, i => 0);
      active, inuse, lastInuse := zeros, zeros, zeros;
      activeSum, inuseSum, cacheGen := zeros, zeros, zeros;
      on := seq(|par|, i => false);
      weightsUpdated, gen := false, 0;
      hwActive, hwInuse := seq(|par|, i => WEIGHT_ONE), seq(|par|, i => WEIGHT_ONE);
      new;
      forall p | 0 <= p < |par|
        ensures ChildSum(par, active, p, |par|) == 0 && ChildSum(par, inuse, p, |par|) == 0
      {
        ChildSumZero(par, active, p, |par|);
        ChildSumZero(par, inuse, p, |par|);
      }
    }

    /** One iteration of the walk: the parent's sums, then the child. */
    method ApplyWeights(c: nat, a: nat, u: nat)
      requires Shape() && 0 < c < |par|
      modifies this`activeSum, this`inuseSum, this`active, this`inuse
      ensures Shape() && View() == SetChild(old(View()), c, a, u)
    {
      var p := par[c];
      activeSum := activeSum[p := activeSum[p] + a - active[c]];
      inuseSum := inuseSum[p := inuseSum[p] + u - inuse[c]];
      active := active[c := a];
      inuse := inuse[c := u];
    }

    /** The weights a group without children on the active list gets from its sums. */
    method DeriveWeights(p: nat) returns (a: nat, u: nat)
      requires Shape() && p < |par|
      ensures (a, u) == ParentWeights(View(), p)
    {
      a, u := 0, 0;
      if activeSum[p] > 0 && inuseSum[p] >= 0 {
        a := weight[p];
        u := CeilDiv(a * inuseSum[p], activeSum[p]);
      }
    }

    /** The loop of __propagate_weights. */
    method WalkUp(i: nat, newActive: nat, newInuse: nat)
      requires Shape() && i < |par|
      modifies this`activeSum, this`inuseSum, this`active, this`inuse
      ensures Shape() && View() == Walk(old(View()), i, newActive, newInuse)
    {
      var c: nat, a: nat, u: nat := i, newActive, newInuse;
      while c > 0
        invariant Shape() && c < |par|
        invariant Walk(View(), c, a, u) == Walk(old(View()), i, newActive, newInuse)
      {
        ApplyWeights(c, a, u);
        var p := par[c];
        var pa, pu := DeriveWeights(p);
        // an ancestor whose weights come out the same leaves everything above as it was
        if pa == active[p] && pu == inuse[p] {
          return;
        }
        a, u, c := pa, pu, p;
      }
    }

    /** __propagate_weights */
    method PropagateWeights(i: nat, newActive: nat, newInuse: nat)
      requires Shape() && i < |par|
      modifies this`activeSum, this`inuseSum, this`active, this`inuse, this`lastInuse, this`weightsUpdated
      ensures Shape() && View() == Propagate(old(View()), i, newActive, newInuse)
      ensures lastInuse == old(lastInuse)[i := old(inuse[i])]
      ensures weightsUpdated == (old(weightsUpdated) || newActive != old(active[i]) ||
                                 NewInuse(old(View()), i, newActive, newInuse) != old(inuse[i]))
    {
      var u;
      if !on[i] && activeSum[i] > 0 && inuseSum[i] >= 0 {
        u := CeilDiv(newActive * inuseSum[i], activeSum[i]);
      } else {
        u := Clamp(newInuse, 1, newActive);
      }
      lastInuse := lastInuse[i := inuse[i]];
      if newActive == active[i] && u == inuse[i] {
        return;
      }
      WalkUp(i, newActive, u);
      weightsUpdated := true;
    }

    /** commit_weights: start a new generation if anything changed. */
    method CommitWeights()
      requires Shape() && CacheOk()
      modifies this`gen, this`weightsUpdated
      ensures CacheOk() && !weightsUpdated
      ensures gen == if old(weightsUpdated) then old(gen) + 1 else old(gen)
    {
      if weightsUpdated {
        gen := gen + 1;
        weightsUpdated := false;
      }
    }

    /** current_hweight: the cached pair if its generation is current, a fresh
        walk from the root otherwise. */
    method CurrentHweight(i: nat) returns (hwa: nat, hwi: nat)
      requires Consistent() && i < |par|
      modifies this`hwActive, this`hwInuse, this`cacheGen
      ensures Consistent()
      ensures on[i] && !weightsUpdated ==>
                hwa == Max(RawHweight(View(), i).0, 1) && hwi == Max(RawHweight(View(), i).1, 1)
      ensures hwa == hwActive[i] && hwi == hwInuse[i] && cacheGen[i] == gen
      ensures forall j :: 0 <= j < |par| && j != i ==>
                hwActive[j] == old(hwActive[j]) && hwInuse[j] == old(hwInuse[j]) && cacheGen[j] == old(cacheGen[j])
    {
      if gen != cacheGen[i] {
        var ancestors := PathTo(par, i);
        var a, u := WEIGHT_ONE, WEIGHT_ONE;
        var lvl := 0;
        while lvl < |ancestors| - 1
          invariant 0 <= lvl < |ancestors| && (a, u) == RawHweight(View(), ancestors[lvl])
        {
          var p, c := ancestors[lvl], ancestors[lvl + 1];
          assert p == par[c];
          // a level whose sums read as zero is being deactivated
          if activeSum[p] > 0 && inuseSum[p] > 0 {
            a := a * active[c] / Max(active[c], activeSum[p]);
            u := u * inuse[c] / Max(inuse[c], inuseSum[p]);
          }
          lvl := lvl + 1;
        }
        hwActive := hwActive[i := Max(a, 1)];
        hwInuse := hwInuse[i := Max(u, 1)];
        cacheGen := cacheGen[i := gen];
      }
      hwa, hwi := hwActive[i], hwInuse[i];
    }

    /** The checks of iocg_activate. */
    method CanActivate(i: nat) returns (ok: bool)
      requires Consistent() && 0 < i < |par|
      ensures ok <==> MayActivate(View(), i)
    {
      if activeSum[i] != 0 {
        return false;
      }
      var ancestors := PathTo(par, i);
      var l := |ancestors| - 2;
      while l > 0
        invariant 0 <= l < |ancestors| - 1
        invariant forall m :: l < m < |ancestors| - 1 ==> !on[ancestors[m]]
      {
        if on[ancestors[l]] {
          PathIsAbove(par, ancestors[l], i);
          assert Above(par, ancestors[l], i) && !ClearAbove(View(), i);
          return false;
        }
        l := l - 1;
      }
      forall a | 0 <= a < |par| && Above(par, a, i) ensures !on[a] {
        PathIsAbove(par, a, i);
      }
      return true;
    }

    /** The activation proper. */
    method ActivateIdle(i: nat)
      requires Consistent() && 0 < i < |par| && !on[i] && MayActivate(View(), i)
      modifies this
      ensures Consistent() && weight == old(weight) && on == old(on)[i := true]
      ensures View() == Activate(old(View()), i, old(lastInuse[i])) && !weightsUpdated
    {
      ActivateValid(View(), i, lastInuse[i]);
      assert active[i] == 0 by { assert NodeOk(View(), i); }
      // the cache of a group that was idle is stale whatever the generation says
      cacheGen := cacheGen[i := gen - 1];
      on := on[i := true];
      PropagateWeights(i, weight[i], if lastInuse[i] != 0 then lastInuse[i] else weight[i]);
      assert weightsUpdated && CacheOk();
      CommitWeights();
    }

    /** iocg_activate: refuses inner groups and groups below an active one. */
    method ActivateGroup(i: nat) returns (ok: bool)
      requires Consistent() && 0 < i < |par|
      modifies this
      ensures Consistent() && weight == old(weight)
      ensures ok <==> old(on[i]) || MayActivate(old(View()), i)
      ensures ok ==> on == old(on)[i := true]
      ensures !ok || old(on[i]) ==> View() == old(View())
      ensures ok && !old(on[i]) ==> View() == Activate(old(View()), i, old(lastInuse[i])) && !weightsUpdated
    {
      if on[i] {
        return true;
      }
      ok := CanActivate(i);
      if ok {
        ActivateIdle(i);
      }
    }

    /** The deactivation done by the period timer, which commits later. */
    method DeactivateGroup(i: nat)
      requires Consistent() && 0 < i < |par| && on[i]
      modifies this
      ensures Consistent() && weight == old(weight) && on == old(on)[i := false]
      ensures View() == Deactivate(old(View()), i) && weightsUpdated && gen == old(gen)
    {
      DeactivateValid(View(), i);
      assert NodeOk(View(), i);
      PropagateWeights(i, 0, 0);
      on := on[i := false];
    }

    /** Changing the inuse of an active leaf, as donation, snapback and debt do. */
    method UpdateInuse(i: nat, newInuse: nat)
      requires Consistent() && 0 < i < |par| && on[i]
      modifies this
      ensures Consistent() && weight == old(weight) && on == old(on)
      ensures View() == SetInuse(old(View()), i, newInuse) && !weightsUpdated
    {
      SetInuseValid(View(), i, newInuse);
      PropagateWeights(i, active[i], newInuse);
      CommitWeights();
    }

    /** weight_updated */
    method UpdateWeight(i: nat, newWeight: nat)
      requires Consistent() && 0 < i < |par| && newWeight >= 1
      modifies this
      ensures Consistent() && weight == old(weight)[i := newWeight] && on == old(on)
      ensures View() == SetWeight(old(View()), i, newWeight)
    {
      SetWeightValid(View(), i, newWeight);
      if newWeight != weight[i] && active[i] != 0 {
        PropagateWeights(i, newWeight, inuse[i]);
        CommitWeights();
      }
      ghost var before := View();
      weight := weight[i := newWeight];
      forall j | 0 <= j < |par| ensures RawHweight(View(), j) == RawHweight(before, j) {
        HweightIgnoresWeight(before, View(), j);
      }
    }
  }

  lemma {:induction false} HweightIgnoresWeight(s: Weights, t: Weights, i: nat)
    requires Wf(s) && Wf(t) && t == s.(weight := t.weight) && i < |s.par|
    ensures RawHweight(s, i) == RawHweight(t, i)
  {
    if i > 0 {
      HweightIgnoresWeight(s, t, s.par[i]);
    }
  }
}
