/** The throughput guarantee of block/blk-iocost.c: with fixed weights all groups
    together are never let use more of the device than it had to give. */
module Throughput {
  import opened Arith
  import opened Hierarchy
  import opened WeightTree
  import opened Budget

  datatype Event =
    | DoThrottle(i: nat, cost: nat, useDebt: bool, vnow: nat)
    | DoMerge(i: nat, cost: nat, hasCost: bool, vnow: nat)
    | DoKick(i: nat, pay: bool, vnow: nat)

  /** The shares current_hweight hands out, with their floor of 1. */
  function Hwa(t: Weights, i: nat): nat
    requires Wf(t) && i < |t.par|
  {
    Max(RawHweight(t, i).0, 1)
  }

  function Hwi(t: Weights, i: nat): nat
    requires Wf(t) && i < |t.par|
  {
    Max(RawHweight(t, i).1, 1)
  }

  predicate Enabled(t: Weights, ls: seq<Leaf>, ev: Event) {
    Wf(t) && |ls| == |t.par| && ev.i < |t.par| && t.on[ev.i]
  }

  function Next(t: Weights, ls: seq<Leaf>, ev: Event): seq<Leaf>
    requires Enabled(t, ls, ev)
  {
    ls[ev.i := Stepped(ls[ev.i], ev, Hwa(t, ev.i), Hwi(t, ev.i))]
  }

  function Stepped(l: Leaf, ev: Event, hwa: nat, hwi: nat): Leaf
    requires hwa > 0 && hwi > 0
  {
    match ev
    case DoThrottle(_, a, useDebt, vnow) => Throttle(l, a, useDebt, vnow, hwa, hwi)
    case DoMerge(_, a, hasCost, vnow) => Merge(l, a, hasCost, vnow, hwi)
    case DoKick(_, pay, vnow) => Kick(l, pay, vnow, hwa, hwi)
  }

  /** What group state `r` may have used since `l` with share `h` of a device whose
      virtual time has not passed `v`. */
  ghost predicate Within(l: Leaf, r: Leaf, h: nat, v: nat) {
    && l.usage <= r.usage && l.vtime <= r.vtime
    && WEIGHT_ONE * (r.usage - l.usage) <= h * (r.vtime - l.vtime)
    && (r.vtime == l.vtime || r.vtime <= v)
  }

  lemma WithinTrans(l: Leaf, m: Leaf, r: Leaf, h: nat, v: nat)
    requires Within(l, m, h, v) && Within(m, r, h, v)
    ensures Within(l, r, h, v)
  {
    Distribute(WEIGHT_ONE, m.usage - l.usage, r.usage - m.usage);
    Distribute(h, m.vtime - l.vtime, r.vtime - m.vtime);
  }

  /** Kicking a group without debt. */
  lemma KickWithin(l: Leaf, r: Leaf, pay: bool, vnow: nat, hwa: nat, h: nat)
    requires hwa > 0 && h > 0 && l.debt == 0 && r == Kick(l, pay, vnow, hwa, h)
    ensures Within(l, r, h, vnow)
  {
    KickWakesPrefix(l, pay, vnow, hwa, h);
    var n := |l.waitq| - |r.waitq|;
    QueueCharged(l.waitq[..n], h);
  }

  /** A step that leaves no debt charges what it lets through, and stays within the
      device's virtual time. */
  lemma SteppedWithin(l: Leaf, ev: Event, hwa: nat, h: nat)
    requires hwa > 0 && h > 0 && l.debt == 0 && Stepped(l, ev, hwa, h).debt == 0
    ensures Within(l, Stepped(l, ev, hwa, h), h, ev.vnow)
  {
    match ev
    case DoThrottle(_, a, useDebt, vnow) =>
      if a > 0 && !(l.waitq == [] && l.vtime + Cost(a, h) <= vnow) && !useDebt {
        KickWithin(l.(waitq := l.waitq + [a]), Stepped(l, ev, hwa, h), false, vnow, hwa, h);
      }
    case DoMerge(_, a, hasCost, vnow) =>
    case DoKick(_, pay, vnow) => KickWithin(l, Stepped(l, ev, hwa, h), pay, vnow, hwa, h);
  }

  // ------------------------------------------------------------- runs

  ghost predicate NoDebt(ls: seq<Leaf>) {
    forall i :: 0 <= i < |ls| ==> ls[i].debt == 0
  }

  /** A run with fixed weights in which no group goes into debt and no event sees a
      virtual time beyond `v`. */
  ghost predicate IsRun(t: Weights, run: seq<seq<Leaf>>, evs: seq<Event>, v: nat) {
    && |run| == |evs| + 1
    && (forall k :: 0 <= k < |run| ==> NoDebt(run[k]) && |run[k]| == |t.par|)
    && (forall k :: 0 <= k < |evs| ==> Took(t, run, evs, v, k))
  }

  ghost predicate Took(t: Weights, run: seq<seq<Leaf>>, evs: seq<Event>, v: nat, k: nat)
    requires |run| == |evs| + 1 && k < |evs|
  {
    evs[k].vnow <= v && Enabled(t, run[k], evs[k]) && run[k + 1] == Next(t, run[k], evs[k])
  }

  /** Over any such run each group uses no more than its share of the virtual time it
      was charged, and is charged nothing beyond the device's. */
  lemma {:induction false} GroupWithin(t: Weights, run: seq<seq<Leaf>>, evs: seq<Event>, v: nat, k: nat, i: nat)
    requires Valid(t) && IsRun(t, run, evs, v) && k <= |evs| && i < |t.par|
    ensures Within(run[0][i], run[k][i], Hwi(t, i), v)
    ensures !t.on[i] ==> run[k][i].usage == run[0][i].usage
  {
    if k > 0 {
      GroupWithin(t, run, evs, v, k - 1, i);
      assert Took(t, run, evs, v, k - 1);
      assert NoDebt(run[k - 1]) && NoDebt(run[k]);
      if evs[k - 1].i == i {
        assert run[k][i] == Stepped(run[k - 1][i], evs[k - 1], Hwa(t, i), Hwi(t, i)) && run[k][i].debt == 0;
        SteppedWithin(run[k - 1][i], evs[k - 1], Hwa(t, i), Hwi(t, i));
        WithinTrans(run[0][i], run[k - 1][i], run[k][i], Hwi(t, i), v);
      }
    }
  }

  /** Absolute cost committed per group between two states. */
  function Used(a: seq<Leaf>, b: seq<Leaf>): (u: seq<int>)
    requires |a| == |b|
    ensures |u| == |a|
  {
    seq(|a|, i requires 0 <= i < |a| => b[i].usage - a[i].usage)
  }

  /** Active groups whose share was lifted to the floor of 1. */
  function Lifted(t: Weights): (s: seq<int>)
    requires Wf(t)
    ensures |s| == |t.par|
  {
    seq(|t.par|, i requires 0 <= i < |t.par| => if i > 0 && t.on[i] && RawHweight(t, i).1 == 0 then 1 else 0)
  }

  /** The shares the active groups are charged by. */
  function Shares(t: Weights): (s: seq<int>)
    requires Wf(t)
    ensures |s| == |t.par|
  {
    seq(|t.par|, i requires 0 <= i < |t.par| => if t.on[i] then Hwi(t, i) else 0)
  }

  /** A share `x` of credit `m` covers use `u`. */
  ghost predicate Paid(u: int, m: nat, x: int) {
    WEIGHT_ONE * u <= m * x
  }

  lemma PaidTogether(u: int, v: int, m: nat, x: int, y: int)
    requires Paid(u, m, x) && Paid(v, m, y)
    ensures Paid(u + v, m, x + y)
  {
    Distribute(WEIGHT_ONE, u, v);
    Distribute(m, x, y);
  }

  /** One group's use against the largest credit `m`. */
  lemma GroupUse(t: Weights, l: Leaf, r: Leaf, i: nat, v: nat, m: nat)
    requires Wf(t) && i < |t.par| && Within(l, r, Hwi(t, i), v) && v - l.vtime <= m
    ensures WEIGHT_ONE * (r.usage - l.usage) <= m * Hwi(t, i)
  {
    MulLe(Hwi(t, i), r.vtime - l.vtime, m);
  }

  lemma GroupShare(t: Weights, run: seq<seq<Leaf>>, evs: seq<Event>, v: nat, m: nat, i: nat)
    requires Valid(t) && IsRun(t, run, evs, v) && i < |t.par|
    requires t.on[i] ==> v - run[0][i].vtime <= m
    ensures Paid(Used(run[0], run[|evs|])[i], m, Shares(t)[i])
  {
    GroupWithin(t, run, evs, v, |evs|, i);
    if t.on[i] {
      GroupUse(t, run[0][i], run[|evs|][i], i, v, m);
    } else {
      assert m * 0 == 0;
    }
  }

  /** The first `k` groups together are charged for what they used, each at most the
      largest credit any of them had. */
  lemma {:induction false} AllPaid(t: Weights, run: seq<seq<Leaf>>, evs: seq<Event>, v: nat, m: nat, k: nat)
    requires Valid(t) && IsRun(t, run, evs, v) && k <= |t.par|
    requires forall i :: 0 <= i < |t.par| && t.on[i] ==> v - run[0][i].vtime <= m
    ensures Paid(Total(Used(run[0], run[|evs|]), k), m, Total(Shares(t), k))
  {
    if k > 0 {
      var u, x := Used(run[0], run[|evs|]), Shares(t);
      AllPaid(t, run, evs, v, m, k - 1);
      GroupShare(t, run, evs, v, m, k - 1);
      PaidTogether(Total(u, k - 1), u[k - 1], m, Total(x, k - 1), x[k - 1]);
    }
  }

  /** The groups of a device together commit at most the largest credit any of them
      had, up to what shares lifted to the floor of 1 hand out in excess. */
  lemma ThroughputWithFloor(t: Weights, run: seq<seq<Leaf>>, evs: seq<Event>, v: nat, m: nat)
    requires Valid(t) && IsRun(t, run, evs, v)
    requires forall i :: 0 <= i < |t.par| && t.on[i] ==> v - run[0][i].vtime <= m
    ensures Paid(Total(Used(run[0], run[|evs|]), |t.par|), m, WEIGHT_ONE + Total(Lifted(t), |t.par|))
  {
    AllPaid(t, run, evs, v, m, |t.par|);
    SharesWithin(t);
    MulLe(m, Total(Shares(t), |t.par|), WEIGHT_ONE + Total(Lifted(t), |t.par|));
  }

  lemma SharesWithin(t: Weights)
    requires Valid(t)
    ensures Total(Shares(t), |t.par|) <= WEIGHT_ONE + Total(Lifted(t), |t.par|)
  {
    HweightsWithinOne(t);
    TotalAdd(LeafParts(RawInuse(t), t.on), Lifted(t), Shares(t), |t.par|);
  }

  /** With no share lifted to the floor, all groups together commit at most the
      largest credit any of them had. */
  lemma ThroughputBound(t: Weights, run: seq<seq<Leaf>>, evs: seq<Event>, v: nat, m: nat)
    requires Valid(t) && IsRun(t, run, evs, v)
    requires forall i :: 0 <= i < |t.par| && t.on[i] ==> v - run[0][i].vtime <= m
    requires forall i :: 0 <= i < |t.par| && t.on[i] ==> RawHweight(t, i).1 > 0
    ensures Total(Used(run[0], run[|evs|]), |t.par|) <= m
  {
    ThroughputWithFloor(t, run, evs, v, m);
    TotalZero(Lifted(t), |t.par|);
    assert m * WEIGHT_ONE == WEIGHT_ONE * m;
    MulCancelLe(WEIGHT_ONE, Total(Used(run[0], run[|evs|]), |t.par|), m);
  }
}
