/** Hierarchical IO statistics of block/blk-cgroup.c: per-cpu counters are flushed to
    their group, and a group's total on to its parent. */
module Rstat {
  import opened Arith
  import opened Hierarchy

  /** One counter of every group of a device; group 0 is the root. */
  datatype Counter = Counter(
    par: seq<nat>,
    cpuCur: seq<seq<int>>,    // iostat_cpu->cur, by group and cpu
    cpuLast: seq<seq<int>>,   // iostat_cpu->last
    cur: seq<int>,            // iostat.cur
    last: seq<int>)           // iostat.last: what has been pushed to the parent

  predicate Wf(s: Counter, cpus: nat) {
    && IsTree(s.par) && |s.cpuCur| == |s.cpuLast| == |s.cur| == |s.last| == |s.par|
    && forall i :: 0 <= i < |s.par| ==> |s.cpuCur[i]| == |s.cpuLast[i]| == cpus
  }

  /** A group's total is what its own cpus have flushed and its children pushed up. */
  ghost predicate GroupOk(s: Counter, cpus: nat, i: nat)
    requires Wf(s, cpus) && i < |s.par|
  {
    s.cur[i] == Total(s.cpuLast[i], cpus) + ChildSum(s.par, s.last, i, |s.par|)
  }

  ghost predicate Inv(s: Counter, cpus: nat) {
    Wf(s, cpus) && forall i :: 0 < i < |s.par| ==> GroupOk(s, cpus, i)
  }

  // ------------------------------------------------------------- steps

  /** blk_cgroup_bio_start: `n` is added on one cpu of one group. */
  function Account(s: Counter, i: nat, c: nat, n: int): Counter
    requires i < |s.cpuCur| && c < |s.cpuCur[i]|
  {
    s.(cpuCur := s.cpuCur[i := s.cpuCur[i][c := s.cpuCur[i][c] + n]])
  }

  /** The first half of blkcg_rstat_flush: a cpu's delta goes to the group. */
  function FlushCpu(s: Counter, cpus: nat, i: nat, c: nat): Counter
    requires Wf(s, cpus) && i < |s.par| && c < cpus
  {
    var delta := s.cpuCur[i][c] - s.cpuLast[i][c];
    s.(cur := s.cur[i := s.cur[i] + delta], cpuLast := s.cpuLast[i := s.cpuLast[i][c := s.cpuLast[i][c] + delta]])
  }

  /** The second half: the group's delta goes to its parent. */
  function PushUp(s: Counter, cpus: nat, i: nat): Counter
    requires Wf(s, cpus) && 0 < i < |s.par|
  {
    var delta := s.cur[i] - s.last[i];
    var p := s.par[i];
    s.(cur := s.cur[p := s.cur[p] + delta], last := s.last[i := s.last[i] + delta])
  }

  function Flush(s: Counter, cpus: nat, i: nat, c: nat): Counter
    requires Wf(s, cpus) && i < |s.par| && c < cpus
  {
    var s1 := FlushCpu(s, cpus, i, c);
    if i == 0 then s1 else PushUp(s1, cpus, i)
  }

  /** blkcg_fill_root_iostats overwrites the root's total. */
  function FillRoot(s: Counter, v: int): Counter
    requires |s.cur| > 0
  {
    s.(cur := s.cur[0 := v])
  }

  lemma AccountInv(s: Counter, cpus: nat, i: nat, c: nat, n: int)
    requires Inv(s, cpus) && i < |s.par| && c < cpus
    ensures Inv(Account(s, i, c, n), cpus)
  {
    var r := Account(s, i, c, n);
    forall j | 0 < j < |r.par| ensures GroupOk(r, cpus, j) {
      assert GroupOk(s, cpus, j);
    }
  }

  lemma FlushCpuInv(s: Counter, cpus: nat, i: nat, c: nat)
    requires Inv(s, cpus) && i < |s.par| && c < cpus
    ensures Inv(FlushCpu(s, cpus, i, c), cpus)
  {
    var r := FlushCpu(s, cpus, i, c);
    forall j | 0 < j < |r.par| ensures GroupOk(r, cpus, j) {
      assert GroupOk(s, cpus, j);
      if j == i {
        TotalBump(s.cpuLast[i], r.cpuLast[i], c, s.cpuCur[i][c] - s.cpuLast[i][c], cpus);
      }
    }
  }

  lemma PushUpInv(s: Counter, cpus: nat, i: nat)
    requires Inv(s, cpus) && 0 < i < |s.par|
    ensures Inv(PushUp(s, cpus, i), cpus)
  {
    var r := PushUp(s, cpus, i);
    forall j | 0 < j < |r.par| ensures GroupOk(r, cpus, j) {
      assert GroupOk(s, cpus, j);
      ChildSumUpdate(s.par, s.last, i, r.last[i], j, |s.par|);
    }
  }

  lemma FlushInv(s: Counter, cpus: nat, i: nat, c: nat)
    requires Inv(s, cpus) && i < |s.par| && c < cpus
    ensures Inv(Flush(s, cpus, i, c), cpus)
  {
    FlushCpuInv(s, cpus, i, c);
    if i > 0 {
      PushUpInv(FlushCpu(s, cpus, i, c), cpus, i);
    }
  }

  datatype Event = DoAccount(i: nat, c: nat, n: int) | DoFlush(i: nat, c: nat) | DoFillRoot(v: int)

  function Next(s: Counter, cpus: nat, ev: Event): Counter
    requires Wf(s, cpus) && Enabled(s, cpus, ev)
  {
    match ev
    case DoAccount(i, c, n) => Account(s, i, c, n)
    case DoFlush(i, c) => Flush(s, cpus, i, c)
    case DoFillRoot(v) => FillRoot(s, v)
  }

  predicate Enabled(s: Counter, cpus: nat, ev: Event) {
    ev.DoFillRoot? || (ev.i < |s.par| && ev.c < cpus)
  }

  function Zero(par: seq<nat>, cpus: nat): Counter {
    var none, rows := seq(|par|, i => 0), seq(|par|, i => seq(cpus, c => 0));
    Counter(par, rows, rows, none, none)
  }

  ghost predicate IsRun(run: seq<Counter>, cpus: nat, evs: seq<Event>) {
    && |run| == |evs| + 1 && IsTree(run[0].par) && run[0] == Zero(run[0].par, cpus)
    && forall k :: 0 <= k < |evs| ==> Took(run, cpus, evs, k)
  }

  ghost predicate Took(run: seq<Counter>, cpus: nat, evs: seq<Event>, k: nat)
    requires |run| == |evs| + 1 && k < |evs|
  {
    Wf(run[k], cpus) ==> Enabled(run[k], cpus, evs[k]) && run[k + 1] == Next(run[k], cpus, evs[k])
  }

  /** The accounting holds in every state of every interleaving. */
  lemma {:induction false} RunInv(run: seq<Counter>, cpus: nat, evs: seq<Event>, k: nat)
    requires IsRun(run, cpus, evs) && k <= |evs|
    ensures Inv(run[k], cpus)
  {
    if k == 0 {
      var s := run[0];
      forall i | 0 < i < |s.par| ensures GroupOk(s, cpus, i) {
        TotalZero(s.cpuLast[i], cpus);
        ChildSumZero(s.par, s.last, i, |s.par|);
      }
    } else {
      RunInv(run, cpus, evs, k - 1);
      assert Took(run, cpus, evs, k - 1);
      var s := run[k - 1];
      match evs[k - 1]
      case DoAccount(i, c, n) => AccountInv(s, cpus, i, c, n);
      case DoFlush(i, c) => FlushInv(s, cpus, i, c);
      case DoFillRoot(v) =>
        forall j | 0 < j < |s.par| ensures GroupOk(run[k], cpus, j) {
          assert GroupOk(s, cpus, j);
        }
    }
  }

  // ------------------------------------------------------------- subtrees

  predicate Within(par: seq<nat>, r: nat, i: nat)
    requires IsTree(par) && i < |par|
  {
    i == r || Above(par, r, i)
  }

  /** The sum of `v` over the subtree of `r`. */
  function Subtree(par: seq<nat>, v: seq<int>, r: nat, k: nat): int
    requires IsTree(par) && k <= |par| == |v|
  {
    if k == 0 then 0 else Subtree(par, v, r, k - 1) + if Within(par, r, k - 1) then v[k - 1] else 0
  }

  function Subtrees(par: seq<nat>, v: seq<int>, k: nat): (s: seq<int>)
    requires IsTree(par) && k <= |par| == |v|
    ensures |s| == |par|
  {
    seq(|par|, r requires 0 <= r < |par| => Subtree(par, v, r, k))
  }

  /** The child of `r` on the way to its descendant `i`. */
  function Toward(par: seq<nat>, r: nat, i: nat): (c: nat)
    requires IsTree(par) && i < |par| && Above(par, r, i)
    ensures 0 < c < |par| && par[c] == r && Within(par, c, i)
  {
    if par[i] == r then i else Toward(par, r, par[i])
  }

  lemma {:induction false} TowardOnly(par: seq<nat>, r: nat, i: nat, c: nat)
    requires IsTree(par) && i < |par| && 0 < c < |par| && par[c] == r && Within(par, c, i)
    ensures Above(par, r, i) && Toward(par, r, i) == c
    decreases i
  {
    if i != c {
      assert Within(par, c, par[i]);
      TowardOnly(par, r, par[i], c);
      AboveIsBelow(par, r, par[i]);
    }
  }

  /** Among the children of `r`, only one has `i` in its subtree. */
  lemma OneChild(par: seq<nat>, v: seq<int>, r: nat, i: nat, x: int)
    requires IsTree(par) && |v| == |par| && r < |par| && i < |par|
    requires forall c :: 0 <= c < |par| ==> v[c] == if Within(par, c, i) then x else 0
    ensures ChildSum(par, v, r, |par|) == if Above(par, r, i) then x else 0
  {
    var zero := seq(|par|, c => 0);
    ChildSumZero(par, zero, r, |par|);
    if Above(par, r, i) {
      var t := Toward(par, r, i);
      ChildSumUpdate(par, zero, t, x, r, |par|);
      forall c | 0 < c < |par| && par[c] == r ensures v[c] == zero[t := x][c] {
        if Within(par, c, i) {
          TowardOnly(par, r, i, c);
        }
      }
      ChildSumSame(par, v, zero[t := x], r, |par|);
    } else {
      forall c | 0 < c < |par| && par[c] == r ensures v[c] == 0 {
        if Within(par, c, i) {
          TowardOnly(par, r, i, c);
        }
      }
      ChildSumSame(par, v, zero, r, |par|);
    }
  }

  lemma ChildSumPlus(par: seq<nat>, u: seq<int>, v: seq<int>, w: seq<int>, p: int, k: nat)
    requires k <= |par| == |u| == |v| == |w| && forall i :: 0 <= i < |par| ==> w[i] == u[i] + v[i]
    ensures ChildSum(par, w, p, k) == ChildSum(par, u, p, k) + ChildSum(par, v, p, k)
  {
  }

  /** A subtree is its root and the subtrees of its children. */
  lemma {:induction false} SubtreeSplits(par: seq<nat>, v: seq<int>, r: nat, k: nat)
    requires IsTree(par) && k <= |par| == |v| && r < |par|
    ensures Subtree(par, v, r, k) == (if r < k then v[r] else 0) + ChildSum(par, Subtrees(par, v, k), r, |par|)
    decreases k
  {
    if k == 0 {
      ChildSumZero(par, Subtrees(par, v, 0), r, |par|);
    } else {
      SubtreeSplits(par, v, r, k - 1);
      var hit := seq(|par|, c requires 0 <= c < |par| => if Within(par, c, k - 1) then v[k - 1] else 0);
      OneChild(par, hit, r, k - 1, v[k - 1]);
      ChildSumPlus(par, Subtrees(par, v, k - 1), hit, Subtrees(par, v, k), r, |par|);
      if r == k - 1 {
        NotAboveItself(par, r);
      }
    }
  }

  lemma NotAboveItself(par: seq<nat>, r: nat)
    requires IsTree(par) && r < |par|
    ensures !Above(par, r, r)
  {
    if Above(par, r, r) {
      AboveIsBelow(par, r, r);
    }
  }

  // ------------------------------------------------------------- conservation

  /** What was counted in a group itself, less what its cpus have not flushed and what
      its total has not pushed up. */
  function Net(s: Counter, cpus: nat): (v: seq<int>)
    requires Wf(s, cpus)
    ensures |v| == |s.par|
  {
    seq(|s.par|, i requires 0 <= i < |s.par| => Total(s.cpuCur[i], cpus) - Unflushed(s, cpus, i) - Unpushed(s, i))
  }

  function Unflushed(s: Counter, cpus: nat, i: nat): int
    requires Wf(s, cpus) && i < |s.par|
  {
    Total(s.cpuCur[i], cpus) - Total(s.cpuLast[i], cpus)
  }

  function Unpushed(s: Counter, i: nat): int
    requires i < |s.cur| && i < |s.last|
  {
    s.cur[i] - s.last[i]
  }

  /** Nothing is lost or counted twice: what a group has pushed up is everything
      counted in its subtree, less what is still on its way. */
  lemma {:induction false} Conservation(s: Counter, cpus: nat, i: nat)
    requires Inv(s, cpus) && 0 < i < |s.par|
    ensures s.last[i] == Subtree(s.par, Net(s, cpus), i, |s.par|)
    decreases |s.par| - i
  {
    var n, net := |s.par|, Net(s, cpus);
    SubtreeSplits(s.par, net, i, n);
    forall c | 0 < c < n && s.par[c] == i ensures s.last[c] == Subtrees(s.par, net, n)[c] {
      Conservation(s, cpus, c);
    }
    ChildSumSame(s.par, s.last, Subtrees(s.par, net, n), i, n);
    assert GroupOk(s, cpus, i);
  }

  function Counted(s: Counter, cpus: nat): (v: seq<int>)
    requires Wf(s, cpus)
    ensures |v| == |s.par|
  {
    seq(|s.par|, i requires 0 <= i < |s.par| => Total(s.cpuCur[i], cpus))
  }

  /** Everything below `r` has been flushed, and pushed up from the groups under it. */
  ghost predicate Settled(s: Counter, cpus: nat, r: nat)
    requires Wf(s, cpus)
  {
    forall i :: 0 <= i < |s.par| && Within(s.par, r, i) ==>
      s.cpuLast[i] == s.cpuCur[i] && (i != r ==> s.last[i] == s.cur[i])
  }

  /** Then its total is the exact sum over its subtree. */
  lemma SettledIsExact(s: Counter, cpus: nat, r: nat)
    requires Inv(s, cpus) && 0 < r < |s.par| && Settled(s, cpus, r)
    ensures s.cur[r] == Subtree(s.par, Counted(s, cpus), r, |s.par|)
  {
    Conservation(s, cpus, r);
    SubtreeBut(s.par, Net(s, cpus), Counted(s, cpus), r, |s.par|);
  }

  lemma {:induction false} SubtreeBut(par: seq<nat>, u: seq<int>, v: seq<int>, r: nat, k: nat)
    requires IsTree(par) && k <= |par| == |u| == |v| && r < |par|
    requires forall i :: 0 <= i < |par| && Above(par, r, i) && i != r ==> u[i] == v[i]
    ensures Subtree(par, u, r, k) == Subtree(par, v, r, k) + if r < k then u[r] - v[r] else 0
    decreases k
  {
    if k > 0 {
      SubtreeBut(par, u, v, r, k - 1);
    }
  }

  // ------------------------------------------------------------- flushing a subtree

  /** Every group of the subtree once, children before their parents. */
  predicate BottomUp(par: seq<nat>, r: nat, order: seq<nat>) {
    && IsTree(par)
    && (forall k :: 0 <= k < |order| ==> order[k] < |par| && Within(par, r, order[k]))
    && (forall i :: 0 <= i < |par| && Within(par, r, i) ==> i in order)
    && (forall j, k :: 0 <= j <= k < |order| ==> par[order[k]] != order[j])
  }

  /** The pass for cpu `c` after its first `k` groups. */
  ghost predicate Passed(s: Counter, cpus: nat, order: seq<nat>, c: nat, k: nat)
    requires Wf(s, cpus) && k <= |order| && forall j :: 0 <= j < |order| ==> order[j] < |s.par|
  {
    forall j :: 0 <= j < k ==> PassedOne(s, cpus, order[j], c)
  }

  predicate PassedOne(s: Counter, cpus: nat, i: nat, c: nat)
    requires Wf(s, cpus) && i < |s.par|
  {
    (c < cpus ==> s.cpuLast[i][c] == s.cpuCur[i][c]) && (i > 0 ==> s.last[i] == s.cur[i])
  }

  /** Flushing the next group keeps what is done: the groups done before are not its
      parent. */
  lemma PassStep(s: Counter, cpus: nat, r: nat, order: seq<nat>, c: nat, k: nat)
    requires Inv(s, cpus) && c < cpus && BottomUp(s.par, r, order) && k < |order| && Passed(s, cpus, order, c, k)
    ensures var t := Flush(s, cpus, order[k], c);
            t.par == s.par && Inv(t, cpus) && Passed(t, cpus, order, c, k + 1)
  {
    var t := Flush(s, cpus, order[k], c);
    FlushInv(s, cpus, order[k], c);
    forall j | 0 <= j < k + 1 ensures PassedOne(t, cpus, order[j], c) {
      assert j < k ==> PassedOne(s, cpus, order[j], c);
      assert s.par[order[k]] != order[j];
    }
  }

  predicate CpuFlushed(s: Counter, cpus: nat, i: nat, c: nat)
    requires Wf(s, cpus) && i < |s.par| && c < cpus
  {
    s.cpuLast[i][c] == s.cpuCur[i][c]
  }

  ghost predicate Pushed(s: Counter, r: nat)
    requires IsTree(s.par) && |s.last| == |s.cur| == |s.par|
  {
    forall i :: 0 < i < |s.par| && Within(s.par, r, i) ==> s.last[i] == s.cur[i]
  }

  ghost predicate CpusFlushed(s: Counter, cpus: nat, r: nat, c: nat)
    requires Wf(s, cpus) && c <= cpus
  {
    forall i, d :: 0 <= i < |s.par| && Within(s.par, r, i) && 0 <= d < c ==> CpuFlushed(s, cpus, i, d)
  }

  /** Midway through the pass for cpu `c`. */
  ghost predicate During(s: Counter, cpus: nat, r: nat, order: seq<nat>, c: nat, k: nat) {
    && Inv(s, cpus) && BottomUp(s.par, r, order) && c < cpus && k <= |order|
    && CpusFlushed(s, cpus, r, c) && Passed(s, cpus, order, c, k)
  }

  lemma DuringStep(s: Counter, cpus: nat, r: nat, order: seq<nat>, c: nat, k: nat)
    requires During(s, cpus, r, order, c, k) && k < |order|
    ensures During(Flush(s, cpus, order[k], c), cpus, r, order, c, k + 1)
  {
    var t := Flush(s, cpus, order[k], c);
    PassStep(s, cpus, r, order, c, k);
    forall i, d | 0 <= i < |t.par| && Within(t.par, r, i) && 0 <= d < c ensures CpuFlushed(t, cpus, i, d) {
      assert CpuFlushed(s, cpus, i, d);
    }
  }

  lemma PassDone(s: Counter, cpus: nat, r: nat, order: seq<nat>, c: nat)
    requires During(s, cpus, r, order, c, |order|)
    ensures CpusFlushed(s, cpus, r, c + 1) && Pushed(s, r)
  {
    forall i | 0 <= i < |s.par| && Within(s.par, r, i) ensures PassedOne(s, cpus, i, c) {
      var j :| 0 <= j < |order| && order[j] == i;
    }
    forall i, d | 0 <= i < |s.par| && Within(s.par, r, i) && 0 <= d < c + 1 ensures CpuFlushed(s, cpus, i, d) {
      assert PassedOne(s, cpus, i, c);
    }
  }

  lemma AllPassesDone(s: Counter, cpus: nat, r: nat)
    requires Wf(s, cpus) && CpusFlushed(s, cpus, r, cpus) && Pushed(s, r) && 0 < r
    ensures Settled(s, cpus, r)
  {
    forall i | 0 <= i < |s.par| && Within(s.par, r, i)
      ensures s.cpuLast[i] == s.cpuCur[i] && (i != r ==> s.last[i] == s.cur[i])
    {
      forall d | 0 <= d < cpus ensures s.cpuLast[i][d] == s.cpuCur[i][d] {
        assert CpuFlushed(s, cpus, i, d);
      }
      if i != r {
        AboveIsBelow(s.par, r, i);
      }
    }
  }

  // ------------------------------------------------------------- in place

  const KINDS: nat := 3   // BLKG_IOSTAT_NR: read, write, discard

  /** struct blkg_iostat */
  datatype Iostat = Iostat(bytes: seq<int>, ios: seq<int>)

  predicate StatOk(a: Iostat) {
    |a.bytes| == |a.ios| == KINDS
  }

  /** Counter `k`: the bytes of each kind, then the IOs of each kind. */
  function Get(a: Iostat, k: nat): int
    requires StatOk(a) && k < 2 * KINDS
  {
    if k < KINDS then a.bytes[k] else a.ios[k - KINDS]
  }

  /** blkg_iostat_add */
  function Plus(a: Iostat, b: Iostat): (r: Iostat)
    requires StatOk(a) && StatOk(b)
    ensures StatOk(r) && forall k :: 0 <= k < 2 * KINDS ==> Get(r, k) == Get(a, k) + Get(b, k)
  {
    Iostat(seq(KINDS, k requires 0 <= k < KINDS => a.bytes[k] + b.bytes[k]),
           seq(KINDS, k requires 0 <= k < KINDS => a.ios[k] + b.ios[k]))
  }

  /** blkg_iostat_sub */
  function Minus(a: Iostat, b: Iostat): (r: Iostat)
    requires StatOk(a) && StatOk(b)
    ensures StatOk(r) && forall k :: 0 <= k < 2 * KINDS ==> Get(r, k) == Get(a, k) - Get(b, k)
  {
    Iostat(seq(KINDS, k requires 0 <= k < KINDS => a.bytes[k] - b.bytes[k]),
           seq(KINDS, k requires 0 <= k < KINDS => a.ios[k] - b.ios[k]))
  }

  predicate StatsOk(l: seq<Iostat>) {
    forall i :: 0 <= i < |l| ==> StatOk(l[i])
  }

  /** One counter of several statistics. */
  function Column(l: seq<Iostat>, k: nat): (c: seq<int>)
    requires StatsOk(l) && k < 2 * KINDS
    ensures |c| == |l|
  {
    seq(|l|, i requires 0 <= i < |l| => Get(l[i], k))
  }

  function Columns(l: seq<seq<Iostat>>, k: nat): (c: seq<seq<int>>)
    requires (forall i :: 0 <= i < |l| ==> StatsOk(l[i])) && k < 2 * KINDS
    ensures |c| == |l|
  {
    seq(|l|, i requires 0 <= i < |l| => Column(l[i], k))
  }

  lemma ColumnSet(l: seq<Iostat>, i: nat, a: Iostat, k: nat)
    requires StatsOk(l) && i < |l| && StatOk(a) && k < 2 * KINDS
    ensures StatsOk(l[i := a]) && Column(l[i := a], k) == Column(l, k)[i := Get(a, k)]
  {
  }

  lemma ColumnsSet(l: seq<seq<Iostat>>, i: nat, m: seq<Iostat>, k: nat)
    requires (forall j :: 0 <= j < |l| ==> StatsOk(l[j])) && i < |l| && StatsOk(m) && k < 2 * KINDS
    ensures Columns(l[i := m], k) == Columns(l, k)[i := Column(m, k)]
  {
  }

  /** The statistics of the groups of one device. */
  class Blkgs {
    const par: seq<nat>
    const cpus: nat
    var cpuCur: seq<seq<Iostat>>
    var cpuLast: seq<seq<Iostat>>
    var cur: seq<Iostat>
    var last: seq<Iostat>

    ghost predicate Shape()
      reads this
    {
      && IsTree(par) && |cpuCur| == |cpuLast| == |cur| == |last| == |par| && StatsOk(cur) && StatsOk(last)
      && (forall i :: 0 <= i < |par| ==>
            |cpuCur[i]| == |cpuLast[i]| == cpus && StatsOk(cpuCur[i]) && StatsOk(cpuLast[i]))
    }

    /** Counter `k` of all groups. */
    ghost function View(k: nat): (s: Counter)
      requires Shape() && k < 2 * KINDS
      reads this
      ensures Wf(s, cpus)
    {
      Counter(par, Columns(cpuCur, k), Columns(cpuLast, k), Column(cur, k), Column(last, k))
    }

    ghost predicate Consistent()
      reads this
    {
      Shape() && forall k :: 0 <= k < 2 * KINDS ==> Inv(View(k), cpus)
    }

    /** blk_cgroup_bio_start: every start counts an IO, but the bytes of a bio count
        only the first time. */
    method BioStart(i: nat, c: nat, kind: nat, size: nat, acct: bool) returns (flagged: bool)
      requires Consistent() && i < |par| && c < cpus && kind < KINDS
      modifies this`cpuCur
      ensures Consistent() && flagged
      ensures forall k :: 0 <= k < 2 * KINDS ==>
        View(k) == Account(old(View(k)), i, c, if k == KINDS + kind then 1 else if k == kind && !acct then size else 0)
    {
      flagged := acct;
      var a := cpuCur[i][c];
      if !flagged {
        flagged := true;
        a := a.(bytes := a.bytes[kind := a.bytes[kind] + size]);
      }
      a := a.(ios := a.ios[kind := a.ios[kind] + 1]);
      ghost var rows, row := cpuCur, cpuCur[i];
      cpuCur := cpuCur[i := cpuCur[i][c := a]];
      forall k | 0 <= k < 2 * KINDS
        ensures View(k) == Account(old(View(k)), i, c,
                                   if k == KINDS + kind then 1 else if k == kind && !acct then size else 0)
        ensures Inv(View(k), cpus)
      {
        ColumnSet(row, c, a, k);
        ColumnsSet(rows, i, row[c := a], k);
        AccountInv(old(View(k)), cpus, i, c, if k == KINDS + kind then 1 else if k == kind && !acct then size else 0);
      }
    }

    method FlushOne(i: nat, c: nat)
      requires Shape() && i < |par| && c < cpus
      modifies this`cpuLast, this`cur
      ensures Shape()
      ensures forall k :: 0 <= k < 2 * KINDS ==> View(k) == FlushCpu(old(View(k)), cpus, i, c)
    {
      var delta := Minus(cpuCur[i][c], cpuLast[i][c]);
      ghost var rows, row := cpuLast, cpuLast[i];
      cur := cur[i := Plus(cur[i], delta)];
      cpuLast := cpuLast[i := cpuLast[i][c := Plus(cpuLast[i][c], delta)]];
      forall k | 0 <= k < 2 * KINDS ensures View(k) == FlushCpu(old(View(k)), cpus, i, c) {
        ColumnSet(row, c, Plus(row[c], delta), k);
        ColumnsSet(rows, i, row[c := Plus(row[c], delta)], k);
        ColumnSet(old(cur), i, cur[i], k);
      }
    }

    method PushOne(i: nat)
      requires Shape() && 0 < i < |par|
      modifies this`last, this`cur
      ensures Shape()
      ensures forall k :: 0 <= k < 2 * KINDS ==> View(k) == PushUp(old(View(k)), cpus, i)
    {
      var p := par[i];
      var delta := Minus(cur[i], last[i]);
      cur := cur[p := Plus(cur[p], delta)];
      last := last[i := Plus(last[i], delta)];
      forall k | 0 <= k < 2 * KINDS ensures View(k) == PushUp(old(View(k)), cpus, i) {
        ColumnSet(old(cur), p, cur[p], k);
        ColumnSet(old(last), i, last[i], k);
      }
    }

    /** blkcg_rstat_flush for one group and cpu */
    method RstatFlush(i: nat, c: nat)
      requires Consistent() && i < |par| && c < cpus
      modifies this`cpuLast, this`last, this`cur
      ensures Consistent()
      ensures forall k :: 0 <= k < 2 * KINDS ==> View(k) == Flush(old(View(k)), cpus, i, c)
    {
      FlushOne(i, c);
      if i > 0 {
        PushOne(i);
      }
      forall k | 0 <= k < 2 * KINDS ensures Inv(View(k), cpus) {
        FlushInv(old(View(k)), cpus, i, c);
      }
    }

    /** cgroup_rstat_flush of a group without accounting in between: its total becomes
        the sum over its subtree of what was counted on all cpus. */
    method FlushSubtree(r: nat, order: seq<nat>)
      requires Consistent() && 0 < r < |par| && BottomUp(par, r, order) && cpus > 0
      modifies this`cpuLast, this`last, this`cur
      ensures Consistent()
      ensures forall k :: 0 <= k < 2 * KINDS ==>
        Counted(View(k), cpus) == old(Counted(View(k), cpus)) &&
        View(k).cur[r] == Subtree(par, Counted(View(k), cpus), r, |par|)
    {
      var c := 0;
      while c < cpus
        invariant c <= cpus && Consistent()
        invariant forall k :: 0 <= k < 2 * KINDS ==> CpusFlushed(View(k), cpus, r, c) && (c > 0 ==> Pushed(View(k), r))
      {
        var j := 0;
        while j < |order|
          invariant j <= |order| && Consistent()
          invariant forall k :: 0 <= k < 2 * KINDS ==> During(View(k), cpus, r, order, c, j)
        {
          forall k | 0 <= k < 2 * KINDS ensures During(Flush(View(k), cpus, order[j], c), cpus, r, order, c, j + 1) {
            DuringStep(View(k), cpus, r, order, c, j);
          }
          RstatFlush(order[j], c);
          j := j + 1;
        }
        forall k | 0 <= k < 2 * KINDS ensures CpusFlushed(View(k), cpus, r, c + 1) && Pushed(View(k), r) {
          PassDone(View(k), cpus, r, order, c);
        }
        c := c + 1;
      }
      forall k | 0 <= k < 2 * KINDS ensures View(k).cur[r] == Subtree(par, Counted(View(k), cpus), r, |par|) {
        AllPassesDone(View(k), cpus, r);
        SettledIsExact(View(k), cpus, r);
      }
    }
  }
}
