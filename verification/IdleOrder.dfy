/** The order of the idle trees of block/bfq-wf2q.c.  Unlike the sums and places of
    ServiceAccounting it needs the finish times that an insertion compares to lie within
    half the timestamp range, where the wrapping comparison is an order. */
module IdleOrder {
  import opened Options
  import opened ServiceAccounting
  import opened ServiceTree

  ghost predicate Ascending(fs: seq<nat>) {
    forall a, b :: 0 <= a < b < |fs| ==> !Gt(fs[a], fs[b])
  }

  /** In an ascending sequence the entries from the rank on all finish later. */
  lemma RankSplits(base: nat, fs: seq<nat>, f: nat)
    requires Ascending(fs) && InWindow(base, f) && forall j :: 0 <= j < |fs| ==> InWindow(base, fs[j])
    ensures forall j :: Rank(fs, f) <= j < |fs| ==> Gt(fs[j], f)
  {
    var k := Rank(fs, f);
    forall j | k <= j < |fs| ensures Gt(fs[j], f) {
      GtIsOrder(base, fs[k], fs[j]);
      GtIsOrder(base, fs[k], f);
      GtIsOrder(base, fs[j], f);
    }
  }

  lemma AscendingInsert(base: nat, fs: seq<nat>, f: nat)
    requires Ascending(fs) && InWindow(base, f) && forall j :: 0 <= j < |fs| ==> InWindow(base, fs[j])
    ensures var k := Rank(fs, f); Ascending(fs[..k] + [f] + fs[k..])
  {
    var k := Rank(fs, f);
    RankSplits(base, fs, f);
    forall j | k <= j < |fs| ensures !Gt(f, fs[j]) {
      GtIsOrder(base, f, fs[j]);
      GtIsOrder(base, fs[j], f);
    }
  }

  ghost predicate OrderedIn(s: Sched, c: nat)
    requires Wf(s) && c < CLASSES
  {
    TreeWf(s, c) && Ascending(Finishes(s.ents, s.trees[c].idle))
  }

  /** Every idle tree is in order of finish time. */
  ghost predicate Ordered(s: Sched)
    requires Wf(s)
  {
    forall c :: 0 <= c < CLASSES ==> OrderedIn(s, c)
  }

  /** first_idle is the idle entity with the smallest finish time. */
  lemma FirstIdleIsSmallest(s: Sched, c: nat, i: nat)
    requires Inv(s) && Ordered(s) && c < CLASSES && i in s.trees[c].idle
    ensures s.trees[c].first.Some? && s.trees[c].first.value < |s.ents| && i < |s.ents|
    ensures s.trees[c].first.value == i || !Gt(s.ents[s.trees[c].first.value].finish, s.ents[i].finish)
  {
    assert OrderedIn(s, c) && TreeWf(s, c) && HeadOk(s.trees[c]);
  }

  // ------------------------------------------------------------- entities that leave

  lemma AscendingRemoved(ents: seq<Ent>, l: seq<nat>, k: nat)
    requires k < |l| && (forall j :: 0 <= j < |l| ==> l[j] < |ents|) && Ascending(Finishes(ents, l))
    ensures var r := l[..k] + l[k + 1..];
            (forall j :: 0 <= j < |r| ==> r[j] < |ents|) && Ascending(Finishes(ents, r))
  {
    var r, fs := l[..k] + l[k + 1..], Finishes(ents, l);
    assert forall j :: 0 <= j < |r| ==> r[j] == l[if j < k then j else j + 1];
    forall a, b | 0 <= a < b < |r| ensures !Gt(Finishes(ents, r)[a], Finishes(ents, r)[b]) {
      assert !Gt(fs[if a < k then a else a + 1], fs[if b < k then b else b + 1]);
    }
  }

  /** The idle tree is the same, or the same without entity `i`, and its finish times
      are. */
  ghost predicate ThinsIn(s: Sched, r: Sched, i: nat, c: nat)
    requires Wf(s) && Wf(r) && |r.ents| == |s.ents| && c < CLASSES
  {
    var l, l' := s.trees[c].idle, r.trees[c].idle;
    && (l' == l || l' == Remove(l, i)) && TreeWf(r, c)
    && forall k :: 0 <= k < |l'| ==> r.ents[l'[k]].finish == s.ents[l'[k]].finish
  }

  ghost predicate Thins(s: Sched, r: Sched, i: nat)
    requires Wf(s) && Wf(r) && |r.ents| == |s.ents|
  {
    forall c :: 0 <= c < CLASSES ==> ThinsIn(s, r, i, c)
  }

  lemma ThinsOrdered(s: Sched, r: Sched, i: nat)
    requires Wf(s) && Wf(r) && |r.ents| == |s.ents| && Ordered(s) && Thins(s, r, i)
    ensures Ordered(r)
  {
    forall c | 0 <= c < CLASSES ensures OrderedIn(r, c) {
      assert OrderedIn(s, c) && ThinsIn(s, r, i, c);
      var l, l' := s.trees[c].idle, r.trees[c].idle;
      if l' != l {
        if i in l {
          var k := RemoveIs(l, i);
          AscendingRemoved(s.ents, l, k);
        } else {
          RemoveNone(l, i);
        }
      }
      assert Finishes(r.ents, l') == Finishes(s.ents, l');
    }
  }

  /** Only entity `i` has changed, and it is on no idle tree afterwards. */
  lemma LeavesOrdered(s: Sched, r: Sched, i: nat)
    requires Wf(s) && Inv(r) && Ordered(s) && i < |s.ents| == |r.ents| && r.ents == s.ents[i := r.ents[i]]
    requires r.ents[i].place != OnIdle
    requires forall c :: 0 <= c < CLASSES ==>
               r.trees[c].idle == s.trees[c].idle || r.trees[c].idle == Remove(s.trees[c].idle, i)
    ensures Ordered(r)
  {
    forall c | 0 <= c < CLASSES ensures ThinsIn(s, r, i, c) {
      assert PlaceOk(r, i) && TreeWf(r, c);
    }
    ThinsOrdered(s, r, i);
  }

  /** Only entity `i` has changed, and the idle trees have at most lost it. */
  ghost predicate Drops(s: Sched, r: Sched, i: nat)
    requires |s.trees| == |r.trees| == CLASSES && i < |s.ents|
  {
    && |r.ents| == |s.ents| && r.ents == s.ents[i := r.ents[i]]
    && forall c :: 0 <= c < CLASSES ==>
         r.trees[c].idle == s.trees[c].idle || r.trees[c].idle == Remove(s.trees[c].idle, i)
  }

  lemma EnqueueDrops(s: Sched, i: nat, backshifted: bool)
    requires Wf(s) && i < |s.ents|
    ensures var r := Enqueue(s, i, backshifted);
            && |r.ents| == |s.ents| && r.ents == s.ents[i := r.ents[i]] && |r.trees| == CLASSES
            && forall c :: 0 <= c < CLASSES ==> r.trees[c].idle == s.trees[c].idle
  {
    assert EntOk(UpdateWeightPrio(s, i, true).ents[i]);
  }

  lemma ActivatingDrops(s: Sched, i: nat, nonBlocking: bool)
    requires Wf(s) && i < |s.ents|
    ensures Drops(s, Activating(s, i, nonBlocking), i)
  {
    assert EntOk(s.ents[i]);
  }

  lemma ActivateOrdered(s: Sched, i: nat, nonBlocking: bool)
    requires Inv(s) && Ordered(s) && i < |s.ents| && s.ents[i].place != OnActive && s.inService != Some(i)
    ensures Inv(Activate(s, i, nonBlocking)) && Ordered(Activate(s, i, nonBlocking))
  {
    ActivateOk(s, i, nonBlocking);
    ActivatingDrops(s, i, nonBlocking);
    EnqueueDrops(Activating(s, i, nonBlocking), i, Backshifted(s, i, nonBlocking));
    LeavesOrdered(s, Activate(s, i, nonBlocking), i);
  }

  lemma RequeueingDrops(s: Sched, i: nat)
    requires Wf(s) && i < |s.ents|
    ensures Drops(s, Requeueing(s, i), i)
  {
    assert EntOk(s.ents[i]);
  }

  lemma RequeueOrdered(s: Sched, i: nat)
    requires Inv(s) && Ordered(s) && i < |s.ents| && (s.inService == Some(i) || s.ents[i].place == OnActive)
    ensures Inv(Requeue(s, i)) && Ordered(Requeue(s, i))
  {
    RequeueOk(s, i);
    RequeueingDrops(s, i);
    EnqueueDrops(Requeueing(s, i), i, false);
    LeavesOrdered(s, Requeue(s, i), i);
  }

  lemma PutIdleOrdered(s: Sched, i: nat)
    requires Inv(s) && Ordered(s) && i < |s.ents| && s.ents[i].place == OnIdle
    ensures Inv(PutIdle(s, i)) && Ordered(PutIdle(s, i))
  {
    PutIdleOk(s, i);
    assert EntOk(s.ents[i]);
    LeavesOrdered(s, PutIdle(s, i), i);
  }

  // ------------------------------------------------------------- entities that stay

  /** Lists and finish times are the same. */
  lemma SameOrder(s: Sched, r: Sched)
    requires Wf(s) && Wf(r) && Ordered(s) && |r.ents| == |s.ents|
    requires forall i :: 0 <= i < |s.ents| ==> r.ents[i].finish == s.ents[i].finish
    requires forall c :: 0 <= c < CLASSES ==> r.trees[c].idle == s.trees[c].idle
    ensures Ordered(r)
  {
    forall c | 0 <= c < CLASSES ensures ThinsIn(s, r, 0, c) {
      assert TreeWf(r, c);
    }
    ThinsOrdered(s, r, 0);
  }

  lemma ServedOrdered(s: Sched, i: nat, n: nat)
    requires Inv(s) && Ordered(s) && i < |s.ents| && s.ents[i].on && s.trees[s.ents[i].cls].wsum > 0
    ensures Inv(Served(s, i, n)) && Ordered(Served(s, i, n))
  {
    ServedOk(s, i, n);
    ServingInv(s, i, n);
    var r, c := Serving(s, i, n), s.ents[i].cls;
    SameOrder(s, r);
    ForgetIdleOrdered(r, c);
  }

  lemma ForgetIdleOrdered(s: Sched, c: nat)
    requires Inv(s) && Ordered(s) && c < CLASSES
    ensures Inv(ForgetIdle(s, c)) && Ordered(ForgetIdle(s, c))
  {
    ForgetIdleOk(s, c);
    var s1 := SetVtime(s, c, SettledVtime(s, c));
    SetVtimeOk(s, c, SettledVtime(s, c));
    SameOrder(s, s1);
    var first := s.trees[c].first;
    assert TreeWf(s1, c);
    if first.Some? && !Gt(s1.ents[first.value].finish, s1.trees[c].vtime) {
      IdleIsIdle(s1, c, first.value);
      PutIdleOrdered(s1, first.value);
    }
  }

  lemma ServeOrdered(s: Sched, i: nat, extract: bool)
    requires Inv(s) && Ordered(s) && i < |s.ents| && s.inService == None && s.ents[i].place == OnActive
    ensures Inv(Serve(s, i, extract)) && Ordered(Serve(s, i, extract))
  {
    ServeOk(s, i, extract);
    SameOrder(s, Serve(s, i, extract));
  }

  lemma UpdateOrdered(s: Sched, i: nat)
    requires Inv(s) && Ordered(s) && i < |s.ents| && s.ents[i].on
    ensures Inv(UpdateWeightPrio(s, i, false)) && Ordered(UpdateWeightPrio(s, i, false))
  {
    UpdateInPlace(s, i);
    SameOrder(s, UpdateWeightPrio(s, i, false));
  }

  // ------------------------------------------------------------- entities that join

  /** The finish times an insertion of entity `i` with finish time `f` compares, those
      of the other entities in the idle tree of its class, lie within half the
      timestamp range. */
  ghost predicate IdleWindow(base: nat, s: Sched, i: nat, f: nat)
    requires Wf(s) && i < |s.ents|
  {
    var l := s.trees[s.ents[i].cls].idle;
    && InWindow(base, f) && TreeWf(s, s.ents[i].cls)
    && forall k :: 0 <= k < |l| && l[k] != i ==> InWindow(base, s.ents[l[k]].finish)
  }

  /** Outside such a window the order can break: three finish times spread over more
      than half the range have no order to be inserted in. */
  lemma WindowNeeded()
    ensures var fs, f := [0, HALF - 1], U64 - 2;
            Ascending(fs) && Rank(fs, f) == 0 && !Ascending([f] + fs)
  {
    var fs, f := [0, HALF - 1], U64 - 2;
    var gs := [f] + fs;
    assert gs[0] == f && gs[2] == HALF - 1;
    assert Gt(gs[0], gs[2]);
  }

  lemma FinishesInserted(ents: seq<Ent>, l: seq<nat>, i: nat, k: nat)
    requires i < |ents| && k <= |l| && forall j :: 0 <= j < |l| ==> l[j] < |ents|
    ensures var l', fs := l[..k] + [i] + l[k..], Finishes(ents, l);
            && (forall j :: 0 <= j < |l'| ==> l'[j] < |ents|)
            && Finishes(ents, l') == fs[..k] + [ents[i].finish] + fs[k..]
  {
    var l', fs := l[..k] + [i] + l[k..], Finishes(ents, l);
    var fs' := fs[..k] + [ents[i].finish] + fs[k..];
    forall j | 0 <= j < |l'| ensures l'[j] < |ents| && ents[l'[j]].finish == fs'[j] {
      assert l'[j] == if j < k then l[j] else if j == k then i else l[j - 1];
    }
  }

  /** Insertion keeps the idle tree in order of finish time. */
  lemma IdleInsertOrdered(base: nat, s: Sched, i: nat)
    requires Detached(s, i) && Ordered(s) && s.ents[i].on && s.inService != Some(i)
    requires IdleWindow(base, s, i, s.ents[i].finish)
    ensures Inv(IdleInsert(s, i)) && Ordered(IdleInsert(s, i))
  {
    IdleInsertOk(s, i);
    var r, c := IdleInsert(s, i), s.ents[i].cls;
    var l := s.trees[c].idle;
    assert OrderedIn(s, c) && EntOk(s.ents[i]) && i !in l;
    var fs := Finishes(s.ents, l);
    AscendingInsert(base, fs, s.ents[i].finish);
    FinishesInserted(s.ents, l, i, Rank(fs, s.ents[i].finish));
    forall d | 0 <= d < CLASSES ensures OrderedIn(r, d) {
      assert OrderedIn(s, d) && TreeWf(r, d);
      assert Finishes(r.ents, r.trees[d].idle) == Finishes(s.ents, r.trees[d].idle);
    }
  }

  lemma WithdrawDrops(s: Sched, i: nat)
    requires Wf(s) && i < |s.ents|
    ensures Drops(s, Withdraw(s, i), i)
  {
    assert EntOk(s.ents[i]);
  }

  lemma WithdrawOrdered(s: Sched, i: nat)
    requires Inv(s) && Ordered(s) && i < |s.ents| && s.ents[i].on
    ensures Ordered(Withdraw(s, i))
  {
    var r := Withdraw(s, i);
    WithdrawOk(s, i);
    WithdrawDrops(s, i);
    forall c | 0 <= c < CLASSES ensures ThinsIn(s, r, i, c) {
      assert TreeWf(r, c) && i !in r.trees[c].idle;
    }
    ThinsOrdered(s, r, i);
  }

  lemma WithdrawWindow(base: nat, s: Sched, i: nat)
    requires Inv(s) && i < |s.ents| && s.ents[i].on && s.ents[i].weight > 0
    requires IdleWindow(base, s, i, CalcFinish(s.ents[i], s.ents[i].service).finish)
    ensures IdleWindow(base, Withdraw(s, i), i, Withdraw(s, i).ents[i].finish)
  {
    var r, c := Withdraw(s, i), s.ents[i].cls;
    WithdrawDrops(s, i);
    assert TreeWf(s, c) && TreeWf(r, c) && r.ents[i].cls == c;
    var l := r.trees[c].idle;
    forall k | 0 <= k < |l| && l[k] != i ensures InWindow(base, r.ents[l[k]].finish) {
      assert l[k] in s.trees[c].idle;
      var j :| 0 <= j < |s.trees[c].idle| && s.trees[c].idle[j] == l[k];
    }
  }

  lemma DeactivateOrdered(base: nat, s: Sched, i: nat, toIdle: bool)
    requires Inv(s) && Ordered(s) && i < |s.ents| && s.ents[i].weight > 0
    requires toIdle ==> IdleWindow(base, s, i, CalcFinish(s.ents[i], s.ents[i].service).finish)
    ensures Inv(Deactivate(s, i, toIdle)) && Ordered(Deactivate(s, i, toIdle))
  {
    DeactivateOk(s, i, toIdle);
    if s.ents[i].on {
      WithdrawOk(s, i);
      WithdrawOrdered(s, i);
      var r := Withdraw(s, i);
      if !toIdle || !Gt(r.ents[i].finish, r.trees[r.ents[i].cls].vtime) {
        SameOrder(r, Forget(r, i));
      } else {
        WithdrawWindow(base, s, i);
        IdleInsertOrdered(base, r, i);
      }
    }
  }

  // ------------------------------------------------------------- runs

  /** The finish times compared when an entity goes to the idle tree lie within half the
      timestamp range. */
  ghost predicate Comparable(s: Sched, ev: Event)
    requires Wf(s) && Enabled(s, ev)
  {
    ev.DoDeactivate? && ev.toIdle ==>
      assert EntOk(s.ents[ev.i]);
      exists base: nat :: IdleWindow(base, s, ev.i, CalcFinish(s.ents[ev.i], s.ents[ev.i].service).finish)
  }

  /** Every operation keeps the order of the idle trees; only a deactivation into one of
      them needs its finish times to be comparable. */
  lemma NextOrdered(s: Sched, ev: Event)
    requires Inv(s) && Ordered(s) && Enabled(s, ev) && Comparable(s, ev)
    ensures Inv(Next(s, ev)) && Ordered(Next(s, ev))
  {
    NextInv(s, ev);
    match ev
    case DoActivate(i, nonBlocking) => ActivateOrdered(s, i, nonBlocking);
    case DoRequeue(i) => RequeueOrdered(s, i);
    case DoDeactivate(i, toIdle) =>
      assert EntOk(s.ents[i]);
      var base: nat :| toIdle ==> IdleWindow(base, s, i, CalcFinish(s.ents[i], s.ents[i].service).finish);
      DeactivateOrdered(base, s, i, toIdle);
    case DoServe(i, extract) => ServeOrdered(s, i, extract);
    case DoServed(i, n) => NoDivisionByZero(s, i); ServedOrdered(s, i, n);
    case DoReset => SameOrder(s, OutOfService(s));
    case DoPutIdle(i) => PutIdleOrdered(s, i);
    case DoUpdateWeight(i) => UpdateOrdered(s, i);
    case DoReprioritize(i, weight, cls, coeff) => SameOrder(s, Reprioritize(s, i, weight, cls, coeff));
  }

  /** Every step of a run up to `k` is comparable. */
  ghost predicate ComparableTo(run: seq<Sched>, evs: seq<Event>, k: nat)
    requires k <= |evs| && |run| == |evs| + 1
  {
    forall j :: 0 <= j < k ==> Inv(run[j]) && Enabled(run[j], evs[j]) ==> Comparable(run[j], evs[j])
  }

  /** In every state of a run whose insertions so far were comparable, first_idle is the
      idle entity that finishes first. */
  lemma {:induction false} RunOrdered(run: seq<Sched>, evs: seq<Event>, k: nat)
    requires IsRun(run, evs) && k <= |evs| && ComparableTo(run, evs, k)
    ensures Inv(run[k]) && Ordered(run[k])
    decreases k
  {
    RunInv(run, evs, k);
    if k == 0 {
      assert forall c :: 0 <= c < CLASSES ==> run[0].trees[c].idle == [];
    } else {
      RunOrdered(run, evs, k - 1);
      assert StepOk(run[k - 1], evs[k - 1], run[k]);
      NextOrdered(run[k - 1], evs[k - 1]);
    }
  }
}
