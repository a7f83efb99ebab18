/** Weight sums and idle trees of one scheduling level of block/bfq-wf2q.c: the
    service trees of the priority classes and the entities they serve. */
module ServiceAccounting {
  import opened Arith
  import opened Options
  import opened ServiceTree

  const CLASSES: nat := 3         // BFQ_IOPRIO_CLASSES
  const MIN_WEIGHT: nat := 1      // BFQ_MIN_WEIGHT
  const MAX_WEIGHT: nat := 1000   // BFQ_MAX_WEIGHT
  const SERVICE_SCALE: nat := 0x40_0000   // 1 << WFQ_SERVICE_SHIFT

  datatype Place = Nowhere | OnActive | OnIdle

  /** struct bfq_entity, with the class fields of the queue it belongs to. */
  datatype Ent = Ent(
    isQueue: bool, weight: nat, origWeight: nat, newWeight: nat, wrCoeff: nat, prioChanged: bool,
    cls: nat, newCls: nat, start: nat, finish: nat, budget: nat, service: nat,
    on: bool,        // on_st_or_in_serv
    place: Place)    // tree

  /** struct bfq_service_tree; the idle tree as its in-order list of entities. */
  datatype Tree3 = Tree3(wsum: int, vtime: nat, active: set<nat>, idle: seq<nat>, first: Option<nat>, last: Option<nat>)

  datatype Sched = Sched(ents: seq<Ent>, trees: seq<Tree3>, inService: Option<nat>)

  // ------------------------------------------------------------- weight sums

  function Counted(e: Ent, c: nat): int {
    if e.on && e.cls == c then e.weight else 0
  }

  /** The weights of the flagged entities of class `c`. */
  function WeightOf(ents: seq<Ent>, c: nat, k: nat): int
    requires k <= |ents|
  {
    if k == 0 then 0 else WeightOf(ents, c, k - 1) + Counted(ents[k - 1], c)
  }

  lemma WeightUpdate(ents: seq<Ent>, i: nat, e: Ent, c: nat, k: nat)
    requires k <= |ents| && i < |ents|
    ensures WeightOf(ents[i := e], c, k) ==
            WeightOf(ents, c, k) + if i < k then Counted(e, c) - Counted(ents[i], c) else 0
  {
    if k > 0 {
      WeightUpdate(ents, i, e, c, k - 1);
    }
  }

  lemma WeightBound(ents: seq<Ent>, i: nat, c: nat, k: nat)
    requires k <= |ents| && i < |ents|
    ensures WeightOf(ents, c, k) >= 0
    ensures i < k ==> WeightOf(ents, c, k) >= Counted(ents[i], c)
  {
    if k > 0 {
      WeightBound(ents, i, c, k - 1);
    }
  }

  // ------------------------------------------------------------- lists

  function Remove(l: seq<nat>, i: nat): (r: seq<nat>)
    ensures forall x :: x in r <==> x in l && x != i
    ensures forall k :: 0 <= k < |r| ==> r[k] in l
  {
    if l == [] then [] else if l[0] == i then Remove(l[1..], i) else [l[0]] + Remove(l[1..], i)
  }

  predicate Unique(l: seq<nat>) {
    forall i, j :: 0 <= i < j < |l| ==> l[i] != l[j]
  }

  /** rb_next and rb_prev of an idle entity. */
  function NextOf(l: seq<nat>, i: nat): Option<nat> {
    if |l| < 2 then None else if l[0] == i then Some(l[1]) else NextOf(l[1..], i)
  }

  function PrevOf(l: seq<nat>, i: nat): Option<nat> {
    if |l| < 2 then None else if l[1] == i then Some(l[0]) else PrevOf(l[1..], i)
  }

  function Finishes(ents: seq<Ent>, l: seq<nat>): (f: seq<nat>)
    requires forall k :: 0 <= k < |l| ==> l[k] < |ents|
    ensures |f| == |l| && forall k :: 0 <= k < |l| ==> f[k] == ents[l[k]].finish
  {
    seq(|l|, k requires 0 <= k < |l| => ents[l[k]].finish)
  }

  /** How many leading entries do not finish after `f`. */
  function Rank(fs: seq<nat>, f: nat): (k: nat)
    ensures k <= |fs|
    ensures forall j :: 0 <= j < k ==> !Gt(fs[j], f)
    ensures k < |fs| ==> Gt(fs[k], f)
  {
    if fs == [] || Gt(fs[0], f) then 0 else 1 + Rank(fs[1..], f)
  }

  /** bfq_insert into the idle tree: after every entity that does not finish later. */
  function InsertByFinish(ents: seq<Ent>, l: seq<nat>, i: nat): seq<nat>
    requires i < |ents| && forall k :: 0 <= k < |l| ==> l[k] < |ents|
  {
    var k := Rank(Finishes(ents, l), ents[i].finish);
    l[..k] + [i] + l[k..]
  }

  // ------------------------------------------------------------- states

  predicate EntOk(e: Ent) {
    && e.weight >= 1 && e.origWeight >= 1 && e.wrCoeff >= 1 && e.cls < CLASSES && e.newCls < CLASSES
    && (!e.isQueue ==> e.newCls == e.cls)
  }

  predicate Wf(s: Sched) {
    && |s.trees| == CLASSES
    && (forall i :: 0 <= i < |s.ents| ==> EntOk(s.ents[i]))
    && (s.inService.Some? ==> s.inService.value < |s.ents|)
    && (forall c :: 0 <= c < CLASSES ==> TreeWf(s, c))
  }

  predicate TreeWf(s: Sched, c: nat)
    requires c < |s.trees|
  {
    ListsOk(s.trees[c], |s.ents|)
  }

  /** The idle tree holds entities, each once, and the two that are remembered. */
  predicate ListsOk(t: Tree3, n: nat) {
    && Unique(t.idle) && (forall k :: 0 <= k < |t.idle| ==> t.idle[k] < n)
    && (t.first.Some? ==> t.first.value in t.idle) && (t.last.Some? ==> t.last.value in t.idle)
  }

  /** Each class's wsum is the sum of the weights of its flagged entities. */
  ghost predicate SumsOk(s: Sched)
    requires |s.trees| == CLASSES
  {
    forall c :: 0 <= c < CLASSES ==> s.trees[c].wsum == WeightOf(s.ents, c, |s.ents|)
  }

  ghost predicate PlaceOk(s: Sched, i: nat)
    requires Wf(s) && i < |s.ents|
  {
    var e := s.ents[i];
    && (e.place == OnActive <==> i in s.trees[e.cls].active)
    && (e.place == OnIdle <==> i in s.trees[e.cls].idle)
    && (forall c :: 0 <= c < CLASSES && c != e.cls ==> i !in s.trees[c].active && i !in s.trees[c].idle)
    && (e.on <==> e.place != Nowhere || s.inService == Some(i))
    && (s.inService == Some(i) ==> e.place != OnIdle)
  }

  /** first_idle is the leftmost entity of the idle tree. */
  predicate HeadOk(t: Tree3) {
    t.first == if t.idle == [] then None else Some(t.idle[0])
  }

  ghost predicate HeadsOk(s: Sched)
    requires |s.trees| == CLASSES
  {
    forall c :: 0 <= c < CLASSES ==> HeadOk(s.trees[c])
  }

  /** What every operation keeps, whatever the timestamps: the weight sums, the place of
      every entity, and first_idle. */
  ghost predicate Inv(s: Sched) {
    && Wf(s) && SumsOk(s) && HeadsOk(s)
    && (forall i :: 0 <= i < |s.ents| ==> PlaceOk(s, i))
  }

  /** Charging service divides by a class's weight sum; it is positive whenever an
      entity of that class is flagged. */
  lemma NoDivisionByZero(s: Sched, i: nat)
    requires Wf(s) && SumsOk(s) && i < |s.ents| && s.ents[i].on
    ensures s.trees[s.ents[i].cls].wsum >= s.ents[i].weight > 0
  {
    assert EntOk(s.ents[i]);
    WeightBound(s.ents, i, s.ents[i].cls, |s.ents|);
  }

  // ------------------------------------------------------------- building blocks

  function SetEnt(s: Sched, i: nat, e: Ent): Sched
    requires i < |s.ents|
  {
    s.(ents := s.ents[i := e])
  }

  predicate SameLists(t: Tree3, u: Tree3) {
    u.idle == t.idle && u.first == t.first && u.last == t.last
  }

  lemma WfKept(s: Sched, r: Sched)
    requires Wf(s) && |r.trees| == CLASSES && |r.ents| == |s.ents|
    requires r.inService.Some? ==> r.inService.value < |r.ents|
    requires forall i :: 0 <= i < |r.ents| ==> EntOk(r.ents[i])
    requires forall c :: 0 <= c < CLASSES ==> SameLists(s.trees[c], r.trees[c])
    ensures Wf(r)
  {
    forall c | 0 <= c < CLASSES ensures TreeWf(r, c) {
      assert TreeWf(s, c) && SameLists(s.trees[c], r.trees[c]);
    }
  }

  /** A change that keeps an entity well formed. */
  function Retime(s: Sched, i: nat, e: Ent): (r: Sched)
    requires Wf(s) && i < |s.ents| && EntOk(e)
    ensures Wf(r)
  {
    var r := SetEnt(s, i, e);
    WfKept(s, r);
    r
  }

  function SetTree(s: Sched, c: nat, t: Tree3): Sched
    requires c < |s.trees|
  {
    s.(trees := s.trees[c := t])
  }

  /** Add to a class's weight sum. */
  function Reweigh(s: Sched, c: nat, w: int): (r: Sched)
    requires Wf(s) && c < CLASSES
    ensures Wf(r)
  {
    var r := SetTree(s, c, s.trees[c].(wsum := s.trees[c].wsum + w));
    WfKept(s, r);
    r
  }

  /** A tree without idle entity `i`. */
  function IdleWithout(t: Tree3, i: nat): Tree3 {
    t.(idle := Remove(t.idle, i),
       first := if t.first == Some(i) then NextOf(t.idle, i) else t.first,
       last := if t.last == Some(i) then PrevOf(t.idle, i) else t.last)
  }

  lemma IdleWithoutWf(s: Sched, r: Sched, c: nat, i: nat)
    requires c < |s.trees| && c < |r.trees| && TreeWf(s, c) && |r.ents| == |s.ents|
    requires r.trees[c] == IdleWithout(s.trees[c], i)
    ensures TreeWf(r, c)
  {
    var l := s.trees[c].idle;
    RemoveKeeps(l, i);
    forall k | 0 <= k < |r.trees[c].idle| ensures r.trees[c].idle[k] < |r.ents| {
      var j :| 0 <= j < |l| && l[j] == r.trees[c].idle[k];
    }
  }

  /** bfq_idle_extract */
  function IdleExtract(s: Sched, i: nat): (r: Sched)
    requires Wf(s) && i < |s.ents|
    ensures Wf(r) && |r.ents| == |s.ents|
  {
    var e := s.ents[i];
    assert EntOk(e);
    var r := SetEnt(SetTree(s, e.cls, IdleWithout(s.trees[e.cls], i)), i, e.(place := Nowhere));
    assert forall c :: 0 <= c < CLASSES ==> TreeWf(r, c) by {
      forall c | 0 <= c < CLASSES ensures TreeWf(r, c) {
        assert TreeWf(s, c);
        if c == e.cls {
          IdleWithoutWf(s, r, c, i);
        }
      }
    }
    r
  }

  /** bfq_idle_insert */
  function IdleInsert(s: Sched, i: nat): Sched
    requires Wf(s) && i < |s.ents|
  {
    var e := s.ents[i];
    var t := s.trees[e.cls];
    assert TreeWf(s, e.cls);
    var t' := t.(idle := InsertByFinish(s.ents, t.idle, i),
                 first := if t.first.None? || Gt(s.ents[t.first.value].finish, e.finish) then Some(i) else t.first,
                 last := if t.last.None? || Gt(e.finish, s.ents[t.last.value].finish) then Some(i) else t.last);
    SetEnt(SetTree(s, e.cls, t'), i, e.(place := OnIdle))
  }

  function ActiveInsert(s: Sched, i: nat): (r: Sched)
    requires Wf(s) && i < |s.ents|
    ensures Wf(r) && |r.ents| == |s.ents|
  {
    var e := s.ents[i];
    assert EntOk(e);
    var t := s.trees[e.cls];
    var r := SetEnt(SetTree(s, e.cls, t.(active := t.active + {i})), i, e.(place := OnActive));
    WfKept(s, r);
    r
  }

  function ActiveExtract(s: Sched, i: nat): (r: Sched)
    requires Wf(s) && i < |s.ents|
    ensures Wf(r) && |r.ents| == |s.ents|
  {
    var e := s.ents[i];
    assert EntOk(e);
    var t := s.trees[e.cls];
    var r := SetEnt(SetTree(s, e.cls, t.(active := t.active - {i})), i, e.(place := Nowhere));
    WfKept(s, r);
    r
  }

  /** bfq_forget_entity */
  function Forget(s: Sched, i: nat): Sched
    requires Wf(s) && i < |s.ents|
  {
    var e := s.ents[i];
    var t := s.trees[e.cls];
    SetEnt(SetTree(s, e.cls, t.(wsum := t.wsum - e.weight)), i, e.(on := false))
  }

  /** Entity `i` is on no tree of any class. */
  ghost predicate OffTrees(s: Sched, i: nat)
    requires Wf(s)
  {
    forall c :: 0 <= c < CLASSES ==> i !in s.trees[c].active && i !in s.trees[c].idle
  }

  /** The invariant, with nothing said about the place of entity `i`. */
  ghost predicate InvBut(s: Sched, i: nat) {
    && Wf(s) && i < |s.ents| && SumsOk(s) && HeadsOk(s)
    && (forall j :: 0 <= j < |s.ents| && j != i ==> PlaceOk(s, j))
  }

  /** The invariant while entity `i` is taken off the trees and being updated. */
  ghost predicate Detached(s: Sched, i: nat) {
    InvBut(s, i) && OffTrees(s, i) && s.ents[i].place == Nowhere
  }

  lemma {:induction false} RemoveIs(l: seq<nat>, i: nat) returns (k: nat)
    requires Unique(l) && i in l
    ensures k < |l| && l[k] == i && Remove(l, i) == l[..k] + l[k + 1..]
    decreases |l|
  {
    var t := l[1..];
    if l[0] == i {
      k := 0;
      RemoveNone(t, i);
    } else {
      var j := RemoveIs(t, i);
      k := j + 1;
      assert Remove(l, i) == [l[0]] + (t[..j] + t[j + 1..]);
      assert [l[0]] + (t[..j] + t[j + 1..]) == ([l[0]] + t[..j]) + t[j + 1..];
      assert [l[0]] + t[..j] == l[..k] && t[j + 1..] == l[k + 1..];
    }
  }

  lemma {:induction false} PrevIs(l: seq<nat>, i: nat)
    requires Unique(l) && i in l
    ensures PrevOf(l, i).Some? ==> PrevOf(l, i).value in l && PrevOf(l, i).value != i
    decreases |l|
  {
    if l[0] == i {
      PrevNone(l, i);
    } else if |l| >= 2 && l[1] != i {
      PrevIs(l[1..], i);
    }
  }

  lemma {:induction false} NextIs(l: seq<nat>, i: nat)
    requires Unique(l)
    ensures NextOf(l, i).Some? ==> NextOf(l, i).value in l && NextOf(l, i).value != i
    decreases |l|
  {
    if |l| >= 2 && l[0] != i {
      NextIs(l[1..], i);
    }
  }

  /** Removing an entity leaves a list without duplicates, in which its neighbours
      are still found. */
  lemma RemoveKeeps(l: seq<nat>, i: nat)
    requires Unique(l)
    ensures Unique(Remove(l, i))
    ensures i in l && NextOf(l, i).Some? ==> NextOf(l, i).value in Remove(l, i)
    ensures i in l && PrevOf(l, i).Some? ==> PrevOf(l, i).value in Remove(l, i)
  {
    if i in l {
      var k := RemoveIs(l, i);
      UniqueRemoved(l, k);
      NextIs(l, i);
      PrevIs(l, i);
    } else {
      RemoveNone(l, i);
    }
  }

  lemma {:induction false} RemoveNone(l: seq<nat>, i: nat)
    requires i !in l
    ensures Remove(l, i) == l
    decreases |l|
  {
    if l != [] {
      RemoveNone(l[1..], i);
    }
  }

  lemma {:induction false} PrevNone(l: seq<nat>, i: nat)
    requires |l| == 0 || i !in l[1..]
    ensures PrevOf(l, i) == None
    decreases |l|
  {
    if |l| >= 2 {
      assert l[1] in l[1..];
      PrevNone(l[1..], i);
    }
  }


  // ------------------------------------------------------------- moving entities

  /** The trees hold the same entities, but perhaps for `i`. */
  ghost predicate SameMembers(t: Tree3, u: Tree3, i: nat) {
    forall j: nat :: j != i ==> (j in u.active <==> j in t.active) && (j in u.idle <==> j in t.idle)
  }

  ghost predicate TreeTouched(s: Sched, r: Sched, i: nat, c: nat)
    requires c < |s.trees| && c < |r.trees| && i < |s.ents| && i < |r.ents|
  {
    && r.trees[c].wsum == s.trees[c].wsum + Counted(r.ents[i], c) - Counted(s.ents[i], c)
    && SameMembers(s.trees[c], r.trees[c], i) && HeadOk(r.trees[c])
  }

  /** Nothing but entity `i`, its membership and its part of the sums has changed. */
  ghost predicate Touches(s: Sched, r: Sched, i: nat)
    requires Wf(s) && Wf(r) && i < |s.ents|
  {
    && |r.ents| == |s.ents| && r.ents == s.ents[i := r.ents[i]]
    && (forall c :: 0 <= c < CLASSES ==> TreeTouched(s, r, i, c))
    && (forall j: nat :: j != i ==> (r.inService == Some(j) <==> s.inService == Some(j)))
  }

  lemma TouchesKeeps(s: Sched, r: Sched, i: nat)
    requires InvBut(s, i) && Wf(r) && Touches(s, r, i)
    ensures InvBut(r, i)
  {
    forall c | 0 <= c < CLASSES ensures r.trees[c].wsum == WeightOf(r.ents, c, |r.ents|) && HeadOk(r.trees[c]) {
      assert TreeTouched(s, r, i, c);
      WeightUpdate(s.ents, i, r.ents[i], c, |s.ents|);
    }
    forall j | 0 <= j < |r.ents| && j != i ensures PlaceOk(r, j) {
      PlaceKept(s, r, i, j);
    }
  }

  lemma PlaceKept(s: Sched, r: Sched, i: nat, j: nat)
    requires Wf(s) && Wf(r) && i < |s.ents| && Touches(s, r, i) && j < |s.ents| && j != i && PlaceOk(s, j)
    ensures PlaceOk(r, j)
  {
    assert EntOk(s.ents[j]) && r.ents[j] == s.ents[j];
    forall c | 0 <= c < CLASSES ensures SameMembers(s.trees[c], r.trees[c], i) {
      assert TreeTouched(s, r, i, c);
    }
  }

  lemma UniqueRemoved(l: seq<nat>, k: nat)
    requires Unique(l) && k < |l|
    ensures var r := l[..k] + l[k + 1..];
            && Unique(r) && (k > 0 ==> r[0] == l[0]) && (k == 0 && |l| > 1 ==> |r| > 0 && r[0] == l[1])
            && (|r| == 0 <==> |l| == 1)
  {
    var r := l[..k] + l[k + 1..];
    forall a, b | 0 <= a < b < |r| ensures r[a] != r[b] {
      assert r[a] == l[if a < k then a else a + 1] && r[b] == l[if b < k then b else b + 1];
    }
  }

  lemma UniqueInserted(l: seq<nat>, k: nat, i: nat)
    requires Unique(l) && k <= |l| && i !in l
    ensures var r := l[..k] + [i] + l[k..];
            && Unique(r) && |r| > 0 && r[0] == (if k == 0 then i else l[0])
            && (forall x :: x in r <==> x in l || x == i)
  {
    var r := l[..k] + [i] + l[k..];
    assert forall a :: 0 <= a < |r| ==> r[a] == if a < k then l[a] else if a == k then i else l[a - 1];
    forall x | x in l ensures x in r {
      var a :| 0 <= a < |l| && l[a] == x;
      assert r[if a < k then a else a + 1] == x;
    }
    assert r[k] == i;
  }

  /** Taking an entity out of a list whose head is remembered. */
  lemma HeadWithout(t: Tree3, i: nat)
    requires Unique(t.idle) && HeadOk(t)
    ensures HeadOk(IdleWithout(t, i))
  {
    if i in t.idle {
      var k := RemoveIs(t.idle, i);
      UniqueRemoved(t.idle, k);
    } else {
      RemoveNone(t.idle, i);
    }
  }

  lemma IdleExtractOk(s: Sched, i: nat)
    requires Inv(s) && i < |s.ents| && s.ents[i].place == OnIdle
    ensures Detached(IdleExtract(s, i), i)
  {
    var r, c := IdleExtract(s, i), s.ents[i].cls;
    assert PlaceOk(s, i) && EntOk(s.ents[i]);
    forall d | 0 <= d < CLASSES ensures TreeTouched(s, r, i, d) && i !in r.trees[d].active && i !in r.trees[d].idle {
      assert TreeWf(s, d) && HeadOk(s.trees[d]);
      if d == c {
        HeadWithout(s.trees[d], i);
      }
    }
    TouchesKeeps(s, r, i);
  }

  lemma ActiveExtractOk(s: Sched, i: nat)
    requires Inv(s) && i < |s.ents| && s.ents[i].place == OnActive
    ensures Detached(ActiveExtract(s, i), i)
  {
    var r := ActiveExtract(s, i);
    assert PlaceOk(s, i) && EntOk(s.ents[i]);
    forall d | 0 <= d < CLASSES ensures TreeTouched(s, r, i, d) && i !in r.trees[d].active && i !in r.trees[d].idle {
      assert HeadOk(s.trees[d]);
    }
    TouchesKeeps(s, r, i);
  }

  /** The memberships are the same, and the sums follow entity `i`. */
  ghost predicate TreeKept(s: Sched, r: Sched, i: nat, c: nat)
    requires c < |s.trees| && c < |r.trees| && i < |s.ents| && i < |r.ents|
  {
    && SameLists(s.trees[c], r.trees[c]) && r.trees[c].active == s.trees[c].active
    && r.trees[c].wsum == s.trees[c].wsum + Counted(r.ents[i], c) - Counted(s.ents[i], c)
  }

  ghost predicate Changes(s: Sched, r: Sched, i: nat)
    requires Wf(s) && i < |s.ents|
  {
    && |r.ents| == |s.ents| && |r.trees| == CLASSES && r.inService == s.inService
    && r.ents == s.ents[i := r.ents[i]] && EntOk(r.ents[i])
    && (forall c :: 0 <= c < CLASSES ==> TreeKept(s, r, i, c))
  }

  lemma ChangesKeeps(s: Sched, r: Sched, i: nat)
    requires InvBut(s, i) && Changes(s, r, i)
    ensures InvBut(r, i)
  {
    assert Wf(r) by {
      forall c | 0 <= c < CLASSES ensures SameLists(s.trees[c], r.trees[c]) {
        assert TreeKept(s, r, i, c);
      }
      WfKept(s, r);
    }
    forall c | 0 <= c < CLASSES ensures TreeTouched(s, r, i, c) {
      assert TreeKept(s, r, i, c) && HeadOk(s.trees[c]);
    }
    TouchesKeeps(s, r, i);
  }

  /** An entity that is on no tree can be changed freely, as long as the sums follow. */
  lemma DetachedChange(s: Sched, r: Sched, i: nat)
    requires Detached(s, i) && Changes(s, r, i) && r.ents[i].place == Nowhere
    ensures Detached(r, i)
  {
    ChangesKeeps(s, r, i);
    forall c | 0 <= c < CLASSES ensures i !in r.trees[c].active && i !in r.trees[c].idle {
      assert TreeKept(s, r, i, c);
    }
  }

  /** An entity can be changed where it is, as long as its place and flag stay. */
  lemma ChangedInPlace(s: Sched, r: Sched, i: nat)
    requires Inv(s) && i < |s.ents| && Changes(s, r, i)
    requires r.ents[i].place == s.ents[i].place && r.ents[i].cls == s.ents[i].cls && r.ents[i].on == s.ents[i].on
    ensures Inv(r)
  {
    ChangesKeeps(s, r, i);
    assert PlaceOk(s, i);
    forall c | 0 <= c < CLASSES
      ensures r.trees[c].active == s.trees[c].active && r.trees[c].idle == s.trees[c].idle
    {
      assert TreeKept(s, r, i, c);
    }
    assert EntOk(s.ents[i]) && PlaceOk(r, i);
  }

  lemma ActiveInsertOk(s: Sched, i: nat)
    requires Detached(s, i) && s.ents[i].on
    ensures Inv(ActiveInsert(s, i))
  {
    var r := ActiveInsert(s, i);
    forall d | 0 <= d < CLASSES ensures TreeTouched(s, r, i, d) {
      assert HeadOk(s.trees[d]);
    }
    TouchesKeeps(s, r, i);
    assert EntOk(s.ents[i]) && PlaceOk(r, i);
  }

  lemma ForgetOk(s: Sched, i: nat)
    requires Detached(s, i) && s.ents[i].on && s.inService != Some(i)
    ensures Inv(Forget(s, i))
  {
    var r := Forget(s, i);
    assert EntOk(s.ents[i]);
    DetachedChange(s, r, i);
    assert PlaceOk(r, i);
  }

  /** An idle tree with entity `i` added. */
  lemma IdleWith(s: Sched, i: nat)
    requires Detached(s, i)
    ensures var t, u := s.trees[s.ents[i].cls], IdleInsert(s, i).trees[s.ents[i].cls];
            ListsOk(u, |s.ents|) && HeadOk(u) && forall x :: x in u.idle <==> x in t.idle || x == i
  {
    var c := s.ents[i].cls;
    assert EntOk(s.ents[i]) && TreeWf(s, c) && HeadOk(s.trees[c]);
    var l := s.trees[c].idle;
    UniqueInserted(l, Rank(Finishes(s.ents, l), s.ents[i].finish), i);
    AllBelow(l, IdleInsert(s, i).trees[c].idle, i, |s.ents|);
  }

  lemma AllBelow(l: seq<nat>, l': seq<nat>, i: nat, n: nat)
    requires i < n && (forall k :: 0 <= k < |l| ==> l[k] < n) && forall x :: x in l' ==> x in l || x == i
    ensures forall k :: 0 <= k < |l'| ==> l'[k] < n
  {
    forall k | 0 <= k < |l'| ensures l'[k] < n {
      assert l'[k] in l';
    }
  }

  lemma IdleInsertWf(s: Sched, i: nat)
    requires Detached(s, i)
    ensures Wf(IdleInsert(s, i))
  {
    var r, c := IdleInsert(s, i), s.ents[i].cls;
    IdleWith(s, i);
    assert EntOk(s.ents[i]);
    forall d | 0 <= d < CLASSES ensures TreeWf(r, d) {
      assert TreeWf(s, d);
    }
  }

  lemma IdleInsertOk(s: Sched, i: nat)
    requires Detached(s, i) && s.ents[i].on && s.inService != Some(i)
    ensures Inv(IdleInsert(s, i))
  {
    var r, c := IdleInsert(s, i), s.ents[i].cls;
    IdleInsertWf(s, i);
    IdleWith(s, i);
    forall d | 0 <= d < CLASSES ensures TreeTouched(s, r, i, d) {
      assert HeadOk(s.trees[d]);
    }
    TouchesKeeps(s, r, i);
    assert PlaceOk(r, i);
  }

  // ------------------------------------------------------------- operations

  /** bfq_delta: (service << 22) / weight on 64-bit words. */
  function Delta(service: nat, weight: nat): nat
    requires weight > 0
  {
    DivNonneg(service * SERVICE_SCALE % U64, weight);
    service * SERVICE_SCALE % U64 / weight
  }

  /** bfq_calc_finish */
  function CalcFinish(e: Ent, service: nat): Ent
    requires e.weight > 0
  {
    e.(finish := (e.start + Delta(service, e.weight)) % U64)
  }

  function ClampWeight(w: nat): nat {
    if w < MIN_WEIGHT then MIN_WEIGHT else if w > MAX_WEIGHT then MAX_WEIGHT else w
  }

  /** The weights and the class after a pending change has been applied. */
  function NewPrio(e: Ent, classToo: bool): Ent {
    var changed := e.newWeight != e.origWeight;
    var nw := if changed then ClampWeight(e.newWeight) else e.newWeight;
    var orig := if changed then nw else e.origWeight;
    var cls := if e.isQueue && classToo then e.newCls else e.cls;
    e.(newWeight := nw, origWeight := orig, cls := cls,
       prioChanged := e.isQueue && cls != e.newCls,
       weight := orig * (if e.isQueue then e.wrCoeff else 1))
  }

  /** The entity after a pending weight or class change has been applied. */
  function Repriced(s: Sched, i: nat, classToo: bool): Ent
    requires Wf(s) && i < |s.ents|
  {
    var e := s.ents[i];
    assert EntOk(e);
    var r := NewPrio(e, classToo);
    if r.cls != e.cls then r.(start := s.trees[r.cls].vtime) else r
  }

  /** __bfq_entity_update_weight_prio */
  function UpdateWeightPrio(s: Sched, i: nat, classToo: bool): (r: Sched)
    requires Wf(s) && i < |s.ents|
    ensures Wf(r) && |r.ents| == |s.ents|
  {
    var e := s.ents[i];
    if !e.prioChanged then s
    else
      var e' := Repriced(s, i, classToo);
      RepricedOk(s, i, classToo);
      assert EntOk(e);
      Retime(Reweigh(Reweigh(s, e.cls, 0 - e.weight), e'.cls, e'.weight), i, e')
  }

  lemma RepricedOk(s: Sched, i: nat, classToo: bool)
    requires Wf(s) && i < |s.ents|
    ensures EntOk(Repriced(s, i, classToo))
  {
    var e := s.ents[i];
    assert EntOk(e);
    var orig := Repriced(s, i, classToo).origWeight;
    assert orig * e.wrCoeff >= 1 by { MulLe(orig, 1, e.wrCoeff); }
  }

  lemma UpdateDetached(s: Sched, i: nat, classToo: bool)
    requires Detached(s, i) && s.ents[i].on
    ensures Detached(UpdateWeightPrio(s, i, classToo), i)
    ensures var r := UpdateWeightPrio(s, i, classToo);
            r.ents[i].on && r.inService == s.inService && |r.ents| == |s.ents|
  {
    if s.ents[i].prioChanged {
      RepricedOk(s, i, classToo);
      DetachedChange(s, UpdateWeightPrio(s, i, classToo), i);
    }
  }

  /** Applying a weight change to an entity that may be on a tree keeps its class. */
  lemma UpdateInPlace(s: Sched, i: nat)
    requires Inv(s) && i < |s.ents| && s.ents[i].on
    ensures Inv(UpdateWeightPrio(s, i, false))
  {
    if s.ents[i].prioChanged {
      RepricedOk(s, i, false);
      assert EntOk(s.ents[i]);
      ChangedInPlace(s, UpdateWeightPrio(s, i, false), i);
    }
  }

  /** How far backshifted timestamps are pushed up. */
  function PushBy(e: Ent, vtime: nat): (d: nat)
    requires e.wrCoeff > 0
    ensures d <= (vtime - e.finish) % U64
    ensures !e.isQueue || e.wrCoeff == 1 ==> d == (vtime - e.finish) % U64
  {
    var delta := (vtime - e.finish) % U64;
    DivNonneg(delta, e.wrCoeff);
    QuotientLe(delta, e.wrCoeff);
    if e.isQueue then delta / e.wrCoeff else delta
  }

  lemma QuotientLe(x: nat, d: nat)
    requires d > 0
    ensures x / d <= x
  {
    DivBounds(x, d);
    DivNonneg(x, d);
    MulLe(x / d, 1, d);
  }

  /** The two timestamps of an entity pushed up when they were shifted back. */
  function Pushed(e: Ent, vtime: nat, backshifted: bool): Ent
    requires e.wrCoeff > 0
  {
    if backshifted && Gt(vtime, e.finish) then
      var d := PushBy(e, vtime);
      e.(start := (e.start + d) % U64, finish := (e.finish + d) % U64)
    else e
  }

  /** An entity about to be enqueued, with a pending change applied and its new times. */
  function Priced(s: Sched, i: nat, backshifted: bool): (r: Sched)
    requires Wf(s) && i < |s.ents|
    ensures Wf(r) && |r.ents| == |s.ents|
  {
    var s1 := UpdateWeightPrio(s, i, true);
    assert EntOk(s1.ents[i]);
    Retime(s1, i, Pushed(CalcFinish(s1.ents[i], s1.ents[i].budget), s1.trees[s1.ents[i].cls].vtime, backshifted))
  }

  /** bfq_update_fin_time_enqueue */
  function Enqueue(s: Sched, i: nat, backshifted: bool): Sched
    requires Wf(s) && i < |s.ents|
  {
    ActiveInsert(Priced(s, i, backshifted), i)
  }

  lemma PricedOk(s: Sched, i: nat, backshifted: bool)
    requires Detached(s, i) && s.ents[i].on
    ensures Detached(Priced(s, i, backshifted), i) && Priced(s, i, backshifted).ents[i].on
  {
    UpdateDetached(s, i, true);
    var s1 := UpdateWeightPrio(s, i, true);
    assert EntOk(s1.ents[i]);
    DetachedChange(s1, Priced(s, i, backshifted), i);
  }

  lemma EnqueueOk(s: Sched, i: nat, backshifted: bool)
    requires Detached(s, i) && s.ents[i].on
    ensures Inv(Enqueue(s, i, backshifted))
    ensures Enqueue(s, i, backshifted).ents[i].place == OnActive
  {
    PricedOk(s, i, backshifted);
    ActiveInsertOk(Priced(s, i, backshifted), i);
  }

  /** Whether an activation shifts the start time back to the last finish time. */
  predicate Backshifted(s: Sched, i: nat, nonBlocking: bool)
    requires Wf(s) && i < |s.ents|
  {
    assert EntOk(s.ents[i]);
    nonBlocking && Gt(s.trees[s.ents[i].cls].vtime, s.ents[i].finish)
  }

  /** An entity to be activated, off its idle tree and with its new start time. */
  function Activating(s: Sched, i: nat, nonBlocking: bool): (r: Sched)
    requires Wf(s) && i < |s.ents|
    ensures Wf(r) && |r.ents| == |s.ents|
  {
    var e := s.ents[i];
    assert EntOk(e);
    var minVstart := if Backshifted(s, i, nonBlocking) then e.finish else s.trees[e.cls].vtime;
    if e.place == OnIdle then
      var s1 := IdleExtract(s, i);
      var start := if Gt(minVstart, e.finish) then minVstart else e.finish;
      Retime(s1, i, s1.ents[i].(start := start))
    else
      Retime(Reweigh(s, e.cls, e.weight), i, e.(start := minVstart, on := true))
  }

  /** __bfq_activate_entity: a true activation, of an entity that is idle or on no
      tree. */
  function Activate(s: Sched, i: nat, nonBlocking: bool): Sched
    requires Wf(s) && i < |s.ents|
  {
    Enqueue(Activating(s, i, nonBlocking), i, Backshifted(s, i, nonBlocking))
  }

  lemma ActivatingOk(s: Sched, i: nat, nonBlocking: bool)
    requires Inv(s) && i < |s.ents| && s.ents[i].place != OnActive && s.inService != Some(i)
    ensures Detached(Activating(s, i, nonBlocking), i) && Activating(s, i, nonBlocking).ents[i].on
  {
    var r := Activating(s, i, nonBlocking);
    assert PlaceOk(s, i) && EntOk(s.ents[i]);
    if s.ents[i].place == OnIdle {
      IdleExtractOk(s, i);
      DetachedChange(IdleExtract(s, i), r, i);
    } else {
      assert Detached(s, i);
      DetachedChange(s, r, i);
    }
  }

  lemma ActivateOk(s: Sched, i: nat, nonBlocking: bool)
    requires Inv(s) && i < |s.ents| && s.ents[i].place != OnActive && s.inService != Some(i)
    ensures Inv(Activate(s, i, nonBlocking)) && Activate(s, i, nonBlocking).ents[i].place == OnActive
  {
    ActivatingOk(s, i, nonBlocking);
    EnqueueOk(Activating(s, i, nonBlocking), i, Backshifted(s, i, nonBlocking));
  }

  /** An entity to be requeued, off the active tree and charged if it was in service. */
  function Requeueing(s: Sched, i: nat): (r: Sched)
    requires Wf(s) && i < |s.ents|
    ensures Wf(r) && |r.ents| == |s.ents|
  {
    var e := s.ents[i];
    assert EntOk(e);
    if s.inService == Some(i) then
      var f := CalcFinish(e, e.service);
      var s1 := Retime(s, i, f.(start := f.finish));
      if e.place != Nowhere then ActiveExtract(s1, i) else s1
    else ActiveExtract(s, i)
  }

  /** __bfq_requeue_entity */
  function Requeue(s: Sched, i: nat): Sched
    requires Wf(s) && i < |s.ents|
  {
    Enqueue(Requeueing(s, i), i, false)
  }

  lemma RetimeOk(s: Sched, i: nat, e: Ent)
    requires Inv(s) && i < |s.ents| && EntOk(e)
    requires e.place == s.ents[i].place && e.cls == s.ents[i].cls
    requires e.on == s.ents[i].on && e.weight == s.ents[i].weight
    ensures Inv(Retime(s, i, e))
  {
    ChangedInPlace(s, Retime(s, i, e), i);
  }

  lemma RequeueingOk(s: Sched, i: nat)
    requires Inv(s) && i < |s.ents| && (s.inService == Some(i) || s.ents[i].place == OnActive)
    ensures Detached(Requeueing(s, i), i) && Requeueing(s, i).ents[i].on
  {
    var e := s.ents[i];
    assert PlaceOk(s, i) && EntOk(e);
    if s.inService == Some(i) {
      var f := CalcFinish(e, e.service);
      var s1 := Retime(s, i, f.(start := f.finish));
      RetimeOk(s, i, f.(start := f.finish));
      assert PlaceOk(s1, i);
      if e.place == OnActive {
        ActiveExtractOk(s1, i);
      }
    } else {
      ActiveExtractOk(s, i);
    }
  }

  lemma RequeueOk(s: Sched, i: nat)
    requires Inv(s) && i < |s.ents| && (s.inService == Some(i) || s.ents[i].place == OnActive)
    ensures Inv(Requeue(s, i)) && Requeue(s, i).ents[i].place == OnActive
  {
    RequeueingOk(s, i);
    EnqueueOk(Requeueing(s, i), i, false);
  }

  function OutOfService(s: Sched): (r: Sched)
    requires Wf(s)
    ensures Wf(r)
  {
    var r := s.(inService := None);
    WfKept(s, r);
    r
  }

  /** __bfq_deactivate_entity up to the decision where the entity goes. */
  function Withdraw(s: Sched, i: nat): (r: Sched)
    requires Wf(s) && i < |s.ents|
    ensures Wf(r) && |r.ents| == |s.ents|
  {
    var e := s.ents[i];
    assert EntOk(e);
    var serving := s.inService == Some(i);
    var f := CalcFinish(e, e.service);
    var s1 := Retime(s, i, if serving then f else f.(service := 0));
    var s2 := if e.place == OnActive then ActiveExtract(s1, i)
              else if !serving && e.place == OnIdle then IdleExtract(s1, i)
              else s1;
    if serving then OutOfService(s2) else s2
  }

  /** __bfq_deactivate_entity */
  function Deactivate(s: Sched, i: nat, toIdle: bool): Sched
    requires Wf(s) && i < |s.ents|
  {
    if !s.ents[i].on then s
    else
      var r := Withdraw(s, i);
      if !toIdle || !Gt(r.ents[i].finish, r.trees[r.ents[i].cls].vtime) then Forget(r, i)
      else IdleInsert(r, i)
  }

  lemma WithdrawOk(s: Sched, i: nat)
    requires Inv(s) && i < |s.ents| && s.ents[i].on
    ensures var r := Withdraw(s, i);
            Detached(r, i) && r.ents[i].on && r.inService != Some(i)
  {
    var e := s.ents[i];
    assert PlaceOk(s, i) && EntOk(e);
    var serving := s.inService == Some(i);
    var f := CalcFinish(e, e.service);
    var g := if serving then f else f.(service := 0);
    var s1 := Retime(s, i, g);
    RetimeOk(s, i, g);
    var s2 := if e.place == OnActive then ActiveExtract(s1, i)
              else if !serving && e.place == OnIdle then IdleExtract(s1, i)
              else s1;
    if e.place == OnActive {
      ActiveExtractOk(s1, i);
    } else if e.place == OnIdle {
      IdleExtractOk(s1, i);
    } else {
      assert PlaceOk(s1, i) && Detached(s1, i);
    }
    if serving {
      LeaveService(s2, i);
    }
  }

  lemma LeaveService(s: Sched, i: nat)
    requires Detached(s, i) && s.inService == Some(i)
    ensures Detached(OutOfService(s), i)
  {
    var r := OutOfService(s);
    forall c | 0 <= c < CLASSES ensures TreeTouched(s, r, i, c) {
      assert HeadOk(s.trees[c]);
    }
    TouchesKeeps(s, r, i);
  }

  lemma DeactivateOk(s: Sched, i: nat, toIdle: bool)
    requires Inv(s) && i < |s.ents|
    ensures Inv(Deactivate(s, i, toIdle))
  {
    if s.ents[i].on {
      WithdrawOk(s, i);
      var r := Withdraw(s, i);
      if !toIdle || !Gt(r.ents[i].finish, r.trees[r.ents[i].cls].vtime) {
        ForgetOk(r, i);
      } else {
        IdleInsertOk(r, i);
      }
    }
  }

  /** bfq_put_idle_entity */
  function PutIdle(s: Sched, i: nat): (r: Sched)
    requires Wf(s) && i < |s.ents|
    ensures |r.trees| == CLASSES
  {
    Forget(IdleExtract(s, i), i)
  }

  lemma PutIdleOk(s: Sched, i: nat)
    requires Inv(s) && i < |s.ents| && s.ents[i].place == OnIdle
    ensures Inv(PutIdle(s, i))
  {
    assert PlaceOk(s, i);
    IdleExtractOk(s, i);
    ForgetOk(IdleExtract(s, i), i);
  }

  function SetVtime(s: Sched, c: nat, v: nat): (r: Sched)
    requires Wf(s) && c < CLASSES
    ensures Wf(r)
  {
    var r := SetTree(s, c, s.trees[c].(vtime := v));
    WfKept(s, r);
    r
  }

  /** The virtual time bfq_forget_idle goes on with. */
  function SettledVtime(s: Sched, c: nat): nat
    requires Wf(s) && c < CLASSES
  {
    assert TreeWf(s, c);
    var t := s.trees[c];
    if t.active == {} && t.last.Some? && !Gt(s.ents[t.last.value].finish, t.vtime) then s.ents[t.last.value].finish
    else t.vtime
  }

  /** bfq_forget_idle */
  function ForgetIdle(s: Sched, c: nat): (r: Sched)
    requires Wf(s) && c < CLASSES
    ensures |r.trees| == CLASSES
  {
    var s1 := SetVtime(s, c, SettledVtime(s, c));
    assert TreeWf(s, c) && TreeWf(s1, c);
    var first := s.trees[c].first;
    if first.Some? && !Gt(s1.ents[first.value].finish, s1.trees[c].vtime) then PutIdle(s1, first.value) else s1
  }

  lemma SetVtimeOk(s: Sched, c: nat, v: nat)
    requires Inv(s) && c < CLASSES
    ensures Inv(SetVtime(s, c, v))
  {
    var r := SetVtime(s, c, v);
    assert forall d :: 0 <= d < CLASSES ==> r.trees[d] == s.trees[d].(vtime := r.trees[d].vtime);
    assert SumsOk(r) && HeadsOk(r);
    forall i | 0 <= i < |r.ents| ensures PlaceOk(r, i) {
      assert PlaceOk(s, i) && EntOk(s.ents[i]);
    }
  }

  lemma ForgetIdleOk(s: Sched, c: nat)
    requires Inv(s) && c < CLASSES
    ensures Inv(ForgetIdle(s, c))
  {
    var s1 := SetVtime(s, c, SettledVtime(s, c));
    SetVtimeOk(s, c, SettledVtime(s, c));
    var first := s.trees[c].first;
    assert TreeWf(s1, c);
    if first.Some? && !Gt(s1.ents[first.value].finish, s1.trees[c].vtime) {
      IdleIsIdle(s1, c, first.value);
      PutIdleOk(s1, first.value);
    }
  }

  lemma IdleIsIdle(s: Sched, c: nat, i: nat)
    requires Inv(s) && c < CLASSES && i < |s.ents| && i in s.trees[c].idle
    ensures s.ents[i].place == OnIdle && s.ents[i].cls == c
  {
    assert PlaceOk(s, i) && EntOk(s.ents[i]);
  }

  /** bfq_bfqq_served at this level: the service given is divided among the weights
      of the class. */
  function Served(s: Sched, i: nat, n: nat): (r: Sched)
    requires Wf(s) && i < |s.ents| && s.trees[s.ents[i].cls].wsum > 0
    ensures |r.trees| == CLASSES
  {
    ForgetIdle(Serving(s, i, n), s.ents[i].cls)
  }

  /** The virtual time after `n` of service have been divided among the class. */
  function Charged(t: Tree3, n: nat): nat
    requires t.wsum > 0
  {
    (t.vtime + Delta(n, t.wsum)) % U64
  }

  function Serving(s: Sched, i: nat, n: nat): (r: Sched)
    requires Wf(s) && i < |s.ents| && s.trees[s.ents[i].cls].wsum > 0
    ensures Wf(r) && s.ents[i].cls < CLASSES
  {
    var e := s.ents[i];
    assert EntOk(e);
    SetVtime(Retime(s, i, e.(service := e.service + n)), e.cls, Charged(s.trees[e.cls], n))
  }

  lemma ServingInv(s: Sched, i: nat, n: nat)
    requires Inv(s) && i < |s.ents| && s.trees[s.ents[i].cls].wsum > 0
    ensures Inv(Serving(s, i, n))
  {
    var e := s.ents[i];
    assert EntOk(e);
    var s1 := Retime(s, i, e.(service := e.service + n));
    RetimeOk(s, i, e.(service := e.service + n));
    SetVtimeOk(s1, e.cls, Charged(s.trees[e.cls], n));
  }

  lemma ServedOk(s: Sched, i: nat, n: nat)
    requires Inv(s) && i < |s.ents| && s.ents[i].on
    ensures s.trees[s.ents[i].cls].wsum > 0
    ensures Inv(Served(s, i, n))
  {
    NoDivisionByZero(s, i);
    ServingInv(s, i, n);
    ForgetIdleOk(Serving(s, i, n), s.ents[i].cls);
  }

  /** One round of bfq_get_next_queue: the entity goes into service, and off its tree
      when it is no longer a candidate. */
  function Serve(s: Sched, i: nat, extract: bool): Sched
    requires Wf(s) && i < |s.ents|
  {
    var s1 := s.(inService := Some(i));
    WfKept(s, s1);
    if extract then ActiveExtract(s1, i) else s1
  }

  lemma ServeOk(s: Sched, i: nat, extract: bool)
    requires Inv(s) && i < |s.ents| && s.inService == None && s.ents[i].place == OnActive
    ensures Inv(Serve(s, i, extract))
  {
    var s1 := s.(inService := Some(i));
    WfKept(s, s1);
    forall c | 0 <= c < CLASSES ensures TreeTouched(s, s1, i, c) {
      assert HeadOk(s.trees[c]);
    }
    TouchesKeeps(s, s1, i);
    assert PlaceOk(s, i) && PlaceOk(s1, i);
    if extract {
      ActiveExtractOk(s1, i);
      assert PlaceOk(ActiveExtract(s1, i), i);
    }
  }

  /** __bfq_bfqd_reset_in_service at this level, once the entity has been requeued. */
  lemma ResetInServiceOk(s: Sched)
    requires Inv(s) && (s.inService.Some? ==> s.ents[s.inService.value].place == OnActive)
    ensures Inv(OutOfService(s))
  {
    var r := OutOfService(s);
    forall j | 0 <= j < |r.ents| ensures PlaceOk(r, j) {
      assert PlaceOk(s, j) && EntOk(s.ents[j]);
    }
  }

  /** A new weight, class or weight-raising factor, to be applied later. */
  function Reprioritize(s: Sched, i: nat, weight: nat, cls: nat, coeff: nat): Sched
    requires i < |s.ents|
  {
    SetEnt(s, i, s.ents[i].(newWeight := weight, newCls := cls, wrCoeff := coeff, prioChanged := true))
  }

  lemma ReprioritizeOk(s: Sched, i: nat, weight: nat, cls: nat, coeff: nat)
    requires Inv(s) && i < |s.ents| && cls < CLASSES && coeff >= 1
    requires !s.ents[i].isQueue ==> cls == s.ents[i].cls
    ensures Inv(Reprioritize(s, i, weight, cls, coeff))
  {
    var r := Reprioritize(s, i, weight, cls, coeff);
    assert EntOk(s.ents[i]);
    ChangedInPlace(s, r, i);
  }

  // ------------------------------------------------------------- runs

  datatype Event =
    | DoActivate(i: nat, nonBlocking: bool)
    | DoRequeue(i: nat)
    | DoDeactivate(i: nat, toIdle: bool)
    | DoServe(i: nat, extract: bool)
    | DoServed(i: nat, n: nat)
    | DoReset
    | DoPutIdle(i: nat)
    | DoUpdateWeight(i: nat)
    | DoReprioritize(i: nat, weight: nat, cls: nat, coeff: nat)

  /** What the callers in block/bfq-wf2q.c and block/bfq-iosched.c have established
      before each operation. */
  predicate Enabled(s: Sched, ev: Event)
    requires Wf(s)
  {
    match ev
    case DoActivate(i, _) => i < |s.ents| && s.ents[i].place != OnActive && s.inService != Some(i)
    case DoRequeue(i) => i < |s.ents| && (s.inService == Some(i) || s.ents[i].place == OnActive)
    case DoDeactivate(i, _) => i < |s.ents|
    case DoServe(i, _) => i < |s.ents| && s.inService == None && s.ents[i].place == OnActive
    case DoServed(i, _) => i < |s.ents| && s.ents[i].on
    case DoReset => s.inService.Some? ==> s.ents[s.inService.value].place == OnActive
    case DoPutIdle(i) => i < |s.ents| && s.ents[i].place == OnIdle
    case DoUpdateWeight(i) => i < |s.ents| && s.ents[i].on
    case DoReprioritize(i, _, cls, coeff) =>
      i < |s.ents| && cls < CLASSES && coeff >= 1 && (!s.ents[i].isQueue ==> cls == s.ents[i].cls)
  }

  function Next(s: Sched, ev: Event): Sched
    requires Inv(s) && Enabled(s, ev)
  {
    match ev
    case DoActivate(i, nonBlocking) => Activate(s, i, nonBlocking)
    case DoRequeue(i) => Requeue(s, i)
    case DoDeactivate(i, toIdle) => Deactivate(s, i, toIdle)
    case DoServe(i, extract) => Serve(s, i, extract)
    case DoServed(i, n) => NoDivisionByZero(s, i); Served(s, i, n)
    case DoReset => OutOfService(s)
    case DoPutIdle(i) => PutIdle(s, i)
    case DoUpdateWeight(i) => UpdateWeightPrio(s, i, false)
    case DoReprioritize(i, weight, cls, coeff) => Reprioritize(s, i, weight, cls, coeff)
  }

  /** Every operation keeps the weight sums, the placement of the entities and
      first_idle. */
  lemma NextInv(s: Sched, ev: Event)
    requires Inv(s) && Enabled(s, ev)
    ensures Inv(Next(s, ev))
  {
    match ev
    case DoActivate(i, nonBlocking) => ActivateOk(s, i, nonBlocking);
    case DoRequeue(i) => RequeueOk(s, i);
    case DoDeactivate(i, toIdle) => DeactivateOk(s, i, toIdle);
    case DoServe(i, extract) => ServeOk(s, i, extract);
    case DoServed(i, n) => ServedOk(s, i, n);
    case DoReset => ResetInServiceOk(s);
    case DoPutIdle(i) => PutIdleOk(s, i);
    case DoUpdateWeight(i) => UpdateInPlace(s, i);
    case DoReprioritize(i, weight, cls, coeff) => ReprioritizeOk(s, i, weight, cls, coeff);
  }

  /** A start state: nothing on any tree, nothing in service. */
  predicate Start(s: Sched) {
    && |s.trees| == CLASSES && s.inService == None
    && (forall i :: 0 <= i < |s.ents| ==> EntOk(s.ents[i]) && !s.ents[i].on && s.ents[i].place == Nowhere)
    && (forall c :: 0 <= c < CLASSES ==>
          s.trees[c].wsum == 0 && s.trees[c].active == {} && s.trees[c].idle == []
          && s.trees[c].first == None && s.trees[c].last == None)
  }

  lemma {:induction false} NoWeight(ents: seq<Ent>, c: nat, k: nat)
    requires k <= |ents| && forall i :: 0 <= i < |ents| ==> !ents[i].on
    ensures WeightOf(ents, c, k) == 0
  {
    if k > 0 {
      NoWeight(ents, c, k - 1);
    }
  }

  lemma StartInv(s: Sched)
    requires Start(s)
    ensures Inv(s)
  {
    forall c | 0 <= c < CLASSES ensures s.trees[c].wsum == WeightOf(s.ents, c, |s.ents|) {
      NoWeight(s.ents, c, |s.ents|);
    }
    assert forall i :: 0 <= i < |s.ents| ==> PlaceOk(s, i);
  }

  /** `run` is a run of the scheduler taking the steps `evs`. */
  ghost predicate IsRun(run: seq<Sched>, evs: seq<Event>) {
    && |run| == |evs| + 1
    && Start(run[0])
    && forall k :: 0 <= k < |evs| ==> StepOk(run[k], evs[k], run[k + 1])
  }

  ghost predicate StepOk(s: Sched, ev: Event, t: Sched) {
    Inv(s) ==> Enabled(s, ev) && t == Next(s, ev)
  }

  /** In every state of every run the weight sum of each class is exactly the weight
      of its flagged entities, so a class with something to serve never has a zero
      sum. */
  lemma {:induction false} RunInv(run: seq<Sched>, evs: seq<Event>, k: nat)
    requires IsRun(run, evs) && k <= |evs|
    ensures Inv(run[k])
    ensures forall i :: 0 <= i < |run[k].ents| && run[k].ents[i].on ==> run[k].trees[run[k].ents[i].cls].wsum > 0
  {
    if k == 0 {
      StartInv(run[0]);
    } else {
      RunInv(run, evs, k - 1);
      assert StepOk(run[k - 1], evs[k - 1], run[k]);
      NextInv(run[k - 1], evs[k - 1]);
    }
    forall i | 0 <= i < |run[k].ents| && run[k].ents[i].on ensures run[k].trees[run[k].ents[i].cls].wsum > 0 {
      NoDivisionByZero(run[k], i);
    }
  }

  // ------------------------------------------------------------- virtual time

  lemma ForgetIdleVtime(s: Sched, c: nat)
    requires Wf(s) && c < CLASSES
    ensures ForgetIdle(s, c).trees[c].vtime == SettledVtime(s, c)
  {
    var s1 := SetVtime(s, c, SettledVtime(s, c));
    assert TreeWf(s, c) && TreeWf(s1, c);
    var first := s.trees[c].first;
    if first.Some? && !Gt(s1.ents[first.value].finish, s1.trees[c].vtime) {
      assert EntOk(s1.ents[first.value]);
    }
  }

  /** The active tree of the class is empty and its last idle entity has finished
      before virtual time `v`. */
  predicate Overtaken(s: Sched, c: nat, v: nat)
    requires Wf(s) && c < CLASSES
  {
    assert TreeWf(s, c);
    var t := s.trees[c];
    t.active == {} && t.last.Some? && !Gt(s.ents[t.last.value].finish, v) && s.ents[t.last.value].finish != v
  }

  /** Service given to a class advances its virtual time by that service over the
      weight sum, unless its idle tree is overtaken: bfq_forget_idle then takes the
      virtual time back to the last finish time, where its comment announces an
      increase. */
  lemma ServedAdvancesIff(s: Sched, i: nat, n: nat)
    requires Wf(s) && i < |s.ents| && s.trees[s.ents[i].cls].wsum > 0
    ensures var c := s.ents[i].cls;
            && c < CLASSES
            && (Served(s, i, n).trees[c].vtime == Charged(s.trees[c], n) <==> !Overtaken(s, c, Charged(s.trees[c], n)))
  {
    var c := s.ents[i].cls;
    assert EntOk(s.ents[i]) && TreeWf(s, c);
    ForgetIdleVtime(Serving(s, i, n), c);
  }

  /** One entity in service and one idle, which finishes at 5; the virtual time is `v`. */
  function OneIdle(v: nat): Sched {
    var idle := Ent(true, 1, 1, 1, 1, false, 0, 0, 0, 5, 0, 0, true, OnIdle);
    var empty := Tree3(0, 0, {}, [], None, None);
    Sched([idle, idle.(place := Nowhere)], [Tree3(2, v, {}, [0], Some(0), Some(0)), empty, empty], Some(1))
  }

  lemma OneIdleSums(v: nat)
    ensures Wf(OneIdle(v)) && SumsOk(OneIdle(v))
  {
    var s := OneIdle(v);
    assert forall c: nat :: c < 3 ==> WeightOf(s.ents, c, 1) == WeightOf(s.ents, c, 0) + Counted(s.ents[0], c);
  }

  lemma OneIdleInv(v: nat)
    ensures Inv(OneIdle(v))
  {
    OneIdleSums(v);
    var s := OneIdle(v);
    assert PlaceOk(s, 0) && PlaceOk(s, 1);
  }

  /** A unit of service should take its virtual time to 2 to the 21; it ends at 5. */
  lemma ServedMovesBack()
    ensures Inv(OneIdle(0)) && OneIdle(0).ents[1].on && Charged(OneIdle(0).trees[0], 1) == 0x20_0000
    ensures Served(OneIdle(0), 1, 1).trees[0].vtime == 5
  {
    OneIdleInv(0);
    ForgetIdleVtime(Serving(OneIdle(0), 1, 1), 0);
  }

  /** Service leaves the virtual time behind the value it had before exactly when the
      idle tree is overtaken and its last finish time lies behind that value, or is not
      overtaken and the service is worth more than half the timestamp range. */
  lemma ServedFallsBackIff(s: Sched, i: nat, n: nat)
    requires Wf(s) && i < |s.ents| && s.trees[s.ents[i].cls].wsum > 0
    ensures var c := s.ents[i].cls;
            && c < CLASSES && TreeWf(s, c)
            && var t := s.trees[c];
            (Gt(t.vtime, Served(s, i, n).trees[c].vtime) <==>
             if Overtaken(s, c, Charged(t, n)) then Gt(t.vtime, s.ents[t.last.value].finish)
             else Delta(n, t.wsum) > HALF)
  {
    var c := s.ents[i].cls;
    assert EntOk(s.ents[i]) && TreeWf(s, c);
    ForgetIdleVtime(Serving(s, i, n), c);
    QuotientLe(n * SERVICE_SCALE % U64, s.trees[c].wsum);
    BehindItself(s.trees[c].vtime, Delta(n, s.trees[c].wsum));
  }

  lemma BehindItself(v: nat, d: nat)
    requires d < U64
    ensures Gt(v, (v + d) % U64) <==> d > HALF
  {
    var m := (v + d) / U64;
    assert v - (v + d) % U64 == (0 - d) + U64 * m;
  }

  /** A unit of service takes the virtual time from 10 back to 5. */
  lemma ServedFallsBack()
    ensures Inv(OneIdle(10)) && OneIdle(10).ents[1].on && OneIdle(10).trees[0].vtime == 10
    ensures Served(OneIdle(10), 1, 1).trees[0].vtime == 5
  {
    OneIdleInv(10);
    ForgetIdleVtime(Serving(OneIdle(10), 1, 1), 0);
  }

  // ------------------------------------------------------------- timestamps

  /** How long an entity's virtual service interval is. */
  function Span(e: Ent): nat {
    (e.finish - e.start) % U64
  }

  lemma ShiftedSpan(start: nat, finish: nat, d: nat)
    ensures ((finish + d) % U64 - (start + d) % U64) % U64 == (finish - start) % U64
  {
  }

  lemma PushedSpan(e: Ent, vtime: nat, backshifted: bool)
    requires e.wrCoeff > 0
    ensures Span(Pushed(e, vtime, backshifted)) == Span(e)
  {
    ShiftedSpan(e.start, e.finish, PushBy(e, vtime));
  }

  /** Pushing up backshifted timestamps keeps their distance and takes the finish time
      no further than the virtual time, and exactly there for entities that are not
      weight-raised. */
  lemma PushedToVtime(e: Ent, vtime: nat)
    requires e.wrCoeff >= 1 && vtime < U64 && Gt(vtime, e.finish)
    ensures var r := Pushed(e, vtime, true);
            && Span(r) == Span(e) && !Gt(r.finish, vtime)
            && (!e.isQueue || e.wrCoeff == 1 ==> r.finish == vtime)
  {
    PushedSpan(e, vtime, true);
    NotBeyond(vtime, e.finish, (vtime - e.finish) % U64, PushBy(e, vtime));
  }

  lemma NotBeyond(v: nat, f: nat, delta: nat, d: nat)
    requires v < U64 && delta == (v - f) % U64 && d <= delta < HALF
    ensures !Gt((f + d) % U64, v) && (d == delta ==> (f + d) % U64 == v)
  {
    BehindBy(v, f, delta, d);
  }

  lemma BehindBy(v: nat, f: nat, delta: nat, d: nat)
    requires v < U64 && delta == (v - f) % U64 && d <= delta < HALF
    ensures (v - (f + d) % U64) % U64 == delta - d && ((f + d) % U64 - v) % U64 == (d - delta) % U64
  {
    var k, m := (v - f) / U64, (f + d) / U64;
    assert v - (f + d) % U64 == (delta - d) + U64 * (k + m);
    assert (f + d) % U64 - v == (d - delta) + U64 * (0 - k - m);
  }

  /** An enqueued entity's interval is its budget over its weight, pushed up or not. */
  lemma EnqueuedSpan(s: Sched, i: nat, backshifted: bool)
    requires Wf(s) && i < |s.ents|
    ensures var r := Enqueue(s, i, backshifted).ents[i];
            r.weight > 0 && Span(r) == Delta(r.budget, r.weight) % U64
  {
    var s1 := UpdateWeightPrio(s, i, true);
    assert EntOk(s1.ents[i]);
    var e := CalcFinish(s1.ents[i], s1.ents[i].budget);
    var v := s1.trees[s1.ents[i].cls].vtime;
    SpanOf(e.start, Delta(e.budget, e.weight));
    PushedSpan(e, v, backshifted);
  }

  lemma SpanOf(start: nat, d: nat)
    ensures ((start + d) % U64 - start) % U64 == d % U64
  {
  }

  /** Applying a change to an entity on a tree and its class later, off the trees,
      comes to the same as applying both at once. */
  lemma DeferredClassChange(s: Sched, i: nat)
    requires Wf(s) && i < |s.ents|
    ensures UpdateWeightPrio(UpdateWeightPrio(s, i, false), i, true) == UpdateWeightPrio(s, i, true)
  {
    if s.ents[i].prioChanged {
      var e := s.ents[i];
      assert EntOk(e);
      var s1 := UpdateWeightPrio(s, i, false);
      var r, r1 := UpdateWeightPrio(s, i, true), UpdateWeightPrio(s1, i, true);
      assert r1.ents[i] == r.ents[i];
      assert r1.ents == r.ents;
      assert forall c :: 0 <= c < CLASSES ==> r1.trees[c] == r.trees[c];
      assert r1.trees == r.trees;
    }
  }

  /** A requeued entity's finish time lies ahead of the start of its last service by the
      service it got, at the weight it had, and the budget ahead of it, at the weight it
      has now: a pending weight change never reprices service already given.  Only an
      entity that changes class starts afresh, at the virtual time of the new class. */
  lemma RequeueCharges(s: Sched, i: nat)
    requires Wf(s) && i < |s.ents| && s.inService == Some(i)
    ensures var e, r := s.ents[i], Requeue(s, i).ents[i];
            && e.weight > 0 && r.weight > 0 && r.budget == e.budget && r.cls < CLASSES
            && r.finish == ((if r.cls == e.cls then e.start + Delta(e.service, e.weight) else s.trees[r.cls].vtime)
                            + Delta(r.budget, r.weight)) % U64
  {
    var e := s.ents[i];
    assert EntOk(e);
    EnqueuedFinish(Requeueing(s, i), i);
    var r := Requeue(s, i).ents[i];
    AddMod(e.start + Delta(e.service, e.weight), Delta(r.budget, r.weight));
  }

  lemma EnqueuedFinish(s: Sched, i: nat)
    requires Wf(s) && i < |s.ents|
    ensures var e, r := s.ents[i], Enqueue(s, i, false).ents[i];
            && r.weight > 0 && r.budget == e.budget && r.cls < CLASSES
            && r.finish == ((if r.cls == e.cls then e.start else s.trees[r.cls].vtime)
                            + Delta(r.budget, r.weight)) % U64
  {
    assert EntOk(UpdateWeightPrio(s, i, true).ents[i]);
  }

  lemma AddMod(a: nat, d: nat)
    ensures (a % U64 + d) % U64 == (a + d) % U64
  {
  }

  /** An activation that is not backshifted starts no earlier than the virtual time of
      the class, and no earlier than an idle entity's last finish time. */
  lemma ActivationStartsInTime(base: nat, s: Sched, i: nat, nonBlocking: bool)
    requires Wf(s) && i < |s.ents| && !s.ents[i].prioChanged && s.ents[i].cls < CLASSES
    requires InWindow(base, s.trees[s.ents[i].cls].vtime) && InWindow(base, s.ents[i].finish)
    requires !(nonBlocking && Gt(s.trees[s.ents[i].cls].vtime, s.ents[i].finish))
    ensures var r := Activate(s, i, nonBlocking).ents[i];
            && !Gt(s.trees[s.ents[i].cls].vtime, r.start)
            && (s.ents[i].place == OnIdle ==> !Gt(s.ents[i].finish, r.start))
  {
    var e := s.ents[i];
    assert EntOk(e);
    GtIsOrder(base, s.trees[e.cls].vtime, e.finish);
    GtIsOrder(base, e.finish, s.trees[e.cls].vtime);
    GtIsOrder(base, e.finish, e.finish);
    GtIsOrder(base, s.trees[e.cls].vtime, s.trees[e.cls].vtime);
  }
}
