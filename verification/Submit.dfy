/** Stacked submission in block/blk-core.c: drivers that submit further bios while
    one is being submitted, handled by a loop over two lists instead of recursion. */
module Submit {
  import opened Options

  /** A bio, with what its driver submits when it gets it. */
  datatype Bio = Bio(
    id: nat,
    queue: nat,          // bi_disk->queue
    checks: bool,        // whether submit_bio_checks lets it pass
    enters: bool,        // whether bio_queue_enter succeeds
    children: seq<Bio>)

  /** What happens to a bio that was taken up. */
  datatype Entry = Issued(id: nat) | Refused(id: nat)

  function Size(b: Bio): nat
    decreases b
  {
    1 + SizeAll(b.children)
  }

  function SizeAll(l: seq<Bio>): nat
    decreases l
  {
    if l == [] then 0 else Size(l[0]) + SizeAll(l[1..])
  }

  /** The children that get past the checks. */
  function Passing(l: seq<Bio>): (r: seq<Bio>)
    ensures SizeAll(r) <= SizeAll(l)
  {
    if l == [] then [] else if l[0].checks then [l[0]] + Passing(l[1..]) else Passing(l[1..])
  }

  function Lower(l: seq<Bio>, q: nat): (r: seq<Bio>)
    ensures SizeAll(r) <= SizeAll(l)
  {
    if l == [] then [] else if l[0].queue != q then [l[0]] + Lower(l[1..], q) else Lower(l[1..], q)
  }

  function Same(l: seq<Bio>, q: nat): (r: seq<Bio>)
    ensures SizeAll(r) <= SizeAll(l)
  {
    if l == [] then [] else if l[0].queue == q then [l[0]] + Same(l[1..], q) else Same(l[1..], q)
  }

  /** The recursive traversal: a bio, then everything below its children on other
      devices, then everything below its children on the same device. */
  function Visit(b: Bio): seq<Entry>
    decreases Size(b), 0
  {
    if !b.enters then [Refused(b.id)]
    else [Issued(b.id)] + VisitAll(Lower(Passing(b.children), b.queue)) + VisitAll(Same(Passing(b.children), b.queue))
  }

  function VisitAll(l: seq<Bio>): seq<Entry>
    decreases SizeAll(l), 1
  {
    if l == [] then [] else Visit(l[0]) + VisitAll(l[1..])
  }

  // ------------------------------------------------------------- lists

  lemma {:induction false} SizeConcat(a: seq<Bio>, b: seq<Bio>)
    ensures SizeAll(a + b) == SizeAll(a) + SizeAll(b)
    decreases |a|
  {
    if a == [] {
      assert a + b == b;
    } else {
      SizeConcat(a[1..], b);
      assert (a + b)[1..] == a[1..] + b;
    }
  }

  lemma {:induction false} VisitConcat(a: seq<Bio>, b: seq<Bio>)
    ensures VisitAll(a + b) == VisitAll(a) + VisitAll(b)
    decreases |a|
  {
    if a == [] {
      assert a + b == b;
    } else {
      VisitConcat(a[1..], b);
      assert (a + b)[1..] == a[1..] + b;
      ConcatAssoc(Visit(a[0]), VisitAll(a[1..]), VisitAll(b));
    }
  }

  lemma {:induction false} PassingSnoc(l: seq<Bio>, b: Bio)
    ensures Passing(l + [b]) == Passing(l) + if b.checks then [b] else []
    decreases |l|
  {
    if l != [] {
      PassingSnoc(l[1..], b);
      assert (l + [b])[1..] == l[1..] + [b];
    }
  }

  lemma {:induction false} SortSnoc(l: seq<Bio>, b: Bio, q: nat)
    ensures Lower(l + [b], q) == Lower(l, q) + if b.queue != q then [b] else []
    ensures Same(l + [b], q) == Same(l, q) + if b.queue == q then [b] else []
    decreases |l|
  {
    if l != [] {
      SortSnoc(l[1..], b, q);
      assert (l + [b])[1..] == l[1..] + [b];
    }
  }

  lemma {:induction false} SortSizes(l: seq<Bio>, q: nat)
    ensures SizeAll(Lower(l, q)) + SizeAll(Same(l, q)) == SizeAll(l)
    decreases |l|
  {
    if l != [] {
      SortSizes(l[1..], q);
    }
  }

  // ------------------------------------------------------------- every bio once

  /** Every bio that is reached: through bios whose queue could be entered, and
      children that pass the checks. */
  function Reached(b: Bio): multiset<Entry>
    decreases b
  {
    if b.enters then multiset{Issued(b.id)} + ReachedAll(b.children) else multiset{Refused(b.id)}
  }

  function ReachedAll(l: seq<Bio>): multiset<Entry>
    decreases l
  {
    if l == [] then multiset{}
    else (if l[0].checks then Reached(l[0]) else multiset{}) + ReachedAll(l[1..])
  }

  lemma {:induction false} ReachedPassing(l: seq<Bio>)
    ensures ReachedAll(Passing(l)) == ReachedAll(l)
    ensures forall k :: 0 <= k < |Passing(l)| ==> Passing(l)[k].checks
    decreases |l|
  {
    if l != [] {
      ReachedPassing(l[1..]);
    }
  }

  lemma ReachedCons(b: Bio, l: seq<Bio>)
    requires b.checks
    ensures ReachedAll([b] + l) == Reached(b) + ReachedAll(l)
  {
    assert ([b] + l)[1..] == l;
  }

  lemma {:induction false} ReachedSorted(l: seq<Bio>, q: nat)
    requires forall k :: 0 <= k < |l| ==> l[k].checks
    ensures ReachedAll(Lower(l, q)) + ReachedAll(Same(l, q)) == ReachedAll(l)
    decreases |l|
  {
    if l != [] {
      ReachedSorted(l[1..], q);
      ReachedCons(l[0], if l[0].queue != q then Lower(l[1..], q) else Same(l[1..], q));
    }
  }

  lemma {:induction false} SortedPass(l: seq<Bio>, q: nat)
    requires forall k :: 0 <= k < |l| ==> l[k].checks
    ensures forall k :: 0 <= k < |Lower(l, q)| ==> Lower(l, q)[k].checks
    ensures forall k :: 0 <= k < |Same(l, q)| ==> Same(l, q)[k].checks
    decreases |l|
  {
    if l != [] {
      SortedPass(l[1..], q);
    }
  }

  /** The traversal takes up every reached bio exactly once, and nothing else. */
  lemma {:induction false} VisitOnce(b: Bio)
    ensures multiset(Visit(b)) == Reached(b)
    decreases Size(b), 0
  {
    if b.enters {
      var kids := Passing(b.children);
      ReachedPassing(b.children);
      ReachedSorted(kids, b.queue);
      SortedPass(kids, b.queue);
      VisitAllOnce(Lower(kids, b.queue));
      VisitAllOnce(Same(kids, b.queue));
    }
  }

  lemma {:induction false} VisitAllOnce(l: seq<Bio>)
    requires forall k :: 0 <= k < |l| ==> l[k].checks
    ensures multiset(VisitAll(l)) == ReachedAll(l)
    decreases SizeAll(l), 1
  {
    if l != [] {
      VisitOnce(l[0]);
      VisitAllOnce(l[1..]);
    }
  }

  // ------------------------------------------------------------- the loop

  lemma Regroup(log: seq<Entry>, e: seq<Entry>, l: seq<Entry>, s: seq<Entry>, r: seq<Entry>)
    ensures (log + e) + ((l + s) + r) == log + (e + l + s) + r
  {
  }

  /** Issuing `b` and queueing its sorted children before `rest`. */
  lemma Pending(log: seq<Entry>, b: Bio, rest: seq<Bio>, pending: seq<Bio>)
    requires b.enters
    requires pending == Lower(Passing(b.children), b.queue) + Same(Passing(b.children), b.queue) + rest
    ensures (log + [Issued(b.id)]) + VisitAll(pending) == log + Visit(b) + VisitAll(rest)
    ensures SizeAll(pending) < Size(b) + SizeAll(rest)
  {
    var kids := Passing(b.children);
    var lower, same := Lower(kids, b.queue), Same(kids, b.queue);
    VisitConcat(lower + same, rest);
    VisitConcat(lower, same);
    Regroup(log, [Issued(b.id)], VisitAll(lower), VisitAll(same), VisitAll(rest));
    SizeConcat(lower + same, rest);
    SizeConcat(lower, same);
    SortSizes(kids, b.queue);
  }

  /** The submitting task: current->bio_list and what has been taken up so far. */
  class Task {
    var stacked: bool        // current->bio_list is set
    var running: bool        // a driver's submit_bio is on the stack
    var fresh0: seq<Bio>     // bio_list_on_stack[0]
    var older: seq<Bio>      // bio_list_on_stack[1]
    var log: seq<Entry>

    constructor ()
      ensures !stacked && !running && fresh0 == [] && older == [] && log == []
    {
      stacked, running, fresh0, older, log := false, false, [], [], [];
    }

    /** submit_bio_noacct: while a submission is under way the bio is only queued. */
    method SubmitNoacct(b: Bio)
      requires stacked || !running
      requires !stacked ==> fresh0 == []
      modifies this
      ensures stacked == old(stacked) && running == old(running)
      ensures old(stacked) ==> log == old(log) && older == old(older)
      ensures old(stacked) ==> fresh0 == old(fresh0) + (if b.checks then [b] else [])
      ensures !old(stacked) ==> fresh0 == [] && log == old(log) + if b.checks then Visit(b) else []
      decreases if stacked then 0 else 4
    {
      if !b.checks {
        return;
      }
      if stacked {
        fresh0 := fresh0 + [b];
        return;
      }
      Loop(b);
    }

    /** A driver's submit_bio: it submits its bios one after the other.  Only one
        driver is active at any time. */
    method Drive(b: Bio)
      requires stacked && !running
      modifies this
      ensures stacked && !running && log == old(log) && older == old(older)
      ensures fresh0 == old(fresh0) + Passing(b.children)
      decreases 1
    {
      running := true;
      var k := 0;
      while k < |b.children|
        invariant k <= |b.children| && stacked && running && log == old(log) && older == old(older)
        invariant fresh0 == old(fresh0) + Passing(b.children[..k])
      {
        PassingSnoc(b.children[..k], b.children[k]);
        assert b.children[..k + 1] == b.children[..k] + [b.children[k]];
        SubmitNoacct(b.children[k]);
        k := k + 1;
      }
      assert b.children[..k] == b.children;
      running := false;
    }

    /** Sort the new bios and put them before the older ones, other devices first. */
    method SortNew(q: nat)
      requires stacked && !running
      modifies this`fresh0, this`older
      ensures fresh0 == Lower(old(fresh0), q) + Same(old(fresh0), q) + old(older)
    {
      var lower, same: seq<Bio> := [], [];
      ghost var all := fresh0;
      ghost var k := 0;
      while fresh0 != []
        invariant k <= |all| && fresh0 == all[k..] && older == old(older)
        invariant lower == Lower(all[..k], q) && same == Same(all[..k], q)
        decreases |fresh0|
      {
        var b := fresh0[0];
        SortSnoc(all[..k], b, q);
        assert all[..k + 1] == all[..k] + [b];
        fresh0 := fresh0[1..];
        if b.queue == q {
          same := same + [b];
        } else {
          lower := lower + [b];
        }
        k := k + 1;
      }
      assert all[..k] == all;
      fresh0 := fresh0 + lower;
      fresh0 := fresh0 + same;
      fresh0 := fresh0 + older;
    }

    /** One bio of the loop: what is pending afterwards is what the recursive
        traversal would do next. */
    method Take(b: Bio)
      requires stacked && !running
      modifies this
      ensures stacked && !running
      ensures log + VisitAll(fresh0) == old(log) + Visit(b) + VisitAll(old(fresh0))
      ensures SizeAll(fresh0) < Size(b) + SizeAll(old(fresh0))
      decreases 2
    {
      if !b.enters {
        log := log + [Refused(b.id)];
        assert Visit(b) == [Refused(b.id)];
        return;
      }
      older := fresh0;
      fresh0 := [];
      log := log + [Issued(b.id)];
      Drive(b);
      assert fresh0 == Passing(b.children);
      SortNew(b.queue);
      Pending(old(log), b, old(fresh0), fresh0);
    }

    /** __submit_bio_noacct takes up exactly what the recursion would, in its order. */
    method Loop(b: Bio)
      requires !stacked && !running && fresh0 == []
      modifies this
      ensures !stacked && !running && fresh0 == []
      ensures log == old(log) + Visit(b)
      decreases 3
    {
      stacked := true;
      var next := b;
      ghost var todo := Visit(b);
      while true
        invariant stacked && !running
        invariant log + Visit(next) + VisitAll(fresh0) == old(log) + todo
        decreases Size(next) + SizeAll(fresh0)
      {
        Take(next);
        if fresh0 == [] {
          break;
        }
        next := fresh0[0];
        fresh0 := fresh0[1..];
      }
      stacked := false;
    }
  }
}
