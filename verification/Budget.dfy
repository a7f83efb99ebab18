/** Spending virtual time in block/blk-iocost.c: what an IO costs a group, when it
    may be issued, and how waiters are woken and debt is paid. */
module Budget {
  import opened Arith
  import opened WeightTree

  // ------------------------------------------------------------- cost conversions

  /** abs_cost_to_cost */
  function Cost(a: nat, h: nat): (c: nat)
    requires h > 0
    ensures WEIGHT_ONE * a <= h * c < WEIGHT_ONE * a + h
  {
    CeilDiv(WEIGHT_ONE * a, h)
  }

  /** cost_to_abs_cost */
  function AbsCost(c: nat, h: nat): (a: nat)
    ensures h * c <= WEIGHT_ONE * a < h * c + WEIGHT_ONE
  {
    CeilDiv(h * c, WEIGHT_ONE)
  }

  /** What an absolute cost becomes on the way to a group's own cost and back: the
      same, exactly when its share divides it, and otherwise one more. */
  lemma CostRoundTripIff(a: nat, h: nat)
    requires 0 < h <= WEIGHT_ONE
    ensures a <= AbsCost(Cost(a, h), h) <= a + 1
    ensures AbsCost(Cost(a, h), h) == a <==> WEIGHT_ONE * a % h == 0
  {
    var c := Cost(a, h);
    var x := WEIGHT_ONE * a;
    if x % h == 0 {
      assert h * (x / h) == x;
      CeilIs(x, h, x / h);
      CeilIs(h * c, WEIGHT_ONE, a);
    } else {
      MultipleIs(x, h, c);
      assert WEIGHT_ONE * (a + 1) == x + WEIGHT_ONE;
      CeilIs(h * c, WEIGHT_ONE, a + 1);
    }
  }

  lemma MultipleIs(x: nat, h: nat, c: nat)
    requires h > 0 && x % h != 0
    ensures h * c != x
  {
    if h * c == x {
      DivIs(x, h, c);
    }
  }

  /** Converting a budget to an absolute cost and back never comes out below it. */
  lemma BudgetRoundTrip(b: nat, h: nat)
    requires h > 0
    ensures b <= Cost(AbsCost(b, h), h)
  {
    MulCancelLe(h, b, Cost(AbsCost(b, h), h));
  }

  lemma CostPositive(a: nat, h: nat)
    requires h > 0 && a > 0
    ensures Cost(a, h) > 0
  {
    MulCancel(h, 0, Cost(a, h));
  }

  // ------------------------------------------------------------- waiters

  function Sum(q: seq<nat>): nat {
    if q == [] then 0 else q[0] + Sum(q[1..])
  }

  function QueueCost(q: seq<nat>, h: nat): nat
    requires h > 0
  {
    if q == [] then 0 else Cost(q[0], h) + QueueCost(q[1..], h)
  }

  /** How many waiters iocg_wake_fn lets through with budget `b`. */
  function Woken(q: seq<nat>, h: nat, b: int): (n: nat)
    requires h > 0
    ensures n <= |q|
  {
    if q == [] || b < Cost(q[0], h) then 0 else 1 + Woken(q[1..], h, b - Cost(q[0], h))
  }

  lemma {:induction false} QueueCostSplit(q: seq<nat>, k: nat, h: nat)
    requires h > 0 && k < |q|
    ensures QueueCost(q[..k + 1], h) == QueueCost(q[..k], h) + Cost(q[k], h)
    ensures Sum(q[..k + 1]) == Sum(q[..k]) + q[k]
  {
    if k > 0 {
      QueueCostSplit(q[1..], k - 1, h);
      assert q[..k + 1][1..] == q[1..][..k] && q[..k][1..] == q[1..][..k - 1];
    } else {
      assert q[..1] == [q[0]] && q[..0] == [];
    }
  }

  /** The waiters let through are the longest prefix the budget pays for. */
  lemma {:induction false} WokenIsLongest(q: seq<nat>, h: nat, b: int, k: nat)
    requires h > 0 && k <= |q|
    ensures k <= Woken(q, h, b) <==> k == 0 || QueueCost(q[..k], h) <= b
    decreases |q|
  {
    if k > 0 {
      assert q[..k][0] == q[0] && q[..k][1..] == q[1..][..k - 1];
      WokenIsLongest(q[1..], h, b - Cost(q[0], h), k - 1);
      if k == 1 {
        assert q[..1] == [q[0]];
        assert QueueCost(q[..1], h) == Cost(q[0], h) + QueueCost([], h);
      }
    }
  }

  /** Woken waiters are charged at least their share of the device. */
  lemma {:induction false} QueueCharged(q: seq<nat>, h: nat)
    requires h > 0
    ensures WEIGHT_ONE * Sum(q) <= h * QueueCost(q, h)
    decreases |q|
  {
    if q != [] {
      QueueCharged(q[1..], h);
      Distribute(WEIGHT_ONE, q[0], Sum(q[1..]));
      Distribute(h, Cost(q[0], h), QueueCost(q[1..], h));
    }
  }

  lemma Distribute(d: int, a: int, b: int)
    ensures d * (a + b) == d * a + d * b
  {
  }

  // ------------------------------------------------------------- a group

  /** The accounting fields of struct ioc_gq; a waiter is its absolute cost. */
  datatype Leaf = Leaf(vtime: nat, debt: nat, usage: nat, waitq: seq<nat>)

  predicate LeafOk(l: Leaf) {
    forall k :: 0 <= k < |l.waitq| ==> l.waitq[k] > 0
  }

  /** iocg_commit_bio */
  function Commit(l: Leaf, a: nat, h: nat): Leaf
    requires h > 0
  {
    l.(vtime := l.vtime + Cost(a, h), usage := l.usage + a)
  }

  /** The absolute cost a payment covers. */
  function Payment(l: Leaf, vnow: nat, hwa: nat): nat {
    if l.vtime < vnow && AbsCost(vnow - l.vtime, hwa) < l.debt then AbsCost(vnow - l.vtime, hwa) else l.debt
  }

  /** The debt part of iocg_kick_waitq. */
  function PayDebt(l: Leaf, pay: bool, vnow: nat, hwa: nat): (r: Leaf)
    requires hwa > 0
    ensures r.waitq == l.waitq && r.usage == l.usage
  {
    if pay && l.debt > 0 && l.vtime < vnow then
      var p := Payment(l, vnow, hwa);
      l.(vtime := l.vtime + Cost(p, hwa), debt := l.debt - p)
    else l
  }

  /** The budget the waiters may use. */
  function Spendable(l: Leaf, vnow: nat, hwa: nat): int
    requires hwa > 0
  {
    var b := vnow - l.vtime;
    if l.debt == 0 then b else if b - Cost(l.debt, hwa) < 0 then b - Cost(l.debt, hwa) else 0
  }

  /** Let through the waiters that a budget pays for. */
  function Wake(l: Leaf, budget: int, h: nat): Leaf
    requires h > 0
  {
    var n := Woken(l.waitq, h, budget);
    l.(vtime := l.vtime + QueueCost(l.waitq[..n], h), usage := l.usage + Sum(l.waitq[..n]), waitq := l.waitq[n..])
  }

  /** iocg_kick_waitq, with the group's shares before and after the payment. */
  function Kick(l: Leaf, pay: bool, vnow: nat, hwa: nat, hwi: nat): Leaf
    requires hwa > 0 && hwi > 0
  {
    var p := PayDebt(l, pay, vnow, hwa);
    Wake(p, Spendable(p, vnow, hwa), hwi)
  }

  /** ioc_rqos_throttle for an active group */
  function Throttle(l: Leaf, a: nat, useDebt: bool, vnow: nat, hwa: nat, hwi: nat): Leaf
    requires hwa > 0 && hwi > 0
  {
    if a == 0 then l
    else if l.waitq == [] && l.debt == 0 && l.vtime + Cost(a, hwi) <= vnow then Commit(l, a, hwi)
    else if useDebt then l.(debt := l.debt + a, usage := l.usage + a)
    else Kick(l.(waitq := l.waitq + [a]), l.debt > 0, vnow, hwa, hwi)
  }

  /** ioc_rqos_merge for an active group */
  function Merge(l: Leaf, a: nat, hasCost: bool, vnow: nat, hwi: nat): Leaf
    requires hwi > 0
  {
    if a == 0 then l
    else if hasCost && l.vtime + Cost(a, hwi) <= vnow then Commit(l, a, hwi)
    else l.(debt := l.debt + a, usage := l.usage + a)
  }

  // ------------------------------------------------------------- debt

  /** A payment charges at least what it covers, and while debt remains it uses up
      the whole budget. */
  lemma PaymentUsesBudget(l: Leaf, vnow: nat, hwa: nat)
    requires hwa > 0 && l.debt > 0 && l.vtime < vnow
    ensures var r := PayDebt(l, true, vnow, hwa);
            && r.debt < l.debt
            && WEIGHT_ONE * (l.debt - r.debt) <= hwa * (r.vtime - l.vtime)
            && (r.debt > 0 ==> r.vtime >= vnow)
  {
    var b: nat := vnow - l.vtime;
    BudgetRoundTrip(b, hwa);
    assert AbsCost(b, hwa) > 0 by {
      assert hwa * b >= 1 by { MulLe(hwa, 1, b); }
    }
  }

  /** A payment overshoots the budget by less than the price of one unit of absolute cost
      plus one tick of virtual time. */
  lemma PaymentOvershoot(l: Leaf, vnow: nat, hwa: nat)
    requires hwa > 0 && l.debt > 0 && l.vtime < vnow
    ensures var r := PayDebt(l, true, vnow, hwa);
            hwa * (r.vtime - vnow) < WEIGHT_ONE + hwa
  {
    var b: nat := vnow - l.vtime;
    var p := Payment(l, vnow, hwa);
    var c := Cost(p, hwa);
    assert WEIGHT_ONE * p <= WEIGHT_ONE * AbsCost(b, hwa) by { MulLe(WEIGHT_ONE, p, AbsCost(b, hwa)); }
    Distribute(hwa, c, 0 - b);
  }

  /** No waiter is let through while the group owes anything. */
  lemma NobodyWokenInDebt(l: Leaf, pay: bool, vnow: nat, hwa: nat, hwi: nat)
    requires hwa > 0 && hwi > 0 && LeafOk(l)
    ensures var r := Kick(l, pay, vnow, hwa, hwi);
            r.debt > 0 ==> r.waitq == l.waitq && r.usage == l.usage
  {
    if l.waitq != [] {
      CostPositive(l.waitq[0], hwi);
    }
  }

  /** Waiters go in order of arrival, the longest prefix that fits, so what is still
      waiting does not fit: the budget left after it is negative. */
  lemma KickWakesPrefix(l: Leaf, pay: bool, vnow: nat, hwa: nat, hwi: nat)
    requires hwa > 0 && hwi > 0
    ensures var r, p := Kick(l, pay, vnow, hwa, hwi), PayDebt(l, pay, vnow, hwa);
            var n := |l.waitq| - |r.waitq|;
            && 0 <= n && l.waitq == l.waitq[..n] + r.waitq
            && r.vtime == p.vtime + QueueCost(l.waitq[..n], hwi)
            && r.usage == l.usage + Sum(l.waitq[..n])
            && (n > 0 ==> r.vtime <= vnow)
            && (r.waitq != [] ==> Spendable(p, vnow, hwa) < QueueCost(l.waitq[..n + 1], hwi))
  {
    var p := PayDebt(l, pay, vnow, hwa);
    WakesPrefix(p, Spendable(p, vnow, hwa), hwi);
  }

  lemma WakesPrefix(l: Leaf, b: int, h: nat)
    requires h > 0
    ensures var r := Wake(l, b, h);
            var n := |l.waitq| - |r.waitq|;
            && 0 <= n && l.waitq == l.waitq[..n] + r.waitq
            && r.vtime == l.vtime + QueueCost(l.waitq[..n], h)
            && r.usage == l.usage + Sum(l.waitq[..n]) && r.debt == l.debt
            && (n > 0 ==> QueueCost(l.waitq[..n], h) <= b)
            && (r.waitq != [] ==> b < QueueCost(l.waitq[..n + 1], h))
  {
    var n := Woken(l.waitq, h, b);
    WokenIsLongest(l.waitq, h, b, n);
    if n < |l.waitq| {
      WokenIsLongest(l.waitq, h, b, n + 1);
    }
  }

  // ------------------------------------------------------------- conservation

  /** All absolute cost a group has been asked for: accounted or waiting. */
  function Requested(l: Leaf): nat {
    l.usage + Sum(l.waitq)
  }

  lemma {:induction false} SumConcat(a: seq<nat>, b: seq<nat>)
    ensures Sum(a + b) == Sum(a) + Sum(b)
    decreases |a|
  {
    if a == [] {
      assert a + b == b;
    } else {
      assert (a + b)[1..] == a[1..] + b;
      SumConcat(a[1..], b);
    }
  }

  lemma KickConserves(l: Leaf, pay: bool, vnow: nat, hwa: nat, hwi: nat)
    requires hwa > 0 && hwi > 0
    ensures Requested(Kick(l, pay, vnow, hwa, hwi)) == Requested(l)
  {
    var p := PayDebt(l, pay, vnow, hwa);
    WakeConserves(p, Spendable(p, vnow, hwa), hwi);
  }

  lemma WakeConserves(l: Leaf, b: int, h: nat)
    requires h > 0
    ensures Requested(Wake(l, b, h)) == Requested(l)
  {
    var n := Woken(l.waitq, h, b);
    assert l.waitq == l.waitq[..n] + l.waitq[n..];
    SumConcat(l.waitq[..n], l.waitq[n..]);
  }

  /** Every IO is accounted exactly once, at once or when its turn comes, however the
      decision falls; and with others waiting it does not overtake them. */
  lemma ThrottleConserves(l: Leaf, a: nat, useDebt: bool, vnow: nat, hwa: nat, hwi: nat)
    requires hwa > 0 && hwi > 0
    ensures var r := Throttle(l, a, useDebt, vnow, hwa, hwi);
            && Requested(r) == Requested(l) + a
            && (l.waitq != [] && a > 0 && !useDebt ==>
                  |r.waitq| <= |l.waitq| + 1 && r.waitq == (l.waitq + [a])[|l.waitq| + 1 - |r.waitq|..])
  {
    var q := l.(waitq := l.waitq + [a]);
    SumConcat(l.waitq, [a]);
    assert Sum([a]) == a;
    KickConserves(q, l.debt > 0, vnow, hwa, hwi);
    KickWakesPrefix(q, l.debt > 0, vnow, hwa, hwi);
  }

  // ------------------------------------------------------------- in place

  class IocGroup {
    var vtime: nat
    var absVdebt: nat
    var absVusage: nat
    var waitq: seq<nat>

    function View(): Leaf
      reads this
    {
      Leaf(vtime, absVdebt, absVusage, waitq)
    }

    method CommitBio(a: nat, cost: nat)
      modifies this`vtime, this`absVusage
      ensures vtime == old(vtime) + cost && absVusage == old(absVusage) + a
    {
      vtime := vtime + cost;
      absVusage := absVusage + a;
    }

    method IncurDebt(a: nat)
      modifies this`absVdebt, this`absVusage
      ensures absVdebt == old(absVdebt) + a && absVusage == old(absVusage) + a
    {
      absVdebt := absVdebt + a;
      absVusage := absVusage + a;
    }

    /** The wake-up loop; the context's budget goes on to the shortage computation. */
    method WakeUp(budget: int, h: nat) returns (left: int)
      requires h > 0
      modifies this`vtime, this`absVusage, this`waitq
      ensures View() == Wake(old(View()), budget, h)
      ensures waitq != [] ==> left < 0
    {
      left := budget;
      ghost var q := waitq;
      ghost var k := 0;
      while waitq != []
        invariant k <= |q| && waitq == q[k..] && q == old(waitq)
        invariant left == budget - QueueCost(q[..k], h)
        invariant k <= Woken(q, h, budget)
        invariant vtime == old(vtime) + QueueCost(q[..k], h) && absVusage == old(absVusage) + Sum(q[..k])
        decreases |waitq|
      {
        var cost := Cost(waitq[0], h);
        left := left - cost;
        QueueCostSplit(q, k, h);
        WokenIsLongest(q, h, budget, k + 1);
        if left < 0 {
          return;
        }
        CommitBio(waitq[0], cost);
        waitq := waitq[1..];
        k := k + 1;
      }
    }

    /** Paying off debt out of a positive budget. */
    method Pay(budget: nat, hwa: nat) returns (left: int)
      requires hwa > 0 && absVdebt > 0
      modifies this`vtime, this`absVdebt
      ensures View() == PayDebt(old(View()), true, old(vtime) + budget, hwa) || budget == 0
      ensures left == old(vtime) + budget - vtime
    {
      var absBudget := AbsCost(budget, hwa);
      var absPay := if absBudget < absVdebt then absBudget else absVdebt;
      var vpay := Cost(absPay, hwa);
      vtime := vtime + vpay;
      absVdebt := absVdebt - (if absPay < absVdebt then absPay else absVdebt);
      left := budget - vpay;
    }

    /** The first half of iocg_kick_waitq: pay off debt and see what may be spent. */
    method PayFirst(pay: bool, vnow: nat, hwa: nat) returns (budget: int)
      requires hwa > 0
      modifies this`vtime, this`absVdebt
      ensures View() == PayDebt(old(View()), pay, vnow, hwa)
      ensures budget == Spendable(View(), vnow, hwa)
    {
      budget := vnow - vtime;
      if pay && absVdebt != 0 && budget > 0 {
        budget := Pay(budget, hwa);
      }
      assert View() == PayDebt(old(View()), pay, vnow, hwa) && budget == vnow - vtime;
      if absVdebt != 0 {
        var vdebt := Cost(absVdebt, hwa);
        budget := if budget - vdebt < 0 then budget - vdebt else 0;
      }
    }

    /** iocg_kick_waitq; `hwi` is the share read after the payment. */
    method KickWaitq(pay: bool, vnow: nat, hwa: nat, hwi: nat) returns (left: int)
      requires hwa > 0 && hwi > 0
      modifies this
      ensures View() == Kick(old(View()), pay, vnow, hwa, hwi)
      ensures waitq != [] ==> left < 0
    {
      var budget := PayFirst(pay, vnow, hwa);
      left := WakeUp(budget, hwi);
    }

    method ThrottleBio(a: nat, useDebt: bool, vnow: nat, hwa: nat, hwi: nat)
      requires hwa > 0 && hwi > 0
      modifies this
      ensures View() == Throttle(old(View()), a, useDebt, vnow, hwa, hwi)
    {
      if a == 0 {
        return;
      }
      var cost := Cost(a, hwi);
      if waitq == [] && absVdebt == 0 && vtime + cost <= vnow {
        CommitBio(a, cost);
      } else if useDebt {
        IncurDebt(a);
      } else {
        waitq := waitq + [a];
        var left := KickWaitq(absVdebt > 0, vnow, hwa, hwi);
      }
    }

    method MergeBio(a: nat, hasCost: bool, vnow: nat, hwi: nat)
      requires hwi > 0
      modifies this
      ensures View() == Merge(old(View()), a, hasCost, vnow, hwi)
    {
      if a == 0 {
        return;
      }
      var cost := Cost(a, hwi);
      if hasCost && vtime + cost <= vnow {
        CommitBio(a, cost);
      } else {
        IncurDebt(a);
      }
    }
  }
}
