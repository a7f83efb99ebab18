/** struct bfq_sched_data of block/bfq-wf2q.c with its entities: the operations of
    ServiceAccounting as updates in place. */
module SchedulingLevel {
  import opened Arith
  import opened Options
  import opened ServiceTree
  import opened ServiceAccounting

  class SchedData {
    var ents: seq<Ent>
    var trees: seq<Tree3>
    var inService: Option<nat>

    function View(): Sched
      reads this
    {
      Sched(ents, trees, inService)
    }

    constructor (es: seq<Ent>)
      requires forall i :: 0 <= i < |es| ==> EntOk(es[i]) && !es[i].on && es[i].place == Nowhere
      ensures ents == es && Start(View()) && Inv(View())
    {
      ents := es;
      trees := seq(CLASSES, c => Tree3(0, 0, {}, [], None, None));
      inService := None;
      new;
      StartInv(View());
    }

    method TakeFromIdle(i: nat)
      requires Wf(View()) && i < |ents|
      modifies this
      ensures View() == IdleExtract(old(View()), i)
    {
      var e := ents[i];
      assert EntOk(e);
      var t := trees[e.cls];
      if t.first == Some(i) {
        t := t.(first := NextOf(t.idle, i));
      }
      if t.last == Some(i) {
        t := t.(last := PrevOf(t.idle, i));
      }
      trees := trees[e.cls := t.(idle := Remove(t.idle, i))];
      ents := ents[i := e.(place := Nowhere)];
    }

    method PutOnIdle(i: nat)
      requires Wf(View()) && i < |ents|
      modifies this
      ensures View() == IdleInsert(old(View()), i)
    {
      var e := ents[i];
      assert EntOk(e) && TreeWf(View(), e.cls);
      var t := trees[e.cls];
      if t.first.None? || Gt(ents[t.first.value].finish, e.finish) {
        t := t.(first := Some(i));
      }
      if t.last.None? || Gt(e.finish, ents[t.last.value].finish) {
        t := t.(last := Some(i));
      }
      trees := trees[e.cls := t.(idle := InsertByFinish(ents, t.idle, i))];
      ents := ents[i := e.(place := OnIdle)];
    }

    method ForgetEntity(i: nat)
      requires Wf(View()) && i < |ents|
      modifies this
      ensures View() == Forget(old(View()), i)
    {
      ents := ents[i := ents[i].(on := false)];
      assert EntOk(old(ents)[i]);
      var c := ents[i].cls;
      trees := trees[c := trees[c].(wsum := trees[c].wsum - ents[i].weight)];
    }

    /** The weight and class fields of an entity with a pending change. */
    static method UpdatePrio(e0: Ent, classToo: bool) returns (e: Ent)
      ensures e == NewPrio(e0, classToo)
    {
      e := e0;
      if e.newWeight != e.origWeight {
        e := e.(newWeight := ClampWeight(e.newWeight));
        e := e.(origWeight := e.newWeight);
      }
      if e.isQueue && classToo {
        e := e.(cls := e.newCls);
      }
      e := e.(prioChanged := e.isQueue && e.cls != e.newCls);
      e := e.(weight := e.origWeight * (if e.isQueue then e.wrCoeff else 1));
    }

    /** __bfq_entity_update_weight_prio */
    method ApplyPrio(i: nat, classToo: bool)
      requires Wf(View()) && i < |ents|
      modifies this
      ensures View() == UpdateWeightPrio(old(View()), i, classToo)
      ensures Wf(View()) && |ents| == old(|ents|)
    {
      var e := ents[i];
      assert EntOk(e);
      if e.prioChanged {
        var c := e.cls;
        trees := trees[c := trees[c].(wsum := trees[c].wsum - e.weight)];
        e := UpdatePrio(e, classToo);
        trees := trees[e.cls := trees[e.cls].(wsum := trees[e.cls].wsum + e.weight)];
        if e.cls != c {
          e := e.(start := trees[e.cls].vtime);
        }
        ents := ents[i := e];
        assert e == Repriced(old(View()), i, classToo);
      }
    }

    /** The push-up of backshifted timestamps in bfq_update_fin_time_enqueue. */
    static method PushUp(e: Ent, vtime: nat, backshifted: bool) returns (r: Ent)
      requires e.wrCoeff > 0
      ensures r == Pushed(e, vtime, backshifted)
    {
      r := e;
      if backshifted && Gt(vtime, e.finish) {
        var delta := (vtime - e.finish) % U64;
        if e.isQueue {
          DivNonneg(delta, e.wrCoeff);
          delta := delta / e.wrCoeff;
        }
        r := e.(start := (e.start + delta) % U64, finish := (e.finish + delta) % U64);
      }
    }

    /** bfq_update_fin_time_enqueue */
    method FinTimeEnqueue(i: nat, backshifted: bool)
      requires Wf(View()) && i < |ents|
      modifies this
      ensures View() == Enqueue(old(View()), i, backshifted)
    {
      ApplyPrio(i, true);
      var e := ents[i];
      assert EntOk(e);
      var t := trees[e.cls];
      e := PushUp(CalcFinish(e, e.budget), t.vtime, backshifted);
      ents := ents[i := e.(place := OnActive)];
      trees := trees[e.cls := t.(active := t.active + {i})];
    }

    /** __bfq_activate_requeue_entity for an entity that is neither in service nor on
        the active tree. */
    method ActivateEntity(i: nat, nonBlocking: bool)
      requires Inv(View()) && i < |ents| && ents[i].place != OnActive && inService != Some(i)
      modifies this
      ensures View() == Activate(old(View()), i, nonBlocking) && Inv(View())
    {
      ActivateOk(View(), i, nonBlocking);
      var e := ents[i];
      assert EntOk(e);
      var t := trees[e.cls];
      var backshifted := false;
      var minVstart := t.vtime;
      if nonBlocking && Gt(t.vtime, e.finish) {
        backshifted, minVstart := true, e.finish;
      }
      if e.place == OnIdle {
        TakeFromIdle(i);
        ents := ents[i := ents[i].(start := if Gt(minVstart, e.finish) then minVstart else e.finish)];
      } else {
        trees := trees[e.cls := t.(wsum := t.wsum + e.weight)];
        ents := ents[i := e.(start := minVstart, on := true)];
      }
      assert View() == Activating(old(View()), i, nonBlocking);
      FinTimeEnqueue(i, backshifted);
    }

    method TakeFromActive(i: nat)
      requires Wf(View()) && i < |ents|
      modifies this
      ensures View() == ServiceAccounting.ActiveExtract(old(View()), i)
    {
      assert EntOk(ents[i]);
      var c := ents[i].cls;
      trees := trees[c := trees[c].(active := trees[c].active - {i})];
      ents := ents[i := ents[i].(place := Nowhere)];
    }

    /** __bfq_requeue_entity */
    method RequeueEntity(i: nat)
      requires Inv(View()) && i < |ents| && (inService == Some(i) || ents[i].place == OnActive)
      modifies this
      ensures View() == Requeue(old(View()), i) && Inv(View())
    {
      RequeueOk(View(), i);
      assert EntOk(ents[i]);
      if inService == Some(i) {
        var e := CalcFinish(ents[i], ents[i].service);
        ents := ents[i := e.(start := e.finish)];
        WfKept(old(View()), View());
        if ents[i].place != Nowhere {
          TakeFromActive(i);
        }
      } else {
        TakeFromActive(i);
      }
      assert View() == Requeueing(old(View()), i);
      FinTimeEnqueue(i, false);
    }

    /** __bfq_deactivate_entity */
    method DeactivateEntity(i: nat, toIdle: bool) returns (was: bool)
      requires Inv(View()) && i < |ents|
      modifies this
      ensures was == old(ents)[i].on
      ensures View() == Deactivate(old(View()), i, toIdle) && Inv(View())
    {
      DeactivateOk(View(), i, toIdle);
      var e := ents[i];
      if !e.on {
        return false;
      }
      var c := e.cls;
      assert EntOk(e);
      var serving := inService == Some(i);
      e := CalcFinish(e, e.service);
      ents := ents[i := if serving then e else e.(service := 0)];
      WfKept(old(View()), View());
      if e.place == OnActive {
        TakeFromActive(i);
      } else if !serving && e.place == OnIdle {
        TakeFromIdle(i);
      }
      if serving {
        inService := None;
      }
      assert View() == Withdraw(old(View()), i);
      if !toIdle || !Gt(e.finish, trees[c].vtime) {
        ForgetEntity(i);
      } else {
        PutOnIdle(i);
      }
      return true;
    }

    /** bfq_forget_idle */
    method ForgetOneIdle(c: nat)
      requires Inv(View()) && c < CLASSES
      modifies this
      ensures View() == ForgetIdle(old(View()), c) && Inv(View())
    {
      ForgetIdleOk(View(), c);
      assert TreeWf(View(), c);
      var t := trees[c];
      if t.active == {} && t.last.Some? && !Gt(ents[t.last.value].finish, t.vtime) {
        trees := trees[c := t.(vtime := ents[t.last.value].finish)];
      }
      assert View() == SetVtime(old(View()), c, SettledVtime(old(View()), c));
      if t.first.Some? && !Gt(ents[t.first.value].finish, trees[c].vtime) {
        TakeFromIdle(t.first.value);
        ForgetEntity(t.first.value);
      }
    }

    /** bfq_bfqq_served at this level */
    method ServedEntity(i: nat, n: nat)
      requires Inv(View()) && i < |ents| && ents[i].on
      modifies this
      ensures old(trees)[old(ents)[i].cls].wsum > 0
      ensures View() == Served(old(View()), i, n) && Inv(View())
    {
      ServedOk(View(), i, n);
      var c := ents[i].cls;
      assert EntOk(ents[i]);
      ents := ents[i := ents[i].(service := ents[i].service + n)];
      trees := trees[c := trees[c].(vtime := (trees[c].vtime + Delta(n, trees[c].wsum)) % U64)];
      assert View() == Serving(old(View()), i, n);
      ServingInv(old(View()), i, n);
      ForgetOneIdle(c);
    }
  }
}
