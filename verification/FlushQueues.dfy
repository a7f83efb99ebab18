/** struct blk_flush_queue and the functions that update it in place, each
    proved equal to its counterpart on states in module Flush. */
module FlushQueues {
  import opened Flush

  class FlushQueue {
    var lists: seq<seq<nat>>
    var data: seq<nat>
    var pending: nat
    var running: nat
    var since: int
    var refs: nat
    var rqStatus: int
    var rqs: map<nat, Request>
    var sent: set<nat>
    var ended: map<nat, (Request, int)>
    var bypassed: set<nat>
    var bug: bool
    var dev: Device   // the device as far as durability is concerned

    ghost function View(): State
      reads this
    {
      State(lists, data, pending, running, since, refs, rqStatus, rqs, sent, ended, bypassed, dev, bug)
    }

    ghost predicate Wf()
      reads this
    {
      |lists| == 2 && pending < 2 && running < 2
    }

    constructor ()
      ensures View() == Init() && Wf()
    {
      lists, data, pending, running, since := [[], []], [], 0, 0, 0;
      refs, rqStatus, rqs, sent := 0, 0, map[], {};
      ended, bypassed, bug := map[], {}, false;
      dev := Device({}, {}, {}, false);
    }

    /** blk_kick_flush */
    method KickFlush(now: int)
      requires Wf()
      modifies this
      ensures Wf() && View() == Kick(old(View()), now)
    {
      // C1: at most one flush in flight
      if pending != running || lists[pending] == [] {
        return;
      }
      // C2 and C3: wait for data in flight, but not for ever
      if data != [] && now < since + FLUSH_PENDING_TIMEOUT {
        return;
      }
      pending := 1 - pending;
      refs := 1;
      dev := dev.(covers := dev.completed, flushing := true);
    }

    method ListDel(rq: nat)
      requires Wf()
      modifies this
      ensures Wf() && View() == Unlink(old(View()), rq)
    {
      lists := [Without(lists[0], rq), Without(lists[1], rq)];
      data := Without(data, rq);
    }

    method RecordSteps(rq: nat, steps: set<Step>)
      requires Wf() && rq in rqs
      modifies this
      ensures Wf() && View() == Record(old(View()), rq, steps)
    {
      if rqs[rq].done * steps != {} {
        bug := true;
      }
      rqs := rqs[rq := rqs[rq].(done := rqs[rq].done + steps)];
    }

    method MoveToData(rq: nat)
      requires Wf()
      modifies this
      ensures Wf() && View() == QueueData(old(View()), rq)
    {
      ListDel(rq);
      data := data + [rq];
      sent := sent + {rq};
    }

    method MoveToPending(rq: nat, now: int)
      requires Wf()
      modifies this
      ensures Wf() && View() == QueueFlush(old(View()), rq, now)
    {
      if lists[pending] == [] {
        since := now;
      }
      ListDel(rq);
      lists := lists[pending := lists[pending] + [rq]];
    }

    method EndRequest(rq: nat, error: int)
      requires Wf() && rq in rqs
      modifies this
      ensures Wf() && View() == End(old(View()), rq, error)
    {
      ListDel(rq);
      ended := ended[rq := (rqs[rq], error)];
      rqs := rqs - {rq};
    }

    /** blk_flush_complete_seq */
    method CompleteSequence(rq: nat, steps: set<Step>, error: int, now: int)
      requires Wf() && rq in rqs
      modifies this
      ensures Wf() && View() == CompleteSeq(old(View()), rq, steps, error, now)
    {
      RecordSteps(rq, steps);
      match if error == 0 then CurSeq(rqs[rq].done) else Done {
        case At(Data) => MoveToData(rq);
        case At(_) => MoveToPending(rq, now);
        case Done => EndRequest(rq, error);
      }
      KickFlush(now);
    }

    /** flush_end_io */
    method EndIo(error: int, now: int)
      requires Wf() && refs > 0
      modifies this
      ensures Wf() && View() == FlushEndIo(old(View()), error, now)
    {
      refs := refs - 1;
      if refs != 0 {
        rqStatus := error;
        return;
      }
      var e := error;
      if rqStatus != 0 {
        e := rqStatus;
        rqStatus := 0;
      }
      var finished := lists[running];
      if pending == running {
        bug := true;
      }
      running := 1 - running;
      PushAll(finished, e, now);
    }

    /** The loop of flush_end_io.  Completing a request unlinks it, and nothing is
        ever appended to the list being drained, so visiting the requests it held
        is visiting the list. */
    method PushAll(finished: seq<nat>, error: int, now: int)
      requires Wf()
      modifies this
      ensures Wf() && View() == Drain(old(View()), finished, error, now)
    {
      var todo := finished;
      while todo != []
        invariant Wf()
        invariant Drain(View(), todo, error, now) == Drain(old(View()), finished, error, now)
        decreases |todo|
      {
        if todo[0] !in rqs {
          bug := true;
        } else {
          var c := CurSeq(rqs[todo[0]].done);
          if c != At(PreFlush) && c != At(PostFlush) {
            bug := true;
            return;
          }
          CompleteSequence(todo[0], {c.step}, error, now);
        }
        todo := todo[1..];
      }
    }

    /** mq_flush_data_end_io; the device has completed the data write. */
    method DataEndIo(rq: nat, error: int, now: int)
      requires Wf() && rq in rqs
      modifies this
      ensures Wf() && View() == Next(old(View()), DataDone(rq, error, now))
    {
      if error == 0 {
        dev := dev.(completed := dev.completed + {DataOf(rq)});
      }
      CompleteSequence(rq, {Data}, error, now);
    }

    /** blk_insert_flush */
    method Insert(rq: nat, q: QueueFlags, cmd: Cmd, now: int)
      requires Wf()
      modifies this
      ensures Wf() && View() == InsertFlush(old(View()), rq, q, cmd, now)
    {
      var p := Policy(q, cmd);
      if p == {} {
        ended := ended[rq := (Request(q, cmd, {}, dev.completed), 0)];
        return;
      }
      if Data in p && PreFlush !in p && PostFlush !in p {
        bypassed := bypassed + {rq};
        return;
      }
      rqs := rqs[rq := Request(q, cmd, {}, dev.completed)];
      CompleteSequence(rq, ACTIONS - p, 0, now);
    }
  }
}
