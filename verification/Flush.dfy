/** The PREFLUSH/FUA sequencer of block/blk-flush.c.

    A request that needs cache flushes is split into up to three steps,
    PREFLUSH, DATA and POSTFLUSH.  Requests that wait for a flush sit on one of
    two lists (double buffering); requests whose data is being written sit on
    the data list.  The state also carries the part of the device a durability
    argument needs: which writes the device has completed, which of them are on
    stable media, and which of them the flush in flight covers. */
module Flush {

  datatype Step = PreFlush | Data | PostFlush

  const ACTIONS: set<Step> := {PreFlush, Data, PostFlush}

  const HZ := 250
  const FLUSH_PENDING_TIMEOUT := 5 * HZ

  /** QUEUE_FLAG_WC and QUEUE_FLAG_FUA of the request queue. */
  datatype QueueFlags = QueueFlags(wc: bool, fua: bool)

  /** REQ_PREFLUSH, REQ_FUA and the length of a request. */
  datatype Cmd = Cmd(preflush: bool, fua: bool, sectors: nat)

  /** A write the device may have completed: one issued by the sequencer for a
      request's DATA step, or one that never went through the sequencer. */
  datatype Write = DataOf(rq: nat) | Plain(id: nat)

  /** A sequenced request.  `done` is `flush.seq`; `before` records the writes
      that had completed when the request was inserted. */
  datatype Request = Request(q: QueueFlags, cmd: Cmd, done: set<Step>, before: set<Write>)

  datatype Device = Device(completed: set<Write>, durable: set<Write>, covers: set<Write>, flushing: bool)

  datatype State = State(
    lists: seq<seq<nat>>,          // flush_queue[2]
    data: seq<nat>,                // flush_data_in_flight
    pending: nat,                  // flush_pending_idx
    running: nat,                  // flush_running_idx
    since: int,                    // flush_pending_since
    refs: nat,                     // flush_rq->ref
    rqStatus: int,                 // rq_status
    rqs: map<nat, Request>,        // requests inside the machinery
    sent: set<nat>,                // requests whose DATA step was issued
    ended: map<nat, (Request, int)>,
    bypassed: set<nat>,            // queued for normal execution
    dev: Device,
    bug: bool)                     // some BUG_ON has fired

  function Policy(q: QueueFlags, cmd: Cmd): (p: set<Step>)
    ensures Data in p <==> cmd.sectors != 0
    ensures PreFlush in p <==> q.wc && cmd.preflush
    ensures PostFlush in p <==> q.wc && !q.fua && cmd.fua
  {
    (if cmd.sectors != 0 then {Data} else {}) +
    (if q.wc && cmd.preflush then {PreFlush} else {}) +
    (if q.wc && !q.fua && cmd.fua then {PostFlush} else {})
  }

  datatype Cur = At(step: Step) | Done

  /** The lowest step that has not been completed. */
  function CurSeq(steps: set<Step>): (c: Cur)
    ensures c.At? ==> c.step !in steps && (PreFlush !in steps ==> c.step == PreFlush)
    ensures c.At? && Data !in steps ==> c.step != PostFlush
    ensures c.Done? <==> ACTIONS <= steps
  {
    if PreFlush !in steps then At(PreFlush)
    else if Data !in steps then At(Data)
    else if PostFlush !in steps then At(PostFlush)
    else Done
  }

  function Without(l: seq<nat>, rq: nat): (r: seq<nat>)
    ensures forall x :: x in r <==> x in l && x != rq
    ensures NoDup(l) ==> NoDup(r)
    ensures rq !in l ==> r == l
  {
    if l == [] then []
    else if l[0] == rq then Without(l[1..], rq)
    else [l[0]] + Without(l[1..], rq)
  }

  predicate NoDup(l: seq<nat>) {
    l == [] || (l[0] !in l[1..] && NoDup(l[1..]))
  }

  // ---------------------------------------------------------------- the code

  /** blk_kick_flush: issue a flush for the pending list, unless one is in
      flight, nothing is pending, or data is in flight and the oldest pending
      request has not waited long enough.  Issuing toggles the pending index. */
  function Kick(s: State, now: int): State
    requires |s.lists| == 2 && s.pending < 2
  {
    if s.pending != s.running || s.lists[s.pending] == [] then s
    else if s.data != [] && now < s.since + FLUSH_PENDING_TIMEOUT then s
    else s.(pending := 1 - s.pending, refs := 1,
            dev := s.dev.(covers := s.dev.completed, flushing := true))
  }

  function Unlink(s: State, rq: nat): State
    requires |s.lists| == 2
  {
    s.(lists := [Without(s.lists[0], rq), Without(s.lists[1], rq)], data := Without(s.data, rq))
  }

  /** Note the completed steps; completing a step twice is a bug. */
  function Record(s: State, rq: nat, steps: set<Step>): State
    requires rq in s.rqs
  {
    s.(bug := s.bug || s.rqs[rq].done * steps != {},
       rqs := s.rqs[rq := s.rqs[rq].(done := s.rqs[rq].done + steps)])
  }

  function QueueData(s: State, rq: nat): State
    requires |s.lists| == 2
  {
    var t := Unlink(s, rq);
    t.(data := t.data + [rq], sent := t.sent + {rq})
  }

  function QueueFlush(s: State, rq: nat, now: int): State
    requires |s.lists| == 2 && s.pending < 2
  {
    var t := Unlink(s, rq);
    t.(since := if s.lists[s.pending] == [] then now else s.since,
       lists := t.lists[s.pending := t.lists[s.pending] + [rq]])
  }

  function End(s: State, rq: nat, error: int): State
    requires |s.lists| == 2 && rq in s.rqs
  {
    Unlink(s, rq).(rqs := s.rqs - {rq}, ended := s.ended[rq := (s.rqs[rq], error)])
  }

  /** The switch of blk_flush_complete_seq, before the final kick. */
  function Advance(s: State, rq: nat, steps: set<Step>, error: int, now: int): (t: State)
    requires |s.lists| == 2 && s.pending < 2 && rq in s.rqs
    ensures |t.lists| == 2 && t.pending == s.pending && t.running == s.running
  {
    var s1 := Record(s, rq, steps);
    match if error == 0 then CurSeq(s1.rqs[rq].done) else Done
    case At(Data) => QueueData(s1, rq)
    case At(_) => QueueFlush(s1, rq, now)
    case Done => End(s1, rq, error)
  }

  /** blk_flush_complete_seq */
  function CompleteSeq(s: State, rq: nat, steps: set<Step>, error: int, now: int): (t: State)
    requires |s.lists| == 2 && s.pending < 2 && rq in s.rqs
    ensures |t.lists| == 2 && t.pending < 2 && t.running == s.running
  {
    Kick(Advance(s, rq, steps, error, now), now)
  }

  /** The loop of flush_end_io over the requests the finished flush covered. */
  function Drain(s: State, todo: seq<nat>, error: int, now: int): (t: State)
    requires |s.lists| == 2 && s.pending < 2
    ensures |t.lists| == 2 && t.pending < 2 && t.running == s.running
    decreases |todo|
  {
    if todo == [] then s
    else if todo[0] !in s.rqs then Drain(s.(bug := true), todo[1..], error, now)
    else
      var c := CurSeq(s.rqs[todo[0]].done);
      if c == At(PreFlush) || c == At(PostFlush) then
        Drain(CompleteSeq(s, todo[0], {c.step}, error, now), todo[1..], error, now)
      else s.(bug := true)
  }

  /** The status the waiting requests are completed with. */
  function EndStatus(s: State, error: int): int {
    if s.rqStatus != 0 then s.rqStatus else error
  }

  /** The state in which the waiters of a finished flush begin to be drained. */
  function Finished(s: State): State
    requires s.running < 2
  {
    s.(refs := 0, rqStatus := 0, bug := s.bug || s.pending == s.running, running := 1 - s.running)
  }

  /** flush_end_io.  Every holder of a reference to the flush request calls it;
      all but the last only record a status. */
  function FlushEndIo(s: State, error: int, now: int): State
    requires |s.lists| == 2 && s.pending < 2 && s.running < 2 && s.refs > 0
  {
    if s.refs > 1 then s.(refs := s.refs - 1, rqStatus := error)
    else Drain(Finished(s), s.lists[s.running], EndStatus(s, error), now)
  }

  /** blk_insert_flush */
  function InsertFlush(s: State, rq: nat, q: QueueFlags, cmd: Cmd, now: int): State
    requires |s.lists| == 2 && s.pending < 2
  {
    var p := Policy(q, cmd);
    var r := Request(q, cmd, {}, s.dev.completed);
    if p == {} then s.(ended := s.ended[rq := (r, 0)])
    else if Data in p && PreFlush !in p && PostFlush !in p then s.(bypassed := s.bypassed + {rq})
    else CompleteSeq(s.(rqs := s.rqs[rq := r]), rq, ACTIONS - p, 0, now)
  }

  // ------------------------------------------------------------- the machine

  /** What can happen between two holds of mq_flush_lock. */
  datatype Event =
    | Insert(rq: nat, q: QueueFlags, cmd: Cmd, now: int)
    | DataDone(rq: nat, error: int, now: int)  // mq_flush_data_end_io
    | FlushDone(error: int, now: int)          // the device finished the flush
    | GetRef                                   // a tag iterator pins the flush request
    | PutRef(now: int)                         // ... and drops it again
    | WriteDone(id: nat)                       // an ordinary write completes

  function Init(): State {
    State([[], []], [], 0, 0, 0, 0, 0, map[], {}, map[], {}, Device({}, {}, {}, false), false)
  }

  /** When the environment may produce an event.  A request without data asks
      for PREFLUSH only; a request is inserted once; data completes once per
      request in flight; a reference can be taken only while some reference
      exists, and dropped only by a holder. */
  predicate Enabled(s: State, e: Event) {
    match e
    case Insert(rq, q, cmd, now) =>
      rq !in s.rqs && rq !in s.ended && rq !in s.bypassed && rq !in s.sent &&
      (cmd.sectors == 0 ==> !cmd.fua)
    case DataDone(rq, error, now) => rq in s.data
    case FlushDone(error, now) => s.dev.flushing
    case GetRef => s.refs > 0
    case PutRef(now) => s.refs > (if s.dev.flushing then 1 else 0)
    case WriteDone(id) => true
  }

  /** The one place where flush_end_io forgets a failure: a reference that is
      not the last one is dropped while rq_status holds an error. */
  predicate ForgetsError(s: State, e: Event) {
    e.PutRef? && s.refs > 1 && s.rqStatus != 0
  }

  /** The request waits for the flush in flight, to complete the given step. */
  predicate WaitsFor(s: State, rq: nat, step: Step)
    requires |s.lists| == 2 && s.running < 2
  {
    rq in s.lists[s.running] && rq in s.rqs && CurSeq(s.rqs[rq].done) == At(step)
  }

  /** The requests a step lets down, each with the flush it waits for: those waiting for
      the flush whose failure is forgotten. */
  function LetDown(s: State, e: Event): set<(nat, Step)>
    requires |s.lists| == 2 && s.running < 2
  {
    if ForgetsError(s, e)
    then set rq, st | rq in s.lists[s.running] && st in ACTIONS && WaitsFor(s, rq, st) :: (rq, st)
    else {}
  }

  /** The device's own completion, before it is handed to flush_end_io. */
  function Settled(s: State, error: int): State {
    var d := s.dev.(flushing := false);
    s.(dev := if error == 0 then d.(durable := d.durable + d.covers) else d)
  }

  /** One step.  A completion for which no request or reference exists would be
      a bug as well. */
  function Next(s: State, e: Event): (t: State)
    requires |s.lists| == 2 && s.pending < 2 && s.running < 2
    ensures |t.lists| == 2 && t.pending < 2 && t.running < 2
  {
    match e
    case Insert(rq, q, cmd, now) => InsertFlush(s, rq, q, cmd, now)
    case DataDone(rq, error, now) =>
      if rq !in s.rqs then s.(bug := true)
      else
        var s1 := if error == 0 then s.(dev := s.dev.(completed := s.dev.completed + {DataOf(rq)})) else s;
        CompleteSeq(s1, rq, {Data}, error, now)
    case FlushDone(error, now) =>
      if s.refs == 0 then s.(bug := true) else FlushEndIo(Settled(s, error), error, now)
    case GetRef => s.(refs := s.refs + 1)
    case PutRef(now) => if s.refs == 0 then s.(bug := true) else FlushEndIo(s, 0, now)
    case WriteDone(id) => s.(dev := s.dev.(completed := s.dev.completed + {Plain(id)}))
  }

  // ------------------------------------------------------------- invariants

  /** The completed steps of a request are those it does not need plus an
      initial segment of those it needs. */
  ghost predicate Sequenced(r: Request) {
    var p := Policy(r.q, r.cmd);
    && ACTIONS - p <= r.done
    && (PostFlush in p ==> Data in p)
    && (Data in p && Data in r.done ==> PreFlush in r.done)
    && (PostFlush in p && PostFlush in r.done ==> Data in r.done)
  }

  ghost predicate OnOneList(s: State, rq: nat)
    requires |s.lists| == 2
  {
    || (rq in s.lists[0] && rq !in s.lists[1] && rq !in s.data)
    || (rq !in s.lists[0] && rq in s.lists[1] && rq !in s.data)
    || (rq !in s.lists[0] && rq !in s.lists[1] && rq in s.data)
  }

  ghost predicate OnNoList(s: State, rq: nat)
    requires |s.lists| == 2
  {
    rq !in s.lists[0] && rq !in s.lists[1] && rq !in s.data
  }

  /** A request is on the list its current step calls for. */
  ghost predicate AtItsStep(s: State, rq: nat)
    requires rq in s.rqs
  {
    && Sequenced(s.rqs[rq])
    && rq !in s.ended
    && (if rq in s.data then CurSeq(s.rqs[rq].done) == At(Data) && rq in s.sent
        else CurSeq(s.rqs[rq].done) in {At(PreFlush), At(PostFlush)})
  }

  ghost predicate Shape(s: State) {
    && |s.lists| == 2 && s.pending < 2 && s.running < 2
    && NoDup(s.lists[0]) && NoDup(s.lists[1]) && NoDup(s.data)
  }

  /** Every request in the machinery is on exactly one list, the one its
      current step calls for, and nothing else is on any list. */
  ghost predicate Placed(s: State) {
    && Shape(s)
    && (forall rq :: rq in s.rqs ==> OnOneList(s, rq) && AtItsStep(s, rq))
    && (forall rq :: rq !in s.rqs ==> OnNoList(s, rq))
  }

  /** The same, with nothing said about one request. */
  ghost predicate PlacedBut(s: State, x: nat) {
    && Shape(s)
    && (forall rq :: rq in s.rqs && rq != x ==> OnOneList(s, rq) && AtItsStep(s, rq))
    && (forall rq :: rq !in s.rqs && rq != x ==> OnNoList(s, rq))
  }

  /** What a request has secured by the time it reaches its current step; a request let
      down at PREFLUSH may lack what that flush was for. */
  ghost predicate Secured(s: State, rq: nat, r: Request, m: set<(nat, Step)>) {
    var p := Policy(r.q, r.cmd);
    && r.before <= s.dev.completed
    && (PreFlush in p && (PreFlush in r.done || rq in s.sent) ==> Ordered(s, rq, r, m))
    && (Data in p && Data in r.done ==> DataOf(rq) in s.dev.completed)
  }

  ghost predicate Ordered(s: State, rq: nat, r: Request, m: set<(nat, Step)>) {
    r.before <= s.dev.durable || (rq, PreFlush) in m
  }

  /** What the writes covered by a flush mean for a request waiting for it. */
  ghost predicate CoveredBy(w: set<Write>, rq: nat, r: Request) {
    && (PreFlush !in r.done ==> r.before <= w)
    && (PreFlush in r.done ==> DataOf(rq) in w)
  }

  /** The durability promise made by ending a request without error. */
  ghost predicate Kept(s: State, rq: nat, r: Request, m: set<(nat, Step)>) {
    && (r.q.wc && r.cmd.preflush ==> Ordered(s, rq, r, m))
    && (r.q.wc && !r.q.fua && r.cmd.fua ==> DataOf(rq) in s.dev.durable || (rq, PostFlush) in m)
  }

  ghost predicate EndedWell(s: State, rq: nat, r: Request, error: int, m: set<(nat, Step)>) {
    && (error == 0 ==> Kept(s, rq, r, m))
    && (rq in s.sent && r.q.wc && r.cmd.preflush ==> Ordered(s, rq, r, m))
  }

  /** Every request has what it was promised, except for the flushes in `m`. */
  ghost predicate History(s: State, m: set<(nat, Step)>) {
    && s.dev.durable <= s.dev.completed && s.dev.covers <= s.dev.completed
    && (forall rq :: rq in s.rqs ==> Secured(s, rq, s.rqs[rq], m))
    && (forall rq :: rq in s.ended ==> EndedWell(s, rq, s.ended[rq].0, s.ended[rq].1, m))
  }

  ghost predicate Covers(s: State, w: set<Write>, l: seq<nat>) {
    forall rq :: rq in l && rq in s.rqs ==> CoveredBy(w, rq, s.rqs[rq])
  }

  /** The flush the request waits for is one it was let down by. */
  ghost predicate Excused(r: Request, rq: nat, m: set<(nat, Step)>) {
    CurSeq(r.done).At? && (rq, CurSeq(r.done).step) in m
  }

  ghost predicate AllExcused(s: State, l: seq<nat>, m: set<(nat, Step)>) {
    forall rq :: rq in l && rq in s.rqs ==> Excused(s.rqs[rq], rq, m)
  }

  /** The flush in flight covers everything its waiters need; once the device
      is done with it, either that is durable, or rq_status remembers a failure, or
      the waiters have been let down. */
  ghost predicate InFlight(s: State, m: set<(nat, Step)>)
    requires |s.lists| == 2 && s.running < 2
  {
    && s.lists[s.running] != [] && s.refs > 0
    && Covers(s, s.dev.covers, s.lists[s.running])
    && (s.dev.flushing ==> s.rqStatus == 0)
    && (!s.dev.flushing && s.rqStatus == 0 ==>
          s.dev.covers <= s.dev.durable || AllExcused(s, s.lists[s.running], m))
  }

  ghost predicate Quiet(s: State)
    requires |s.lists| == 2 && s.running < 2
  {
    s.lists[1 - s.running] == [] && s.refs == 0 && s.rqStatus == 0 && !s.dev.flushing
  }

  /** A waiting request always has something in flight to wait for. */
  ghost predicate NoStall(s: State)
    requires |s.lists| == 2 && s.pending < 2
  {
    s.lists[s.pending] != [] ==> s.pending != s.running || s.data != []
  }

  /** Placement, progress and no BUG_ON in any case; durability for every flush of
      every request that is not in `m`. */
  ghost predicate Inv(s: State, m: set<(nat, Step)>) {
    Core(s, m) && NoStall(s)
  }

  // ----------------------------------------------------------------- proofs

  /** Everything but NoStall: what holds just before a kick. */
  ghost predicate Core(s: State, m: set<(nat, Step)>) {
    && Placed(s) && History(s, m) && !s.bug
    && (if s.pending != s.running then InFlight(s, m) else Quiet(s))
  }

  /** The same requests on the same lists, with the device moved on. */
  ghost predicate Carried(s: State, t: State) {
    && t.lists == s.lists && t.data == s.data && t.rqs == s.rqs && t.sent == s.sent && t.ended == s.ended
    && t.pending < 2 && t.running < 2
    && s.dev.completed <= t.dev.completed && s.dev.durable <= t.dev.durable
    && t.dev.durable <= t.dev.completed && t.dev.covers <= t.dev.completed
  }

  lemma Carry(s: State, t: State, m: set<(nat, Step)>)
    requires Placed(s) && History(s, m) && Carried(s, t)
    ensures Placed(t) && History(t, m)
  {
    forall rq | rq in t.rqs ensures OnOneList(t, rq) && AtItsStep(t, rq) {
      assert OnOneList(s, rq) && AtItsStep(s, rq);
    }
    forall rq | rq !in t.rqs ensures OnNoList(t, rq) {
      assert OnNoList(s, rq);
    }
    forall rq | rq in t.rqs ensures Secured(t, rq, t.rqs[rq], m) {
      assert Secured(s, rq, s.rqs[rq], m);
    }
    forall rq | rq in t.ended ensures EndedWell(t, rq, t.ended[rq].0, t.ended[rq].1, m) {
      assert EndedWell(s, rq, s.ended[rq].0, s.ended[rq].1, m);
    }
  }

  /** Issuing a flush keeps every request in place and covers what the
      requests waiting for it need. */
  lemma KickIssues(s: State, now: int, m: set<(nat, Step)>)
    requires Placed(s) && History(s, m) && s.pending == s.running && s.rqStatus == 0 && Kick(s, now) != s
    ensures var t := Kick(s, now); Placed(t) && History(t, m) && InFlight(t, m)
  {
    var t := Kick(s, now);
    Carry(s, t, m);
    forall rq | rq in t.lists[t.running] && rq in t.rqs ensures CoveredBy(t.dev.covers, rq, t.rqs[rq]) {
      assert OnOneList(s, rq) && AtItsStep(s, rq) && Secured(s, rq, s.rqs[rq], m);
    }
  }

  lemma KickInv(s: State, now: int, m: set<(nat, Step)>)
    requires Core(s, m)
    ensures Inv(Kick(s, now), m)
  {
    if Kick(s, now) != s {
      KickIssues(s, now, m);
    }
  }

  lemma NoDupAppend(l: seq<nat>, x: nat)
    requires NoDup(l) && x !in l
    ensures NoDup(l + [x])
  {
    if l != [] {
      assert (l + [x])[1..] == l[1..] + [x];
      NoDupAppend(l[1..], x);
    }
  }

  lemma UnlinkPlaced(s: State, rq: nat)
    requires PlacedBut(s, rq)
    ensures PlacedBut(Unlink(s, rq), rq) && OnNoList(Unlink(s, rq), rq)
  {
    var t := Unlink(s, rq);
    forall x | x in t.rqs && x != rq ensures OnOneList(t, x) && AtItsStep(t, x) {
      assert OnOneList(s, x) && AtItsStep(s, x);
    }
    forall x | x !in t.rqs && x != rq ensures OnNoList(t, x) {
      assert OnNoList(s, x);
    }
  }

  /** Adding an unlinked request to the list for its step. */
  lemma LinkPlaced(s: State, t: State, rq: nat)
    requires PlacedBut(s, rq) && OnNoList(s, rq) && rq in t.rqs
    requires s.rqs - {rq} == t.rqs - {rq} && s.ended == t.ended && s.sent <= t.sent
    requires s.pending == t.pending && s.running == t.running && AtItsStep(t, rq)
    requires if CurSeq(t.rqs[rq].done) == At(Data)
             then t.lists == s.lists && t.data == s.data + [rq]
             else t.data == s.data && t.lists == s.lists[s.pending := s.lists[s.pending] + [rq]]
    ensures Placed(t)
  {
    NoDupAppend(s.lists[s.pending], rq);
    NoDupAppend(s.data, rq);
    forall x | x in t.rqs && x != rq ensures OnOneList(t, x) && AtItsStep(t, x) {
      assert x in t.rqs - {rq} && (s.rqs - {rq})[x] == (t.rqs - {rq})[x];
      assert OnOneList(s, x) && AtItsStep(s, x);
    }
    forall x | x !in t.rqs ensures OnNoList(t, x) {
      assert x !in t.rqs - {rq};
      assert OnNoList(s, x);
    }
  }

  lemma AdvancePlaced(s: State, rq: nat, steps: set<Step>, error: int, now: int)
    requires PlacedBut(s, rq) && rq in s.rqs && rq !in s.ended
    requires Sequenced(s.rqs[rq].(done := s.rqs[rq].done + steps))
    ensures Placed(Advance(s, rq, steps, error, now))
  {
    UnlinkPlaced(s, rq);
    if error != 0 || CurSeq(s.rqs[rq].done + steps) == Done {
      EndPlaced(s, rq, steps, error, now);
    } else {
      MoveEffect(s, rq, steps, now);
      LinkPlaced(Unlink(s, rq), Advance(s, rq, steps, 0, now), rq);
    }
  }

  lemma MoveEffect(s: State, rq: nat, steps: set<Step>, now: int)
    requires |s.lists| == 2 && s.pending < 2 && rq in s.rqs
    requires CurSeq(s.rqs[rq].done + steps) != Done
    ensures var r := s.rqs[rq].(done := s.rqs[rq].done + steps);
            var t := Advance(s, rq, steps, 0, now);
            var u := Unlink(s, rq);
            && s.rqs - {rq} == t.rqs - {rq} && rq in t.rqs && t.rqs[rq] == r
            && t.ended == s.ended && t.bypassed == s.bypassed && t.running == s.running && t.dev == s.dev
            && t.refs == s.refs && t.rqStatus == s.rqStatus
            && (if CurSeq(r.done) == At(Data)
                then t.lists == u.lists && t.data == u.data + [rq] && t.sent == s.sent + {rq}
                else t.data == u.data && t.lists == u.lists[s.pending := u.lists[s.pending] + [rq]] && t.sent == s.sent)
  {
  }

  lemma EndEffect(s: State, rq: nat, steps: set<Step>, error: int, now: int)
    requires |s.lists| == 2 && s.pending < 2 && rq in s.rqs
    requires error != 0 || CurSeq(s.rqs[rq].done + steps) == Done
    ensures var t := Advance(s, rq, steps, error, now);
            var u := Unlink(s, rq);
            && t.rqs == s.rqs - {rq} && t.lists == u.lists && t.data == u.data && t.sent == s.sent
            && t.ended == s.ended[rq := (s.rqs[rq].(done := s.rqs[rq].done + steps), error)]
            && t.bypassed == s.bypassed
            && t.running == s.running && t.dev == s.dev && t.refs == s.refs && t.rqStatus == s.rqStatus
  {
  }

  lemma EndPlaced(s: State, rq: nat, steps: set<Step>, error: int, now: int)
    requires PlacedBut(s, rq) && rq in s.rqs
    requires PlacedBut(Unlink(s, rq), rq) && OnNoList(Unlink(s, rq), rq)
    requires error != 0 || CurSeq(s.rqs[rq].done + steps) == Done
    ensures Placed(Advance(s, rq, steps, error, now))
  {
    var t := Advance(s, rq, steps, error, now);
    var u := Unlink(s, rq);
    EndEffect(s, rq, steps, error, now);
    forall x | x in t.rqs ensures OnOneList(t, x) && AtItsStep(t, x) {
      assert x != rq && t.rqs[x] == u.rqs[x];
      assert OnOneList(u, x) && AtItsStep(u, x);
    }
    forall x | x !in t.rqs ensures OnNoList(t, x) {
      assert x != rq ==> OnNoList(u, x);
    }
  }

  lemma AdvanceHistory(s: State, rq: nat, steps: set<Step>, error: int, now: int, m: set<(nat, Step)>)
    requires |s.lists| == 2 && s.pending < 2 && rq in s.rqs && History(s, m)
    requires var r := s.rqs[rq].(done := s.rqs[rq].done + steps);
             if error != 0 then true
             else Secured(s, rq, r, m) && (CurSeq(r.done) == Done ==> Kept(s, rq, r, m)) &&
                  (CurSeq(r.done) == At(Data) ==> PreFlush in r.done)
    requires rq !in s.ended
    ensures History(Advance(s, rq, steps, error, now), m)
  {
    var t := Advance(s, rq, steps, error, now);
    forall x | x in t.rqs ensures Secured(t, x, t.rqs[x], m) {
      assert Secured(s, x, s.rqs[x], m);
    }
    assert Secured(s, rq, s.rqs[rq], m);
    forall x | x in t.ended ensures EndedWell(t, x, t.ended[x].0, t.ended[x].1, m) {
      assert x != rq ==> EndedWell(s, x, s.ended[x].0, s.ended[x].1, m);
    }
  }

  /** What holds at the head of the loop in flush_end_io: the list being drained
      is the one that is not running any more, even if a nested kick has already
      made it the pending list again. */
  ghost predicate Draining(s: State, todo: seq<nat>, error: int, m: set<(nat, Step)>) {
    && Placed(s) && History(s, m) && !s.bug && s.lists[1 - s.running] == todo
    && (error == 0 ==> Covers(s, s.dev.durable, todo) || AllExcused(s, todo, m))
    && (if s.pending != s.running then InFlight(s, m) else s.refs == 0 && s.rqStatus == 0 && !s.dev.flushing)
  }

  /** A request leaving the flush it waited for goes on to DATA or is done. */
  lemma AfterFlush(s: State, rq: nat, m: set<(nat, Step)>, kept: bool)
    requires rq in s.rqs && AtItsStep(s, rq) && rq !in s.data
    requires kept ==> Secured(s, rq, s.rqs[rq], m)
    requires kept ==> CoveredBy(s.dev.durable, rq, s.rqs[rq]) || Excused(s.rqs[rq], rq, m)
    ensures var c := CurSeq(s.rqs[rq].done);
            c in {At(PreFlush), At(PostFlush)} &&
            var r := s.rqs[rq].(done := s.rqs[rq].done + {c.step});
            && CurSeq(r.done) in {At(Data), Done} && Sequenced(r)
            && (kept ==> Secured(s, rq, r, m) && (CurSeq(r.done) == Done ==> Kept(s, rq, r, m)))
  {
  }

  /** Kick in the middle of a drain. */
  lemma KickDraining(s: State, todo: seq<nat>, error: int, now: int, m: set<(nat, Step)>)
    requires Draining(s, todo, error, m)
    ensures Draining(Kick(s, now), todo, error, m) && NoStall(Kick(s, now))
  {
    if Kick(s, now) != s {
      KickIssues(s, now, m);
    }
  }

  lemma DrainStep(s: State, todo: seq<nat>, error: int, now: int, m: set<(nat, Step)>)
    requires Draining(s, todo, error, m) && todo != []
    ensures todo[0] in s.rqs
    ensures var c := CurSeq(s.rqs[todo[0]].done);
            c in {At(PreFlush), At(PostFlush)} &&
            var t := CompleteSeq(s, todo[0], {c.step}, error, now);
            Draining(t, todo[1..], error, m) && NoStall(t)
  {
    var rq := todo[0];
    assert todo[0] in s.lists[1 - s.running];
    assert !OnNoList(s, rq);
    assert OnOneList(s, rq) && AtItsStep(s, rq);
    AfterFlush(s, rq, m, error == 0);
    var step := CurSeq(s.rqs[rq].done).step;
    AdvancePlaced(s, rq, {step}, error, now);
    AdvanceHistory(s, rq, {step}, error, now, m);
    LeavesFlush(s, rq, error, step, now);
    DrainMoves(s, Advance(s, rq, {step}, error, now), todo, error, m);
    KickDraining(Advance(s, rq, {step}, error, now), todo[1..], error, now, m);
  }

  /** Completing `rq` changed nothing but `rq`, which left the flush lists. */
  ghost predicate Left(s: State, t: State, rq: nat)
    requires |s.lists| == 2
  {
    && t.rqs - {rq} == s.rqs - {rq} && t.lists == Unlink(s, rq).lists
    && t.pending == s.pending && t.running == s.running && t.bug == s.bug
    && t.dev == s.dev && t.refs == s.refs && t.rqStatus == s.rqStatus
  }

  lemma LeavesFlush(s: State, rq: nat, error: int, step: Step, now: int)
    requires |s.lists| == 2 && s.pending < 2 && rq in s.rqs && step !in s.rqs[rq].done
    requires CurSeq(s.rqs[rq].done + {step}) in {At(Data), Done}
    ensures Left(s, Advance(s, rq, {step}, error, now), rq)
  {
    if error != 0 || CurSeq(s.rqs[rq].done + {step}) == Done {
      EndEffect(s, rq, {step}, error, now);
      assert s.rqs - {rq} - {rq} == s.rqs - {rq};
    } else {
      MoveEffect(s, rq, {step}, now);
    }
  }

  /** Requests other than `rq` are the same in both states. */
  lemma SameOthers(s: State, t: State, rq: nat)
    requires t.rqs - {rq} == s.rqs - {rq}
    ensures forall x :: x != rq && x in t.rqs ==> x in s.rqs && t.rqs[x] == s.rqs[x]
    ensures forall x :: x != rq && x in s.rqs ==> x in t.rqs && t.rqs[x] == s.rqs[x]
  {
    forall x | x != rq && (x in t.rqs || x in s.rqs) ensures x in s.rqs && x in t.rqs && t.rqs[x] == s.rqs[x] {
      assert x in t.rqs - {rq} && (t.rqs - {rq})[x] == (s.rqs - {rq})[x];
    }
  }

  /** The drained request leaves its list; the other flush list is untouched. */
  lemma DrainMoves(s: State, t: State, todo: seq<nat>, error: int, m: set<(nat, Step)>)
    requires Draining(s, todo, error, m) && todo != [] && OnOneList(s, todo[0])
    requires Left(s, t, todo[0]) && Placed(t) && History(t, m)
    ensures Draining(t, todo[1..], error, m)
  {
    var rq := todo[0];
    assert Without(todo, rq) == todo[1..];
    SameOthers(s, t, rq);
    assert t.lists[t.running] == s.lists[s.running];
  }

  lemma DrainInv(s: State, todo: seq<nat>, error: int, now: int, m: set<(nat, Step)>)
    requires Draining(s, todo, error, m) && (todo == [] ==> NoStall(s))
    ensures Inv(Drain(s, todo, error, now), m)
    decreases |todo|
  {
    if todo != [] {
      DrainStep(s, todo, error, now, m);
      var c := CurSeq(s.rqs[todo[0]].done);
      DrainInv(CompleteSeq(s, todo[0], {c.step}, error, now), todo[1..], error, now, m);
    }
  }

  /** What flush_end_io finds when the last reference to the flush goes away. */
  ghost predicate LastCall(s: State, error: int, m: set<(nat, Step)>) {
    && Placed(s) && History(s, m) && !s.bug && s.pending != s.running
    && s.lists[s.running] != [] && s.refs == 1 && !s.dev.flushing
    && Covers(s, s.dev.covers, s.lists[s.running])
    && (error == 0 && s.rqStatus == 0 ==>
          s.dev.covers <= s.dev.durable || AllExcused(s, s.lists[s.running], m))
  }

  lemma LastRefDrains(s: State, error: int, m: set<(nat, Step)>)
    requires LastCall(s, error, m)
    ensures Draining(Finished(s), s.lists[s.running], EndStatus(s, error), m)
  {
    Carry(s, Finished(s), m);
    assert Covers(s, s.dev.covers, s.lists[s.running]);
  }

  lemma LastRefInv(s: State, error: int, now: int, m: set<(nat, Step)>)
    requires LastCall(s, error, m)
    ensures Inv(FlushEndIo(s, error, now), m)
  {
    LastRefDrains(s, error, m);
    DrainInv(Finished(s), s.lists[s.running], EndStatus(s, error), now, m);
  }

  lemma SettledCall(s: State, error: int, m: set<(nat, Step)>)
    requires Inv(s, m) && s.dev.flushing
    ensures Placed(Settled(s, error)) && History(Settled(s, error), m) && s.refs > 0
    ensures s.refs == 1 ==> LastCall(Settled(s, error), error, m)
  {
    Carry(s, Settled(s, error), m);
  }

  lemma FlushDoneInv(s: State, e: Event, m: set<(nat, Step)>)
    requires Inv(s, m) && e.FlushDone? && Enabled(s, e)
    ensures Inv(Next(s, e), m)
  {
    SettledCall(s, e.error, m);
    if s.refs == 1 {
      LastRefInv(Settled(s, e.error), e.error, e.now, m);
    } else {
      Carry(s, Next(s, e), m);
    }
  }

  lemma HistoryMonotone(s: State, m: set<(nat, Step)>, m': set<(nat, Step)>)
    requires Inv(s, m) && m <= m'
    ensures Inv(s, m')
  {
    forall rq | rq in s.rqs ensures Secured(s, rq, s.rqs[rq], m') {
      assert Secured(s, rq, s.rqs[rq], m);
    }
    forall rq | rq in s.ended ensures EndedWell(s, rq, s.ended[rq].0, s.ended[rq].1, m') {
      assert EndedWell(s, rq, s.ended[rq].0, s.ended[rq].1, m);
    }
  }

  lemma RefInv(s: State, e: Event, m: set<(nat, Step)>)
    requires Inv(s, m) && (e.GetRef? || e.PutRef?) && Enabled(s, e)
    ensures Inv(Next(s, e), m + LetDown(s, e))
  {
    if e.PutRef? && s.refs == 1 {
      LastRefInv(s, 0, e.now, m);
      assert m + LetDown(s, e) == m;
    } else {
      HistoryMonotone(s, m, m + LetDown(s, e));
      Carry(s, Next(s, e), m + LetDown(s, e));
    }
  }

  lemma DataDoneInv(s: State, e: Event, m: set<(nat, Step)>)
    requires Inv(s, m) && e.DataDone? && Enabled(s, e)
    ensures Inv(Next(s, e), m)
  {
    var d := if e.error == 0 then s.dev.(completed := s.dev.completed + {DataOf(e.rq)}) else s.dev;
    var t := s.(dev := d);
    Carry(s, t, m);
    AdvanceData(t, e.rq, e.error, e.now, m);
    KickInv(Advance(t, e.rq, {Data}, e.error, e.now), e.now, m);
  }

  /** A request being written is on the data list only, at its DATA step. */
  lemma DataPlace(s: State, rq: nat)
    requires Placed(s) && rq in s.data
    ensures rq in s.rqs && rq !in s.ended && OnNoFlushList(s, rq)
    ensures Data !in s.rqs[rq].done && CurSeq(s.rqs[rq].done) == At(Data)
  {
    assert !OnNoList(s, rq);
    assert OnOneList(s, rq) && AtItsStep(s, rq);
  }

  lemma AdvanceData(t: State, rq: nat, error: int, now: int, m: set<(nat, Step)>)
    requires Core(t, m) && rq in t.data && (error == 0 ==> DataOf(rq) in t.dev.completed)
    ensures rq in t.rqs && Core(Advance(t, rq, {Data}, error, now), m)
  {
    DataPlace(t, rq);
    assert AtItsStep(t, rq) && Secured(t, rq, t.rqs[rq], m);
    AdvancePlaced(t, rq, {Data}, error, now);
    AdvanceHistory(t, rq, {Data}, error, now, m);
    LeavesData(t, rq, error, now);
    DataMoves(t, Advance(t, rq, {Data}, error, now), rq, m);
  }

  /** A request that joins the pending list, if it joins any flush list, leaves
      the flush in flight alone. */
  ghost predicate Joined(s: State, t: State, rq: nat)
    requires Shape(s)
  {
    && t.rqs - {rq} == s.rqs - {rq}
    && (t.lists == s.lists || t.lists == s.lists[s.pending := s.lists[s.pending] + [rq]])
    && t.pending == s.pending && t.running == s.running && t.bug == s.bug
    && t.dev == s.dev && t.refs == s.refs && t.rqStatus == s.rqStatus
  }

  lemma LeavesData(s: State, rq: nat, error: int, now: int)
    requires Shape(s) && rq in s.rqs && Data !in s.rqs[rq].done
    requires rq !in s.lists[0] && rq !in s.lists[1]
    requires CurSeq(s.rqs[rq].done) == At(Data)
    ensures Joined(s, Advance(s, rq, {Data}, error, now), rq)
  {
    if error != 0 || CurSeq(s.rqs[rq].done + {Data}) == Done {
      EndEffect(s, rq, {Data}, error, now);
      assert s.rqs - {rq} - {rq} == s.rqs - {rq};
    } else {
      MoveEffect(s, rq, {Data}, now);
    }
  }

  lemma DataMoves(s: State, t: State, rq: nat, m: set<(nat, Step)>)
    requires Core(s, m) && OnNoFlushList(s, rq)
    requires Joined(s, t, rq) && Placed(t) && History(t, m)
    ensures Core(t, m)
  {
    SameOthers(s, t, rq);
    assert s.pending != s.running ==> t.lists[t.running] == s.lists[s.running];
  }

  ghost predicate OnNoFlushList(s: State, rq: nat)
    requires |s.lists| == 2
  {
    rq !in s.lists[0] && rq !in s.lists[1]
  }

  lemma InsertInv(s: State, e: Event, m: set<(nat, Step)>)
    requires Inv(s, m) && e.Insert? && Enabled(s, e)
    ensures Inv(Next(s, e), m)
  {
    var p := Policy(e.q, e.cmd);
    if p == {} {
      InsertEmpty(s, e.rq, Request(e.q, e.cmd, {}, s.dev.completed), m);
    } else if Data in p && PreFlush !in p && PostFlush !in p {
      Carry(s, Next(s, e), m);
    } else {
      var s1 := s.(rqs := s.rqs[e.rq := Request(e.q, e.cmd, {}, s.dev.completed)]);
      InsertSequenced(s, s1, e.rq, e.now, m);
      KickInv(Advance(s1, e.rq, ACTIONS - p, 0, e.now), e.now, m);
    }
  }

  lemma InsertSequenced(s: State, s1: State, rq: nat, now: int, m: set<(nat, Step)>)
    requires Inv(s, m) && rq !in s.rqs && rq !in s.sent && rq !in s.ended && rq in s1.rqs
    requires s1 == s.(rqs := s.rqs[rq := s1.rqs[rq]])
    requires var r := s1.rqs[rq];
             && r.done == {} && r.before == s.dev.completed && Policy(r.q, r.cmd) != {}
             && (r.cmd.sectors == 0 ==> !r.cmd.fua)
    ensures Core(Advance(s1, rq, ACTIONS - Policy(s1.rqs[rq].q, s1.rqs[rq].cmd), 0, now), m)
  {
    var p := Policy(s1.rqs[rq].q, s1.rqs[rq].cmd);
    InsertBase(s, s1, rq, m);
    AdvancePlaced(s1, rq, ACTIONS - p, 0, now);
    AdvanceHistory(s1, rq, ACTIONS - p, 0, now, m);
    InsertJoins(s, s1, rq, now);
    DataMoves(s, Advance(s1, rq, ACTIONS - p, 0, now), rq, m);
  }

  lemma InsertEmpty(s: State, rq: nat, r: Request, m: set<(nat, Step)>)
    requires Inv(s, m) && rq !in s.rqs && rq !in s.ended && Policy(r.q, r.cmd) == {}
    ensures Inv(s.(ended := s.ended[rq := (r, 0)]), m)
  {
    var t := s.(ended := s.ended[rq := (r, 0)]);
    forall x | x in t.rqs ensures OnOneList(t, x) && AtItsStep(t, x) {
      assert OnOneList(s, x) && AtItsStep(s, x);
    }
    forall x | x in t.rqs ensures Secured(t, x, t.rqs[x], m) {
      assert Secured(s, x, s.rqs[x], m);
    }
    forall x | x !in t.rqs ensures OnNoList(t, x) {
      assert OnNoList(s, x);
    }
    forall x | x in t.ended ensures EndedWell(t, x, t.ended[x].0, t.ended[x].1, m) {
      assert x != rq ==> EndedWell(s, x, s.ended[x].0, s.ended[x].1, m);
    }
  }

  lemma InsertBase(s: State, s1: State, rq: nat, m: set<(nat, Step)>)
    requires Inv(s, m) && rq !in s.rqs && rq !in s.sent && rq in s1.rqs
    requires s1 == s.(rqs := s.rqs[rq := s1.rqs[rq]])
    requires s1.rqs[rq].done == {} && s1.rqs[rq].before == s.dev.completed
    ensures PlacedBut(s1, rq) && History(s1, m) && OnNoList(s, rq)
  {
    forall x | x in s1.rqs && x != rq ensures OnOneList(s1, x) && AtItsStep(s1, x) {
      assert OnOneList(s, x) && AtItsStep(s, x);
    }
    forall x | x in s1.rqs ensures Secured(s1, x, s1.rqs[x], m) {
      assert x != rq ==> Secured(s, x, s.rqs[x], m);
    }
    forall x | x !in s1.rqs ensures OnNoList(s1, x) {
      assert OnNoList(s, x);
    }
    forall x | x in s1.ended ensures EndedWell(s1, x, s1.ended[x].0, s1.ended[x].1, m) {
      assert EndedWell(s, x, s.ended[x].0, s.ended[x].1, m);
    }
  }

  lemma InsertJoins(s: State, s1: State, rq: nat, now: int)
    requires Shape(s) && rq !in s.rqs && OnNoList(s, rq) && rq in s1.rqs
    requires s1 == s.(rqs := s.rqs[rq := s1.rqs[rq]]) && s1.rqs[rq].done == {}
    requires Policy(s1.rqs[rq].q, s1.rqs[rq].cmd) != {}
    ensures Joined(s, Advance(s1, rq, ACTIONS - Policy(s1.rqs[rq].q, s1.rqs[rq].cmd), 0, now), rq)
  {
    var p := Policy(s1.rqs[rq].q, s1.rqs[rq].cmd);
    assert {} + (ACTIONS - p) == ACTIONS - p;
    var x :| x in p;
    assert x in ACTIONS && x !in ACTIONS - p;
    assert s1.rqs - {rq} == s.rqs - {rq};
    assert Unlink(s1, rq).lists == s.lists;
    MoveEffect(s1, rq, ACTIONS - p, now);
  }

  /** Every step the environment can trigger keeps the invariant; a step that forgets
      an error lets down the requests waiting for that flush, and nobody else. */
  lemma NextInv(s: State, e: Event, m: set<(nat, Step)>)
    requires Inv(s, m) && Enabled(s, e)
    ensures Inv(Next(s, e), m + LetDown(s, e))
  {
    assert !ForgetsError(s, e) ==> m + LetDown(s, e) == m;
    match e
    case Insert(_, _, _, _) => InsertInv(s, e, m);
    case DataDone(_, _, _) => DataDoneInv(s, e, m);
    case FlushDone(_, _) => FlushDoneInv(s, e, m);
    case GetRef => RefInv(s, e, m);
    case PutRef(_) => RefInv(s, e, m);
    case WriteDone(_) => Carry(s, Next(s, e), m);
  }

  /** The invariant, whoever has been let down. */
  ghost predicate Sound(s: State) {
    exists m :: Inv(s, m)
  }

  lemma NextSound(s: State, e: Event)
    requires Sound(s) && Enabled(s, e)
    ensures Indices(s) && Sound(Next(s, e))
  {
    var m :| Inv(s, m);
    NextInv(s, e, m);
  }

  // ------------------------------------------------------------ whole runs

  ghost predicate Indices(s: State) {
    |s.lists| == 2 && s.pending < 2 && s.running < 2
  }

  ghost predicate Took(ws: seq<State>, es: seq<Event>, i: nat)
    requires |ws| == |es| + 1 && i < |es|
  {
    Indices(ws[i]) && Enabled(ws[i], es[i]) && ws[i + 1] == Next(ws[i], es[i])
  }

  /** A run from the initial state: any interleaving of enabled events. */
  ghost predicate Run(ws: seq<State>, es: seq<Event>) {
    && |ws| == |es| + 1 && ws[0] == Init()
    && (forall i :: 0 <= i < |es| ==> Took(ws, es, i))
  }

  /** The requests let down by the first `i` steps of a run, each with the flush: those
      that were waiting for it when its failure was forgotten. */
  ghost function Forgotten(ws: seq<State>, es: seq<Event>, i: nat): set<(nat, Step)>
    requires Run(ws, es) && i < |ws|
  {
    if i == 0 then {}
    else
      assert Took(ws, es, i - 1);
      Forgotten(ws, es, i - 1) + LetDown(ws[i - 1], es[i - 1])
  }

  /** No interleaving trips a BUG_ON, loses a request or stalls one, and every request
      is as durable as it was promised but for the flushes that let it down. */
  lemma {:induction false} RunInv(ws: seq<State>, es: seq<Event>, i: nat)
    requires Run(ws, es) && i < |ws|
    ensures Inv(ws[i], Forgotten(ws, es, i))
  {
    if i == 0 {
      InitInv();
    } else {
      RunInv(ws, es, i - 1);
      assert Took(ws, es, i - 1);
      NextInv(ws[i - 1], es[i - 1], Forgotten(ws, es, i - 1));
    }
  }

  /** Somebody was let down exactly by a step that forgot the failure of the flush they
      were waiting for. */
  lemma {:induction false} ForgottenIff(ws: seq<State>, es: seq<Event>, i: nat, rq: nat, st: Step)
    requires Run(ws, es) && i < |ws|
    ensures (rq, st) in Forgotten(ws, es, i) <==> exists x :: 0 <= x < i && LetsDown(ws, es, x, rq, st)
  {
    if i > 0 {
      ForgottenIff(ws, es, i - 1, rq, st);
      assert Took(ws, es, i - 1);
      assert (rq, st) in LetDown(ws[i - 1], es[i - 1]) <==> LetsDown(ws, es, i - 1, rq, st);
    }
  }

  ghost predicate LetsDown(ws: seq<State>, es: seq<Event>, x: nat, rq: nat, st: Step)
    requires |ws| == |es| + 1 && x < |es|
  {
    Indices(ws[x]) && ForgetsError(ws[x], es[x]) && WaitsFor(ws[x], rq, st)
  }

  lemma InitInv()
    ensures Inv(Init(), {})
  {
  }

  /** The record kept for an inserted request never changes: the sequencer only
      ever adds completed steps. */
  ghost predicate Known(s: State, rq: nat, q: QueueFlags, cmd: Cmd, before: set<Write>) {
    && (rq in s.rqs || rq in s.ended || rq in s.bypassed)
    && (rq in s.rqs ==> s.rqs[rq].q == q && s.rqs[rq].cmd == cmd && s.rqs[rq].before == before)
    && (rq in s.ended ==> s.ended[rq].0.q == q && s.ended[rq].0.cmd == cmd && s.ended[rq].0.before == before)
    && (rq in s.sent ==> rq in s.rqs || rq in s.ended)
  }

  lemma AdvanceKnown(s: State, x: nat, steps: set<Step>, error: int, now: int,
                     rq: nat, q: QueueFlags, cmd: Cmd, before: set<Write>)
    requires |s.lists| == 2 && s.pending < 2 && x in s.rqs && Known(s, rq, q, cmd, before)
    ensures Known(CompleteSeq(s, x, steps, error, now), rq, q, cmd, before)
  {
    if error != 0 || CurSeq(s.rqs[x].done + steps) == Done {
      EndEffect(s, x, steps, error, now);
    } else {
      MoveKnown(s, x, steps, now, rq, q, cmd, before);
    }
  }

  lemma MoveKnown(s: State, x: nat, steps: set<Step>, now: int,
                  rq: nat, q: QueueFlags, cmd: Cmd, before: set<Write>)
    requires |s.lists| == 2 && s.pending < 2 && x in s.rqs && Known(s, rq, q, cmd, before)
    requires CurSeq(s.rqs[x].done + steps) != Done
    ensures Known(Advance(s, x, steps, 0, now), rq, q, cmd, before)
  {
    MoveEffect(s, x, steps, now);
    SameOthers(s, Advance(s, x, steps, 0, now), x);
  }

  lemma DrainKnown(s: State, todo: seq<nat>, error: int, now: int,
                   rq: nat, q: QueueFlags, cmd: Cmd, before: set<Write>)
    requires |s.lists| == 2 && s.pending < 2 && Known(s, rq, q, cmd, before)
    ensures Known(Drain(s, todo, error, now), rq, q, cmd, before)
    decreases |todo|
  {
    if todo == [] {
    } else if todo[0] !in s.rqs {
      DrainKnown(s.(bug := true), todo[1..], error, now, rq, q, cmd, before);
    } else {
      var c := CurSeq(s.rqs[todo[0]].done);
      if c == At(PreFlush) || c == At(PostFlush) {
        AdvanceKnown(s, todo[0], {c.step}, error, now, rq, q, cmd, before);
        DrainKnown(CompleteSeq(s, todo[0], {c.step}, error, now), todo[1..], error, now, rq, q, cmd, before);
      }
    }
  }

  lemma EndIoKnown(s: State, error: int, now: int, rq: nat, q: QueueFlags, cmd: Cmd, before: set<Write>)
    requires |s.lists| == 2 && s.pending < 2 && s.running < 2 && s.refs > 0 && Known(s, rq, q, cmd, before)
    ensures Known(FlushEndIo(s, error, now), rq, q, cmd, before)
  {
    if s.refs == 1 {
      DrainKnown(Finished(s), s.lists[s.running], EndStatus(s, error), now, rq, q, cmd, before);
    }
  }

  lemma NextKnown(s: State, e: Event, rq: nat, q: QueueFlags, cmd: Cmd, before: set<Write>)
    requires |s.lists| == 2 && s.pending < 2 && s.running < 2 && Enabled(s, e)
    requires Known(s, rq, q, cmd, before)
    ensures Known(Next(s, e), rq, q, cmd, before)
  {
    match e
    case Insert(x, q', cmd', now) =>
      var p := Policy(q', cmd');
      if p != {} && !(Data in p && PreFlush !in p && PostFlush !in p) {
        var s1 := s.(rqs := s.rqs[x := Request(q', cmd', {}, s.dev.completed)]);
        AdvanceKnown(s1, x, ACTIONS - p, 0, now, rq, q, cmd, before);
      }
    case DataDone(x, error, now) =>
      if x in s.rqs {
        var s1 := if error == 0 then s.(dev := s.dev.(completed := s.dev.completed + {DataOf(x)})) else s;
        AdvanceKnown(s1, x, {Data}, error, now, rq, q, cmd, before);
      }
    case FlushDone(error, now) =>
      if s.refs > 0 {
        EndIoKnown(Settled(s, error), error, now, rq, q, cmd, before);
      }
    case PutRef(now) =>
      if s.refs > 0 {
        EndIoKnown(s, 0, now, rq, q, cmd, before);
      }
    case GetRef =>
    case WriteDone(_) =>
  }

  lemma InsertKnown(s: State, e: Event)
    requires |s.lists| == 2 && s.pending < 2 && s.running < 2 && e.Insert? && Enabled(s, e)
    ensures Known(Next(s, e), e.rq, e.q, e.cmd, s.dev.completed)
  {
    var p := Policy(e.q, e.cmd);
    if p != {} && !(Data in p && PreFlush !in p && PostFlush !in p) {
      var s1 := s.(rqs := s.rqs[e.rq := Request(e.q, e.cmd, {}, s.dev.completed)]);
      AdvanceKnown(s1, e.rq, ACTIONS - p, 0, e.now, e.rq, e.q, e.cmd, s.dev.completed);
    }
  }

  lemma {:induction false} RunKnown(ws: seq<State>, es: seq<Event>, k: nat, i: nat)
    requires Run(ws, es) && k < i < |ws| && es[k].Insert?
    ensures Known(ws[i], es[k].rq, es[k].q, es[k].cmd, ws[k].dev.completed)
  {
    assert Took(ws, es, i - 1);
    if i == k + 1 {
      InsertKnown(ws[k], es[k]);
    } else {
      RunKnown(ws, es, k, i - 1);
      NextKnown(ws[i - 1], es[i - 1], es[k].rq, es[k].q, es[k].cmd, ws[k].dev.completed);
    }
  }

  /** FUA: on a write-back device without native FUA, a FUA request that was not let
      down at POSTFLUSH ends without error only once its data is on stable media. */
  lemma FuaDurable(ws: seq<State>, es: seq<Event>, k: nat, i: nat)
    requires Run(ws, es) && k < i < |ws| && es[k].Insert?
    requires es[k].q.wc && !es[k].q.fua && es[k].cmd.fua
    requires es[k].rq in ws[i].ended && ws[i].ended[es[k].rq].1 == 0
    ensures DataOf(es[k].rq) in ws[i].dev.durable || (es[k].rq, PostFlush) in Forgotten(ws, es, i)
  {
    RunKnown(ws, es, k, i);
    RunInv(ws, es, i);
  }

  /** PREFLUSH: by the time the data of a PREFLUSH request is sent, and by the
      time such a request ends without error, every write that had completed
      before the request was inserted is on stable media, unless the request was let
      down at PREFLUSH. */
  lemma PreflushOrdered(ws: seq<State>, es: seq<Event>, k: nat, i: nat)
    requires Run(ws, es) && k < i < |ws| && es[k].Insert?
    requires es[k].q.wc && es[k].cmd.preflush
    requires || es[k].rq in ws[i].sent
             || (es[k].rq in ws[i].ended && ws[i].ended[es[k].rq].1 == 0)
    ensures ws[k].dev.completed <= ws[i].dev.durable || (es[k].rq, PreFlush) in Forgotten(ws, es, i)
  {
    RunKnown(ws, es, k, i);
    RunInv(ws, es, i);
  }

  // --------------------------------------------------------------- progress

  /** The steps still to be done, request by request. */
  ghost function Todo(s: State): set<(nat, Step)> {
    set rq, st | rq in s.rqs && st in ACTIONS && st !in s.rqs[rq].done :: (rq, st)
  }

  predicate Completion(e: Event) { e.DataDone? || e.FlushDone? || e.PutRef? }

  /** Whenever a request is in the machinery, some completion is outstanding. */
  lemma NeverStuck(s: State, now: int) returns (e: Event)
    requires Sound(s) && s.rqs != map[]
    ensures Completion(e) && Enabled(s, e)
  {
    var m :| Inv(s, m);
    var rq :| rq in s.rqs;
    assert OnOneList(s, rq);
    if s.data != [] {
      e := DataDone(s.data[0], 0, now);
    } else if s.dev.flushing {
      e := FlushDone(0, now);
    } else {
      e := PutRef(now);
    }
  }

  lemma AdvanceTodo(s: State, rq: nat, steps: set<Step>, error: int, now: int)
    requires |s.lists| == 2 && s.pending < 2 && rq in s.rqs
    ensures Todo(CompleteSeq(s, rq, steps, error, now)) <= Todo(s)
    ensures forall st :: st in steps ==> (rq, st) !in Todo(CompleteSeq(s, rq, steps, error, now))
  {
    var t := Advance(s, rq, steps, error, now);
    if error != 0 || CurSeq(s.rqs[rq].done + steps) == Done {
      EndEffect(s, rq, steps, error, now);
    } else {
      MoveEffect(s, rq, steps, now);
      SameOthers(s, t, rq);
    }
    assert CompleteSeq(s, rq, steps, error, now).rqs == t.rqs;
    FewerTodo(s, t, rq, steps);
  }

  lemma FewerTodo(s: State, t: State, rq: nat, steps: set<Step>)
    requires rq in s.rqs && forall x :: x != rq && x in t.rqs ==> x in s.rqs && t.rqs[x] == s.rqs[x]
    requires rq in t.rqs ==> t.rqs[rq].done == s.rqs[rq].done + steps
    ensures Todo(t) <= Todo(s) && forall st :: st in steps ==> (rq, st) !in Todo(t)
  {
  }

  lemma DrainTodo(s: State, todo: seq<nat>, error: int, now: int, m: set<(nat, Step)>)
    requires Draining(s, todo, error, m)
    ensures Todo(Drain(s, todo, error, now)) <= Todo(s)
    ensures todo != [] ==> Todo(Drain(s, todo, error, now)) < Todo(s)
    decreases |todo|
  {
    if todo != [] {
      DrainStep(s, todo, error, now, m);
      var c := CurSeq(s.rqs[todo[0]].done);
      AdvanceTodo(s, todo[0], {c.step}, error, now);
      assert (todo[0], c.step) in Todo(s);
      DrainTodo(CompleteSeq(s, todo[0], {c.step}, error, now), todo[1..], error, now, m);
    }
  }

  lemma LastRefTodo(s: State, error: int, now: int, m: set<(nat, Step)>)
    requires LastCall(s, error, m)
    ensures Todo(FlushEndIo(s, error, now)) < Todo(s)
  {
    LastRefDrains(s, error, m);
    DrainTodo(Finished(s), s.lists[s.running], EndStatus(s, error), now, m);
  }

  lemma DataTodo(s: State, rq: nat, error: int, now: int, m: set<(nat, Step)>)
    requires Inv(s, m) && rq in s.data
    ensures Todo(Next(s, DataDone(rq, error, now))) < Todo(s)
  {
    DataPlace(s, rq);
    var s1 := if error == 0 then s.(dev := s.dev.(completed := s.dev.completed + {DataOf(rq)})) else s;
    AdvanceTodo(s1, rq, {Data}, error, now);
    assert (rq, Data) in Todo(s);
  }

  /** Every completion makes progress: it completes a step, or drops a reference. */
  lemma CompletionProgress(s: State, e: Event)
    requires Sound(s) && Enabled(s, e) && Completion(e)
    ensures Indices(s)
    ensures var t := Next(s, e);
            Todo(t) < Todo(s) || (Todo(t) == Todo(s) && t.refs < s.refs)
  {
    var m :| Inv(s, m);
    match e
    case DataDone(rq, error, now) => DataTodo(s, rq, error, now, m);
    case FlushDone(error, now) =>
      if s.refs == 1 {
        SettledCall(s, error, m);
        LastRefTodo(Settled(s, error), error, now, m);
      }
    case PutRef(now) =>
      if s.refs == 1 {
        LastRefTodo(s, 0, now, m);
      }
  }

  lemma SmallerSet<T>(a: set<T>, b: set<T>)
    requires a < b
    ensures |a| < |b|
  {
    var x :| x in b && x !in a;
    assert a <= b - {x};
    SubsetSize(a, b - {x});
  }

  lemma SubsetSize<T>(a: set<T>, b: set<T>)
    requires a <= b
    ensures |a| <= |b|
    decreases a
  {
    if a != {} {
      var x :| x in a;
      SubsetSize(a - {x}, b - {x});
    }
  }

  /** The work ahead: steps to be completed and references to be dropped. */
  ghost function Work(s: State): nat {
    2 * |Todo(s)| + s.refs
  }

  lemma {:induction false} DrainRefs(s: State, todo: seq<nat>, error: int, now: int, m: set<(nat, Step)>)
    requires Draining(s, todo, error, m) && s.refs <= 1
    ensures Drain(s, todo, error, now).refs <= 1
    decreases |todo|
  {
    if todo != [] {
      DrainStep(s, todo, error, now, m);
      var c := CurSeq(s.rqs[todo[0]].done);
      AdvanceRefs(s, todo[0], {c.step}, error, now);
      DrainRefs(CompleteSeq(s, todo[0], {c.step}, error, now), todo[1..], error, now, m);
    }
  }

  lemma AdvanceRefs(s: State, rq: nat, steps: set<Step>, error: int, now: int)
    requires |s.lists| == 2 && s.pending < 2 && rq in s.rqs
    ensures Advance(s, rq, steps, error, now).refs == s.refs
    ensures CompleteSeq(s, rq, steps, error, now).refs in {s.refs, 1}
  {
  }

  lemma DataRefs(s: State, rq: nat, error: int, now: int, m: set<(nat, Step)>)
    requires Inv(s, m) && rq in s.data
    ensures Next(s, DataDone(rq, error, now)).refs <= s.refs + 1
  {
    assert !OnNoList(s, rq);
    var s1 := if error == 0 then s.(dev := s.dev.(completed := s.dev.completed + {DataOf(rq)})) else s;
    AdvanceRefs(s1, rq, {Data}, error, now);
  }

  lemma LastRefRefs(s: State, error: int, now: int, m: set<(nat, Step)>)
    requires LastCall(s, error, m)
    ensures FlushEndIo(s, error, now).refs <= 1
  {
    LastRefDrains(s, error, m);
    DrainRefs(Finished(s), s.lists[s.running], EndStatus(s, error), now, m);
  }

  lemma CompletionRefs(s: State, e: Event)
    requires Sound(s) && Enabled(s, e) && Completion(e)
    ensures Indices(s) && Next(s, e).refs <= s.refs + 1
  {
    var m :| Inv(s, m);
    match e
    case DataDone(rq, error, now) => DataRefs(s, rq, error, now, m);
    case FlushDone(error, now) =>
      SettledCall(s, error, m);
      if s.refs == 1 {
        LastRefRefs(Settled(s, error), error, now, m);
      }
    case PutRef(now) =>
      if s.refs == 1 {
        LastRefRefs(s, 0, now, m);
      }
  }

  lemma WorkShrinks(s: State, e: Event)
    requires Sound(s) && Enabled(s, e) && Completion(e)
    ensures Indices(s) && Work(Next(s, e)) < Work(s)
  {
    CompletionProgress(s, e);
    CompletionRefs(s, e);
    if Todo(Next(s, e)) < Todo(s) {
      SmallerSet(Todo(Next(s, e)), Todo(s));
    }
  }

  /** A run of completions only, from anywhere. */
  ghost predicate Completions(ws: seq<State>, es: seq<Event>) {
    && |ws| == |es| + 1
    && (forall i :: 0 <= i < |es| ==> Took(ws, es, i) && Completion(es[i]))
  }

  /** A schedule that only completes outstanding work ends within the work ahead, and
      where it cannot go on every request has been completed. */
  lemma {:induction false} CompletionsEnd(ws: seq<State>, es: seq<Event>, i: nat)
    requires Completions(ws, es) && Sound(ws[0]) && i <= |es|
    ensures Sound(ws[i]) && i + Work(ws[i]) <= Work(ws[0])
    ensures (forall e :: Completion(e) ==> !Enabled(ws[i], e)) ==> ws[i].rqs == map[]
    decreases i
  {
    if i > 0 {
      CompletionsEnd(ws, es, i - 1);
      assert Took(ws, es, i - 1) && Completion(es[i - 1]);
      WorkShrinks(ws[i - 1], es[i - 1]);
      NextSound(ws[i - 1], es[i - 1]);
    }
    if ws[i].rqs != map[] {
      var e := NeverStuck(ws[i], 0);
    }
  }

  // ------------------------------------------------- when an error is forgotten

  /** The call of flush_end_io that drops the last reference. */
  predicate EndsFlush(s: State, e: Event) {
    s.refs == 1 && (e.PutRef? || e.FlushDone?)
  }

  /** The same flush is in flight, with the same requests waiting for it. */
  ghost predicate SameFlight(s: State, t: State) {
    && Indices(s) && Indices(t)
    && t.running == s.running && t.pending != t.running && t.lists[t.running] == s.lists[s.running]
    && (forall rq :: rq in s.lists[s.running] ==> rq in s.rqs && rq in t.rqs && t.rqs[rq] == s.rqs[rq])
  }

  ghost predicate SameDevice(s: State, t: State) {
    t.dev.durable == s.dev.durable && t.dev.flushing == s.dev.flushing
  }

  lemma InFlightInsert(s: State, e: Event)
    requires Sound(s) && Indices(s) && Enabled(s, e) && e.Insert? && s.pending != s.running
    ensures SameFlight(s, Next(s, e)) && SameDevice(s, Next(s, e)) && Next(s, e).rqStatus == s.rqStatus
  {
    var m :| Inv(s, m);
    WaitersListed(s);
    var p := Policy(e.q, e.cmd);
    if p != {} && !(Data in p && PreFlush !in p && PostFlush !in p) {
      var s1 := s.(rqs := s.rqs[e.rq := Request(e.q, e.cmd, {}, s.dev.completed)]);
      InsertBase(s, s1, e.rq, m);
      InsertJoins(s, s1, e.rq, e.now);
      JoinedFlight(s, Advance(s1, e.rq, ACTIONS - p, 0, e.now), e.rq);
    }
  }

  lemma WaitersListed(s: State)
    requires Placed(s)
    ensures forall rq :: rq in s.lists[s.running] ==> rq in s.rqs
  {
    forall rq | rq in s.lists[s.running] ensures rq in s.rqs {
      assert !OnNoList(s, rq);
    }
  }

  lemma JoinedFlight(s: State, t: State, rq: nat)
    requires Placed(s) && Joined(s, t, rq) && s.pending != s.running && rq !in s.lists[s.running]
    ensures SameFlight(s, t)
  {
    WaitersListed(s);
    SameOthers(s, t, rq);
  }

  lemma InFlightData(s: State, e: Event)
    requires Sound(s) && Indices(s) && Enabled(s, e) && e.DataDone? && s.pending != s.running
    ensures SameFlight(s, Next(s, e)) && SameDevice(s, Next(s, e)) && Next(s, e).rqStatus == s.rqStatus
  {
    var m :| Inv(s, m);
    var d := if e.error == 0 then s.dev.(completed := s.dev.completed + {DataOf(e.rq)}) else s.dev;
    var t := s.(dev := d);
    Carry(s, t, m);
    DataJoins(t, e.rq, e.error, e.now);
    JoinedFlight(t, Advance(t, e.rq, {Data}, e.error, e.now), e.rq);
  }

  lemma DataJoins(s: State, rq: nat, error: int, now: int)
    requires Placed(s) && rq in s.data
    ensures rq in s.rqs && rq !in s.lists[s.running] && Joined(s, Advance(s, rq, {Data}, error, now), rq)
  {
    DataPlace(s, rq);
    assert s.running == 0 || s.running == 1;
    LeavesData(s, rq, error, now);
  }

  /** Until its last reference is dropped, whatever happens leaves the flush in flight
      and the requests waiting for it alone; only its own calls touch rq_status. */
  lemma InFlightStep(s: State, e: Event)
    requires Sound(s) && Indices(s) && Enabled(s, e) && s.pending != s.running && !EndsFlush(s, e)
    ensures SameFlight(s, Next(s, e))
    ensures !e.FlushDone? ==> SameDevice(s, Next(s, e))
    ensures Next(s, e).rqStatus == if e.FlushDone? then e.error else if e.PutRef? then 0 else s.rqStatus
  {
    var m :| Inv(s, m);
    WaitersListed(s);
    match e
    case Insert(_, _, _, _) => InFlightInsert(s, e);
    case DataDone(_, _, _) => InFlightData(s, e);
    case FlushDone(_, _) =>
    case GetRef =>
    case PutRef(_) =>
    case WriteDone(_) =>
  }

  /** No reference is dropped strictly between steps `j` and `x`. */
  ghost predicate NoPut(es: seq<Event>, j: nat, x: nat)
    requires x <= |es|
  {
    forall y :: j < y < x ==> !es[y].PutRef?
  }

  lemma RunSound(ws: seq<State>, es: seq<Event>, i: nat)
    requires Run(ws, es) && i < |ws|
    ensures Sound(ws[i]) && Indices(ws[i])
  {
    RunInv(ws, es, i);
  }

  /** The device is done with the flush of `s0`, and its waiters still wait. */
  ghost predicate Landed(s0: State, error: int, s: State) {
    SameFlight(s0, s) && !s.dev.flushing && s.dev.durable == Settled(s0, error).dev.durable
  }

  /** From the device's completion on, until the last call: rq_status remembers an error
      exactly as long as no reference has been dropped. */
  lemma {:induction false} AfterDevice(ws: seq<State>, es: seq<Event>, j: nat, x: nat)
    requires Run(ws, es) && j < x <= |es| && es[j].FlushDone?
    requires forall y :: j <= y < x ==> !EndsFlush(ws[y], es[y])
    ensures Landed(ws[j], es[j].error, ws[x])
    ensures ws[x].rqStatus == if NoPut(es, j, x) then es[j].error else 0
    decreases x
  {
    if x == j + 1 {
      DeviceStep(ws, es, j);
    } else {
      AfterDevice(ws, es, j, x - 1);
      AfterStep(ws, es, x - 1, ws[j], es[j].error);
      assert NoPut(es, j, x) <==> NoPut(es, j, x - 1) && !es[x - 1].PutRef?;
    }
  }

  lemma DeviceStep(ws: seq<State>, es: seq<Event>, j: nat)
    requires Run(ws, es) && j < |es| && es[j].FlushDone? && !EndsFlush(ws[j], es[j])
    ensures Landed(ws[j], es[j].error, ws[j + 1]) && ws[j + 1].rqStatus == es[j].error
  {
    assert Took(ws, es, j);
    RunSound(ws, es, j);
    var m :| Inv(ws[j], m);
    InFlightStep(ws[j], es[j]);
  }

  /** One more step after the device's completion, before the last call. */
  lemma AfterStep(ws: seq<State>, es: seq<Event>, y: nat, s0: State, error: int)
    requires Run(ws, es) && y < |es| && Landed(s0, error, ws[y]) && !EndsFlush(ws[y], es[y])
    ensures Landed(s0, error, ws[y + 1])
    ensures ws[y + 1].rqStatus == if es[y].PutRef? then 0 else ws[y].rqStatus
  {
    assert Took(ws, es, y);
    RunSound(ws, es, y);
    InFlightStep(ws[y], es[y]);
  }

  /** What becomes of a request when the flush it waits for ends with `error`. */
  ghost predicate Outcome(r: Request, rq: nat, error: int, t: State) {
    CurSeq(r.done).At? &&
    var r' := r.(done := r.done + {CurSeq(r.done).step});
    if error != 0 || CurSeq(r'.done) == Done then rq in t.ended && t.ended[rq] == (r', error)
    else rq in t.rqs && t.rqs[rq] == r' && rq in t.sent
  }

  lemma AdvanceOutcome(s: State, rq: nat, error: int, now: int)
    requires |s.lists| == 2 && s.pending < 2 && rq in s.rqs
    requires CurSeq(s.rqs[rq].done) in {At(PreFlush), At(PostFlush)}
    requires CurSeq(s.rqs[rq].done + {CurSeq(s.rqs[rq].done).step}) in {At(Data), Done}
    ensures Outcome(s.rqs[rq], rq, error, CompleteSeq(s, rq, {CurSeq(s.rqs[rq].done).step}, error, now))
  {
    var step := CurSeq(s.rqs[rq].done).step;
    if error != 0 || CurSeq(s.rqs[rq].done + {step}) == Done {
      EndEffect(s, rq, {step}, error, now);
    } else {
      MoveEffect(s, rq, {step}, now);
    }
  }

  /** Completing a step of `rq` leaves the other requests alone. */
  lemma AdvanceOthers(s: State, rq: nat, steps: set<Step>, error: int, now: int, x: nat)
    requires |s.lists| == 2 && s.pending < 2 && rq in s.rqs
    ensures var t := CompleteSeq(s, rq, steps, error, now);
            && t.dev.durable == s.dev.durable && s.sent <= t.sent
            && (x != rq && x in s.rqs ==> x in t.rqs && t.rqs[x] == s.rqs[x])
            && (x != rq && x in s.ended ==> x in t.ended && t.ended[x] == s.ended[x])
  {
    var t := Advance(s, rq, steps, error, now);
    if error != 0 || CurSeq(s.rqs[rq].done + steps) == Done {
      EndEffect(s, rq, steps, error, now);
    } else {
      MoveEffect(s, rq, steps, now);
      assert x != rq && x in s.rqs ==> x in s.rqs - {rq} && (s.rqs - {rq})[x] == (t.rqs - {rq})[x];
    }
  }

  lemma HeadOutcome(s: State, todo: seq<nat>, error: int, now: int, m: set<(nat, Step)>, x: nat)
    requires Draining(s, todo, error, m) && todo != []
    ensures todo[0] in s.rqs && CurSeq(s.rqs[todo[0]].done) in {At(PreFlush), At(PostFlush)}
    ensures var rq, c := todo[0], CurSeq(s.rqs[todo[0]].done);
            var t := CompleteSeq(s, rq, {c.step}, error, now);
            && Draining(t, todo[1..], error, m)
            && Outcome(s.rqs[rq], rq, error, t) && t.dev.durable == s.dev.durable && s.sent <= t.sent
            && (x != rq && x in s.rqs ==> x in t.rqs && t.rqs[x] == s.rqs[x])
            && (x != rq && x in s.ended ==> x in t.ended && t.ended[x] == s.ended[x])
  {
    DrainStep(s, todo, error, now, m);
    var rq := todo[0];
    assert rq in s.lists[1 - s.running];
    assert OnOneList(s, rq) && AtItsStep(s, rq);
    AfterFlush(s, rq, m, false);
    AdvanceOutcome(s, rq, error, now);
    AdvanceOthers(s, rq, {CurSeq(s.rqs[rq].done).step}, error, now, x);
  }

  lemma HeadOnce(s: State, todo: seq<nat>, error: int, m: set<(nat, Step)>)
    requires Draining(s, todo, error, m) && todo != []
    ensures todo[0] !in todo[1..]
  {
    if s.running == 0 {
      assert todo == s.lists[1];
    } else {
      assert todo == s.lists[0];
    }
  }

  lemma DrainUnfolds(s: State, todo: seq<nat>, error: int, now: int)
    requires |s.lists| == 2 && s.pending < 2 && todo != [] && todo[0] in s.rqs
    requires CurSeq(s.rqs[todo[0]].done) in {At(PreFlush), At(PostFlush)}
    ensures var t := CompleteSeq(s, todo[0], {CurSeq(s.rqs[todo[0]].done).step}, error, now);
            Drain(s, todo, error, now) == Drain(t, todo[1..], error, now)
  {
  }

  /** What draining makes of each request: one that was waiting gets the outcome of the
      flush, any other is left alone. */
  lemma {:induction false} DrainFate(s: State, todo: seq<nat>, error: int, now: int, m: set<(nat, Step)>, rq: nat)
    requires Draining(s, todo, error, m)
    ensures var t := Drain(s, todo, error, now);
            && t.dev.durable == s.dev.durable && s.sent <= t.sent
            && (rq in todo && rq in s.rqs ==> Outcome(s.rqs[rq], rq, error, t))
            && (rq !in todo && rq in s.rqs ==> rq in t.rqs && t.rqs[rq] == s.rqs[rq])
            && (rq !in todo && rq in s.ended ==> rq in t.ended && t.ended[rq] == s.ended[rq])
    decreases |todo|
  {
    if todo != [] {
      HeadOnce(s, todo, error, m);
      HeadOutcome(s, todo, error, now, m, rq);
      DrainUnfolds(s, todo, error, now);
      DrainFate(CompleteSeq(s, todo[0], {CurSeq(s.rqs[todo[0]].done).step}, error, now), todo[1..], error, now, m, rq);
    }
  }

  lemma LastRefOutcome(s: State, error: int, now: int, m: set<(nat, Step)>, rq: nat)
    requires LastCall(s, error, m) && rq in s.lists[s.running]
    ensures rq in s.rqs && Outcome(s.rqs[rq], rq, EndStatus(s, error), FlushEndIo(s, error, now))
    ensures FlushEndIo(s, error, now).dev.durable == s.dev.durable
  {
    LastRefDrains(s, error, m);
    WaitersListed(s);
    DrainFate(Finished(s), s.lists[s.running], EndStatus(s, error), now, m, rq);
  }

  /** When the device completes a flush, a request waiting for it gets the device's
      status if no reference is dropped between that and the call that ends the flush;
      otherwise it goes on as after a success, whatever the device said. */
  lemma ErrorReportedIff(ws: seq<State>, es: seq<Event>, j: nat, b: nat, rq: nat)
    requires Run(ws, es) && j <= b < |es| && es[j].FlushDone?
    requires EndsFlush(ws[b], es[b]) && forall y :: j <= y < b ==> !EndsFlush(ws[y], es[y])
    requires ws[j].running < |ws[j].lists| && rq in ws[j].lists[ws[j].running]
    ensures rq in ws[j].rqs
    ensures Outcome(ws[j].rqs[rq], rq, if NoPut(es, j, b) then es[j].error else 0, ws[b + 1])
    ensures ws[b + 1].dev.durable == Settled(ws[j], es[j].error).dev.durable
  {
    var m := Forgotten(ws, es, b);
    RunInv(ws, es, b);
    assert Took(ws, es, b) && Took(ws, es, j);
    if j == b {
      SettledCall(ws[b], es[b].error, m);
      LastRefOutcome(Settled(ws[b], es[b].error), es[b].error, es[b].now, m, rq);
    } else {
      AfterDevice(ws, es, j, b);
      LastRefOutcome(ws[b], 0, es[b].now, m, rq);
    }
  }

  /** What a request needs of the flush it waits for is durable when the flush has ended
      exactly if the device completed the flush without error, or all of it had been
      durable already. */
  lemma NeedDurableIff(ws: seq<State>, es: seq<Event>, j: nat, b: nat, rq: nat)
    requires Run(ws, es) && j <= b < |es| && es[j].FlushDone?
    requires EndsFlush(ws[b], es[b]) && forall y :: j <= y < b ==> !EndsFlush(ws[y], es[y])
    requires ws[j].running < |ws[j].lists| && rq in ws[j].lists[ws[j].running]
    ensures rq in ws[j].rqs
    ensures CoveredBy(ws[b + 1].dev.durable, rq, ws[j].rqs[rq]) <==>
            es[j].error == 0 || CoveredBy(ws[j].dev.durable, rq, ws[j].rqs[rq])
  {
    ErrorReportedIff(ws, es, j, b, rq);
    RunInv(ws, es, j);
    assert Took(ws, es, j);
  }

  /** A FUA write being written, and the same write waiting for its flush. */
  function Writing(): State {
    Init().(data := [0], sent := {0},
            rqs := map[0 := Request(QueueFlags(true, false), Cmd(false, true, 8), {PreFlush}, {})])
  }

  function Waiting(now: int, refs: nat, status: int, flushing: bool): State {
    Init().(lists := [[0], []], pending := 1, since := now, refs := refs, rqStatus := status, sent := {0},
            rqs := map[0 := Request(QueueFlags(true, false), Cmd(false, true, 8), {PreFlush, Data}, {})],
            dev := Device({DataOf(0)}, {}, {DataOf(0)}, flushing))
  }

  lemma FuaIsWritten(now: int)
    ensures Next(Init(), Insert(0, QueueFlags(true, false), Cmd(false, true, 8), now)) == Writing()
  {
    var t := Next(Init(), Insert(0, QueueFlags(true, false), Cmd(false, true, 8), now));
    assert Policy(QueueFlags(true, false), Cmd(false, true, 8)) == {Data, PostFlush};
    assert {} + (ACTIONS - {Data, PostFlush}) == {PreFlush};
    assert t.lists == [[], []] && t.data == [0] && t.sent == {0};
    assert t.rqs == Writing().rqs;
  }

  lemma FuaWaits(now: int)
    ensures Next(Writing(), DataDone(0, 0, now)) == Waiting(now, 1, 0, true)
  {
    var t := Next(Writing(), DataDone(0, 0, now));
    assert {PreFlush} + {Data} == {PreFlush, Data};
    assert Without([], 0) == [] && Without([0], 0) == [];
    assert t.lists[0] == [] + [0] && t.lists[1] == [] && t.data == [];
    assert t.lists[0] == [0] && |t.lists| == 2;
    assert t.lists == [[0], []];
    assert t.rqs == Waiting(now, 1, 0, true).rqs;
    assert t.dev.completed == {DataOf(0)};
  }

  lemma LastPut(now: int)
    ensures var s := Next(Waiting(now, 1, 0, false), PutRef(now));
            0 in s.ended && s.ended[0].1 == 0 && s.dev.durable == {}
  {
    var t := Waiting(now, 0, 0, false).(running := 1);
    assert CurSeq(t.rqs[0].done) == At(PostFlush);
    assert {PreFlush, Data} + {PostFlush} == ACTIONS;
    var u := CompleteSeq(t, 0, {PostFlush}, 0, now);
    assert Drain(t, [0], 0, now) == Drain(u, [], 0, now);
  }

  /** With two iterators holding the flush request, a FUA write whose flush
      failed ends without error and without being durable. */
  lemma ForgottenError(now: int)
    ensures var s1 := Next(Init(), Insert(0, QueueFlags(true, false), Cmd(false, true, 8), now));
            var s2 := Next(s1, DataDone(0, 0, now));
            var s3 := Next(Next(s2, GetRef), GetRef);
            var s4 := Next(s3, FlushDone(5, now));
            var s5 := Next(s4, PutRef(now));
            var s6 := Next(s5, PutRef(now));
            && Enabled(s1, DataDone(0, 0, now)) && Enabled(s2, GetRef) && Enabled(s3, FlushDone(5, now))
            && Enabled(s4, PutRef(now)) && ForgetsError(s4, PutRef(now)) && Enabled(s5, PutRef(now))
            && 0 in s6.ended && s6.ended[0].1 == 0 && DataOf(0) !in s6.dev.durable
  {
    FuaIsWritten(now);
    FuaWaits(now);
    LastPut(now);
    assert Next(Waiting(now, 3, 0, true), FlushDone(5, now)) == Waiting(now, 2, 5, false);
    assert Next(Waiting(now, 2, 5, false), PutRef(now)) == Waiting(now, 1, 0, false);
  }
}
