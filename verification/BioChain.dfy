/** Chained completion in block/bio.c: a bio's end_io runs when it and everything
    chained to it has ended. */
module BioChain {
  import opened Options

  /** The completion fields of all bios, with the history of what was ended. */
  datatype Bios = Bios(
    parent: seq<Option<nat>>,  // bi_private of a chained bio
    remaining: seq<int>,       // __bi_remaining
    chained: seq<bool>,        // BIO_CHAIN
    status: seq<nat>,          // bi_status, 0 for BLK_STS_OK
    ended: seq<bool>,          // the owner has called bio_endio
    error: seq<nat>,           // the error it ended the bio with
    done: seq<bool>,           // end_io has been run
    log: seq<nat>,             // in this order
    lost: seq<bool>)           // what it handed to its parent has been overwritten with 0

  predicate Wf(s: Bios) {
    && |s.remaining| == |s.chained| == |s.status| == |s.ended| == |s.error| == |s.done| == |s.lost| == |s.parent|
    && (forall i :: 0 <= i < |s.parent| ==> s.parent[i].Some? ==> s.parent[i].value < |s.parent|)
  }

  // ------------------------------------------------------------- counting

  predicate LiveChild(s: Bios, p: nat, i: nat)
    requires Wf(s) && i < |s.parent|
  {
    s.parent[i] == Some(p) && !s.done[i]
  }

  /** How many bios chained to `p` have not finished. */
  function Live(s: Bios, p: nat, k: nat): nat
    requires Wf(s) && k <= |s.parent|
  {
    if k == 0 then 0 else Live(s, p, k - 1) + if LiveChild(s, p, k - 1) then 1 else 0
  }

  /** One bio becomes, or stops being, an unfinished child of `p`. */
  lemma {:induction false} LiveChange(s: Bios, r: Bios, p: nat, x: nat, k: nat)
    requires Wf(s) && Wf(r) && |s.parent| == |r.parent| && k <= |s.parent| && x < |s.parent|
    requires forall i :: 0 <= i < |s.parent| && i != x ==> LiveChild(r, p, i) == LiveChild(s, p, i)
    ensures Live(r, p, k) == Live(s, p, k)
              + (if x < k && LiveChild(r, p, x) then 1 else 0) - (if x < k && LiveChild(s, p, x) then 1 else 0)
  {
    if k > 0 {
      LiveChange(s, r, p, x, k - 1);
    }
  }

  lemma {:induction false} LiveNone(s: Bios, p: nat, k: nat)
    requires Wf(s) && k <= |s.parent| && forall i :: 0 <= i < k ==> !LiveChild(s, p, i)
    ensures Live(s, p, k) == 0
  {
    if k > 0 {
      LiveNone(s, p, k - 1);
    }
  }

  lemma {:induction false} LiveSome(s: Bios, p: nat, c: nat, k: nat)
    requires Wf(s) && k <= |s.parent| && c < k && LiveChild(s, p, c)
    ensures Live(s, p, k) >= 1
  {
    if c < k - 1 {
      LiveSome(s, p, c, k - 1);
    }
  }

  function Unfinished(d: seq<bool>): nat {
    if d == [] then 0 else (if d[0] then 0 else 1) + Unfinished(d[1..])
  }

  lemma {:induction false} UnfinishedLess(d: seq<bool>, i: nat)
    requires i < |d| && !d[i]
    ensures Unfinished(d[i := true]) == Unfinished(d) - 1
    decreases |d|
  {
    if i > 0 {
      assert d[i := true][1..] == d[1..][i - 1 := true];
      UnfinishedLess(d[1..], i - 1);
    } else {
      assert d[0 := true][1..] == d[1..];
    }
  }

  // ------------------------------------------------------------- the invariant

  /** The counter of an unfinished bio, with one completion of `cur` on its way. */
  predicate CountOk(s: Bios, i: nat, cur: int)
    requires Wf(s) && i < |s.parent|
  {
    !s.done[i] ==>
      && s.remaining[i] == (if s.ended[i] then 0 else 1) + Live(s, i, |s.parent|) + (if i == cur then 1 else 0)
      && s.remaining[i] >= 1
      && (!s.chained[i] ==> s.remaining[i] == 1 && Live(s, i, |s.parent|) == 0)
  }

  ghost predicate CountsOk(s: Bios, cur: int)
    requires Wf(s)
  {
    forall i :: 0 <= i < |s.parent| ==> CountOk(s, i, cur)
  }

  /** What has run, has run once, after its owner ended it and after everything
      chained to it. */
  predicate LogOk(s: Bios)
    requires Wf(s)
  {
    && (forall j :: 0 <= j < |s.log| ==> s.log[j] < |s.parent| && s.done[s.log[j]] && s.ended[s.log[j]])
    && (forall i :: 0 <= i < |s.parent| && s.done[i] ==> i in s.log)
    && (forall j, k :: 0 <= j < k < |s.log| ==> s.log[j] != s.log[k])
    && (forall i, j :: 0 <= i < |s.parent| && 0 <= j < |s.log| ==> ChildBefore(s.parent, s.log, i, j))
  }

  predicate ChildBefore(parent: seq<Option<nat>>, log: seq<nat>, i: nat, j: nat)
    requires i < |parent| && j < |log|
  {
    parent[i] == Some(log[j]) ==> i in log[..j]
  }

  /** A bio carries an error exactly when its owner set one or a finished child
      handed one up that has not been overwritten. */
  ghost predicate StatusOk(s: Bios, i: nat)
    requires Wf(s) && i < |s.parent|
  {
    && (!s.ended[i] ==> s.error[i] == 0) && (s.lost[i] ==> s.done[i])
    && (s.status[i] != 0 <==>
      s.error[i] != 0 || exists c :: 0 <= c < |s.parent| && HandsUp(s, c, i))
    && (s.status[i] != 0 && s.status[i] != s.error[i] ==>
      exists c :: 0 <= c < |s.parent| && HandsUp(s, c, i) && s.status[c] == s.status[i])
  }

  predicate HandsUp(s: Bios, c: nat, i: nat)
    requires Wf(s) && c < |s.parent|
  {
    s.parent[c] == Some(i) && s.done[c] && s.status[c] != 0 && !s.lost[c]
  }

  ghost predicate StatusesOk(s: Bios)
    requires Wf(s)
  {
    forall i :: 0 <= i < |s.parent| ==> StatusOk(s, i)
  }

  ghost predicate Inv(s: Bios) {
    Wf(s) && CountsOk(s, -1) && LogOk(s) && StatusesOk(s)
  }

  /** Inside bio_endio: one completion of `cur` is on its way. */
  ghost predicate Mid(s: Bios, cur: nat) {
    Wf(s) && cur < |s.parent| && !s.done[cur] && CountsOk(s, cur) && LogOk(s) && StatusesOk(s)
  }

  // ------------------------------------------------------------- operations

  /** bio_chain */
  function Chain(s: Bios, b: nat, p: nat): Bios
    requires Wf(s) && b < |s.parent| && p < |s.parent|
  {
    s.(parent := s.parent[b := Some(p)], chained := s.chained[p := true],
       remaining := s.remaining[p := s.remaining[p] + 1])
  }

  /** bio_remaining_done says no: other completions are still to come. */
  function Count(s: Bios, cur: nat): Bios
    requires Wf(s) && cur < |s.parent|
  {
    s.(remaining := s.remaining[cur := s.remaining[cur] - 1])
  }

  /** bio_remaining_done says yes, and end_io is run; that of a chained bio hands an
      error to the parent, unless the parent has one. */
  function Finish(s: Bios, cur: nat): Bios
    requires Wf(s) && cur < |s.parent|
  {
    var s1 := s.(done := s.done[cur := true], log := s.log + [cur],
                 chained := s.chained[cur := false],
                 remaining := if s.chained[cur] then s.remaining[cur := s.remaining[cur] - 1] else s.remaining);
    if s.parent[cur].Some? && s.status[cur] != 0 && s.status[s.parent[cur].value] == 0 then
      s1.(status := s.status[s.parent[cur].value := s.status[cur]])
    else s1
  }

  /** The loop of bio_endio, up through the parents. */
  function Complete(s: Bios, cur: nat): Bios
    requires Mid(s, cur)
    decreases Unfinished(s.done)
  {
    if s.chained[cur] && s.remaining[cur] > 1 then Count(s, cur)
    else
      FinishOk(s, cur);
      UnfinishedLess(s.done, cur);
      if s.parent[cur].None? then Finish(s, cur) else Complete(Finish(s, cur), s.parent[cur].value)
  }

  /** The owner ends a bio with an error or 0.  Most owners store only errors; some, as
      blk_crypto_fallback_encrypt_endio and bounce_end_io do, store whatever status
      they have got. */
  function End(s: Bios, b: nat, err: nat, store: bool): Bios
    requires Inv(s) && b < |s.parent| && !s.ended[b]
  {
    EndMid(s, b, err, store);
    Complete(Ended(s, b, err, store), b)
  }

  function Ended(s: Bios, b: nat, err: nat, store: bool): Bios
    requires Wf(s) && b < |s.parent|
  {
    s.(ended := s.ended[b := true], error := s.error[b := err],
       status := if err != 0 || store then s.status[b := err] else s.status,
       lost := if err == 0 && store then Overwritten(s, b) else s.lost)
  }

  /** Storing 0 into `b` undoes what its finished children have handed up. */
  function Overwritten(s: Bios, b: nat): (l: seq<bool>)
    requires Wf(s)
    ensures |l| == |s.lost| && forall c :: 0 <= c < |l| ==> l[c] == (s.lost[c] || (s.parent[c] == Some(b) && s.done[c]))
  {
    seq(|s.lost|, c requires 0 <= c < |s.lost| => s.lost[c] || (s.parent[c] == Some(b) && s.done[c]))
  }

  // ------------------------------------------------------------- preservation

  lemma FinishCounts(s: Bios, cur: nat)
    requires Mid(s, cur) && !(s.chained[cur] && s.remaining[cur] > 1)
    ensures var r := Finish(s, cur);
            Wf(r) && CountsOk(r, if s.parent[cur].Some? then s.parent[cur].value else -1)
  {
    var r, up: int := Finish(s, cur), if s.parent[cur].Some? then s.parent[cur].value else -1;
    forall i | 0 <= i < |s.parent| ensures CountOk(r, i, up) {
      assert CountOk(s, i, cur);
      LiveChange(s, r, i, cur, |s.parent|);
    }
  }

  /** A bio that may finish has been ended, and everything chained to it is done. */
  lemma ReadyToFinish(s: Bios, cur: nat)
    requires Mid(s, cur) && !(s.chained[cur] && s.remaining[cur] > 1)
    ensures s.ended[cur]
    ensures forall i :: 0 <= i < |s.parent| && s.parent[i] == Some(cur) ==> s.done[i]
  {
    assert CountOk(s, cur, cur);
    forall i | 0 <= i < |s.parent| && s.parent[i] == Some(cur) ensures s.done[i] {
      if !s.done[i] {
        LiveSome(s, cur, i, |s.parent|);
      }
    }
  }

  lemma FinishLog(s: Bios, cur: nat)
    requires Mid(s, cur) && !(s.chained[cur] && s.remaining[cur] > 1)
    ensures Wf(Finish(s, cur)) && LogOk(Finish(s, cur))
  {
    var r := Finish(s, cur);
    ReadyToFinish(s, cur);
    assert r.log == s.log + [cur];
    assert cur !in s.log;
    forall i | 0 <= i < |r.parent| && r.done[i] ensures i in r.log {
      assert i == cur || i in s.log;
    }
    forall i, j | 0 <= i < |r.parent| && 0 <= j < |r.log| ensures ChildBefore(r.parent, r.log, i, j) {
      if j == |s.log| {
        assert r.log[..j] == s.log;
      } else {
        assert r.log[..j] == s.log[..j] && ChildBefore(s.parent, s.log, i, j);
      }
    }
  }

  lemma FinishStatus(s: Bios, cur: nat)
    requires Mid(s, cur) && (s.parent[cur].Some? ==> !s.done[s.parent[cur].value])
    ensures Wf(Finish(s, cur)) && StatusesOk(Finish(s, cur))
  {
    var r := Finish(s, cur);
    assert StatusOk(s, cur);
    forall i | 0 <= i < |r.parent| ensures StatusOk(r, i) {
      assert StatusOk(s, i);
      forall c | 0 <= c < |r.parent| && c != cur
        ensures s.parent[c] == Some(i) ==> HandsUp(r, c, i) == HandsUp(s, c, i)
      {
      }
      if s.parent[cur] == Some(i) && s.status[cur] != 0 {
        assert HandsUp(r, cur, i);
      }
    }
  }

  lemma FinishOk(s: Bios, cur: nat)
    requires Mid(s, cur) && !(s.chained[cur] && s.remaining[cur] > 1)
    ensures var r := Finish(s, cur);
            if s.parent[cur].None? then Inv(r) else Mid(r, s.parent[cur].value)
  {
    FinishCounts(s, cur);
    FinishLog(s, cur);
    if s.parent[cur].Some? {
      ParentLive(s, cur);
    }
    FinishStatus(s, cur);
  }

  /** A bio does not finish before what is chained to it, so not before `cur`. */
  lemma ParentLive(s: Bios, cur: nat)
    requires Mid(s, cur) && s.parent[cur].Some? && !(s.chained[cur] && s.remaining[cur] > 1)
    ensures s.parent[cur].value != cur && !s.done[s.parent[cur].value]
  {
    var p := s.parent[cur].value;
    ReadyToFinish(s, cur);
    assert cur !in s.log;
    assert forall j :: 0 <= j < |s.log| ==> ChildBefore(s.parent, s.log, cur, j) && s.parent[cur] != Some(s.log[j]);
    assert p !in s.log;
  }

  lemma CountStep(s: Bios, cur: nat)
    requires Mid(s, cur) && s.chained[cur] && s.remaining[cur] > 1
    ensures Inv(Count(s, cur))
  {
    var r := Count(s, cur);
    forall i | 0 <= i < |s.parent| ensures CountOk(r, i, -1) {
      assert CountOk(s, i, cur);
      LiveChange(s, r, i, cur, |s.parent|);
    }
    forall i | 0 <= i < |s.parent| ensures StatusOk(r, i) {
      assert StatusOk(s, i);
      assert forall c :: 0 <= c < |s.parent| ==> HandsUp(r, c, i) == HandsUp(s, c, i);
    }
  }

  lemma {:induction false} CompleteInv(s: Bios, cur: nat)
    requires Mid(s, cur)
    ensures Inv(Complete(s, cur))
    decreases Unfinished(s.done)
  {
    if s.chained[cur] && s.remaining[cur] > 1 {
      CountStep(s, cur);
    } else {
      FinishOk(s, cur);
      UnfinishedLess(s.done, cur);
      if s.parent[cur].Some? {
        CompleteInv(Finish(s, cur), s.parent[cur].value);
      }
    }
  }

  lemma EndMid(s: Bios, b: nat, err: nat, store: bool)
    requires Inv(s) && b < |s.parent| && !s.ended[b]
    ensures Mid(Ended(s, b, err, store), b)
  {
    var r := Ended(s, b, err, store);
    assert !s.done[b];
    forall i | 0 <= i < |s.parent| ensures CountOk(r, i, b) {
      assert CountOk(s, i, -1);
      LiveChange(s, r, i, b, |s.parent|);
    }
    forall i | 0 <= i < |s.parent| ensures StatusOk(r, i) {
      assert StatusOk(s, i);
      assert forall c :: 0 <= c < |s.parent| ==>
        HandsUp(r, c, i) == (HandsUp(s, c, i) && !(i == b && err == 0 && store));
    }
  }

  lemma EndInv(s: Bios, b: nat, err: nat, store: bool)
    requires Inv(s) && b < |s.parent| && !s.ended[b]
    ensures Inv(End(s, b, err, store))
  {
    EndMid(s, b, err, store);
    CompleteInv(Ended(s, b, err, store), b);
  }

  lemma ChainInv(s: Bios, b: nat, p: nat)
    requires Inv(s) && b < |s.parent| && p < |s.parent| && b != p
    requires s.parent[b].None? && !s.done[b] && !s.done[p]
    ensures Inv(Chain(s, b, p))
  {
    var r := Chain(s, b, p);
    forall i | 0 <= i < |s.parent| ensures CountOk(r, i, -1) {
      assert CountOk(s, i, -1);
      LiveChange(s, r, i, b, |s.parent|);
    }
    forall i | 0 <= i < |s.parent| ensures StatusOk(r, i) {
      assert StatusOk(s, i);
      assert forall c :: 0 <= c < |s.parent| ==> HandsUp(r, c, i) == HandsUp(s, c, i);
    }
    assert forall i, j :: 0 <= i < |s.parent| && 0 <= j < |s.log| ==>
      s.log[j] != p && ChildBefore(s.parent, s.log, i, j) && ChildBefore(r.parent, r.log, i, j);
  }

  // ------------------------------------------------------------- trees of bios

  /** The bio `n` chain links up from `i`. */
  function Up(s: Bios, i: nat, n: nat): (r: Option<nat>)
    requires Wf(s) && i < |s.parent|
    ensures r.Some? ==> r.value < |s.parent|
  {
    if n == 0 then Some(i)
    else
      var u := Up(s, i, n - 1);
      if u.None? then None else s.parent[u.value]
  }

  /** When a bio's end_io has run, every bio in the tree chained to it has been ended
      by its owner and has run its own end_io, no later than it. */
  lemma {:induction false} TreeDone(s: Bios, j: nat, i: nat, n: nat) returns (k: nat)
    requires Inv(s) && j < |s.log| && i < |s.parent| && Up(s, i, n) == Some(s.log[j])
    ensures k <= j && s.log[k] == i && s.done[i] && s.ended[i]
    decreases n
  {
    if n == 0 {
      k := j;
    } else {
      var u := Up(s, i, n - 1).value;
      var l := ChildPosition(s, j, u);
      k := TreeDone(s, l, i, n - 1);
    }
  }

  lemma ChildPosition(s: Bios, j: nat, c: nat) returns (k: nat)
    requires Wf(s) && LogOk(s) && j < |s.log| && c < |s.parent| && s.parent[c] == Some(s.log[j])
    ensures k < j && s.log[k] == c && s.done[c]
  {
    assert ChildBefore(s.parent, s.log, c, j);
    k :| 0 <= k < j && s.log[k] == c;
  }

  /** The bio `n` chain links up from `i`, if nothing handed up on the way has been
      overwritten. */
  function Carried(s: Bios, i: nat, n: nat): (r: Option<nat>)
    requires Wf(s) && i < |s.parent|
    ensures r.Some? ==> r.value < |s.parent| && r == Up(s, i, n)
  {
    if n == 0 then Some(i)
    else
      var u := Carried(s, i, n - 1);
      if u.None? || s.lost[u.value] then None else s.parent[u.value]
  }

  lemma CarriedFromChild(s: Bios, i: nat, n: nat, c: nat, r: nat)
    requires Wf(s) && i < |s.parent| && c < |s.parent| && Carried(s, i, n) == Some(c)
    requires s.parent[c] == Some(r) && !s.lost[c]
    ensures Carried(s, i, n + 1) == Some(r)
  {
  }

  /** An error reaches every bio it is carried up to. */
  lemma {:induction false} ErrorReachesRoot(s: Bios, r: nat, i: nat, n: nat)
    requires Inv(s) && r < |s.parent| && s.done[r]
    requires i < |s.parent| && Carried(s, i, n) == Some(r) && s.error[i] != 0
    ensures s.status[r] != 0
    decreases n
  {
    assert StatusOk(s, r);
    if n > 0 {
      var u := Carried(s, i, n - 1).value;
      var j :| 0 <= j < |s.log| && s.log[j] == r;
      var k := ChildPosition(s, j, u);
      ErrorReachesRoot(s, u, i, n - 1);
      assert HandsUp(s, u, r);
    }
  }

  /** An error at a finished bio is the error some bio of its tree was ended with. */
  lemma {:induction false} ErrorHasSource(s: Bios, r: nat, j: nat) returns (i: nat, n: nat)
    requires Inv(s) && j < |s.log| && s.log[j] == r && s.status[r] != 0
    ensures i < |s.parent| && Carried(s, i, n) == Some(r) && s.error[i] == s.status[r]
    decreases j
  {
    assert StatusOk(s, r);
    if s.status[r] == s.error[r] {
      i, n := r, 0;
    } else {
      var c :| 0 <= c < |s.parent| && HandsUp(s, c, r) && s.status[c] == s.status[r];
      var k := ChildPosition(s, j, c);
      i, n := ErrorHasSource(s, c, k);
      CarriedFromChild(s, i, n, c, r);
      n := n + 1;
    }
  }

  /** Some bio of the tree of `r` was ended with error `e`, and nobody on the way up
      overwrote it with 0. */
  ghost predicate CarriedError(s: Bios, r: nat, e: nat)
    requires Wf(s)
  {
    exists i: nat, n: nat :: i < |s.parent| && Carried(s, i, n) == Some(r) && s.error[i] == e
  }

  /** The status a bio's end_io sees is an error exactly when some bio of the tree
      chained to it was ended with one that was not overwritten on its way up, and then
      it is one of those errors. */
  lemma StatusIff(s: Bios, r: nat)
    requires Inv(s) && r < |s.parent| && s.done[r]
    ensures s.status[r] != 0 <==> exists e: nat :: e != 0 && CarriedError(s, r, e)
    ensures s.status[r] != 0 ==> CarriedError(s, r, s.status[r])
  {
    if s.status[r] != 0 {
      var j :| 0 <= j < |s.log| && s.log[j] == r;
      var i, n := ErrorHasSource(s, r, j);
      assert CarriedError(s, r, s.status[r]);
    }
    forall e: nat | e != 0 && CarriedError(s, r, e) ensures s.status[r] != 0 {
      var i: nat, n: nat :| i < |s.parent| && Carried(s, i, n) == Some(r) && s.error[i] == e;
      ErrorReachesRoot(s, r, i, n);
    }
  }

  /** Some bio of the tree of `r` was ended with error `e`. */
  ghost predicate TreeError(s: Bios, r: nat, e: nat)
    requires Wf(s)
  {
    exists i: nat, n: nat :: i < |s.parent| && Up(s, i, n) == Some(r) && s.error[i] == e
  }

  lemma {:induction false} NothingLost(s: Bios, i: nat, n: nat)
    requires Wf(s) && i < |s.parent| && forall c :: 0 <= c < |s.parent| ==> !s.lost[c]
    ensures Carried(s, i, n) == Up(s, i, n)
  {
    if n > 0 {
      NothingLost(s, i, n - 1);
    }
  }

  /** So when no owner stores 0 over what was handed up to it, the status is an error
      exactly when any bio of the tree was ended with one. */
  lemma StatusIffTree(s: Bios, r: nat)
    requires Inv(s) && r < |s.parent| && s.done[r] && forall c :: 0 <= c < |s.parent| ==> !s.lost[c]
    ensures s.status[r] != 0 <==> exists e: nat :: e != 0 && TreeError(s, r, e)
  {
    StatusIff(s, r);
    forall e: nat ensures TreeError(s, r, e) <==> CarriedError(s, r, e) {
      if TreeError(s, r, e) {
        var i: nat, n: nat :| i < |s.parent| && Up(s, i, n) == Some(r) && s.error[i] == e;
        NothingLost(s, i, n);
      }
      if CarriedError(s, r, e) {
        var i: nat, n: nat :| i < |s.parent| && Carried(s, i, n) == Some(r) && s.error[i] == e;
      }
    }
  }

  // ------------------------------------------------------------- progress

  /** `rank` grows along every chain link: there is no cycle. */
  predicate Ranked(parent: seq<Option<nat>>, rank: seq<nat>) {
    && |rank| == |parent|
    && forall i :: 0 <= i < |parent| && parent[i].Some? ==>
         parent[i].value < |parent| && rank[i] < rank[parent[i].value]
  }

  ghost predicate Acyclic(parent: seq<Option<nat>>) {
    exists rank :: Ranked(parent, rank)
  }

  /** Once its owner and the owners of all bios have ended them, nothing is left
      waiting. */
  lemma {:induction false} EverythingFinishes(s: Bios, rank: seq<nat>, i: nat)
    requires Inv(s) && Ranked(s.parent, rank) && i < |s.parent|
    requires forall k :: 0 <= k < |s.parent| ==> s.ended[k]
    ensures s.done[i]
    decreases rank[i]
  {
    forall c | 0 <= c < |s.parent| ensures !LiveChild(s, i, c) {
      if s.parent[c] == Some(i) {
        EverythingFinishes(s, rank, c);
      }
    }
    LiveNone(s, i, |s.parent|);
    assert CountOk(s, i, -1);
  }

  // ------------------------------------------------------------- runs

  datatype Event = DoChain(b: nat, p: nat) | DoEnd(b: nat, err: nat, store: bool)

  /** Bios are chained once, before they finish, without making a cycle; each owner
      ends its bio once. */
  ghost predicate Enabled(s: Bios, ev: Event) {
    match ev
    case DoChain(b, p) =>
      && b < |s.parent| && p < |s.parent| && |s.done| == |s.parent| && s.parent[b].None? && !s.done[b] && !s.done[p]
      && Acyclic(s.parent[b := Some(p)])
    case DoEnd(b, _, _) => b < |s.parent| && |s.ended| == |s.parent| && !s.ended[b]
  }

  function Next(s: Bios, ev: Event): Bios
    requires Inv(s) && Enabled(s, ev)
  {
    match ev
    case DoChain(b, p) => Chain(s, b, p)
    case DoEnd(b, err, store) => End(s, b, err, store)
  }

  predicate Start(s: Bios) {
    && Wf(s) && s.log == []
    && (forall i :: 0 <= i < |s.parent| ==> s.parent[i].None? && s.remaining[i] == 1 && !s.chained[i])
    && (forall i :: 0 <= i < |s.parent| ==> s.status[i] == 0 && !s.ended[i] && s.error[i] == 0 && !s.done[i])
    && (forall i :: 0 <= i < |s.parent| ==> !s.lost[i])
  }

  ghost predicate Good(s: Bios) {
    Inv(s) && Acyclic(s.parent)
  }

  lemma StartGood(s: Bios)
    requires Start(s)
    ensures Good(s)
  {
    forall i | 0 <= i < |s.parent| ensures CountOk(s, i, -1) {
      LiveNone(s, i, |s.parent|);
    }
    assert StatusesOk(s);
    assert Ranked(s.parent, seq(|s.parent|, i => 0));
  }

  lemma NextGood(s: Bios, ev: Event)
    requires Good(s) && Enabled(s, ev)
    ensures Good(Next(s, ev))
  {
    match ev
    case DoChain(b, p) =>
      var rank :| Ranked(s.parent[b := Some(p)], rank);
      assert s.parent[b := Some(p)][b] == Some(p);
      ChainInv(s, b, p);
    case DoEnd(b, err, store) =>
      EndInv(s, b, err, store);
      EndMid(s, b, err, store);
      CompleteKeeps(Ended(s, b, err, store), b);
  }

  /** Completion changes neither the chaining nor what the owners did. */
  lemma {:induction false} CompleteKeeps(s: Bios, cur: nat)
    requires Mid(s, cur)
    ensures var r := Complete(s, cur);
            r.parent == s.parent && r.ended == s.ended && r.error == s.error && r.lost == s.lost
    decreases Unfinished(s.done)
  {
    if !(s.chained[cur] && s.remaining[cur] > 1) {
      FinishOk(s, cur);
      UnfinishedLess(s.done, cur);
      if s.parent[cur].Some? {
        CompleteKeeps(Finish(s, cur), s.parent[cur].value);
      }
    }
  }

  ghost predicate IsRun(run: seq<Bios>, evs: seq<Event>) {
    |run| == |evs| + 1 && Start(run[0]) && forall k :: 0 <= k < |evs| ==> Took(run, evs, k)
  }

  ghost predicate Took(run: seq<Bios>, evs: seq<Event>, k: nat)
    requires |run| == |evs| + 1 && k < |evs|
  {
    Good(run[k]) ==> Enabled(run[k], evs[k]) && run[k + 1] == Next(run[k], evs[k])
  }

  lemma {:induction false} RunGood(run: seq<Bios>, evs: seq<Event>, k: nat)
    requires IsRun(run, evs) && k <= |evs|
    ensures Good(run[k])
  {
    if k == 0 {
      StartGood(run[0]);
    } else {
      RunGood(run, evs, k - 1);
      assert Took(run, evs, k - 1);
      NextGood(run[k - 1], evs[k - 1]);
    }
  }

  /** Step `j` stores 0 into the parent of `c` after `c` has finished. */
  ghost predicate Overwrites(run: seq<Bios>, evs: seq<Event>, j: nat, c: nat)
    requires |run| == |evs| + 1 && j < |evs|
  {
    && evs[j].DoEnd? && evs[j].err == 0 && evs[j].store
    && Wf(run[j]) && c < |run[j].parent| && run[j].done[c] && run[j].parent[c] == Some(evs[j].b)
  }

  lemma NextLost(s: Bios, ev: Event, c: nat)
    requires Good(s) && Enabled(s, ev) && c < |s.parent|
    ensures Wf(Next(s, ev)) && |Next(s, ev).parent| == |s.parent|
    ensures Next(s, ev).lost[c] <==>
            s.lost[c] || (ev.DoEnd? && ev.err == 0 && ev.store && s.done[c] && s.parent[c] == Some(ev.b))
  {
    NextGood(s, ev);
    if ev.DoEnd? {
      EndMid(s, ev.b, ev.err, ev.store);
      CompleteKeeps(Ended(s, ev.b, ev.err, ev.store), ev.b);
    }
  }

  /** What a bio handed up is lost exactly when the owner of its parent stored 0 after it
      had finished. */
  lemma {:induction false} LostIff(run: seq<Bios>, evs: seq<Event>, k: nat, c: nat)
    requires IsRun(run, evs) && k <= |evs| && c < |run[0].parent|
    ensures Wf(run[k]) && |run[k].parent| == |run[0].parent|
    ensures run[k].lost[c] <==> exists j :: 0 <= j < k && Overwrites(run, evs, j, c)
  {
    if k > 0 {
      LostIff(run, evs, k - 1, c);
      RunGood(run, evs, k - 1);
      assert Took(run, evs, k - 1);
      NextLost(run[k - 1], evs[k - 1], c);
      assert Overwrites(run, evs, k - 1, c) || run[k].lost[c] == run[k - 1].lost[c];
    }
  }

  lemma {:induction false} OnceInLog(l: seq<nat>, i: nat)
    requires forall j, k :: 0 <= j < k < |l| ==> l[j] != l[k]
    ensures multiset(l)[i] == if i in l then 1 else 0
    decreases |l|
  {
    if l != [] {
      OnceInLog(l[1..], i);
      assert l == [l[0]] + l[1..];
    }
  }

  /** Whatever was chained and in whatever order the bios ended: every end_io that ran
      did so once, and once all owners have ended their bios, every one has run. */
  lemma RunCompletes(run: seq<Bios>, evs: seq<Event>)
    requires IsRun(run, evs)
    ensures var s := run[|evs|];
            && Inv(s)
            && (forall i :: 0 <= i < |s.parent| ==> multiset(s.log)[i] == if s.done[i] then 1 else 0)
            && ((forall i :: 0 <= i < |s.parent| ==> s.ended[i]) ==> forall i :: 0 <= i < |s.parent| ==> s.done[i])
  {
    RunGood(run, evs, |evs|);
    var s := run[|evs|];
    forall i | 0 <= i < |s.parent| ensures multiset(s.log)[i] == if s.done[i] then 1 else 0 {
      OnceInLog(s.log, i);
    }
    if forall i :: 0 <= i < |s.parent| ==> s.ended[i] {
      var rank :| Ranked(s.parent, rank);
      forall i | 0 <= i < |s.parent| ensures s.done[i] {
        EverythingFinishes(s, rank, i);
      }
    }
  }

  // ------------------------------------------------------------- an error overwritten

  /** Two bios, before anything has happened to them. */
  function Pair(): Bios {
    Bios([None, None], [1, 1], [false, false], [0, 0], [false, false], [0, 0], [false, false], [], [false, false])
  }

  /** The front part of a split bio, chained to the rest, has ended with error 5. */
  function FrontFailed(): Bios {
    Bios([Some(1), None], [1, 1], [false, true], [5, 5], [true, false], [5, 0], [true, false], [0], [false, false])
  }

  /** The front part ends while the rest is outstanding. */
  function FrontEnds(): Bios {
    Ended(Chain(Pair(), 0, 1), 0, 5, false)
  }

  lemma FrontEndsIs()
    ensures FrontEnds() ==
            Bios([Some(1), None], [1, 2], [false, true], [5, 0], [true, false], [5, 0], [false, false], [],
                 [false, false])
  {
  }

  lemma FrontCounts()
    ensures Count(Finish(FrontEnds(), 0), 1) == FrontFailed()
  {
    FrontEndsIs();
  }

  /** A completion that finishes `cur` and is then only counted. */
  lemma CompleteTwice(s: Bios, cur: nat, p: nat)
    requires Mid(s, cur) && !(s.chained[cur] && s.remaining[cur] > 1) && s.parent[cur] == Some(p)
    requires Mid(Finish(s, cur), p) && Finish(s, cur).chained[p] && Finish(s, cur).remaining[p] > 1
    ensures Complete(s, cur) == Count(Finish(s, cur), p)
  {
    UnfinishedLess(s.done, cur);
  }

  lemma PairChained()
    ensures Start(Pair()) && Inv(Chain(Pair(), 0, 1)) && Mid(FrontEnds(), 0)
  {
    StartGood(Pair());
    ChainInv(Pair(), 0, 1);
    EndMid(Chain(Pair(), 0, 1), 0, 5, false);
  }

  lemma FrontFails()
    ensures Start(Pair()) && Inv(Chain(Pair(), 0, 1)) && End(Chain(Pair(), 0, 1), 0, 5, false) == FrontFailed()
  {
    PairChained();
    assert Complete(FrontEnds(), 0) == FrontFailed() by {
      FrontEndsIs();
      FinishOk(FrontEnds(), 0);
      CompleteTwice(FrontEnds(), 0, 1);
      FrontCounts();
    }
  }

  lemma RestFinishes()
    ensures Finish(Ended(FrontFailed(), 1, 0, true), 1) ==
            Bios([Some(1), None], [1, 0], [false, false], [5, 0], [true, true], [5, 0], [true, true], [0, 1],
                 [true, false])
  {
  }

  /** The rest is then ended by an owner that stores its own success, as the encryption
      fallback does: the end_io of the whole sees no error. */
  lemma ErrorOverwritten()
    ensures Inv(FrontFailed())
    ensures var s := End(FrontFailed(), 1, 0, true);
            Wf(s) && |s.parent| == 2 && s.done[1] && s.status[1] == 0 && s.parent[0] == Some(1) && s.error[0] == 5
  {
    FrontFails();
    EndInv(Chain(Pair(), 0, 1), 0, 5, false);
    EndMid(FrontFailed(), 1, 0, true);
    RestFinishes();
  }

  // ------------------------------------------------------------- in place

  class Pool {
    var parent: seq<Option<nat>>
    var remaining: seq<int>
    var chained: seq<bool>
    var status: seq<nat>
    var ended: seq<bool>
    var error: seq<nat>
    var done: seq<bool>
    var log: seq<nat>
    var lost: seq<bool>

    function View(): Bios
      reads this
    {
      Bios(parent, remaining, chained, status, ended, error, done, log, lost)
    }

    constructor (n: nat)
      ensures |parent| == n && Start(View()) && Inv(View())
    {
      parent, remaining, chained := seq(n, i => None), seq(n, i => 1), seq(n, i => false);
      status, error := seq(n, i => 0), seq(n, i => 0);
      ended, done, lost, log := seq(n, i => false), seq(n, i => false), seq(n, i => false), [];
      new;
      StartGood(View());
    }

    method BioChain(b: nat, p: nat)
      requires Inv(View()) && b < |parent| && p < |parent| && b != p
      requires parent[b].None? && !done[b] && !done[p]
      modifies this
      ensures View() == Chain(old(View()), b, p) && Inv(View())
    {
      ChainInv(View(), b, p);
      parent := parent[b := Some(p)];
      chained := chained[p := true];
      remaining := remaining[p := remaining[p] + 1];
    }

    /** bio_remaining_done; the counter is positive whenever it is looked at. */
    method RemainingDone(cur: nat) returns (last: bool)
      requires Mid(View(), cur)
      modifies this`remaining, this`chained
      ensures last == !(old(chained)[cur] && old(remaining)[cur] > 1)
      ensures !last ==> View() == Count(old(View()), cur)
      ensures last ==> chained == old(chained)[cur := false]
      ensures last ==>
        remaining == if old(chained)[cur] then old(remaining)[cur := old(remaining)[cur] - 1] else old(remaining)
    {
      if !chained[cur] {
        assert chained == chained[cur := false];
        return true;
      }
      assert CountOk(View(), cur, cur);
      assert remaining[cur] > 0;
      remaining := remaining[cur := remaining[cur] - 1];
      if remaining[cur] == 0 {
        chained := chained[cur := false];
        return true;
      }
      return false;
    }

    /** One round of the loop: count the completion, and when it was the last one run
        end_io; the parent, if any, is next. */
    method Round(cur: nat) returns (next: Option<nat>)
      requires Mid(View(), cur)
      modifies this
      ensures var s, more := old(View()), old(chained)[cur] && old(remaining)[cur] > 1;
              && View() == (if more then Count(s, cur) else Finish(s, cur))
              && next == if more then None else s.parent[cur]
    {
      var last := RemainingDone(cur);
      if !last {
        return None;
      }
      done := done[cur := true];
      log := log + [cur];
      next := parent[cur];
      if next.Some? && status[cur] != 0 && status[next.value] == 0 {
        status := status[next.value := status[cur]];
      }
    }

    /** What the owner leaves behind before calling bio_endio. */
    method Note(b: nat, err: nat, store: bool)
      requires Wf(View()) && b < |parent|
      modifies this
      ensures View() == Ended(old(View()), b, err, store)
    {
      if err == 0 && store {
        lost := Overwritten(View(), b);
      }
      ended, error := ended[b := true], error[b := err];
      if err != 0 || store {
        status := status[b := err];
      }
    }

    /** The owner sets the status and calls bio_endio. */
    method BioEndio(b: nat, err: nat, store: bool)
      requires Inv(View()) && b < |parent| && !ended[b]
      modifies this
      ensures View() == End(old(View()), b, err, store) && Inv(View())
    {
      EndMid(View(), b, err, store);
      EndInv(View(), b, err, store);
      ghost var goal := End(View(), b, err, store);
      Note(b, err, store);
      var cur := Some(b);
      while cur.Some?
        invariant if cur.Some? then Mid(View(), cur.value) && Complete(View(), cur.value) == goal else View() == goal
        decreases cur.Some?, Unfinished(done)
      {
        if !(chained[cur.value] && remaining[cur.value] > 1) {
          FinishOk(View(), cur.value);
          UnfinishedLess(done, cur.value);
        }
        cur := Round(cur.value);
      }
    }
  }
}
