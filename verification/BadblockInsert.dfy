/** Inserting a range, as badblocks_set does it: extend the range before, extend
    the range after, join the two, and put whatever is left into new entries. */
module BadblockInsert {
  import opened BadblockTable

  /** The table, the insertion index and the part [s, s + rem) still to be recorded. */
  datatype Insertion = Insertion(t: seq<Range>, hi: nat, s: nat, rem: nat)

  /** The number of ranges that start at or before `s`. */
  function Slot(t: seq<Range>, s: nat): (k: nat)
    ensures k <= |t|
    ensures Sorted(t) ==> forall i :: 0 <= i < k ==> t[i].start <= s
    ensures Sorted(t) ==> forall i :: k <= i < |t| ==> t[i].start > s
  {
    if t == [] || t[0].start > s then 0 else 1 + Slot(t[1..], s)
  }

  lemma {:induction false} SlotIs(t: seq<Range>, s: nat, k: nat)
    requires k <= |t|
    requires forall i :: 0 <= i < k ==> t[i].start <= s
    requires k < |t| ==> t[k].start > s
    ensures Slot(t, s) == k
  {
    if k > 0 {
      SlotIs(t[1..], s, k - 1);
    }
  }

  function MergeBefore(i: Insertion, ack: bool): (r: Insertion)
    requires i.hi <= |i.t|
    ensures r.hi == i.hi && |r.t| == |i.t|
  {
    if i.hi == 0 || i.t[i.hi - 1].End() < i.s then i
    else
      var r := i.t[i.hi - 1];
      var a := r.start;
      var k := if i.s == a && i.s + i.rem >= r.End() then ack else r.ack && ack;
      var e := if r.End() < i.s + i.rem then i.s + i.rem else r.End();
      if e - a <= BB_MAX_LEN then Insertion(i.t[i.hi - 1 := Range(a, e - a, k)], i.hi, e, 0)
      else
        Insertion(if r.len != BB_MAX_LEN then i.t[i.hi - 1 := Range(a, BB_MAX_LEN, k)] else i.t,
                  i.hi, a + BB_MAX_LEN, e - (a + BB_MAX_LEN))
  }

  function MergeAfter(i: Insertion, ack: bool): (r: Insertion)
    requires i.hi <= |i.t|
    ensures r.hi <= |r.t| == |i.t|
  {
    if i.rem == 0 || i.hi == |i.t| || i.t[i.hi].start > i.s + i.rem then i
    else
      var r := i.t[i.hi];
      var full := r.End() <= i.s + i.rem;
      var e := if full then i.s + i.rem else r.End();
      var k := if full then ack else r.ack && ack;
      if e - i.s <= BB_MAX_LEN then Insertion(i.t[i.hi := Range(i.s, e - i.s, k)], i.hi + 1, e, 0)
      else
        Insertion(i.t[i.hi := Range(i.s, BB_MAX_LEN, k)], i.hi + 1, i.s + BB_MAX_LEN, e - (i.s + BB_MAX_LEN))
  }

  /** The two neighbours are combined; the new length is never compared to zero. */
  predicate Joins(i: Insertion) {
    && i.rem == 0 && 0 < i.hi < |i.t| && i.s >= i.t[i.hi].start
    && 0 < NewLen(i) + BB_MAX_LEN < 2 * BB_MAX_LEN
  }

  function NewLen(i: Insertion): int
    requires 0 < i.hi < |i.t|
  {
    i.t[i.hi - 1].len + i.t[i.hi].len - (i.s - i.t[i.hi].start)
  }

  function Join(i: Insertion): (r: Insertion)
    requires i.hi <= |i.t|
    ensures r.hi <= |r.t| <= |i.t|
  {
    if !Joins(i) then i
    else
      var l, h := i.t[i.hi - 1], i.t[i.hi];
      i.(t := i.t[..i.hi - 1] + [Made(l.start, NewLen(i), l.ack && h.ack)] + i.t[i.hi + 1..])
  }

  function Inserted(t: seq<Range>, k: nat, r: Range): (u: seq<Range>)
    requires k <= |t|
    ensures |u| == |t| + 1
  {
    t[..k] + [r] + t[k..]
  }

  /** The next new entry. */
  function NextEntry(i: Insertion, ack: bool): Range {
    Range(i.s, if i.rem > BB_MAX_LEN then BB_MAX_LEN else i.rem, ack)
  }

  /** One round of adding entries; the insertion index stays. */
  function AddOne(i: Insertion, ack: bool): Insertion
    requires i.hi <= |i.t| && i.rem > 0
  {
    var r := NextEntry(i, ack);
    Insertion(Inserted(i.t, i.hi, r), i.hi, i.s + r.len, i.rem - r.len)
  }

  /** New entries for the rest; fails when the table is full. */
  function AddRest(i: Insertion, ack: bool): (seq<Range>, int)
    requires i.hi <= |i.t|
    decreases i.rem
  {
    if i.rem == 0 then (i.t, 0)
    else if |i.t| >= MAX_BADBLOCKS then (i.t, 1)
    else AddRest(AddOne(i, ack), ack)
  }

  /** The stages of badblocks_set on a rounded range. */
  function Merged1(t: seq<Range>, s: nat, n: nat, ack: bool): (r: Insertion)
    ensures r.hi <= |r.t| == |t|
  {
    MergeBefore(Insertion(t, Slot(t, s), s, n), ack)
  }

  function Merged2(t: seq<Range>, s: nat, n: nat, ack: bool): (r: Insertion)
    ensures r.hi <= |r.t| == |t|
  {
    MergeAfter(Merged1(t, s, n, ack), ack)
  }

  function SetRange(t: seq<Range>, s: nat, n: nat, ack: bool): (seq<Range>, int) {
    AddRest(Join(Merged2(t, s, n, ack)), ack)
  }

  // ------------------------------------------------------------- lists of ranges

  lemma BadAt(t: seq<Range>, i: nat, x: int)
    requires i < |t| && In(t[i], x)
    ensures Bad(t, x)
  {
  }

  lemma MarkedAt(t: seq<Range>, i: nat, x: int, ack: bool)
    requires i < |t| && In(t[i], x) && t[i].ack == ack
    ensures Marked(t, x, ack)
  {
  }

  /** Replacing one range by another one changes the sectors by their difference. */
  lemma BadReplaced(t: seq<Range>, i: nat, r: Range, x: int)
    requires i < |t|
    ensures Bad(t[i := r], x) <==> In(r, x) || exists j :: 0 <= j < |t| && j != i && In(t[j], x)
  {
    var u := t[i := r];
    if In(r, x) {
      BadAt(u, i, x);
    }
    if j :| 0 <= j < |t| && j != i && In(t[j], x) {
      BadAt(u, j, x);
    }
  }

  lemma BadInserted(t: seq<Range>, i: nat, r: Range, x: int)
    requires i <= |t|
    ensures Bad(Inserted(t, i, r), x) <==> In(r, x) || Bad(t, x)
  {
    var u := Inserted(t, i, r);
    if In(r, x) {
      BadAt(u, i, x);
    }
    if k :| 0 <= k < |t| && In(t[k], x) {
      BadAt(u, if k < i then k else k + 1, x);
    }
    if k :| 0 <= k < |u| && In(u[k], x) && k != i {
      BadAt(t, if k < i then k else k - 1, x);
    }
  }

  lemma MarkedInserted(t: seq<Range>, i: nat, r: Range, x: int, ack: bool)
    requires i <= |t|
    ensures Marked(Inserted(t, i, r), x, ack) <==> (In(r, x) && r.ack == ack) || Marked(t, x, ack)
  {
    var u := Inserted(t, i, r);
    if In(r, x) && r.ack == ack {
      MarkedAt(u, i, x, ack);
    }
    if k :| 0 <= k < |t| && In(t[k], x) && t[k].ack == ack {
      MarkedAt(u, if k < i then k else k + 1, x, ack);
    }
    if k :| 0 <= k < |u| && In(u[k], x) && u[k].ack == ack && k != i {
      MarkedAt(t, if k < i then k else k - 1, x, ack);
    }
  }

  lemma BadWithout(t: seq<Range>, k: nat, x: int)
    requires 0 < k < |t|
    ensures Bad(t, x) <==> Bad(t[..k - 1] + t[k + 1..], x) || In(t[k - 1], x) || In(t[k], x)
  {
    var u := t[..k - 1] + t[k + 1..];
    if i :| 0 <= i < |t| && In(t[i], x) && i != k - 1 && i != k {
      BadAt(u, if i < k - 1 then i else i - 2, x);
    }
    if i :| 0 <= i < |u| && In(u[i], x) {
      BadAt(t, if i < k - 1 then i else i + 2, x);
    }
  }

  // ------------------------------------------------------------- merging

  ghost predicate Recorded(i: Insertion, x: int) {
    Bad(i.t, x) || i.s <= x < i.s + i.rem
  }

  /** Sectors that count as acknowledged: recorded as such, or about to be. */
  ghost predicate Acked(i: Insertion, ack: bool, x: int) {
    Marked(i.t, x, true) || (ack && i.s <= x < i.s + i.rem)
  }

  ghost predicate Starts(i: Insertion) {
    i.hi <= |i.t| && i.rem > 0 && (i.hi > 0 ==> RangeOk(i.t[i.hi - 1]) && i.t[i.hi - 1].start <= i.s)
  }

  lemma MergeBeforeBad(i: Insertion, ack: bool, x: int)
    requires Starts(i)
    ensures Recorded(MergeBefore(i, ack), x) <==> Recorded(i, x)
  {
    var j := MergeBefore(i, ack);
    if i.hi > 0 && i.t[i.hi - 1].End() >= i.s {
      BadReplaced(i.t, i.hi - 1, j.t[i.hi - 1], x);
      BadReplaced(i.t, i.hi - 1, i.t[i.hi - 1], x);
      assert i.t == i.t[i.hi - 1 := i.t[i.hi - 1]] && j.t == i.t[i.hi - 1 := j.t[i.hi - 1]];
    }
  }

  lemma MergeBeforeAck(i: Insertion, ack: bool, x: int)
    requires Starts(i) && Acked(MergeBefore(i, ack), ack, x)
    ensures Acked(i, ack, x)
  {
    var j := MergeBefore(i, ack);
    if k :| 0 <= k < |j.t| && In(j.t[k], x) && j.t[k].ack {
      if In(i.t[k], x) && i.t[k].ack {
        MarkedAt(i.t, k, x, true);
      }
    }
  }

  /** What merging with the range before leaves of a sorted table: everything below the
      insertion point ends by `s`, the ranges above it are sorted, and one that starts
      below `s` lies above the start of the range before. */
  ghost predicate Opened(i: Insertion) {
    && i.hi <= |i.t| && Sorted(i.t[..i.hi]) && Sorted(i.t[i.hi..])
    && (i.hi > 0 ==> i.t[i.hi - 1].End() <= i.s)
    && (i.rem == 0 ==> i.hi > 0 && i.t[i.hi - 1].End() == i.s)
    && (i.hi < |i.t| ==> i.t[i.hi].start > i.s || Nested(i))
  }

  predicate Nested(i: Insertion)
    requires i.hi < |i.t|
  {
    i.hi > 0 && i.t[i.hi - 1].End() == i.s && i.t[i.hi - 1].start < i.t[i.hi].start
  }

  lemma SortedPart(t: seq<Range>, a: nat, b: nat)
    requires Sorted(t) && a <= b <= |t|
    ensures Sorted(t[a..b]) && (a == 0 ==> t[a..b] == t[..b]) && (b == |t| ==> t[a..b] == t[a..])
  {
  }

  lemma SortedReplaced(t: seq<Range>, i: nat, r: Range)
    requires Sorted(t) && i < |t| && RangeOk(r)
    requires i > 0 ==> t[i - 1].End() <= r.start
    requires i + 1 < |t| ==> r.End() <= t[i + 1].start
    ensures Sorted(t[i := r])
  {
    forall j | 0 <= j < i ensures t[j].End() <= r.start {
      assert j < i - 1 ==> t[j].End() <= t[i - 1].start;
    }
    forall j | i < j < |t| ensures r.End() <= t[j].start {
      assert i + 1 < j ==> t[i + 1].End() <= t[j].start;
    }
  }

  lemma Opens(t: seq<Range>, s: nat, n: nat, ack: bool)
    requires Sorted(t) && n > 0
    ensures Opened(Merged1(t, s, n, ack))
  {
    var k := Slot(t, s);
    SortedPart(t, 0, k);
    SortedPart(t, k, |t|);
    if k > 0 && t[k - 1].End() >= s {
      MergedBefore(t, k, s, n, ack);
      SortedReplaced(t[..k], k - 1, Merged1(t, s, n, ack).t[k - 1]);
    }
  }

  /** Merging replaces the range before the insertion point by one that ends at the new
      `s`. */
  lemma MergedBefore(t: seq<Range>, k: nat, s: nat, n: nat, ack: bool)
    requires Sorted(t) && 0 < k <= |t| && n > 0 && t[k - 1].start <= s <= t[k - 1].End()
    ensures var j := MergeBefore(Insertion(t, k, s, n), ack);
            var r := j.t[k - 1];
            && j.t[..k] == t[..k][k - 1 := r] && j.t[k..] == t[k..]
            && RangeOk(r) && r.start == t[k - 1].start && r.End() == j.s >= s
  {
    var j := MergeBefore(Insertion(t, k, s, n), ack);
    assert j.t == t[k - 1 := j.t[k - 1]];
  }

  lemma MergeAfterBad(i: Insertion, ack: bool, x: int)
    requires Opened(i)
    ensures Recorded(MergeAfter(i, ack), x) <==> Recorded(i, x)
  {
    var j := MergeAfter(i, ack);
    if i.rem > 0 && i.hi < |i.t| && i.t[i.hi].start <= i.s + i.rem {
      BadReplaced(i.t, i.hi, j.t[i.hi], x);
      BadReplaced(i.t, i.hi, i.t[i.hi], x);
      assert i.t == i.t[i.hi := i.t[i.hi]] && j.t == i.t[i.hi := j.t[i.hi]];
      if In(i.t[i.hi], x) && x < i.s {
        assert In(i.t[i.hi - 1], x);
      }
    }
  }

  /** Everything but the rest of a range that spills over is as acknowledged as before. */
  lemma MergeAfterAck(i: Insertion, ack: bool, x: int)
    requires i.hi <= |i.t| && Marked(MergeAfter(i, ack).t, x, true)
    ensures Acked(i, ack, x)
  {
    var j := MergeAfter(i, ack);
    var k :| 0 <= k < |j.t| && In(j.t[k], x) && j.t[k].ack;
    if In(i.t[k], x) && i.t[k].ack {
      MarkedAt(i.t, k, x, true);
    }
  }

  // ------------------------------------------------------------- joining

  /** Where the merges end: the range before the insertion point ends at `s`, those below
      it end before it starts, and the range after it starts above it, or in the range
      that it continues. */
  ghost predicate Poised(i: Insertion) {
    && i.hi <= |i.t| && (forall j :: 0 <= j < |i.t| ==> RangeOk(i.t[j]))
    && (i.rem == 0 ==>
          && 0 < i.hi && i.t[i.hi - 1].End() == i.s
          && (forall j :: 0 <= j < i.hi - 1 ==> i.t[j].End() <= i.t[i.hi - 1].start)
          && (i.hi < |i.t| ==> i.t[i.hi].start >= i.t[i.hi - 1].start || Inside(i)))
  }

  predicate Inside(i: Insertion)
    requires 0 < i.hi < |i.t|
  {
    i.hi > 1 && i.t[i.hi - 2].start <= i.t[i.hi].start && i.t[i.hi - 2].End() == i.t[i.hi - 1].start
  }

  lemma Poises(t: seq<Range>, s: nat, n: nat, ack: bool)
    requires Sorted(t) && n > 0
    ensures Poised(Merged2(t, s, n, ack))
  {
    var i, j := Merged1(t, s, n, ack), Merged2(t, s, n, ack);
    Opens(t, s, n, ack);
    PoisesFrom(i, ack);
  }

  lemma PoisesFrom(i: Insertion, ack: bool)
    requires Opened(i)
    ensures Poised(MergeAfter(i, ack))
  {
    OpenedBelow(i);
    OpenedAbove(i);
    var j := MergeAfter(i, ack);
    if i.rem > 0 && i.hi < |i.t| && i.t[i.hi].start <= i.s + i.rem {
      assert j.t == i.t[i.hi := j.t[i.hi]] && j.hi == i.hi + 1;
    }
  }

  lemma OpenedBelow(i: Insertion)
    requires Opened(i)
    ensures forall k :: 0 <= k < i.hi ==> RangeOk(i.t[k]) && i.t[k].End() <= i.s
    ensures forall k :: 0 <= k < i.hi - 1 ==> i.t[k].End() <= i.t[i.hi - 1].start
  {
    var a := i.t[..i.hi];
    forall k | 0 <= k < i.hi
      ensures RangeOk(i.t[k]) && i.t[k].End() <= i.s && (k < i.hi - 1 ==> i.t[k].End() <= i.t[i.hi - 1].start)
    {
      assert a[k] == i.t[k] && a[i.hi - 1] == i.t[i.hi - 1];
    }
  }

  lemma OpenedAbove(i: Insertion)
    requires Opened(i)
    ensures forall k :: i.hi <= k < |i.t| ==> RangeOk(i.t[k])
    ensures i.hi + 1 < |i.t| ==> i.t[i.hi].End() <= i.t[i.hi + 1].start
  {
    var b := i.t[i.hi..];
    forall k | i.hi <= k < |i.t| ensures RangeOk(i.t[k]) {
      assert b[k - i.hi] == i.t[k];
    }
    if i.hi + 1 < |i.t| {
      assert b[0] == i.t[i.hi] && b[1] == i.t[i.hi + 1];
    }
  }

  /** The new length stays above the one that BB_MAKE could no longer tell apart. */
  lemma JoinLength(i: Insertion)
    requires Poised(i) && i.rem == 0 && i.hi < |i.t|
    ensures NewLen(i) == i.t[i.hi].End() - i.t[i.hi - 1].start && NewLen(i) + BB_MAX_LEN > 0
  {
  }

  /** Joining writes an entry of length zero or less: the range after the insertion point
      ends below the new entry. */
  predicate Garbles(i: Insertion) {
    Joins(i) && NewLen(i) <= 0
  }

  /** Sector `x` of the new range lies beyond the range it is joined with, and in no other
      range. */
  ghost predicate Dropped(i: Insertion, x: int)
    requires Joins(i)
  {
    i.t[i.hi].End() <= x < i.s && forall j :: i.hi < j < |i.t| ==> !In(i.t[j], x)
  }

  /** The join loses what the two ranges recorded. */
  ghost predicate Loses(i: Insertion) {
    Joins(i) && (NewLen(i) <= 0 || exists x :: Dropped(i, x))
  }

  lemma BadJoined(t: seq<Range>, k: nat, m: Range, x: int)
    requires 0 < k < |t|
    ensures var rest := t[..k - 1] + t[k + 1..];
            && (Bad(t[..k - 1] + [m] + t[k + 1..], x) <==> In(m, x) || Bad(rest, x))
            && (Bad(t, x) <==> Bad(rest, x) || In(t[k - 1], x) || In(t[k], x))
  {
    var rest := t[..k - 1] + t[k + 1..];
    assert rest[..k - 1] == t[..k - 1] && rest[k - 1..] == t[k + 1..];
    BadInserted(rest, k - 1, m, x);
    BadWithout(t, k, x);
  }

  /** From the start of one range to the end of the other. */
  lemma JoinedSectors(l: Range, h: Range, m: Range, x: int)
    requires m.start == l.start < h.End() == m.End() && h.start <= l.End()
    ensures In(m, x) ==> In(l, x) || In(h, x)
    ensures In(h, x) && !In(m, x) ==> x < l.start
    ensures In(l, x) && !In(m, x) <==> h.End() <= x < l.End()
  {
  }

  lemma JoinBad(i: Insertion, x: int)
    requires Poised(i) && i.rem == 0 && !Garbles(i)
    ensures Bad(Join(i).t, x) <==> Bad(i.t, x) && !(Joins(i) && Dropped(i, x))
  {
    if Joins(i) {
      var l, h, rest := i.t[i.hi - 1], i.t[i.hi], i.t[..i.hi - 1] + i.t[i.hi + 1..];
      var m := Range(l.start, NewLen(i), l.ack && h.ack);
      BadJoined(i.t, i.hi, m, x);
      JoinedSectors(l, h, m, x);
      if In(h, x) && x < l.start {
        BadAt(rest, i.hi - 2, x);
      }
      if In(l, x) && h.End() <= x {
        RestBeyond(i, x);
      }
    }
  }

  lemma RestBeyond(i: Insertion, x: int)
    requires Poised(i) && i.rem == 0 && i.hi < |i.t| && i.t[i.hi].End() <= x < i.s && i.t[i.hi - 1].start <= x
    ensures Bad(i.t[..i.hi - 1] + i.t[i.hi + 1..], x) <==> exists j :: i.hi < j < |i.t| && In(i.t[j], x)
  {
    var rest := i.t[..i.hi - 1] + i.t[i.hi + 1..];
    if j :| i.hi < j < |i.t| && In(i.t[j], x) {
      BadAt(rest, j - 2, x);
    }
    if k :| 0 <= k < |rest| && In(rest[k], x) {
      assert k >= i.hi - 1 && rest[k] == i.t[k + 2];
    }
  }

  lemma JoinAck(i: Insertion, x: int)
    requires Poised(i) && i.rem == 0 && !Garbles(i) && Marked(Join(i).t, x, true)
    ensures Marked(i.t, x, true)
  {
    var j := Join(i);
    if Joins(i) {
      var k :| 0 <= k < |j.t| && In(j.t[k], x) && j.t[k].ack;
      MarkedAt(i.t, if k < i.hi - 1 then k else if k > i.hi - 1 then k + 1 else if x < i.s then k else k + 1, x, true);
    }
  }

  // ------------------------------------------------------------- new entries

  /** How far the new entries reach: to the end, or as far as the free ones go. */
  function Reach(i: Insertion): nat
    requires |i.t| <= MAX_BADBLOCKS
  {
    var room := (MAX_BADBLOCKS - |i.t|) * BB_MAX_LEN;
    i.s + if i.rem <= room then i.rem else room
  }

  lemma {:induction false} AddRestReach(i: Insertion, ack: bool, x: int)
    requires i.hi <= |i.t| <= MAX_BADBLOCKS
    ensures var (t, rv) := AddRest(i, ack);
            && rv == (if Reach(i) == i.s + i.rem then 0 else 1) && |t| <= MAX_BADBLOCKS
            && (Bad(t, x) <==> Bad(i.t, x) || i.s <= x < Reach(i))
            && (Marked(t, x, true) <==> Marked(i.t, x, true) || (ack && i.s <= x < Reach(i)))
    decreases i.rem
  {
    if i.rem > 0 && |i.t| < MAX_BADBLOCKS {
      BadInserted(i.t, i.hi, NextEntry(i, ack), x);
      MarkedInserted(i.t, i.hi, NextEntry(i, ack), x, true);
      AddRestReach(AddOne(i, ack), ack, x);
    }
  }

  // ------------------------------------------------------------- sectors

  /** All sectors lie below the largest offset of an entry. */
  predicate Fits(t: seq<Range>, s: nat, n: nat) {
    s + n < TWO_54 && forall i :: 0 <= i < |t| ==> t[i].End() < TWO_54
  }

  lemma MergesBad(t: seq<Range>, s: nat, n: nat, ack: bool, x: int)
    requires Sorted(t) && n > 0
    ensures Recorded(Merged2(t, s, n, ack), x) <==> Bad(t, x) || s <= x < s + n
  {
    Opens(t, s, n, ack);
    MergeAfterBad(Merged1(t, s, n, ack), ack, x);
    MergeBeforeBad(Insertion(t, Slot(t, s), s, n), ack, x);
  }

  /** What badblocks_set records, unless it writes a garbled entry. */
  lemma SetBad(t: seq<Range>, s: nat, n: nat, ack: bool, x: int)
    requires Sorted(t) && |t| <= MAX_BADBLOCKS && n > 0 && !Garbles(Merged2(t, s, n, ack))
    requires SetRange(t, s, n, ack).1 == 0
    ensures var i := Merged2(t, s, n, ack);
            Bad(SetRange(t, s, n, ack).0, x) <==>
            (Bad(t, x) || s <= x < s + n) && !(Joins(i) && Dropped(i, x))
  {
    var i := Merged2(t, s, n, ack);
    Poises(t, s, n, ack);
    MergesBad(t, s, n, ack, x);
    AddRestReach(Join(i), ack, x);
    if i.rem == 0 {
      JoinBad(i, x);
    }
  }

  lemma GarbledBad(i: Insertion, ack: bool, x: int)
    requires i.hi <= |i.t| <= MAX_BADBLOCKS && Garbles(i) && x == TWO_54 - 1
    ensures Marked(AddRest(Join(i), ack).0, x, true) && Bad(AddRest(Join(i), ack).0, x)
  {
    MarkedAt(Join(i).t, i.hi - 1, x, true);
    BadAt(Join(i).t, i.hi - 1, x);
  }

  ghost predicate IsUnion(t: seq<Range>, u: seq<Range>, s: nat, n: nat) {
    forall x :: Bad(u, x) <==> Bad(t, x) || s <= x < s + n
  }

  /** A successful badblocks_set records exactly the union exactly when the final join
      does not lose anything. */
  lemma UnionIff(t: seq<Range>, s: nat, n: nat, ack: bool)
    requires Sorted(t) && |t| <= MAX_BADBLOCKS && n > 0 && Fits(t, s, n)
    requires SetRange(t, s, n, ack).1 == 0
    ensures IsUnion(t, SetRange(t, s, n, ack).0, s, n) <==> !Loses(Merged2(t, s, n, ack))
  {
    var i, u := Merged2(t, s, n, ack), SetRange(t, s, n, ack).0;
    if Garbles(i) {
      GarbledBad(i, ack, TWO_54 - 1);
      assert Bad(u, TWO_54 - 1) && !Bad(t, TWO_54 - 1);
    } else {
      forall x ensures Bad(u, x) <==> (Bad(t, x) || s <= x < s + n) && !(Joins(i) && Dropped(i, x)) {
        SetBad(t, s, n, ack, x);
      }
      if Joins(i) {
        if x :| Dropped(i, x) {
          Poises(t, s, n, ack);
          JoinLength(i);
          BadAt(i.t, i.hi - 1, x);
          MergesBad(t, s, n, ack, x);
        }
      }
    }
  }

  /** Recording [5, 35) over [10, 15) and [20, 25) succeeds and leaves [5, 25). */
  lemma DropExample()
    ensures var t := [Range(10, 5, true), Range(20, 5, true)];
            Sorted(t) && SetRange(t, 5, 30, true) == ([Range(5, 20, true)], 0)
  {
    var t := [Range(10, 5, true), Range(20, 5, true)];
    SlotIs(t, 5, 0);
    assert Merged1(t, 5, 30, true) == Insertion(t, 0, 5, 30);
    assert Merged2(t, 5, 30, true) == Insertion([Range(5, 30, true), Range(20, 5, true)], 1, 35, 0);
    assert Join(Insertion([Range(5, 30, true), Range(20, 5, true)], 1, 35, 0)).t == [Range(5, 20, true)];
  }

  /** Recording [5, 517) over three ranges succeeds, forgets the sectors from 512 on and
      leaves an acknowledged entry at the end of the address space. */
  lemma GarbleExample()
    ensures var t := [Range(0, 10, false), Range(20, 10, false), Range(100, 10, false)];
            Sorted(t) && SetRange(t, 5, 512, false) == ([Range(0, 512, false), Range(TWO_54 - 1, 110, true)], 0)
  {
    var t := [Range(0, 10, false), Range(20, 10, false), Range(100, 10, false)];
    SlotIs(t, 5, 1);
    var u := [Range(0, 512, false), Range(20, 10, false), Range(100, 10, false)];
    assert Merged1(t, 5, 512, false) == Insertion(u, 1, 512, 5);
    var v := [Range(0, 512, false), Range(512, 5, false), Range(100, 10, false)];
    assert Merged2(t, 5, 512, false) == Insertion(v, 2, 517, 0);
    assert Join(Insertion(v, 2, 517, 0)).t == [Range(0, 512, false), Range(TWO_54 - 1, 110, true)];
  }

  // ------------------------------------------------------------- order

  /** Both sides of the insertion point are in order, and what is below it ends by `s`. */
  ghost predicate Halved(i: Insertion) {
    && i.hi <= |i.t| && Sorted(i.t[..i.hi]) && Sorted(i.t[i.hi..])
    && (i.hi > 0 ==> i.t[i.hi - 1].End() <= i.s)
  }

  lemma SortedHalves(t: seq<Range>, k: nat)
    requires k <= |t| && Sorted(t[..k]) && Sorted(t[k..])
    ensures Sorted(t) <==> k == 0 || k == |t| || t[k - 1].End() <= t[k].start
  {
    var a, b := t[..k], t[k..];
    assert forall i :: 0 <= i < |t| ==> t[i] == if i < k then a[i] else b[i - k];
    if 0 < k < |t| && t[k - 1].End() <= t[k].start {
      forall i, j | 0 <= i < k <= j < |t| ensures t[i].End() <= t[j].start {
        assert i < k - 1 ==> a[i].End() <= a[k - 1].start;
        assert k < j ==> b[0].End() <= b[j - k].start;
      }
    }
  }

  /** One entry at the insertion point leaves the table in order exactly when it ends
      before the next one starts. */
  lemma SortedInsertedIff(i: Insertion, r: Range)
    requires Halved(i) && RangeOk(r) && r.start >= i.s
    ensures Sorted(Inserted(i.t, i.hi, r)) <==> i.hi == |i.t| || r.End() <= i.t[i.hi].start
  {
    var a, b := i.t[..i.hi], i.t[i.hi..];
    SortedSnoc(a, r);
    var u := Inserted(i.t, i.hi, r);
    assert u[..|a| + 1] == a + [r] && u[|a| + 1..] == b;
    SortedHalves(u, |a| + 1);
  }

  lemma SortedSnoc(a: seq<Range>, r: Range)
    requires Sorted(a) && RangeOk(r) && (a != [] ==> a[|a| - 1].End() <= r.start)
    ensures Sorted(a + [r])
  {
    SortedHalves(a + [r], |a|);
    assert (a + [r])[..|a|] == a && (a + [r])[|a|..] == [r];
  }

  /** An entry that ends after one further on starts. */
  ghost predicate Inverted(t: seq<Range>) {
    exists p, q :: 0 <= p < q < |t| && t[p].End() > t[q].start
  }

  lemma InvertedAt(t: seq<Range>, p: nat, q: nat)
    requires p < q < |t| && t[p].End() > t[q].start
    ensures Inverted(t) && !Sorted(t)
  {
  }

  lemma InsertedInverts(t: seq<Range>, k: nat, r: Range)
    requires k <= |t| && Inverted(t)
    ensures Inverted(Inserted(t, k, r))
  {
    var p, q :| 0 <= p < q < |t| && t[p].End() > t[q].start;
    InvertedAt(Inserted(t, k, r), if p < k then p else p + 1, if q < k then q else q + 1);
  }

  lemma {:induction false} StaysInverted(i: Insertion, ack: bool)
    requires i.hi <= |i.t| && Inverted(i.t)
    ensures Inverted(AddRest(i, ack).0)
    decreases i.rem
  {
    if i.rem > 0 && |i.t| < MAX_BADBLOCKS {
      InsertedInverts(i.t, i.hi, NextEntry(i, ack));
      StaysInverted(AddOne(i, ack), ack);
    }
  }

  /** The entries for the rest keep the order: at most one is added, and it ends before
      the next one starts. */
  predicate RestFits(i: Insertion)
    requires i.hi <= |i.t| <= MAX_BADBLOCKS
  {
    if |i.t| == MAX_BADBLOCKS then i.hi == 0 || i.hi == |i.t| || i.t[i.hi - 1].End() <= i.t[i.hi].start
    else
      && (i.rem <= BB_MAX_LEN || |i.t| + 1 == MAX_BADBLOCKS)
      && (i.hi == |i.t| || i.s + (if i.rem <= BB_MAX_LEN then i.rem else BB_MAX_LEN) <= i.t[i.hi].start)
  }

  lemma RestSortedIff(i: Insertion, ack: bool)
    requires Halved(i) && |i.t| <= MAX_BADBLOCKS && i.rem > 0
    ensures Sorted(AddRest(i, ack).0) <==> RestFits(i)
  {
    if |i.t| == MAX_BADBLOCKS {
      SortedHalves(i.t, i.hi);
    } else {
      var j := AddOne(i, ack);
      SortedInsertedIff(i, NextEntry(i, ack));
      if j.rem > 0 && |j.t| < MAX_BADBLOCKS {
        SecondInverts(j, ack);
      }
    }
  }

  /** A further entry goes before the one just added. */
  lemma SecondInverts(i: Insertion, ack: bool)
    requires i.hi < |i.t| < MAX_BADBLOCKS && i.rem > 0 && i.t[i.hi].start <= i.s
    ensures !Sorted(AddRest(i, ack).0)
  {
    InvertedAt(AddOne(i, ack).t, i.hi, i.hi + 1);
    StaysInverted(AddOne(i, ack), ack);
    assert Inverted(AddRest(i, ack).0);
  }

  lemma Halves(t: seq<Range>, s: nat, n: nat, ack: bool)
    requires Sorted(t) && n > 0
    ensures Halved(Merged2(t, s, n, ack))
  {
    Opens(t, s, n, ack);
    HalvesFrom(Merged1(t, s, n, ack), ack);
  }

  lemma HalvesFrom(i: Insertion, ack: bool)
    requires Opened(i)
    ensures Halved(MergeAfter(i, ack))
  {
    var j := MergeAfter(i, ack);
    if j.hi != i.hi {
      var a, b, r := i.t[..i.hi], i.t[i.hi..], j.t[i.hi];
      MergedAfter(i, ack);
      SortedPart(b, 1, |b|);
      SortedSnoc(a, r);
    }
  }

  /** Merging replaces the range after the insertion point and moves beyond it. */
  lemma MergedAfter(i: Insertion, ack: bool)
    requires Opened(i) && MergeAfter(i, ack).hi != i.hi
    ensures i.hi < |i.t|
    ensures var j := MergeAfter(i, ack);
            var r := j.t[i.hi];
            && j.hi == i.hi + 1 && RangeOk(r) && r.start == i.s && r.End() == j.s
            && j.t[..j.hi] == i.t[..i.hi] + [r] && j.t[j.hi..] == i.t[i.hi..][1..]
  {
    var j := MergeAfter(i, ack);
    assert j.t == i.t[i.hi := j.t[i.hi]];
  }

  /** Whether the join leaves the table in order. */
  predicate JoinFits(i: Insertion)
    requires i.hi <= |i.t|
  {
    || i.hi == |i.t|
    || (if Joins(i) then NewLen(i) > 0 || i.hi + 1 == |i.t| else i.s <= i.t[i.hi].start)
  }

  lemma JoinSortedIff(i: Insertion)
    requires Poised(i) && Halved(i) && i.rem == 0
    requires forall j :: 0 <= j < |i.t| ==> i.t[j].End() < TWO_54
    ensures Sorted(Join(i).t) <==> JoinFits(i)
  {
    if Joins(i) {
      JoinedSortedIff(i);
    } else {
      SortedHalves(i.t, i.hi);
    }
  }

  /** The table without the two ranges to be joined, and the entry that takes their
      place. */
  function Unjoined(i: Insertion): (r: Insertion)
    requires Joins(i)
    ensures r.hi <= |r.t| == |i.t| - 2
  {
    Insertion(i.t[..i.hi - 1] + i.t[i.hi + 1..], i.hi - 1, i.t[i.hi - 1].start, 0)
  }

  function JoinEntry(i: Insertion): Range
    requires Joins(i)
  {
    Made(i.t[i.hi - 1].start, NewLen(i), i.t[i.hi - 1].ack && i.t[i.hi].ack)
  }

  lemma JoinIsInserted(i: Insertion)
    requires Joins(i)
    ensures Join(i).t == Inserted(Unjoined(i).t, i.hi - 1, JoinEntry(i))
    ensures i.hi + 1 < |i.t| ==> Unjoined(i).t[i.hi - 1] == i.t[i.hi + 1]
  {
    var k := Unjoined(i);
    assert k.t[..k.hi] == i.t[..i.hi - 1] && k.t[k.hi..] == i.t[i.hi + 1..];
  }

  lemma UnjoinedHalved(i: Insertion)
    requires Poised(i) && Halved(i) && Joins(i)
    ensures Halved(Unjoined(i))
    ensures i.hi + 1 < |i.t| ==> i.t[i.hi].End() <= i.t[i.hi + 1].start
  {
    var k, x, y := Unjoined(i), i.t[..i.hi], i.t[i.hi..];
    assert k.t[..k.hi] == x[..i.hi - 1] && k.t[k.hi..] == y[1..];
    SortedPart(x, 0, i.hi - 1);
    SortedPart(y, 1, |y|);
    if i.hi + 1 < |i.t| {
      assert y[0] == i.t[i.hi] && y[1] == i.t[i.hi + 1];
    }
  }

  lemma JoinedSortedIff(i: Insertion)
    requires Poised(i) && Halved(i) && Joins(i)
    requires forall j :: 0 <= j < |i.t| ==> i.t[j].End() < TWO_54
    ensures Sorted(Join(i).t) <==> NewLen(i) > 0 || i.hi + 1 == |i.t|
  {
    JoinIsInserted(i);
    UnjoinedHalved(i);
    JoinLength(i);
    SortedInsertedIff(Unjoined(i), JoinEntry(i));
  }

  /** Whether badblocks_set leaves the table in order: the guard of its last two steps. */
  predicate StaysSorted(t: seq<Range>, s: nat, n: nat, ack: bool)
    requires |t| <= MAX_BADBLOCKS
  {
    var i := Merged2(t, s, n, ack);
    if i.rem == 0 then JoinFits(i) else RestFits(i)
  }

  lemma MergedBelow(t: seq<Range>, s: nat, n: nat, ack: bool)
    requires Sorted(t) && n > 0 && Fits(t, s, n)
    ensures forall j :: 0 <= j < |t| ==> Merged2(t, s, n, ack).t[j].End() < TWO_54
  {
    var i := Merged2(t, s, n, ack);
    Poises(t, s, n, ack);
    forall j | 0 <= j < |t| ensures i.t[j].End() < TWO_54 {
      var x := i.t[j].End() - 1;
      BadAt(i.t, j, x);
      MergesBad(t, s, n, ack, x);
    }
  }

  /** Exactly when badblocks_set leaves a sorted table sorted. */
  lemma SortedIff(t: seq<Range>, s: nat, n: nat, ack: bool)
    requires Sorted(t) && |t| <= MAX_BADBLOCKS && n > 0 && Fits(t, s, n)
    ensures Sorted(SetRange(t, s, n, ack).0) <==> StaysSorted(t, s, n, ack)
  {
    var i := Merged2(t, s, n, ack);
    Halves(t, s, n, ack);
    Poises(t, s, n, ack);
    if i.rem == 0 {
      MergedBelow(t, s, n, ack);
      JoinSortedIff(i);
    } else {
      RestSortedIff(i, ack);
    }
  }

  /** Recording more than one entry holds in an empty table leaves its parts in the wrong
      order. */
  lemma DisorderExample()
    ensures SetRange([], 0, 1024, true) == ([Range(512, 512, true), Range(0, 512, true)], 0)
    ensures !Sorted(SetRange([], 0, 1024, true).0)
  {
    var i := Insertion([], 0, 0, 1024);
    var j := Insertion([Range(0, 512, true)], 0, 512, 512);
    assert Inserted([], 0, Range(0, 512, true)) == [Range(0, 512, true)];
    assert AddOne(i, true) == j;
    var u := [Range(512, 512, true), Range(0, 512, true)];
    assert Inserted(j.t, 0, Range(512, 512, true)) == u;
    assert AddOne(j, true) == Insertion(u, 0, 1024, 0);
    InvertedAt(u, 0, 1);
  }

  // ------------------------------------------------------------- new ranges

  /** The calls badblocks_set is made for: at most BB_MAX_LEN sectors that are not
      recorded yet, and room for one more entry. */
  predicate Insertable(t: seq<Range>, s: nat, n: nat) {
    && Sorted(t) && |t| < MAX_BADBLOCKS && 1 <= n <= BB_MAX_LEN
    && forall i :: 0 <= i < |t| ==> !Overlaps(t[i], s, s + n)
  }

  /** The gap still to be filled lies between two neighbours of a sorted table. */
  ghost predicate Gap(i: Insertion) {
    && Sorted(i.t) && i.hi <= |i.t| && i.rem <= BB_MAX_LEN
    && (forall j :: 0 <= j < i.hi ==> i.t[j].End() <= i.s)
    && (forall j :: i.hi <= j < |i.t| ==> i.t[j].start >= i.s + i.rem)
  }

  lemma SortedInserted(t: seq<Range>, i: nat, r: Range)
    requires Sorted(t) && i <= |t| && RangeOk(r)
    requires forall j :: 0 <= j < i ==> t[j].End() <= r.start
    requires forall j :: i <= j < |t| ==> r.End() <= t[j].start
    ensures Sorted(Inserted(t, i, r))
  {
    var u := Inserted(t, i, r);
    forall j, k | 0 <= j < k < |u| ensures u[j].End() <= u[k].start {
      assert u[j] == if j < i then t[j] else if j == i then r else t[j - 1];
      assert u[k] == if k < i then t[k] else if k == i then r else t[k - 1];
    }
  }

  /** Growing the range before the gap. */
  lemma GrowBefore(i: Insertion, r: Range, e: nat)
    requires Gap(i) && 0 < i.hi && RangeOk(r)
    requires r.start == i.t[i.hi - 1].start && i.t[i.hi - 1].End() == i.s
    requires i.s <= r.End() <= e == i.s + i.rem
    ensures Gap(Insertion(i.t[i.hi - 1 := r], i.hi, r.End(), e - r.End()))
  {
    SortedReplaced(i.t, i.hi - 1, r);
  }

  lemma MergeBeforeGap(i: Insertion, ack: bool)
    requires Gap(i) && i.rem > 0
    ensures Gap(MergeBefore(i, ack))
    ensures MergeBefore(i, ack).rem == 0 ==> i.hi > 0 && MergeBefore(i, ack).t[i.hi - 1].End() == MergeBefore(i, ack).s
  {
    var j := MergeBefore(i, ack);
    if i.hi > 0 && i.t[i.hi - 1].End() >= i.s {
      assert j.t == i.t[i.hi - 1 := j.t[i.hi - 1]];
      GrowBefore(i, j.t[i.hi - 1], i.s + i.rem);
    }
  }

  lemma MergeAfterGap(i: Insertion, ack: bool)
    requires Gap(i) && (i.rem == 0 ==> i.hi > 0 && i.t[i.hi - 1].End() == i.s)
    ensures var j := MergeAfter(i, ack);
            Gap(j) && (j.rem == 0 ==> j.hi > 0 && j.t[j.hi - 1].End() == j.s)
  {
    var j := MergeAfter(i, ack);
    if i.rem > 0 && i.hi < |i.t| && i.t[i.hi].start <= i.s + i.rem {
      SortedReplaced(i.t, i.hi, j.t[i.hi]);
    }
  }

  lemma SortedWithout(t: seq<Range>, k: nat)
    requires Sorted(t) && 0 < k < |t|
    ensures Sorted(t[..k - 1] + t[k + 1..])
  {
    var u := t[..k - 1] + t[k + 1..];
    forall i, j | 0 <= i < j < |u| ensures u[i].End() <= u[j].start {
      assert u[i] == t[if i < k - 1 then i else i + 2];
      assert u[j] == t[if j < k - 1 then j else j + 2];
    }
  }

  /** Joining two ranges that touch. */
  lemma JoinSorted(i: Insertion)
    requires Gap(i) && i.rem == 0 && i.hi > 0 && i.t[i.hi - 1].End() == i.s
    ensures Sorted(Join(i).t) && !Loses(i)
  {
    if Joins(i) {
      var l, h, rest := i.t[i.hi - 1], i.t[i.hi], i.t[..i.hi - 1] + i.t[i.hi + 1..];
      assert rest[..i.hi - 1] == i.t[..i.hi - 1] && rest[i.hi - 1..] == i.t[i.hi + 1..];
      SortedWithout(i.t, i.hi);
      SortedInserted(rest, i.hi - 1, Range(l.start, NewLen(i), l.ack && h.ack));
    }
  }

  lemma AddOneSorted(i: Insertion, ack: bool)
    requires Gap(i) && |i.t| < MAX_BADBLOCKS && i.rem > 0
    ensures Sorted(AddRest(i, ack).0) && AddRest(i, ack).1 == 0
  {
    SortedInserted(i.t, i.hi, NextEntry(i, ack));
    assert AddRest(i, ack) == AddRest(AddOne(i, ack), ack);
  }

  lemma NewRangeGap(t: seq<Range>, s: nat, n: nat, ack: bool)
    requires Insertable(t, s, n)
    ensures var i := Merged2(t, s, n, ack);
            Gap(i) && (i.rem == 0 ==> i.hi > 0 && i.t[i.hi - 1].End() == i.s)
  {
    var i0 := Insertion(t, Slot(t, s), s, n);
    assert Gap(i0) by {
      assert forall j :: 0 <= j < |t| ==> !Overlaps(t[j], s, s + n);
    }
    MergeBeforeGap(i0, ack);
    MergeAfterGap(Merged1(t, s, n, ack), ack);
  }

  lemma NewRangeSorted(t: seq<Range>, s: nat, n: nat, ack: bool)
    requires Insertable(t, s, n)
    ensures Sorted(SetRange(t, s, n, ack).0) && SetRange(t, s, n, ack).1 == 0 && !Loses(Merged2(t, s, n, ack))
  {
    NewRangeGap(t, s, n, ack);
    var i := Merged2(t, s, n, ack);
    if i.rem == 0 {
      JoinSorted(i);
    } else {
      AddOneSorted(i, ack);
    }
  }

  /** Recording a range that is not recorded yet is set union and keeps the table sorted. */
  lemma NewRangeIsUnion(t: seq<Range>, s: nat, n: nat, ack: bool, x: int)
    requires Insertable(t, s, n)
    ensures var (t', rv) := SetRange(t, s, n, ack);
            rv == 0 && Sorted(t') && (Bad(t', x) <==> Bad(t, x) || s <= x < s + n)
  {
    NewRangeSorted(t, s, n, ack);
    SetBad(t, s, n, ack, x);
  }

  // ------------------------------------------------------------- acknowledgements

  /** The range after the new one is unacknowledged, reaches beyond it and does not fit
      into one entry together with it, so its tail goes into an entry of its own. */
  predicate Spills(i: Insertion)
    requires i.hi <= |i.t|
  {
    && i.rem > 0 && i.hi < |i.t| && i.t[i.hi].start <= i.s + i.rem < i.t[i.hi].End()
    && i.t[i.hi].End() - i.s > BB_MAX_LEN && !i.t[i.hi].ack
  }

  /** badblocks_set acknowledges sectors nobody asked for: there is room for an entry
      that holds some of that tail. */
  predicate Overacks(t: seq<Range>, s: nat, n: nat, ack: bool)
    requires |t| <= MAX_BADBLOCKS
  {
    var i, j := Merged1(t, s, n, ack), Merged2(t, s, n, ack);
    ack && Spills(i) && Reach(j) > j.s && Reach(j) > i.s + i.rem
  }

  /** For a call of at most one entry: if there is room for an entry at all. */
  lemma OveracksShort(t: seq<Range>, s: nat, n: nat, ack: bool)
    requires Sorted(t) && |t| <= MAX_BADBLOCKS && 1 <= n <= BB_MAX_LEN
    ensures Overacks(t, s, n, ack) <==> ack && Spills(Merged1(t, s, n, ack)) && |t| < MAX_BADBLOCKS
  {
    assert Merged1(t, s, n, ack).rem <= n;
  }

  /** No sector is acknowledged that was not acknowledged before or is now. */
  ghost predicate AcksOnlyNew(t: seq<Range>, t': seq<Range>, s: nat, n: nat, ack: bool) {
    forall x :: Marked(t', x, true) ==> Marked(t, x, true) || (ack && s <= x < s + n)
  }

  lemma RestAck(i: Insertion, ack: bool, x: int)
    requires i.hi <= |i.t| <= MAX_BADBLOCKS && MergeAfter(i, ack).rem > 0 && ack
    requires MergeAfter(i, ack).s <= x < Reach(MergeAfter(i, ack))
    requires !(Spills(i) && Reach(MergeAfter(i, ack)) > i.s + i.rem)
    ensures Acked(i, ack, x)
  {
    if i.hi < |i.t| && In(i.t[i.hi], x) && i.t[i.hi].ack {
      MarkedAt(i.t, i.hi, x, true);
    }
  }

  lemma AcksSafely(t: seq<Range>, s: nat, n: nat, ack: bool)
    requires Sorted(t) && |t| <= MAX_BADBLOCKS && n > 0
    requires !Overacks(t, s, n, ack) && !Garbles(Merged2(t, s, n, ack))
    ensures AcksOnlyNew(t, SetRange(t, s, n, ack).0, s, n, ack)
  {
    var i0, i1, i2 := Insertion(t, Slot(t, s), s, n), Merged1(t, s, n, ack), Merged2(t, s, n, ack);
    Poises(t, s, n, ack);
    forall x | Marked(SetRange(t, s, n, ack).0, x, true) ensures Acked(i0, ack, x) {
      AddRestReach(Join(i2), ack, x);
      if i2.rem == 0 {
        JoinAck(i2, x);
      }
      assert Acked(i1, ack, x) by {
        if Marked(i2.t, x, true) {
          MergeAfterAck(i1, ack, x);
        } else {
          RestAck(i1, ack, x);
        }
      }
      MergeBeforeAck(i0, ack, x);
    }
  }

  lemma OveracksFails(t: seq<Range>, s: nat, n: nat, ack: bool)
    requires Sorted(t) && |t| <= MAX_BADBLOCKS && n > 0 && Overacks(t, s, n, ack)
    ensures !AcksOnlyNew(t, SetRange(t, s, n, ack).0, s, n, ack)
  {
    var i1, i2 := Merged1(t, s, n, ack), Merged2(t, s, n, ack);
    var x := Reach(i2) - 1;
    AddRestReach(i2, ack, x);
    assert i1.t[i1.hi] == t[i1.hi] && i1.s + i1.rem >= s + n;
    MarkedAt(t, i1.hi, x, false);
    MarkedOnce(t, x);
    assert Marked(SetRange(t, s, n, ack).0, x, true);
  }

  /** Exactly when badblocks_set keeps unacknowledged sectors unacknowledged. */
  lemma AcksIff(t: seq<Range>, s: nat, n: nat, ack: bool)
    requires Sorted(t) && |t| <= MAX_BADBLOCKS && n > 0 && Fits(t, s, n)
    ensures AcksOnlyNew(t, SetRange(t, s, n, ack).0, s, n, ack) <==>
            !Overacks(t, s, n, ack) && !Garbles(Merged2(t, s, n, ack))
  {
    if Overacks(t, s, n, ack) {
      OveracksFails(t, s, n, ack);
    } else if Garbles(Merged2(t, s, n, ack)) {
      GarbledBad(Merged2(t, s, n, ack), ack, TWO_54 - 1);
      assert !Marked(t, TWO_54 - 1, true);
    } else {
      AcksSafely(t, s, n, ack);
    }
  }

  /** What badblocks_set makes of a sorted table: when the table stays sorted, when a
      success has recorded the union, and when no other sector gets acknowledged. */
  ghost predicate SetsExactly(t: seq<Range>, s: nat, n: nat, ack: bool, u: seq<Range>, rv: int)
    requires |t| <= MAX_BADBLOCKS
  {
    && (Sorted(u) <==> StaysSorted(t, s, n, ack))
    && (rv == 0 ==> (IsUnion(t, u, s, n) <==> !Loses(Merged2(t, s, n, ack))))
    && (AcksOnlyNew(t, u, s, n, ack) <==> !Overacks(t, s, n, ack) && !Garbles(Merged2(t, s, n, ack)))
  }

  lemma SetIsExact(t: seq<Range>, s: nat, n: nat, ack: bool)
    requires Sorted(t) && |t| <= MAX_BADBLOCKS && n > 0 && Fits(t, s, n)
    ensures var (u, rv) := SetRange(t, s, n, ack); SetsExactly(t, s, n, ack, u, rv)
  {
    SortedIff(t, s, n, ack);
    if SetRange(t, s, n, ack).1 == 0 {
      UnionIff(t, s, n, ack);
    }
    AcksIff(t, s, n, ack);
  }

  /** The whole effect of badblocks_set on a sorted table. */
  ghost predicate SetDone(t: seq<Range>, s: nat, n: nat, ack: bool, u: seq<Range>, rv: int) {
    && |t| <= MAX_BADBLOCKS && (u, rv) == SetRange(t, s, n, ack)
    && (Insertable(t, s, n) ==> Sorted(u) && rv == 0 && IsUnion(t, u, s, n))
    && (n > 0 && Fits(t, s, n) ==> SetsExactly(t, s, n, ack, u, rv))
  }

  lemma SetIsDone(t: seq<Range>, s: nat, n: nat, ack: bool)
    requires Sorted(t) && |t| <= MAX_BADBLOCKS
    ensures var (u, rv) := SetRange(t, s, n, ack); SetDone(t, s, n, ack, u, rv)
  {
    if Insertable(t, s, n) {
      NewRangeUnion(t, s, n, ack);
    }
    if n > 0 && Fits(t, s, n) {
      SetIsExact(t, s, n, ack);
    }
  }

  lemma NewRangeUnion(t: seq<Range>, s: nat, n: nat, ack: bool)
    requires Insertable(t, s, n)
    ensures var (u, rv) := SetRange(t, s, n, ack); Sorted(u) && rv == 0 && IsUnion(t, u, s, n)
  {
    NewRangeSorted(t, s, n, ack);
    forall x ensures Bad(SetRange(t, s, n, ack).0, x) <==> Bad(t, x) || s <= x < s + n {
      NewRangeIsUnion(t, s, n, ack, x);
    }
  }

  /** Recording [90, 100) as acknowledged before the full entry [100, 612) moves that
      entry down and records its tail again, as acknowledged. */
  lemma SpillExample()
    ensures var t := [Range(100, 512, false)];
            && Sorted(t) && Overacks(t, 90, 10, true) && Marked(t, 611, false) && !Marked(t, 611, true)
            && Marked(SetRange(t, 90, 10, true).0, 611, true)
  {
    var t := [Range(100, 512, false)];
    MarkedAt(t, 0, 611, false);
    MarkedOnce(t, 611);
    SlotIs(t, 90, 0);
    AddRestReach(Merged2(t, 90, 10, true), true, 611);
  }
}
