/** block/badblocks.c: a sorted array of bad ranges, searched by bisection and
    updated in place. */
module Badblocks {
  import opened BadblockInsert
  import opened BadblockTable
  import opened Options

  const ENOSPC := 28

  function Pow2(k: nat): (r: nat)
    ensures r > 0
  {
    if k == 0 then 1 else 2 * Pow2(k - 1)
  }

  function Shr(x: nat, k: nat): nat {
    if k == 0 then x else Shr(x / 2, k - 1)
  }

  lemma {:induction false} ShrMonotone(x: nat, y: nat, k: nat)
    requires x <= y
    ensures Shr(x, k) <= Shr(y, k)
  {
    if k > 0 {
      ShrMonotone(x / 2, y / 2, k - 1);
    }
  }

  lemma {:induction false} ShrStep(x: nat, k: nat)
    ensures Shr(x + Pow2(k), k) == Shr(x, k) + 1
  {
    if k > 0 {
      assert (x + Pow2(k)) / 2 == x / 2 + Pow2(k - 1);
      ShrStep(x / 2, k - 1);
    }
  }

  function RoundDown(x: nat, shift: int): nat {
    if shift > 0 then Shr(x, shift) else x
  }

  function RoundUp(x: nat, shift: int): nat {
    if shift > 0 then Shr(x + Pow2(shift) - 1, shift) else x
  }

  class Badblocks {
    const shift: int
    const page: array<Range>
    var count: nat
    var unackedExist: bool
    var changed: bool

    ghost function Table(): seq<Range>
      requires count <= page.Length
      reads this, page
    {
      page[..count]
    }

    ghost predicate Valid()
      reads this, page
    {
      count <= page.Length == MAX_BADBLOCKS && Sorted(Table())
    }

    /** badblocks_init */
    constructor (shift: int)
      ensures Valid() && Table() == [] && this.shift == shift && fresh(page)
    {
      this.shift := shift;
      page := new Range[MAX_BADBLOCKS](_ => Range(0, 1, false));
      count, unackedExist, changed := 0, false, false;
    }

    /** The binary search shared by all operations: the last range that starts
        before `bound`, if there is one. */
    method FindLast(bound: int) returns (lo: nat, hi: nat)
      requires Valid()
      ensures LastBelow(Table(), lo, hi, bound)
    {
      lo, hi := 0, count;
      while hi - lo > 1
        invariant 0 <= lo <= hi <= count && (hi == lo <==> count == 0)
        invariant lo > 0 ==> page[lo].start < bound
        invariant hi < count ==> page[hi].start >= bound
      {
        var mid := (lo + hi) / 2;
        if page[mid].start < bound {
          lo := mid;
        } else {
          hi := mid;
        }
      }
      LastBelowIs(Table(), lo, hi, bound);
    }

    /** badblocks_check */
    method Check(s0: nat, sectors: nat) returns (rv: int, first: Range)
      requires Valid()
      ensures var s, target := RoundDown(s0, shift), RoundUp(s0 + sectors, shift);
              CheckAnswer(Table(), s, target, rv) &&
              (rv != 0 ==> FirstOverlap(Table(), s, target, first))
    {
      rv, first := CheckInterval(RoundDown(s0, shift), RoundUp(s0 + sectors, shift));
    }

    /** What one range that reaches beyond the start adds to the answer. */
    static method Tally(r: Range, target: nat, rv: int, first: Range) returns (rv': int, first': Range)
      ensures rv' == if r.start >= target then rv else if rv != -1 && r.ack then 1 else -1
      ensures first' == if r.start >= target then first else r
    {
      rv', first' := rv, first;
      if r.start < target {
        if rv != -1 && r.ack {
          rv' := 1;
        } else {
          rv' := -1;
        }
        first' := r;
      }
    }

    /** The backward walk from the last range that starts before the end. */
    method Scan(last: nat, s: nat, target: nat) returns (rv: int, first: Range)
      requires Valid() && last < count && AnswerFrom(Table(), last + 1, s, target, 0)
      ensures CheckAnswer(Table(), s, target, rv)
      ensures rv != 0 ==> FirstOverlap(Table(), s, target, first)
    {
      first := Range(0, 1, false);
      rv := 0;
      ghost var t := Table();
      var lo: int := last;
      while lo >= 0 && page[lo].End() > s
        invariant -1 <= lo <= last && Scanned(t, lo + 1, s, target, rv, first)
      {
        var r := page[lo];
        assert r == t[lo];
        ScanStep(t, lo, s, target, rv, first);
        rv, first := Tally(r, target, rv, first);
        lo := lo - 1;
      }
      assert lo >= 0 ==> t[lo].End() <= s;
      ScanDone(t, lo + 1, s, target, rv, first);
    }

    /** The search, for a rounded interval. */
    method CheckInterval(s: nat, target: nat) returns (rv: int, first: Range)
      requires Valid()
      ensures CheckAnswer(Table(), s, target, rv)
      ensures rv != 0 ==> FirstOverlap(Table(), s, target, first)
    {
      var last, hi := FindLast(target);
      AnswerStart(Table(), last, hi, s, target);
      if hi == last {
        AnswerAll(Table(), 0, s, target, 0);
        return 0, Range(0, 1, false);
      }
      rv, first := Scan(last, s, target);
    }

    method MemMove(dst: nat, src: nat, n: nat)
      requires dst + n <= page.Length && src + n <= page.Length
      modifies page
      ensures page[..] == old(page[..dst]) + old(page[src..src + n]) + old(page[dst + n..])
    {
      forall k | 0 <= k < n {
        page[dst + k] := page[src + k];
      }
    }

    /** badblocks_update_acked */
    method UpdateAcked()
      requires count <= page.Length
      modifies this`unackedExist
      ensures unackedExist == (old(unackedExist) && exists i :: 0 <= i < count && !Table()[i].ack)
    {
      if !unackedExist {
        return;
      }
      ghost var t := Table();
      var unacked, i := false, 0;
      while i < count
        invariant 0 <= i <= count && !unacked
        invariant forall j :: 0 <= j < i ==> t[j].ack
      {
        if !page[i].ack {
          assert !t[i].ack;
          unacked := true;
          break;
        }
        i := i + 1;
      }
      if !unacked {
        unackedExist := false;
      }
      assert Table() == t;
    }

    /** Split range `lo` around the cleared interval. */
    method SplitAt(lo: nat, s: nat, target: nat)
      requires count < page.Length && lo < count
      requires Table()[lo].start < s && target < Table()[lo].End()
      modifies this`count, page
      ensures count <= page.Length
      ensures Table() == Cut(old(Table()), lo, s, target)
    {
      ghost var t := Table();
      var r := page[lo];
      MemMove(lo + 1, lo, count - lo);
      count := count + 1;
      page[lo] := Range(r.start, s - r.start, r.ack);
      page[lo + 1] := Range(target, r.End() - target, r.ack);
      forall i | 0 <= i < count ensures page[i] == Cut(t, lo, s, target)[i] {
      }
    }

    /** Drop the ranges strictly between `lo` and `hi`. */
    method Discard(lo: int, hi: nat)
      requires -1 <= lo < hi <= count <= page.Length
      modifies this`count, page
      ensures count <= page.Length && Table() == old(Table()[..lo + 1]) + old(Table()[hi..])
    {
      if hi - lo > 1 {
        MemMove(lo + 1, hi, count - hi);
        count := count - (hi - lo - 1);
      }
    }

    /** The loop of badblocks_clear, over ranges that end inside the interval:
        walk down over the ranges that lie inside it, and report the first one
        that does not, if it has to be shortened. */
    method WalkDown(last: int, s: nat, target: nat) returns (lo: int, shorten: bool)
      requires Valid() && -1 <= last < count && s <= target
      requires forall i :: 0 <= i <= last ==> Table()[i].End() <= target
      ensures -1 <= lo <= last
      ensures forall i :: lo < i <= last ==> s <= Table()[i].start && Table()[i].End() <= target
      ensures if shorten then lo >= 0 && Table()[lo].start < s < Table()[lo].End()
              else forall i :: 0 <= i <= lo ==> Table()[i].End() <= s
    {
      lo := last;
      while lo >= 0 && page[lo].End() > s && page[lo].start < target
        invariant -1 <= lo <= last
        invariant forall i :: lo < i <= last ==> s <= Table()[i].start && Table()[i].End() <= target
      {
        assert page[lo] == Table()[lo];
        if page[lo].start < s {
          return lo, true;
        }
        lo := lo - 1;
      }
      shorten := false;
      assert lo >= 0 ==> Table()[lo].End() <= s;
    }

    method Trim(last: int, s: nat, target: nat)
      requires Valid() && -1 <= last < count && s <= target
      requires forall i :: 0 <= i <= last ==> Table()[i].End() <= target
      modifies this`count, page
      ensures count <= page.Length
      ensures Table() == Cleared(old(Table()[..last + 1]), s, target) + old(Table()[last + 1..])
    {
      ghost var t := Table();
      var lo, shorten := WalkDown(last, s, target);
      if shorten {
        page[lo] := Range(page[lo].start, s - page[lo].start, page[lo].ack);
      }
      KeptIs(t, Table(), lo, last, s, shorten);
      Discard(lo, last + 1);
      ClearedKept(t, lo, last, s, target, shorten);
    }

    /** Clear below and inside a range that reaches beyond the end of the interval. */
    method ClearStraddled(lo: nat, s: nat, target: nat) returns (rv: int)
      requires Valid() && lo < count && Straddles(Table()[lo], target)
      modifies this`count, page
      ensures count <= page.Length
      ensures rv == if old(Table()[lo]).start < s && old(count) >= MAX_BADBLOCKS then -ENOSPC else 0
      ensures rv == -ENOSPC ==> Table() == old(Table())
      ensures rv == 0 && s <= target ==>
                Table() == Cleared(old(Table()[..lo + 1]), s, target) + old(Table()[lo + 1..])
      ensures rv == 0 && s > target ==> Table() == Cut(old(Table()), lo, s, target) && !Sorted(Table())
    {
      ghost var t := Table();
      rv := 0;
      if page[lo].start < s {
        if count >= MAX_BADBLOCKS {
          rv := -ENOSPC;
          return;
        }
        SplitAt(lo, s, target);
        SplitResult(t, Table(), lo, s, target);
      } else {
        page[lo] := Range(target, page[lo].End() - target, page[lo].ack);
        TailResult(t, Table(), lo, s, target);
        Trim(lo - 1, s, target);
      }
    }

    /** The effect of badblocks_clear on the table, for a rounded interval. */
    method ClearInterval(s: nat, target: nat) returns (rv: int)
      requires Valid()
      modifies this`count, page
      ensures count <= page.Length
      ensures var t := old(Table());
              && rv in {0, -ENOSPC}
              && (rv == -ENOSPC <==> NoRoomToSplit(t, s, target))
              && (rv == -ENOSPC ==> Table() == t)
              && (rv == 0 && s <= target ==> Table() == Cleared(t, s, target))
              && (rv == 0 && s > target ==>
                    if AnyStraddles(t, target) then CutApart(t, Table(), s, target) else Table() == t)
    {
      ghost var t := Table();
      rv := 0;
      var lo, hi := FindLast(target);
      if hi == lo || page[lo].start >= target {
        ClearNothing(t, lo, hi, s, target);
        return;
      }
      ClearedAboveLast(t, lo, hi, s, target);
      OnlyLastStraddles(t, lo, hi, s, target);
      if page[lo].End() > target {
        rv := ClearStraddled(lo, s, target);
      } else if s <= target {
        Trim(lo, s, target);
      }
    }

    /** badblocks_clear.  The start is rounded up and the end down, so the rounded
        interval may be empty or even have its end before its start; the table
        stays sorted and disjoint unless the latter happens inside a range. */
    method Clear(s0: nat, sectors: nat) returns (rv: int)
      requires Valid()
      modifies this, page
      ensures count <= page.Length
      ensures var s, target, t := RoundUp(s0, shift), RoundDown(s0 + sectors, shift), old(Table());
              && rv in {0, -ENOSPC}
              && (rv == -ENOSPC <==> NoRoomToSplit(t, s, target))
              && (rv == -ENOSPC ==> Table() == t && changed == old(changed) && unackedExist == old(unackedExist))
              && (rv == 0 && s <= target ==> Table() == Cleared(t, s, target))
              && (rv == 0 && s > target ==>
                    if AnyStraddles(t, target) then CutApart(t, Table(), s, target) else Table() == t)
              && (rv == 0 ==> (Valid() <==> s <= target || !AnyStraddles(t, target)))
              && (rv == 0 ==> changed)
    {
      var s, target := RoundUp(s0, shift), RoundDown(s0 + sectors, shift);
      ghost var t := Table();
      rv := ClearInterval(s, target);
      if rv == 0 {
        if s <= target {
          ClearedSorted(t, s, target);
        }
        UpdateAcked();
        changed := true;
      }
    }

    /** Merge the new range into the one before it. */
    method ExtendBefore(hi: nat, s: nat, rem: nat, ack: bool) returns (s': nat, rem': nat)
      requires hi <= count <= page.Length
      modifies page
      ensures Insertion(Table(), hi, s', rem') == MergeBefore(Insertion(old(Table()), hi, s, rem), ack)
    {
      s', rem' := s, rem;
      if hi > 0 {
        var r := page[hi - 1];
        var e := r.End();
        if e >= s {
          var k := if s == r.start && s + rem >= e then ack else r.ack && ack;
          if e < s + rem {
            e := s + rem;
          }
          if e - r.start <= BB_MAX_LEN {
            page[hi - 1] := Range(r.start, e - r.start, k);
            s' := e;
          } else {
            if r.len != BB_MAX_LEN {
              page[hi - 1] := Range(r.start, BB_MAX_LEN, k);
            }
            s' := r.start + BB_MAX_LEN;
          }
          rem' := e - s';
        }
      }
    }

    /** Merge what is left into the range after it. */
    method ExtendAfter(hi: nat, s: nat, rem: nat, ack: bool) returns (hi': nat, s': nat, rem': nat)
      requires hi <= count <= page.Length
      modifies page
      ensures Insertion(Table(), hi', s', rem') == MergeAfter(Insertion(old(Table()), hi, s, rem), ack)
    {
      hi', s', rem' := hi, s, rem;
      if rem != 0 && hi < count {
        var r := page[hi];
        var e := r.End();
        var k := r.ack;
        if r.start <= s + rem {
          if e <= s + rem {
            e := s + rem;
            k := ack;
          } else {
            k := k && ack;
          }
          if e - s <= BB_MAX_LEN {
            page[hi] := Range(s, e - s, k);
            s' := e;
          } else {
            page[hi] := Range(s, BB_MAX_LEN, k);
            s' := s + BB_MAX_LEN;
          }
          rem' := e - s';
          hi' := hi + 1;
        }
      }
    }

    /** Combine the two ranges around the insertion point if they fit one entry. */
    method Combine(hi: nat, s: nat, rem: nat)
      requires hi <= count <= page.Length
      modifies this`count, page
      ensures hi <= count <= page.Length
      ensures Insertion(Table(), hi, s, rem) == Join(Insertion(old(Table()), hi, s, rem))
    {
      if rem == 0 && 0 < hi < count {
        var l, h := page[hi - 1], page[hi];
        var newlen := l.len + h.len - (s - h.start);
        if s >= h.start && 0 < newlen + BB_MAX_LEN && newlen < BB_MAX_LEN {
          ghost var t := Table();
          page[hi - 1] := Made(l.start, newlen, l.ack && h.ack);
          assert Table() == t[hi - 1 := page[hi - 1]];
          RemoveEntry(hi);
          JoinedTable(t, Table(), hi, Made(l.start, newlen, l.ack && h.ack));
        }
      }
    }

    method RemoveEntry(k: nat)
      requires k < count <= page.Length
      modifies this`count, page
      ensures count == old(count) - 1
      ensures Table() == old(Table()[..k]) + old(Table()[k + 1..])
    {
      MemMove(k, k + 1, count - k - 1);
      count := count - 1;
    }

    method InsertEntry(hi: nat, r: Range)
      requires hi <= count < page.Length
      modifies this`count, page
      ensures count == old(count) + 1 <= page.Length
      ensures Table() == old(Table()[..hi]) + [r] + old(Table()[hi..])
    {
      MemMove(hi + 1, hi, count - hi);
      count := count + 1;
      page[hi] := r;
    }

    /** Add entries for what could not be merged. */
    method AddEntries(hi: nat, s: nat, rem: nat, ack: bool) returns (rv: int)
      requires hi <= count <= page.Length == MAX_BADBLOCKS
      modifies this`count, page
      ensures count <= page.Length
      ensures (Table(), rv) == AddRest(Insertion(old(Table()), hi, s, rem), ack)
    {
      var s': nat, rem': nat := s, rem;
      rv := 0;
      while rem' != 0
        invariant hi <= count <= page.Length
        invariant AddRest(Insertion(Table(), hi, s', rem'), ack) == AddRest(Insertion(old(Table()), hi, s, rem), ack)
        decreases rem'
      {
        if count >= MAX_BADBLOCKS {
          return 1;
        }
        var n := if rem' > BB_MAX_LEN then BB_MAX_LEN else rem';
        InsertEntry(hi, Range(s', n, ack));
        rem' := rem' - n;
        s' := s' + n;
      }
    }

    /** The number of ranges that start at or before `s`. */
    method FindSlot(s: nat) returns (hi: nat)
      requires Valid()
      ensures hi == Slot(Table(), s) <= count
    {
      var lo;
      lo, hi := FindLast(s + 1);
      if hi > lo && page[lo].start > s {
        hi := lo;
      }
      SlotIs(Table(), s, hi);
    }

    /** The effect of badblocks_set on the table, for a rounded range. */
    method SetRounded(s: nat, n: nat, ack: bool) returns (rv: int)
      requires Valid()
      modifies this`count, page
      ensures count <= page.Length
      ensures SetDone(old(Table()), s, n, ack, Table(), rv)
    {
      ghost var t := Table();
      var hi := FindSlot(s);
      var s', rem := ExtendBefore(hi, s, n, ack);
      hi, s', rem := ExtendAfter(hi, s', rem, ack);
      Combine(hi, s', rem);
      rv := AddEntries(hi, s', rem, ack);
      SetIsDone(t, s, n, ack);
    }

    /** badblocks_set.  The start is rounded down and the end up. */
    method Set(s0: nat, sectors: nat, ack: bool) returns (rv: int)
      requires Valid()
      modifies this, page
      ensures count <= page.Length
      ensures shift < 0 ==> rv == 1 && Table() == old(Table())
      ensures shift >= 0 ==>
                var s, e := RoundDown(s0, shift), RoundUp(s0 + sectors, shift);
                && s <= e && changed && (!ack ==> unackedExist)
                && SetDone(old(Table()), s, e - s, ack, Table(), rv)
    {
      if shift < 0 {
        return 1;
      }
      var s, e := RoundDown(s0, shift), RoundUp(s0 + sectors, shift);
      RoundsApart(s0, sectors, shift);
      rv := SetRounded(s, e - s, ack);
      NoteChange(ack);
    }

    method NoteChange(ack: bool)
      requires count <= page.Length
      modifies this`changed, this`unackedExist
      ensures changed && (!ack ==> unackedExist)
    {
      changed := true;
      if !ack {
        unackedExist := true;
      } else {
        UpdateAcked();
      }
    }

    /** ack_all_badblocks: acknowledges everything, unless the table has changed
        since it was last written out. */
    method AckAll()
      requires Valid()
      modifies this`unackedExist, page
      ensures Valid() && count == old(count)
      ensures if changed || !old(unackedExist) then Table() == old(Table()) && unackedExist == old(unackedExist)
              else !unackedExist && forall i :: 0 <= i < count ==> Table()[i] == old(Table()[i]).(ack := true)
    {
      if changed || !unackedExist {
        return;
      }
      ghost var t := Table();
      var i := 0;
      while i < count
        invariant 0 <= i <= count && unackedExist
        invariant forall j :: 0 <= j < i ==> page[j] == t[j].(ack := true)
        invariant forall j :: i <= j < count ==> page[j] == t[j]
      {
        if !page[i].ack {
          page[i] := page[i].(ack := true);
        }
        i := i + 1;
      }
      unackedExist := false;
    }
  }

  lemma RoundsApart(s: nat, n: nat, shift: int)
    requires shift >= 0
    ensures RoundDown(s, shift) <= RoundUp(s + n, shift)
  {
    if shift > 0 {
      ShrMonotone(s, s + n + Pow2(shift) - 1, shift);
    }
  }

  /** What the walk knows when the ranges from `k` on have been seen. */
  ghost predicate Scanned(t: seq<Range>, k: nat, s: nat, target: nat, rv: int, first: Range) {
    && k <= |t| && AnswerFrom(t, k, s, target, rv)
    && (rv != 0 ==> k < |t| && first == t[k] && Overlaps(t[k], s, target))
  }

  lemma ScanStep(t: seq<Range>, k: nat, s: nat, target: nat, rv: int, first: Range)
    requires k < |t| && Sorted(t) && Scanned(t, k + 1, s, target, rv, first) && t[k].End() > s
    ensures var rv' := if t[k].start >= target then rv else if rv != -1 && t[k].ack then 1 else -1;
            Scanned(t, k, s, target, rv', if t[k].start >= target then first else t[k])
  {
    AnswerStep(t, k, s, target, rv, if t[k].start >= target then rv else if rv != -1 && t[k].ack then 1 else -1);
    if rv != 0 {
      assert t[k].End() <= t[k + 1].start;
    }
  }

  lemma ScanDone(t: seq<Range>, k: nat, s: nat, target: nat, rv: int, first: Range)
    requires Sorted(t) && Scanned(t, k, s, target, rv, first) && (k > 0 ==> t[k - 1].End() <= s)
    ensures CheckAnswer(t, s, target, rv) && (rv != 0 ==> FirstOverlap(t, s, target, first))
  {
    NoneBelow(t, k, s, target);
    AnswerAll(t, k, s, target, rv);
    if rv != 0 {
      FirstIs(t, k, s, target);
    }
  }

  /** The rounded interval loses at most one block to the rounding. */
  lemma RoundsWithinOne(s: nat, n: nat, shift: int)
    ensures RoundUp(s, shift) <= RoundDown(s + n, shift) + 1
  {
    if shift > 0 {
      ShrStep(s, shift);
      ShrMonotone(s + Pow2(shift) - 1, s + Pow2(shift), shift);
      ShrMonotone(s, s + n, shift);
    }
  }

  /** Even when badblocks_clear cuts a range apart in the wrong order, every sector
      keeps the flag it had: what is lost is the order of the table. */
  lemma CutKeepsMarks(t: seq<Range>, k: nat, s0: nat, n: nat, shift: int, x: int, ack: bool)
    requires k < |t| && Straddles(t[k], RoundDown(s0 + n, shift)) && RoundUp(s0, shift) > RoundDown(s0 + n, shift)
    ensures Marked(Cut(t, k, RoundUp(s0, shift), RoundDown(s0 + n, shift)), x, ack) <==> Marked(t, x, ack)
  {
    RoundsWithinOne(s0, n, shift);
    var s, target := RoundUp(s0, shift), RoundDown(s0 + n, shift);
    var u := Cut(t, k, s, target);
    if i :| 0 <= i < |t| && In(t[i], x) && t[i].ack == ack {
      MarkedAt(u, if i < k then i else if i > k then i + 1 else if x < s then k else k + 1, x, ack);
    }
    if i :| 0 <= i < |u| && In(u[i], x) && u[i].ack == ack {
      MarkedAt(t, if i <= k then i else i - 1, x, ack);
    }
  }

  /** Clearing sector 9 with blocks of eight sectors rounds to an interval that starts
      at block 2 and ends at block 1: the two entries left overlap. */
  lemma ClearBreaksTable()
    ensures var t, s, target := [Range(0, 2, false)], RoundUp(9, 3), RoundDown(9 + 1, 3);
            && Sorted(t) && s == 2 && target == 1 && Straddles(t[0], target)
            && Cut(t, 0, s, target) == [Range(0, 2, false), Range(1, 1, false)]
            && !Sorted(Cut(t, 0, s, target))
  {
    assert Pow2(3) == 8;
    CutOverlaps([Range(0, 2, false)], 0, 2, 1);
  }

  lemma RoundsStrictly(a: nat, b: nat, shift: int)
    requires a < b
    ensures RoundDown(a, shift) < RoundUp(b, shift)
  {
    if shift > 0 {
      ShrStep(a, shift);
      ShrMonotone(a + Pow2(shift), b + Pow2(shift) - 1, shift);
    }
  }

  /** Two overlapping intervals of sectors still overlap after rounding. */
  lemma RoundsOverlap(s: nat, n: nat, c: nat, m: nat, shift: int)
    requires s < c + m && c < s + n && m > 0
    ensures RoundDown(s, shift) < RoundUp(c + m, shift)
    ensures RoundDown(c, shift) < RoundUp(s + n, shift)
    ensures RoundDown(c, shift) < RoundUp(c + m, shift)
  {
    RoundsStrictly(s, c + m, shift);
    RoundsStrictly(c, s + n, shift);
    RoundsStrictly(c, c + m, shift);
  }

  /** An interval that overlaps a range just recorded overlaps an entry of the table, an
      unacknowledged one if the range was recorded so. */
  lemma SetThenOverlap(t: seq<Range>, s: nat, n: nat, ack: bool, c: nat, d: nat) returns (i: nat)
    requires Insertable(t, s, n) && c < s + n && s < d && c < d
    ensures var u := SetRange(t, s, n, ack).0;
            i < |u| && Overlaps(u[i], c, d) && (!ack ==> !u[i].ack)
  {
    var x := if s < c then c else s;
    var u := SetRange(t, s, n, ack).0;
    NewRangeIsUnion(t, s, n, ack, x);
    i :| 0 <= i < |u| && In(u[i], x);
    if !ack {
      NewRangeSorted(t, s, n, ack);
      AcksSafely(t, s, n, ack);
      assert !Marked(t, x, true) by {
        assert forall j :: 0 <= j < |t| ==> !Overlaps(t[j], s, s + n);
      }
      assert !Marked(u, x, true);
    }
  }

  lemma AnswerAt(u: seq<Range>, c: nat, d: nat, rv: int, i: nat)
    requires CheckAnswer(u, c, d, rv) && i < |u| && Overlaps(u[i], c, d)
    ensures rv != 0 && (!u[i].ack ==> rv == -1)
  {
  }

  /** A check that overlaps a range recorded before reports it bad, and reports it
      unacknowledged if it was recorded so. */
  lemma SetThenCheck(t: seq<Range>, s: nat, n: nat, ack: bool, c: nat, d: nat, rv: int)
    requires Insertable(t, s, n) && c < s + n && s < d && c < d
    requires CheckAnswer(SetRange(t, s, n, ack).0, c, d, rv)
    ensures rv != 0 && (!ack ==> rv == -1)
  {
    var i := SetThenOverlap(t, s, n, ack, c, d);
    AnswerAt(SetRange(t, s, n, ack).0, c, d, rv, i);
  }

  lemma JoinedTable(t: seq<Range>, u: seq<Range>, hi: nat, r: Range)
    requires 0 < hi < |t| && u == t[hi - 1 := r][..hi] + t[hi - 1 := r][hi + 1..]
    ensures u == t[..hi - 1] + [r] + t[hi + 1..]
  {
  }

  lemma SplitResult(t: seq<Range>, u: seq<Range>, lo: nat, s: nat, target: nat)
    requires Sorted(t) && lo < |t| && t[lo].start < s && Straddles(t[lo], target)
    requires u == Cut(t, lo, s, target)
    ensures s <= target ==> u == Cleared(t[..lo + 1], s, target) + t[lo + 1..]
    ensures s > target ==> !Sorted(u)
  {
    if s <= target {
      var r := t[lo];
      assert Cleared(t[..lo + 1], s, target) == t[..lo] + Pieces(r, s, target) by {
        ClearedLast(t, lo + 1, s, target);
      }
      assert Pieces(r, s, target) == [Range(r.start, s - r.start, r.ack), Range(target, r.End() - target, r.ack)];
    } else {
      CutOverlaps(t, lo, s, target);
    }
  }

  lemma TailResult(t: seq<Range>, u: seq<Range>, lo: nat, s: nat, target: nat)
    requires Sorted(t) && lo < |t| && s <= t[lo].start && Straddles(t[lo], target)
    requires u == t[lo := Range(target, t[lo].End() - target, t[lo].ack)]
    ensures Sorted(u) && s <= target
    ensures Cleared(t[..lo + 1], s, target) + t[lo + 1..] == Cleared(u[..lo], s, target) + u[lo..]
  {
    SortedReplaced(t, lo, u[lo]);
    TailCleared(t, u, lo, s, target);
  }

  lemma TailCleared(t: seq<Range>, u: seq<Range>, lo: nat, s: nat, target: nat)
    requires lo < |t| && s <= t[lo].start && Straddles(t[lo], target)
    requires u == t[lo := Range(target, t[lo].End() - target, t[lo].ack)]
    ensures Cleared(t[..lo + 1], s, target) + t[lo + 1..] == Cleared(u[..lo], s, target) + u[lo..]
  {
    assert t[..lo + 1] == t[..lo] + [t[lo]] && u[..lo] == t[..lo] && u[lo..] == [u[lo]] + t[lo + 1..];
    ClearedSnoc(t[..lo], t[lo], s, target);
    ConcatAssoc(Cleared(t[..lo], s, target), [u[lo]], t[lo + 1..]);
  }

  /** What the loop of badblocks_clear leaves of the ranges it has seen. */
  function Kept(t: seq<Range>, lo: int, s: nat, shorten: bool): seq<Range>
    requires -1 <= lo < |t| && (shorten ==> lo >= 0 && t[lo].start < s)
  {
    if shorten then t[..lo] + [Range(t[lo].start, s - t[lo].start, t[lo].ack)] else t[..lo + 1]
  }

  lemma KeptIs(t: seq<Range>, u: seq<Range>, lo: int, last: int, s: nat, shorten: bool)
    requires -1 <= lo <= last < |t| && (shorten ==> lo >= 0 && t[lo].start < s)
    requires u == if shorten then t[lo := Range(t[lo].start, s - t[lo].start, t[lo].ack)] else t
    ensures u[..lo + 1] == Kept(t, lo, s, shorten) && u[last + 1..] == t[last + 1..]
  {
  }

  lemma ClearedKept(t: seq<Range>, lo: int, last: int, s: nat, target: nat, shorten: bool)
    requires Sorted(t) && -1 <= lo <= last < |t| && s <= target
    requires forall i :: lo < i <= last ==> s <= t[i].start && t[i].End() <= target
    requires if shorten then lo >= 0 && t[lo].start < s < t[lo].End() <= target
             else forall i :: 0 <= i <= lo ==> t[i].End() <= s
    ensures Cleared(t[..last + 1], s, target) == Kept(t, lo, s, shorten)
  {
    if shorten {
      KeepHead(t, lo, last, s, target);
    } else {
      ClearedBelow(t, lo + 1, last + 1, s, target);
      ClearedOutside(t[..lo + 1], s, target);
    }
  }

  lemma HeadOnly(r: Range, s: nat, target: nat)
    requires r.start < s < r.End() <= target
    ensures Pieces(r, s, target) == [Range(r.start, s - r.start, r.ack)]
  {
  }

  lemma KeepHead(t: seq<Range>, lo: nat, last: nat, s: nat, target: nat)
    requires Sorted(t) && lo <= last < |t| && s <= target
    requires t[lo].start < s < t[lo].End() <= target
    requires forall i :: lo < i <= last ==> s <= t[i].start && t[i].End() <= target
    ensures Cleared(t[..last + 1], s, target) == t[..lo] + [Range(t[lo].start, s - t[lo].start, t[lo].ack)]
  {
    ClearedBelow(t, lo + 1, last + 1, s, target);
    HeadOfLast(t, lo, s, target);
  }

  lemma HeadOfLast(t: seq<Range>, k: nat, s: nat, target: nat)
    requires Sorted(t) && k < |t| && t[k].start < s < t[k].End() <= target
    ensures Cleared(t[..k + 1], s, target) == t[..k] + [Range(t[k].start, s - t[k].start, t[k].ack)]
  {
    ClearedLast(t, k + 1, s, target);
    HeadOnly(t[k], s, target);
  }
}
