/** Bad-block tables as values: what a table records, and what the operations of
    block/badblocks.c should do to it. */
module BadblockTable {
  import opened Options

  const BB_MAX_LEN: nat := 512
  const MAX_BADBLOCKS: nat := 512   // PAGE_SIZE / 8

  /** One 64-bit table entry: BB_OFFSET, BB_LEN and BB_ACK. */
  datatype Range = Range(start: nat, len: nat, ack: bool) {
    function End(): nat { start + len }
  }

  predicate RangeOk(r: Range) {
    1 <= r.len <= BB_MAX_LEN
  }

  predicate Sorted(t: seq<Range>) {
    && (forall i :: 0 <= i < |t| ==> RangeOk(t[i]))
    && (forall i, j :: 0 <= i < j < |t| ==> t[i].End() <= t[j].start)
  }

  predicate In(r: Range, x: int) {
    r.start <= x < r.End()
  }

  /** The map from sectors to acknowledgement flags that a table stands for. */
  ghost predicate Marked(t: seq<Range>, x: int, ack: bool) {
    exists i :: 0 <= i < |t| && In(t[i], x) && t[i].ack == ack
  }

  ghost predicate Bad(t: seq<Range>, x: int) {
    exists i :: 0 <= i < |t| && In(t[i], x)
  }

  lemma MarkedOnce(t: seq<Range>, x: int)
    requires Sorted(t)
    ensures !(Marked(t, x, true) && Marked(t, x, false))
  {
  }

  // ------------------------------------------------------------- entries

  const TWO_9: nat := 512
  const TWO_54: nat := 0x40_0000_0000_0000
  const TWO_63: nat := 0x8000_0000_0000_0000

  /** BB_MAKE, BB_OFFSET, BB_LEN and BB_ACK on 64-bit words. */
  function Pack(r: Range): int {
    r.start * TWO_9 + (r.len - 1) + if r.ack then TWO_63 else 0
  }

  function Unpack(w: nat): Range {
    Range(w % TWO_63 / TWO_9, w % TWO_9 + 1, w / TWO_63 % 2 == 1)
  }

  /** An entry survives being packed into a word when it fits the 54 offset bits
      and the 9 length bits. */
  lemma PackRoundTrip(r: Range)
    requires RangeOk(r) && r.start < TWO_54
    ensures 0 <= Pack(r) < 2 * TWO_63 && Unpack(Pack(r)) == r
  {
    var low := r.start * TWO_9 + (r.len - 1);
    assert 0 <= low < TWO_63;
    assert low / TWO_9 == r.start && low % TWO_9 == r.len - 1;
    assert TWO_63 % TWO_9 == 0;
    if r.ack {
      assert Pack(r) == low + TWO_63;
      assert (low + TWO_63) % TWO_9 == low % TWO_9;
    }
  }

  /** BB_MAKE when the length may be zero or negative: the sign of the length is spread
      over the flag and all offset bits. */
  function Made(start: nat, len: int, ack: bool): (r: Range)
    requires 0 < len + BB_MAX_LEN && len <= BB_MAX_LEN
    ensures RangeOk(r)
  {
    if len > 0 then Range(start, len, ack) else Range(TWO_54 - 1, len + BB_MAX_LEN, true)
  }

  lemma SignSpreads(start: bv64, len: bv64, ack: bv64)
    requires len >= 0xFFFF_FFFF_FFFF_FE00
    ensures (start << 9) | len | (ack << 63) == len
  {
  }

  /** The word of a length below one, minus one, read back. */
  lemma MadeIsUnpacked(start: nat, len: int, ack: bool)
    requires 0 < len + BB_MAX_LEN <= BB_MAX_LEN
    ensures Made(start, len, ack) == Unpack(2 * TWO_63 + (len - 1))
  {
    var w := 2 * TWO_63 + (len - 1);
    assert w % TWO_63 == TWO_63 + (len - 1) && w / TWO_63 == 1;
    assert (TWO_63 + (len - 1)) / TWO_9 == TWO_54 - 1 && w % TWO_9 == len - 1 + TWO_9;
  }

  // ------------------------------------------------------------- query

  predicate Overlaps(r: Range, s: int, target: int) {
    r.start < target && s < r.End()
  }

  /** The answer of a scan over all ranges. */
  ghost predicate CheckAnswer(t: seq<Range>, s: int, target: int, rv: int) {
    && (rv == 0 <==> forall i :: 0 <= i < |t| ==> !Overlaps(t[i], s, target))
    && (rv == 1 <==> (exists i :: 0 <= i < |t| && Overlaps(t[i], s, target)) &&
                     forall i :: 0 <= i < |t| && Overlaps(t[i], s, target) ==> t[i].ack)
    && (rv == -1 <==> exists i :: 0 <= i < |t| && Overlaps(t[i], s, target) && !t[i].ack)
  }

  /** `lo` is the last range that starts before `bound`, if any does; `hi` comes after. */
  ghost predicate LastBelow(t: seq<Range>, lo: nat, hi: nat, bound: int) {
    && lo <= hi <= |t| && hi - lo <= 1 && (hi == lo <==> t == [])
    && (lo > 0 ==> t[lo].start < bound)
    && (forall i :: 0 <= i < lo ==> t[i].start < bound)
    && (forall i :: hi <= i < |t| ==> t[i].start >= bound)
  }

  /** In a sorted table the two ends of the search decide. */
  lemma LastBelowIs(t: seq<Range>, lo: nat, hi: nat, bound: int)
    requires Sorted(t) && lo <= hi <= |t| && hi - lo <= 1 && (hi == lo <==> t == [])
    requires (lo > 0 ==> t[lo].start < bound) && (hi < |t| ==> t[hi].start >= bound)
    ensures LastBelow(t, lo, hi, bound)
  {
    forall i | 0 <= i < lo ensures t[i].start < bound {
      assert RangeOk(t[i]) && t[i].End() <= t[lo].start;
    }
    forall i | hi <= i < |t| ensures t[i].start >= bound {
      if i > hi {
        assert RangeOk(t[hi]) && t[hi].End() <= t[i].start;
      }
    }
  }

  /** The answer as far as the ranges from `k` on go. */
  ghost predicate AnswerFrom(t: seq<Range>, k: nat, s: int, target: int, rv: int) {
    && rv in {-1, 0, 1}
    && (rv == 0 ==> forall i :: k <= i < |t| ==> !Overlaps(t[i], s, target))
    && (rv == 1 ==> exists i :: k <= i < |t| && Overlaps(t[i], s, target))
    && (rv == 1 ==> forall i :: k <= i < |t| && Overlaps(t[i], s, target) ==> t[i].ack)
    && (rv == -1 ==> exists i :: k <= i < |t| && Overlaps(t[i], s, target) && !t[i].ack)
  }

  lemma AnswerStep(t: seq<Range>, k: nat, s: int, target: int, rv: int, rv': int)
    requires k < |t| && AnswerFrom(t, k + 1, s, target, rv)
    requires rv' == if !Overlaps(t[k], s, target) then rv else if rv != -1 && t[k].ack then 1 else -1
    ensures AnswerFrom(t, k, s, target, rv')
  {
    if rv == -1 {
      var i :| k + 1 <= i < |t| && Overlaps(t[i], s, target) && !t[i].ack;
      assert k <= i;
    } else if rv == 1 {
      var i :| k + 1 <= i < |t| && Overlaps(t[i], s, target);
      assert k <= i;
    }
  }

  lemma AnswerStart(t: seq<Range>, lo: nat, hi: nat, s: int, target: int)
    requires LastBelow(t, lo, hi, target)
    ensures AnswerFrom(t, hi, s, target, 0)
  {
  }

  lemma AnswerAll(t: seq<Range>, k: nat, s: int, target: int, rv: int)
    requires AnswerFrom(t, k, s, target, rv) && k <= |t| && forall i :: 0 <= i < k ==> !Overlaps(t[i], s, target)
    ensures CheckAnswer(t, s, target, rv)
  {
  }

  /** The lowest overlapping range. */
  ghost predicate FirstOverlap(t: seq<Range>, s: int, target: int, f: Range) {
    exists i :: 0 <= i < |t| && t[i] == f && Overlaps(t[i], s, target) &&
      forall j :: 0 <= j < i ==> !Overlaps(t[j], s, target)
  }

  lemma FirstIs(t: seq<Range>, k: nat, s: int, target: int)
    requires k < |t| && Overlaps(t[k], s, target) && forall j :: 0 <= j < k ==> !Overlaps(t[j], s, target)
    ensures FirstOverlap(t, s, target, t[k])
  {
  }

  /** Ranges of a sorted table below one that ends by `s` do not reach beyond it. */
  lemma NoneBelow(t: seq<Range>, k: nat, s: int, target: int)
    requires Sorted(t) && k <= |t| && (k > 0 ==> t[k - 1].End() <= s)
    ensures forall i :: 0 <= i < k ==> !Overlaps(t[i], s, target)
  {
    forall i | 0 <= i < k ensures t[i].End() <= s {
      if i < k - 1 {
        assert t[i].End() <= t[k - 1].start;
      }
    }
  }

  /** Whether a query is answered with "bad" is about sectors, not ranges. */
  lemma OverlapIsBad(t: seq<Range>, s: int, target: int)
    requires Sorted(t) && s < target
    ensures (exists i :: 0 <= i < |t| && Overlaps(t[i], s, target)) <==> exists x :: s <= x < target && Bad(t, x)
  {
    if i :| 0 <= i < |t| && Overlaps(t[i], s, target) {
      var x := if t[i].start < s then s else t[i].start;
      assert In(t[i], x);
      assert Bad(t, x);
    }
    if x :| s <= x < target && Bad(t, x) {
      var i :| 0 <= i < |t| && In(t[i], x);
      assert Overlaps(t[i], s, target);
    }
  }

  // ------------------------------------------------------------- clearing

  /** What clearing [s, target) leaves of one range. */
  function Pieces(r: Range, s: nat, target: nat): seq<Range> {
    if !Overlaps(r, s, target) then [r]
    else
      (if r.start < s then [Range(r.start, s - r.start, r.ack)] else []) +
      (if r.End() > target then [Range(target, r.End() - target, r.ack)] else [])
  }

  function Cleared(t: seq<Range>, s: nat, target: nat): seq<Range> {
    if t == [] then [] else Cleared(t[..|t| - 1], s, target) + Pieces(t[|t| - 1], s, target)
  }

  lemma ClearedSnoc(t: seq<Range>, r: Range, s: nat, target: nat)
    ensures Cleared(t + [r], s, target) == Cleared(t, s, target) + Pieces(r, s, target)
  {
    var u := t + [r];
    assert u[..|u| - 1] == t && u[|u| - 1] == r;
  }

  lemma ConcatSnoc(a: seq<Range>, b: seq<Range>, r: Range, s: nat, target: nat)
    requires Cleared(a + b, s, target) == Cleared(a, s, target) + Cleared(b, s, target)
    ensures Cleared((a + b) + [r], s, target) == Cleared(a, s, target) + Cleared(b + [r], s, target)
  {
    ClearedSnoc(a + b, r, s, target);
    ClearedSnoc(b, r, s, target);
    ConcatAssoc(Cleared(a, s, target), Cleared(b, s, target), Pieces(r, s, target));
  }

  lemma {:induction false} ClearedConcat(a: seq<Range>, b: seq<Range>, s: nat, target: nat)
    ensures Cleared(a + b, s, target) == Cleared(a, s, target) + Cleared(b, s, target)
    decreases |b|
  {
    if b == [] {
      assert a + b == a;
    } else {
      var b', r := b[..|b| - 1], b[|b| - 1];
      assert b == b' + [r] && a + b == (a + b') + [r];
      ClearedConcat(a, b', s, target);
      ConcatSnoc(a, b', r, s, target);
    }
  }

  lemma {:induction false} ClearedOutside(t: seq<Range>, s: nat, target: nat)
    requires forall i :: 0 <= i < |t| ==> !Overlaps(t[i], s, target)
    ensures Cleared(t, s, target) == t
    decreases |t|
  {
    if t != [] {
      ClearedOutside(t[..|t| - 1], s, target);
    }
  }

  lemma {:induction false} ClearedInside(t: seq<Range>, s: nat, target: nat)
    requires forall i :: 0 <= i < |t| ==> s <= t[i].start && t[i].End() <= target && t[i].len > 0
    ensures Cleared(t, s, target) == []
    decreases |t|
  {
    if t != [] {
      ClearedInside(t[..|t| - 1], s, target);
    }
  }

  lemma PiecesMarked(r: Range, s: nat, target: nat, x: int, ack: bool)
    requires s <= target
    ensures Marked(Pieces(r, s, target), x, ack) <==> In(r, x) && r.ack == ack && !(s <= x < target)
  {
    var p := Pieces(r, s, target);
    if In(r, x) && r.ack == ack && !(s <= x < target) {
      if x < s {
        assert In(p[0], x);
      } else {
        assert In(p[|p| - 1], x);
      }
    }
  }

  lemma MarkedConcat(a: seq<Range>, b: seq<Range>, x: int, ack: bool)
    ensures Marked(a + b, x, ack) <==> Marked(a, x, ack) || Marked(b, x, ack)
  {
    var t := a + b;
    if i :| 0 <= i < |a| && In(a[i], x) && a[i].ack == ack {
      assert In(t[i], x) && t[i].ack == ack;
    }
    if i :| 0 <= i < |b| && In(b[i], x) && b[i].ack == ack {
      assert In(t[|a| + i], x) && t[|a| + i].ack == ack;
    }
  }

  /** Clearing is set difference: it removes exactly the sectors of [s, target),
      and every other sector keeps its flag. */
  lemma {:induction false} ClearedMarks(t: seq<Range>, s: nat, target: nat, x: int, ack: bool)
    requires s <= target
    ensures Marked(Cleared(t, s, target), x, ack) <==> Marked(t, x, ack) && !(s <= x < target)
    decreases |t|
  {
    if t != [] {
      var t', r := t[..|t| - 1], t[|t| - 1];
      assert t == t' + [r];
      ClearedMarks(t', s, target, x, ack);
      PiecesMarked(r, s, target, x, ack);
      MarkedConcat(Cleared(t', s, target), Pieces(r, s, target), x, ack);
      MarkedConcat(t', [r], x, ack);
      assert Marked([r], x, ack) <==> In(r, x) && r.ack == ack by {
        assert In(r, x) && r.ack == ack ==> In([r][0], x) && [r][0].ack == ack;
      }
    }
  }

  lemma SortedConcat(a: seq<Range>, b: seq<Range>, x: int)
    requires Sorted(a) && Sorted(b)
    requires (forall i :: 0 <= i < |a| ==> a[i].End() <= x) && (forall i :: 0 <= i < |b| ==> x <= b[i].start)
    ensures Sorted(a + b)
  {
  }

  lemma PiecesSorted(r: Range, s: nat, target: nat)
    requires RangeOk(r) && s <= target
    ensures Sorted(Pieces(r, s, target))
    ensures forall i :: 0 <= i < |Pieces(r, s, target)| ==>
              r.start <= Pieces(r, s, target)[i].start && Pieces(r, s, target)[i].End() <= r.End()
  {
  }

  /** Clearing keeps a table sorted and disjoint. */
  lemma {:induction false} ClearedSorted(t: seq<Range>, s: nat, target: nat)
    requires Sorted(t) && s <= target
    ensures Sorted(Cleared(t, s, target))
    ensures forall i :: 0 <= i < |Cleared(t, s, target)| && t != [] ==>
              Cleared(t, s, target)[i].End() <= t[|t| - 1].End()
    decreases |t|
  {
    if t != [] {
      var t', r := t[..|t| - 1], t[|t| - 1];
      ClearedSorted(t', s, target);
      PiecesSorted(r, s, target);
      if t' != [] {
        assert t'[|t'| - 1].End() <= r.start;
      }
      SortedConcat(Cleared(t', s, target), Pieces(r, s, target), r.start);
    }
  }

  /** A range that reaches beyond the end of the cleared interval. */
  predicate Straddles(r: Range, target: int) {
    r.start < target < r.End()
  }

  ghost predicate AnyStraddles(t: seq<Range>, target: int) {
    exists i :: 0 <= i < |t| && Straddles(t[i], target)
  }

  /** Range `k` cut in two: one entry up to `s`, one from `target` on. */
  function Cut(t: seq<Range>, k: nat, s: nat, target: nat): seq<Range>
    requires k < |t| && t[k].start < s && target < t[k].End()
  {
    t[..k] + [Range(t[k].start, s - t[k].start, t[k].ack), Range(target, t[k].End() - target, t[k].ack)] + t[k + 1..]
  }

  /** An interval with its end before its start, inside a range, makes the two
      entries overlap. */
  ghost predicate CutApart(t: seq<Range>, u: seq<Range>, s: nat, target: nat)
    requires s > target
  {
    !Sorted(u) && forall i :: 0 <= i < |t| && Straddles(t[i], target) ==> u == Cut(t, i, s, target)
  }

  lemma CutOverlaps(t: seq<Range>, k: nat, s: nat, target: nat)
    requires k < |t| && Straddles(t[k], target) && s > target
    ensures !Sorted(Cut(t, k, s, target))
  {
    var u := Cut(t, k, s, target);
    assert u[k].End() == s && u[k + 1].start == target;
  }

  /** A full table with a range that clearing would have to cut in two. */
  ghost predicate NoRoomToSplit(t: seq<Range>, s: int, target: int) {
    |t| == MAX_BADBLOCKS && exists i :: 0 <= i < |t| && t[i].start < s && Straddles(t[i], target)
  }

  /** Clearing around the last range that starts before the end of the interval:
      ranges above it are out of reach. */
  lemma ClearedAbove(t: seq<Range>, k: nat, s: nat, target: nat)
    requires Sorted(t) && k <= |t| && forall i :: k <= i < |t| ==> t[i].start >= target
    ensures Cleared(t, s, target) == Cleared(t[..k], s, target) + t[k..]
  {
    assert t == t[..k] + t[k..];
    ClearedConcat(t[..k], t[k..], s, target);
    ClearedOutside(t[k..], s, target);
  }

  /** Nothing starts before the end of the interval. */
  lemma ClearNothing(t: seq<Range>, lo: nat, hi: nat, s: nat, target: nat)
    requires Sorted(t) && LastBelow(t, lo, hi, target) && (t == [] || t[lo].start >= target)
    ensures Cleared(t, s, target) == t && !AnyStraddles(t, target) && !NoRoomToSplit(t, s, target)
  {
    ClearedOutside(t, s, target);
  }

  /** Only the last range that starts before the end of the interval can reach beyond
      it. */
  lemma OnlyLastStraddles(t: seq<Range>, lo: nat, hi: nat, s: nat, target: nat)
    requires Sorted(t) && LastBelow(t, lo, hi, target) && t != [] && t[lo].start < target
    ensures AnyStraddles(t, target) <==> Straddles(t[lo], target)
    ensures forall i :: 0 <= i < |t| && Straddles(t[i], target) ==> i == lo
    ensures NoRoomToSplit(t, s, target) <==> |t| == MAX_BADBLOCKS && t[lo].start < s && Straddles(t[lo], target)
  {
    forall i | 0 <= i < lo ensures !Straddles(t[i], target) {
      assert t[i].End() <= t[lo].start;
    }
  }

  lemma ClearedAboveLast(t: seq<Range>, lo: nat, hi: nat, s: nat, target: nat)
    requires Sorted(t) && LastBelow(t, lo, hi, target) && t != []
    ensures Cleared(t, s, target) == Cleared(t[..lo + 1], s, target) + t[lo + 1..]
  {
    ClearedAbove(t, lo + 1, s, target);
  }

  /** Clearing below range `k`, when everything from `f` to it lies inside. */
  lemma ClearedBelow(t: seq<Range>, f: nat, k: nat, s: nat, target: nat)
    requires Sorted(t) && f <= k <= |t|
    requires forall i :: f <= i < k ==> s <= t[i].start && t[i].End() <= target
    ensures Cleared(t[..k], s, target) == Cleared(t[..f], s, target)
  {
    assert t[..k] == t[..f] + t[f..k];
    ClearedTail(t[..f], t[f..k], s, target);
  }

  lemma ClearedTail(a: seq<Range>, b: seq<Range>, s: nat, target: nat)
    requires forall i :: 0 <= i < |b| ==> s <= b[i].start && b[i].End() <= target && b[i].len > 0
    ensures Cleared(a + b, s, target) == Cleared(a, s, target)
  {
    ClearedConcat(a, b, s, target);
    ClearedInside(b, s, target);
  }

  /** Below a range that starts before the interval nothing else overlaps. */
  lemma ClearedLast(t: seq<Range>, k: nat, s: nat, target: nat)
    requires Sorted(t) && 0 < k <= |t| && t[k - 1].start <= s
    ensures Cleared(t[..k], s, target) == t[..k - 1] + Pieces(t[k - 1], s, target)
  {
    var u := t[..k];
    assert u[..|u| - 1] == t[..k - 1];
    ClearedOutside(t[..k - 1], s, target);
  }
}
