/** Data unit numbers of block/blk-crypto.c: integers of several 64-bit limbs, least
    significant first. */
module Dun {
  import opened Arith

  const LIMB: nat := 0x1_0000_0000_0000_0000
  const LIMBS: nat := 4                        // BLK_CRYPTO_DUN_ARRAY_SIZE

  predicate IsDun(d: seq<nat>) {
    forall i :: 0 <= i < |d| ==> d[i] < LIMB
  }

  /** The integer a sequence of limbs stands for. */
  function Value(d: seq<nat>): nat {
    if d == [] then 0 else d[0] + LIMB * Value(d[1..])
  }

  function Power(n: nat): (p: nat)
    ensures p > 0
  {
    if n == 0 then 1 else LIMB * Power(n - 1)
  }

  /** The `n` limbs of an integer. */
  function Limbs(v: nat, n: nat): (d: seq<nat>)
    ensures |d| == n && IsDun(d)
  {
    if n == 0 then []
    else
      DivNonneg(v, LIMB);
      [v % LIMB] + Limbs(v / LIMB, n - 1)
  }

  /** The DUN `k` data units after `d`. */
  function Later(d: seq<nat>, k: nat): (r: seq<nat>)
    ensures |r| == |d| && IsDun(r)
  {
    Limbs(Value(d) + k, |d|)
  }

  lemma {:induction false} LimbsOfValue(d: seq<nat>)
    requires IsDun(d)
    ensures Limbs(Value(d), |d|) == d
    decreases |d|
  {
    if d != [] {
      LimbsOfValue(d[1..]);
      DivIs(Value(d), LIMB, Value(d[1..]));
    }
  }

  /** Adding a multiple of the range changes no limb. */
  lemma {:induction false} LimbsWrap(v: nat, m: nat, n: nat)
    ensures Limbs(v + Power(n) * m, n) == Limbs(v, n)
    decreases n
  {
    if n > 0 {
      var q: nat := Power(n - 1) * m;
      assert Power(n) * m == LIMB * q by { Assoc(LIMB, Power(n - 1), m); }
      DivBounds(v, LIMB);
      DivNonneg(v, LIMB);
      DivIs(v + LIMB * q, LIMB, v / LIMB + q);
      LimbsWrap(v / LIMB, m, n - 1);
    }
  }

  lemma Assoc(a: int, b: int, c: int)
    ensures a * b * c == a * (b * c)
  {
  }

  lemma {:induction false} ValueOfLimbs(v: nat, n: nat) returns (m: nat)
    ensures v == Value(Limbs(v, n)) + Power(n) * m
    ensures Value(Limbs(v, n)) < Power(n)
    decreases n
  {
    if n == 0 {
      m := v;
    } else {
      DivBounds(v, LIMB);
      DivNonneg(v, LIMB);
      m := ValueOfLimbs(v / LIMB, n - 1);
      var d := Limbs(v, n);
      assert d[1..] == Limbs(v / LIMB, n - 1) && d[0] == v % LIMB;
      Assoc(LIMB, Power(n - 1), m);
      Below(d[0], Value(d[1..]), Power(n - 1));
    }
  }

  lemma Below(x: nat, v: nat, p: nat)
    requires x < LIMB && v < p
    ensures x + LIMB * v < LIMB * p
  {
    MulLe(LIMB, v + 1, p);
  }

  /** Going on by `a` and then by `b` units is going on by `a + b`. */
  lemma LaterLater(d: seq<nat>, a: nat, b: nat)
    ensures Later(Later(d, a), b) == Later(d, a + b)
  {
    var m := ValueOfLimbs(Value(d) + a, |d|);
    LimbsWrap(Value(Later(d, a)) + b, m, |d|);
  }

  lemma LaterNone(d: seq<nat>)
    requires IsDun(d)
    ensures Later(d, 0) == d
  {
    LimbsOfValue(d);
  }

  lemma {:induction false} ValueBound(d: seq<nat>)
    requires IsDun(d)
    ensures Value(d) < Power(|d|)
    decreases |d|
  {
    if d != [] {
      ValueBound(d[1..]);
      Below(d[0], Value(d[1..]), Power(|d| - 1));
    }
  }

  // ------------------------------------------------------------- increment

  /** What is left to add above limb `i` after `inc` was added to it. */
  function Carry(limb: nat, inc: nat): nat {
    if (limb + inc) % LIMB < inc then 1 else 0
  }

  lemma CarryIs(limb: nat, inc: nat)
    requires limb < LIMB && inc < LIMB
    ensures limb + inc == (limb + inc) % LIMB + LIMB * Carry(limb, inc)
    ensures (limb + inc) / LIMB == Carry(limb, inc)
  {
    if limb + inc < LIMB {
      DivIs(limb + inc, LIMB, 0);
    } else {
      DivIs(limb + inc, LIMB, 1);
    }
  }

  /** Adding to the lowest limb: it wraps, and its carry goes on. */
  lemma LaterStep(d: seq<nat>, inc: nat)
    requires IsDun(d) && d != [] && inc < LIMB
    ensures Later(d, inc) == [(d[0] + inc) % LIMB] + Later(d[1..], Carry(d[0], inc))
  {
    CarryIs(d[0], inc);
    var r, c := (d[0] + inc) % LIMB, Carry(d[0], inc);
    assert Value(d) + inc == r + LIMB * (Value(d[1..]) + c);
    DivIs(Value(d) + inc, LIMB, Value(d[1..]) + c);
  }

  /** The limbs from `i` on still have to grow by `left`. */
  predicate Partial(a: seq<nat>, i: nat, left: nat, goal: seq<nat>) {
    i <= |a| && IsDun(a) && left < LIMB && a[..i] + Later(a[i..], left) == goal
  }

  lemma PartialStep(a: seq<nat>, i: nat, left: nat, goal: seq<nat>)
    requires Partial(a, i, left, goal) && i < |a|
    ensures Partial(a[i := (a[i] + left) % LIMB], i + 1, Carry(a[i], left), goal)
  {
    var a' := a[i := (a[i] + left) % LIMB];
    LaterStep(a[i..], left);
    assert a[i..][1..] == a'[i + 1..];
    assert a'[..i + 1] == a[..i] + [(a[i] + left) % LIMB];
  }

  lemma PartialDone(a: seq<nat>, i: nat, left: nat, goal: seq<nat>)
    requires Partial(a, i, left, goal) && (left == 0 || i == |a|)
    ensures a == goal
  {
    if left == 0 {
      LaterNone(a[i..]);
    }
    assert a == a[..i] + a[i..];
  }

  /** bio_crypt_dun_increment adds to the integer, modulo the range of the limbs. */
  method Increment(dun: array<nat>, inc: nat)
    requires IsDun(dun[..]) && inc < LIMB
    modifies dun
    ensures dun[..] == Later(old(dun[..]), inc)
  {
    var i: nat, left: nat := 0, inc;
    ghost var goal := Later(dun[..], inc);
    assert dun[..][0..] == dun[..];
    while left != 0 && i < dun.Length
      invariant Partial(dun[..], i, left, goal)
      decreases dun.Length - i
    {
      ghost var before := dun[..];
      PartialStep(before, i, left, goal);
      dun[i] := (dun[i] + left) % LIMB;
      assert dun[..] == before[i := (before[i] + left) % LIMB];
      left := if dun[i] < left then 1 else 0;
      i := i + 1;
    }
    PartialDone(dun[..], i, left, goal);
  }

  // ------------------------------------------------------------- contiguity

  /** Whether the limbs from `i` on, plus the carry into them, agree. */
  predicate Agree(d: seq<nat>, i: nat, carry: nat, next: seq<nat>)
    requires i <= |d| == |next|
  {
    Value(d[i..]) + carry == Value(next[i..])
  }

  lemma AgreeStep(d: seq<nat>, i: nat, carry: nat, next: seq<nat>)
    requires IsDun(d) && IsDun(next) && i < |d| == |next| && carry < LIMB
    ensures Agree(d, i, carry, next) <==>
            (d[i] + carry) % LIMB == next[i] && Agree(d, i + 1, Carry(d[i], carry), next)
  {
    CarryIs(d[i], carry);
    assert d[i..][1..] == d[i + 1..] && next[i..][1..] == next[i + 1..];
    SameLimbs((d[i] + carry) % LIMB, Value(d[i + 1..]) + Carry(d[i], carry), next[i], Value(next[i + 1..]));
  }

  lemma SameLimbs(x: nat, a: nat, y: nat, b: nat)
    requires x < LIMB && y < LIMB
    ensures x + LIMB * a == y + LIMB * b <==> x == y && a == b
  {
    if x + LIMB * a == y + LIMB * b {
      DivIs(x + LIMB * a, LIMB, a);
      DivIs(y + LIMB * b, LIMB, b);
    }
  }

  /** bio_crypt_dun_is_contiguous: the DUN plus the units is the next DUN, without
      wrapping through 0. */
  method IsContiguous(dun: array<nat>, units: nat, next: array<nat>) returns (r: bool)
    requires dun.Length == next.Length && IsDun(dun[..]) && IsDun(next[..]) && units < LIMB
    ensures r <==> Value(dun[..]) + units == Value(next[..])
  {
    var carry: nat := units;
    assert dun[..][0..] == dun[..] && next[..][0..] == next[..];
    for i := 0 to dun.Length
      invariant carry < LIMB
      invariant Value(dun[..]) + units == Value(next[..]) <==> Agree(dun[..], i, carry, next[..])
    {
      AgreeStep(dun[..], i, carry, next[..]);
      if (dun[i] + carry) % LIMB != next[i] {
        return false;
      }
      carry := if (dun[i] + carry) % LIMB < carry then 1 else 0;
    }
    return carry == 0;
  }

  /** An integer within the range is its limbs. */
  lemma {:induction false} ValueExact(v: nat, n: nat)
    requires v < Power(n)
    ensures Value(Limbs(v, n)) == v
    decreases n
  {
    if n > 0 {
      DivBounds(v, LIMB);
      DivNonneg(v, LIMB);
      MulCancel(LIMB, v / LIMB, Power(n - 1));
      ValueExact(v / LIMB, n - 1);
    }
  }

  /** The integer `v` a DUN has advanced to is that of the next DUN exactly when its
      limbs are the next DUN's and it did not wrap. */
  lemma ContiguousIff(v: nat, next: seq<nat>)
    requires IsDun(next)
    ensures v == Value(next) <==> next == Limbs(v, |next|) && v < Power(|next|)
  {
    if v == Value(next) {
      LimbsOfValue(next);
      ValueBound(next);
    } else if v < Power(|next|) {
      ValueExact(v, |next|);
    }
  }

  lemma NextIsLater(d: seq<nat>, units: nat, v: nat, next: seq<nat>)
    requires |d| == |next| && v == Value(d) + units && next == Limbs(v, |next|)
    ensures next == Later(d, units)
  {
  }
}
