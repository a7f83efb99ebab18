/** Software encryption of bios in block/blk-crypto-fallback.c, one bio at a time. */
module CryptoFallback {
  import opened Arith
  import opened Dun

  const SECTOR: nat := 512
  const BIO_MAX_PAGES: nat := 256

  type Byte = x: int | 0 <= x < 256

  /** A cipher for one data unit, given its IV. */
  type Cipher = (seq<nat>, seq<Byte>) -> seq<Byte>

  /** struct bio_vec, with the bytes it covers. */
  datatype Seg = Seg(offset: nat, data: seq<Byte>)

  /** The segments of a bio and the DUN of its crypt context. */
  datatype Bio = Bio(segs: seq<Seg>, dun: seq<nat>)

  ghost predicate KeepsLength(c: Cipher, u: nat) {
    forall iv, x :: |x| == u ==> |c(iv, x)| == u
  }

  ghost predicate Inverts(dec: Cipher, enc: Cipher, u: nat) {
    forall iv, x :: |x| == u ==> dec(iv, enc(iv, x)) == x
  }

  // ------------------------------------------------------------- data units

  /** Every data unit under its own IV: unit `k` under the DUN `k` after the first. */
  function Crypt(c: Cipher, u: nat, dun: seq<nat>, data: seq<Byte>): seq<Byte>
    requires u > 0
    decreases |data|
  {
    if |data| < u then [] else c(dun, data[..u]) + Crypt(c, u, Later(dun, 1), data[u..])
  }

  lemma {:induction false} CryptLength(c: Cipher, u: nat, dun: seq<nat>, data: seq<Byte>, n: nat)
    requires u > 0 && KeepsLength(c, u) && |data| == u * n
    ensures |Crypt(c, u, dun, data)| == u * n
    decreases n
  {
    Units(u, n);
    if n > 0 {
      CryptLength(c, u, Later(dun, 1), data[u..], n - 1);
    }
  }

  lemma Units(u: nat, n: nat)
    requires u > 0
    ensures u * n < u <==> n == 0
    ensures n > 0 ==> u * n == u + u * (n - 1) && u * n >= u
  {
    if n > 0 {
      assert u * n == u + u * (n - 1);
    }
  }

  /** Data unit `k` is encrypted on its own, with the IV of the first unit plus `k`. */
  lemma {:induction false} CryptUnit(c: Cipher, u: nat, dun: seq<nat>, data: seq<Byte>, n: nat, k: nat)
    requires u > 0 && KeepsLength(c, u) && |data| == u * n && k < n && IsDun(dun)
    requires |Crypt(c, u, dun, data)| == u * n && 0 <= u * k <= u * k + u <= u * n
    ensures Crypt(c, u, dun, data)[u * k..u * k + u] == c(Later(dun, k), data[u * k..u * k + u])
    decreases n
  {
    Units(u, n);
    Units(u, k);
    var rest := data[u..];
    if k == 0 {
      assert u * 0 == 0;
      LaterNone(dun);
    } else {
      CryptLength(c, u, Later(dun, 1), rest, n - 1);
      MulLe(u, k, n - 1);
      CryptUnit(c, u, Later(dun, 1), rest, n - 1, k - 1);
      LaterLater(dun, 1, k - 1);
      SliceShift(c(dun, data[..u]), Crypt(c, u, Later(dun, 1), rest), u * (k - 1), u);
      SliceShift(data[..u], rest, u * (k - 1), u);
      assert data == data[..u] + rest;
    }
  }

  lemma SliceShift(a: seq<Byte>, b: seq<Byte>, i: nat, u: nat)
    requires |a| == u && i + u <= |b|
    ensures (a + b)[u + i..u + i + u] == b[i..i + u]
  {
  }

  /** Data in two parts, the second starting where the first one ends. */
  lemma {:induction false} CryptConcat(c: Cipher, u: nat, dun: seq<nat>, a: seq<Byte>, b: seq<Byte>, n: nat)
    requires u > 0 && |a| == u * n && IsDun(dun)
    ensures Crypt(c, u, dun, a + b) == Crypt(c, u, dun, a) + Crypt(c, u, Later(dun, n), b)
    decreases n
  {
    Units(u, n);
    if n == 0 {
      assert a + b == b;
      LaterNone(dun);
    } else {
      assert (a + b)[..u] == a[..u] && (a + b)[u..] == a[u..] + b;
      CryptConcat(c, u, Later(dun, 1), a[u..], b, n - 1);
      LaterLater(dun, 1, n - 1);
    }
  }

  lemma {:induction false} CryptRoundTrip(enc: Cipher, dec: Cipher, u: nat, dun: seq<nat>, data: seq<Byte>, n: nat)
    requires u > 0 && KeepsLength(enc, u) && Inverts(dec, enc, u) && |data| == u * n
    ensures Crypt(dec, u, dun, Crypt(enc, u, dun, data)) == data
    decreases n
  {
    Units(u, n);
    if n > 0 {
      CryptRoundTrip(enc, dec, u, Later(dun, 1), data[u..], n - 1);
      var x, y := enc(dun, data[..u]), Crypt(enc, u, Later(dun, 1), data[u..]);
      assert |x| == u && dec(dun, x) == data[..u];
      assert (x + y)[..u] == x && (x + y)[u..] == y;
    }
  }

  // ------------------------------------------------------------- segments

  function Flatten(segs: seq<Seg>): seq<Byte> {
    if segs == [] then [] else segs[0].data + Flatten(segs[1..])
  }

  /** A multiple of the data unit size. */
  predicate Multiple(n: nat, u: nat)
    requires u > 0
  {
    n % u == 0
  }

  predicate SegAligned(s: Seg, u: nat)
    requires u > 0
  {
    Multiple(|s.data|, u) && Multiple(s.offset, u)
  }

  predicate Aligned(segs: seq<Seg>, u: nat)
    requires u > 0
  {
    forall i :: 0 <= i < |segs| ==> SegAligned(segs[i], u)
  }

  lemma MultipleIs(n: nat, u: nat) returns (k: nat)
    requires u > 0 && Multiple(n, u)
    ensures n == u * k && k == n / u
  {
    DivNonneg(n, u);
    k := n / u;
  }

  lemma MultipleSum(m: nat, n: nat, u: nat)
    requires u > 0 && Multiple(m, u)
    ensures Multiple(m + n, u) <==> Multiple(n, u)
  {
    var k := MultipleIs(m, u);
    if Multiple(n, u) {
      var l := MultipleIs(n, u);
      ModIs(m + n, u, k + l, 0);
    }
    if Multiple(m + n, u) {
      var l := MultipleIs(m + n, u);
      MulCancelLe(u, k, l);
      ModIs(n, u, l - k, 0);
    }
  }

  lemma {:induction false} FlattenConcat(a: seq<Seg>, b: seq<Seg>)
    ensures Flatten(a + b) == Flatten(a) + Flatten(b)
    decreases |a|
  {
    if a == [] {
      assert a + b == b;
    } else {
      FlattenConcat(a[1..], b);
      assert (a + b)[1..] == a[1..] + b;
    }
  }

  lemma {:induction false} FlattenAligned(segs: seq<Seg>, u: nat)
    requires u > 0 && Aligned(segs, u)
    ensures Multiple(|Flatten(segs)|, u)
    decreases |segs|
  {
    if segs != [] {
      FlattenAligned(segs[1..], u);
      assert SegAligned(segs[0], u);
      MultipleSum(|segs[0].data|, |Flatten(segs[1..])|, u);
    }
  }

  /** bio_crypt_check_alignment */
  method CheckAlignment(segs: seq<Seg>, u: nat) returns (ok: bool)
    requires u > 0
    ensures ok <==> Aligned(segs, u)
  {
    for i := 0 to |segs|
      invariant Aligned(segs[..i], u)
    {
      if |segs[i].data| % u != 0 || segs[i].offset % u != 0 {
        assert !SegAligned(segs[i], u);
        return false;
      }
      assert segs[..i + 1] == segs[..i] + [segs[i]];
    }
    assert segs[..|segs|] == segs;
    return true;
  }

  /** The inner loop: the data units of one segment, each replaced by its image. */
  method CryptUnits(c: Cipher, u: nat, data: seq<Byte>, curr: array<nat>) returns (page: seq<Byte>)
    requires u > 0 && KeepsLength(c, u) && Multiple(|data|, u) && IsDun(curr[..])
    modifies curr
    ensures page == Crypt(c, u, old(curr[..]), data) && |page| == |data|
    ensures |data| / u >= 0 && curr[..] == Later(old(curr[..]), |data| / u)
  {
    page := data;
    var j: nat := 0;
    ghost var n := MultipleIs(|data|, u);
    ghost var k: nat := 0;
    ghost var dun := curr[..];
    LaterNone(dun);
    assert u * 0 == 0;
    while j < |data|
      invariant k <= n && j == u * k && |page| == |data|
      invariant curr[..] == Later(dun, k)
      invariant page[j..] == data[j..]
      invariant page[..j] + Crypt(c, u, Later(dun, k), data[j..]) == Crypt(c, u, dun, data)
      decreases |data| - j
    {
      MulCancel(u, k, n);
      MulLe(u, k + 1, n);
      assert u * (k + 1) == j + u;
      var unit := c(curr[..], page[j..j + u]);
      ghost var before := page;
      page := page[..j] + unit + page[j + u..];
      Increment(curr, 1);
      LaterLater(dun, k, 1);
      UnitDone(c, u, Later(dun, k), data, before, page, j);
      j := j + u;
      k := k + 1;
    }
    MulCancelLe(u, n, k);
  }

  lemma UnitDone(c: Cipher, u: nat, dun: seq<nat>, data: seq<Byte>, before: seq<Byte>, page: seq<Byte>, j: nat)
    requires u > 0 && KeepsLength(c, u) && j + u <= |data| == |before| && before[j..] == data[j..]
    requires page == before[..j] + c(dun, before[j..j + u]) + before[j + u..]
    ensures |page| == |before| && page[j + u..] == data[j + u..]
    ensures page[..j + u] + Crypt(c, u, Later(dun, 1), data[j + u..]) == before[..j] + Crypt(c, u, dun, data[j..])
  {
    assert before[j..j + u] == data[j..][..u];
    assert data[j..][u..] == data[j + u..];
    assert before[j + u..] == data[j + u..] by { assert before[j + u..] == before[j..][u..]; }
  }

  /** Same layout: as many segments, at the same offsets and of the same lengths. */
  ghost predicate SameShape(a: seq<Seg>, b: seq<Seg>) {
    |a| == |b| && forall i :: 0 <= i < |a| ==> a[i].offset == b[i].offset && |a[i].data| == |b[i].data|
  }

  predicate IsUnits(len: nat, u: nat, n: nat) {
    len == u * n
  }

  lemma UnitsAdd(a: nat, b: nat, u: nat, m: nat, n: nat)
    requires IsUnits(a, u, m) && IsUnits(b, u, n)
    ensures IsUnits(a + b, u, m + n)
  {
    assert u * (m + n) == u * m + u * n;
  }

  /** Segments `segs`, `n` units in all, have been turned into `out`. */
  ghost predicate Turned(c: Cipher, u: nat, dun: seq<nat>, segs: seq<Seg>, out: seq<Seg>, n: nat)
    requires u > 0
  {
    SameShape(out, segs) && IsUnits(|Flatten(segs)|, u, n) && Flatten(out) == Crypt(c, u, dun, Flatten(segs))
  }

  lemma CryptSnoc(c: Cipher, u: nat, dun: seq<nat>, segs: seq<Seg>, out: seq<Seg>, n: nat, seg: Seg, o: Seg)
    requires u > 0 && IsDun(dun) && IsUnits(|Flatten(segs)|, u, n)
    requires Flatten(out) == Crypt(c, u, dun, Flatten(segs)) && o.data == Crypt(c, u, Later(dun, n), seg.data)
    ensures Flatten(out + [o]) == Crypt(c, u, dun, Flatten(segs + [seg]))
    ensures |Flatten(segs + [seg])| == |Flatten(segs)| + |seg.data|
  {
    FlattenSnoc(segs, seg);
    FlattenSnoc(out, o);
    CryptConcat(c, u, dun, Flatten(segs), seg.data, n);
  }

  lemma FlattenSnoc(segs: seq<Seg>, seg: Seg)
    ensures Flatten(segs + [seg]) == Flatten(segs) + seg.data
  {
    FlattenConcat(segs, [seg]);
    assert Flatten([seg]) == seg.data + Flatten([]);
  }

  lemma TurnedNext(c: Cipher, u: nat, dun: seq<nat>, segs: seq<Seg>, out: seq<Seg>, n: nat, seg: Seg, o: Seg, k: nat)
    requires u > 0 && IsDun(dun) && Turned(c, u, dun, segs, out, n) && IsUnits(|seg.data|, u, k)
    requires o.offset == seg.offset && |o.data| == |seg.data| && o.data == Crypt(c, u, Later(dun, n), seg.data)
    ensures Turned(c, u, dun, segs + [seg], out + [o], n + k)
  {
    CryptSnoc(c, u, dun, segs, out, n, seg, o);
    UnitsAdd(|Flatten(segs)|, |seg.data|, u, n, k);
  }

  /** The segments of a bio in order, the DUN running on across them. */
  method CryptBio(c: Cipher, u: nat, b: Bio) returns (out: seq<Seg>)
    requires u > 0 && KeepsLength(c, u) && Aligned(b.segs, u) && IsDun(b.dun)
    ensures SameShape(out, b.segs) && Flatten(out) == Crypt(c, u, b.dun, Flatten(b.segs))
  {
    var curr := new nat[|b.dun|](i requires 0 <= i < |b.dun| => b.dun[i]);
    assert curr[..] == b.dun;
    out := [];
    ghost var n: nat := 0;
    LaterNone(b.dun);
    assert u * 0 == 0;
    for i := 0 to |b.segs|
      invariant IsDun(curr[..]) && curr[..] == Later(b.dun, n)
      invariant Turned(c, u, b.dun, b.segs[..i], out, n)
    {
      var seg := b.segs[i];
      assert SegAligned(seg, u);
      var page := CryptUnits(c, u, seg.data, curr);
      ghost var k := MultipleIs(|seg.data|, u);
      LaterLater(b.dun, n, k);
      TurnedNext(c, u, b.dun, b.segs[..i], out, n, seg, Seg(seg.offset, page), k);
      assert b.segs[..i + 1] == b.segs[..i] + [seg];
      out := out + [Seg(seg.offset, page)];
      n := n + k;
    }
    assert b.segs[..|b.segs|] == b.segs;
  }
}
