/** Encrypted bios cut into pieces: bio_split of block/bio.c, the splitting and
    resubmission of block/blk-crypto-fallback.c and the merging of block/blk-crypto.c. */
module CryptoSplit {
  import opened Arith
  import opened Options
  import opened Dun
  import opened CryptoFallback

  // ------------------------------------------------------------- bio_split

  /** The first `n` bytes of some segments. */
  function Take(segs: seq<Seg>, n: nat): seq<Seg> {
    if segs == [] || n == 0 then []
    else if |segs[0].data| <= n then [segs[0]] + Take(segs[1..], n - |segs[0].data|)
    else [segs[0].(data := segs[0].data[..n])]
  }

  /** What bio_advance leaves after `n` bytes. */
  function Drop(segs: seq<Seg>, n: nat): seq<Seg> {
    if segs == [] || n == 0 then segs
    else if |segs[0].data| <= n then Drop(segs[1..], n - |segs[0].data|)
    else [Seg(segs[0].offset + n, segs[0].data[n..])] + segs[1..]
  }

  function Bytes(b: Bio): nat {
    |Flatten(b.segs)|
  }

  /** bio_split: the front part, and the bio advanced past it with its DUN. */
  function Split(b: Bio, sectors: nat, u: nat): (Bio, Bio)
    requires u > 0
  {
    DivNonneg(sectors * SECTOR, u);
    (Bio(Take(b.segs, sectors * SECTOR), b.dun),
     Bio(Drop(b.segs, sectors * SECTOR), Later(b.dun, sectors * SECTOR / u)))
  }

  lemma {:induction false} TakeDrop(segs: seq<Seg>, n: nat)
    requires n <= |Flatten(segs)|
    ensures Flatten(Take(segs, n)) == Flatten(segs)[..n] && Flatten(Drop(segs, n)) == Flatten(segs)[n..]
    decreases |segs|
  {
    if segs != [] && n > 0 {
      var d, rest := segs[0].data, Flatten(segs[1..]);
      if |d| <= n {
        TakeDrop(segs[1..], n - |d|);
        assert (d + rest)[..n] == d + rest[..n - |d|] && (d + rest)[n..] == rest[n - |d|..];
      } else {
        assert (d + rest)[..n] == d[..n] && (d + rest)[n..] == d[n..] + rest;
        assert Flatten(Take(segs, n)) == d[..n];
        assert Drop(segs, n)[1..] == segs[1..];
      }
    }
  }

  lemma {:induction false} CutAligned(segs: seq<Seg>, n: nat, u: nat)
    requires u > 0 && Aligned(segs, u) && Multiple(n, u)
    ensures Aligned(Take(segs, n), u) && Aligned(Drop(segs, n), u)
    decreases |segs|
  {
    if segs != [] && n > 0 {
      var l := |segs[0].data|;
      assert SegAligned(segs[0], u);
      if l <= n {
        MultipleSum(l, n - l, u);
        CutAligned(segs[1..], n - l, u);
      } else {
        MultipleSum(n, l - n, u);
        MultipleSum(n, segs[0].offset, u);
        assert SegAligned(segs[0].(data := segs[0].data[..n]), u);
        assert SegAligned(Seg(segs[0].offset + n, segs[0].data[n..]), u);
      }
    }
  }

  // ------------------------------------------------------------- meaning of pieces

  /** What the data of a bio becomes under its own DUN. */
  function Image(c: Cipher, u: nat, b: Bio): seq<Byte>
    requires u > 0
  {
    Crypt(c, u, b.dun, Flatten(b.segs))
  }

  function ImageAll(c: Cipher, u: nat, bs: seq<Bio>): seq<Byte>
    requires u > 0
  {
    if bs == [] then [] else Image(c, u, bs[0]) + ImageAll(c, u, bs[1..])
  }

  lemma {:induction false} ImageConcat(c: Cipher, u: nat, a: seq<Bio>, b: seq<Bio>)
    requires u > 0
    ensures ImageAll(c, u, a + b) == ImageAll(c, u, a) + ImageAll(c, u, b)
    decreases |a|
  {
    if a == [] {
      assert a + b == b;
    } else {
      ImageConcat(c, u, a[1..], b);
      assert (a + b)[1..] == a[1..] + b;
      ConcatAssoc(Image(c, u, a[0]), ImageAll(c, u, a[1..]), ImageAll(c, u, b));
    }
  }

  predicate Good(b: Bio, u: nat)
    requires u > 0
  {
    IsDun(b.dun) && Aligned(b.segs, u)
  }

  /** A split at a data unit boundary changes nothing about what is written. */
  lemma SplitImage(c: Cipher, u: nat, b: Bio, sectors: nat)
    requires u > 0 && Good(b, u) && sectors * SECTOR <= Bytes(b) && Multiple(sectors * SECTOR, u)
    ensures var (f, r) := Split(b, sectors, u);
            && Good(f, u) && Good(r, u)
            && Image(c, u, f) + Image(c, u, r) == Image(c, u, b)
  {
    var n := sectors * SECTOR;
    var k := MultipleIs(n, u);
    CutAligned(b.segs, n, u);
    TakeDrop(b.segs, n);
    var data := Flatten(b.segs);
    assert data == data[..n] + data[n..];
    CryptConcat(c, u, b.dun, data[..n], data[n..], k);
  }

  /** How a bio gets cut on its way down. */
  datatype Cuts = Whole | Cut(sectors: nat, front: Cuts, rest: Cuts)

  function Pieces(b: Bio, cuts: Cuts, u: nat): seq<Bio>
    requires u > 0
    decreases cuts
  {
    match cuts
    case Whole => [b]
    case Cut(sectors, front, rest) => Pieces(Split(b, sectors, u).0, front, u) + Pieces(Split(b, sectors, u).1, rest, u)
  }

  /** Every cut leaves something on both sides and falls between data units. */
  predicate CutsOk(b: Bio, cuts: Cuts, u: nat)
    requires u > 0
    decreases cuts
  {
    match cuts
    case Whole => true
    case Cut(sectors, front, rest) =>
      && 0 < sectors * SECTOR < Bytes(b) && Multiple(sectors * SECTOR, u)
      && CutsOk(Split(b, sectors, u).0, front, u) && CutsOk(Split(b, sectors, u).1, rest, u)
  }

  lemma {:induction false} CutsKeepImage(c: Cipher, u: nat, b: Bio, cuts: Cuts)
    requires u > 0 && Good(b, u) && CutsOk(b, cuts, u)
    ensures ImageAll(c, u, Pieces(b, cuts, u)) == Image(c, u, b)
    decreases cuts
  {
    match cuts
    case Whole =>
    case Cut(sectors, front, rest) =>
      var (f, r) := Split(b, sectors, u);
      SplitImage(c, u, b, sectors);
      CutsKeepImage(c, u, f, front);
      CutsKeepImage(c, u, r, rest);
      ImageConcat(c, u, Pieces(f, front, u), Pieces(r, rest, u));
  }

  /** Data written under any cuts and read back from the same place, with any other
      segments and cuts, is the data written. */
  lemma RoundTrip(enc: Cipher, dec: Cipher, u: nat, w: Bio, cuts: Cuts, r: Bio, cuts': Cuts)
    requires u > 0 && KeepsLength(enc, u) && Inverts(dec, enc, u)
    requires Good(w, u) && CutsOk(w, cuts, u) && Good(r, u) && CutsOk(r, cuts', u)
    requires r.dun == w.dun && Flatten(r.segs) == ImageAll(enc, u, Pieces(w, cuts, u))
    ensures ImageAll(dec, u, Pieces(r, cuts', u)) == Flatten(w.segs)
  {
    CutsKeepImage(enc, u, w, cuts);
    CutsKeepImage(dec, u, r, cuts');
    FlattenAligned(w.segs, u);
    var n := MultipleIs(Bytes(w), u);
    CryptRoundTrip(enc, dec, u, w.dun, Flatten(w.segs), n);
  }

  // ------------------------------------------------------------- the fallback's own splits

  function Sectors(segs: seq<Seg>): nat {
    if segs == [] then 0 else Sectors(segs[..|segs| - 1]) + |segs[|segs| - 1].data| / SECTOR
  }

  lemma {:induction false} SectorBytes(segs: seq<Seg>)
    requires forall i :: 0 <= i < |segs| ==> Multiple(|segs[i].data|, SECTOR)
    ensures Sectors(segs) * SECTOR == |Flatten(segs)|
    decreases |segs|
  {
    if segs != [] {
      var init, last := segs[..|segs| - 1], segs[|segs| - 1];
      SectorBytes(init);
      assert segs == init + [last];
      FlattenConcat(init, [last]);
      assert Flatten([last]) == last.data;
    }
  }

  /** Cutting after whole, non-empty segments. */
  lemma {:induction false} CutAtSegment(segs: seq<Seg>, k: nat)
    requires k <= |segs| && forall i :: 0 <= i < |segs| ==> segs[i].data != []
    ensures Take(segs, |Flatten(segs[..k])|) == segs[..k] && Drop(segs, |Flatten(segs[..k])|) == segs[k..]
    decreases k
  {
    if k > 0 {
      assert segs[..k][0] == segs[0] && segs[..k][1..] == segs[1..][..k - 1];
      CutAtSegment(segs[1..], k - 1);
      assert segs[..k] == [segs[0]] + segs[1..][..k - 1];
    }
  }

  /** A data unit is at least one sector. */
  predicate UnitOk(u: nat) {
    u > 0 && Multiple(u, SECTOR)
  }

  lemma SectorAligned(segs: seq<Seg>, u: nat)
    requires UnitOk(u) && Aligned(segs, u)
    ensures forall i :: 0 <= i < |segs| ==> Multiple(|segs[i].data|, SECTOR)
  {
    forall i | 0 <= i < |segs| ensures Multiple(|segs[i].data|, SECTOR) {
      assert SegAligned(segs[i], u);
      var k := MultipleIs(|segs[i].data|, u);
      var s := MultipleIs(u, SECTOR);
      assert SECTOR * s * k == SECTOR * (s * k);
      ModIs(|segs[i].data|, SECTOR, s * k, 0);
    }
  }

  /** A bio the fallback accepts: aligned, and without empty segments. */
  predicate Writable(b: Bio, u: nat) {
    UnitOk(u) && Good(b, u) && forall i :: 0 <= i < |b.segs| ==> b.segs[i].data != []
  }

  /** The two parts of a split between data units. */
  ghost predicate IsSplit(b: Bio, u: nat, front: Bio, rest: Bio)
    requires u > 0
  {
    exists s: nat :: 0 < s * SECTOR < Bytes(b) && Multiple(s * SECTOR, u) && Split(b, s, u) == (front, rest)
  }

  lemma SomeBytes(segs: seq<Seg>)
    requires forall i :: 0 <= i < |segs| ==> segs[i].data != []
    ensures |Flatten(segs)| > 0 <==> segs != []
  {
  }

  lemma SectorCompare(n: nat, all: nat, bytes: nat, front: nat, back: nat)
    requires n * SECTOR == front && all * SECTOR == bytes && bytes == front + back
    ensures n < bytes / SECTOR <==> back > 0
  {
  }

  lemma PrefixSectors(b: Bio, i: nat, u: nat)
    requires Writable(b, u) && i <= |b.segs|
    ensures var n := Sectors(b.segs[..i]);
            && n * SECTOR == |Flatten(b.segs[..i])| && Multiple(n * SECTOR, u)
            && (n < Bytes(b) / SECTOR <==> i < |b.segs|)
            && (0 < i < |b.segs| ==> 0 < n * SECTOR < Bytes(b))
  {
    var front, back := b.segs[..i], b.segs[i..];
    assert b.segs == front + back;
    FlattenConcat(front, back);
    SectorAligned(b.segs, u);
    SectorBytes(b.segs);
    SectorBytes(front);
    FlattenAligned(front, u);
    SomeBytes(front);
    SomeBytes(back);
    SectorCompare(Sectors(front), Sectors(b.segs), Bytes(b), |Flatten(front)|, |Flatten(back)|);
  }

  lemma SplitPoint(b: Bio, i: nat, u: nat)
    requires Writable(b, u) && i <= |b.segs|
    ensures var n := Sectors(b.segs[..i]);
            Split(b, n, u).0 == Bio(b.segs[..i], b.dun) && Split(b, n, u).1.segs == b.segs[i..]
  {
    PrefixSectors(b, i, u);
    CutAtSegment(b.segs, i);
  }

  /** blk_crypto_split_bio_if_needed: at most 256 segments go on, the rest is
      resubmitted. */
  method SplitIfNeeded(b: Bio, u: nat) returns (front: Bio, rest: Option<Bio>)
    requires Writable(b, u)
    ensures rest.Some? <==> |b.segs| > BIO_MAX_PAGES
    ensures rest.None? ==> front == b
    ensures rest.Some? ==> front.segs == b.segs[..BIO_MAX_PAGES] && rest.value.segs == b.segs[BIO_MAX_PAGES..]
    ensures rest.Some? ==> IsSplit(b, u, front, rest.value)
  {
    var i, num := 0, 0;
    while i < |b.segs|
      invariant i <= |b.segs| && i < BIO_MAX_PAGES && num == Sectors(b.segs[..i])
    {
      num := num + |b.segs[i].data| / SECTOR;
      assert b.segs[..i + 1][..i] == b.segs[..i];
      i := i + 1;
      if i == BIO_MAX_PAGES {
        break;
      }
    }
    SplitPoint(b, i, u);
    PrefixSectors(b, i, u);
    if num < Bytes(b) / SECTOR {
      var parts := Split(b, num, u);
      front, rest := parts.0, Some(parts.1);
    } else {
      front, rest := b, None;
    }
  }

  lemma SplitParts(c: Cipher, u: nat, b: Bio, front: Bio, rest: Bio)
    requires Writable(b, u) && IsSplit(b, u, front, rest)
    requires |b.segs| > BIO_MAX_PAGES && front.segs == b.segs[..BIO_MAX_PAGES] && rest.segs == b.segs[BIO_MAX_PAGES..]
    ensures Writable(front, u) && Writable(rest, u)
    ensures Image(c, u, b) == Image(c, u, front) + Image(c, u, rest)
  {
    var s: nat :| 0 < s * SECTOR < Bytes(b) && Multiple(s * SECTOR, u) && Split(b, s, u) == (front, rest);
    SplitImage(c, u, b, s);
  }

  /** What is left to write, if anything. */
  function Remaining(c: Cipher, u: nat, rest: Option<Bio>): seq<Byte>
    requires u > 0
  {
    if rest.Some? then Image(c, u, rest.value) else []
  }

  /** blk_crypto_fallback_encrypt_bio: a first piece of at most 256 segments is
      encrypted, the rest is left to be resubmitted. */
  method EncryptBio(enc: Cipher, u: nat, b: Bio) returns (piece: Bio, rest: Option<Bio>)
    requires Writable(b, u) && KeepsLength(enc, u)
    ensures |piece.segs| <= BIO_MAX_PAGES
    ensures rest.Some? ==> Writable(rest.value, u) && |rest.value.segs| < |b.segs|
    ensures Flatten(piece.segs) + Remaining(enc, u, rest) == Image(enc, u, b)
  {
    var front;
    front, rest := SplitIfNeeded(b, u);
    if rest.Some? {
      SplitParts(enc, u, b, front, rest.value);
    }
    var segs := CryptBio(enc, u, front);
    piece := Bio(segs, front.dun);
  }

  /** A write through the fallback with all its resubmissions: the ciphertext of the
      pieces together is that of the whole bio. */
  method EncryptAll(enc: Cipher, u: nat, b: Bio) returns (out: seq<Bio>)
    requires Writable(b, u) && KeepsLength(enc, u)
    ensures forall i :: 0 <= i < |out| ==> |out[i].segs| <= BIO_MAX_PAGES
    ensures FlattenAll(out) == Image(enc, u, b)
  {
    out := [];
    var left := Some(b);
    while left.Some?
      invariant forall i :: 0 <= i < |out| ==> |out[i].segs| <= BIO_MAX_PAGES
      invariant left.Some? ==> Writable(left.value, u)
      invariant FlattenAll(out) + Remaining(enc, u, left) == Image(enc, u, b)
      decreases if left.Some? then 1 + |left.value.segs| else 0
    {
      var piece, rest := EncryptBio(enc, u, left.value);
      FlattenAllSnoc(out, piece);
      Regroup(FlattenAll(out), Flatten(piece.segs), Remaining(enc, u, rest));
      out := out + [piece];
      left := rest;
    }
  }

  lemma Regroup(a: seq<Byte>, b: seq<Byte>, c: seq<Byte>)
    ensures a + (b + c) == (a + b) + c
  {
  }

  function FlattenAll(bs: seq<Bio>): seq<Byte> {
    if bs == [] then [] else Flatten(bs[0].segs) + FlattenAll(bs[1..])
  }

  lemma {:induction false} FlattenAllSnoc(bs: seq<Bio>, b: Bio)
    ensures FlattenAll(bs + [b]) == FlattenAll(bs) + Flatten(b.segs)
    decreases |bs|
  {
    if bs == [] {
      assert bs + [b] == [b] && FlattenAll([b]) == Flatten(b.segs) + FlattenAll([]);
    } else {
      FlattenAllSnoc(bs[1..], b);
      assert (bs + [b])[1..] == bs[1..] + [b] && (bs + [b])[0] == bs[0];
      Regroup(Flatten(bs[0].segs), FlattenAll(bs[1..]), Flatten(b.segs));
    }
  }

  // ------------------------------------------------------------- merging

  /** struct bio_crypt_ctx */
  datatype Ctx = Ctx(key: nat, dun: seq<nat>)

  /** bio_crypt_ctx_mergeable */
  method CtxMergeable(c1: Option<Ctx>, bytes: nat, c2: Option<Ctx>, u: nat) returns (r: bool)
    requires u > 0 && bytes < LIMB
    requires c1.Some? ==> IsDun(c1.value.dun) && |c1.value.dun| == LIMBS
    requires c2.Some? ==> IsDun(c2.value.dun) && |c2.value.dun| == LIMBS
    ensures r <==> c1 == c2 == None || (c1.Some? && c2.Some? && c1.value.key == c2.value.key
                                       && Value(c1.value.dun) + bytes / u == Value(c2.value.dun))
  {
    if c1.None? || c2.None? {
      return c1.None? && c2.None?;
    }
    if c1.value.key != c2.value.key {
      return false;
    }
    var d1 := new nat[LIMBS](i requires 0 <= i < LIMBS => c1.value.dun[i]);
    var d2 := new nat[LIMBS](i requires 0 <= i < LIMBS => c2.value.dun[i]);
    assert d1[..] == c1.value.dun && d2[..] == c2.value.dun;
    DivNonneg(bytes, u);
    UnitsFit(bytes, u);
    r := IsContiguous(d1, bytes / u, d2);
  }

  lemma UnitsFit(bytes: nat, u: nat)
    requires u > 0
    ensures bytes / u <= bytes
  {
    DivBounds(bytes, u);
    DivNonneg(bytes, u);
    MulLe(bytes / u, 1, u);
  }

  /** Merging bios whose contexts are mergeable keeps what each of them writes. */
  lemma MergeKeepsImage(c: Cipher, u: nat, a: Bio, b: Bio)
    requires u > 0 && Good(a, u) && Good(b, u) && |a.dun| == |b.dun| && Bytes(a) / u >= 0
    requires Value(a.dun) + Bytes(a) / u == Value(b.dun)
    ensures Image(c, u, Bio(a.segs + b.segs, a.dun)) == Image(c, u, a) + Image(c, u, b)
  {
    FlattenAligned(a.segs, u);
    var n := MultipleIs(Bytes(a), u);
    ContiguousIff(Value(b.dun), b.dun);
    NextIsLater(a.dun, n, Value(b.dun), b.dun);
    FlattenConcat(a.segs, b.segs);
    CryptConcat(c, u, a.dun, Flatten(a.segs), Flatten(b.segs), n);
  }
}
