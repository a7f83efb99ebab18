/** The algebra behind surplus donation, over plain real variables.  Names follow
    the comments of transfer_surpluses: b is a group's share, t the donated part
    of it, t' what donors keep of that part, s a sum of child weights, w a weight,
    a prime marks adjusted values, p the parent; k stands for gamma * b and h for
    b'. */
module RealArith {

  lemma DivMul(x: real, d: real)
    requires d != 0.0
    ensures x / d * d == x
  {
  }

  lemma CancelReal(x: real, y: real, d: real)
    requires d != 0.0 && x * d == y * d
    ensures x == y
  {
    assert x == x * d / d && y == y * d / d;
  }

  lemma Commute(x: real, y: real)
    ensures x * y == y * x
  {
  }

  lemma NonZero(x: real, y: real)
    requires x != 0.0 && y != 0.0
    ensures x * y != 0.0
  {
  }

  lemma Positive(x: real, y: real)
    requires x > 0.0 && y > 0.0
    ensures x * y > 0.0 && x / y > 0.0
  {
  }

  lemma Regroup(a: real, b: real, c: real, d: real)
    ensures (a * b) * (c * d) == (a * d) * (b * c) == (a * c) * (d * b)
  {
  }

  lemma Assoc(a: real, b: real, c: real)
    ensures a * (b * c) == a * b * c == b * (a * c) == (a * c) * b
  {
  }

  lemma Distribute(a: real, b: real, d: real)
    ensures (a + b) * d == a * d + b * d && d * (a + b) == d * a + d * b
    ensures (a - b) * d == a * d - b * d && d * (a - b) == d * a - d * b
  {
  }

  /** The root: s' = s * b_f / b'_f and gamma = b'_f / b_f. */
  lemma RootScale(s: real, don: real, after: real, gamma: real, adj: real)
    requires don < 1.0 && after < 1.0
    requires gamma == (1.0 - after) / (1.0 - don) && adj == s * (1.0 - don) / (1.0 - after)
    ensures adj * gamma == s
  {
    var u, v := 1.0 - don, 1.0 - after;
    DivMul(s * u, v);
    DivMul(v, u);
    Assoc(adj, gamma, u);
    assert adj * gamma * u == s * u;
    CancelReal(adj * gamma, s, u);
  }

  /** w' = s'_p * b' / b'_p gives w' * k == w * h. */
  lemma WeightScale(sp': real, h: real, hp: real, k: real, kp: real, sp: real, w: real, w': real)
    requires hp != 0.0 && sp != 0.0 && w' == sp' * h / hp
    requires sp' * kp == sp * hp && k * sp == kp * w
    ensures w' * k == w * h
  {
    DivMul(sp' * h, hp);
    calc {
      (w' * k) * (sp * hp);
      { Regroup(w', k, sp, hp); }
      (w' * hp) * (k * sp);
      (sp' * h) * (kp * w);
      { Regroup(sp', h, kp, w); }
      (sp' * kp) * (w * h);
      { Commute(sp * hp, w * h); }
      (w * h) * (sp * hp);
    }
    NonZero(sp, hp);
    CancelReal(w' * k, w * h, sp * hp);
  }

  /** s' = s_f + s_t * w'_t / w_t gives s' * k == s * h. */
  lemma SumScale(s: real, t: real, t': real, b: real, gamma: real, h: real, w: real, w': real, s': real)
    requires t > 0.0 && b > 0.0 && h > 0.0 && w > 0.0
    requires h == gamma * (b - t) + t' && w' * (gamma * b) == w * h
    requires w * t / b != 0.0
    requires s' == s - s * t / b + s * t / b * (w' * t' / h) / (w * t / b)
    ensures s' * (gamma * b) == s * h
  {
    var k := gamma * b;
    var st, wt, wt' := s * t / b, w * t / b, w' * t' / h;
    var x := st * wt' / wt;
    KeptPart(s, t, t', b, h, w, w', k, st, wt, wt', x);
    FreePart(s, t, b, gamma, st);
    assert s' == (s - st) + x;
    Distribute(s - st, x, k);
    Distribute(gamma * (b - t), t', s);
  }

  lemma KeptPart(s: real, t: real, t': real, b: real, h: real, w: real, w': real, k: real,
                 st: real, wt: real, wt': real, x: real)
    requires t > 0.0 && b > 0.0 && h > 0.0 && w > 0.0 && wt != 0.0
    requires w' * k == w * h
    requires st == s * t / b && wt == w * t / b && wt' == w' * t' / h && x == st * wt' / wt
    ensures x * k == s * t'
  {
    DivMul(s * t, b);
    DivMul(w * t, b);
    DivMul(w' * t', h);
    DivMul(st * wt', wt);
    calc {
      (x * k) * ((w * t) * h);
      { Assoc(x * k, w * t, h); }
      ((x * k) * (wt * b)) * h;
      { Regroup(x, k, wt, b); }
      ((x * wt) * (b * k)) * h;
      ((st * wt') * (b * k)) * h;
      { Regroup(st, wt', b, k); }
      ((st * b) * (k * wt')) * h;
      ((s * t) * (k * wt')) * h;
      { Assoc(s * t, k * wt', h); Assoc(k, wt', h); }
      (s * t) * (k * (w' * t'));
      { Assoc(k, w', t'); Commute(k, w'); }
      (s * t) * ((w * h) * t');
      { Shuffle(s, t, w, h, t'); }
      (s * t') * ((w * t) * h);
    }
    NonZero(w, t);
    NonZero(w * t, h);
    CancelReal(x * k, s * t', (w * t) * h);
  }

  lemma Shuffle(s: real, t: real, w: real, h: real, t': real)
    ensures (s * t) * ((w * h) * t') == (s * t') * ((w * t) * h)
  {
    Assoc(w, h, t');
    Regroup(s, t, w * h, t');
    Assoc(t, w, h);
    Assoc(w, t, h);
    Commute(w, t);
  }

  lemma FreePart(s: real, t: real, b: real, gamma: real, st: real)
    requires b > 0.0 && st == s * t / b
    ensures (s - st) * (gamma * b) == s * (gamma * (b - t))
  {
    DivMul(s * t, b);
    Distribute(s, st, gamma * b);
    Assoc(st, gamma, b);
    Assoc(s, gamma, t);
    Distribute(b, t, gamma);
    Distribute(gamma * b, gamma * t, s);
    assert st * (gamma * b) == gamma * (s * t);
    assert s * (gamma * t) == gamma * (s * t);
  }

  /** A child outside the donation keeps its weight in the right proportion. */
  lemma BystanderScale(s': real, k: real, kc: real, s: real, h: real, wc: real)
    requires s != 0.0 && s' * k == s * h && kc * s == k * wc
    ensures wc * h == s' * kc
  {
    calc {
      (s' * kc) * s;
      { Assoc(s', kc, s); }
      s' * (k * wc);
      { Assoc(s', k, wc); }
      (s * h) * wc;
      { Assoc(s, h, wc); Commute(h, wc); Commute(s, wc * h); }
      (wc * h) * s;
    }
    CancelReal(s' * kc, wc * h, s);
  }

  /** Propagating an adjusted sum gives back the adjusted weight. */
  lemma PropagatedWeight(w: real, s': real, s: real, k: real, h: real, w': real)
    requires s != 0.0 && k != 0.0 && s' * k == s * h && w' * k == w * h
    ensures w * s' / s == w'
  {
    var x := w * s' / s;
    DivMul(w * s', s);
    calc {
      (x * s) * k;
      (w * s') * k;
      { Assoc(w, s', k); }
      w * (s * h);
      { Assoc(w, s, h); Commute(s, w * h); }
      (w * h) * s;
      (w' * k) * s;
      { Assoc(w', k, s); Commute(k, s); Assoc(w', s, k); }
      (w' * s) * k;
    }
    CancelReal(x * s, w' * s, k);
    CancelReal(x, w', s);
  }

  /** The share of a child whose weight is s' * h_c / h of the sum s'. */
  lemma ShareOfChild(h: real, wc: real, s': real, hc: real)
    requires s' != 0.0 && wc * h == s' * hc
    ensures h * wc / s' == hc
  {
    DivMul(h * wc, s');
    Commute(h, wc);
    Commute(hc, s');
    CancelReal(h * wc / s', hc, s');
  }
}
