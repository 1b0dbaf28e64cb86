/** The geometry of a JPEG frame: how the scale, the block counts, the plane sizes and
    the way each component is enlarged again follow from the frame header. */
module Geometry {
  import Grid

  const MAX_DIM := 65535

  /** `a / b` rounded up. */
  function CeilDiv(a: nat, b: nat): (q: nat)
    requires b > 0
  {
    (a + b - 1) / b
  }

  datatype Sampling = Sampling(h: nat, v: nat)

  /** How a component's rows are enlarged to the picture; the modes ending in F blend
      neighbours. */
  datatype UpMode = Full | H2V1F | H2V1 | H1V2F | H2V2F | H2V2 | Int | Nearest

  datatype Frame = Frame(w: nat, h: nat, hmax: nat, vmax: nat, den: nat)
  {
    predicate Valid()
    {
      && 1 <= w <= MAX_DIM && 1 <= h <= MAX_DIM && 1 <= hmax <= 4 && 1 <= vmax <= 4
      && (den == 1 || den == 2 || den == 4 || den == 8)
    }

    /** The size a block of the finest component is decoded to. */
    function N(): (n: nat)
      requires Valid()
      ensures n * den == 8 && (n == 1 || n == 2 || n == 4 || n == 8)
    {
      8 / den
    }

    function Sw(): nat requires Valid() { CeilDiv(w, den) }
    function Sh(): nat requires Valid() { CeilDiv(h, den) }
    function McuX(): nat requires Valid() { CeilDiv(w, hmax * 8) }
    function McuY(): nat requires Valid() { CeilDiv(h, vmax * 8) }

    predicate Takes(s: Sampling) { Valid() && 1 <= s.h <= hmax && 1 <= s.v <= vmax }
  }

  datatype Comp = Comp(
    h: nat, v: nat, wblocks: nat, hblocks: nat, ssize: nat, mcuWb: nat, mcuHb: nat,
    dw: nat, dh: nat, pw: nat, ph: nat, up: UpMode, hexp: nat, vexp: nat)

  predicate Doubles(f: Frame, s: Sampling, ss: nat)
    requires f.Takes(s) && ss > 0
  {
    (f.hmax * f.N()) % (s.h * ss * 2) == 0 && (f.vmax * f.N()) % (s.v * ss * 2) == 0
  }

  predicate Size(n: nat) { n == 1 || n == 2 || n == 4 || n == 8 }

  /** The size blocks of this component are decoded to: doubled as long as that makes
      later enlarging unnecessary. */
  function ScaledSize(f: Frame, s: Sampling, ss: nat): (r: nat)
    requires f.Takes(s) && Size(ss)
    ensures Size(r) && ss <= r
    decreases 8 - ss
  {
    if ss < 8 && Doubles(f, s, ss) then ScaledSize(f, s, ss * 2) else ss
  }

  /** It is the block size asked for or a larger one that still goes into the finest
      component's, and no block size twice as large does. */
  lemma {:induction false} LargestSize(f: Frame, s: Sampling, ss: nat)
    requires f.Takes(s) && Size(ss)
    ensures var r, h, v := ScaledSize(f, s, ss), f.hmax * f.N(), f.vmax * f.N();
      && (r == ss || (h % (s.h * r) == 0 && v % (s.v * r) == 0))
      && (r == 8 || h % (s.h * (2 * r)) != 0 || v % (s.v * (2 * r)) != 0)
    decreases 8 - ss
  {
    assert s.h * ss * 2 == s.h * (2 * ss) && s.v * ss * 2 == s.v * (2 * ss);
    if ss < 8 && Doubles(f, s, ss) { LargestSize(f, s, ss * 2); }
  }

  /** The enlarging mode and factors, for a component `hin` by `vin` in units where the
      picture is `hmax` by `vmax`. */
  function Mode(f: Frame, hin: nat, vin: nat, dw: nat): (r: (UpMode, nat, nat))
    requires f.Valid() && hin > 0 && vin > 0
  {
    var fancy := f.N() > 1;
    if hin == f.hmax && vin == f.vmax then (Full, 1, 1)
    else if hin * 2 == f.hmax && vin == f.vmax then (if fancy && dw > 2 then H2V1F else H2V1, 2, 1)
    else if hin == f.hmax && vin * 2 == f.vmax && fancy then (H1V2F, 1, 2)
    else if hin * 2 == f.hmax && vin * 2 == f.vmax then (if fancy && dw > 2 then H2V2F else H2V2, 2, 2)
    else if f.hmax % hin == 0 && f.vmax % vin == 0 then (Int, f.hmax / hin, f.vmax / vin)
    else (Nearest, 1, 1)
  }

  /** `h * ss / n`, which leaves no remainder. */
  function Share(h: nat, ss: nat, n: nat): (r: nat)
    requires Size(n) && Size(ss) && n <= ss
    ensures r * n == h * ss && r >= h
  {
    Multiple(h, ss, n, ss / n);
    h * ss / n
  }

  lemma Multiple(h: nat, ss: nat, n: nat, m: nat)
    requires Size(n) && Size(ss) && n <= ss && m == ss / n
    ensures h * ss / n == h * m && (h * m) * n == h * ss && h * m >= h
  {
    assert m >= 1 && m * n == ss;
    Commute(h, m, n);
    Undo(h * m, n);
    Grid.Mono(h, 1, m);
  }

  lemma Undo(a: nat, n: nat)
    requires Size(n)
    ensures a * n / n == a
  {
    if n == 1 {} else if n == 2 {} else if n == 4 {} else {}
  }

  function Component(f: Frame, s: Sampling): (c: Comp)
    requires f.Takes(s)
  {
    hide CeilDiv, ScaledSize, Mode, Doubles;
    var ss := ScaledSize(f, s, f.N());
    var dw, dh := CeilDiv(f.w * s.h * ss, f.hmax * 8), CeilDiv(f.h * s.v * ss, f.vmax * 8);
    var (up, hexp, vexp) := Mode(f, Share(s.h, ss, f.N()), Share(s.v, ss, f.N()), dw);
    Comp(s.h, s.v, CeilDiv(f.w * s.h, f.hmax * 8), CeilDiv(f.h * s.v, f.vmax * 8), ss,
         f.McuX() * s.h, f.McuY() * s.v, dw, dh, f.McuX() * s.h * ss, f.McuY() * s.v * ss, up, hexp, vexp)
  }

  // ---- arithmetic ---------------------------------------------------------------------

  lemma CeilDown(a: nat, b: nat, q: nat)
    requires b > 0 && a <= q * b
    ensures CeilDiv(a, b) <= q
  {
    var c := (a + b - 1) / b;
    if c > q {
      Grid.Mono(b, q + 1, c);
    }
  }

  lemma CeilUp(a: nat, b: nat)
    requires b > 0
    ensures a <= CeilDiv(a, b) * b
    ensures a > 0 ==> CeilDiv(a, b) > 0
  {
  }

  /** The scaled picture and the grid of coded units are as large as needed, and no larger. */
  lemma SizesExact(f: Frame)
    requires f.Valid()
    ensures (f.Sw() - 1) * f.den < f.w <= f.Sw() * f.den && (f.Sh() - 1) * f.den < f.h <= f.Sh() * f.den
    ensures (f.McuX() - 1) * (8 * f.hmax) < f.w <= f.McuX() * (8 * f.hmax)
    ensures (f.McuY() - 1) * (8 * f.vmax) < f.h <= f.McuY() * (8 * f.vmax)
  {
    hide CeilDiv;
    CeilExact(f.w, f.den);
    CeilExact(f.h, f.den);
    CeilExact(f.w, f.hmax * 8);
    CeilExact(f.h, f.vmax * 8);
  }

  lemma CeilExact(a: nat, b: nat)
    requires b > 0
    ensures (CeilDiv(a, b) - 1) * b < a <= CeilDiv(a, b) * b || a == CeilDiv(a, b) == 0
  {
    var q := CeilDiv(a, b);
    assert q * b <= a + b - 1 < q * b + b;
    assert (q - 1) * b == q * b - b;
  }

  /** One axis: `a` samples per unit cell scaled by `ss` are held by whole blocks, and
      those by whole minimum coded units. */
  lemma AxisFits(w: nat, a: nat, ss: nat, m: nat)
    requires w > 0 && a > 0 && ss > 0 && m > 0
    ensures 1 <= CeilDiv(w * a * ss, m) <= CeilDiv(w * a, m) * ss <= CeilDiv(w, m) * a * ss
    ensures CeilDiv(w * a, m) <= CeilDiv(w, m) * a
  {
    var blocks, units := CeilDiv(w * a, m), CeilDiv(w, m);
    CeilUp(w * a, m);
    CeilUp(w, m);
    Scale(w * a, blocks, m, ss);
    CeilDown(w * a * ss, m, blocks * ss);
    Scale(w, units, m, a);
    CeilDown(w * a, m, units * a);
    Grid.Mono(ss, blocks, units * a);
    Positive(w, a);
    Positive(w * a, ss);
    CeilUp(w * a * ss, m);
  }

  lemma Positive(a: nat, b: nat)
    requires a > 0 && b > 0
    ensures a * b > 0
  {
  }

  lemma Scale(a: nat, q: nat, m: nat, k: nat)
    requires a <= q * m
    ensures a * k <= (q * k) * m
  {
    Grid.Mono(k, a, q * m);
    assert (q * k) * m == (q * m) * k;
  }

  /** One axis: enlarged by the factor that brings the component up to the picture, its
      samples cover the picture. */
  lemma AxisCovers(w: nat, a: nat, ss: nat, max: nat, n: nat, den: nat, e: nat)
    requires w > 0 && a > 0 && max > 0 && n * den == 8 && n > 0 && den > 0 && a * ss * e == max * n
    ensures CeilDiv(w * a * ss, max * 8) * e >= CeilDiv(w, den)
  {
    var size, m := w * a * ss, max * n;
    var d := CeilDiv(size, max * 8);
    CeilUp(size, max * 8);
    Scale(size, d, max * 8, e);
    Regroup(w, a, ss, e);
    assert size * e == w * m;
    Regroup(d * e, den, max, n);
    assert max * 8 == den * max * n by { Regroup(max, n, den, 1); Commute(max, n, den); }
    Cancel(w, d * e * den, m);
    CeilDown(w, den, d * e);
  }

  lemma Regroup(a: nat, b: nat, c: nat, d: nat)
    ensures a * b * c * d == a * (b * c * d) == (a * b) * (c * d)
  {
  }

  lemma Commute(a: nat, b: nat, c: nat)
    ensures a * b * c == c * a * b == a * (b * c)
  {
  }

  lemma Cancel(a: nat, b: nat, m: nat)
    requires m > 0 && a * m <= b * m
    ensures a <= b
  {
    if a > b { Grid.Mono(m, b + 1, a); }
  }

  // ---- what the geometry guarantees ------------------------------------------------------

  /** Samples lie in decoded blocks, and those in the padded plane. */
  lemma Fits(f: Frame, s: Sampling)
    requires f.Takes(s)
    ensures var c := Component(f, s);
      && 1 <= c.dw <= c.wblocks * c.ssize <= c.pw && 1 <= c.dh <= c.hblocks * c.ssize <= c.ph
      && c.wblocks <= c.mcuWb && c.hblocks <= c.mcuHb
      && c.pw == c.mcuWb * c.ssize && c.ph == c.mcuHb * c.ssize && Size(c.ssize)
  {
    hide CeilDiv, Mode;
    var ss := ScaledSize(f, s, f.N());
    AxisFits(f.w, s.h, ss, f.hmax * 8);
    AxisFits(f.h, s.v, ss, f.vmax * 8);
  }

  /** Every mode but the nearest-neighbour one multiplies the component up to exactly
      the picture's sampling. */
  lemma ModeExact(f: Frame, s: Sampling)
    requires f.Takes(s)
    ensures var c, n := Component(f, s), f.N();
      && (!c.up.Nearest? ==> c.h * c.ssize * c.hexp == f.hmax * n && c.v * c.ssize * c.vexp == f.vmax * n)
      && c.hexp > 0 && c.vexp > 0
      && (c.up.H2V1F? || c.up.H2V2F? ==> c.dw > 2)
      && (c.up.Full? || c.up.H1V2F? ==> c.hexp == 1) && (c.up.Full? || c.up.H2V1? || c.up.H2V1F? ==> c.vexp == 1)
      && (c.up.H2V1? || c.up.H2V1F? || c.up.H2V2? || c.up.H2V2F? ==> c.hexp == 2)
      && (c.up.H1V2F? || c.up.H2V2? || c.up.H2V2F? ==> c.vexp == 2)
  {
    hide CeilDiv, Mode, ScaledSize, Share;
    var ss, n := ScaledSize(f, s, f.N()), f.N();
    var hin, vin := Share(s.h, ss, n), Share(s.v, ss, n);
    var c := Component(f, s);
    ModeFactors(f, hin, vin, c.dw);
    Product(hin, c.hexp, n, s.h * ss, f.hmax);
    Product(vin, c.vexp, n, s.v * ss, f.vmax);
  }

  lemma Product(x: nat, e: nat, n: nat, p: nat, max: nat)
    requires x * n == p
    ensures x * e == max ==> p * e == max * n
  {
    Commute(x, n, e);
    assert p * e == (x * e) * n by { Commute(x, e, n); }
  }

  lemma ModeFactors(f: Frame, hin: nat, vin: nat, dw: nat)
    requires f.Valid() && hin > 0 && vin > 0
    ensures var (up, hexp, vexp) := Mode(f, hin, vin, dw);
      && (!up.Nearest? ==> hin * hexp == f.hmax && vin * vexp == f.vmax) && hexp > 0 && vexp > 0
      && (up.H2V1F? || up.H2V2F? ==> dw > 2 && hexp == 2)
      && (up.Full? || up.H1V2F? ==> hexp == 1) && (up.H2V1? || up.H2V2? ==> hexp == 2)
      && (up.Full? || up.H2V1? || up.H2V1F? ==> vexp == 1) && (up.H2V2? || up.H2V2F? || up.H1V2F? ==> vexp == 2)
  {
    if f.hmax % hin == 0 && f.vmax % vin == 0 {
      assert f.hmax / hin * hin == f.hmax && f.vmax / vin * vin == f.vmax;
    }
  }

  /** An enlarged row covers the picture's width, and the rows cover its height. */
  lemma Covers(f: Frame, s: Sampling)
    requires f.Takes(s)
    ensures var c := Component(f, s); !c.up.Nearest? ==> c.dw * c.hexp >= f.Sw() && c.dh * c.vexp >= f.Sh()
  {
    hide CeilDiv, Mode, ScaledSize;
    var c := Component(f, s);
    ModeExact(f, s);
    if !c.up.Nearest? {
      AxisCovers(f.w, s.h, c.ssize, f.hmax, f.N(), f.den, c.hexp);
      AxisCovers(f.h, s.v, c.ssize, f.vmax, f.N(), f.den, c.vexp);
    }
  }
}
