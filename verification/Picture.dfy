/** What a picture row shows, sample by sample: which samples of a component's plane each
    enlarging mode takes, and with what weights; and which block each sample is from. */
module Picture {
  import opened Grid
  import opened Geometry
  import opened Layout
  import opened Workspace
  import Blocks
  import Enlarge
  import Upsample

  /** The number nearest to `r` among those below `n`. */
  function Nearest(r: int, n: nat): (k: nat)
    requires n > 0
    ensures k < n && (0 <= r < n ==> k == r) && (r < 0 ==> k == 0) && (r >= n ==> k == n - 1)
  {
    if r < 0 then 0 else if r >= n then n - 1 else r
  }

  /** The plane's sample in row `r` and column `x`, the edge ones beyond the edge. */
  ghost function Sample(ws: seq<Byte>, p: Plan, i: nat, r: int, x: int): (s: Byte)
    requires p.Ok() && i < p.N() && |ws| == p.Total()
  {
    hide Component, Plan.Total, SampleAt;
    SaneComp(p, i);
    var c := p.C(i);
    RowInside(p, i, Nearest(r, c.dh));
    SampleStep(p, i, Nearest(r, c.dh), Nearest(x, c.dw));
    ws[SampleAt(p, i, Nearest(r, c.dh), Nearest(x, c.dw))]
  }

  lemma SampleStep(p: Plan, i: nat, r: nat, x: nat)
    requires p.Ok() && i < p.N()
    ensures SampleAt(p, i, r, x) == SampleAt(p, i, r, 0) + x
  {
    hide Component;
  }

  /** The neighbour an axis doubled by blending leans to. */
  function Beside(x: nat): int { if x % 2 == 1 then x / 2 + 1 else x / 2 - 1 }

  /** A row's entries are the plane's samples. */
  lemma ClampedAt(ws: seq<Byte>, p: Plan, i: nat, r: int, x: nat)
    requires p.Ok() && i < p.N() && |ws| == p.Total() && x < p.C(i).dw
    ensures Clamped(ws, p, i, r)[x] == Sample(ws, p, i, r, x)
  {
    hide Component, Plan.Total, SampleAt;
    SaneComp(p, i);
    var q := Nearest(r, p.C(i).dh);
    RowInside(p, i, q);
    SampleStep(p, i, q, x);
  }

  /** The entry of a row next to an edge is the edge's own. */
  lemma BesideIn(x: nat, n: nat)
    requires n > 0 && x < 2 * n
    ensures Upsample.Clamp(Upsample.Lean(x), n) == Nearest(Beside(x), n) && x / 2 < n
  {
  }

  /** Three parts `a` and one part `b`, rounded one way or the other. */
  function Leaning(a: Byte, b: Byte, x: nat): (s: Byte) { (3 * (a as int) + b + (if x % 2 == 1 then 2 else 1)) / 4 }

  /** The same along both axes: nine, three, three parts and one. */
  function Leaning2(a: Byte, b: Byte, c: Byte, d: Byte, x: nat): (s: Byte)
  {
    (9 * (a as int) + 3 * (b as int) + 3 * (c as int) + d + (if x % 2 == 1 then 7 else 8)) / 16
  }

  /** The column of the plane behind column `x` of the picture. */
  function ColumnBehind(c: Comp, sw: nat, x: nat): (k: nat)
  {
    match c.up
    case Full => x
    case H1V2F => x
    case Int => if c.hexp == 0 then 0 else x / c.hexp
    case Nearest => if sw == 0 then 0 else x * c.dw / sw
    case _ => x / 2
  }

  /** The row of the plane behind row `y` of the picture. */
  function RowBehind(c: Comp, sh: nat, y: nat): (k: nat)
  {
    match c.up
    case Full => y
    case H2V1 => y
    case H2V1F => y
    case Int => if c.vexp == 0 then 0 else y / c.vexp
    case Nearest => if sh == 0 then 0 else y * c.dh / sh
    case _ => y / 2
  }

  /** Each mode entry by entry, from the two rows it is given. */
  lemma EnlargedAt(c: Comp, sw: nat, a: seq<Byte>, b: seq<Byte>, odd: bool, x: nat)
    requires Enlarge.Sane(c) && sw > 0 && |a| == |b| == c.dw && x < |Enlarge.Enlarged(c, sw, a, b, odd)|
    ensures var s, k, m := Enlarge.Enlarged(c, sw, a, b, odd)[x], ColumnBehind(c, sw, x), Nearest(Beside(x), c.dw);
      && k < c.dw
      && s == if c.up.H2V1F? then Leaning(a[k], a[m], x)
              else if c.up.H1V2F? then Leaning(a[k], b[k], if odd then 1 else 0)
              else if c.up.H2V2F? then Leaning2(a[k], a[m], b[k], b[m], x)
              else a[k]
  {
    if c.up.H2V1F? || c.up.H2V2F? {
      BlendedAt(c, sw, a, b, odd, x);
    } else {
      UnblendedAt(c, sw, a, b, odd, x);
    }
  }

  lemma UnblendedAt(c: Comp, sw: nat, a: seq<Byte>, b: seq<Byte>, odd: bool, x: nat)
    requires Enlarge.Sane(c) && sw > 0 && |a| == |b| == c.dw && x < |Enlarge.Enlarged(c, sw, a, b, odd)|
    requires !c.up.H2V1F? && !c.up.H2V2F?
    ensures var s, k := Enlarge.Enlarged(c, sw, a, b, odd)[x], ColumnBehind(c, sw, x);
      k < c.dw && s == if c.up.H1V2F? then Leaning(a[k], b[k], if odd then 1 else 0) else a[k]
  {
    match c.up
    case Full =>
    case H1V2F =>
    case Nearest => Upsample.NearIn(x, c.dw, sw);
    case Int => Upsample.Quotient(x, c.hexp, c.dw);
    case H2V1 => Upsample.Quotient(x, 2, c.dw);
    case H2V2 => Upsample.Quotient(x, 2, c.dw);
  }

  lemma BlendedAt(c: Comp, sw: nat, a: seq<Byte>, b: seq<Byte>, odd: bool, x: nat)
    requires Enlarge.Sane(c) && sw > 0 && |a| == |b| == c.dw && x < |Enlarge.Enlarged(c, sw, a, b, odd)|
    requires c.up.H2V1F? || c.up.H2V2F?
    ensures var s, k, m := Enlarge.Enlarged(c, sw, a, b, odd)[x], ColumnBehind(c, sw, x), Nearest(Beside(x), c.dw);
      k < c.dw && s == if c.up.H2V1F? then Leaning(a[k], a[m], x) else Leaning2(a[k], a[m], b[k], b[m], x)
  {
    match c.up
    case H2V1F => BesideIn(x, c.dw);
    case H2V2F => BesideIn(x, c.dw);
  }

  lemma ClampedBeside(ws: seq<Byte>, p: Plan, i: nat, r: int, x: nat)
    requires p.Ok() && i < p.N() && |ws| == p.Total() && p.C(i).dw > 0
    ensures Clamped(ws, p, i, r)[Nearest(Beside(x), p.C(i).dw)] == Sample(ws, p, i, r, Beside(x))
  {
    hide Component, Plan.Total, Clamped, SampleAt;
    ClampedAt(ws, p, i, r, Nearest(Beside(x), p.C(i).dw));
  }

  lemma RowsBehind(c: Comp, sh: nat, y: nat)
    requires Enlarge.Sane(c) && sh > 0
    ensures c.dw > 0 && Enlarge.MainRow(c, y, sh) == RowBehind(c, sh, y)
    ensures c.up.H1V2F? || c.up.H2V2F? ==> Enlarge.OtherRow(c, y, sh) == Beside(y)
  {
  }

  /** Every sample of a picture row: the plane's sample behind it, or a blend with its
      neighbours to the side, above or below. */
  lemma ShownAt(ws: seq<Byte>, p: Plan, i: nat, y: nat, x: nat)
    requires p.Ok() && i < p.N() && |ws| == p.Total() && y < p.f.Sh() && x < |Shown(ws, p, i, y)|
    ensures var c, s := p.C(i), Shown(ws, p, i, y)[x];
      var r, k := RowBehind(c, p.f.Sh(), y), ColumnBehind(c, p.f.Sw(), x);
      s == if c.up.H2V1F? then Leaning(Sample(ws, p, i, r, k), Sample(ws, p, i, r, Beside(x)), x)
           else if c.up.H1V2F? then Leaning(Sample(ws, p, i, r, k), Sample(ws, p, i, Beside(y), k), y)
           else if c.up.H2V2F? then
             Leaning2(Sample(ws, p, i, r, k), Sample(ws, p, i, r, Beside(x)), Sample(ws, p, i, Beside(y), k), Sample(ws, p, i, Beside(y), Beside(x)), x)
           else Sample(ws, p, i, r, k)
  {
    hide Component, Plan.Total, Sample, Enlarge.Sane, Enlarge.Enlarged, Enlarge.MainRow, Enlarge.OtherRow, Clamped, Leaning2, Beside, ColumnBehind, RowBehind;
    SaneComp(p, i);
    var c, sw, sh := p.C(i), p.f.Sw(), p.f.Sh();
    RowsBehind(c, sh, y);
    var ra, rb, k := Enlarge.MainRow(c, y, sh), Enlarge.OtherRow(c, y, sh), ColumnBehind(c, sw, x);
    EnlargedAt(c, sw, Clamped(ws, p, i, ra), Clamped(ws, p, i, rb), y % 2 == 1, x);
    ClampedAt(ws, p, i, ra, k);
    ClampedAt(ws, p, i, rb, k);
    ClampedBeside(ws, p, i, ra, x);
    ClampedBeside(ws, p, i, rb, x);
    ParityLeans(Sample(ws, p, i, ra, k), Sample(ws, p, i, rb, k), y);
  }

  lemma ParityLeans(a: Byte, b: Byte, y: nat)
    ensures Leaning(a, b, if y % 2 == 1 then 1 else 0) == Leaning(a, b, y)
  {
  }

  /** Each real sample of a plane is one of the block that covers it. */
  lemma SampleOfBlock(ws: seq<Byte>, p: Plan, i: nat, y: nat, x: nat)
    requires p.Ok() && i < p.N() && |ws| == p.Total() && y < p.C(i).dh && x < p.C(i).dw
    ensures var n := p.C(i).ssize;
      n > 0 && Id(i, y / n, x / n).Real(p) && Sample(ws, p, i, y, x) == Blocks.SampleOf(ws, p, Id(i, y / n, x / n), y % n, x % n)
  {
    hide Component, Plan.Total, SampleAt;
    Measured(p, i);
    Fits(p.f, p.samp[i]);
    var c := p.C(i);
    var n := c.ssize;
    Upsample.Quotient(y, n, c.hblocks);
    Upsample.Quotient(x, n, c.wblocks);
    assert At(y / n, n, y % n) == y && At(x / n, n, x % n) == x;
  }
}
