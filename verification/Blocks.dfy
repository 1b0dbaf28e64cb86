/** Blocks inside the decoder's memory: sample windows in the planes, coefficient
    blocks as little-endian 16-bit values, and that writing one disturbs no other. */
module Blocks {
  import opened Grid
  import opened Geometry
  import opened Layout
  import Idct

  /** A block of 16-bit coefficients in row order. */
  type Block = s: seq<int> | |s| == 64 && forall k :: 0 <= k < 64 ==> -0x8000 <= s[k] < 0x8000
    witness seq(64, _ => 0)

  /** Any 64 values in row order. */
  type Values = s: seq<int> | |s| == 64 witness seq(64, _ => 0)

  type Quant = Values

  function Kernel(n: nat): Idct.Kernel
    requires Size(n) && n > 1
  {
    if n == 8 then Idct.K8 else if n == 4 then Idct.K4 else Idct.K2
  }

  /** Sample (r, x) of a block decoded to `n` by `n` samples. */
  function Pixel(n: nat, blk: Values, qt: Quant, g: Idct.Config, r: nat, x: nat): (b: Byte)
    requires Size(n) && g.Valid() && r < n && x < n
  {
    if n == 1 then Idct.OutPx(Idct.Descale(Idct.Deq(blk[0], qt[0]), 3), g)
    else Idct.Sample(Kernel(n), Idct.Cells(Kernel(n), blk, qt, g.pass1, r), g, x)
  }

  /** Every sample of the window of block `b` is what the block decodes to. */
  ghost predicate ShowsBlock(ws: seq<Byte>, p: Plan, b: Id, blk: Values, qt: Quant, g: Idct.Config)
    requires p.Ok() && b.Real(p) && |ws| == p.Total() && g.Valid()
  {
    var n := p.C(b.i).ssize;
    Size(n) && forall r: nat, x: nat :: r < n && x < n ==> SampleOf(ws, p, b, r, x) == Pixel(n, blk, qt, g, r, x)
  }

  ghost predicate SameWindow(ws: seq<Byte>, ws': seq<Byte>, p: Plan, b: Id)
    requires p.Ok() && b.Real(p) && |ws| == |ws'| == p.Total()
  {
    var n := p.C(b.i).ssize;
    forall r: nat, x: nat :: r < n && x < n ==> SampleOf(ws', p, b, r, x) == SampleOf(ws, p, b, r, x)
  }

  function SampleOf(ws: seq<Byte>, p: Plan, b: Id, r: nat, x: nat): (s: Byte)
    requires p.Ok() && b.Real(p) && r < p.C(b.i).ssize && x < p.C(b.i).ssize && |ws| == p.Total()
  {
    WindowSlice(p, b, r, x);
    ws[WindowAt(p, b, r, x)]
  }

  lemma WindowSlice(p: Plan, b: Id, r: nat, x: nat)
    requires p.Ok() && b.Real(p) && r < p.C(b.i).ssize && x < p.C(b.i).ssize
    ensures PlaneOf(b.i).Lo(p) <= WindowAt(p, b, r, x) < PlaneOf(b.i).Hi(p) <= p.Planes() <= p.Total() - 16
  {
    hide Component, Start, Align16, At, SampleAt, Slice.Lo, Slice.Hi, Plan.PlaneAt, Widest;
    WindowIn(p, b, r, x);
    SampleIn(p, b.i, At(b.row, p.C(b.i).ssize, r), At(b.col, p.C(b.i).ssize, x));
    BelowRows(p, PlaneOf(b.i));
  }

  /** Planes and coefficients lie below the row buffers, far from the guard. */
  lemma BelowRows(p: Plan, s: Slice)
    requires p.Ok() && s.In(p) && (s.PlaneOf? || s.CoefOf?)
    ensures s.Lo(p) <= s.Hi(p) <= p.Planes() <= p.Total() - 16
  {
    hide Component, Start, Align16, Widest;
    ComponentEnds(p, s.i, p.N());
    Mono(p.Ubw(), 0, p.N());
    Inside(p, s);
  }

  /** The window in terms of its first sample and the plane's width. */
  lemma WindowLinear(p: Plan, b: Id, r: nat, x: nat)
    requires p.Ok() && b.i < p.N()
    ensures WindowAt(p, b, r, x) == WindowAt(p, b, 0, 0) + r * p.C(b.i).pw + x
  {
    hide Component, Start, Plan.PlaneAt;
    var n, w := p.C(b.i).ssize, p.C(b.i).pw;
    assert (b.row * n + r) * w == b.row * n * w + r * w;
  }

  /** Decodes one block into its window; nothing else changes. */
  method PutBlock(p: Plan, ws: array<Byte>, b: Id, blk: Block, qt: Quant, g: Idct.Config)
    requires p.Ok() && b.Real(p) && ws.Length == p.Total() && g.Valid()
    modifies ws
    ensures ShowsBlock(ws[..], p, b, blk, qt, g)
    ensures OnlyWindow(old(ws[..]), ws[..], p, b)
    ensures (forall i :: 1 <= i < 64 ==> blk[i] == 0) ==> ShowsShade(ws[..], p, b, Idct.Shade(blk[0] * qt[0], g.oshift > 0))
  {
    hide Component, WindowAt, Plan.Total, Pixel, Idct.Sample, Idct.Cells, Idct.OutPx, Idct.RowDone, Idct.InWindow;
    var c := p.C(b.i);
    var n := c.ssize;
    Measured(p, b.i);
    Fits(p.f, p.samp[b.i]);
    WindowSlice(p, b, 0, 0);
    WindowSlice(p, b, n - 1, n - 1);
    WindowLinear(p, b, n - 1, n - 1);
    if n == 1 {
      ws[WindowAt(p, b, 0, 0)] := Idct.OutPx(Idct.Descale(Idct.Deq(blk[0], qt[0]), 3), g);
      ShowsOne(ws[..], p, b, blk, qt, g);
      OneOutside(p, b, c.pw);
    } else {
      Idct.Block(Kernel(n), blk, qt, ws, WindowAt(p, b, 0, 0), c.pw, g);
      ShowsRows(ws[..], p, b, blk, qt, g);
    }
    if forall i :: 1 <= i < 64 ==> blk[i] == 0 { FlatShows(ws[..], p, b, blk, qt, g); }
  }

  /** Every sample of the window is `s`. */
  ghost predicate ShowsShade(ws: seq<Byte>, p: Plan, b: Id, s: Byte)
    requires p.Ok() && b.Real(p) && |ws| == p.Total()
  {
    var n := p.C(b.i).ssize;
    forall r: nat, x: nat :: r < n && x < n ==> SampleOf(ws, p, b, r, x) == s
  }

  /** A block with a DC term alone shows one shade, in all four sizes. */
  lemma FlatShows(ws: seq<Byte>, p: Plan, b: Id, blk: Values, qt: Quant, g: Idct.Config)
    requires p.Ok() && b.Real(p) && |ws| == p.Total() && g.Valid() && ShowsBlock(ws, p, b, blk, qt, g)
    requires forall i :: 1 <= i < 64 ==> blk[i] == 0
    ensures ShowsShade(ws, p, b, Idct.Shade(blk[0] * qt[0], g.oshift > 0))
  {
    hide Component, SampleOf, Plan.Total, Idct.OutPx, Idct.Descale, Idct.Deq, Idct.Sample, Idct.Cells, Idct.Shade;
    var n := p.C(b.i).ssize;
    forall r: nat, x: nat | r < n && x < n ensures Pixel(n, blk, qt, g, r, x) == Idct.Shade(blk[0] * qt[0], g.oshift > 0) {
      if n == 1 { Idct.OutPxShade(blk[0], qt[0], g); } else { Idct.FlatBlock(Kernel(n), blk, qt, g, r, x); }
    }
  }

  /** Of coefficients and quantisers only the products matter. */
  lemma ProductsShow(ws: seq<Byte>, p: Plan, b: Id, blk: Values, qt: Quant, v: Values, ones: Quant, g: Idct.Config)
    requires p.Ok() && b.Real(p) && |ws| == p.Total() && g.Valid()
    requires Idct.Products(blk, qt, v) && forall i :: 0 <= i < 64 ==> ones[i] == 1
    ensures ShowsBlock(ws, p, b, blk, qt, g) <==> ShowsBlock(ws, p, b, v, ones, g)
  {
    hide Component, SampleOf, Plan.Total, Idct.OutPx, Idct.Descale, Idct.Sample, Idct.Cells, Idct.Products;
    var n := p.C(b.i).ssize;
    if Size(n) {
      forall r: nat, x: nat | r < n && x < n ensures Pixel(n, blk, qt, g, r, x) == Pixel(n, v, ones, g, r, x) {
        if n == 1 { FirstProduct(blk, qt, v, ones); } else { Idct.OnlyProducts(Kernel(n), blk, qt, v, ones, g.pass1, r); }
      }
    }
  }

  lemma FirstProduct(blk: Values, qt: Quant, v: Values, ones: Quant)
    requires Idct.Products(blk, qt, v) && ones[0] == 1
    ensures Idct.Deq(blk[0], qt[0]) == Idct.Deq(v[0], ones[0])
  {
    assert v[0] * ones[0] == v[0];
  }

  /** Only samples of the window of `b` differ. */
  ghost predicate OnlyWindow(before: seq<Byte>, after: seq<Byte>, p: Plan, b: Id)
    requires p.Ok() && b.i < p.N()
  {
    var c := p.C(b.i);
    |after| == |before| && forall q :: 0 <= q < |before| && !Idct.InWindow(q, WindowAt(p, b, 0, 0), c.pw, c.ssize) ==> after[q] == before[q]
  }

  lemma ShowsOne(ws: seq<Byte>, p: Plan, b: Id, blk: Values, qt: Quant, g: Idct.Config)
    requires p.Ok() && b.Real(p) && |ws| == p.Total() && g.Valid() && p.C(b.i).ssize == 1
    requires SampleOf(ws, p, b, 0, 0) == Idct.OutPx(Idct.Descale(Idct.Deq(blk[0], qt[0]), 3), g)
    ensures ShowsBlock(ws, p, b, blk, qt, g)
  {
    hide Component, SampleOf, Plan.Total, Idct.OutPx, Idct.Descale, Idct.Deq;
  }

  lemma OneOutside(p: Plan, b: Id, w: nat)
    requires p.Ok() && b.i < p.N()
    ensures forall q :: q != WindowAt(p, b, 0, 0) ==> !Idct.InWindow(q, WindowAt(p, b, 0, 0), w, 1)
    ensures Idct.InWindow(WindowAt(p, b, 0, 0), WindowAt(p, b, 0, 0), w, 1)
  {
    hide WindowAt;
    var at := WindowAt(p, b, 0, 0);
    assert at + 0 * w == at;
  }

  /** All rows of a window starting at `at`, with the plane `w` wide. */
  ghost predicate RowsDone(ws: seq<Byte>, at: nat, w: nat, kn: Idct.Kernel, blk: Values, qt: Quant, g: Idct.Config)
    requires g.Valid()
  {
    forall r :: 0 <= r < kn.Size() ==> Idct.RowDone(kn, ws, at + r * w, Idct.Cells(kn, blk, qt, g.pass1, r), g)
  }

  lemma ShowsRows(ws: seq<Byte>, p: Plan, b: Id, blk: Values, qt: Quant, g: Idct.Config)
    requires p.Ok() && b.Real(p) && |ws| == p.Total() && g.Valid() && Size(p.C(b.i).ssize) && p.C(b.i).ssize > 1
    requires RowsDone(ws, WindowAt(p, b, 0, 0), p.C(b.i).pw, Kernel(p.C(b.i).ssize), blk, qt, g)
    ensures ShowsBlock(ws, p, b, blk, qt, g)
  {
    hide Component, WindowAt, Plan.Total, Idct.Sample, Idct.Cells, Idct.RowDone;
    var c := p.C(b.i);
    var kn := Kernel(c.ssize);
    forall r: nat, x: nat | r < c.ssize && x < c.ssize
      ensures SampleOf(ws, p, b, r, x) == Pixel(c.ssize, blk, qt, g, r, x)
    {
      WindowSlice(p, b, r, x);
      WindowLinear(p, b, r, x);
      var y := Idct.Cells(kn, blk, qt, g.pass1, r);
      assert Idct.RowDone(kn, ws, WindowAt(p, b, 0, 0) + r * c.pw, y, g);
      RowSample(kn, ws, WindowAt(p, b, 0, 0) + r * c.pw, y, g, x);
    }
  }

  lemma RowSample(kn: Idct.Kernel, ws: seq<Byte>, at: nat, y: seq<int>, g: Idct.Config, x: nat)
    requires |y| == 8 && g.Valid() && x < kn.Size() && Idct.RowDone(kn, ws, at, y, g)
    ensures at + x < |ws| && ws[at + x] == Idct.Sample(kn, y, g, x)
  {
    hide Idct.Sample;
    assert Idct.PxAt(ws, at, x) == Idct.Sample(kn, y, g, x);
  }

  /** Every index of a window is one of its samples. */
  lemma WindowIndex(p: Plan, b: Id, q: int)
    requires p.Ok() && b.i < p.N() && Idct.InWindow(q, WindowAt(p, b, 0, 0), p.C(b.i).pw, p.C(b.i).ssize)
    ensures exists r: nat, x: nat :: r < p.C(b.i).ssize && x < p.C(b.i).ssize && q == WindowAt(p, b, r, x)
  {
    hide Component, WindowAt;
    var c, at := p.C(b.i), WindowAt(p, b, 0, 0);
    var r :| 0 <= r < c.ssize && at + r * c.pw <= q < at + r * c.pw + c.ssize;
    var x: nat := q - (at + r * c.pw);
    WindowLinear(p, b, r, x);
    assert q == WindowAt(p, b, r, x);
  }

  /** Decoding one block leaves the window of every other as it was. */
  lemma OtherWindow(before: seq<Byte>, after: seq<Byte>, p: Plan, a: Id, b: Id)
    requires p.Ok() && a.Real(p) && b.Real(p) && a != b && |before| == p.Total() && OnlyWindow(before, after, p, a)
    ensures SameWindow(before, after, p, b)
  {
    hide Component, WindowAt, Plan.Total;
    var n := p.C(b.i).ssize;
    forall r: nat, x: nat | r < n && x < n ensures SampleOf(after, p, b, r, x) == SampleOf(before, p, b, r, x) {
      WindowSlice(p, b, r, x);
      var q := WindowAt(p, b, r, x);
      if Idct.InWindow(q, WindowAt(p, a, 0, 0), p.C(a.i).pw, p.C(a.i).ssize) {
        WindowIndex(p, a, q);
        var r', x' :| 0 <= r' < p.C(a.i).ssize && 0 <= x' < p.C(a.i).ssize && q == WindowAt(p, a, r', x');
        WindowsApart(p, a, r', x', b, r, x);
      }
    }
  }

  /** A window lies in its plane. */
  lemma WindowKept(before: seq<Byte>, after: seq<Byte>, p: Plan, b: Id)
    requires p.Ok() && b.Real(p) && |before| == p.Total() && OnlyWindow(before, after, p, b)
    ensures Kept(before, after, PlaneOf(b.i).Lo(p), PlaneOf(b.i).Hi(p))
  {
    hide Component, WindowAt, Plan.Total, Slice.Lo, Slice.Hi;
    var lo, hi := PlaneOf(b.i).Lo(p), PlaneOf(b.i).Hi(p);
    forall q | 0 <= q < |before| && (q < lo || hi <= q) ensures after[q] == before[q] {
      if Idct.InWindow(q, WindowAt(p, b, 0, 0), p.C(b.i).pw, p.C(b.i).ssize) {
        WindowIndex(p, b, q);
        var r, x :| 0 <= r < p.C(b.i).ssize && 0 <= x < p.C(b.i).ssize && q == WindowAt(p, b, r, x);
        WindowSlice(p, b, r, x);
      }
    }
  }

  // ---- coefficients -----------------------------------------------------------------------

  /** A two's-complement 16-bit value, low byte first. */
  function Halfword(lo: Byte, hi: Byte): (v: int)
    ensures -0x8000 <= v < 0x8000
  {
    var u := (lo as int) + 256 * (hi as int);
    if u < 0x8000 then u else u - 0x1_0000
  }

  /** The coefficients of block `b`. */
  function Coefs(ws: seq<Byte>, p: Plan, b: Id): (blk: Block)
    requires p.Ok() && p.buffered && b.Padded(p) && |ws| == p.Total()
  {
    BlockSlice(p, b);
    BlockFrom(ws, BlockAt(p, b))
  }

  function BlockFrom(ws: seq<Byte>, at: nat): (blk: Block)
    requires at + 128 <= |ws|
  {
    seq(64, k requires 0 <= k < 64 => Halfword(ws[at + 2 * k], ws[at + 2 * k + 1]))
  }

  lemma BlockSlice(p: Plan, b: Id)
    requires p.Ok() && p.buffered && b.Padded(p)
    ensures CoefOf(b.i).Lo(p) <= BlockAt(p, b) <= BlockAt(p, b) + 128 <= CoefOf(b.i).Hi(p) <= p.Planes() <= p.Total() - 16
  {
    hide BlockAt, Component, Slice.Lo, Slice.Hi, Plan.Total, Plan.Planes;
    BlockIn(p, b);
    BelowRows(p, CoefOf(b.i));
  }

  method StoreBlock(p: Plan, ws: array<Byte>, b: Id, blk: Block)
    requires p.Ok() && p.buffered && b.Padded(p) && ws.Length == p.Total()
    modifies ws
    ensures Coefs(ws[..], p, b) == blk
    ensures Kept(old(ws[..]), ws[..], BlockAt(p, b), BlockAt(p, b) + 128)
  {
    hide BlockAt, Component, Plan.Total, Halfword;
    BlockSlice(p, b);
    StoreAt(ws, BlockAt(p, b), blk);
  }

  method StoreAt(ws: array<Byte>, at: nat, blk: Block)
    requires at + 128 <= ws.Length
    modifies ws
    ensures BlockFrom(ws[..], at) == blk && Kept(old(ws[..]), ws[..], at, at + 128)
  {
    hide Halfword;
    var k := 0;
    while k < 64
      invariant 0 <= k <= 64 && Kept(old(ws[..]), ws[..], at, at + 128)
      invariant forall j :: 0 <= j < k ==> Halfword(ws[at + 2 * j], ws[at + 2 * j + 1]) == blk[j]
    {
      var u := if blk[k] < 0 then blk[k] + 0x1_0000 else blk[k];
      HalfwordBack(blk[k], u);
      ws[at + 2 * k], ws[at + 2 * k + 1] := u % 256, u / 256;
      k := k + 1;
    }
  }

  lemma HalfwordBack(v: int, u: nat)
    requires -0x8000 <= v < 0x8000 && u == (if v < 0 then v + 0x1_0000 else v)
    ensures 0 <= u / 256 < 256 && Halfword(u % 256, u / 256) == v
  {
  }

  method LoadBlock(p: Plan, ws: array<Byte>, b: Id) returns (blk: Block)
    requires p.Ok() && p.buffered && b.Padded(p) && ws.Length == p.Total()
    ensures blk == Coefs(ws[..], p, b)
  {
    hide BlockAt, Component, Plan.Total, Halfword;
    BlockSlice(p, b);
    var at := BlockAt(p, b);
    var c: seq<int> := [];
    while |c| < 64
      invariant |c| <= 64 && forall j :: 0 <= j < |c| ==> c[j] == Halfword(ws[at + 2 * j], ws[at + 2 * j + 1])
      decreases 64 - |c|
    {
      c := c + [Halfword(ws[at + 2 * |c|], ws[at + 2 * |c| + 1])];
    }
    blk := c;
  }

  /** A write that stays out of a block's bytes leaves the block. */
  lemma OtherBlock(before: seq<Byte>, after: seq<Byte>, p: Plan, b: Id, lo: nat, hi: nat)
    requires p.Ok() && p.buffered && b.Padded(p) && |before| == p.Total() && Kept(before, after, lo, hi)
    requires hi <= BlockAt(p, b) || BlockAt(p, b) + 128 <= lo
    ensures Coefs(after, p, b) == Coefs(before, p, b)
  {
    hide BlockAt, Component, Plan.Total, Halfword;
    BlockSlice(p, b);
    var at := BlockAt(p, b);
    forall k | 0 <= k < 64 ensures after[at + 2 * k] == before[at + 2 * k] && after[at + 2 * k + 1] == before[at + 2 * k + 1] { }
    assert forall k :: 0 <= k < 64 ==> Coefs(after, p, b)[k] == Coefs(before, p, b)[k];
  }

  /** Coefficients are read and written at even addresses. */
  lemma Aligned(p: Plan, b: Id, k: nat)
    requires p.Ok() && b.i < p.N()
    ensures (BlockAt(p, b) + 2 * k) % 2 == 0
  {
    hide Component, At, PlaneBytes, CoefBytes, Align16;
    StartEven(p.Comps(), b.i, p.buffered);
    Align16Even(PlaneBytes(p.C(b.i)));
  }

  lemma Align16Even(v: nat)
    ensures Align16(v) % 2 == 0
  {
    var q := (v + 15) / 16;
    assert q * 16 == 2 * (8 * q);
  }

  lemma {:induction false} StartEven(cs: seq<Comp>, i: nat, buffered: bool)
    requires i <= |cs|
    ensures Start(cs, i, buffered) % 2 == 0
  {
    hide Space;
    if i > 0 {
      StartEven(cs, i - 1, buffered);
      SpaceEven(cs[i - 1], buffered);
    }
  }

  lemma SpaceEven(c: Comp, buffered: bool)
    ensures Space(c, buffered) % 2 == 0
  {
    hide Align16, PlaneBytes, CoefBytes;
    Align16Even(PlaneBytes(c));
    Align16Even(CoefBytes(c));
  }
}
