/** The inverse DCTs of the JPEG decoder: 8x8 and the reduced 4x4 and 2x2 forms,
    each as a column pass into a workspace and a row pass into the plane, with
    shortcuts for columns and rows that carry only a DC term. */
module Idct {
  import opened BitSeq
  import opened Huffman
  import opened Grid

  /** Sample parameters: 8-bit and 12-bit frames. */
  datatype Config = Config(pass1: nat, center: int, maxv: int, oshift: nat)
  {
    predicate Valid()
    {
      this == Config(2, 128, 255, 0) || this == Config(1, 2048, 4095, 4)
    }
  }

  /** `x` divided by 2^n, rounded to nearest. */
  function Descale(x: int, n: nat): (r: int)
    requires n > 0
  {
    Shr(x + Pow2(n - 1), n)
  }

  /** Dequantises and clamps one coefficient. */
  function Deq(c: int, q: int): (v: int)
    ensures -65535 <= v <= 65535 && (c == 0 ==> v == 0)
  {
    var v := c * q;
    if v > 65535 then 65535 else if v < -65535 then -65535 else v
  }

  /** Level shift, clamp and, for 12-bit data, reduction to a byte. */
  function OutPx(v: int, g: Config): (b: Byte)
    requires g.Valid()
  {
    var s := v + g.center;
    var t := if s < 0 then 0 else if s > g.maxv then g.maxv else s;
    if g.oshift > 0 then
      var u := (t + 8) / 16;
      if u > 255 then 255 else u
    else t
  }

  // ---- kernels ------------------------------------------------------------------

  datatype Kernel = K8 | K4 | K2
  {
    function Size(): nat { match this case K8 => 8 case K4 => 4 case K2 => 2 }

    /** The extra scale bits of the reduced forms. */
    function Extra(): nat { match this case K8 => 0 case K4 => 1 case K2 => 2 }

    /** Which of the eight frequencies the kernel looks at. */
    predicate Uses(k: nat) { match this case K8 => true case K4 => k != 4 case K2 => k == 0 || k % 2 == 1 }

    /** The unscaled outputs for eight inputs. */
    function Raw(x: seq<int>): (y: seq<int>)
      requires |x| == 8
      ensures |y| == Size()
    {
      match this
      case K8 =>
        var z1 := (x[2] + x[6]) * 4433;
        var e2, e3 := z1 - x[6] * 15137, z1 + x[2] * 6270;
        var e0, e1 := (x[0] + x[4]) * 8192, (x[0] - x[4]) * 8192;
        var t10, t13, t11, t12 := e0 + e3, e0 - e3, e1 + e2, e1 - e2;
        var z5 := ((x[7] + x[3]) + (x[5] + x[1])) * 9633;
        var y1, y2 := (x[7] + x[1]) * -7373, (x[5] + x[3]) * -20995;
        var y3, y4 := (x[7] + x[3]) * -16069 + z5, (x[5] + x[1]) * -3196 + z5;
        var o0, o1 := x[7] * 2446 + y1 + y3, x[5] * 16819 + y2 + y4;
        var o2, o3 := x[3] * 25172 + y2 + y3, x[1] * 12299 + y1 + y4;
        [t10 + o3, t11 + o2, t12 + o1, t13 + o0, t13 - o0, t12 - o1, t11 - o2, t10 - o3]
      case K4 =>
        var e0, e2 := x[0] * 16384, x[2] * 15137 - x[6] * 6270;
        var o0 := x[7] * -1730 + x[5] * 11893 + x[3] * -17799 + x[1] * 8697;
        var o2 := x[7] * -4176 + x[5] * -4926 + x[3] * 7373 + x[1] * 20995;
        [e0 + e2 + o2, e0 - e2 + o0, e0 - e2 - o0, e0 + e2 - o2]
      case K2 =>
        var e := x[0] * 32768;
        var o := x[7] * -5906 + x[5] * 6967 + x[3] * -10426 + x[1] * 29692;
        [e + o, e - o]
    }
  }

  /** Only the DC term of `x` is seen by the kernel. */
  predicate Flat(kn: Kernel, x: seq<int>)
    requires |x| == 8
  {
    forall k :: 1 <= k < 8 && kn.Uses(k) ==> x[k] == 0
  }

  /** A kernel maps a flat input to a constant, the DC term at full scale. */
  lemma RawFlat(kn: Kernel, x: seq<int>, i: nat)
    requires |x| == 8 && Flat(kn, x) && i < kn.Size()
    ensures kn.Raw(x)[i] == Shl(x[0], 13 + kn.Extra())
  {
    assert kn.Uses(1) && kn.Uses(3) && kn.Uses(5) && kn.Uses(7);
    assert x[1] == 0 && x[3] == 0 && x[5] == 0 && x[7] == 0;
    assert kn != K2 ==> kn.Uses(2) && kn.Uses(6) && x[2] == 0 && x[6] == 0;
    assert kn == K8 ==> kn.Uses(4) && x[4] == 0;
    ShlThirteen(x[0]);
  }

  lemma ShlThirteen(x: int)
    ensures Shl(x, 13) == 8192 * x && Shl(x, 14) == 16384 * x && Shl(x, 15) == 32768 * x
  {
    assert Shl(x, 0) == x;
    assert Shl(x, 1) == 2 * x;
    assert Shl(x, 2) == 4 * x;
    assert Shl(x, 4) == 16 * x;
    assert Shl(x, 6) == 64 * x;
    assert Shl(x, 8) == 256 * x;
    assert Shl(x, 10) == 1024 * x;
    assert Shl(x, 12) == 4096 * x;
    assert Shl(x, 14) == 16384 * x;
  }

  /** What the kernel ignores does not matter. */
  lemma RawIgnores(kn: Kernel, x: seq<int>, y: seq<int>)
    requires |x| == 8 && |y| == 8 && forall k :: 0 <= k < 8 && kn.Uses(k) ==> x[k] == y[k]
    ensures kn.Raw(x) == kn.Raw(y)
  {
    assert kn.Uses(0) && x[0] == y[0];
    assert kn.Uses(1) && x[1] == y[1];
    assert kn.Uses(3) && x[3] == y[3];
    assert kn.Uses(5) && x[5] == y[5];
    assert kn.Uses(7) && x[7] == y[7];
    match kn
    case K8 => assert x == y;
    case K4 =>
      assert x[2] == y[2] && x[6] == y[6];
    case K2 =>
  }

  ghost predicate Within(x: seq<int>, b: int)
  {
    forall k :: 0 <= k < |x| ==> -b <= x[k] <= b
  }

  // ---- the kernels as matrices --------------------------------------------------

  /** Row `i` of the kernel's matrix, applied to `x`. */
  function Matrix(kn: Kernel, i: nat, x: seq<int>): (y: int)
    requires i < kn.Size() && |x| == 8
  {
    match kn
    case K8 =>
      (match i
       case 0 => 8192 * x[0] + 11363 * x[1] + 10703 * x[2] + 9633 * x[3] + 8192 * x[4] + 6437 * x[5] + 4433 * x[6] + 2260 * x[7]
       case 1 => 8192 * x[0] + 9633 * x[1] + 4433 * x[2] - 2259 * x[3] - 8192 * x[4] - 11362 * x[5] - 10704 * x[6] - 6436 * x[7]
       case 2 => 8192 * x[0] + 6437 * x[1] - 4433 * x[2] - 11362 * x[3] - 8192 * x[4] + 2261 * x[5] + 10704 * x[6] + 9633 * x[7]
       case 3 => 8192 * x[0] + 2260 * x[1] - 10703 * x[2] - 6436 * x[3] + 8192 * x[4] + 9633 * x[5] - 4433 * x[6] - 11363 * x[7]
       case 4 => 8192 * x[0] - 2260 * x[1] - 10703 * x[2] + 6436 * x[3] + 8192 * x[4] - 9633 * x[5] - 4433 * x[6] + 11363 * x[7]
       case 5 => 8192 * x[0] - 6437 * x[1] - 4433 * x[2] + 11362 * x[3] - 8192 * x[4] - 2261 * x[5] + 10704 * x[6] - 9633 * x[7]
       case 6 => 8192 * x[0] - 9633 * x[1] + 4433 * x[2] + 2259 * x[3] - 8192 * x[4] + 11362 * x[5] - 10704 * x[6] + 6436 * x[7]
       case _ => 8192 * x[0] - 11363 * x[1] + 10703 * x[2] - 9633 * x[3] + 8192 * x[4] - 6437 * x[5] + 4433 * x[6] - 2260 * x[7])
    case K4 =>
      (match i
       case 0 => 16384 * x[0] + 20995 * x[1] + 15137 * x[2] + 7373 * x[3] - 4926 * x[5] - 6270 * x[6] - 4176 * x[7]
       case 1 => 16384 * x[0] + 8697 * x[1] - 15137 * x[2] - 17799 * x[3] + 11893 * x[5] + 6270 * x[6] - 1730 * x[7]
       case 2 => 16384 * x[0] - 8697 * x[1] - 15137 * x[2] + 17799 * x[3] - 11893 * x[5] + 6270 * x[6] + 1730 * x[7]
       case _ => 16384 * x[0] - 20995 * x[1] + 15137 * x[2] - 7373 * x[3] + 4926 * x[5] - 6270 * x[6] + 4176 * x[7])
    case K2 =>
      (match i
       case 0 => 32768 * x[0] + 29692 * x[1] - 10426 * x[3] + 6967 * x[5] - 5906 * x[7]
       case _ => 32768 * x[0] - 29692 * x[1] + 10426 * x[3] - 6967 * x[5] + 5906 * x[7])
  }

  /** The butterflies compute the matrix products. */
  lemma RawIsMatrix(kn: Kernel, x: seq<int>, i: nat)
    requires |x| == 8 && i < kn.Size()
    ensures kn.Raw(x)[i] == Matrix(kn, i, x)
  {
  }

  lemma MulUp(a: int, v: int, b: int)
    requires a >= 0 && v <= b
    ensures a * v <= a * b
  {
  }

  lemma MatrixBound(kn: Kernel, x: seq<int>, b: int, i: nat)
    requires |x| == 8 && Within(x, b) && i < kn.Size()
    ensures -(0x2_0000 * b) <= Matrix(kn, i, x) <= 0x2_0000 * b
  {
    assert -b <= x[0] <= b && -b <= x[1] <= b && -b <= x[2] <= b && -b <= x[3] <= b;
    assert -b <= x[4] <= b && -b <= x[5] <= b && -b <= x[6] <= b && -b <= x[7] <= b;
  }

  /** The outputs grow by at most 2^17. */
  lemma RawBound(kn: Kernel, x: seq<int>, b: int, i: nat)
    requires |x| == 8 && Within(x, b) && i < kn.Size()
    ensures -(0x2_0000 * b) <= kn.Raw(x)[i] <= 0x2_0000 * b
  {
    hide Matrix, Kernel.Raw, Within;
    RawIsMatrix(kn, x, i);
    MatrixBound(kn, x, b, i);
  }

  // ---- rounding -----------------------------------------------------------------

  lemma ShrWithin(y: int, n: nat, lo: int, hi: int)
    requires Shl(lo, n) <= y < Shl(hi, n)
    ensures lo <= Shr(y, n) < hi
  {
    ShrLow(y, n);
    var s := Shr(y, n);
    ShlAdd(s, 1, n);
    ShlMono(s + 1, lo + 1, n);
    ShlMono(s + 1, lo, n);
    ShlMono(lo, s + 1, n);
    ShlMono(s, hi, n);
  }

  /** A column's DC shortcut rounds nothing away. */
  lemma DescaleExact(x: int, a: nat, b: nat)
    requires b < a
    ensures Descale(Shl(x, a), a - b) == Shl(x, b)
  {
    ShlShl(x, b, a - b);
    assert Pow2(a - b) == 2 * Pow2(a - b - 1) by { ShlDouble(1, a - b - 1); }
    ShrSplit(Shl(x, b), Pow2(a - b - 1), a - b);
  }

  /** A row's DC shortcut rounds as the full kernel does. */
  lemma DescaleCommon(x: int, a: nat, n: nat)
    requires n > 0
    ensures Descale(Shl(x, a), a + n) == Descale(x, n)
  {
    ShlShl(1, n - 1, a);
    ShlAdd(x, Pow2(n - 1), a);
    ShrShr(Shl(x + Pow2(n - 1), a), a, n);
    ShrSplit(x + Pow2(n - 1), 0, a);
    assert Pow2(a) > 0;
  }

  // ---- the transform ------------------------------------------------------------

  /** Column `c` of a row-major block, dequantised. */
  function Column(blk: seq<int>, qt: seq<int>, c: nat): (x: seq<int>)
    requires |blk| == 64 && |qt| == 64 && c < 8
    ensures |x| == 8 && Within(x, 65535)
  {
    seq(8, k requires 0 <= k < 8 => Deq(blk[8 * k + c], qt[8 * k + c]))
  }

  /** The reference: the full kernel on every column, without shortcuts. */
  function Cell(kn: Kernel, blk: seq<int>, qt: seq<int>, pb: nat, r: nat, c: nat): (v: int)
    requires |blk| == 64 && |qt| == 64 && c < 8 && r < kn.Size() && pb <= 2
  {
    Descale(kn.Raw(Column(blk, qt, c))[r], 13 - pb + kn.Extra())
  }

  function Cells(kn: Kernel, blk: seq<int>, qt: seq<int>, pb: nat, r: nat): (x: seq<int>)
    requires |blk| == 64 && |qt| == 64 && r < kn.Size() && pb <= 2
    ensures |x| == 8
  {
    seq(8, c requires 0 <= c < 8 => Cell(kn, blk, qt, pb, r, c))
  }

  /** A row of samples, by the full kernel. */
  function Sample(kn: Kernel, x: seq<int>, g: Config, i: nat): (b: Byte)
    requires |x| == 8 && i < kn.Size() && g.Valid()
  {
    OutPx(Descale(kn.Raw(x)[i], 16 + g.pass1 + kn.Extra()), g)
  }

  lemma ShlLinear(n: nat)
    requires 11 <= n
    ensures Shl(0x8000_0000, n) >= 0x400_0000_0000 && Shl(-0x8000_0000, n) <= -0x400_0000_0000
  {
    ShlShl(0x8000_0000, 11, n - 11);
    ShlShl(-0x8000_0000, 11, n - 11);
    assert Shl(0x8000_0000, 11) == 0x400_0000_0000 && Shl(-0x8000_0000, 11) == -0x400_0000_0000;
    Growing(0x400_0000_0000, n - 11);
  }

  lemma {:induction false} Growing(x: int, k: nat)
    requires x >= 0
    ensures Shl(x, k) >= x && Shl(-x, k) <= -x
  {
    if k > 0 { Growing(x, k - 1); }
  }

  /** No workspace value is lost in the cast to 32 bits. */
  lemma CellFits(kn: Kernel, blk: seq<int>, qt: seq<int>, pb: nat, r: nat, c: nat)
    requires |blk| == 64 && |qt| == 64 && c < 8 && r < kn.Size() && pb <= 2
    ensures -0x8000_0000 <= Cell(kn, blk, qt, pb, r, c) < 0x8000_0000
  {
    hide Shl, Shr, Kernel.Raw;
    var n := 13 - pb + kn.Extra();
    var x := Column(blk, qt, c);
    var y := kn.Raw(x)[r];
    RawBound(kn, x, 65535, r);
    ShlLinear(n);
    Pow2Small(n - 1);
    ShrWithin(y + Pow2(n - 1), n, -0x8000_0000, 0x8000_0000);
  }

  lemma Pow2Small(n: nat)
    requires n <= 15
    ensures 0 < Pow2(n) <= 0x8000
  {
    Pow2Mono(n, 15);
    Pow2Values();
  }

  /** A column with no AC term is its DC term at workspace scale. */
  lemma FlatColumn(kn: Kernel, blk: seq<int>, qt: seq<int>, pb: nat, r: nat, c: nat)
    requires |blk| == 64 && |qt| == 64 && c < 8 && r < kn.Size() && pb <= 2
    requires forall k :: 1 <= k < 8 && kn.Uses(k) ==> blk[8 * k + c] == 0
    ensures Cell(kn, blk, qt, pb, r, c) == Shl(Deq(blk[c], qt[c]), pb)
  {
    hide Shl, Shr, Kernel.Raw, Kernel.Uses;
    var x := Column(blk, qt, c);
    RawFlat(kn, x, r);
    DescaleExact(x[0], 13 + kn.Extra(), pb);
  }

  /** A row with no AC term gives one sample throughout. */
  lemma FlatRow(kn: Kernel, x: seq<int>, g: Config, i: nat)
    requires |x| == 8 && i < kn.Size() && g.Valid() && Flat(kn, x)
    ensures Sample(kn, x, g, i) == OutPx(Descale(x[0], g.pass1 + 3), g)
  {
    hide Shl, Shr, Kernel.Raw, Kernel.Uses, OutPx;
    RawFlat(kn, x, i);
    DescaleCommon(x[0], 13 + kn.Extra(), g.pass1 + 3);
  }

  /** The column pass; every column the kernel uses gets its workspace values. */
  method Columns(kn: Kernel, blk: seq<int>, qt: seq<int>, pb: nat, ws: array<int>)
    requires |blk| == 64 && |qt| == 64 && 1 <= pb <= 2 && ws.Length == 8 * kn.Size()
    modifies ws
    ensures WsDone(kn, blk, qt, pb, ws[..])
  {
    hide Kernel.Uses, Cell, Shl;
    var c := 0;
    while c < 8
      invariant 0 <= c <= 8
      invariant forall d, r :: 0 <= d < c && kn.Uses(d) && 0 <= r < kn.Size() ==> WsAt(ws[..], r, d) == Cell(kn, blk, qt, pb, r, d)
    {
      if kn.Uses(c) {
        OneColumn(kn, blk, qt, pb, ws, c);
      }
      c := c + 1;
    }
  }

  /** The workspace holds the columns the kernel uses. */
  ghost predicate WsDone(kn: Kernel, blk: seq<int>, qt: seq<int>, pb: nat, ws: seq<int>)
    requires |blk| == 64 && |qt| == 64 && pb <= 2
  {
    |ws| == 8 * kn.Size() &&
    forall c, r :: 0 <= c < 8 && kn.Uses(c) && 0 <= r < kn.Size() ==> WsAt(ws, r, c) == Cell(kn, blk, qt, pb, r, c)
  }

  function WsAt(ws: seq<int>, r: nat, c: nat): int
    requires 8 * r + c < |ws|
  {
    ws[8 * r + c]
  }

  method OneColumn(kn: Kernel, blk: seq<int>, qt: seq<int>, pb: nat, ws: array<int>, c: nat)
    requires |blk| == 64 && |qt| == 64 && 1 <= pb <= 2 && ws.Length == 8 * kn.Size() && c < 8
    modifies ws
    ensures forall r :: 0 <= r < kn.Size() ==> WsAt(ws[..], r, c) == Cell(kn, blk, qt, pb, r, c)
    ensures forall r, d :: 0 <= r < kn.Size() && 0 <= d < 8 && d != c ==> WsAt(ws[..], r, d) == old(WsAt(ws[..], r, d))
  {
    hide Kernel.Uses, Cell, Shl, Kernel.Raw, Shr, Int32;
    var flat := true;
    var k := 1;
    while k < 8
      invariant 1 <= k <= 8
      invariant flat <==> forall j :: 1 <= j < k && kn.Uses(j) ==> blk[8 * j + c] == 0
    {
      if kn.Uses(k) && blk[8 * k + c] != 0 {
        flat := false;
      }
      k := k + 1;
    }
    var dc := Int32(Shl(Deq(blk[c], qt[c]), pb));
    var y := kn.Raw(Column(blk, qt, c));
    var r := 0;
    while r < kn.Size()
      invariant 0 <= r <= kn.Size()
      invariant forall q :: 0 <= q < r ==> WsAt(ws[..], q, c) == Cell(kn, blk, qt, pb, q, c)
      invariant forall q, d :: 0 <= q < kn.Size() && 0 <= d < 8 && d != c ==> WsAt(ws[..], q, d) == old(WsAt(ws[..], q, d))
    {
      CellFits(kn, blk, qt, pb, r, c);
      if flat {
        FlatColumn(kn, blk, qt, pb, r, c);
        ws[8 * r + c] := dc;
      } else {
        CellIs(kn, blk, qt, pb, r, c);
        ws[8 * r + c] := Int32(Descale(y[r], 13 - pb + kn.Extra()));
      }
      r := r + 1;
    }
  }

  lemma CellIs(kn: Kernel, blk: seq<int>, qt: seq<int>, pb: nat, r: nat, c: nat)
    requires |blk| == 64 && |qt| == 64 && c < 8 && r < kn.Size() && pb <= 2
    ensures Cell(kn, blk, qt, pb, r, c) == Descale(kn.Raw(Column(blk, qt, c))[r], 13 - pb + kn.Extra())
  {
  }

  /** Index `p` lies in the window of `n` rows of `n` samples at `at`. */
  ghost predicate InWindow(p: int, at: nat, stride: nat, n: nat)
  {
    exists r :: 0 <= r < n && at + r * stride <= p < at + r * stride + n
  }

  lemma RowsApart(at: nat, stride: nat, n: nat, r: nat, q: nat)
    requires n <= stride && r < q
    ensures at + r * stride + n <= at + q * stride
  {
    MulUp(stride, r + 1, q);
    assert stride * (r + 1) == r * stride + stride;
  }

  function PxAt(out: seq<int>, p: nat, i: nat): int
    requires p + i < |out|
  {
    out[p + i]
  }

  /** Row `r` of the window holds the samples of the workspace row `x`. */
  ghost predicate RowDone(kn: Kernel, out: seq<int>, p: nat, x: seq<int>, g: Config)
    requires |x| == 8 && g.Valid()
  {
    p + kn.Size() <= |out| && forall i :: 0 <= i < kn.Size() ==> PxAt(out, p, i) == Sample(kn, x, g, i)
  }

  /** One row of samples at `p`, with the shortcut for a row without AC terms. */
  method OneRow(kn: Kernel, x: seq<int>, out: array<Byte>, p: nat, g: Config)
    requires |x| == 8 && g.Valid() && p + kn.Size() <= out.Length
    modifies out
    ensures RowDone(kn, out[..], p, x, g)
    ensures forall k :: 0 <= k < out.Length && !(p <= k < p + kn.Size()) ==> out[k] == old(out[k])
  {
    hide Kernel.Uses, Kernel.Raw, Sample, OutPx, Descale;
    var flat := true;
    var k := 1;
    while k < 8
      invariant 1 <= k <= 8
      invariant flat <==> forall j :: 1 <= j < k && kn.Uses(j) ==> x[j] == 0
    {
      if kn.Uses(k) && x[k] != 0 {
        flat := false;
      }
      k := k + 1;
    }
    var y := kn.Raw(x);
    var i := 0;
    while i < kn.Size()
      invariant 0 <= i <= kn.Size()
      invariant forall j :: 0 <= j < i ==> PxAt(out[..], p, j) == Sample(kn, x, g, j)
      invariant forall k :: 0 <= k < out.Length && !(p <= k < p + kn.Size()) ==> out[k] == old(out[k])
    {
      if flat {
        FlatRow(kn, x, g, i);
        out[p + i] := OutPx(Descale(x[0], g.pass1 + 3), g);
      } else {
        SampleIs(kn, x, g, i);
        out[p + i] := OutPx(Descale(y[i], 16 + g.pass1 + kn.Extra()), g);
      }
      i := i + 1;
    }
  }

  lemma SampleIs(kn: Kernel, x: seq<int>, g: Config, i: nat)
    requires |x| == 8 && i < kn.Size() && g.Valid()
    ensures Sample(kn, x, g, i) == OutPx(Descale(kn.Raw(x)[i], 16 + g.pass1 + kn.Extra()), g)
  {
  }

  /** Decodes one block into the plane: every sample of the window is what the full
      kernels give, and nothing outside the window changes. */
  method Block(kn: Kernel, blk: seq<int>, qt: seq<int>, out: array<Byte>, at: nat, stride: nat, g: Config)
    requires |blk| == 64 && |qt| == 64 && g.Valid() && kn.Size() <= stride
    requires at + (kn.Size() - 1) * stride + kn.Size() <= out.Length
    modifies out
    ensures forall r :: 0 <= r < kn.Size() ==> RowDone(kn, out[..], at + r * stride, Cells(kn, blk, qt, g.pass1, r), g)
    ensures forall p :: 0 <= p < out.Length && !InWindow(p, at, stride, kn.Size()) ==> out[p] == old(out[p])
  {
    hide Kernel.Uses, Kernel.Raw, Cell, Cells, RowDone, InWindow, WsDone;
    var n := kn.Size();
    var ws := new int[8 * n];
    Columns(kn, blk, qt, g.pass1, ws);
    var r := 0;
    while r < n
      invariant 0 <= r <= n && WsDone(kn, blk, qt, g.pass1, ws[..])
      invariant forall q :: 0 <= q < r ==> RowDone(kn, out[..], at + q * stride, Cells(kn, blk, qt, g.pass1, q), g)
      invariant forall p :: 0 <= p < out.Length && !InWindow(p, at, stride, n) ==> out[p] == old(out[p])
    {
      RowInside(at, stride, n, r, out.Length);
      var x := ws[8 * r..8 * r + 8];
      ghost var full := Cells(kn, blk, qt, g.pass1, r);
      RowFrom(kn, blk, qt, g.pass1, ws[..], r);
      ghost var before := out[..];
      OneRow(kn, x, out, at + r * stride, g);
      SameSamples(kn, x, full, g, out[..], at + r * stride);
      BlockStep(kn, blk, qt, before, out[..], at, stride, g, r);
      forall p | 0 <= p < out.Length && !InWindow(p, at, stride, n) ensures out[p] == old(out[p]) {
        OutsideRow(p, at, stride, n, r);
      }
      r := r + 1;
    }
  }

  lemma RowInside(at: nat, stride: nat, n: nat, r: nat, len: nat)
    requires r < n && at + (n - 1) * stride + n <= len
    ensures at + r * stride + n <= len
  {
    Mono(stride, r, n - 1);
  }

  lemma RowFrom(kn: Kernel, blk: seq<int>, qt: seq<int>, pb: nat, ws: seq<int>, r: nat)
    requires |blk| == 64 && |qt| == 64 && 1 <= pb <= 2 && r < kn.Size() && WsDone(kn, blk, qt, pb, ws)
    ensures 8 * r + 8 <= |ws| && forall c :: 0 <= c < 8 && kn.Uses(c) ==> ws[8 * r..8 * r + 8][c] == Cells(kn, blk, qt, pb, r)[c]
  {
    hide Kernel.Uses, Cell;
    forall c | 0 <= c < 8 && kn.Uses(c) ensures ws[8 * r + c] == Cells(kn, blk, qt, pb, r)[c] {
      assert WsAt(ws, r, c) == Cell(kn, blk, qt, pb, r, c);
    }
  }

  /** One more row of the window leaves those above it. */
  lemma BlockStep(kn: Kernel, blk: seq<int>, qt: seq<int>, before: seq<int>, after: seq<int>, at: nat, stride: nat, g: Config, r: nat)
    requires |blk| == 64 && |qt| == 64 && g.Valid() && r < kn.Size() <= stride
    requires forall q :: 0 <= q < r ==> RowDone(kn, before, at + q * stride, Cells(kn, blk, qt, g.pass1, q), g)
    requires RowDone(kn, after, at + r * stride, Cells(kn, blk, qt, g.pass1, r), g)
    requires |after| == |before|
    requires forall k :: 0 <= k < |before| && !(at + r * stride <= k < at + r * stride + kn.Size()) ==> after[k] == before[k]
    ensures forall q :: 0 <= q <= r ==> RowDone(kn, after, at + q * stride, Cells(kn, blk, qt, g.pass1, q), g)
  {
    hide Cells, RowDone, Kernel.Raw, Kernel.Uses;
    forall q | 0 <= q < r ensures RowDone(kn, after, at + q * stride, Cells(kn, blk, qt, g.pass1, q), g) {
      RowsApart(at, stride, kn.Size(), q, r);
      RowKept(kn, before, after, at + q * stride, at + r * stride, Cells(kn, blk, qt, g.pass1, q), g);
    }
  }

  lemma OutsideRow(p: int, at: nat, stride: nat, n: nat, r: nat)
    requires r < n && !InWindow(p, at, stride, n)
    ensures !(at + r * stride <= p < at + r * stride + n)
  {
  }

  lemma SameSamples(kn: Kernel, x: seq<int>, y: seq<int>, g: Config, out: seq<int>, p: nat)
    requires |x| == 8 && |y| == 8 && g.Valid() && forall k :: 0 <= k < 8 && kn.Uses(k) ==> x[k] == y[k]
    requires RowDone(kn, out, p, x, g)
    ensures RowDone(kn, out, p, y, g)
  {
    hide Kernel.Raw, Kernel.Uses, OutPx, Descale;
    RawIgnores(kn, x, y);
  }

  lemma RowKept(kn: Kernel, before: seq<int>, after: seq<int>, p: nat, q: nat, x: seq<int>, g: Config)
    requires |x| == 8 && g.Valid() && RowDone(kn, before, p, x, g) && p + kn.Size() <= q
    requires |after| == |before| && forall k :: 0 <= k < |before| && !(q <= k < q + kn.Size()) ==> after[k] == before[k]
    ensures RowDone(kn, after, p, x, g)
  {
    hide Sample;
    forall i | 0 <= i < kn.Size() ensures PxAt(after, p, i) == PxAt(before, p, i) { }
  }

  // ---- what a block decodes to ------------------------------------------------------

  /** The window at `at` shows the block. */
  ghost predicate Shows(kn: Kernel, blk: seq<int>, qt: seq<int>, out: seq<int>, at: nat, stride: nat, g: Config)
    requires |blk| == 64 && |qt| == 64 && g.Valid()
  {
    forall r :: 0 <= r < kn.Size() ==> RowDone(kn, out, at + r * stride, Cells(kn, blk, qt, g.pass1, r), g)
  }

  lemma ProductsShow(kn: Kernel, blk: seq<int>, qt: seq<int>, v: seq<int>, ones: seq<int>, out: seq<int>, at: nat, stride: nat, g: Config)
    requires |blk| == 64 && |qt| == 64 && Products(blk, qt, v) && |ones| == 64 && forall i :: 0 <= i < 64 ==> ones[i] == 1
    requires g.Valid()
    ensures Shows(kn, blk, qt, out, at, stride, g) <==> Shows(kn, v, ones, out, at, stride, g)
  {
    hide Cells, RowDone, Products;
    assert |v| == 64 by { SixtyFour(blk, qt, v); }
    forall r | 0 <= r < kn.Size() ensures Cells(kn, blk, qt, g.pass1, r) == Cells(kn, v, ones, g.pass1, r) {
      OnlyProducts(kn, blk, qt, v, ones, g.pass1, r);
    }
  }

  lemma SixtyFour(blk: seq<int>, qt: seq<int>, v: seq<int>)
    requires |blk| == 64 && |qt| == 64 && Products(blk, qt, v)
    ensures |v| == 64
  {
  }

  lemma FlatShows(kn: Kernel, blk: seq<int>, qt: seq<int>, out: seq<int>, at: nat, stride: nat, g: Config, r: nat, x: nat)
    requires |blk| == 64 && |qt| == 64 && g.Valid() && Shows(kn, blk, qt, out, at, stride, g) && r < kn.Size() && x < kn.Size()
    requires forall i :: 1 <= i < 64 ==> blk[i] == 0
    ensures at + r * stride + x < |out| && out[at + r * stride + x] == Shade(blk[0] * qt[0], g.oshift > 0)
  {
    hide Cells, Sample, Shade;
    FlatBlock(kn, blk, qt, g, r, x);
    var p := at + r * stride;
    assert RowDone(kn, out, p, Cells(kn, blk, qt, g.pass1, r), g);
    assert PxAt(out, p, x) == out[p + x];
  }

  /** Coefficients times quantisers, limited to 17 bits. */
  ghost predicate Products(blk: seq<int>, qt: seq<int>, v: seq<int>)
    requires |blk| == 64 && |qt| == 64
  {
    |v| == 64 && forall i :: 0 <= i < 64 ==>
      v[i] == if blk[i] * qt[i] > 65535 then 65535 else if blk[i] * qt[i] < -65535 then -65535 else blk[i] * qt[i]
  }

  /** Only these products matter: the block of the products decodes to the same when all
      quantisers are 1. */
  lemma OnlyProducts(kn: Kernel, blk: seq<int>, qt: seq<int>, v: seq<int>, ones: seq<int>, pb: nat, r: nat)
    requires |blk| == 64 && |qt| == 64 && Products(blk, qt, v) && |ones| == 64 && forall i :: 0 <= i < 64 ==> ones[i] == 1
    requires r < kn.Size() && pb <= 2
    ensures Cells(kn, blk, qt, pb, r) == Cells(kn, v, ones, pb, r)
  {
    hide Kernel.Raw, Descale;
    forall c | 0 <= c < 8 ensures Cell(kn, blk, qt, pb, r, c) == Cell(kn, v, ones, pb, r, c) {
      forall k | 0 <= k < 8 ensures Column(blk, qt, c)[k] == Column(v, ones, c)[k] {
        assert v[8 * k + c] * ones[8 * k + c] == v[8 * k + c];
      }
      assert Column(blk, qt, c) == Column(v, ones, c);
    }
  }

  /** A block with no AC term is one shade: an eighth of the DC term, rounded to nearest,
      about the middle of the range; samples of 12 bits are rounded to eight. */
  function Shade(dc: int, wide: bool): (b: Byte)
  {
    var s := (if wide then 2048 else 128) + (dc + 4) / 8;
    if wide then
      if s < 0 then 0 else if s >= 4088 then 255 else (s + 8) / 16
    else if s < 0 then 0 else if s > 255 then 255 else s
  }

  lemma OutPxShade(dc: int, q: int, g: Config)
    requires g.Valid()
    ensures OutPx(Descale(Deq(dc, q), 3), g) == Shade(dc * q, g.oshift > 0)
  {
    var v := dc * q;
    var d := Deq(dc, q);
    EighthIs(d);
  }

  lemma EighthIs(d: int)
    ensures Descale(d, 3) == (d + 4) / 8
  {
    assert Pow2(2) == 4 by { Pow2Values(); }
    var x := d + 4;
    assert Shr(x, 3) == Shr(x / 2, 2) == Shr(x / 2 / 2, 1) == Shr(x / 2 / 2 / 2, 0) == x / 8;
  }

  lemma FlatBlock(kn: Kernel, blk: seq<int>, qt: seq<int>, g: Config, r: nat, x: nat)
    requires |blk| == 64 && |qt| == 64 && g.Valid() && r < kn.Size() && x < kn.Size()
    requires forall i :: 1 <= i < 64 ==> blk[i] == 0
    ensures Sample(kn, Cells(kn, blk, qt, g.pass1, r), g, x) == Shade(blk[0] * qt[0], g.oshift > 0)
  {
    hide Kernel.Raw, Kernel.Uses, Shl, Shr, OutPx, Sample, Descale, Shade, Cell, Deq;
    var y := Cells(kn, blk, qt, g.pass1, r);
    forall c | 0 <= c < 8 ensures y[c] == if c == 0 then Shl(Deq(blk[0], qt[0]), g.pass1) else 0 {
      FlatColumn(kn, blk, qt, g.pass1, r, c);
      if c > 0 { ShlZero(g.pass1); }
    }
    FlatRow(kn, y, g, x);
    DescaleCommon(Deq(blk[0], qt[0]), g.pass1, 3);
    OutPxShade(blk[0], qt[0], g);
  }
}
