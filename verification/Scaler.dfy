/** The streaming area-average scaler: source rows are pushed one at a time, and
    each destination row is emitted once as the alpha-weighted average of the
    area its cells cover. */
module Scaler {
  import opened Grid

  const MAX_DIM := 65535

  // ---- geometry ---------------------------------------------------------------

  function Min(a: int, b: int): int { if a < b then a else b }

  function Product(a: nat, b: nat): nat { a * b }

  function Max(a: int, b: int): int { if a < b then b else a }

  /** How much of `lo..hi` lies in destination cell `i`, which covers
      `i*n..(i+1)*n` of the common axis when the source has `n` pixels. */
  function Cover(n: nat, lo: int, hi: int, i: nat): (w: nat)
  {
    Max(0, Min(hi, (i + 1) * n) - Max(lo, i * n))
  }

  /** The weight of source pixel `x` in destination cell `i`: pixel `x` covers
      `x*m..(x+1)*m` when there are `m` cells. */
  function Weight(n: nat, m: nat, x: nat, i: nat): (w: nat)
  {
    Cover(n, x * m, (x + 1) * m, i)
  }

  lemma CellOrder(n: nat, i: nat, j: nat)
    requires i < j
    ensures (i + 1) * n <= j * n
  {
    assert j * n == (i + 1) * n + (j - i - 1) * n;
  }

  /** Growing a stretch inside cell `i` adds to cell `i` only. */
  lemma CoverGrow(n: nat, lo: int, pos: int, end: int, i: nat, j: nat)
    requires lo <= pos <= end && i * n <= pos && end <= (i + 1) * n
    ensures Cover(n, lo, end, j) == Cover(n, lo, pos, j) + (if j == i then end - pos else 0)
  {
    if j < i { CellOrder(n, j, i); } else if i < j { CellOrder(n, i, j); }
  }

  lemma CoverJoin(n: nat, lo: int, mid: int, hi: int, i: nat)
    requires lo <= mid <= hi
    ensures Cover(n, lo, hi, i) == Cover(n, lo, mid, i) + Cover(n, mid, hi, i)
  {
    assert (i + 1) * n == i * n + n;
  }

  lemma CoverEmpty(n: nat, lo: int, i: nat)
    ensures Cover(n, lo, lo, i) == 0
  {
    assert (i + 1) * n == i * n + n;
  }

  /** Nothing beyond the end of a cell counts towards it, nothing before its start. */
  lemma CoverOutside(n: nat, lo: int, hi: int, i: nat)
    requires lo >= (i + 1) * n || hi <= i * n
    ensures Cover(n, lo, hi, i) == 0
  {
    assert (i + 1) * n == i * n + n;
  }

  function WeightTotal(n: nat, m: nat, x: nat, i: nat): (w: nat)
  {
    if x == 0 then 0 else WeightTotal(n, m, x - 1, i) + Weight(n, m, x - 1, i)
  }

  lemma {:induction false} WeightPrefix(n: nat, m: nat, x: nat, i: nat)
    ensures WeightTotal(n, m, x, i) == Cover(n, 0, x * m, i)
  {
    if x == 0 {
      CoverEmpty(n, 0, i);
    } else {
      WeightPrefix(n, m, x - 1, i);
      assert x * m == (x - 1) * m + m;
      CoverJoin(n, 0, (x - 1) * m, x * m, i);
    }
  }

  /** The weights of one cell along an axis sum to the source's length. */
  lemma WeightsSum(n: nat, m: nat, i: nat)
    requires i < m
    ensures WeightTotal(n, m, n, i) == n
  {
    WeightPrefix(n, m, n, i);
    CellOrder(n, i, m);
    assert n * m == m * n && (i + 1) * n == i * n + n;
  }

  // ---- sums -----------------------------------------------------------------

  type Row = seq<Byte>

  /** Channel `k % 4` of source pixel `x`, premultiplied by alpha; channel 3 is
      alpha itself. */
  function Premul(row: Row, x: nat, ch: nat): (p: nat)
    requires 4 * x + 3 < |row| && ch < 4
    ensures p <= 255 * (row[4 * x + 3] as int) && p <= 65025
  {
    var a: nat := row[4 * x + 3];
    var v: nat := row[4 * x + ch];
    Mono(a, v, 255);
    if ch == 3 then a else Product(v, a)
  }

  /** The weighted sum of the first `x` pixels for entry `k` (cell `k / 4`,
      channel `k % 4`). */
  function HSum(sw: nat, dw: nat, row: Row, x: nat, k: nat): (s: nat)
    requires 4 * x <= |row|
  {
    if x == 0 then 0
    else HSum(sw, dw, row, x - 1, k) + Product(Weight(sw, dw, x - 1, k / 4), Premul(row, x - 1, k % 4))
  }

  ghost predicate RowsOk(sw: nat, rows: seq<Row>)
  {
    forall y :: 0 <= y < |rows| ==> |rows[y]| == 4 * sw
  }

  datatype Dims = Dims(sw: nat, sh: nat, dw: nat, dh: nat)
  {
    predicate Valid()
    {
      0 < dw <= sw && 0 < dh <= sh
    }
  }

  /** The weighted sum of the first `y` rows for destination row `j`, entry `k`. */
  function VSum(d: Dims, rows: seq<Row>, y: nat, j: nat, k: nat): (s: nat)
    requires y <= |rows| && RowsOk(d.sw, rows)
  {
    if y == 0 then 0
    else VSum(d, rows, y - 1, j, k) + Product(Weight(d.sh, d.dh, y - 1, j), HSum(d.sw, d.dw, rows[y - 1], d.sw, k))
  }

  /** The byte a destination pixel gets from its four sums `a`: colours are
      averaged by alpha, alpha by area, both rounded to nearest. */
  function OutByte(a: seq<nat>, area: nat, k: nat): (b: int)
    requires k < |a| && |a| % 4 == 0 && area > 0
  {
    var ta := a[Alpha(k)];
    if ta == 0 then 0 else if k % 4 == 3 then Ratio(ta, area) else Ratio(a[k], ta)
  }

  /** The entry that holds the alpha of entry `k`'s pixel. */
  function Alpha(k: nat): nat { k - k % 4 + 3 }

  /** `x / y` rounded to nearest. */
  function Ratio(x: nat, y: nat): nat
    requires y > 0
  {
    (x + y / 2) / y
  }

  /** Colour sums are bounded by alpha sums, and those by the area. */
  ghost predicate InRange(a: seq<nat>, area: nat)
  {
    |a| % 4 == 0 &&
    forall k :: 0 <= k < |a| ==> a[k] <= 255 * a[Alpha(k)] && a[Alpha(k)] <= 255 * area
  }

  function VRow(d: Dims, rows: seq<Row>, y: nat, j: nat): (a: seq<nat>)
    requires y <= |rows| && RowsOk(d.sw, rows)
    ensures |a| == 4 * d.dw
  {
    seq(4 * d.dw, k requires 0 <= k < 4 * d.dw => VSum(d, rows, y, j, k))
  }

  // ---- bounds ---------------------------------------------------------------

  /** A colour sum is at most 255 times its alpha sum, which is at most 255 times
      the weights. */
  lemma {:induction false} HBounds(sw: nat, dw: nat, row: Row, x: nat, k: nat)
    requires 4 * x <= |row|
    ensures HSum(sw, dw, row, x, k) <= 255 * HSum(sw, dw, row, x, Alpha(k))
    ensures HSum(sw, dw, row, x, Alpha(k)) <= 255 * WeightTotal(sw, dw, x, k / 4)
  {
    hide Weight;
    var a := Alpha(k);
    assert a / 4 == k / 4 && a % 4 == 3;
    if x > 0 {
      HBounds(sw, dw, row, x - 1, k);
      var w := Weight(sw, dw, x - 1, k / 4);
      var p, q := Premul(row, x - 1, k % 4), Premul(row, x - 1, 3);
      ScaleBound(w, p, q, 1);
    }
  }

  lemma ScaleBound(w: nat, p: nat, q: nat, c: nat)
    requires p <= 255 * q && q <= 255 * c
    ensures Product(w, p) <= 255 * Product(w, q) && Product(w, q) <= 255 * Product(w, c)
  {
    Mono(w, p, 255 * q);
    Mono(w, q, 255 * c);
  }

  lemma Distribute(a: nat, b: nat, c: nat)
    ensures Product(a + b, c) == Product(a, c) + Product(b, c)
  {
  }

  lemma {:induction false} VBounds(d: Dims, rows: seq<Row>, y: nat, j: nat, k: nat)
    requires y <= |rows| && RowsOk(d.sw, rows) && k < 4 * d.dw
    ensures VSum(d, rows, y, j, k) <= 255 * VSum(d, rows, y, j, Alpha(k))
    ensures VSum(d, rows, y, j, Alpha(k)) <= 255 * Product(WeightTotal(d.sh, d.dh, y, j), d.sw)
  {
    hide Weight, HSum, Product;
    var a := Alpha(k);
    if y > 0 {
      VBounds(d, rows, y - 1, j, k);
      HBounds(d.sw, d.dw, rows[y - 1], d.sw, k);
      WeightsSum(d.sw, d.dw, k / 4);
      var w := Weight(d.sh, d.dh, y - 1, j);
      var p, q := HSum(d.sw, d.dw, rows[y - 1], d.sw, k), HSum(d.sw, d.dw, rows[y - 1], d.sw, a);
      ScaleBound(w, p, q, d.sw);
      Distribute(WeightTotal(d.sh, d.dh, y - 1, j), w, d.sw);
    }
  }

  /** Every sum the scaler forms fits 64 bits for sources up to 65535 a side, and
      every byte it emits is in range before the cast. */
  lemma SumsFit(d: Dims, rows: seq<Row>, j: nat, k: nat)
    requires d.Valid() && d.sw <= MAX_DIM && d.sh <= MAX_DIM && j < d.dh && k < 4 * d.dw
    requires |rows| == d.sh && RowsOk(d.sw, rows)
    ensures VSum(d, rows, d.sh, j, k) < 0x1_0000_0000_0000
    ensures var a := VRow(d, rows, d.sh, j); |a| % 4 == 0 && d.sw * d.sh > 0 && 0 <= OutByte(a, d.sw * d.sh, k) <= 255
  {
    hide VSum, Product, OutByte, Alpha;
    VSumInRange(d, rows, d.sh, j, k);
    AreaFits(d.sw, d.sh);
    Quarters(d.dw);
    ByteFits(VRow(d, rows, d.sh, j), d.sw * d.sh, k);
  }

  lemma ByteFits(a: seq<nat>, area: nat, k: nat)
    requires k < |a| && |a| % 4 == 0 && area > 0 && Alpha(k) < |a| && a[k] <= 255 * a[Alpha(k)] && a[Alpha(k)] <= 255 * area
    ensures 0 <= OutByte(a, area, k) <= 255
  {
    hide Ratio;
    var ta := a[Alpha(k)];
    if ta > 0 {
      RoundedRatio(a[k], ta);
      RoundedRatio(ta, area);
    }
  }

  lemma Quarters(n: nat)
    ensures 4 * n % 4 == 0
  {
  }

  lemma AreaFits(w: nat, h: nat)
    requires 0 < w <= MAX_DIM && 0 < h <= MAX_DIM
    ensures 0 < Product(h, w) == w * h <= MAX_DIM * MAX_DIM
  {
    Mono(w, h, MAX_DIM);
    Mono(MAX_DIM, w, MAX_DIM);
  }

  /** Rounding `x / y` to nearest stays within 255 when `x` is at most `255 * y`. */
  lemma RoundedRatio(x: nat, y: nat)
    requires y > 0
    ensures x <= 255 * y ==> 0 <= Ratio(x, y) <= 255
  {
    if x <= 255 * y {
      var q := Ratio(x, y);
      assert q * y <= x + y / 2;
      if q >= 256 { Mono(y, 256, q); }
    }
  }

  // ---- the scaler -----------------------------------------------------------

  /** Where destination row `j` begins. */
  function OutAt(d: Dims, j: nat): (p: nat) { j * (4 * d.dw) }

  /** Destination row `j` holds the averages over the rows given. */
  ghost predicate Written(d: Dims, out: seq<int>, rows: seq<Row>, j: nat)
    requires d.Valid() && RowsOk(d.sw, rows)
  {
    && j * (4 * d.dw) + 4 * d.dw <= |out|
    && forall k :: 0 <= k < 4 * d.dw ==>
         out[j * (4 * d.dw) + k] == OutByte(VRow(d, rows, |rows|, j), d.sw * d.sh, k)
  }

  /** For sources up to 65535 a side every sum fits 48 bits. */
  ghost predicate Below(a: seq<nat>, d: Dims)
  {
    d.sw <= MAX_DIM && d.sh <= MAX_DIM ==> forall k :: 0 <= k < |a| ==> a[k] < 0x1_0000_0000_0000
  }

  class Scaler {
    const d: Dims
    const out: array<int>
    var srcRow: nat
    var dstRow: nat
    const hrow: array<nat>
    const acc: array<nat>
    ghost var rows: seq<Row>        // the rows pushed so far

    ghost predicate Buffers()
    {
      && d.Valid() && hrow != acc
      && hrow.Length == 4 * d.dw && acc.Length == 4 * d.dw
      && out.Length >= d.dh * (4 * d.dw)
    }

    ghost predicate Shape()
      reads this
    {
      && Buffers()
      && srcRow == |rows| <= d.sh && RowsOk(d.sw, rows)
      && dstRow * d.sh <= srcRow * d.dh < (dstRow + 1) * d.sh
    }

    /** Rows below `dstRow` are final, and the accumulator holds what row
        `dstRow` has received so far. */
    ghost predicate Valid()
      reads this, out, hrow, acc
    {
      && Shape()
      && acc[..] == VRow(d, rows, |rows|, dstRow)
      && forall j :: 0 <= j < dstRow ==> Written(d, out[..], rows, j)
    }

    constructor (d: Dims, out: array<int>)
      requires d.Valid() && out.Length >= d.dh * (4 * d.dw)
      ensures Valid() && this.d == d && this.out == out && rows == [] && dstRow == 0
      ensures fresh(hrow) && fresh(acc)
    {
      this.d, this.out := d, out;
      srcRow, dstRow, rows := 0, 0, [];
      hrow := new nat[4 * d.dw](_ => 0);
      acc := new nat[4 * d.dw](_ => 0);
    }

    /** The horizontal pass: entry `k` of `hrow` becomes the weighted sum of the
        row for that entry. */
    method Horizontal(row: Row)
      requires Shape() && |row| == 4 * d.sw
      modifies hrow
      ensures (forall k :: 0 <= k < 4 * d.dw ==> hrow[k] == HSum(d.sw, d.dw, row, d.sw, k)) && Below(hrow[..], d)
    {
      hide Cover, HSum, Below;
      var n, m := d.sw, d.dw;
      Clear(hrow);
      forall k | 0 <= k < 4 * m ensures hrow[k] == HSum(n, m, row, 0, k) {
        NoPixels(n, m, row, k);
      }
      var boundary, i, x := n, 0, 0;
      while x < n
        invariant 0 <= x <= n && boundary == (i + 1) * n && i * n <= x * m < boundary && (x > 0 ==> Below(hrow[..], d))
        invariant forall k :: 0 <= k < 4 * m ==> hrow[k] == HSum(n, m, row, x, k)
      {
        boundary, i := Pixel(row, x, boundary, i);
        x := x + 1;
      }
    }

    /** Spreads source pixel `x` over the cells it covers. */
    method Pixel(row: Row, x: nat, boundary0: nat, i0: nat) returns (boundary: nat, i: nat)
      requires Shape() && |row| == 4 * d.sw && x < d.sw
      requires boundary0 == (i0 + 1) * d.sw && i0 * d.sw <= x * d.dw < boundary0
      requires forall k :: 0 <= k < 4 * d.dw ==> hrow[k] == HSum(d.sw, d.dw, row, x, k)
      modifies hrow
      ensures Below(hrow[..], d)
      ensures boundary == (i + 1) * d.sw && i * d.sw <= (x + 1) * d.dw < boundary
      ensures forall k :: 0 <= k < 4 * d.dw ==> hrow[k] == HSum(d.sw, d.dw, row, x + 1, k)
    {
      hide Cover, HSum, Premul, Sofar, Below;
      var n, m := d.sw, d.dw;
      boundary, i := boundary0, i0;
      var start := x * m;
      var pos, hi := start, start + m;
      assert hi == (x + 1) * m <= n * m by { CellOrder(m, x, n); }
      forall k | 0 <= k < 4 * m ensures Sofar(n, m, row, x, pos, k) == hrow[k] {
        SofarStart(n, m, row, x, k);
      }
      PartialRow(d, row, x, pos, hrow[..]);
      while pos < hi
        invariant start <= pos <= hi && boundary == (i + 1) * n && i * n <= pos < boundary
        invariant Below(hrow[..], d)
        invariant forall k :: 0 <= k < 4 * m ==> hrow[k] == Sofar(n, m, row, x, pos, k)
        decreases hi - pos
      {
        CellIndex(n, m, i, pos);
        var end := if hi < boundary then hi else boundary;
        var w := end - pos;
        forall k | 0 <= k < 4 * m
          ensures Sofar(n, m, row, x, end, k) == Sofar(n, m, row, x, pos, k) + (if k / 4 == i then w * Premul(row, x, k % 4) else 0)
        {
          SofarStep(n, m, row, x, pos, end, i, k);
        }
        AddPixel(row, x, w, i);
        PartialRow(d, row, x, end, hrow[..]);
        pos := end;
        if pos == boundary {
          i, boundary := i + 1, boundary + n;
          assert (i + 1) * n == i * n + n;
        }
      }
      forall k | 0 <= k < 4 * m ensures hrow[k] == HSum(n, m, row, x + 1, k) {
        SofarEnd(n, m, row, x, k);
      }
    }

    /** Adds weight `w` of pixel `x` to the four entries of cell `i`. */
    method AddPixel(row: Row, x: nat, w: nat, i: nat)
      requires Shape() && |row| == 4 * d.sw && x < d.sw && i < d.dw
      modifies hrow
      ensures forall k :: 0 <= k < 4 * d.dw ==>
        hrow[k] == old(hrow[k]) + (if k / 4 == i then w * Premul(row, x, k % 4) else 0)
    {
      hide Premul;
      var c := 0;
      while c < 4
        invariant 0 <= c <= 4
        invariant forall k :: 0 <= k < 4 * d.dw ==>
          hrow[k] == old(hrow[k]) + (if k / 4 == i && k % 4 < c then w * Premul(row, x, k % 4) else 0)
      {
        assert (4 * i + c) / 4 == i && (4 * i + c) % 4 == c;
        hrow[4 * i + c] := hrow[4 * i + c] + w * Premul(row, x, c);
        c := c + 1;
      }
    }

    /** Writes the accumulated row to the output. */
    method EmitRow()
      requires Buffers() && dstRow < d.dh
      requires InRange(acc[..], d.sw * d.sh)
      modifies out
      ensures dstRow * (4 * d.dw) + 4 * d.dw <= out.Length
      ensures forall k :: 0 <= k < 4 * d.dw ==>
        out[dstRow * (4 * d.dw) + k] == OutByte(acc[..], d.sw * d.sh, k)
      ensures Kept(old(out[..]), out[..], dstRow * (4 * d.dw), dstRow * (4 * d.dw) + 4 * d.dw)
    {
      hide OutByte, InRange;
      CellOrder(4 * d.dw, dstRow, d.dh);
      assert dstRow * (4 * d.dw) + 4 * d.dw == (dstRow + 1) * (4 * d.dw);
      EmitAt(dstRow * (4 * d.dw), d.sw * d.sh);
    }

    /** Writes the pixels of the accumulated row from `base` on. */
    method EmitAt(base: nat, area: nat)
      requires acc.Length == 4 * d.dw && base + 4 * d.dw <= out.Length && area > 0 && InRange(acc[..], area)
      modifies out
      ensures forall k :: 0 <= k < 4 * d.dw ==> out[base + k] == OutByte(acc[..], area, k)
      ensures Kept(old(out[..]), out[..], base, base + 4 * d.dw)
    {
      hide OutByte, InRange;
      var i := 0;
      while i < d.dw
        invariant 0 <= i <= d.dw
        invariant forall k :: 0 <= k < 4 * i ==> out[base + k] == OutByte(acc[..], area, k)
        invariant Kept(old(out[..]), out[..], base, base + 4 * d.dw)
      {
        PixelRange(acc[..], area, i);
        EmitPixel(base, area, i);
        i := i + 1;
      }
    }

    /** Writes pixel `i` of the row at `base`; the casts to a byte lose nothing. */
    method EmitPixel(base: nat, area: nat, i: nat)
      requires acc.Length == 4 * d.dw && i < d.dw && base + 4 * d.dw <= out.Length && area > 0
      requires forall k :: 4 * i <= k < 4 * i + 4 ==> acc[k] <= 255 * acc[4 * i + 3]
      requires acc[4 * i + 3] <= 255 * area
      modifies out
      ensures forall k :: 4 * i <= k < 4 * i + 4 ==> out[base + k] == OutByte(acc[..], area, k)
      ensures forall p :: 0 <= p < out.Length && !(base + 4 * i <= p < base + 4 * i + 4) ==> out[p] == old(out[p])
    {
      hide OutByte, Ratio;
      var ta := acc[4 * i + 3];
      var at := base + 4 * i;
      OutBytes(acc[..], area, i);
      if ta == 0 {
        out[at], out[at + 1], out[at + 2], out[at + 3] := 0, 0, 0, 0;
        return;
      }
      RoundedRatio(acc[4 * i], ta);
      RoundedRatio(acc[4 * i + 1], ta);
      RoundedRatio(acc[4 * i + 2], ta);
      RoundedRatio(ta, area);
      out[at] := Ratio(acc[4 * i], ta) % 256;
      out[at + 1] := Ratio(acc[4 * i + 1], ta) % 256;
      out[at + 2] := Ratio(acc[4 * i + 2], ta) % 256;
      out[at + 3] := Ratio(ta, area) % 256;
    }

    /** Adds `w` times the horizontal sums to the accumulator. */
    method Accumulate(w: nat)
      requires hrow != acc && hrow.Length == 4 * d.dw && acc.Length == 4 * d.dw
      modifies acc
      ensures forall k :: 0 <= k < 4 * d.dw ==> acc[k] == old(acc[k]) + hrow[k] * w
    {
      var k := 0;
      while k < 4 * d.dw
        invariant 0 <= k <= 4 * d.dw
        invariant forall i :: 0 <= i < 4 * d.dw ==> acc[i] == old(acc[i]) + (if i < k then hrow[i] * w else 0)
      {
        acc[k] := acc[k] + hrow[k] * w;
        k := k + 1;
      }
    }

    /** Spreads row `y` from `pos` to `end` within the current destination row. */
    method SpreadTo(ghost rs: seq<Row>, ghost y: nat, pos: nat, end: nat)
      requires Buffers() && y < |rs| && RowsOk(d.sw, rs)
      requires Between(d, y, pos, dstRow) && pos <= end <= (dstRow + 1) * d.sh && end <= (y + 1) * d.dh
      requires forall k :: 0 <= k < 4 * d.dw ==> hrow[k] == HSum(d.sw, d.dw, rs[y], d.sw, k)
      requires acc[..] == VSofarRow(d, rs, y, pos, dstRow)
      modifies acc
      ensures acc[..] == VSofarRow(d, rs, y, end, dstRow) && Below(acc[..], d)
    {
      hide VSofar, HSum, Below;
      SofarRowStep(d, rs, y, pos, end, dstRow);
      Accumulate(end - pos);
      PartialSums(d, rs, y, end, dstRow);
      assert acc[..] == VSofarRow(d, rs, y, end, dstRow);
    }

    /** Emits the completed row and starts the next one. */
    method FinishRow(ghost rs: seq<Row>, ghost y: nat, ghost pos: nat)
      requires Buffers() && dstRow < d.dh && |rs| == y + 1 <= d.sh && RowsOk(d.sw, rs)
      requires y * d.dh <= pos <= (y + 1) * d.dh && pos == (dstRow + 1) * d.sh
      requires acc[..] == VSofarRow(d, rs, y, pos, dstRow)
      requires forall j :: 0 <= j < dstRow ==> Written(d, out[..], rs, j)
      modifies `dstRow, acc, out
      ensures dstRow == old(dstRow) + 1 && acc[..] == VSofarRow(d, rs, y, pos, dstRow) && Below(acc[..], d)
      ensures forall j :: 0 <= j < dstRow ==> Written(d, out[..], rs, j)
      ensures Kept(old(out[..]), out[..], OutAt(d, old(dstRow)), OutAt(d, dstRow))
    {
      hide VSum, Cover, HSum, OutByte, InRange, VSofar, Below;
      SofarRowDone(d, rs, y, pos, dstRow);
      VRowInRange(d, rs, y + 1, dstRow);
      EmitRow();
      assert acc[..] == VRow(d, rs, y + 1, dstRow);
      assert (dstRow + 1) * (4 * d.dw) == dstRow * (4 * d.dw) + 4 * d.dw;
      assert Written(d, out[..], rs, dstRow);
      WrittenFrame(d, old(out[..]), out[..], rs, dstRow);
      Clear(acc);
      dstRow := dstRow + 1;
      SofarRowFresh(d, rs, y, pos, dstRow);
      assert acc[..] == VSofarRow(d, rs, y, pos, dstRow);
      PartialSums(d, rs, y, pos, dstRow);
    }

    /** Takes one source row; rows already written stay as they are. */
    method PushRow(row: Row)
      requires Valid() && |row| == 4 * d.sw
      modifies this, hrow, acc, out
      ensures Valid()
      ensures if old(srcRow) < d.sh then rows == old(rows) + [row] else rows == old(rows)
      ensures Kept(old(out[..]), out[..], old(dstRow) * (4 * d.dw), dstRow * (4 * d.dw))
      ensures old(dstRow) <= dstRow
      ensures old(srcRow) < d.sh ==> Below(hrow[..], d) && Below(acc[..], d)
    {
      hide VRow, HSum, Written, Below;
      if srcRow >= d.sh || dstRow >= d.dh {
        assert srcRow >= d.sh by { if srcRow < d.sh { RowsLeft(d, srcRow, dstRow); } }
        return;
      }
      Horizontal(row);
      Vertical(row);
      assert (srcRow + 1) * d.dh == srcRow * d.dh + d.dh;
      assert RowsOk(d.sw, rows + [row]);
      rows := rows + [row];
      srcRow := srcRow + 1;
    }

    /** Distributes the row over the destination rows it reaches, emitting those
        it completes. */
    method Vertical(row: Row)
      requires Valid() && srcRow < d.sh && dstRow < d.dh && |row| == 4 * d.sw
      requires forall k :: 0 <= k < 4 * d.dw ==> hrow[k] == HSum(d.sw, d.dw, row, d.sw, k)
      modifies `dstRow, acc, out
      ensures dstRow * d.sh <= (srcRow + 1) * d.dh < (dstRow + 1) * d.sh && old(dstRow) <= dstRow
      ensures RowsOk(d.sw, rows + [row])
      ensures acc[..] == VRow(d, rows + [row], srcRow + 1, dstRow) && Below(acc[..], d)
      ensures forall j :: 0 <= j < dstRow ==> Written(d, out[..], rows + [row], j)
      ensures Kept(old(out[..]), out[..], old(dstRow) * (4 * d.dw), dstRow * (4 * d.dw))
    {
      hide HSum, Written, VSofarRow, VRow, Kept, Below;
      ghost var rs := rows + [row];
      var y := srcRow;
      assert RowsOk(d.sw, rs);
      var pos := y * d.dh;
      var hi := pos + d.dh;
      assert hi == (y + 1) * d.dh;
      assert hi <= d.sh * d.dh by { CellOrder(d.dh, y, d.sh); }
      var boundary := (dstRow + 1) * d.sh;
      StartRow(d, rows, row, dstRow, out[..]);
      KeptSame(out[..], dstRow * (4 * d.dw));
      PartialSums(d, rs, y, pos, dstRow);
      assert acc[..] == VSofarRow(d, rs, y, pos, dstRow);
      while pos < hi
        invariant Between(d, y, pos, dstRow) && boundary == (dstRow + 1) * d.sh
        invariant old(dstRow) <= dstRow && (pos < hi ==> dstRow < d.dh)
        invariant acc[..] == VSofarRow(d, rs, y, pos, dstRow) && Below(acc[..], d)
        invariant forall j :: 0 <= j < dstRow ==> Written(d, out[..], rs, j)
        invariant Kept(old(out[..]), out[..], old(dstRow) * (4 * d.dw), dstRow * (4 * d.dw))
        decreases hi - pos
      {
        var end := if hi < boundary then hi else boundary;
        SpreadTo(rs, y, pos, end);
        pos := end;
        if pos == boundary {
          ghost var before := out[..];
          FinishRow(rs, y, pos);
          assert (dstRow + 1) * d.sh == dstRow * d.sh + d.sh;
          KeptJoin(d, old(out[..]), before, out[..], old(dstRow), dstRow - 1);
          boundary := boundary + d.sh;
          if pos < hi { CellIndex(d.sh, d.dh, dstRow, pos); }
          if dstRow >= d.dh { break; }
        }
      }
      assert pos == hi;
      SofarRowEnd(d, rs, y, dstRow);
    }
  }

  lemma CoverPart(n: nat, lo: int, pos: int, hi: int, i: nat)
    requires lo <= pos <= hi
    ensures Cover(n, lo, pos, i) <= Cover(n, lo, hi, i)
  {
    CoverJoin(n, lo, pos, hi, i);
  }

  /** The horizontal sums are below the limit at every point of every pixel. */
  lemma PartialRow(d: Dims, row: Row, x: nat, pos: nat, a: seq<nat>)
    requires x < d.sw && |row| == 4 * d.sw && x * d.dw <= pos <= (x + 1) * d.dw
    requires |a| == 4 * d.dw && forall k :: 0 <= k < |a| ==> a[k] == Sofar(d.sw, d.dw, row, x, pos, k)
    ensures Below(a, d)
  {
    hide HSum, Cover, Premul, WeightTotal;
    if d.sw <= MAX_DIM {
      forall k | 0 <= k < |a| ensures a[k] < 0x1_0000_0000_0000 {
        CoverPart(d.sw, x * d.dw, pos, (x + 1) * d.dw, k / 4);
        var p := Premul(row, x, k % 4);
        Mono(p, Cover(d.sw, x * d.dw, pos, k / 4), Cover(d.sw, x * d.dw, (x + 1) * d.dw, k / 4));
        SofarEnd(d.sw, d.dw, row, x, k);
        HBounds(d.sw, d.dw, row, x + 1, k);
        WeightsBelow(d.sw, d.dw, x + 1, k / 4);
      }
    }
  }

  /** So are the vertical sums at every point of every row. */
  lemma PartialSums(d: Dims, rows: seq<Row>, y: nat, pos: nat, j: nat)
    requires y < |rows| && RowsOk(d.sw, rows) && y * d.dh <= pos <= (y + 1) * d.dh
    ensures Below(VSofarRow(d, rows, y, pos, j), d)
  {
    hide VSum, HSum, Cover, Alpha;
    if d.sw <= MAX_DIM && d.sh <= MAX_DIM {
      assert d.sw * d.sh <= MAX_DIM * MAX_DIM by { Mono(d.sw, d.sh, MAX_DIM); Mono(MAX_DIM, d.sw, MAX_DIM); }
      forall k | 0 <= k < 4 * d.dw ensures VSofar(d, rows, y, pos, j, k) < 0x1_0000_0000_0000 {
        CoverPart(d.sh, y * d.dh, pos, (y + 1) * d.dh, j);
        var h := HSum(d.sw, d.dw, rows[y], d.sw, k);
        Mono(h, Cover(d.sh, y * d.dh, pos, j), Cover(d.sh, y * d.dh, (y + 1) * d.dh, j));
        VSofarDone(d, rows, y, (y + 1) * d.dh, j, k);
        VSumInRange(d, rows, y + 1, j, k);
      }
    }
  }

  lemma RowsLeft(d: Dims, srcRow: nat, dstRow: nat)
    requires d.Valid() && srcRow < d.sh && dstRow * d.sh <= srcRow * d.dh
    ensures dstRow < d.dh
  {
    CellOrder(d.dh, srcRow, d.sh);
    assert (srcRow + 1) * d.dh == srcRow * d.dh + d.dh;
    CellIndex(d.sh, d.dh, dstRow, srcRow * d.dh);
  }

  /** Row `y` has been spread up to `pos`, which lies in destination row `j`. */
  ghost predicate Between(d: Dims, y: nat, pos: nat, j: nat)
  {
    y * d.dh <= pos <= (y + 1) * d.dh && j * d.sh <= pos < (j + 1) * d.sh
  }

  /** The sum for destination row `j` once row `y` has been spread up to `pos`. */
  ghost function VSofar(d: Dims, rows: seq<Row>, y: nat, pos: nat, j: nat, k: nat): (s: nat)
    requires y < |rows| && RowsOk(d.sw, rows)
  {
    VSum(d, rows, y, j, k) + Product(Cover(d.sh, y * d.dh, pos, j), HSum(d.sw, d.dw, rows[y], d.sw, k))
  }

  ghost function VSofarRow(d: Dims, rows: seq<Row>, y: nat, pos: nat, j: nat): (a: seq<nat>)
    requires y < |rows| && RowsOk(d.sw, rows)
    ensures |a| == 4 * d.dw
  {
    seq(4 * d.dw, k requires 0 <= k < 4 * d.dw => VSofar(d, rows, y, pos, j, k))
  }

  lemma SofarRowStep(d: Dims, rows: seq<Row>, y: nat, pos: nat, end: nat, j: nat)
    requires y < |rows| && RowsOk(d.sw, rows) && Between(d, y, pos, j) && pos <= end <= (j + 1) * d.sh
    ensures forall k :: 0 <= k < 4 * d.dw ==>
      VSofarRow(d, rows, y, end, j)[k]
      == VSofarRow(d, rows, y, pos, j)[k] + HSum(d.sw, d.dw, rows[y], d.sw, k) * (end - pos)
  {
    hide VSum, HSum, Cover;
    CoverGrow(d.sh, y * d.dh, pos, end, j, j);
    forall k | 0 <= k < 4 * d.dw
      ensures VSofar(d, rows, y, end, j, k) == VSofar(d, rows, y, pos, j, k) + HSum(d.sw, d.dw, rows[y], d.sw, k) * (end - pos)
    {
      var a, h := Cover(d.sh, y * d.dh, pos, j), HSum(d.sw, d.dw, rows[y], d.sw, k);
      assert (a + (end - pos)) * h == a * h + h * (end - pos);
    }
  }

  /** Once row `y` is spread to its own end or to the end of cell `j`, the sum
      for `j` is that of the first `y + 1` rows. */
  lemma VSofarDone(d: Dims, rows: seq<Row>, y: nat, pos: nat, j: nat, k: nat)
    requires y < |rows| && RowsOk(d.sw, rows) && y * d.dh <= pos <= (y + 1) * d.dh
    requires pos == (y + 1) * d.dh || pos == (j + 1) * d.sh
    ensures VSofar(d, rows, y, pos, j, k) == VSum(d, rows, y + 1, j, k)
  {
    hide HSum, Cover;
    CoverJoin(d.sh, y * d.dh, pos, (y + 1) * d.dh, j);
    if pos == (y + 1) * d.dh { CoverEmpty(d.sh, pos, j); } else { CoverOutside(d.sh, pos, (y + 1) * d.dh, j); }
  }

  /** A row that ends before cell `j` begins adds nothing to it. */
  lemma {:induction false} VZero(d: Dims, rows: seq<Row>, y: nat, j: nat, k: nat)
    requires y <= |rows| && RowsOk(d.sw, rows) && y * d.dh <= j * d.sh
    ensures VSum(d, rows, y, j, k) == 0
  {
    hide HSum, Cover;
    if y > 0 {
      assert y * d.dh == (y - 1) * d.dh + d.dh;
      VZero(d, rows, y - 1, j, k);
      CoverOutside(d.sh, (y - 1) * d.dh, y * d.dh, j);
    }
  }

  /** A row past the end of cell `j` adds nothing to it. */
  lemma VKeep(d: Dims, rows: seq<Row>, y: nat, j: nat, k: nat)
    requires y < |rows| && RowsOk(d.sw, rows) && (j + 1) * d.sh <= y * d.dh
    ensures VSum(d, rows, y + 1, j, k) == VSum(d, rows, y, j, k)
  {
    hide HSum, Cover;
    CoverOutside(d.sh, y * d.dh, (y + 1) * d.dh, j);
  }

  lemma {:induction false} VPrefix(d: Dims, rows: seq<Row>, row: Row, y: nat, j: nat, k: nat)
    requires y <= |rows| && RowsOk(d.sw, rows) && RowsOk(d.sw, rows + [row])
    ensures VSum(d, rows + [row], y, j, k) == VSum(d, rows, y, j, k)
  {
    hide HSum, Weight;
    if y > 0 {
      VPrefix(d, rows, row, y - 1, j, k);
      assert (rows + [row])[y - 1] == rows[y - 1];
    }
  }

  /** Rows written before stay right when another row arrives. */
  lemma WrittenKeeps(d: Dims, rows: seq<Row>, row: Row, out: seq<int>, j: nat)
    requires d.Valid() && RowsOk(d.sw, rows) && RowsOk(d.sw, rows + [row])
    requires Written(d, out, rows, j) && (j + 1) * d.sh <= |rows| * d.dh
    ensures Written(d, out, rows + [row], j)
  {
    hide VSum, OutByte;
    var y := |rows|;
    assert VRow(d, rows + [row], y + 1, j) == VRow(d, rows, y, j) by {
      forall k | 0 <= k < 4 * d.dw ensures VRow(d, rows + [row], y + 1, j)[k] == VRow(d, rows, y, j)[k] {
        VPrefix(d, rows, row, y, j, k);
        VKeep(d, rows + [row], y, j, k);
      }
    }
  }

  lemma StartRow(d: Dims, rows: seq<Row>, row: Row, dstRow: nat, out: seq<int>)
    requires d.Valid() && RowsOk(d.sw, rows) && RowsOk(d.sw, rows + [row])
    requires dstRow * d.sh <= |rows| * d.dh
    requires forall j :: 0 <= j < dstRow ==> Written(d, out, rows, j)
    ensures VSofarRow(d, rows + [row], |rows|, |rows| * d.dh, dstRow) == VRow(d, rows, |rows|, dstRow)
    ensures forall j :: 0 <= j < dstRow ==> Written(d, out, rows + [row], j)
  {
    hide VSum, HSum, Cover, Written;
    forall k | 0 <= k < 4 * d.dw
      ensures VSofar(d, rows + [row], |rows|, |rows| * d.dh, dstRow, k) == VSum(d, rows, |rows|, dstRow, k)
    {
      VPrefix(d, rows, row, |rows|, dstRow, k);
      CoverEmpty(d.sh, |rows| * d.dh, dstRow);
    }
    forall j | 0 <= j < dstRow ensures Written(d, out, rows + [row], j) {
      CellOrder(d.sh, j, dstRow);
      WrittenKeeps(d, rows, row, out, j);
    }
  }

  lemma WrittenFrame(d: Dims, before: seq<int>, after: seq<int>, rows: seq<Row>, n: nat)
    requires d.Valid() && RowsOk(d.sw, rows) && Kept(before, after, n * (4 * d.dw), (n + 1) * (4 * d.dw))
    requires forall j :: 0 <= j < n ==> Written(d, before, rows, j)
    ensures forall j :: 0 <= j < n ==> Written(d, after, rows, j)
  {
    hide OutByte, VRow;
    forall j | 0 <= j < n ensures Written(d, after, rows, j) {
      CellOrder(4 * d.dw, j, n);
      assert (j + 1) * (4 * d.dw) == j * (4 * d.dw) + 4 * d.dw;
      assert Written(d, before, rows, j);
    }
  }

  lemma KeptSame(out: seq<int>, lo: nat)
    ensures Kept(out, out, lo, lo)
  {
  }

  lemma KeptJoin(d: Dims, a: seq<int>, b: seq<int>, c: seq<int>, first: nat, n: nat)
    requires first <= n && Kept(a, b, first * (4 * d.dw), n * (4 * d.dw))
    requires Kept(b, c, n * (4 * d.dw), (n + 1) * (4 * d.dw))
    ensures Kept(a, c, first * (4 * d.dw), (n + 1) * (4 * d.dw))
  {
    Mono(4 * d.dw, first, n);
    Mono(4 * d.dw, n, n + 1);
  }

  lemma SofarRowDone(d: Dims, rows: seq<Row>, y: nat, pos: nat, j: nat)
    requires y < |rows| && RowsOk(d.sw, rows)
    requires y * d.dh <= pos <= (y + 1) * d.dh && pos == (j + 1) * d.sh
    ensures VSofarRow(d, rows, y, pos, j) == VRow(d, rows, y + 1, j)
  {
    hide VSum, VSofar;
    forall k | 0 <= k < 4 * d.dw ensures VSofar(d, rows, y, pos, j, k) == VSum(d, rows, y + 1, j, k) {
      VSofarDone(d, rows, y, pos, j, k);
    }
  }

  lemma VSumInRange(d: Dims, rows: seq<Row>, y: nat, j: nat, k: nat)
    requires y <= |rows| && RowsOk(d.sw, rows) && k < 4 * d.dw
    ensures Alpha(k) < 4 * d.dw && VSum(d, rows, y, j, k) <= 255 * VSum(d, rows, y, j, Alpha(k))
    ensures VSum(d, rows, y, j, Alpha(k)) <= 255 * (d.sw * d.sh)
  {
    hide VSum, Alpha, WeightTotal;
    AlphaAt(k / 4, k);
    VBounds(d, rows, y, j, k);
    WeightsBelow(d.sh, d.dh, y, j);
    Mono(d.sw, WeightTotal(d.sh, d.dh, y, j), d.sh);
  }

  lemma VRowInRange(d: Dims, rows: seq<Row>, y: nat, j: nat)
    requires y <= |rows| && RowsOk(d.sw, rows)
    ensures InRange(VRow(d, rows, y, j), d.sw * d.sh)
  {
    hide VSum, Alpha;
    var area := d.sw * d.sh;
    var a := VRow(d, rows, y, j);
    forall k | 0 <= k < |a| ensures Alpha(k) < |a| && a[k] <= 255 * a[Alpha(k)] && a[Alpha(k)] <= 255 * area {
      VSumInRange(d, rows, y, j, k);
    }
  }

  lemma WeightsBelow(n: nat, m: nat, x: nat, i: nat)
    ensures WeightTotal(n, m, x, i) <= n
  {
    WeightPrefix(n, m, x, i);
    assert (i + 1) * n == i * n + n;
  }

  lemma SofarRowFresh(d: Dims, rows: seq<Row>, y: nat, pos: nat, j: nat)
    requires y < |rows| && RowsOk(d.sw, rows) && y * d.dh <= pos == j * d.sh
    ensures forall k :: 0 <= k < 4 * d.dw ==> VSofarRow(d, rows, y, pos, j)[k] == 0
  {
    hide VSum, HSum, Cover;
    CoverOutside(d.sh, y * d.dh, pos, j);
    forall k | 0 <= k < 4 * d.dw ensures VSofar(d, rows, y, pos, j, k) == 0 {
      VZero(d, rows, y, j, k);
    }
  }

  lemma SofarRowEnd(d: Dims, rows: seq<Row>, y: nat, j: nat)
    requires y < |rows| && RowsOk(d.sw, rows)
    ensures VSofarRow(d, rows, y, (y + 1) * d.dh, j) == VRow(d, rows, y + 1, j)
  {
    hide VSum, VSofar;
    var pos := (y + 1) * d.dh;
    assert pos == y * d.dh + d.dh;
    forall k | 0 <= k < 4 * d.dw ensures VSofar(d, rows, y, pos, j, k) == VSum(d, rows, y + 1, j, k) {
      VSofarDone(d, rows, y, pos, j, k);
    }
  }

  lemma AlphaAt(i: nat, k: nat)
    requires 4 * i <= k < 4 * i + 4
    ensures Alpha(k) == 4 * i + 3 && (k % 4 == 3 <==> k == 4 * i + 3)
  {
  }

  lemma PixelRange(a: seq<nat>, area: nat, i: nat)
    requires InRange(a, area) && 4 * i + 3 < |a|
    ensures forall k :: 4 * i <= k < 4 * i + 4 ==> a[k] <= 255 * a[4 * i + 3]
    ensures a[4 * i + 3] <= 255 * area
  {
    hide Alpha;
    AlphaAt(i, 4 * i + 3);
    forall k | 4 * i <= k < 4 * i + 4 ensures a[k] <= 255 * a[4 * i + 3] {
      AlphaAt(i, k);
    }
  }

  lemma OutBytes(a: seq<nat>, area: nat, i: nat)
    requires 4 * i + 3 < |a| && |a| % 4 == 0 && area > 0
    ensures var ta := a[4 * i + 3];
      && OutByte(a, area, 4 * i + 3) == (if ta == 0 then 0 else Ratio(ta, area))
      && forall k :: 4 * i <= k < 4 * i + 3 ==> OutByte(a, area, k) == (if ta == 0 then 0 else Ratio(a[k], ta))
  {
    hide Alpha, Ratio;
    AlphaAt(i, 4 * i + 3);
    forall k | 4 * i <= k < 4 * i + 3 ensures Alpha(k) == 4 * i + 3 && k % 4 != 3 { AlphaAt(i, k); }
  }

  method Clear(a: array<nat>)
    modifies a
    ensures forall k :: 0 <= k < a.Length ==> a[k] == 0
  {
    var z := 0;
    while z < a.Length
      invariant 0 <= z <= a.Length && forall k :: 0 <= k < z ==> a[k] == 0
    {
      a[z] := 0;
      z := z + 1;
    }
  }

  lemma NoPixels(n: nat, m: nat, row: Row, k: nat)
    ensures HSum(n, m, row, 0, k) == 0
  {
  }

  /** The sum for entry `k` once pixel `x` has been spread up to `pos`. */
  ghost function Sofar(n: nat, m: nat, row: Row, x: nat, pos: nat, k: nat): (s: nat)
    requires 4 * x + 3 < |row|
  {
    HSum(n, m, row, x, k) + Product(Cover(n, x * m, pos, k / 4), Premul(row, x, k % 4))
  }

  lemma SofarStart(n: nat, m: nat, row: Row, x: nat, k: nat)
    requires 4 * x + 3 < |row|
    ensures Sofar(n, m, row, x, x * m, k) == HSum(n, m, row, x, k)
  {
    CoverEmpty(n, x * m, k / 4);
  }

  lemma SofarStep(n: nat, m: nat, row: Row, x: nat, pos: nat, end: nat, i: nat, k: nat)
    requires 4 * x + 3 < |row| && x * m <= pos <= end && i * n <= pos && end <= (i + 1) * n
    ensures Sofar(n, m, row, x, end, k)
      == Sofar(n, m, row, x, pos, k) + (if k / 4 == i then (end - pos) * Premul(row, x, k % 4) else 0)
  {
    hide Cover, HSum, Premul;
    CoverGrow(n, x * m, pos, end, i, k / 4);
    var a, p := Cover(n, x * m, pos, k / 4), Premul(row, x, k % 4);
    assert (a + (end - pos)) * p == a * p + (end - pos) * p;
  }

  lemma SofarEnd(n: nat, m: nat, row: Row, x: nat, k: nat)
    requires 4 * x + 3 < |row|
    ensures Sofar(n, m, row, x, (x + 1) * m, k) == HSum(n, m, row, x + 1, k)
  {
    hide Cover;
  }

  lemma CellIndex(n: nat, m: nat, i: nat, pos: nat)
    requires i * n <= pos < n * m
    ensures i < m
  {
    if i >= m { Mono(n, m, i); }
  }

  // ---- whole images -----------------------------------------------------------

  /** Refuses empty or enlarging geometry. */
  method Create(d: Dims, out: array<int>) returns (s: Scaler?)
    requires out.Length >= d.dh * (4 * d.dw)
    ensures s != null <==> d.Valid()
    ensures s != null ==>
      fresh(s) && fresh(s.hrow) && fresh(s.acc)
      && s.Valid() && s.d == d && s.out == out && s.rows == [] && s.dstRow == 0
  {
    if d.sw == 0 || d.sh == 0 || d.dw == 0 || d.dh == 0 || d.dw > d.sw || d.dh > d.sh {
      return null;
    }
    s := new Scaler(d, out);
  }

  lemma AllRows(d: Dims, dstRow: nat)
    requires d.Valid() && dstRow * d.sh <= d.sh * d.dh < (dstRow + 1) * d.sh
    ensures dstRow == d.dh
  {
    if dstRow < d.dh {
      Mono(d.sh, dstRow + 1, d.dh);
    } else if dstRow > d.dh {
      Mono(d.sh, d.dh + 1, dstRow);
    }
  }

  /** One source row's share of the 2-D sum, pixel by pixel. */
  function RowArea(d: Dims, wv: nat, row: Row, x: nat, k: nat): (s: nat)
    requires 4 * x <= |row|
  {
    if x == 0 then 0
    else RowArea(d, wv, row, x - 1, k) + Product(Product(wv, Weight(d.sw, d.dw, x - 1, k / 4)), Premul(row, x - 1, k % 4))
  }

  /** The 2-D sum: every source pixel counts with the product of its two weights. */
  function Area(d: Dims, rows: seq<Row>, y: nat, j: nat, k: nat): (s: nat)
    requires y <= |rows| && RowsOk(d.sw, rows)
  {
    if y == 0 then 0
    else Area(d, rows, y - 1, j, k) + RowArea(d, Weight(d.sh, d.dh, y - 1, j), rows[y - 1], d.sw, k)
  }

  lemma {:induction false} RowAreaIs(d: Dims, wv: nat, row: Row, x: nat, k: nat)
    requires 4 * x <= |row|
    ensures RowArea(d, wv, row, x, k) == wv * HSum(d.sw, d.dw, row, x, k)
  {
    hide Weight, Premul;
    if x > 0 {
      RowAreaIs(d, wv, row, x - 1, k);
      var h, w, p := HSum(d.sw, d.dw, row, x - 1, k), Weight(d.sw, d.dw, x - 1, k / 4), Premul(row, x - 1, k % 4);
      assert (wv * w) * p == wv * (w * p);
      assert wv * (h + w * p) == wv * h + wv * (w * p);
    }
  }

  /** The two accumulators compute the 2-D weighted sum. */
  lemma {:induction false} SeparableArea(d: Dims, rows: seq<Row>, y: nat, j: nat, k: nat)
    requires y <= |rows| && RowsOk(d.sw, rows)
    ensures VSum(d, rows, y, j, k) == Area(d, rows, y, j, k)
  {
    hide Weight, HSum, RowArea;
    if y > 0 {
      SeparableArea(d, rows, y - 1, j, k);
      RowAreaIs(d, Weight(d.sh, d.dh, y - 1, j), rows[y - 1], d.sw, k);
    }
  }

  /** The reference: the alpha-weighted average of the whole image over the cell,
      rounded to nearest; fully transparent cells are zero. */
  function Average(d: Dims, rows: seq<Row>, j: nat, k: nat): (b: int)
    requires d.Valid() && RowsOk(d.sw, rows)
  {
    var ta := Area(d, rows, |rows|, j, Alpha(k));
    if ta == 0 then 0
    else if k % 4 == 3 then Ratio(ta, d.sw * d.sh)
    else Ratio(Area(d, rows, |rows|, j, k), ta)
  }

  ghost predicate Averaged(d: Dims, out: seq<int>, rows: seq<Row>, j: nat)
    requires d.Valid() && RowsOk(d.sw, rows)
  {
    && j * (4 * d.dw) + 4 * d.dw <= |out|
    && forall k :: 0 <= k < 4 * d.dw ==> out[j * (4 * d.dw) + k] == Average(d, rows, j, k) && 0 <= Average(d, rows, j, k) <= 255
  }

  lemma WrittenAveraged(d: Dims, out: seq<int>, rows: seq<Row>, j: nat)
    requires d.Valid() && RowsOk(d.sw, rows) && Written(d, out, rows, j)
    ensures Averaged(d, out, rows, j)
  {
    hide VSum, Area, Ratio, Alpha;
    forall k | 0 <= k < 4 * d.dw
      ensures OutByte(VRow(d, rows, |rows|, j), d.sw * d.sh, k) == Average(d, rows, j, k) && 0 <= Average(d, rows, j, k) <= 255
    {
      VSumInRange(d, rows, |rows|, j, k);
      SeparableArea(d, rows, |rows|, j, k);
      SeparableArea(d, rows, |rows|, j, Alpha(k));
      var ta := Area(d, rows, |rows|, j, Alpha(k));
      if ta > 0 {
        RoundedRatio(Area(d, rows, |rows|, j, k), ta);
        RoundedRatio(ta, d.sw * d.sh);
      }
    }
  }

  // ---- the same in the bytes of the image ---------------------------------------------

  /** How much of `a..b` lies in `c..d`. */
  function Overlap(a: int, b: int, c: int, d: int): (w: nat)
  {
    var lo, hi := if a < c then c else a, if b < d then b else d;
    if lo < hi then hi - lo else 0
  }

  /** How much source pixel (x, y) counts in destination pixel (i, j): the area they
      share when both images are spread over the same square. */
  function Share(d: Dims, y: nat, x: nat, j: nat, i: nat): (w: nat)
  {
    Product(Overlap(y * d.dh, (y + 1) * d.dh, j * d.sh, (j + 1) * d.sh), Overlap(x * d.dw, (x + 1) * d.dw, i * d.sw, (i + 1) * d.sw))
  }

  /** What is summed: alpha, or a colour times alpha. */
  function Light(row: Row, x: nat, ch: nat): (v: nat)
    requires 4 * x + 3 < |row| && ch < 4
  {
    if ch == 3 then row[4 * x + 3] else Product(row[4 * x + ch], row[4 * x + 3])
  }

  /** The sum over the first `x` pixels of row `y`. */
  function RowLight(d: Dims, row: Row, y: nat, x: nat, j: nat, i: nat, ch: nat): (s: nat)
    requires 4 * x <= |row| && ch < 4
  {
    if x == 0 then 0
    else RowLight(d, row, y, x - 1, j, i, ch) + Product(Share(d, y, x - 1, j, i), Light(row, x - 1, ch))
  }

  /** The sum over the first `y` rows. */
  function ImageLight(d: Dims, rows: seq<Row>, y: nat, j: nat, i: nat, ch: nat): (s: nat)
    requires y <= |rows| && RowsOk(d.sw, rows) && ch < 4
  {
    if y == 0 then 0
    else ImageLight(d, rows, y - 1, j, i, ch) + RowLight(d, rows[y - 1], y - 1, d.sw, j, i, ch)
  }

  lemma OverlapIs(d: Dims, y: nat, x: nat, j: nat, i: nat)
    ensures Product(Weight(d.sh, d.dh, y, j), Weight(d.sw, d.dw, x, i)) == Share(d, y, x, j, i)
  {
    var a, b := Weight(d.sh, d.dh, y, j), Weight(d.sw, d.dw, x, i);
    assert a == Overlap(y * d.dh, (y + 1) * d.dh, j * d.sh, (j + 1) * d.sh);
    assert b == Overlap(x * d.dw, (x + 1) * d.dw, i * d.sw, (i + 1) * d.sw);
  }

  lemma LightIs(row: Row, x: nat, ch: nat)
    requires 4 * x + 3 < |row| && ch < 4
    ensures Premul(row, x, ch) == Light(row, x, ch)
  {
  }

  lemma {:induction false} RowLightIs(d: Dims, row: Row, y: nat, x: nat, j: nat, k: nat)
    requires 4 * x <= |row|
    ensures RowArea(d, Weight(d.sh, d.dh, y, j), row, x, k) == RowLight(d, row, y, x, j, k / 4, k % 4)
  {
    hide Weight, Premul, Light, Share;
    if x > 0 {
      RowLightIs(d, row, y, x - 1, j, k);
      OverlapIs(d, y, x - 1, j, k / 4);
      LightIs(row, x - 1, k % 4);
    }
  }

  lemma {:induction false} ImageLightIs(d: Dims, rows: seq<Row>, y: nat, j: nat, k: nat)
    requires y <= |rows| && RowsOk(d.sw, rows)
    ensures Area(d, rows, y, j, k) == ImageLight(d, rows, y, j, k / 4, k % 4)
  {
    hide RowArea, RowLight, Weight;
    if y > 0 {
      ImageLightIs(d, rows, y - 1, j, k);
      RowLightIs(d, rows[y - 1], y - 1, d.sw, j, k);
    }
  }

  /** `r` is nearest to `p / q`. */
  predicate NearestTo(r: int, p: int, q: int) { -q <= 2 * (r * q - p) <= q }

  lemma RatioNearest(p: nat, q: nat)
    requires q > 0
    ensures NearestTo(Ratio(p, q), p, q)
  {
    var h := p + q / 2;
    var r := h / q;
    assert r * q <= h < r * q + q;
  }

  /** Channel `c` of destination pixel (i, j). */
  function OutPixel(d: Dims, out: seq<int>, j: nat, i: nat, c: nat): (b: int)
    requires j * (4 * d.dw) + 4 * i + c < |out|
  {
    out[j * (4 * d.dw) + 4 * i + c]
  }

  /** Destination pixel (i, j): its alpha is nearest to the area average of alpha, its
      colours to the averages weighted by alpha, and nothing visible is all zero. */
  ghost predicate Lit(d: Dims, out: seq<int>, rows: seq<Row>, j: nat, i: nat)
    requires RowsOk(d.sw, rows) && |rows| == d.sh && j * (4 * d.dw) + 4 * i + 3 < |out|
  {
    var ta := ImageLight(d, rows, d.sh, j, i, 3);
    if ta == 0 then forall c :: 0 <= c < 4 ==> OutPixel(d, out, j, i, c) == 0
    else
      && NearestTo(OutPixel(d, out, j, i, 3), ta, d.sw * d.sh)
      && forall c :: 0 <= c < 3 ==> NearestTo(OutPixel(d, out, j, i, c), ImageLight(d, rows, d.sh, j, i, c), ta)
  }

  lemma AveragedLit(d: Dims, out: seq<int>, rows: seq<Row>, j: nat, i: nat)
    requires d.Valid() && RowsOk(d.sw, rows) && |rows| == d.sh && Averaged(d, out, rows, j) && i < d.dw
    ensures j * (4 * d.dw) + 4 * i + 3 < |out| && Lit(d, out, rows, j, i)
  {
    hide Area, ImageLight, Ratio, NearestTo;
    var ta := ImageLight(d, rows, d.sh, j, i, 3);
    forall c | 0 <= c < 4
      ensures OutPixel(d, out, j, i, c) == Average(d, rows, j, 4 * i + c)
      ensures ta > 0 && c < 3 ==> NearestTo(OutPixel(d, out, j, i, c), ImageLight(d, rows, d.sh, j, i, c), ta)
      ensures ta > 0 && c == 3 ==> NearestTo(OutPixel(d, out, j, i, c), ta, d.sw * d.sh)
      ensures ta == 0 ==> OutPixel(d, out, j, i, c) == 0
    {
      var k := 4 * i + c;
      assert k / 4 == i && k % 4 == c && Alpha(k) / 4 == i && Alpha(k) % 4 == 3;
      ImageLightIs(d, rows, d.sh, j, k);
      ImageLightIs(d, rows, d.sh, j, Alpha(k));
      if ta > 0 {
        RatioNearest(ImageLight(d, rows, d.sh, j, i, c), ta);
        RatioNearest(ta, d.sw * d.sh);
      }
    }
  }

  // ---- what that means ------------------------------------------------------------------

  /** Every pixel that counts in destination pixel (i, j) and can be seen has channel `c`
      in this range. */
  ghost predicate SeenIn(d: Dims, rows: seq<Row>, j: nat, i: nat, c: nat, lo: nat, hi: nat)
    requires RowsOk(d.sw, rows) && |rows| == d.sh && c < 4
  {
    forall y, x :: 0 <= y < d.sh && 0 <= x < d.sw ==> InSeen(d, rows[y], y, x, j, i, c, lo, hi)
  }

  predicate InSeen(d: Dims, row: Row, y: nat, x: nat, j: nat, i: nat, c: nat, lo: nat, hi: nat)
    requires 4 * x + 3 < |row| && c < 4
  {
    Share(d, y, x, j, i) > 0 && row[4 * x + 3] > 0 ==> lo <= row[4 * x + c] <= hi
  }

  lemma TermBetween(w: nat, v: nat, a: nat, lo: nat, hi: nat)
    requires w > 0 && a > 0 ==> lo <= v <= hi
    ensures Product(lo, Product(w, a)) <= Product(w, Product(v, a)) <= Product(hi, Product(w, a))
  {
    if w > 0 && a > 0 {
      Mono(w * a, lo, v);
      Mono(w * a, v, hi);
      assert w * (v * a) == v * (w * a);
    } else {
      assert Product(w, a) == 0 && Product(w, Product(v, a)) == 0;
    }
  }

  lemma Spread(a: nat, b: nat, c: nat)
    ensures Product(a, b + c) == Product(a, b) + Product(a, c)
  {
  }

  lemma {:induction false} RowBetween(d: Dims, row: Row, y: nat, x: nat, j: nat, i: nat, c: nat, lo: nat, hi: nat)
    requires 4 * x <= |row| && c < 3 && forall u :: 0 <= u < x ==> InSeen(d, row, y, u, j, i, c, lo, hi)
    ensures var a, v := RowLight(d, row, y, x, j, i, 3), RowLight(d, row, y, x, j, i, c);
      Product(lo, a) <= v <= Product(hi, a)
  {
    hide Share, Product;
    if x == 0 {
      NoProduct(lo);
      NoProduct(hi);
    } else {
      RowBetween(d, row, y, x - 1, j, i, c, lo, hi);
      assert InSeen(d, row, y, x - 1, j, i, c, lo, hi);
      var w, a0, a := Share(d, y, x - 1, j, i), RowLight(d, row, y, x - 1, j, i, 3), row[4 * (x - 1) + 3];
      TermBetween(w, row[4 * (x - 1) + c], a, lo, hi);
      Spread(lo, a0, Product(w, a));
      Spread(hi, a0, Product(w, a));
    }
  }

  lemma NoProduct(a: nat)
    ensures Product(a, 0) == 0
  {
  }

  lemma {:induction false} ImageBetween(d: Dims, rows: seq<Row>, y: nat, j: nat, i: nat, c: nat, lo: nat, hi: nat)
    requires y <= |rows| == d.sh && RowsOk(d.sw, rows) && c < 3 && SeenIn(d, rows, j, i, c, lo, hi)
    ensures var a, v := ImageLight(d, rows, y, j, i, 3), ImageLight(d, rows, y, j, i, c);
      Product(lo, a) <= v <= Product(hi, a)
  {
    hide RowLight, InSeen, Product;
    if y == 0 {
      NoProduct(lo);
      NoProduct(hi);
    } else {
      ImageBetween(d, rows, y - 1, j, i, c, lo, hi);
      RowBetween(d, rows[y - 1], y - 1, d.sw, j, i, c, lo, hi);
      var a0, a := ImageLight(d, rows, y - 1, j, i, 3), RowLight(d, rows[y - 1], y - 1, d.sw, j, i, 3);
      Spread(lo, a0, a);
      Spread(hi, a0, a);
    }
  }

  lemma NearestBetween(r: int, p: int, q: int, lo: int, hi: int)
    requires q > 0 && NearestTo(r, p, q) && lo * q <= p <= hi * q
    ensures lo <= r <= hi
  {
    if r < lo {
      MulLess(r, lo - 1, q);
      Minus(lo, q);
    } else if r > hi {
      MulLess(hi + 1, r, q);
      Minus(hi + 1, q);
    }
  }

  lemma Minus(a: int, q: int)
    ensures (a - 1) * q == a * q - q
  {
  }

  lemma MulLess(a: int, b: int, q: int)
    requires a <= b && q > 0
    ensures a * q <= b * q
  {
  }

  /** A colour lies between the least and the greatest of the pixels in its cell that can
      be seen. */
  lemma ColourBetween(d: Dims, out: seq<int>, rows: seq<Row>, j: nat, i: nat, c: nat, lo: nat, hi: nat)
    requires RowsOk(d.sw, rows) && |rows| == d.sh && j * (4 * d.dw) + 4 * i + 3 < |out| && Lit(d, out, rows, j, i)
    requires c < 3 && SeenIn(d, rows, j, i, c, lo, hi) && ImageLight(d, rows, d.sh, j, i, 3) > 0
    ensures lo <= OutPixel(d, out, j, i, c) <= hi
  {
    hide ImageLight, NearestTo, SeenIn;
    ImageBetween(d, rows, d.sh, j, i, c, lo, hi);
    NearestBetween(OutPixel(d, out, j, i, c), ImageLight(d, rows, d.sh, j, i, c), ImageLight(d, rows, d.sh, j, i, 3), lo, hi);
  }

  /** The sums when every pixel has alpha `a` at least, or exactly. */
  ghost predicate AlphaFrom(rows: seq<Row>, sw: nat, a: nat)
    requires RowsOk(sw, rows)
  {
    forall y, x :: 0 <= y < |rows| && 0 <= x < sw ==> AlphaOf(rows[y], x) >= a
  }

  function AlphaOf(row: Row, x: nat): (a: nat)
    requires 4 * x + 3 < |row|
  {
    row[4 * x + 3]
  }

  lemma {:induction false} RowAlpha(d: Dims, row: Row, y: nat, x: nat, j: nat, i: nat, a: nat)
    requires 4 * x <= |row| && forall u :: 0 <= u < x ==> AlphaOf(row, u) >= a
    ensures RowLight(d, row, y, x, j, i, 3) >= Product(a, Product(Weight(d.sh, d.dh, y, j), WeightTotal(d.sw, d.dw, x, i)))
  {
    hide Share, Weight, Product;
    var wy := Weight(d.sh, d.dh, y, j);
    if x == 0 {
      NoProduct(wy);
      NoProduct(a);
    } else {
      RowAlpha(d, row, y, x - 1, j, i, a);
      OverlapIs(d, y, x - 1, j, i);
      var t, w := WeightTotal(d.sw, d.dw, x - 1, i), Weight(d.sw, d.dw, x - 1, i);
      Spread(wy, t, w);
      Spread(a, Product(wy, t), Product(wy, w));
      AtLeast(Product(wy, w), a, AlphaOf(row, x - 1));
    }
  }

  lemma AtLeast(w: nat, a: nat, v: nat)
    requires a <= v
    ensures Product(a, w) <= Product(w, v)
  {
    Mono(w, a, v);
  }

  lemma {:induction false} ImageAlpha(d: Dims, rows: seq<Row>, y: nat, j: nat, i: nat, a: nat)
    requires y <= |rows| == d.sh && RowsOk(d.sw, rows) && AlphaFrom(rows, d.sw, a)
    ensures ImageLight(d, rows, y, j, i, 3) >= Product(a, CellWeight(d, y, j, i))
  {
    hide RowLight, Weight, WeightTotal, Product;
    if y == 0 {
      NoProduct(a);
    } else {
      ImageAlpha(d, rows, y - 1, j, i, a);
      RowAlpha(d, rows[y - 1], y - 1, d.sw, j, i, a);
      Spread(a, CellWeight(d, y - 1, j, i), Product(Weight(d.sh, d.dh, y - 1, j), WeightTotal(d.sw, d.dw, d.sw, i)));
    }
  }

  /** An image of one colour that can be seen everywhere scales to that colour. */
  lemma OneColour(d: Dims, out: seq<int>, rows: seq<Row>, j: nat, i: nat, c: nat, v: Byte)
    requires d.Valid() && RowsOk(d.sw, rows) && |rows| == d.sh && j * (4 * d.dw) + 4 * i + 3 < |out| && Lit(d, out, rows, j, i)
    requires c < 3 && j < d.dh && i < d.dw && AlphaFrom(rows, d.sw, 1)
    requires forall y, x :: 0 <= y < d.sh && 0 <= x < d.sw ==> Channel(rows[y], x, c) == v
    ensures OutPixel(d, out, j, i, c) == v
  {
    hide ImageLight, Lit, CellWeight, AlphaFrom, Share;
    Visible(d, rows, j, i, 1);
    assert SeenIn(d, rows, j, i, c, v, v) by {
      forall y, x | 0 <= y < d.sh && 0 <= x < d.sw ensures InSeen(d, rows[y], y, x, j, i, c, v, v) {
        assert Channel(rows[y], x, c) == v;
      }
    }
    ColourBetween(d, out, rows, j, i, c, v, v);
  }

  function Channel(row: Row, x: nat, c: nat): (v: Byte)
    requires 4 * x + 3 < |row| && c < 4
  {
    row[4 * x + c]
  }

  lemma Visible(d: Dims, rows: seq<Row>, j: nat, i: nat, a: nat)
    requires d.Valid() && RowsOk(d.sw, rows) && |rows| == d.sh && j < d.dh && i < d.dw && AlphaFrom(rows, d.sw, a)
    ensures ImageLight(d, rows, d.sh, j, i, 3) >= a * (d.sw * d.sh) && d.sw * d.sh > 0
  {
    hide ImageLight, CellWeight, AlphaFrom;
    ImageAlpha(d, rows, d.sh, j, i, a);
    CellWeightsSum(d, j, i);
  }

  /** The sum of a channel without alpha. */
  function RowPlain(d: Dims, row: Row, y: nat, x: nat, j: nat, i: nat, c: nat): (s: nat)
    requires 4 * x <= |row| && c < 4
  {
    if x == 0 then 0 else RowPlain(d, row, y, x - 1, j, i, c) + Product(Share(d, y, x - 1, j, i), Channel(row, x - 1, c))
  }

  function ImagePlain(d: Dims, rows: seq<Row>, y: nat, j: nat, i: nat, c: nat): (s: nat)
    requires y <= |rows| && RowsOk(d.sw, rows) && c < 4
  {
    if y == 0 then 0 else ImagePlain(d, rows, y - 1, j, i, c) + RowPlain(d, rows[y - 1], y - 1, d.sw, j, i, c)
  }

  lemma Regroup(q: nat, v: nat)
    ensures Product(q, Product(v, 255)) == Product(255, Product(q, v)) && Product(q, 255) == Product(255, q)
  {
    assert q * (v * 255) == 255 * (q * v);
  }

  lemma {:induction false} RowOpaque(d: Dims, row: Row, y: nat, x: nat, j: nat, i: nat, c: nat)
    requires 4 * x <= |row| && c < 3 && forall u :: 0 <= u < x ==> AlphaOf(row, u) == 255
    ensures RowLight(d, row, y, x, j, i, c) == Product(255, RowPlain(d, row, y, x, j, i, c))
    ensures RowLight(d, row, y, x, j, i, 3) == Product(255, Product(Weight(d.sh, d.dh, y, j), WeightTotal(d.sw, d.dw, x, i)))
  {
    hide Share, Weight, Product;
    var wy := Weight(d.sh, d.dh, y, j);
    if x == 0 {
      NoProduct(255);
      NoProduct(wy);
    } else {
      RowOpaque(d, row, y, x - 1, j, i, c);
      OverlapIs(d, y, x - 1, j, i);
      assert AlphaOf(row, x - 1) == 255;
      var q, v := Share(d, y, x - 1, j, i), row[4 * (x - 1) + c];
      Regroup(q, v);
      Spread(255, RowPlain(d, row, y, x - 1, j, i, c), Product(q, v));
      var t, w := WeightTotal(d.sw, d.dw, x - 1, i), Weight(d.sw, d.dw, x - 1, i);
      Spread(wy, t, w);
      Spread(255, Product(wy, t), Product(wy, w));
    }
  }

  lemma {:induction false} ImageOpaque(d: Dims, rows: seq<Row>, y: nat, j: nat, i: nat, c: nat)
    requires y <= |rows| == d.sh && RowsOk(d.sw, rows) && c < 3
    requires forall v, x :: 0 <= v < d.sh && 0 <= x < d.sw ==> AlphaOf(rows[v], x) == 255
    ensures ImageLight(d, rows, y, j, i, c) == Product(255, ImagePlain(d, rows, y, j, i, c))
    ensures ImageLight(d, rows, y, j, i, 3) == Product(255, CellWeight(d, y, j, i))
  {
    hide RowLight, RowPlain, Weight, WeightTotal, Product;
    if y == 0 {
      NoProduct(255);
    } else {
      ImageOpaque(d, rows, y - 1, j, i, c);
      RowOpaque(d, rows[y - 1], y - 1, d.sw, j, i, c);
      Spread(255, ImagePlain(d, rows, y - 1, j, i, c), RowPlain(d, rows[y - 1], y - 1, d.sw, j, i, c));
      Spread(255, CellWeight(d, y - 1, j, i), Product(Weight(d.sh, d.dh, y - 1, j), WeightTotal(d.sw, d.dw, d.sw, i)));
    }
  }

  /** In an opaque image every colour is nearest to the average over the area. */
  lemma Opaque(d: Dims, out: seq<int>, rows: seq<Row>, j: nat, i: nat, c: nat)
    requires d.Valid() && RowsOk(d.sw, rows) && |rows| == d.sh && j * (4 * d.dw) + 4 * i + 3 < |out| && Lit(d, out, rows, j, i)
    requires c < 3 && j < d.dh && i < d.dw
    requires forall v, x :: 0 <= v < d.sh && 0 <= x < d.sw ==> AlphaOf(rows[v], x) == 255
    ensures NearestTo(OutPixel(d, out, j, i, c), ImagePlain(d, rows, d.sh, j, i, c), d.sw * d.sh)
    ensures OutPixel(d, out, j, i, 3) == 255
  {
    hide ImageLight, ImagePlain, CellWeight;
    ImageOpaque(d, rows, d.sh, j, i, c);
    CellWeightsSum(d, j, i);
    var area := d.sw * d.sh;
    assert area > 0;
    NearestBetween(OutPixel(d, out, j, i, 3), 255 * area, area, 255, 255);
    NearestCut(OutPixel(d, out, j, i, c), ImagePlain(d, rows, d.sh, j, i, c), area);
  }

  lemma NearestCut(r: int, p: int, q: int)
    requires NearestTo(r, 255 * p, 255 * q)
    ensures NearestTo(r, p, q)
  {
    assert r * (255 * q) == 255 * (r * q);
  }

  /** Pushes every row of an image; all destination rows are then written, each
      with the averages over the whole image. */
  method ScaleImage(d: Dims, rows: seq<Row>, out: array<int>)
    requires d.Valid() && |rows| == d.sh && RowsOk(d.sw, rows) && out.Length >= d.dh * (4 * d.dw)
    modifies out
    ensures forall j :: 0 <= j < d.dh ==> Averaged(d, out[..], rows, j)
    ensures forall j, i :: 0 <= j < d.dh && 0 <= i < d.dw ==> j * (4 * d.dw) + 4 * i + 3 < out.Length && Lit(d, out[..], rows, j, i)
    ensures Kept(old(out[..]), out[..], 0, d.dh * (4 * d.dw))
  {
    hide Written, VRow, Averaged, Lit;
    var s := new Scaler(d, out);
    KeptSame(out[..], 0);
    var y := 0;
    while y < d.sh
      invariant 0 <= y <= d.sh && s.d == d && s.out == out && fresh(s) && fresh(s.hrow) && fresh(s.acc)
      invariant s.Valid() && s.rows == rows[..y]
      invariant Kept(old(out[..]), out[..], 0, s.dstRow * (4 * d.dw))
    {
      ghost var before, n := out[..], s.dstRow;
      s.PushRow(rows[y]);
      Mono(4 * d.dw, n, s.dstRow);
      y := y + 1;
    }
    assert rows[..d.sh] == rows;
    AllRows(d, s.dstRow);
    forall j | 0 <= j < d.dh ensures Averaged(d, out[..], rows, j) {
      WrittenAveraged(d, out[..], rows, j);
    }
    forall j, i | 0 <= j < d.dh && 0 <= i < d.dw
      ensures j * (4 * d.dw) + 4 * i + 3 < out.Length && Lit(d, out[..], rows, j, i)
    {
      AveragedLit(d, out[..], rows, j, i);
    }
  }

  /** The weights of one destination pixel over the whole image. */
  function CellWeight(d: Dims, y: nat, j: nat, i: nat): (w: nat)
  {
    if y == 0 then 0
    else CellWeight(d, y - 1, j, i) + Product(Weight(d.sh, d.dh, y - 1, j), WeightTotal(d.sw, d.dw, d.sw, i))
  }

  lemma {:induction false} CellWeightIs(d: Dims, y: nat, j: nat, i: nat)
    requires i < d.dw
    ensures CellWeight(d, y, j, i) == WeightTotal(d.sh, d.dh, y, j) * d.sw
  {
    hide Weight;
    if y > 0 {
      CellWeightIs(d, y - 1, j, i);
      WeightsSum(d.sw, d.dw, i);
      var t, w := WeightTotal(d.sh, d.dh, y - 1, j), Weight(d.sh, d.dh, y - 1, j);
      assert (t + w) * d.sw == t * d.sw + w * d.sw;
    }
  }

  /** The 2-D weights of a cell sum to the source area. */
  lemma CellWeightsSum(d: Dims, j: nat, i: nat)
    requires j < d.dh && i < d.dw
    ensures CellWeight(d, d.sh, j, i) == d.sw * d.sh
  {
    CellWeightIs(d, d.sh, j, i);
    WeightsSum(d.sh, d.dh, j);
  }

  // ---- fitting --------------------------------------------------------------

  /** `h` is the height that goes with width `mw` for the source's shape, rounded
      down but at least 1. */
  ghost predicate Fitted(sw: nat, sh: nat, mw: nat, mh: nat, h: nat)
  {
    && mw <= sw && 1 <= h <= Min(sh, mh)
    && (h == 1 || h * sw <= sh * mw) && sh * mw < (h + 1) * sw
  }

  const U64: nat := 0x1_0000_0000_0000_0000

  /** The product of two 64-bit numbers. */
  function Times(a: nat, b: nat): (p: nat) { a * b % U64 }

  /** The other side for a product, at least 1 and at most `m`. */
  function Side(p: nat, s: nat, m: nat): (r: nat)
    requires s > 0
  {
    Min(if p / s == 0 then 1 else p / s, m)
  }

  /** The cross products of the sizes fit 64 bits. */
  predicate Fits64(sw: nat, sh: nat, mw: nat, mh: nat) { sw * mh < U64 && sh * mw < U64 }

  /** The largest size with the shape of `sw` by `sh` inside `mw` by `mh`. */
  ghost predicate Inside(sw: nat, sh: nat, mw: nat, mh: nat, w: nat, h: nat)
  {
    if sw * mh >= sh * mw then w == mw && Fitted(sw, sh, mw, mh, h) else h == mh && Fitted(sh, sw, mh, mw, w)
  }

  /** The largest size with the source's shape inside `mw` by `mh`, as long as the cross
      products fit 64 bits; otherwise what their remainders give, still inside. */
  method FitDims(sw: nat, sh: nat, mw: nat, mh: nat) returns (w: nat, h: nat)
    ensures sw == 0 || sh == 0 || mw == 0 || mh == 0 ==> w == 1 && h == 1
    ensures sw > 0 && sh > 0 && mw > 0 && mh > 0 ==>
      if sw <= mw && sh <= mh then w == sw && h == sh
      else if Times(sw, mh) >= Times(sh, mw) then w == mw && h == Side(Times(sh, mw), sw, mh)
      else h == mh && w == Side(Times(sw, mh), sh, mw)
    ensures sw > 0 && sh > 0 && mw > 0 && mh > 0 && (sw > mw || sh > mh) && Fits64(sw, sh, mw, mh) ==>
      Inside(sw, sh, mw, mh, w, h)
    ensures 0 < sw < HALF64 && 0 < sh < HALF64 && mw > 0 && mh > 0 && (sw > mw || sh > mh) ==>
      (Inside(sw, sh, mw, mh, w, h) <==> Ordered64(sw, sh, mw, mh))
  {
    hide Times, Inside, Fits64, Ordered64, Side;
    w, h := sw, sh;
    if sw == 0 || sh == 0 || mw == 0 || mh == 0 {
      w, h := 1, 1;
    } else if sw > mw || sh > mh {
      w, h := FitSteps(sw, sh, mw, mh);
      if Fits64(sw, sh, mw, mh) { FitShape(sw, sh, mw, mh); }
      if sw < HALF64 && sh < HALF64 { FitExactly(sw, sh, mw, mh, w, h); }
    }
  }

  /** The choice by remainders, step by step. */
  method FitSteps(sw: nat, sh: nat, mw: nat, mh: nat) returns (w: nat, h: nat)
    requires sw > 0 && sh > 0 && mw > 0 && mh > 0
    ensures Chosen(sw, sh, mw, mh, w, h)
  {
    hide Times;
    w, h := sw, sh;
    if Times(sw, mh) >= Times(sh, mw) {
      w, h := mw, Times(sh, mw) / sw;
    } else {
      h, w := mh, Times(sw, mh) / sh;
    }
    if w == 0 {
      w := 1;
    }
    if h == 0 {
      h := 1;
    }
    if w > mw {
      w := mw;
    }
    if h > mh {
      h := mh;
    }
  }

  /** An input beyond it: a square comes out one row high. */
  lemma FitWraps()
    ensures !Ordered64(0x2_0000_0000, 0x2_0000_0000, 0x1_0000_0000, 0x8000_0000)
    ensures Chosen(0x2_0000_0000, 0x2_0000_0000, 0x1_0000_0000, 0x8000_0000, 0x1_0000_0000, 1)
  {
  }

  lemma FitShape(sw: nat, sh: nat, mw: nat, mh: nat)
    requires sw > 0 && sh > 0 && mw > 0 && mh > 0 && (sw > mw || sh > mh) && Fits64(sw, sh, mw, mh)
    ensures if Times(sw, mh) >= Times(sh, mw) then Inside(sw, sh, mw, mh, mw, Side(Times(sh, mw), sw, mh))
            else Inside(sw, sh, mw, mh, Side(Times(sw, mh), sh, mw), mh)
  {
    hide Fitted;
    Exact64(sw, mh);
    Exact64(sh, mw);
    if sw * mh >= sh * mw { FitBound(sw, sh, mw, mh); } else { FitBound(sh, sw, mh, mw); }
  }

  lemma Exact64(a: nat, b: nat)
    requires a * b < U64
    ensures Times(a, b) == a * b
  {
    var p := a * b;
    assert p % U64 == p;
  }

  /** The smaller cross product fits 64 bits, and the remainder of the other is not
      smaller than it. */
  predicate Ordered64(sw: nat, sh: nat, mw: nat, mh: nat)
  {
    var a, b := sw * mh, sh * mw;
    if a >= b then b < U64 && Times(sw, mh) >= b else a < U64 && Times(sh, mw) > a
  }

  /** Sides below 2^32 meet it. */
  lemma SidesFit(sw: nat, sh: nat, mw: nat, mh: nat)
    requires sw < 0x1_0000_0000 && sh < 0x1_0000_0000 && mw < 0x1_0000_0000 && mh < 0x1_0000_0000
    ensures Fits64(sw, sh, mw, mh) && Ordered64(sw, sh, mw, mh)
  {
    hide Times;
    Below64(sw, mh);
    Below64(sh, mw);
    Exact64(sw, mh);
    Exact64(sh, mw);
  }

  lemma Below64(s: nat, m: nat)
    requires s < 0x1_0000_0000 && m < 0x1_0000_0000
    ensures s * m < U64
  {
    Mono(m, s, 0xFFFF_FFFF);
  }

  /** What the remainders of the products choose. */
  ghost predicate Chosen(sw: nat, sh: nat, mw: nat, mh: nat, w: nat, h: nat)
    requires sw > 0 && sh > 0
  {
    if Times(sw, mh) >= Times(sh, mw) then w == mw && h == Side(Times(sh, mw), sw, mh)
    else h == mh && w == Side(Times(sw, mh), sh, mw)
  }

  /** For sides below 2^63 that is the size looked for exactly under this condition. */
  lemma FitExactly(sw: nat, sh: nat, mw: nat, mh: nat, w: nat, h: nat)
    requires 0 < sw < HALF64 && 0 < sh < HALF64 && mw > 0 && mh > 0 && (sw > mw || sh > mh) && Chosen(sw, sh, mw, mh, w, h)
    ensures Inside(sw, sh, mw, mh, w, h) <==> Ordered64(sw, sh, mw, mh)
  {
    hide Fitted, Times, Side;
    var a, b := sw * mh, sh * mw;
    Remains(sw, mh);
    Remains(sh, mw);
    if a >= b {
      if Times(sw, mh) < Times(sh, mw) {
        WrongWide(sw, sh, mw, mh, w);
      } else if b < U64 {
        FitBound(sw, sh, mw, mh);
        SideIs(b, sw, mh);
      } else {
        TooSmall(sw, b, Times(sh, mw), mh);
        NotFitted(sw, sh, mw, mh, h);
      }
    } else {
      if Times(sw, mh) >= Times(sh, mw) {
        WrongHigh(sw, sh, mw, mh);
      } else if a < U64 {
        FitBound(sh, sw, mh, mw);
        SideIs(a, sh, mw);
      } else {
        TooSmall(sh, a, Times(sw, mh), mw);
        NotFitted(sh, sw, mh, mw, w);
      }
    }
  }

  const HALF64: nat := 0x8000_0000_0000_0000

  lemma Remains(x: nat, y: nat)
    ensures var p, t := x * y, Times(x, y);
      t <= p && t < U64 && (p < U64 ==> t == p) && (p >= U64 ==> t <= p - U64)
  {
    Remainder64(x * y);
  }

  lemma Remainder64(p: nat)
    ensures p % U64 <= p && (p < U64 ==> p % U64 == p) && (p >= U64 ==> p % U64 <= p - U64)
  {
  }

  lemma SideIs(p: nat, s: nat, m: nat)
    requires s > 0 && p / s <= m && m > 0
    ensures Side(p, s, m) == if p / s == 0 then 1 else p / s
  {
  }

  /** A side found for the remainder of a product is too small for the product. */
  lemma TooSmall(s: nat, p: nat, t: nat, m: nat)
    requires 0 < s < HALF64 && p >= U64 && t <= p - U64 && m > 0
    ensures (Side(t, s, m) + 1) * s <= p
  {
    var h, q := Side(t, s, m), t / s;
    assert q * s <= t;
    if q == 0 { Mono(s, h + 1, 2); } else { Mono(s, h + 1, q + 1); }
  }

  lemma NotFitted(sw: nat, sh: nat, mw: nat, mh: nat, h: nat)
    requires (h + 1) * sw <= sh * mw
    ensures !Fitted(sw, sh, mw, mh, h)
  {
  }

  /** The height where the width should limit. */
  lemma WrongWide(sw: nat, sh: nat, mw: nat, mh: nat, w: nat)
    requires sw > 0 && 0 < sh < HALF64 && sw < HALF64 && mw > 0 && mh > 0 && sw * mh >= sh * mw && Times(sw, mh) < Times(sh, mw)
    requires w == Side(Times(sw, mh), sh, mw)
    ensures !(w == mw && Fitted(sw, sh, mw, mh, mh))
  {
    hide Times;
    Remains(sw, mh);
    Remains(sh, mw);
    var t := Times(sw, mh);
    if w == mw && Fitted(sw, sh, mw, mh, mh) {
      if mw > 1 {
        var q := t / sh;
        assert q >= mw && q * sh <= t;
        Mono(sh, mw, q);
      }
    }
  }

  /** The width where the height should limit. */
  lemma WrongHigh(sw: nat, sh: nat, mw: nat, mh: nat)
    requires sw > 0 && 0 < sh < HALF64 && mw > 0 && mh > 0 && sw * mh < sh * mw && Times(sw, mh) >= Times(sh, mw)
    ensures !Fitted(sh, sw, mh, mw, mw)
  {
    hide Times;
    Remains(sw, mh);
    Remains(sh, mw);
  }

  lemma Cancel(a: nat, b: int, c: int)
    requires a > 0 && a * b <= a * c
    ensures b <= c
  {
    if b > c { Grows(a, b - c); }
  }

  lemma Grows(a: nat, e: int)
    requires a > 0 && e > 0
    ensures a * e >= a
  {
  }

  /** The side that limits is `mw`; the other then fits without being cut. */
  lemma FitBound(sw: nat, sh: nat, mw: nat, mh: nat)
    requires sw > 0 && sh > 0 && mw > 0 && mh > 0 && (sw > mw || sh > mh) && sw * mh >= sh * mw
    ensures var q := (sh * mw) / sw; q <= mh && Fitted(sw, sh, mw, mh, if q == 0 then 1 else q)
  {
    var q := (sh * mw) / sw;
    var r := (sh * mw) % sw;
    var p := sh * mw;
    assert p == sw * q + r;
    assert (q + 1) * sw == sw * q + sw;
    if sh > mh {
      Mono(sw, mh, sh);
      Cancel(sh, mw, sw);
    }
    Cancel(sw, q, mh);
    Mono(sh, mw, sw);
    Cancel(sw, q, sh);
  }
}
