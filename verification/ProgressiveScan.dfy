/** One AC scan over the coefficient buffer of a component: the blocks that cover
    the component are decoded in raster order, in place, and the padding blocks
    at the right and bottom edges are left alone. */
module ProgressiveScan {
  import opened BitSeq
  import opened BitReader
  import opened Huffman
  import opened Progressive
  import Cells = Grid

  /** The buffer index, in blocks, of the `i`-th block of a scan: the component
      is `w` blocks wide, its buffer `stride`. */
  function Pos(i: nat, w: nat, stride: nat): (p: nat)
    requires 0 < w
  {
    (i / w) * stride + i % w
  }

  lemma PosAt(row: nat, col: nat, w: nat, stride: nat)
    requires col < w
    ensures Pos(row * w + col, w, stride) == row * stride + col
  {
    assert (row * w + col) / w == row && (row * w + col) % w == col by { DivMod(row, col, w); }
  }

  lemma DivMod(q: nat, r: nat, w: nat)
    requires r < w
    ensures (q * w + r) / w == q && (q * w + r) % w == r
  {
    var x := q * w + r;
    assert x == w * (x / w) + x % w;
    if x / w < q {
      assert w * (x / w) <= w * (q - 1) by { MulMono(w, x / w, q - 1); }
    } else if x / w > q {
      assert w * (x / w) >= w * (q + 1) by { MulMono(w, q + 1, x / w); }
    }
  }

  lemma MulMono(w: nat, a: int, b: int)
    requires a <= b
    ensures w * a <= w * b
  {
  }

  lemma PosInBounds(i: nat, w: nat, h: nat, stride: nat)
    requires 0 < w <= stride && i < w * h
    ensures Pos(i, w, stride) + 1 <= h * stride
  {
    assert i / w < h by {
      if i / w >= h { MulMono(w, h, i / w); }
    }
    MulMono(stride, i / w + 1, h);
  }

  /** Two blocks of a scan never share a place. */
  lemma PosDistinct(i: nat, j: nat, w: nat, stride: nat)
    requires 0 < w <= stride && i != j
    ensures Pos(i, w, stride) != Pos(j, w, stride)
  {
    Parts(i, w);
    Parts(j, w);
    var q, r, q', r' := i / w, i % w, j / w, j % w;
    if q * stride + r == q' * stride + r' {
      Cells.PlaceUnique(r, q, r', q', stride);
    }
  }

  lemma Parts(i: nat, w: nat)
    requires 0 < w
    ensures i == (i / w) * w + i % w
  {
  }

  /** The blocks of a component in scan order. */
  ghost function Grid(coef: seq<int>, w: nat, h: nat, stride: nat): (zs: seq<Block>)
    requires 0 < w <= stride && 64 * (h * stride) <= |coef|
    ensures |zs| == w * h
  {
    seq(w * h, i requires 0 <= i < w * h => PosInBounds(i, w, h, stride); BlockAt(coef, 64 * Pos(i, w, stride)))
  }

  /** Decoding one block in place changes one block of the grid. */
  lemma GridStep(before: seq<int>, after: seq<int>, w: nat, h: nat, stride: nat, i: nat)
    requires 0 < w <= stride && 64 * (h * stride) <= |before| && i < w * h
    requires 64 * Pos(i, w, stride) + 64 <= |before| && Confined(before, after, 64 * Pos(i, w, stride))
    ensures Grid(after, w, h, stride) == Grid(before, w, h, stride)[i := BlockAt(after, 64 * Pos(i, w, stride))]
  {
    hide Pos, BlockAt;
    var base := 64 * Pos(i, w, stride);
    forall j | 0 <= j < w * h && j != i
      ensures Grid(after, w, h, stride)[j] == Grid(before, w, h, stride)[j]
    {
      PosDistinct(i, j, w, stride);
      PosInBounds(j, w, h, stride);
      SameBlock(before, after, base, 64 * Pos(j, w, stride));
    }
  }

  lemma SameBlock(before: seq<int>, after: seq<int>, base: nat, other: nat)
    requires base + 64 <= |before| && Confined(before, after, base) && other + 64 <= |before|
    requires other + 64 <= base || base + 64 <= other
    ensures BlockAt(after, other) == BlockAt(before, other)
  {
    if other + 64 <= base {
      assert after[other..other + 64] == after[..base][other..other + 64];
      assert before[other..other + 64] == before[..base][other..other + 64];
    } else {
      var o := other - base - 64;
      assert after[other..other + 64] == after[base + 64..][o..o + 64];
      assert before[other..other + 64] == before[base + 64..][o..o + 64];
    }
  }

  /** Index `p` of the buffer belongs to no block the scan visits. */
  ghost predicate Padding(p: nat, w: nat, h: nat, stride: nat)
    requires 0 < w
  {
    forall i :: 0 <= i < w * h ==> !(64 * Pos(i, w, stride) <= p < 64 * Pos(i, w, stride) + 64)
  }

  /** The first `i` blocks are decoded, the others still to come. */
  ghost predicate Progress(c: Code, sc: Scan, s0: Stream, zs0: seq<Block>, s: Stream, zs: seq<Block>, i: nat, run: nat)
    requires c.WellFormed() && sc.Valid()
  {
    && |zs| == |zs0| && i <= |zs| && zs[i..] == zs0[i..]
    && (var (rest, end) := AcScan(c, sc, s, zs[i..], run);
        AcScan(c, sc, s0, zs0, 0) == (zs[..i] + rest, end))
  }

  lemma ProgressStep(c: Code, sc: Scan, s0: Stream, zs0: seq<Block>, s: Stream, zs: seq<Block>, i: nat, run: nat)
    requires c.WellFormed() && sc.Valid() && Progress(c, sc, s0, zs0, s, zs, i, run) && i < |zs| && !s.starved
    ensures var (z', s', run') := AcBlock(c, sc, s, zs[i], run);
      Progress(c, sc, s0, zs0, s', zs[i := z'], i + 1, run')
  {
    hide AcBlock;
    var (z', s', run') := AcBlock(c, sc, s, zs[i], run);
    var zs' := zs[i := z'];
    assert zs'[i + 1..] == zs[i..][1..] && zs0[i + 1..] == zs0[i..][1..];
    var rest := AcScan(c, sc, s', zs'[i + 1..], run').0;
    assert zs[..i] + ([z'] + rest) == zs'[..i + 1] + rest;
  }

  lemma ProgressStop(c: Code, sc: Scan, s0: Stream, zs0: seq<Block>, s: Stream, zs: seq<Block>, i: nat, run: nat)
    requires c.WellFormed() && sc.Valid() && Progress(c, sc, s0, zs0, s, zs, i, run) && (i == |zs| || s.starved)
    ensures AcScan(c, sc, s0, zs0, 0) == (zs, s)
  {
    hide AcBlock;
    assert zs[..i] + zs[i..] == zs;
  }

  lemma ProgressStart(c: Code, sc: Scan, s: Stream, zs: seq<Block>)
    requires c.WellFormed() && sc.Valid()
    ensures Progress(c, sc, s, zs, s, zs, 0, 0)
  {
    hide AcScan;
    assert zs[0..] == zs;
    assert zs[..0] + AcScan(c, sc, s, zs, 0).0 == AcScan(c, sc, s, zs, 0).0;
  }

  ghost predicate PaddingKept(before: seq<int>, after: seq<int>, w: nat, h: nat, stride: nat)
    requires 0 < w && |before| == |after|
  {
    forall p :: 0 <= p < |before| && Padding(p, w, h, stride) ==> after[p] == before[p]
  }

  lemma PaddingStep(start: seq<int>, before: seq<int>, after: seq<int>, w: nat, h: nat, stride: nat, i: nat)
    requires 0 < w && |start| == |before| && i < w * h && PaddingKept(start, before, w, h, stride)
    requires 64 * Pos(i, w, stride) + 64 <= |before| && Confined(before, after, 64 * Pos(i, w, stride))
    ensures PaddingKept(start, after, w, h, stride)
  {
    hide Pos;
    var base := 64 * Pos(i, w, stride);
    forall p | 0 <= p < |start| && Padding(p, w, h, stride) ensures after[p] == start[p] {
      if p < base {
        assert after[p] == after[..base][p] && before[p] == before[..base][p];
      } else {
        assert after[p] == after[base + 64..][p - base - 64] && before[p] == before[base + 64..][p - base - 64];
      }
    }
  }

  /** Decodes the `i`-th block of the scan. */
  method DecodeBlockAt(b: Reader, t: Table, coef: array<int>, base: nat, sc: Scan, eobrun: nat) returns (run: nat)
    requires t.Built() && b.Valid() && sc.Valid() && coef != t.maxcode && coef != t.valoff
    requires base + 64 <= coef.Length
    modifies b, coef
    ensures b.Valid() && Confined(old(coef[..]), coef[..], base)
    ensures (BlockAt(coef[..], base), b.View(), run)
      == AcBlock(t.Spec(), sc, old(b.View()), old(BlockAt(coef[..], base)), eobrun)
  {
    hide BlockAt, AcBlock, Reader.Valid, Reader.View, Confined, LimitsDone, LookDone;
    if sc.refine {
      run := BlkAcRefine(b, t, coef, base, sc.ss, sc.se, sc.al, eobrun);
    } else {
      run := BlkAcFirst(b, t, coef, base, sc.ss, sc.se, sc.al, eobrun);
    }
  }

  lemma GridElem(coef: seq<int>, w: nat, h: nat, stride: nat, i: nat)
    requires 0 < w <= stride && 64 * (h * stride) <= |coef| && i < w * h
    ensures 64 * Pos(i, w, stride) + 64 <= |coef|
    ensures Grid(coef, w, h, stride)[i] == BlockAt(coef, 64 * Pos(i, w, stride))
  {
    hide Pos, BlockAt;
    PosInBounds(i, w, h, stride);
  }

  lemma InGrid(row: nat, col: nat, w: nat, h: nat)
    requires row < h && col < w
    ensures row * w + col < w * h
  {
    MulMono(w, row + 1, h);
  }

  /** Decodes an AC scan of one component, until the data runs out. */
  method RunAcScan(b: Reader, t: Table, coef: array<int>, w: nat, h: nat, stride: nat, sc: Scan)
    requires t.Built() && b.Valid() && sc.Valid() && coef != t.maxcode && coef != t.valoff
    requires 0 < w <= stride && 64 * (h * stride) <= coef.Length
    modifies b, coef
    ensures b.Valid()
    ensures (Grid(coef[..], w, h, stride), b.View())
      == AcScan(t.Spec(), sc, old(b.View()), old(Grid(coef[..], w, h, stride)), 0)
    ensures PaddingKept(old(coef[..]), coef[..], w, h, stride)
  {
    hide Pos, BlockAt, AcBlock, AcScan, Reader.Valid, Reader.Rest, Confined, Grid, Progress, PaddingKept, LimitsDone, LookDone, Code.Feasible;
    ghost var c, s0, zs0 := t.Spec(), b.View(), Grid(coef[..], w, h, stride);
    ProgressStart(c, sc, s0, zs0);
    assert PaddingKept(coef[..], coef[..], w, h, stride) by { PaddingSame(coef[..], w, h, stride); }
    ghost var i: nat := 0;
    var my, run := 0, 0;
    label scan:
    while my < h
      invariant t.Built() && b.Valid() && c == t.Spec() && my <= h && i == my * w
      invariant PaddingKept(old(coef[..]), coef[..], w, h, stride)
      invariant Progress(c, sc, s0, zs0, b.View(), Grid(coef[..], w, h, stride), i, run)
    {
      var mx := 0;
      while mx < w
        invariant t.Built() && b.Valid() && c == t.Spec() && mx <= w && i == my * w + mx
        invariant PaddingKept(old(coef[..]), coef[..], w, h, stride)
        invariant Progress(c, sc, s0, zs0, b.View(), Grid(coef[..], w, h, stride), i, run)
      {
        if b.insufficient {
          break scan;
        }
        InGrid(my, mx, w, h);
        PosAt(my, mx, w, stride);
        GridElem(coef[..], w, h, stride, i);
        ProgressStep(c, sc, s0, zs0, b.View(), Grid(coef[..], w, h, stride), i, run);
        ghost var before := coef[..];
        run := DecodeBlockAt(b, t, coef, (my * stride + mx) * 64, sc, run);
        GridStep(before, coef[..], w, h, stride, i);
        PaddingStep(old(coef[..]), before, coef[..], w, h, stride, i);
        mx, i := mx + 1, i + 1;
      }
      my := my + 1;
    }
    ProgressStop(c, sc, s0, zs0, b.View(), Grid(coef[..], w, h, stride), i, run);
  }

  lemma PaddingSame(coef: seq<int>, w: nat, h: nat, stride: nat)
    requires 0 < w
    ensures PaddingKept(coef, coef, w, h, stride)
  {
  }
}
