/** Progressive decoding of AC bands and DC coefficients (section G.1.2 of
    ITU-T T.81): first scans and refinements, with end-of-band runs that span
    blocks.  Each block decoder is a method over the row-major coefficient
    array, tied to a function on the block's zigzag view. */
module Progressive {
  import opened BitSeq
  import opened BitReader
  import opened Huffman

  /** Zigzag index to row-major index; indices past 63 land on 63. */
  function Natural(k: nat): (n: nat)
    requires k < 80
  {
    match k / 8
    case 0 => [0, 1, 8, 16, 9, 2, 3, 10][k % 8]
    case 1 => [17, 24, 32, 25, 18, 11, 4, 5][k % 8]
    case 2 => [12, 19, 26, 33, 40, 48, 41, 34][k % 8]
    case 3 => [27, 20, 13, 6, 7, 14, 21, 28][k % 8]
    case 4 => [35, 42, 49, 56, 57, 50, 43, 36][k % 8]
    case 5 => [29, 22, 15, 23, 30, 37, 44, 51][k % 8]
    case 6 => [58, 59, 52, 45, 38, 31, 39, 46][k % 8]
    case 7 => [53, 60, 61, 54, 47, 55, 62, 63][k % 8]
    case _ => 63
  }

  /** Row-major index to zigzag index. */
  function Zigzag(n: nat): (k: nat)
    requires n < 64
  {
    match n / 8
    case 0 => [0, 1, 5, 6, 14, 15, 27, 28][n % 8]
    case 1 => [2, 4, 7, 13, 16, 26, 29, 42][n % 8]
    case 2 => [3, 8, 12, 17, 25, 30, 41, 43][n % 8]
    case 3 => [9, 11, 18, 24, 31, 40, 44, 53][n % 8]
    case 4 => [10, 19, 23, 32, 39, 45, 52, 54][n % 8]
    case 5 => [20, 22, 33, 38, 46, 51, 55, 60][n % 8]
    case 6 => [21, 34, 37, 47, 50, 56, 59, 61][n % 8]
    case _ => [35, 36, 48, 49, 57, 58, 62, 63][n % 8]
  }

  lemma RowInverse(r: nat, i: nat)
    requires r < 8 && i < 8
    ensures Natural(8 * r + i) < 64 && Zigzag(Natural(8 * r + i)) == 8 * r + i
  {
    var k := 8 * r + i;
    assert k / 8 == r && k % 8 == i;
    var n := Natural(k);
    if i == 0 {} else if i == 1 {} else if i == 2 {} else if i == 3 {}
    else if i == 4 {} else if i == 5 {} else if i == 6 {} else {}
  }

  /** The zigzag order visits each of the 64 places once. */
  lemma NaturalInverse(k: nat)
    requires k < 64
    ensures Natural(k) < 64 && Zigzag(Natural(k)) == k
  {
    hide Natural, Zigzag;
    RowInverse(k / 8, k % 8);
  }

  lemma UpperReached(r: nat, i: nat)
    requires r < 4 && i < 8
    ensures Zigzag(8 * r + i) < 64 && Natural(Zigzag(8 * r + i)) == 8 * r + i
  {
    var n := 8 * r + i;
    assert n / 8 == r && n % 8 == i;
    var k := Zigzag(n);
    if i == 0 {} else if i == 1 {} else if i == 2 {} else if i == 3 {}
    else if i == 4 {} else if i == 5 {} else if i == 6 {} else {}
  }

  lemma LowerReached(r: nat, i: nat)
    requires 4 <= r < 8 && i < 8
    ensures Zigzag(8 * r + i) < 64 && Natural(Zigzag(8 * r + i)) == 8 * r + i
  {
    var n := 8 * r + i;
    assert n / 8 == r && n % 8 == i;
    var k := Zigzag(n);
    if i == 0 {} else if i == 1 {} else if i == 2 {} else if i == 3 {}
    else if i == 4 {} else if i == 5 {} else if i == 6 {} else {}
  }

  /** And every place is visited. */
  lemma ZigzagInverse(n: nat)
    requires n < 64
    ensures Zigzag(n) < 64 && Natural(Zigzag(n)) == n
  {
    hide Natural, Zigzag;
    if n < 32 { UpperReached(n / 8, n % 8); } else { LowerReached(n / 8, n % 8); }
  }

  /** The place after (r, c) on the way through the block: along a diagonal, upwards where
      row and column are together even and downwards otherwise, and on to the next diagonal
      at the edges. */
  function Onward(r: nat, c: nat): (n: nat)
    requires r < 8 && c < 8
  {
    if (r + c) % 2 == 0 then
      if c == 7 then 8 * (r + 1) + c else if r == 0 then 8 * r + c + 1 else 8 * (r - 1) + c + 1
    else
      if r == 7 then 8 * r + c + 1 else if c == 0 then 8 * (r + 1) + c else 8 * (r + 1) + c - 1
  }

  lemma OnwardUpper(r: nat, i: nat)
    requires r < 4 && i < 8
    ensures var n := Natural(8 * r + i); n < 64 && Natural(8 * r + i + 1) == Onward(n / 8, n % 8)
  {
    var k := 8 * r + i;
    assert k / 8 == r && k % 8 == i;
    if i < 7 { assert (k + 1) / 8 == r && (k + 1) % 8 == i + 1; } else { assert (k + 1) / 8 == r + 1 && (k + 1) % 8 == 0; }
    if i == 0 {} else if i == 1 {} else if i == 2 {} else if i == 3 {}
    else if i == 4 {} else if i == 5 {} else if i == 6 {} else {}
  }

  lemma OnwardLower(r: nat, i: nat)
    requires 4 <= r < 8 && i < 8 && 8 * r + i < 63
    ensures var n := Natural(8 * r + i); n < 64 && Natural(8 * r + i + 1) == Onward(n / 8, n % 8)
  {
    var k := 8 * r + i;
    assert k / 8 == r && k % 8 == i;
    if i < 7 { assert (k + 1) / 8 == r && (k + 1) % 8 == i + 1; } else { assert (k + 1) / 8 == r + 1 && (k + 1) % 8 == 0; }
    if i == 0 {} else if i == 1 {} else if i == 2 {} else if i == 3 {}
    else if i == 4 {} else if i == 5 {} else if i == 6 {} else {}
  }

  /** The order begins in the corner and goes along the diagonals, to and fro. */
  lemma ZigzagOrder(k: nat)
    requires k < 63
    ensures Natural(0) == 0 && Natural(k) < 64 && Natural(k + 1) == Onward(Natural(k) / 8, Natural(k) % 8)
  {
    hide Onward;
    if k < 32 { OnwardUpper(k / 8, k % 8); } else { OnwardLower(k / 8, k % 8); }
  }

  lemma NaturalPast(k: nat)
    requires 63 <= k < 80
    ensures Natural(k) == 63
  {
  }

  /** A block's coefficients in zigzag order. */
  type Block = z: seq<int> | |z| == 64 witness seq(64, _ => 0)

  function Zig(b: seq<int>): (z: Block)
    requires |b| == 64
  {
    seq(64, k requires 0 <= k < 64 => NaturalInverse(k); b[Natural(k)])
  }

  /** A write at zigzag index `k`, which may have run past the block. */
  function Put(z: Block, k: nat, v: int): (r: Block)
  {
    if k < 64 then z[k := v] else z[63 := v]
  }

  lemma ZigPut(b: seq<int>, k: nat, v: int)
    requires |b| == 64 && k < 80
    ensures Natural(k) < 64 && Zig(b[Natural(k) := v]) == Put(Zig(b), k, v)
  {
    hide Natural, Zigzag;
    var k' := if k < 64 then k else 63;
    if k >= 63 { NaturalPast(k); NaturalPast(63); }
    assert Natural(k) == Natural(k');
    NaturalInverse(k');
    forall i | 0 <= i < 64 ensures Zig(b[Natural(k) := v])[i] == Put(Zig(b), k, v)[i] {
      NaturalInverse(i);
    }
  }

  /** The block that starts at `base` of a coefficient buffer. */
  function BlockAt(coef: seq<int>, base: nat): (z: Block)
    requires base + 64 <= |coef|
  {
    Zig(coef[base..base + 64])
  }

  lemma BlockSlice(coef: seq<int>, base: nat)
    requires base + 64 <= |coef|
    ensures BlockAt(coef, base) == Zig(coef[base..base + 64])
  {
  }

  lemma BlockElem(coef: seq<int>, base: nat, k: nat)
    requires base + 64 <= |coef| && k < 64
    ensures Natural(k) < 64 && BlockAt(coef, base)[k] == coef[base + Natural(k)]
  {
    hide Natural, Zigzag;
    NaturalInverse(k);
  }

  /** Nothing outside the block at `base` differs. */
  ghost predicate Confined(before: seq<int>, after: seq<int>, base: nat)
    requires base + 64 <= |before|
  {
    |after| == |before| && after[..base] == before[..base] && after[base + 64..] == before[base + 64..]
  }

  /** One AC scan: the band `ss..se`, the bit position `al`, first or refinement. */
  datatype Scan = Scan(ss: nat, se: nat, al: nat, refine: bool)
  {
    predicate Valid()
    {
      1 <= ss <= se <= 63 && al <= 13
    }
  }

  // ---- what the block decoders compute -------------------------------------

  /** Plus or minus one in bit position `al`. */
  function Unit(positive: bool, al: nat): (u: int)
  {
    if positive then Pow2(al) else -(Pow2(al) as int)
  }

  /** Applies a correction bit to the nonzero coefficient at `k`. */
  function Correct(s: Stream, z: Block, k: nat, al: nat): (r: (Block, Stream))
    requires k < 64
  {
    var (bit, s') := GetBits(s, 1);
    if bit != 0 && Shr(z[k], al) % 2 == 0
    then (z[k := Int16(z[k] + Unit(z[k] >= 0, al))], s')
    else (z, s')
  }

  /** Corrects the nonzero coefficients from `k` until `r` zero ones have been
      passed and another is met, or the band ends. */
  function Walk(s: Stream, z: Block, k: nat, se: nat, r: nat, al: nat): (w: (Block, Stream, nat))
    requires k <= se <= 63
    ensures k <= w.2 <= se + 1
    decreases se - k
  {
    if z[k] == 0 && r == 0 then (z, s, k)
    else
      var (z', s') := if z[k] != 0 then Correct(s, z, k, al) else (z, s);
      var r' := if z[k] != 0 then r else r - 1;
      if k == se then (z', s', k + 1) else Walk(s', z', k + 1, se, r', al)
  }

  /** The rest of a block inside an end-of-band run: corrections only. */
  function Tail(sc: Scan, s: Stream, z: Block, k: nat): (r: (Block, Stream))
    requires sc.Valid()
    decreases 64 - k
  {
    if !sc.refine || k > sc.se then (z, s)
    else if z[k] == 0 then Tail(sc, s, z, k + 1)
    else
      var (z', s') := Correct(s, z, k, sc.al);
      Tail(sc, s', z', k + 1)
  }

  /** The length of an end-of-band run whose symbol carries `r`. */
  function RunLength(s: Stream, r: nat): (e: (nat, Stream))
    ensures e.0 > 0
  {
    if r == 0 then (1, s) else
      var (v, s') := GetBits(s, r);
      (Pow2(r) + v, s')
  }

  /** Decodes a block from `k` on, outside any run; yields the run it leaves. */
  function Head(c: Code, sc: Scan, s: Stream, z: Block, k: nat): (r: (Block, Stream, nat))
    requires c.WellFormed() && sc.Valid()
    decreases 64 - k
  {
    if k > sc.se then (z, s, 0) else
      var (sym, s1) := Symbol(c, s);
      var rs := if sym < 0 then 0 else sym;
      var (r, size) := (rs / 16, rs % 16);
      if size == 0 && r != 15 then
        var (run, s2) := RunLength(s1, r);
        var (z', s3) := Tail(sc, s2, z, k);
        (z', s3, run - 1)
      else if sc.refine then
        var (bit, s2) := if size != 0 then GetBits(s1, 1) else (0, s1);
        var (z', s3, k') := Walk(s2, z, k, sc.se, r, sc.al);
        Head(c, sc, s3, if size != 0 then Put(z', k', Unit(bit != 0, sc.al)) else z', k' + 1)
      else if size != 0 then
        var (v, s2) := RecvExt(s1, size);
        Head(c, sc, s2, Put(z, k + r, Int16(Shl(v, sc.al))), k + r + 1)
      else
        Head(c, sc, s1, z, k + 16)
  }

  /** One symbol of a refinement scan. */
  lemma UnfoldRefine(c: Code, sc: Scan, s: Stream, z: Block, k: nat)
    requires c.WellFormed() && sc.Valid() && sc.refine && k <= sc.se
    ensures var (sym, s1) := Symbol(c, s);
      && (sym > 0 && sym % 16 != 0 ==>
            var (bit, s2) := GetBits(s1, 1);
            var (z', s3, k') := Walk(s2, z, k, sc.se, sym / 16, sc.al);
            Head(c, sc, s, z, k) == Head(c, sc, s3, Put(z', k', Unit(bit != 0, sc.al)), k' + 1))
      && (sym == 0xF0 ==>
            var (z', s3, k') := Walk(s1, z, k, sc.se, 15, sc.al);
            Head(c, sc, s, z, k) == Head(c, sc, s3, z', k' + 1))
  {
    hide Symbol, GetBits, Walk, Put, Unit;
  }

  /** One symbol of a first scan. */
  lemma UnfoldFirst(c: Code, sc: Scan, s: Stream, z: Block, k: nat)
    requires c.WellFormed() && sc.Valid() && !sc.refine && k <= sc.se
    ensures var (sym, s1) := Symbol(c, s);
      && (sym > 0 && sym % 16 != 0 ==>
            var (v, s2) := RecvExt(s1, sym % 16);
            Head(c, sc, s, z, k) == Head(c, sc, s2, Put(z, k + sym / 16, Int16(Shl(v, sc.al))), k + sym / 16 + 1))
      && (sym == 0xF0 ==> Head(c, sc, s, z, k) == Head(c, sc, s1, z, k + 16))
  {
    hide Symbol, RecvExt, Put, Int16, Shl;
  }

  /** The symbol that starts an end-of-band run. */
  lemma UnfoldRun(c: Code, sc: Scan, s: Stream, z: Block, k: nat)
    requires c.WellFormed() && sc.Valid() && k <= sc.se
    ensures var (sym, s1) := Symbol(c, s);
      sym >= 0 && sym % 16 == 0 && sym < 0xF0 ==>
        var (run, s2) := RunLength(s1, sym / 16);
        var (z', s3) := Tail(sc, s2, z, k);
        Head(c, sc, s, z, k) == (z', s3, run - 1)
  {
    hide Symbol, RunLength, Tail, Walk, RecvExt, GetBits;
  }

  /** Decodes one block of an AC scan; `eobrun` blocks are already known to have
      nothing new. */
  function AcBlock(c: Code, sc: Scan, s: Stream, z: Block, eobrun: nat): (r: (Block, Stream, nat))
    requires c.WellFormed() && sc.Valid()
  {
    if eobrun > 0 then
      var (z', s') := Tail(sc, s, z, sc.ss);
      (z', s', eobrun - 1)
    else
      Head(c, sc, s, z, sc.ss)
  }

  /** Decodes the blocks of one component in scan order; once the stream has
      starved the rest stay as they are. */
  function AcScan(c: Code, sc: Scan, s: Stream, zs: seq<Block>, eobrun: nat): (r: (seq<Block>, Stream))
    requires c.WellFormed() && sc.Valid()
    ensures |r.0| == |zs|
    decreases |zs|
  {
    if zs == [] || s.starved then (zs, s) else
      var (z, s', e) := AcBlock(c, sc, s, zs[0], eobrun);
      var (rest, end) := AcScan(c, sc, s', zs[1..], e);
      ([z] + rest, end)
  }

  // ---- the block decoders ---------------------------------------------------

  lemma SymbolRange(c: Code, s: Stream)
    requires c.WellFormed()
    ensures -1 <= Symbol(c, s).0 < 256
  {
  }

  method DecodeSymbol(b: Reader, t: Table) returns (r: nat, size: nat)
    requires t.Built() && b.Valid()
    modifies b
    ensures b.Valid() && r <= 15 && size <= 15
    ensures var (sym, s') := Symbol(t.Spec(), old(b.View()));
      b.View() == s' && 16 * r + size == if sym < 0 then 0 else sym
  {
    SymbolRange(t.Spec(), b.View());
    var rs := t.Decode(b);
    if rs < 0 { rs := 0; }
    r, size := rs / 16, rs % 16;
  }

  method ReadRun(b: Reader, r: nat) returns (eobrun: nat)
    requires b.Valid() && r < 15
    modifies b
    ensures b.Valid() && (eobrun, b.View()) == RunLength(old(b.View()), r)
  {
    eobrun := Pow2(r);
    if r > 0 {
      var v := b.Get(r);
      eobrun := eobrun + v;
    }
  }

  /** Stores one coefficient of the block at `base`. */
  method Store(coef: array<int>, base: nat, k: nat, v: int)
    requires base + 64 <= coef.Length && k < 80
    modifies coef
    ensures Confined(old(coef[..]), coef[..], base)
    ensures BlockAt(coef[..], base) == Put(old(BlockAt(coef[..], base)), k, v)
  {
    hide Natural, Zig;
    ghost var blk := coef[base..base + 64];
    ZigPut(blk, k, v);
    NaturalBound(k);
    coef[base + Natural(k)] := v;
    assert coef[base..base + 64] == blk[Natural(k) := v];
    BlockSlice(old(coef[..]), base);
    BlockSlice(coef[..], base);
    assert coef[..][base..base + 64] == coef[base..base + 64];
    assert old(coef[..])[base..base + 64] == blk;
  }

  method BlkAcFirst(b: Reader, t: Table, coef: array<int>, base: nat, ss: nat, se: nat, al: nat, eobrun: nat)
    returns (run: nat)
    requires t.Built() && b.Valid() && Scan(ss, se, al, false).Valid()
    requires base + 64 <= coef.Length && coef != t.maxcode && coef != t.valoff
    modifies b, coef
    ensures b.Valid() && Confined(old(coef[..]), coef[..], base)
    ensures (BlockAt(coef[..], base), b.View(), run)
      == AcBlock(t.Spec(), Scan(ss, se, al, false), old(b.View()), old(BlockAt(coef[..], base)), eobrun)
  {
    hide Natural, Symbol, RunLength, GetBits, RecvExt, Shl, BlockAt, Reader.Valid, Reader.View, LimitsDone, LookDone;
    ghost var c, sc := t.Spec(), Scan(ss, se, al, false);
    run := eobrun;
    if run > 0 {
      run := run - 1;
      return;
    }
    var k := ss;
    while k <= se
      invariant t.Built() && b.Valid() && ss <= k <= 79 && run == 0 && c == t.Spec()
      invariant Confined(old(coef[..]), coef[..], base)
      invariant Head(c, sc, b.View(), BlockAt(coef[..], base), k)
        == Head(c, sc, old(b.View()), old(BlockAt(coef[..], base)), ss)
      decreases 64 - k
    {
      var r, size := DecodeSymbol(b, t);
      if size != 0 {
        k := k + r;
        var v := b.ReceiveExtend(size);
        Store(coef, base, k, Int16(Shl(v, al)));
      } else if r == 15 {
        k := k + 15;
      } else {
        run := ReadRun(b, r);
        run := run - 1;
        break;
      }
      k := k + 1;
    }
  }

  /** Corrects the coefficient at `k` if it is not zero. */
  method CorrectAt(b: Reader, coef: array<int>, base: nat, k: nat, al: nat)
    requires b.Valid() && base + 64 <= coef.Length && k < 64
    modifies b, coef
    ensures b.Valid() && Confined(old(coef[..]), coef[..], base)
    ensures var z := old(BlockAt(coef[..], base));
      (BlockAt(coef[..], base), b.View()) == if z[k] != 0 then Correct(old(b.View()), z, k, al) else (z, old(b.View()))
  {
    hide Natural, Zig, GetBits, Shl, Shr, Pow2, Reader.Valid, Reader.View;
    BlockElem(coef[..], base, k);
    var tc := coef[base + Natural(k)];
    if tc != 0 {
      var bit := b.Get(1);
      if bit != 0 && Shr(tc, al) % 2 == 0 {
        Store(coef, base, k, Int16(tc + Unit(tc >= 0, al)));
      }
    }
  }

  /** Skips `r0` zero coefficients, correcting the others on the way. */
  method WalkBand(b: Reader, coef: array<int>, base: nat, k0: nat, se: nat, r0: nat, al: nat) returns (k: nat)
    requires b.Valid() && base + 64 <= coef.Length && k0 <= se <= 63
    modifies b, coef
    ensures b.Valid() && Confined(old(coef[..]), coef[..], base) && k0 <= k <= se + 1
    ensures (BlockAt(coef[..], base), b.View(), k)
      == Walk(old(b.View()), old(BlockAt(coef[..], base)), k0, se, r0, al)
  {
    hide Natural, BlockAt, Correct, Reader.Valid, Reader.View;
    k := k0;
    var r: int := r0;
    while true
      invariant b.Valid() && Confined(old(coef[..]), coef[..], base) && k0 <= k <= se && r >= 0
      invariant Walk(b.View(), BlockAt(coef[..], base), k, se, r, al)
        == Walk(old(b.View()), old(BlockAt(coef[..], base)), k0, se, r0, al)
      decreases se - k
    {
      BlockElem(coef[..], base, k);
      if coef[base + Natural(k)] != 0 {
        CorrectAt(b, coef, base, k, al);
      } else {
        r := r - 1;
        if r < 0 { break; }
      }
      k := k + 1;
      if k > se { break; }
    }
  }

  method BlkAcRefine(b: Reader, t: Table, coef: array<int>, base: nat, ss: nat, se: nat, al: nat, eobrun: nat)
    returns (run: nat)
    requires t.Built() && b.Valid() && Scan(ss, se, al, true).Valid()
    requires base + 64 <= coef.Length && coef != t.maxcode && coef != t.valoff
    modifies b, coef
    ensures b.Valid() && Confined(old(coef[..]), coef[..], base)
    ensures (BlockAt(coef[..], base), b.View(), run)
      == AcBlock(t.Spec(), Scan(ss, se, al, true), old(b.View()), old(BlockAt(coef[..], base)), eobrun)
  {
    hide Natural, Symbol, RunLength, GetBits, Correct, Walk, Shl, BlockAt, Reader.Valid, Reader.View, LimitsDone, LookDone;
    ghost var c, sc := t.Spec(), Scan(ss, se, al, true);
    ghost var goal := AcBlock(c, sc, b.View(), BlockAt(coef[..], base), eobrun);
    run := eobrun;
    var k := ss;
    if run == 0 {
      while k <= se
        invariant t.Built() && b.Valid() && ss <= k <= 65 && run == 0 && c == t.Spec()
        invariant Confined(old(coef[..]), coef[..], base)
        invariant Head(c, sc, b.View(), BlockAt(coef[..], base), k) == goal
        decreases 65 - k
      {
        var r, size := DecodeSymbol(b, t);
        if size == 0 && r != 15 {
          run := ReadRun(b, r);
          assert Ends(sc, b.View(), BlockAt(coef[..], base), k, run) == goal;
          break;
        }
        var bit := 0;
        if size != 0 {
          bit := b.Get(1);
        }
        k := WalkBand(b, coef, base, k, se, r, al);
        if size != 0 {
          Store(coef, base, k, Unit(bit != 0, al));
        }
        k := k + 1;
      }
    }
    if run > 0 {
      while k <= se
        invariant b.Valid() && Confined(old(coef[..]), coef[..], base) && ss <= k <= 65 && run > 0
        invariant Ends(sc, b.View(), BlockAt(coef[..], base), k, run) == goal
      {
        CorrectAt(b, coef, base, k, al);
        k := k + 1;
      }
      run := run - 1;
    }
  }

  /** A block that has only its run left. */
  ghost function Ends(sc: Scan, s: Stream, z: Block, k: nat, run: nat): (r: (Block, Stream, nat))
    requires sc.Valid() && run > 0
  {
    var (z', s') := Tail(sc, s, z, k);
    (z', s', run - 1)
  }

  lemma NaturalBound(k: nat)
    requires k < 80
    ensures Natural(k) < 64
  {
    hide Natural, Zigzag;
    if k < 64 { NaturalInverse(k); } else { NaturalPast(k); }
  }

  // ---- DC coefficients --------------------------------------------------------

  /** Reads the difference between a DC value and its prediction. */
  function DcDiff(c: Code, s: Stream): (r: (int, Stream))
    requires c.WellFormed()
  {
    var (sym, s') := Symbol(c, s);
    if sym <= 0 then (0, s') else RecvExt(s', sym)
  }

  /** The prediction and the coefficient after a block of a first DC scan. */
  function DcFirst(c: Code, al: nat, s: Stream, pred: int): (r: (int, int, Stream))
    requires c.WellFormed()
  {
    var (diff, s') := DcDiff(c, s);
    var pred' := Int32(pred + diff);
    (pred', Int16(Shl(pred', al)), s')
  }

  /** The coefficient after a block of a DC refinement: the bit is or-ed in. */
  function DcRefine(al: nat, s: Stream, dc: int): (r: (int, Stream))
  {
    var (bit, s') := GetBits(s, 1);
    (if bit != 0 && Shr(dc, al) % 2 == 0 then Int16(dc + Pow2(al)) else dc, s')
  }

  ghost predicate DcTable(c: Code)
    requires c.WellFormed()
  {
    c.Feasible() && forall i :: 0 <= i < c.Count(17) ==> c.vals[i] <= 15
  }

  /** A DC table only yields sizes the bit reader can serve. */
  lemma DcSymbol(c: Code, s: Stream)
    requires c.WellFormed() && DcTable(c)
    ensures Symbol(c, s).0 <= 15
  {
    hide Code.Kraft, Shl, Shr, Code.Find, Take, Val;
    var x := Val(Take(s.bits, 16));
    FindHit(c, 16, x, 1);
    var h := c.Find(16, x, 1);
    if h.Hit? { CountMono(c, h.len + 1, 17); }
  }

  method BlkDcFirst(b: Reader, t: Table, coef: array<int>, base: nat, pred: int, al: nat) returns (pred': int)
    requires t.Built() && DcTable(t.Spec()) && b.Valid() && base + 64 <= coef.Length
    modifies b, coef
    ensures b.Valid() && Confined(old(coef[..]), coef[..], base)
    ensures var (p, dc, s') := DcFirst(t.Spec(), al, old(b.View()), pred);
      && pred' == p && b.View() == s'
      && BlockAt(coef[..], base) == old(BlockAt(coef[..], base))[0 := dc]
  {
    hide Natural, Symbol, RecvExt, Shl, BlockAt, Reader.Valid, Reader.View, LimitsDone, LookDone, Code.Feasible;
    DcSymbol(t.Spec(), b.View());
    var size := t.Decode(b);
    var diff := 0;
    if size > 0 {
      diff := b.ReceiveExtend(size);
    }
    pred' := Int32(pred + diff);
    Store(coef, base, 0, Int16(Shl(pred', al)));
  }

  method BlkDcRefine(b: Reader, coef: array<int>, base: nat, al: nat)
    requires b.Valid() && base + 64 <= coef.Length
    modifies b, coef
    ensures b.Valid() && Confined(old(coef[..]), coef[..], base)
    ensures var z := old(BlockAt(coef[..], base));
      var (dc, s') := DcRefine(al, old(b.View()), z[0]);
      b.View() == s' && BlockAt(coef[..], base) == z[0 := dc]
  {
    hide Natural, GetBits, Shl, Shr, Pow2, BlockAt, Reader.Valid, Reader.View;
    BlockElem(coef[..], base, 0);
    ghost var z := BlockAt(coef[..], base);
    assert z[0 := z[0]] == z;
    var bit := b.Get(1);
    BlockElem(coef[..], base, 0);
    var dc := coef[base + Natural(0)];
    if bit != 0 && Shr(dc, al) % 2 == 0 {
      Store(coef, base, 0, Int16(dc + Pow2(al)));
    }
  }

  /** Every entry of a pattern is one of `n` components. */
  predicate Within(pattern: seq<nat>, n: nat) { forall i :: 0 <= i < |pattern| ==> pattern[i] < n }

  /** One MCU of an interleaved first DC scan: `pattern` lists the component of
      each block, `preds` holds one prediction for each component. */
  function DcMcu(codes: seq<Code>, al: nat, s: Stream, pattern: seq<nat>, preds: seq<int>): (r: (seq<int>, seq<int>, Stream))
    requires |codes| == |preds| && (forall i :: 0 <= i < |codes| ==> codes[i].WellFormed())
    requires forall i :: 0 <= i < |pattern| ==> pattern[i] < |preds|
    ensures |r.0| == |pattern| && |r.1| == |preds|
    decreases |pattern|
  {
    if pattern == [] then ([], preds, s) else
      var c := pattern[0];
      var (p, dc, s') := DcFirst(codes[c], al, s, preds[c]);
      var (dcs, preds', end) := DcMcu(codes, al, s', pattern[1..], preds[c := p]);
      ([dc] + dcs, preds', end)
  }

  /** A first DC scan; an MCU is skipped once the stream has starved. */
  function DcScan(codes: seq<Code>, al: nat, s: Stream, pattern: seq<nat>, preds: seq<int>, mcus: seq<seq<int>>)
    : (r: (seq<seq<int>>, Stream))
    requires |codes| == |preds| && (forall i :: 0 <= i < |codes| ==> codes[i].WellFormed())
    requires forall i :: 0 <= i < |pattern| ==> pattern[i] < |preds|
    decreases |mcus|
  {
    if mcus == [] || s.starved then (mcus, s) else
      var (dcs, preds', s') := DcMcu(codes, al, s, pattern, preds);
      var (rest, end) := DcScan(codes, al, s', pattern, preds', mcus[1..]);
      ([dcs] + rest, end)
  }

  function DcRefineMcu(al: nat, s: Stream, dcs: seq<int>): (r: (seq<int>, Stream))
    ensures |r.0| == |dcs|
    decreases |dcs|
  {
    if dcs == [] then ([], s) else
      var (dc, s') := DcRefine(al, s, dcs[0]);
      var (rest, end) := DcRefineMcu(al, s', dcs[1..]);
      ([dc] + rest, end)
  }

  function DcRefineScan(al: nat, s: Stream, mcus: seq<seq<int>>): (r: (seq<seq<int>>, Stream))
    decreases |mcus|
  {
    if mcus == [] || s.starved then (mcus, s) else
      var (dcs, s') := DcRefineMcu(al, s, mcus[0]);
      var (rest, end) := DcRefineScan(al, s', mcus[1..]);
      ([dcs] + rest, end)
  }
}
