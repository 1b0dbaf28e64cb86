/** The whole way of a progressive band: every pass of a coder that follows section
    G.1.2 of ITU-T T.81 is packed into a segment of its own, read back and decoded in
    place, until the coefficient buffer holds the original coefficients. */
module CodedBand {
  import opened Grid
  import opened BitReader
  import opened Huffman
  import opened Progressive
  import opened ProgressiveCoder
  import opened Segments
  import ProgressiveScan

  /** The segments `datas` carry the passes: from the first byte up to a marker, filled
      up with ones. */
  ghost predicate Sent(ps: seq<Pass>, datas: seq<seq<Byte>>, ss: nat, se: nat, a: nat, refine: bool, xs: seq<Block>)
    requires Scan(ss, se, a, refine).Valid() && PassesFor(ps, ss, se, a, refine, xs)
    decreases a
  {
    && |datas| == a + 1 && Carries(datas[0], ps[0], Scan(ss, se, a, refine), xs)
    && (a > 0 ==> Sent(ps[1..], datas[1..], ss, se, a - 1, true, xs))
  }

  ghost predicate Carries(data: seq<Byte>, p: Pass, sc: Scan, xs: seq<Block>)
    requires sc.Valid() && CodesFor(p, sc, xs)
  {
    var bits := Bits(p.code, ScanTokens(sc, xs, p.plan));
    p.more == Filler(|bits|) && exists m: Byte, post: seq<Byte> :: m != 0 && m != 0xFF && data == Segment(bits, m) + post
  }

  lemma CarriesBack(data: seq<Byte>, p: Pass, sc: Scan, xs: seq<Block>)
    requires sc.Valid() && CodesFor(p, sc, xs) && Carries(data, p, sc, xs)
    ensures Stream(ToBits(Unstuffed(data, 0)), false) == Coded(p, sc, xs)
  {
    hide Segment, Filler, Bits, ScanTokens, Unstuffed;
    var bits := Bits(p.code, ScanTokens(sc, xs, p.plan));
    var m: Byte, post: seq<Byte> :| m != 0 && m != 0xFF && data == Segment(bits, m) + post;
    assert [] + Segment(bits, m) + post == data;
    SegmentBack([], bits, m, post);
  }

  /** Each pass comes with the table it was coded with. */
  ghost predicate Tabled(ts: seq<Table>, ps: seq<Pass>, k: nat)
    reads set t | t in ts :: t.bits, set t | t in ts :: t.vals
    reads set t | t in ts :: t.look, set t | t in ts :: t.maxcode, set t | t in ts :: t.valoff
  {
    |ts| == |ps| && forall i :: k <= i < |ts| ==> ts[i] in ts && Holds(ts[i], ps[i].code)
  }

  /** The passes from `k` on are there, and coded for the blocks. */
  ghost predicate Left(ps: seq<Pass>, datas: seq<seq<Byte>>, k: nat, ss: nat, se: nat, a: nat, xs: seq<Block>)
    requires Scan(ss, se, a, false).Valid()
  {
    && |ps| == |datas| == a + 1 && k <= a + 1
    && (k <= a ==> PassesFor(ps[k..], ss, se, a - k, k > 0, xs) && Sent(ps[k..], datas[k..], ss, se, a - k, k > 0, xs))
  }

  /** What decoding them makes of the blocks `zs`. */
  ghost function Remaining(ps: seq<Pass>, datas: seq<seq<Byte>>, k: nat, ss: nat, se: nat, a: nat, xs: seq<Block>, zs: seq<Block>): (r: seq<Block>)
    requires Scan(ss, se, a, false).Valid() && Left(ps, datas, k, ss, se, a, xs)
  {
    if k > a then zs else DecodePasses(ps[k..], ss, se, a - k, k > 0, xs, zs)
  }

  lemma LeftAll(ps: seq<Pass>, datas: seq<seq<Byte>>, ss: nat, se: nat, a: nat, xs: seq<Block>, zs: seq<Block>)
    requires Scan(ss, se, a, false).Valid() && PassesFor(ps, ss, se, a, false, xs) && Sent(ps, datas, ss, se, a, false, xs)
    ensures Left(ps, datas, 0, ss, se, a, xs)
    ensures Remaining(ps, datas, 0, ss, se, a, xs, zs) == DecodePasses(ps, ss, se, a, false, xs, zs)
  {
    hide DecodePasses;
    assert ps[0..] == ps && datas[0..] == datas;
  }

  /** Reading and decoding one more pass. */
  lemma LeftStep(ps: seq<Pass>, datas: seq<seq<Byte>>, k: nat, ss: nat, se: nat, a: nat, xs: seq<Block>, zs: seq<Block>)
    requires Scan(ss, se, a, false).Valid() && Left(ps, datas, k, ss, se, a, xs) && k <= a
    ensures Left(ps, datas, k + 1, ss, se, a, xs) && ps[k].code.WellFormed()
    ensures Remaining(ps, datas, k, ss, se, a, xs, zs)
      == Remaining(ps, datas, k + 1, ss, se, a, xs, AcScan(ps[k].code, Scan(ss, se, a - k, k > 0), Stream(ToBits(Unstuffed(datas[k], 0)), false), zs, 0).0)
  {
    hide PassesFor, Sent, DecodePasses, AcScan, Unstuffed;
    PassStep(ps[k..], datas[k..], ss, se, a - k, k > 0, xs, zs);
    assert ps[k..][1..] == ps[k + 1..] && datas[k..][1..] == datas[k + 1..] && ps[k..][0] == ps[k] && datas[k..][0] == datas[k];
  }

  /** Decodes all passes of a band into the coefficient buffer: its blocks then have the
      original coefficients there, and everything else is as it was. */
  method DecodeBand(coef: array<int>, w: nat, h: nat, stride: nat, ss: nat, se: nat, a: nat, ts: seq<Table>, datas: seq<seq<Byte>>, ghost ps: seq<Pass>, ghost xs: seq<Block>)
    requires 0 < w <= stride && 64 * (h * stride) <= coef.Length && Scan(ss, se, a, false).Valid()
    requires AllReady(Scan(ss, se, a, false), xs, ProgressiveScan.Grid(coef[..], w, h, stride))
    requires PassesFor(ps, ss, se, a, false, xs) && Sent(ps, datas, ss, se, a, false, xs) && Tabled(ts, ps, 0)
    requires forall i :: 0 <= i < |ts| ==> coef != ts[i].maxcode && coef != ts[i].valoff
    modifies coef
    ensures forall i :: 0 <= i < w * h ==>
      ProgressiveScan.Grid(coef[..], w, h, stride)[i] == Spliced(xs[i], old(ProgressiveScan.Grid(coef[..], w, h, stride))[i], ss, se)
    ensures ProgressiveScan.PaddingKept(old(coef[..]), coef[..], w, h, stride)
  {
    hide ProgressiveScan.Grid, ProgressiveScan.PaddingKept, PassesFor, Sent, DecodePasses, AllReady, Spliced, Table.Built, AcScan;
    hide Left, Remaining, Unstuffed;
    ghost var zs0 := ProgressiveScan.Grid(coef[..], w, h, stride);
    SuccessiveApproximation(ps, ss, se, a, false, xs, zs0);
    LeftAll(ps, datas, ss, se, a, xs, zs0);
    LeftSize(ps, datas, 0, ss, se, a, xs, zs0);
    ProgressiveScan.PaddingSame(coef[..], w, h, stride);
    var k := 0;
    while k <= a
      invariant 0 <= k <= a + 1 && Left(ps, datas, k, ss, se, a, xs)
      invariant Remaining(ps, datas, k, ss, se, a, xs, ProgressiveScan.Grid(coef[..], w, h, stride)) == DecodePasses(ps, ss, se, a, false, xs, zs0)
      invariant Tabled(ts, ps, 0) && ProgressiveScan.PaddingKept(old(coef[..]), coef[..], w, h, stride)
    {
      ghost var before := coef[..];
      LeftStep(ps, datas, k, ss, se, a, xs, ProgressiveScan.Grid(coef[..], w, h, stride));
      var b := new Reader(datas[k], 0);
      ProgressiveScan.RunAcScan(b, ts[k], coef, w, h, stride, Scan(ss, se, a - k, k > 0));
      PaddingThen(old(coef[..]), before, coef[..], w, h, stride);
      k := k + 1;
    }
    LeftSize(ps, datas, k, ss, se, a, xs, ProgressiveScan.Grid(coef[..], w, h, stride));
  }

  lemma LeftSize(ps: seq<Pass>, datas: seq<seq<Byte>>, k: nat, ss: nat, se: nat, a: nat, xs: seq<Block>, zs: seq<Block>)
    requires Scan(ss, se, a, false).Valid() && Left(ps, datas, k, ss, se, a, xs)
    ensures |ps| == |datas| == a + 1 && (k > a ==> Remaining(ps, datas, k, ss, se, a, xs, zs) == zs)
  {
  }

  /** Reading and decoding one pass. */
  lemma PassStep(ps: seq<Pass>, datas: seq<seq<Byte>>, ss: nat, se: nat, a: nat, refine: bool, xs: seq<Block>, zs: seq<Block>)
    requires Scan(ss, se, a, refine).Valid() && PassesFor(ps, ss, se, a, refine, xs) && Sent(ps, datas, ss, se, a, refine, xs)
    ensures |ps| == |datas| == a + 1 && ps[0].code.WellFormed()
    ensures a > 0 ==> PassesFor(ps[1..], ss, se, a - 1, true, xs) && Sent(ps[1..], datas[1..], ss, se, a - 1, true, xs)
    ensures var zs' := AcScan(ps[0].code, Scan(ss, se, a, refine), Stream(ToBits(Unstuffed(datas[0], 0)), false), zs, 0).0;
      DecodePasses(ps, ss, se, a, refine, xs, zs) == if a == 0 then zs' else DecodePasses(ps[1..], ss, se, a - 1, true, xs, zs')
  {
    hide AcScan, Carries, ScanTokens, Bits, Unstuffed;
    CarriesBack(datas[0], ps[0], Scan(ss, se, a, refine), xs);
  }

  lemma PaddingThen(start: seq<int>, before: seq<int>, after: seq<int>, w: nat, h: nat, stride: nat)
    requires 0 < w && |start| == |before| == |after|
    requires ProgressiveScan.PaddingKept(start, before, w, h, stride) && ProgressiveScan.PaddingKept(before, after, w, h, stride)
    ensures ProgressiveScan.PaddingKept(start, after, w, h, stride)
  {
    hide ProgressiveScan.Padding;
  }
}
