/** The whole way of a progressive frame: a DC scan with its refinements and the bands of
    every component are read from their segments and decoded into the decoder's memory,
    until every block of the picture shows the transform of the coder's coefficients. */
module CodedPicture {
  import opened Grid
  import opened BitSeq
  import opened Huffman
  import opened Geometry
  import opened Layout
  import opened Segments
  import opened Progressive
  import opened ProgressiveCoder
  import opened CodedBand
  import opened CodedScan
  import ProgressiveDc
  import ProgressiveScan
  import CodedDc
  import Sequential
  import Blocks
  import Workspace
  import Idct

  // ---- what the memory holds -------------------------------------------------------------

  /** The coefficient memory of block `b`, in zigzag order. */
  ghost function Zigs(ws: seq<Byte>, p: Plan, b: Id): (z: Block)
    requires p.Ok() && p.buffered && b.Real(p) && |ws| == p.Total()
  {
    RealPadded(p, b);
    Zig(Blocks.Coefs(ws, p, b))
  }

  /** The coefficients `have`, by component and zigzag index, are the coder's, and the
      others are still zero. */
  ghost predicate Has(z: Block, i: nat, x: Coded, have: iset<(nat, nat)>)
  {
    forall k :: 0 <= k < 64 ==> z[k] == if (i, k) in have then x[k] else 0
  }

  ghost predicate Holding(ws: seq<Byte>, p: Plan, x: Id -> Coded, have: iset<(nat, nat)>)
    requires p.Ok() && p.buffered && |ws| == p.Total()
  {
    forall b: Id :: b.Real(p) ==> Has(Zigs(ws, p, b), b.i, x(b), have)
  }

  lemma BlankHolds(ws: seq<Byte>, p: Plan, x: Id -> Coded)
    requires p.Ok() && p.buffered && |ws| == p.Total() && Workspace.Blank(ws, p, p.N())
    ensures Holding(ws, p, x, iset{})
  {
    hide Component, Plan.Total, Blocks.Coefs, Natural, Workspace.BlankComp, Zigzag;
    forall b: Id | b.Real(p) ensures Has(Zigs(ws, p, b), b.i, x(b), iset{}) {
      RealPadded(p, b);
      BlankBlock(ws, p, b);
      forall k | 0 <= k < 64 ensures Zigs(ws, p, b)[k] == 0 { NaturalInverse(k); }
    }
  }

  lemma BlankBlock(ws: seq<Byte>, p: Plan, b: Id)
    requires p.Ok() && p.buffered && b.Padded(p) && |ws| == p.Total() && Workspace.BlankComp(ws, p, b.i)
    ensures forall k :: 0 <= k < 64 ==> Blocks.Coefs(ws, p, b)[k] == 0
  {
    hide Component, Plan.Total, Layout.BlockAt, Slice.Lo, Slice.Hi;
    Blocks.BlockSlice(p, b);
  }

  // ---- the DC scans ------------------------------------------------------------------------

  /** The block with its DC coefficient alone. */
  function DcOnly(z: Coded): (r: Coded) { Single(z[0]) }

  /** The DC values of the scan's units, in coding order. */
  function DcUnits(p: Plan, sc: Workspace.Scan, x: Id -> Coded): (mcus: seq<seq<int>>)
    requires p.Ok() && sc.For(p)
  {
    Dcs(Listed(p, sc, b => DcOnly(x(b))))
  }

  function Dcs(zss: seq<seq<Block>>): (mcus: seq<seq<int>>)
    ensures |mcus| == |zss|
  {
    seq(|zss|, u requires 0 <= u < |zss| => seq(|zss[u]|, k requires 0 <= k < |zss[u]| => zss[u][k][0]))
  }

  /** Blocks with these DC values and nothing else. */
  function Blocked(mcus: seq<seq<int>>): (zss: seq<seq<Block>>)
    ensures |zss| == |mcus|
  {
    seq(|mcus|, u requires 0 <= u < |mcus| => Singles(mcus[u]))
  }

  function Single(v: int): (z: Block) { Sequential.Zeros()[0 := v] }

  function Singles(vs: seq<int>): (zs: seq<Block>)
    ensures |zs| == |vs|
  {
    seq(|vs|, k requires 0 <= k < |vs| => Single(vs[k]))
  }

  lemma BlockedDcs(p: Plan, sc: Workspace.Scan, x: Id -> Coded)
    requires p.Ok() && sc.For(p)
    ensures Blocked(DcUnits(p, sc, x)) == Listed(p, sc, b => DcOnly(x(b)))
  {
    hide Workspace.UnitsX, Workspace.UnitsY;
    var zss := Listed(p, sc, b => DcOnly(x(b)));
    forall u | 0 <= u < |zss| ensures Blocked(Dcs(zss))[u] == zss[u] {
      forall k | 0 <= k < |zss[u]| ensures zss[u][k] == Single(zss[u][k][0]) {
        UnitDcOnly(p, sc, x, u / Workspace.UnitsX(p, sc), u % Workspace.UnitsX(p, sc), |sc.comps|, k);
      }
    }
  }

  lemma {:induction false} UnitDcOnly(p: Plan, sc: Workspace.Scan, x: Id -> Coded, my: nat, mx: nat, n: nat, k: nat)
    requires p.Ok() && sc.For(p) && n <= |sc.comps| && k < Base(p, sc, n)
    ensures var z := UnitList(p, sc, b => DcOnly(x(b)), my, mx, n)[k]; z == Single(z[0])
  {
    hide CodedScan.Share, AtPlace;
    var n0 := Base(p, sc, n - 1);
    if k < n0 {
      UnitDcOnly(p, sc, x, my, mx, n - 1, k);
    } else {
      var b := AtPlace(p, sc, n - 1, my, mx, k - n0);
      assert UnitList(p, sc, b => DcOnly(x(b)), my, mx, n)[k] == Single(x(b)[0]);
    }
  }

  /** The memory of block `b` as a sequence of coefficients. */
  function Held(ws: seq<Byte>, p: Plan, b: Id): (blk: Blocks.Block)
  {
    if p.Ok() && b.i < p.N() && Layout.BlockAt(p, b) + 128 <= |ws| then Blocks.BlockFrom(ws, Layout.BlockAt(p, b)) else seq(64, _ => 0)
  }

  lemma HeldIs(ws: seq<Byte>, p: Plan, b: Id)
    requires p.Ok() && p.buffered && b.Padded(p) && |ws| == p.Total()
    ensures Held(ws, p, b) == Blocks.Coefs(ws, p, b)
  {
    hide Component, Plan.Total, Layout.BlockAt;
    Blocks.BlockSlice(p, b);
  }

  /** The block with the DC value of another. */
  function TakeDc(blk: Blocks.Block, dc: Blocks.Block): (r: Blocks.Block) { blk[0 := dc[0]] }

  /** The block with the DC value that was decoded for it. */
  function WithDc(ws: seq<Byte>, p: Plan, sc: Workspace.Scan, mcus: seq<seq<int>>, b: Id): (blk: Blocks.Block)
  {
    hide Found, Held, Blocked, Component;
    if p.Ok() && sc.For(p) then TakeDc(Held(ws, p, b), Found(p, sc, Blocked(mcus), b)) else seq(64, _ => 0)
  }

  function DcStoring(ws: seq<Byte>, p: Plan, sc: Workspace.Scan, mcus: seq<seq<int>>): (st: Workspace.Scan)
  {
    Workspace.Scan(sc.comps, (my: nat, mx: nat) => true, (b: Id) => WithDc(ws, p, sc, mcus, b))
  }

  /** The segments of a first DC scan at bit position `a` and its refinements. */
  ghost predicate DcSent(p: Plan, sc: Workspace.Scan, x: Id -> Coded, codes: seq<Code>, a: nat, first: seq<Byte>, datas: seq<seq<Byte>>)
    requires p.Ok() && sc.For(p) && |codes| == |sc.comps| && Formed(codes)
  {
    var pattern, mcus, zeros := Pattern(p, sc, |sc.comps|), DcUnits(p, sc, x), seq(|codes|, _ => 0);
    && a <= 13 && ProgressiveDc.DcScanCodable(codes, a, pattern, mcus, zeros)
    && (exists m: Byte, post: seq<Byte> :: m != 0 && m != 0xFF && first == Segment(ProgressiveDc.DcScanBits(codes, a, pattern, mcus, zeros), m) + post)
    && |datas| == a && forall k :: 0 <= k < a ==> CodedDc.Refines(datas[k], a - 1 - k, mcus)
  }

  ghost function DcOf(comps: seq<nat>): (ks: iset<(nat, nat)>) { iset q: (nat, nat) | q.0 in comps && q.1 == 0 }

  /** Decodes the DC coefficients of a scan's components into the memory. */
  method PutDc(d: Workspace.Decoder, sc: Workspace.Scan, ghost x: Id -> Coded, ts: seq<Table>, ghost codes: seq<Code>, a: nat, first: seq<Byte>, datas: seq<seq<Byte>>, qts: seq<Blocks.Quant>, g: Idct.Config, ghost have: iset<(nat, nat)>)
    requires d.Valid() && d.p.buffered && sc.For(d.p) && |qts| == d.p.N() && g.Valid()
    requires CodedDc.Loaded(ts, codes) && Formed(codes) && |codes| == |sc.comps| && DcSent(d.p, sc, x, codes, a, first, datas)
    requires Holding(d.ws[..], d.p, x, have)
    modifies d.ws
    ensures d.Valid() && Holding(d.ws[..], d.p, x, have + DcOf(sc.comps))
  {
    hide Segment, ProgressiveDc.DcScanBits, ProgressiveDc.DcScanCodable, CodedDc.Loaded, CodedDc.Refines, CodedDc.InRange, DcUnits;
    hide Holding, Has, Component, Workspace.UnitsX, Workspace.UnitsY, Workspace.Wrote, Workspace.Visited, DcOf;
    ghost var mcus := DcUnits(d.p, sc, x);
    ghost var m: Byte, post: seq<Byte> :| m != 0 && m != 0xFF
      && first == Segment(ProgressiveDc.DcScanBits(codes, a, Pattern(d.p, sc, |sc.comps|), mcus, seq(|codes|, _ => 0)), m) + post;
    DcUnitsOk(d.p, sc, x);
    var r := CodedDc.DecodeDc(ts, codes, a, Pattern(d.p, sc, |sc.comps|), first, datas, seq(UnitCount(d.p, sc), _ => []), m, post, mcus);
    ghost var before := d.ws[..];
    d.RunScan(DcStoring(d.ws[..], d.p, sc, r), qts, g);
    DcHolding(before, d.ws[..], d.p, sc, x, qts, g, have);
  }

  lemma DcUnitsOk(p: Plan, sc: Workspace.Scan, x: Id -> Coded)
    requires p.Ok() && sc.For(p)
    ensures |DcUnits(p, sc, x)| == UnitCount(p, sc) && CodedDc.InRange(DcUnits(p, sc, x))
  {
    hide Workspace.UnitsX, Workspace.UnitsY;
    ListedSize(p, sc, b => DcOnly(x(b)));
    var zss := Listed(p, sc, b => DcOnly(x(b)));
    forall u, k | 0 <= u < |zss| && 0 <= k < |zss[u]| ensures -0x8000 <= zss[u][k][0] < 0x8000 {
      UnitInRange(p, sc, x, u / Workspace.UnitsX(p, sc), u % Workspace.UnitsX(p, sc), |sc.comps|, k);
    }
  }

  lemma {:induction false} UnitInRange(p: Plan, sc: Workspace.Scan, x: Id -> Coded, my: nat, mx: nat, n: nat, k: nat)
    requires p.Ok() && sc.For(p) && n <= |sc.comps| && k < Base(p, sc, n)
    ensures -0x8000 <= UnitList(p, sc, b => DcOnly(x(b)), my, mx, n)[k][0] < 0x8000
  {
    hide CodedScan.Share, AtPlace;
    var n0 := Base(p, sc, n - 1);
    if k < n0 {
      UnitInRange(p, sc, x, my, mx, n - 1, k);
    } else {
      var b := AtPlace(p, sc, n - 1, my, mx, k - n0);
      assert UnitList(p, sc, b => DcOnly(x(b)), my, mx, n)[k] == Single(x(b)[0]);
    }
  }

  lemma DcHolding(before: seq<Byte>, after: seq<Byte>, p: Plan, sc: Workspace.Scan, x: Id -> Coded, qts: seq<Blocks.Quant>, g: Idct.Config, have: iset<(nat, nat)>)
    requires p.Ok() && p.buffered && sc.For(p) && |before| == |after| == p.Total() && |qts| == p.N() && g.Valid()
    requires var st := DcStoring(before, p, sc, DcUnits(p, sc, x));
      Workspace.Wrote(before, after, p, st.block, qts, g, Workspace.Visited(p, st, Workspace.UnitsY(p, st), 0))
    requires Holding(before, p, x, have)
    ensures Holding(after, p, x, have + DcOf(sc.comps))
  {
    hide Component, Plan.Total, Blocks.Coefs, Workspace.UnitsX, Workspace.UnitsY, Has, DcUnits;
    forall b: Id | b.Real(p) ensures Has(Zigs(after, p, b), b.i, x(b), have + DcOf(sc.comps)) {
      RealPadded(p, b);
      assert Has(Zigs(before, p, b), b.i, x(b), have);
      if b.i in sc.comps {
        DcPlaced(before, after, p, sc, x, qts, g, b);
        HasDc(Blocks.Coefs(before, p, b), Blocks.Coefs(after, p, b), b.i, x(b), have, sc.comps);
      } else {
        assert Workspace.SameStored(before, after, p, b);
        HasSame(Zigs(before, p, b), b.i, x(b), have, sc.comps);
      }
    }
  }

  lemma DcPlaced(before: seq<Byte>, after: seq<Byte>, p: Plan, sc: Workspace.Scan, x: Id -> Coded, qts: seq<Blocks.Quant>, g: Idct.Config, b: Id)
    requires p.Ok() && p.buffered && sc.For(p) && |before| == |after| == p.Total() && |qts| == p.N() && g.Valid()
    requires var st := DcStoring(before, p, sc, DcUnits(p, sc, x));
      Workspace.Wrote(before, after, p, st.block, qts, g, Workspace.Visited(p, st, Workspace.UnitsY(p, st), 0))
    requires b.Real(p) && b.Padded(p) && b.i in sc.comps
    ensures Blocks.Coefs(after, p, b) == Blocks.Coefs(before, p, b)[0 := x(b)[0]]
  {
    hide Component, Plan.Total, Blocks.Coefs, Workspace.UnitsX, Workspace.UnitsY, Listed, Found, Blocked, DcUnits, InRows;
    var st := DcStoring(before, p, sc, DcUnits(p, sc, x));
    Workspace.ReachesAll(p, st, b);
    Workspace.InUnits(p, sc, b);
    FoundListed(p, sc, b => DcOnly(x(b)), b);
    BlockedDcs(p, sc, x);
    FirstInRows(DcOnly(x(b)));
    HeldIs(before, p, b);
    assert Workspace.Given(after, p, b, st.block(b), qts, g);
  }

  lemma FirstInRows(z: Coded)
    ensures InRows(z)[0] == z[0]
  {
  }

  lemma HasDc(c0: Blocks.Block, c: Blocks.Block, i: nat, x: Coded, have: iset<(nat, nat)>, comps: seq<nat>)
    requires c == c0[0 := x[0]] && Has(Zig(c0), i, x, have) && i in comps
    ensures Has(Zig(c), i, x, have + DcOf(comps))
  {
    hide Zigzag;
    FirstPlace();
    ZigPut(c0, 0, x[0]);
    assert Zig(c) == Zig(c0)[0 := x[0]];
  }

  lemma FirstPlace()
    ensures Natural(0) == 0
  {
  }

  lemma HasSame(z: Block, i: nat, x: Coded, have: iset<(nat, nat)>, comps: seq<nat>)
    requires Has(z, i, x, have) && i !in comps
    ensures Has(z, i, x, have + DcOf(comps))
  {
  }

  // ---- a band --------------------------------------------------------------------------------

  /** One band of one component: the segments of its passes, and the tables. */
  datatype Band = Band(i: nat, ss: nat, se: nat, a: nat, ts: seq<Table>, datas: seq<seq<Byte>>, ps: seq<Pass>)
  {
    predicate Valid(p: Plan)
      requires p.Ok()
    {
      i < p.N() && 1 <= ss <= se <= 63 && a <= 13
    }
  }

  /** The blocks of component `i` in raster order. */
  ghost function Raster(p: Plan, x: Id -> Coded, i: nat): (xs: seq<Block>)
    requires p.Ok() && i < p.N()
    ensures |xs| == p.C(i).wblocks * p.C(i).hblocks
  {
    var w, h := p.C(i).wblocks, p.C(i).hblocks;
    seq(w * h, n requires 0 <= n < w * h => RasterAt(x, i, w, n))
  }

  ghost function RasterAt(x: Id -> Coded, i: nat, w: nat, n: nat): (z: Block) { if w == 0 then Sequential.Zeros() else x(Id(i, n / w, n % w)) }

  /** The segments hold the band of the picture, one pass after the other. */
  ghost predicate BandSent(p: Plan, x: Id -> Coded, n: Band)
    requires p.Ok() && n.Valid(p)
  {
    var xs := Raster(p, x, n.i);
    && PassesFor(n.ps, n.ss, n.se, n.a, false, xs) && Sent(n.ps, n.datas, n.ss, n.se, n.a, false, xs)
    && forall k :: 0 <= k < |xs| ==> Codable(Progressive.Scan(n.ss, n.se, n.a, false), xs[k])
  }

  ghost function BandOf(n: Band): (ks: iset<(nat, nat)>) { iset q: (nat, nat) | q.0 == n.i && n.ss <= q.1 <= n.se }

  /** Block `b` in a buffer of `w` blocks a row. */
  function Back(cs: seq<int>, i: nat, w: nat, b: Id): (blk: Blocks.Block)
  {
    var at := 64 * At(b.row, w, b.col);
    if b.i == i && b.col < w && at + 64 <= |cs| then Halfwords(cs[at..at + 64]) else seq(64, _ => 0)
  }

  function Halfwords(c: seq<int>): (blk: Blocks.Block)
    requires |c| == 64
  {
    seq(64, k requires 0 <= k < 64 => Int16(c[k]))
  }

  function BandStoring(cs: seq<int>, i: nat, w: nat): (st: Workspace.Scan)
  {
    Workspace.Scan([i], (my: nat, mx: nat) => true, (b: Id) => Back(cs, i, w, b))
  }

  /** The buffer has the component's coefficients, row by row. */
  ghost predicate Buffers(cs: seq<int>, ws: seq<Byte>, p: Plan, i: nat, n: nat)
    requires p.Ok() && p.buffered && |ws| == p.Total() && i < p.N()
  {
    forall b: Id :: b.i == i && b.Real(p) && At(b.row, p.C(i).wblocks, b.col) < n ==> Buffered(cs, ws, p, b)
  }

  ghost predicate Buffered(cs: seq<int>, ws: seq<Byte>, p: Plan, b: Id)
    requires p.Ok() && p.buffered && |ws| == p.Total() && b.Real(p)
  {
    RealPadded(p, b);
    var at := 64 * At(b.row, p.C(b.i).wblocks, b.col);
    at + 64 <= |cs| && cs[at..at + 64] == Blocks.Coefs(ws, p, b)
  }

  /** Copies the coefficients of a component into a buffer of its own. */
  method LoadComponent(d: Workspace.Decoder, i: nat) returns (coef: array<int>)
    requires d.Valid() && d.p.buffered && i < d.p.N()
    ensures fresh(coef) && coef.Length == 64 * (d.p.C(i).hblocks * d.p.C(i).wblocks)
    ensures Buffers(coef[..], d.ws[..], d.p, i, d.p.C(i).hblocks * d.p.C(i).wblocks)
  {
    hide Buffers, Component, Plan.Total;
    var w, h := d.p.C(i).wblocks, d.p.C(i).hblocks;
    coef := new int[64 * (h * w)];
    BuffersNone(coef[..], d.ws[..], d.p, i);
    var row := 0;
    while row < h
      invariant 0 <= row <= h && Buffers(coef[..], d.ws[..], d.p, i, row * w)
    {
      var col := 0;
      while col < w
        invariant 0 <= col <= w && Buffers(coef[..], d.ws[..], d.p, i, row * w + col)
      {
        LoadOne(d, Id(i, row, col), coef);
        col := col + 1;
      }
      row := row + 1;
    }
  }

  lemma BuffersNone(cs: seq<int>, ws: seq<Byte>, p: Plan, i: nat)
    requires p.Ok() && p.buffered && |ws| == p.Total() && i < p.N()
    ensures Buffers(cs, ws, p, i, 0)
  {
    hide Component, Plan.Total, Buffered;
  }

  method LoadOne(d: Workspace.Decoder, b: Id, coef: array<int>)
    requires d.Valid() && d.p.buffered && b.Real(d.p) && coef.Length == 64 * (d.p.C(b.i).hblocks * d.p.C(b.i).wblocks)
    requires Buffers(coef[..], d.ws[..], d.p, b.i, At(b.row, d.p.C(b.i).wblocks, b.col))
    modifies coef
    ensures d.Valid() && Buffers(coef[..], d.ws[..], d.p, b.i, At(b.row, d.p.C(b.i).wblocks, b.col) + 1)
  {
    hide Buffers, Component, Plan.Total, Blocks.Coefs;
    RealPadded(d.p, b);
    InPlane(b.col, b.row, d.p.C(b.i).wblocks, d.p.C(b.i).hblocks);
    var blk := Blocks.LoadBlock(d.p, d.ws, b);
    ghost var before := coef[..];
    var at := 64 * At(b.row, d.p.C(b.i).wblocks, b.col);
    CopyBlock(coef, at, blk);
    assert coef[..][at..at + 64] == coef[at..at + 64];
    BufferMore(before, coef[..], d.ws[..], d.p, b);
  }

  method CopyBlock(coef: array<int>, at: nat, blk: Blocks.Block)
    requires at + 64 <= coef.Length
    modifies coef
    ensures coef[at..at + 64] == blk && Grid.Kept(old(coef[..]), coef[..], at, at + 64)
  {
    var k := 0;
    while k < 64
      invariant 0 <= k <= 64 && Grid.Kept(old(coef[..]), coef[..], at, at + 64)
      invariant forall j :: 0 <= j < k ==> coef[at + j] == blk[j]
    {
      coef[at + k] := blk[k];
      k := k + 1;
    }
  }

  lemma BufferMore(before: seq<int>, after: seq<int>, ws: seq<Byte>, p: Plan, b: Id)
    requires p.Ok() && p.buffered && |ws| == p.Total() && b.Real(p)
    requires Buffers(before, ws, p, b.i, At(b.row, p.C(b.i).wblocks, b.col))
    requires var at := 64 * At(b.row, p.C(b.i).wblocks, b.col); at + 64 <= |before| && Grid.Kept(before, after, at, at + 64)
    requires Buffered(after, ws, p, b)
    ensures Buffers(after, ws, p, b.i, At(b.row, p.C(b.i).wblocks, b.col) + 1)
  {
    hide Component, Plan.Total, Blocks.Coefs;
    var w := p.C(b.i).wblocks;
    var n := At(b.row, w, b.col);
    forall c: Id | c.i == b.i && c.Real(p) && At(c.row, w, c.col) < n + 1 ensures Buffered(after, ws, p, c) {
      var at := 64 * At(c.row, w, c.col);
      if At(c.row, w, c.col) < n {
        assert Buffered(before, ws, p, c);
        Grid.KeptSlice(before, after, 64 * n, 64 * n + 64, at, at + 64);
      } else {
        PlaceUnique(c.col, c.row, b.col, b.row, w);
      }
    }
  }

  /** Block `n` of the component in raster order. */
  lemma InRaster(p: Plan, i: nat, n: nat)
    requires p.Ok() && i < p.N() && n < p.C(i).wblocks * p.C(i).hblocks
    ensures var w := p.C(i).wblocks; w > 0 && Id(i, n / w, n % w).Real(p) && At(n / w, w, n % w) == n
  {
    hide Component;
    var w, h := p.C(i).wblocks, p.C(i).hblocks;
    if n / w >= h { Mono(w, h, n / w); }
  }

  lemma RasterBack(p: Plan, b: Id)
    requires p.Ok() && b.Real(p)
    ensures var w := p.C(b.i).wblocks; var n := At(b.row, w, b.col);
      n < w * p.C(b.i).hblocks && n / w == b.row && n % w == b.col
  {
    hide Component;
    InPlane(b.col, b.row, p.C(b.i).wblocks, p.C(b.i).hblocks);
    Divides(b.row, p.C(b.i).wblocks, b.col);
  }

  ghost function BufferGrid(cs: seq<int>, p: Plan, i: nat): (zs: seq<Block>)
    requires p.Ok() && i < p.N() && |cs| == 64 * (p.C(i).hblocks * p.C(i).wblocks)
  {
    Measures(p, i);
    ProgressiveScan.Grid(cs, p.C(i).wblocks, p.C(i).hblocks, p.C(i).wblocks)
  }

  lemma Measures(p: Plan, i: nat)
    requires p.Ok() && i < p.N()
    ensures p.C(i).wblocks > 0 && p.C(i).hblocks > 0
  {
    hide Component;
    Measured(p, i);
    Geometry.Fits(p.f, p.samp[i]);
  }

  lemma BufferAt(cs: seq<int>, p: Plan, b: Id)
    requires p.Ok() && b.Real(p) && |cs| == 64 * (p.C(b.i).hblocks * p.C(b.i).wblocks)
    ensures var w := p.C(b.i).wblocks; var n := At(b.row, w, b.col);
      && n < w * p.C(b.i).hblocks && |BufferGrid(cs, p, b.i)| == w * p.C(b.i).hblocks
      && 64 * n + 64 <= |cs| && BufferGrid(cs, p, b.i)[n] == Zig(cs[64 * n..64 * n + 64])
  {
    hide Component, Zig;
    var w, h := p.C(b.i).wblocks, p.C(b.i).hblocks;
    Measures(p, b.i);
    RasterBack(p, b);
    ProgressiveScan.GridElem(cs, w, h, w, At(b.row, w, b.col));
    assert ProgressiveScan.Pos(At(b.row, w, b.col), w, w) == At(b.row, w, b.col);
  }

  /** The band's coefficients are still zero in the buffer. */
  lemma BandReady(cs: seq<int>, ws: seq<Byte>, p: Plan, x: Id -> Coded, n: Band, have: iset<(nat, nat)>)
    requires p.Ok() && p.buffered && |ws| == p.Total() && n.Valid(p) && BandSent(p, x, n) && Holding(ws, p, x, have)
    requires |cs| == 64 * (p.C(n.i).hblocks * p.C(n.i).wblocks) && Buffers(cs, ws, p, n.i, p.C(n.i).hblocks * p.C(n.i).wblocks)
    requires BandOf(n) !! have
    ensures AllReady(Progressive.Scan(n.ss, n.se, n.a, false), Raster(p, x, n.i), BufferGrid(cs, p, n.i))
  {
    hide Component, Plan.Total, Zig, Blocks.Coefs, PassesFor, Sent, Codable;
    var w := p.C(n.i).wblocks;
    Measures(p, n.i);
    var xs, zs, sc := Raster(p, x, n.i), BufferGrid(cs, p, n.i), Progressive.Scan(n.ss, n.se, n.a, false);
    forall k | 0 <= k < |xs| ensures Ready(sc, xs[k], zs[k], n.ss) {
      InRaster(p, n.i, k);
      var b := Id(n.i, k / w, k % w);
      RealPadded(p, b);
      BufferAt(cs, p, b);
      assert Buffered(cs, ws, p, b);
      assert Has(Zigs(ws, p, b), b.i, x(b), have);
      forall j | n.ss <= j <= n.se ensures zs[k][j] == 0 {
        assert (n.i, j) in BandOf(n);
      }
    }
  }

  /** Decodes the passes of a band into the memory of its component. */
  method PutBand(d: Workspace.Decoder, n: Band, ghost x: Id -> Coded, qts: seq<Blocks.Quant>, g: Idct.Config, ghost have: iset<(nat, nat)>)
    requires d.Valid() && d.p.buffered && n.Valid(d.p) && |qts| == d.p.N() && g.Valid()
    requires BandSent(d.p, x, n) && Tabled(n.ts, n.ps, 0) && BandOf(n) !! have && Holding(d.ws[..], d.p, x, have)
    modifies d.ws
    ensures d.Valid() && Holding(d.ws[..], d.p, x, have + BandOf(n))
  {
    hide Holding, Has, Component, Buffers, AllReady, PassesFor, Sent, Codable, ProgressiveScan.Grid, ProgressiveScan.PaddingKept;
    hide Spliced, Workspace.Wrote, Workspace.Visited, Workspace.UnitsX, Workspace.UnitsY, BandOf, Plan.Total;
    var w, h := d.p.C(n.i).wblocks, d.p.C(n.i).hblocks;
    Measures(d.p, n.i);
    var coef := LoadComponent(d, n.i);
    ghost var cs0, before := coef[..], d.ws[..];
    BandReady(cs0, before, d.p, x, n, have);
    DecodeBand(coef, w, h, w, n.ss, n.se, n.a, n.ts, n.datas, n.ps, Raster(d.p, x, n.i));
    var cs := coef[..];
    d.RunScan(BandStoring(cs, n.i, w), qts, g);
    BandHolding(before, d.ws[..], d.p, x, n, cs0, cs, qts, g, have);
  }

  lemma BandHolding(before: seq<Byte>, after: seq<Byte>, p: Plan, x: Id -> Coded, n: Band, cs0: seq<int>, cs: seq<int>, qts: seq<Blocks.Quant>, g: Idct.Config, have: iset<(nat, nat)>)
    requires p.Ok() && p.buffered && n.Valid(p) && |before| == |after| == p.Total() && |qts| == p.N() && g.Valid()
    requires |cs0| == |cs| == 64 * (p.C(n.i).hblocks * p.C(n.i).wblocks)
    requires Buffers(cs0, before, p, n.i, p.C(n.i).hblocks * p.C(n.i).wblocks) && Holding(before, p, x, have)
    requires Spread(p, x, n, BufferGrid(cs0, p, n.i), BufferGrid(cs, p, n.i))
    requires var st := BandStoring(cs, n.i, p.C(n.i).wblocks);
      st.For(p) && Workspace.Wrote(before, after, p, st.block, qts, g, Workspace.Visited(p, st, Workspace.UnitsY(p, st), 0))
    ensures Holding(after, p, x, have + BandOf(n))
  {
    hide Component, Plan.Total, Blocks.Coefs, Workspace.UnitsX, Workspace.UnitsY, Has, Zig, BufferGrid, Buffers, Back;
    forall b: Id | b.Real(p) ensures Has(Zigs(after, p, b), b.i, x(b), have + BandOf(n)) {
      RealPadded(p, b);
      assert Has(Zigs(before, p, b), b.i, x(b), have);
      if b.i == n.i {
        BandPlaced(before, after, p, x, n, cs0, cs, qts, g, b);
        HasBand(Zigs(before, p, b), Zigs(after, p, b), x(b), n, have);
      } else {
        assert Workspace.SameStored(before, after, p, b);
        HasOther(Zigs(before, p, b), b.i, x(b), n, have);
      }
    }
  }

  /** Every block of the component has the coder's coefficients in the band. */
  ghost predicate Spread(p: Plan, x: Id -> Coded, n: Band, zs: seq<Block>, zs': seq<Block>)
    requires p.Ok() && n.Valid(p)
  {
    var xs := Raster(p, x, n.i);
    |zs| == |zs'| == |xs| && forall k :: 0 <= k < |xs| ==> zs'[k] == Spliced(xs[k], zs[k], n.ss, n.se)
  }

  lemma BandPlaced(before: seq<Byte>, after: seq<Byte>, p: Plan, x: Id -> Coded, n: Band, cs0: seq<int>, cs: seq<int>, qts: seq<Blocks.Quant>, g: Idct.Config, b: Id)
    requires p.Ok() && p.buffered && n.Valid(p) && |before| == |after| == p.Total() && |qts| == p.N() && g.Valid()
    requires |cs0| == |cs| == 64 * (p.C(n.i).hblocks * p.C(n.i).wblocks) && b.Real(p) && b.i == n.i
    requires Buffers(cs0, before, p, n.i, p.C(n.i).hblocks * p.C(n.i).wblocks)
    requires Spread(p, x, n, BufferGrid(cs0, p, n.i), BufferGrid(cs, p, n.i))
    requires var st := BandStoring(cs, n.i, p.C(n.i).wblocks);
      st.For(p) && Workspace.Wrote(before, after, p, st.block, qts, g, Workspace.Visited(p, st, Workspace.UnitsY(p, st), 0))
    ensures Zigs(after, p, b) == Spliced(x(b), Zigs(before, p, b), n.ss, n.se)
  {
    hide Component, Plan.Total, Blocks.Coefs, Workspace.UnitsX, Workspace.UnitsY, Zig, BufferGrid, Spliced, Halfwords;
    var w := p.C(b.i).wblocks;
    var st := BandStoring(cs, n.i, w);
    RealPadded(p, b);
    Workspace.ReachesAll(p, st, b);
    RasterBack(p, b);
    BufferAt(cs0, p, b);
    BufferAt(cs, p, b);
    assert Buffered(cs0, before, p, b);
    assert Workspace.Given(after, p, b, st.block(b), qts, g);
    var k := At(b.row, w, b.col);
    assert Raster(p, x, n.i)[k] == x(b);
    ZigBack(cs[64 * k..64 * k + 64], x(b), Blocks.Coefs(before, p, b), n.ss, n.se);
  }

  /** Storing in 16 bits loses nothing. */
  lemma ZigBack(c: seq<int>, x: Coded, c0: Blocks.Block, ss: nat, se: nat)
    requires |c| == 64 && ss <= se < 64 && Zig(c) == Spliced(x, Zig(c0), ss, se)
    ensures Zig(Halfwords(c)) == Spliced(x, Zig(c0), ss, se)
  {
    hide Natural, Zigzag;
    forall k | 0 <= k < 64 ensures Zig(Halfwords(c))[k] == Zig(c)[k] {
      NaturalInverse(k);
      SplicedIn(x, c0, ss, se, k);
    }
  }

  lemma SplicedIn(x: Coded, c0: Blocks.Block, ss: nat, se: nat, k: nat)
    requires ss <= se < 64 && k < 64
    ensures -0x8000 <= Spliced(x, Zig(c0), ss, se)[k] < 0x8000
  {
    hide Natural, Zigzag;
    NaturalInverse(k);
  }

  lemma HasBand(z0: Block, z: Block, x: Coded, n: Band, have: iset<(nat, nat)>)
    requires n.ss <= n.se < 64 && z == Spliced(x, z0, n.ss, n.se) && Has(z0, n.i, x, have)
    ensures Has(z, n.i, x, have + BandOf(n))
  {
  }

  lemma HasOther(z: Block, i: nat, x: Coded, n: Band, have: iset<(nat, nat)>)
    requires Has(z, i, x, have) && i != n.i
    ensures Has(z, i, x, have + BandOf(n))
  {
  }

  // ---- the picture -----------------------------------------------------------------------------

  /** What has been decoded after the DC scans and the first `k` bands. */
  ghost function Have(sc: Workspace.Scan, bands: seq<Band>, k: nat): (ks: iset<(nat, nat)>)
    requires k <= |bands|
  {
    if k == 0 then iset{} + DcOf(sc.comps) else Have(sc, bands, k - 1) + BandOf(bands[k - 1])
  }

  /** The bands share no coefficient, and together with the DC scans they bring all. */
  ghost predicate Split(p: Plan, sc: Workspace.Scan, bands: seq<Band>)
    requires p.Ok()
  {
    && (forall k :: 0 <= k < |bands| ==> bands[k].Valid(p))
    && (forall j, k :: 0 <= j < k < |bands| ==> BandOf(bands[j]) !! BandOf(bands[k]))
    && (forall i :: 0 <= i < p.N() ==> i in sc.comps)
    && (forall i, j :: 0 <= i < p.N() && 1 <= j < 64 ==> Brought(bands, i, j))
  }

  ghost predicate Brought(bands: seq<Band>, i: nat, j: nat)
  {
    exists k :: 0 <= k < |bands| && (i, j) in BandOf(bands[k])
  }

  lemma {:induction false} HaveIs(sc: Workspace.Scan, bands: seq<Band>, k: nat, q: (nat, nat))
    requires k <= |bands|
    ensures q in Have(sc, bands, k) <==> q in DcOf(sc.comps) || exists j :: 0 <= j < k && q in BandOf(bands[j])
  {
    hide DcOf, BandOf;
    if k > 0 { HaveIs(sc, bands, k - 1, q); }
  }

  lemma NextApart(p: Plan, sc: Workspace.Scan, bands: seq<Band>, k: nat)
    requires p.Ok() && Split(p, sc, bands) && k < |bands|
    ensures BandOf(bands[k]) !! Have(sc, bands, k)
  {
    forall q | q in BandOf(bands[k]) ensures q !in Have(sc, bands, k) {
      HaveIs(sc, bands, k, q);
      assert bands[k].Valid(p);
    }
  }

  /** Everything decoded: the memory of every block is the coder's. */
  lemma AllThere(ws: seq<Byte>, p: Plan, sc: Workspace.Scan, bands: seq<Band>, x: Id -> Coded, b: Id)
    requires p.Ok() && p.buffered && |ws| == p.Total() && Split(p, sc, bands) && b.Real(p) && b.Padded(p)
    requires Holding(ws, p, x, Have(sc, bands, |bands|))
    ensures Blocks.Coefs(ws, p, b) == InRows(x(b))
  {
    hide Component, Plan.Total, Blocks.Coefs, Zig, Have;
    assert Has(Zigs(ws, p, b), b.i, x(b), Have(sc, bands, |bands|));
    forall k | 0 <= k < 64 ensures (b.i, k) in Have(sc, bands, |bands|) {
      HaveIs(sc, bands, |bands|, (b.i, k));
      if k > 0 { assert Brought(bands, b.i, k); }
    }
    RowsOfZig(Blocks.Coefs(ws, p, b), x(b));
  }

  lemma RowsOfZig(c: Blocks.Block, z: Coded)
    requires Zig(c) == z
    ensures c == InRows(z)
  {
    hide Natural, Zigzag;
    forall n | 0 <= n < 64 ensures c[n] == InRows(z)[n] { ZigzagInverse(n); }
  }

  /** From the coder's segments to the picture: a progressive frame's DC scans and bands,
      in any split of the spectrum and with any number of refinements, are decoded into
      fresh memory and finished, and every block of the picture shows the transform of the
      coder's coefficients. */
  method DecodePicture(p: Plan, sc: Workspace.Scan, ghost x: Id -> Coded, ts: seq<Table>, ghost codes: seq<Code>, a: nat, first: seq<Byte>, datas: seq<seq<Byte>>, bands: seq<Band>, qts: seq<Blocks.Quant>, g: Idct.Config)
    returns (d: Workspace.Decoder)
    requires p.Ok() && p.buffered && sc.For(p) && |qts| == p.N() && g.Valid() && Split(p, sc, bands)
    requires CodedDc.Loaded(ts, codes) && Formed(codes) && |codes| == |sc.comps| && DcSent(p, sc, x, codes, a, first, datas)
    requires forall k :: 0 <= k < |bands| ==> bands[k].Valid(p) && BandSent(p, x, bands[k]) && Tabled(bands[k].ts, bands[k].ps, 0)
    ensures fresh(d) && d.Valid() && d.p == p
    ensures forall b: Id :: b.Real(p) ==> Blocks.ShowsBlock(d.ws[..], p, b, InRows(x(b)), qts[b.i], g)
  {
    hide Holding, Component, Plan.Total, CodedDc.Loaded, DcSent, Workspace.Blank, BandSent, Split, Have, BandOf, Workspace.Finished, Blocks.ShowsBlock, Workspace.Upto;
    d := new Workspace.Decoder(p);
    BlankHolds(d.ws[..], p, x);
    PutDc(d, sc, x, ts, codes, a, first, datas, qts, g, iset{});
    HaveNone(sc, bands);
    PutBands(d, sc, x, bands, qts, g);
    ghost var before := d.ws[..];
    d.Finish(qts, g);
    forall b: Id | b.Real(p) ensures Blocks.ShowsBlock(d.ws[..], p, b, InRows(x(b)), qts[b.i], g) {
      RealPadded(p, b);
      AllThere(before, p, sc, bands, x, b);
      FinishedShows(before, d.ws[..], p, qts, g, Workspace.Upto(p, p.N(), 0, 0), b);
    }
  }

  /** Decodes all bands, one after the other. */
  method PutBands(d: Workspace.Decoder, sc: Workspace.Scan, ghost x: Id -> Coded, bands: seq<Band>, qts: seq<Blocks.Quant>, g: Idct.Config)
    requires d.Valid() && d.p.buffered && sc.For(d.p) && |qts| == d.p.N() && g.Valid() && Split(d.p, sc, bands)
    requires forall k :: 0 <= k < |bands| ==> bands[k].Valid(d.p) && BandSent(d.p, x, bands[k]) && Tabled(bands[k].ts, bands[k].ps, 0)
    requires Holding(d.ws[..], d.p, x, Have(sc, bands, 0))
    modifies d.ws
    ensures d.Valid() && Holding(d.ws[..], d.p, x, Have(sc, bands, |bands|))
  {
    hide Holding, Component, Plan.Total, BandSent, Split, Have, BandOf;
    var k := 0;
    while k < |bands|
      invariant 0 <= k <= |bands| && d.Valid() && Holding(d.ws[..], d.p, x, Have(sc, bands, k))
    {
      NextApart(d.p, sc, bands, k);
      PutBand(d, bands[k], x, qts, g, Have(sc, bands, k));
      HaveNext(sc, bands, k);
      k := k + 1;
    }
  }

  lemma HaveNone(sc: Workspace.Scan, bands: seq<Band>)
    ensures Have(sc, bands, 0) == iset{} + DcOf(sc.comps)
  {
  }

  lemma HaveNext(sc: Workspace.Scan, bands: seq<Band>, k: nat)
    requires k < |bands|
    ensures Have(sc, bands, k + 1) == Have(sc, bands, k) + BandOf(bands[k])
  {
  }

  lemma FinishedShows(before: seq<Byte>, after: seq<Byte>, p: Plan, qts: seq<Blocks.Quant>, g: Idct.Config, ids: iset<Id>, b: Id)
    requires p.Ok() && p.buffered && |before| == |after| == p.Total() && |qts| == p.N() && g.Valid()
    requires Workspace.Finished(before, after, p, qts, g, ids) && b.Real(p) && b.Padded(p) && b in ids
    ensures Blocks.ShowsBlock(after, p, b, Blocks.Coefs(before, p, b), qts[b.i], g)
  {
    hide Component, Plan.Total, Blocks.ShowsBlock, Blocks.Coefs;
    assert Workspace.WindowDone(before, after, p, b, qts[b.i], g, true);
  }
}
