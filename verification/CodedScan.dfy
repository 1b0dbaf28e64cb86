/** The whole way of a sequential scan: the coder's bits are packed into bytes, stuffed
    and ended by a marker; the reader, the Huffman decoder and the block decoder take
    them back; and the blocks end up at their places in the decoder's memory. */
module CodedScan {
  import opened Grid
  import opened BitSeq
  import opened BitReader
  import opened Huffman
  import opened Geometry
  import opened Layout
  import opened Segments
  import Progressive
  import Sequential
  import Blocks
  import Workspace
  import Idct

  // ---- blocks in scan order --------------------------------------------------------------

  /** A block in zigzag order with 16-bit coefficients. */
  type Coded = z: seq<int> | |z| == 64 && forall k :: 0 <= k < 64 ==> -0x8000 <= z[k] < 0x8000
    witness seq(64, _ => 0)

  /** The block as it lies in memory, in row order. */
  function InRows(z: Progressive.Block): (b: Blocks.Block)
  {
    seq(64, n requires 0 <= n < 64 => Int16(ZigElem(z, n)))
  }

  function ZigElem(z: Progressive.Block, n: nat): int
    requires n < 64
  {
    if Progressive.Zigzag(n) < 64 then z[Progressive.Zigzag(n)] else 0
  }

  lemma ZigRows(z: Coded)
    ensures Progressive.Zig(InRows(z)) == z
  {
    hide Progressive.Natural, Progressive.Zigzag;
    forall k | 0 <= k < 64 ensures Progressive.Zig(InRows(z))[k] == z[k] { Progressive.NaturalInverse(k); }
  }

  /** How many blocks a unit has for the first `n` components of the scan. */
  function Base(p: Plan, sc: Workspace.Scan, n: nat): (s: nat)
    requires p.Ok() && sc.For(p) && n <= |sc.comps|
  {
    if n == 0 then 0 else Base(p, sc, n - 1) + Share(p, sc, n - 1)
  }

  function Share(p: Plan, sc: Workspace.Scan, j: nat): (s: nat)
    requires p.Ok() && sc.For(p) && j < |sc.comps|
  {
    Workspace.Down(p, sc, sc.comps[j]) * Workspace.Across(p, sc, sc.comps[j])
  }

  /** The component, by its number in the scan, of each block of a unit. */
  function Pattern(p: Plan, sc: Workspace.Scan, n: nat): (s: seq<nat>)
    requires p.Ok() && sc.For(p) && n <= |sc.comps|
    ensures |s| == Base(p, sc, n) && Progressive.Within(s, n)
  {
    if n == 0 then [] else Pattern(p, sc, n - 1) + seq(Share(p, sc, n - 1), _ => n - 1)
  }

  /** The block at place `k` of component `j` in the unit (my, mx). */
  function AtPlace(p: Plan, sc: Workspace.Scan, j: nat, my: nat, mx: nat, k: nat): (b: Id)
    requires p.Ok() && sc.For(p) && j < |sc.comps|
  {
    var a := Workspace.Across(p, sc, sc.comps[j]);
    Id(sc.comps[j], At(my, Workspace.Down(p, sc, sc.comps[j]), k / a), At(mx, a, k % a))
  }

  /** The blocks of one unit in the order they are coded. */
  function UnitList(p: Plan, sc: Workspace.Scan, x: Id -> Coded, my: nat, mx: nat, n: nat): (zs: seq<Progressive.Block>)
    requires p.Ok() && sc.For(p) && n <= |sc.comps|
    ensures |zs| == Base(p, sc, n)
  {
    if n == 0 then []
    else UnitList(p, sc, x, my, mx, n - 1) + seq(Share(p, sc, n - 1), k requires 0 <= k < Share(p, sc, n - 1) => Item(p, sc, x, n - 1, my, mx, k))
  }

  function Item(p: Plan, sc: Workspace.Scan, x: Id -> Coded, j: nat, my: nat, mx: nat, k: nat): (z: Progressive.Block)
    requires p.Ok() && sc.For(p) && j < |sc.comps|
  {
    x(AtPlace(p, sc, j, my, mx, k))
  }

  lemma {:induction false} UnitListAt(p: Plan, sc: Workspace.Scan, x: Id -> Coded, my: nat, mx: nat, n: nat, j: nat, k: nat)
    requires p.Ok() && sc.For(p) && j < n <= |sc.comps| && k < Share(p, sc, j)
    ensures Base(p, sc, j) + k < Base(p, sc, n)
    ensures UnitList(p, sc, x, my, mx, n)[Base(p, sc, j) + k] == x(AtPlace(p, sc, j, my, mx, k))
  {
    hide Share, AtPlace;
    if j < n - 1 { UnitListAt(p, sc, x, my, mx, n - 1, j, k); }
  }

  function UnitCount(p: Plan, sc: Workspace.Scan): (n: nat)
    requires p.Ok() && sc.For(p)
  {
    hide Workspace.UnitsX, Workspace.UnitsY;
    Workspace.UnitsX(p, sc) * Workspace.UnitsY(p, sc)
  }

  /** All units of the scan, in order. */
  function Listed(p: Plan, sc: Workspace.Scan, x: Id -> Coded): (zss: seq<seq<Progressive.Block>>)
    requires p.Ok() && sc.For(p)
  {
    var w := Workspace.UnitsX(p, sc);
    seq(w * Workspace.UnitsY(p, sc), u requires 0 <= u < w * Workspace.UnitsY(p, sc) =>
      if w == 0 then [] else UnitList(p, sc, x, u / w, u % w, |sc.comps|))
  }

  /** The place of component `i` in the scan, or its length. */
  function PlaceOf(comps: seq<nat>, i: nat): (j: nat)
    ensures j <= |comps| && (j < |comps| ==> comps[j] == i)
    ensures i in comps ==> j < |comps|
  {
    if comps == [] then 0 else if comps[0] == i then 0 else PlaceOf(comps[1..], i) + 1
  }

  /** The decoded block for `b`: from its unit, at its place there. */
  function Found(p: Plan, sc: Workspace.Scan, zss: seq<seq<Progressive.Block>>, b: Id): (z: Blocks.Block)
    requires p.Ok() && sc.For(p)
  {
    var j := PlaceOf(sc.comps, b.i);
    if j >= |sc.comps| then InRows(Sequential.Zeros())
    else
      var a, d := Workspace.Across(p, sc, b.i), Workspace.Down(p, sc, b.i);
      var u := At(b.row / d, Workspace.UnitsX(p, sc), b.col / a);
      var k := Base(p, sc, j) + At(b.row % d, a, b.col % a);
      if u < |zss| && k < |zss[u]| then InRows(zss[u][k]) else InRows(Sequential.Zeros())
  }

  /** Listing blocks and finding them again. */
  lemma FoundListed(p: Plan, sc: Workspace.Scan, x: Id -> Coded, b: Id)
    requires p.Ok() && sc.For(p) && b.i in sc.comps && b.i < p.N()
    requires b.row / Workspace.Down(p, sc, b.i) < Workspace.UnitsY(p, sc)
    requires b.col / Workspace.Across(p, sc, b.i) < Workspace.UnitsX(p, sc)
    ensures Found(p, sc, Listed(p, sc, x), b) == InRows(x(b))
  {
    hide Workspace.Across, Workspace.Down, Workspace.UnitsX, Workspace.UnitsY, InRows, Base, UnitList;
    var j := PlaceOf(sc.comps, b.i);
    var a, d := Workspace.Across(p, sc, b.i), Workspace.Down(p, sc, b.i);
    var w, h := Workspace.UnitsX(p, sc), Workspace.UnitsY(p, sc);
    var my, mx, sy, sx := b.row / d, b.col / a, b.row % d, b.col % a;
    InPlane(mx, my, w, h);
    InPlane(sx, sy, a, d);
    Divides(my, w, mx);
    Divides(sy, a, sx);
    UnitListAt(p, sc, x, my, mx, |sc.comps|, j, At(sy, a, sx));
    Parts(b.row, d);
    Parts(b.col, a);
    assert AtPlace(p, sc, j, my, mx, At(sy, a, sx)) == b;
  }

  lemma Divides(q: nat, w: nat, r: nat)
    requires r < w
    ensures At(q, w, r) / w == q && At(q, w, r) % w == r
  {
    var x := At(q, w, r);
    PlaceUnique(x % w, x / w, r, q, w);
  }

  lemma Parts(x: nat, d: nat)
    requires d > 0
    ensures At(x / d, d, x % d) == x
  {
  }

  // ---- decoding into the memory ------------------------------------------------------------

  /** The scan that stores decoded blocks: units exist as far as they were decoded. */
  function Storing(p: Plan, sc: Workspace.Scan, zss: seq<seq<Progressive.Block>>): (r: Workspace.Scan)
    requires p.Ok() && sc.For(p)
  {
    var w := Workspace.UnitsX(p, sc);
    Workspace.Scan(sc.comps, (my: nat, mx: nat) => At(my, w, mx) < |zss|, (b: Id) => if p.Ok() && sc.For(p) then Found(p, sc, zss, b) else InRows(Sequential.Zeros()))
  }

  /** What the loops over units and blocks leave: the blocks the stream holds, in order,
      at their places. */
  ghost predicate Stored(before: seq<Byte>, after: seq<Byte>, p: Plan, sc: Workspace.Scan, zss: seq<seq<Progressive.Block>>, qts: seq<Blocks.Quant>, g: Idct.Config)
    requires p.Ok() && sc.For(p) && |before| == |after| == p.Total() && |qts| == p.N() && g.Valid()
  {
    var st := Storing(p, sc, zss);
    Workspace.Wrote(before, after, p, st.block, qts, g, Workspace.Visited(p, st, Workspace.UnitsY(p, st), 0))
  }

  /** Decodes a sequential scan from the reader into the memory. */
  method DecodeScan(d: Workspace.Decoder, b: Reader, sc: Workspace.Scan, dts: seq<Table>, ats: seq<Table>, ghost ts: seq<Sequential.Tables>, qts: seq<Blocks.Quant>, g: Idct.Config)
    returns (ghost zss: seq<seq<Progressive.Block>>)
    requires d.Valid() && sc.For(d.p) && Sequential.Loaded(dts, ats, ts) && Sequential.Formed(ts) && |ts| == |sc.comps|
    requires b.Valid() && |qts| == d.p.N() && g.Valid()
    modifies b, d.ws
    ensures d.Valid() && b.Valid()
    ensures (zss, b.View())
      == Sequential.SeqScan(ts, old(b.View()), Pattern(d.p, sc, |sc.comps|), seq(|ts|, _ => 0), UnitCount(d.p, sc))
    ensures Stored(old(d.ws[..]), d.ws[..], d.p, sc, zss, qts, g)
  {
    hide Sequential.SeqScan, Sequential.Loaded, Sequential.Formed, UnitCount, Workspace.UnitsX, Workspace.UnitsY, Workspace.Wrote, Workspace.Visited, Component;
    var units := Sequential.RunSeqScan(b, dts, ats, ts, Pattern(d.p, sc, |sc.comps|), UnitCount(d.p, sc));
    zss := units;
    d.RunScan(Storing(d.p, sc, units), qts, g);
  }

  /** From the coder's blocks to the memory: what is packed, stuffed and ended by a marker
      is decoded so that every real block of the scan's components holds, or shows, the
      coder's coefficients. */
  method CodedToMemory(d: Workspace.Decoder, sc: Workspace.Scan, x: Id -> Coded, pre: seq<Byte>, m: Byte, post: seq<Byte>, ghost bits: seq<bool>, data: seq<Byte>, dts: seq<Table>, ats: seq<Table>, ghost ts: seq<Sequential.Tables>, qts: seq<Blocks.Quant>, g: Idct.Config)
    requires d.Valid() && sc.For(d.p) && Sequential.Loaded(dts, ats, ts) && Sequential.Formed(ts) && |ts| == |sc.comps|
    requires |qts| == d.p.N() && g.Valid() && m != 0 && m != 0xFF
    requires Sequential.ScanCodable(ts, Pattern(d.p, sc, |sc.comps|), Listed(d.p, sc, x), seq(|ts|, _ => 0))
    requires bits == Sequential.ScanBits(ts, Pattern(d.p, sc, |sc.comps|), Listed(d.p, sc, x), seq(|ts|, _ => 0))
    requires data == pre + Segment(bits, m) + post
    modifies d.ws
    ensures d.Valid()
    ensures forall b: Id :: b.Real(d.p) && b.i in sc.comps ==> Restored(d.ws[..], d.p, b, x(b), qts, g)
  {
    hide Sequential.SeqScan, Sequential.Loaded, Sequential.Formed, Sequential.ScanCodable, Sequential.ScanBits;
    hide Listed, Segment, Stored, Component, Workspace.UnitsX, Workspace.UnitsY, Restored;
    SegmentBack(pre, bits, m, post);
    var b := new Reader(data, |pre|);
    ghost var before := d.ws[..];
    ghost var zss := DecodeScan(d, b, sc, dts, ats, ts, qts, g);
    ListedSize(d.p, sc, x);
    Sequential.SequentialScan(ts, Pattern(d.p, sc, |sc.comps|), Listed(d.p, sc, x), seq(|ts|, _ => 0), Filler(|bits|));
    assert zss == Listed(d.p, sc, x);
    forall c: Id | c.Real(d.p) && c.i in sc.comps ensures Restored(d.ws[..], d.p, c, x(c), qts, g) {
      StoredBack(before, d.ws[..], d.p, sc, x, qts, g, c);
    }
  }

  /** Block `b` in memory is `z`: its coefficients, or its samples in the window. */
  ghost predicate Restored(ws: seq<Byte>, p: Plan, b: Id, z: Coded, qts: seq<Blocks.Quant>, g: Idct.Config)
    requires p.Ok() && b.Real(p) && |ws| == p.Total() && |qts| == p.N() && g.Valid()
  {
    RealPadded(p, b);
    if p.buffered then Progressive.Zig(Blocks.Coefs(ws, p, b)) == z
    else Blocks.ShowsBlock(ws, p, b, InRows(z), qts[b.i], g)
  }

  lemma ListedSize(p: Plan, sc: Workspace.Scan, x: Id -> Coded)
    requires p.Ok() && sc.For(p)
    ensures |Listed(p, sc, x)| == UnitCount(p, sc) == Workspace.UnitsX(p, sc) * Workspace.UnitsY(p, sc)
  {
    hide Workspace.UnitsX, Workspace.UnitsY;
  }

  lemma StoredBack(before: seq<Byte>, after: seq<Byte>, p: Plan, sc: Workspace.Scan, x: Id -> Coded, qts: seq<Blocks.Quant>, g: Idct.Config, b: Id)
    requires p.Ok() && sc.For(p) && |before| == |after| == p.Total() && |qts| == p.N() && g.Valid()
    requires Stored(before, after, p, sc, Listed(p, sc, x), qts, g) && b.Real(p) && b.i in sc.comps
    ensures Restored(after, p, b, x(b), qts, g)
  {
    hide Component, Found, InRows, Listed, Blocks.Coefs, Blocks.ShowsBlock, Plan.Total;
    var zss := Listed(p, sc, x);
    var st := Storing(p, sc, zss);
    RealPadded(p, b);
    Workspace.InUnits(p, sc, b);
    SameUnits(p, sc, zss);
    ListedSize(p, sc, x);
    InPlane(b.col / Workspace.Across(p, sc, b.i), b.row / Workspace.Down(p, sc, b.i), Workspace.UnitsX(p, sc), Workspace.UnitsY(p, sc));
    FoundListed(p, sc, x, b);
    ZigRows(x(b));
    assert b in Workspace.Visited(p, st, Workspace.UnitsY(p, st), 0);
    assert st.block(b) == InRows(x(b));
  }

  lemma SameUnits(p: Plan, sc: Workspace.Scan, zss: seq<seq<Progressive.Block>>)
    requires p.Ok() && sc.For(p)
    ensures var st := Storing(p, sc, zss);
      && Workspace.UnitsX(p, st) == Workspace.UnitsX(p, sc) && Workspace.UnitsY(p, st) == Workspace.UnitsY(p, sc)
      && (forall i :: 0 <= i < p.N() ==> Workspace.Across(p, st, i) == Workspace.Across(p, sc, i) && Workspace.Down(p, st, i) == Workspace.Down(p, sc, i))
  {
    hide Component, CeilDiv;
  }
}
