/** The JPEG decoder's memory at work: frame setup carves one block of memory, scans
    fill coefficients or planes, finishing turns coefficients into samples, and output
    enlarges component rows. Every access stays in its slice, so the guard bytes at
    the end survive every run. */
module Workspace {
  import opened Grid
  import opened Geometry
  import opened Layout
  import opened Blocks
  import Upsample
  import Enlarge
  import Idct

  /** The guard value 0x4A50454743414E41 as it lies in memory. */
  const GUARD: seq<Byte> := [0x41, 0x4E, 0x41, 0x43, 0x47, 0x45, 0x50, 0x4A]

  /** What one scan brings: the components it codes, which minimum coded units still
      have data, and the coefficients every block has afterwards. */
  datatype Scan = Scan(comps: seq<nat>, live: (nat, nat) -> bool, block: Id -> Block)
  {
    /** A scan of a frame of `n` components; without coefficient memory it codes all. */
    predicate Suits(n: nat, buffered: bool)
    {
      && 1 <= |comps| <= n && (forall j :: 0 <= j < |comps| ==> comps[j] < n)
      && (forall j, k :: 0 <= j < k < |comps| ==> comps[j] != comps[k])
      && (!buffered ==> |comps| == n)
    }

    predicate For(p: Plan)
      requires p.Ok()
    {
      Suits(p.N(), p.buffered)
    }
  }

  /** A scan of one component takes its blocks one by one. */
  function Across(p: Plan, sc: Scan, i: nat): (n: nat)
    requires p.Ok() && i < p.N()
    ensures n > 0
  {
    hide CeilDiv, ScaledSize, Mode;
    Measured(p, i);
    if |sc.comps| == 1 then 1 else p.C(i).h
  }

  function Down(p: Plan, sc: Scan, i: nat): (n: nat)
    requires p.Ok() && i < p.N()
    ensures n > 0
  {
    hide CeilDiv, ScaledSize, Mode;
    Measured(p, i);
    if |sc.comps| == 1 then 1 else p.C(i).v
  }

  function UnitsX(p: Plan, sc: Scan): nat
    requires p.Ok() && sc.For(p)
  {
    if |sc.comps| == 1 then p.C(sc.comps[0]).wblocks else p.f.McuX()
  }

  function UnitsY(p: Plan, sc: Scan): nat
    requires p.Ok() && sc.For(p)
  {
    if |sc.comps| == 1 then p.C(sc.comps[0]).hblocks else p.f.McuY()
  }

  /** The blocks the memory has room for: all coefficients, or the real samples. */
  ghost predicate Stored(p: Plan, b: Id)
    requires p.Ok()
  {
    if p.buffered then b.Padded(p) else b.Real(p)
  }

  /** Block `b` in memory has been given the coefficients `blk`. */
  ghost predicate Given(ws: seq<Byte>, p: Plan, b: Id, blk: Block, qts: seq<Quant>, g: Idct.Config)
    requires p.Ok() && Stored(p, b) && |ws| == p.Total() && |qts| == p.N() && g.Valid()
  {
    if p.buffered then Coefs(ws, p, b) == blk else ShowsBlock(ws, p, b, blk, qts[b.i], g)
  }

  ghost predicate SameStored(ws: seq<Byte>, ws': seq<Byte>, p: Plan, b: Id)
    requires p.Ok() && Stored(p, b) && |ws| == |ws'| == p.Total()
  {
    if p.buffered then Coefs(ws', p, b) == Coefs(ws, p, b) else SameWindow(ws, ws', p, b)
  }

  /** Exactly the blocks in `ids` have been given theirs. */
  ghost predicate Wrote(before: seq<Byte>, after: seq<Byte>, p: Plan, block: Id -> Block, qts: seq<Quant>, g: Idct.Config, ids: iset<Id>)
    requires p.Ok() && |before| == |after| == p.Total() && |qts| == p.N() && g.Valid()
  {
    && Kept(before, after, 0, p.Planes())
    && forall b: Id :: Stored(p, b) ==>
         if b in ids then Given(after, p, b, block(b), qts, g) else SameStored(before, after, p, b)
  }

  lemma WroteNone(ws: seq<Byte>, p: Plan, block: Id -> Block, qts: seq<Quant>, g: Idct.Config)
    requires p.Ok() && |ws| == p.Total() && |qts| == p.N() && g.Valid()
    ensures Wrote(ws, ws, p, block, qts, g, iset{})
  {
    hide Coefs, Plan.Total, Component;
  }

  /** Giving one more block its coefficients. */
  lemma WroteOne(start: seq<Byte>, before: seq<Byte>, after: seq<Byte>, p: Plan, block: Id -> Block, qts: seq<Quant>, g: Idct.Config, ids: iset<Id>, a: Id)
    requires p.Ok() && |start| == |before| == |after| == p.Total() && |qts| == p.N() && g.Valid()
    requires Wrote(start, before, p, block, qts, g, ids) && Stored(p, a)
    requires Given(after, p, a, block(a), qts, g) && Kept(before, after, 0, p.Planes())
    requires forall b: Id :: b != a && Stored(p, b) ==> SameStored(before, after, p, b)
    ensures Wrote(start, after, p, block, qts, g, ids + iset{a})
  {
    hide Stored, Given, SameStored, Plan.Total, Plan.Planes;
    KeptThen(start, before, after, 0, p.Planes(), 0, p.Planes());
    forall b: Id | Stored(p, b)
      ensures if b in ids + iset{a} then Given(after, p, b, block(b), qts, g) else SameStored(start, after, p, b)
    {
      if b != a {
        assert SameStored(before, after, p, b);
        StoredThen(start, before, after, p, b, block(b), qts, g);
      }
    }
  }

  lemma StoredThen(start: seq<Byte>, before: seq<Byte>, after: seq<Byte>, p: Plan, b: Id, blk: Block, qts: seq<Quant>, g: Idct.Config)
    requires p.Ok() && |start| == |before| == |after| == p.Total() && |qts| == p.N() && g.Valid()
    requires Stored(p, b) && SameStored(before, after, p, b)
    ensures Given(before, p, b, blk, qts, g) ==> Given(after, p, b, blk, qts, g)
    ensures SameStored(start, before, p, b) ==> SameStored(start, after, p, b)
  {
    hide Coefs, Plan.Total, Component, SampleOf, Pixel;
  }

  /** A block outside the memory changes nothing. */
  lemma WroteAbsent(start: seq<Byte>, after: seq<Byte>, p: Plan, block: Id -> Block, qts: seq<Quant>, g: Idct.Config, ids: iset<Id>, a: Id)
    requires p.Ok() && |start| == |after| == p.Total() && |qts| == p.N() && g.Valid()
    requires Wrote(start, after, p, block, qts, g, ids) && !Stored(p, a)
    ensures Wrote(start, after, p, block, qts, g, ids + iset{a})
  {
    hide Stored, Given, SameStored, Plan.Total, Plan.Planes;
  }

  // ---- what a scan visits ---------------------------------------------------------------

  /** The blocks of component `i` in the minimum coded unit (my, mx). */
  ghost function Unit(p: Plan, sc: Scan, i: nat, my: nat, mx: nat): (ids: iset<Id>)
    requires p.Ok() && i < p.N()
  {
    iset b: Id | b.i == i && b.row / Down(p, sc, i) == my && b.col / Across(p, sc, i) == mx
  }

  /** The blocks of all components of the scan in that unit, the first `n` only. */
  ghost function Units(p: Plan, sc: Scan, n: nat, my: nat, mx: nat): (ids: iset<Id>)
    requires p.Ok() && sc.For(p) && n <= |sc.comps|
  {
    iset b: Id | b.i in sc.comps[..n] && b.i < p.N() && b in Unit(p, sc, b.i, my, mx)
  }

  /** The blocks of the live units in the rows above `my`, and in row `my` left of `mx`. */
  ghost function Visited(p: Plan, sc: Scan, my: nat, mx: nat): (ids: iset<Id>)
    requires p.Ok() && sc.For(p)
  {
    iset b: Id | b.i in sc.comps && b.i < p.N() && Reached(p, sc, b, my, mx)
  }

  ghost predicate Reached(p: Plan, sc: Scan, b: Id, my: nat, mx: nat)
    requires p.Ok() && sc.For(p) && b.i < p.N()
  {
    var y, x := b.row / Down(p, sc, b.i), b.col / Across(p, sc, b.i);
    x < UnitsX(p, sc) && (y < my || (y == my && x < mx)) && sc.live(y, x)
  }

  /** A scan with data to its end reaches every real block of its components. */
  lemma ReachesAll(p: Plan, sc: Scan, b: Id)
    requires p.Ok() && sc.For(p) && b.Real(p) && b.i in sc.comps && forall y, x :: sc.live(y, x)
    ensures b in Visited(p, sc, UnitsY(p, sc), 0)
  {
    hide Component, Across, Down, UnitsX, UnitsY;
    RealPadded(p, b);
    InUnits(p, sc, b);
  }

  lemma InUnits(p: Plan, sc: Scan, b: Id)
    requires p.Ok() && sc.For(p) && b.Real(p) && b.Padded(p) && b.i in sc.comps
    ensures b.row / Down(p, sc, b.i) < UnitsY(p, sc) && b.col / Across(p, sc, b.i) < UnitsX(p, sc)
  {
    hide CeilDiv, ScaledSize, Mode;
    Measured(p, b.i);
    if |sc.comps| > 1 {
      var c := p.C(b.i);
      Upsample.Quotient(b.row, c.v, p.f.McuY());
      Upsample.Quotient(b.col, c.h, p.f.McuX());
    } else {
      assert b.row / 1 == b.row && b.col / 1 == b.col;
    }
  }

  /** The block a scan decodes for the place (sy, sx) of a unit is inside the padded
      grid, whatever the data says. */
  lemma UnitPadded(p: Plan, sc: Scan, i: nat, my: nat, mx: nat, sy: nat, sx: nat)
    requires p.Ok() && sc.For(p) && i in sc.comps && i < p.N()
    requires my < UnitsY(p, sc) && mx < UnitsX(p, sc) && sy < Down(p, sc, i) && sx < Across(p, sc, i)
    ensures Id(i, my * Down(p, sc, i) + sy, mx * Across(p, sc, i) + sx).Padded(p)
  {
    hide CeilDiv, ScaledSize, Mode;
    Measured(p, i);
    var c := p.C(i);
    if |sc.comps| == 1 {
      assert i == sc.comps[0];
      RealPadded(p, Id(i, my, mx));
    } else {
      InPlane(sy, my, c.v, p.f.McuY());
      InPlane(sx, mx, c.h, p.f.McuX());
    }
  }

  // ---- the decoder ------------------------------------------------------------------------

  class Decoder {
    var p: Plan
    var ws: array<Byte>

    /** The memory fits the plan, and its guard bytes are intact. */
    ghost predicate Valid()
      reads this, ws
    {
      p.Ok() && ws.Length == p.Total() && ws[p.Total() - 8..] == GUARD
    }

    /** Takes the memory for a plan: planes grey, coefficients zero, guard in place. */
    constructor (p: Plan)
      requires p.Ok()
      ensures Valid() && this.p == p && fresh(ws) && Blank(ws[..], p, p.N())
    {
      this.p := p;
      ws := new Byte[p.Total()];
      new;
      hide Component, Plan.Total, Blank;
      BeyondPlanes(p);
      ClearSlices();
      ghost var last := ws[..];
      SetGuard();
      BlankKept(last, ws[..], p);
    }

    method ClearSlices()
      requires p.Ok() && ws.Length == p.Total()
      modifies ws
      ensures Blank(ws[..], p, p.N())
    {
      hide Component, Plan.Total, Plan.Planes, Start, Blank, Slice.Lo, Slice.Hi;
      BlankNone(ws[..], p);
      var i := 0;
      while i < p.N()
        invariant 0 <= i <= p.N() && Blank(ws[..], p, i)
      {
        ghost var before := ws[..];
        BelowRows(p, PlaneOf(i));
        FillBytes(ws, PlaneOf(i).Lo(p), PlaneOf(i).Hi(p), 128);
        ghost var middle := ws[..];
        if p.buffered {
          BelowRows(p, CoefOf(i));
          FillBytes(ws, CoefOf(i).Lo(p), CoefOf(i).Hi(p), 0);
        }
        BlankStep(before, middle, ws[..], p, i);
        i := i + 1;
      }
    }

    method SetGuard()
      requires p.Ok() && ws.Length == p.Total() >= 8
      modifies ws
      ensures Kept(old(ws[..]), ws[..], p.Total() - 8, p.Total()) && ws[p.Total() - 8..] == GUARD
    {
      hide Component, Plan.Total;
      var k := 0;
      while k < 8
        invariant 0 <= k <= 8 && Kept(old(ws[..]), ws[..], p.Total() - 8, p.Total())
        invariant forall j :: 0 <= j < k ==> ws[p.Total() - 8 + j] == GUARD[j]
      {
        ws[p.Total() - 8 + k] := GUARD[k];
        k := k + 1;
      }
    }

    /** Gives the memory back and says whether the guard is still in place: it always is. */
    method Close() returns (intact: bool)
      requires Valid()
      ensures intact
    {
      intact := true;
      var k := 0;
      while k < 8
        invariant 0 <= k <= 8 && intact
      {
        assert ws[p.Total() - 8..][k] == GUARD[k];
        if ws[p.Total() - 8 + k] != GUARD[k] {
          intact := false;
        }
        k := k + 1;
      }
    }

    /** Sets or skips one block. */
    method PutCell(b: Id, ghost block: Id -> Block, blk: Block, qts: seq<Quant>, g: Idct.Config, ghost start: seq<Byte>, ghost ids: iset<Id>)
      requires Valid() && b.Padded(p) && |qts| == p.N() && g.Valid() && blk == block(b)
      requires |start| == p.Total() && Wrote(start, ws[..], p, block, qts, g, ids)
      modifies ws
      ensures Valid() && Wrote(start, ws[..], p, block, qts, g, ids + iset{b})
    {
      hide Wrote, Coefs, Plan.Total, Plan.Planes, Component, SampleOf, ShowsBlock, OnlyWindow, BlockAt;
      ghost var before := ws[..];
      if p.buffered {
        StoreBlock(p, ws, b, blk);
        BlockSlice(p, b);
        forall a: Id | a != b && Stored(p, a) ensures SameStored(before, ws[..], p, a) {
          BlocksApart(p, a, b);
          OtherBlock(before, ws[..], p, a, BlockAt(p, b), BlockAt(p, b) + 128);
        }
        GuardKept(before, ws[..], p);
        WroteOne(start, before, ws[..], p, block, qts, g, ids, b);
      } else if b.row < p.C(b.i).hblocks && b.col < p.C(b.i).wblocks {
        PutBlock(p, ws, b, blk, qts[b.i], g);
        WindowKept(before, ws[..], p, b);
        BelowRows(p, PlaneOf(b.i));
        forall a: Id | a != b && Stored(p, a) ensures SameStored(before, ws[..], p, a) {
          OtherWindow(before, ws[..], p, b, a);
        }
        GuardKept(before, ws[..], p);
        WroteOne(start, before, ws[..], p, block, qts, g, ids, b);
      } else {
        WroteAbsent(start, ws[..], p, block, qts, g, ids, b);
      }
    }

    /** Sets the blocks of component `i` in one unit. */
    method PutUnit(sc: Scan, i: nat, my: nat, mx: nat, qts: seq<Quant>, g: Idct.Config, ghost start: seq<Byte>, ghost ids: iset<Id>)
      requires Valid() && sc.For(p) && i in sc.comps && i < p.N() && |qts| == p.N() && g.Valid()
      requires my < UnitsY(p, sc) && mx < UnitsX(p, sc)
      requires |start| == p.Total() && Wrote(start, ws[..], p, sc.block, qts, g, ids)
      modifies ws
      ensures Valid() && Wrote(start, ws[..], p, sc.block, qts, g, ids + Unit(p, sc, i, my, mx))
    {
      hide Wrote, Plan.Total, Component, UnitsX, UnitsY, Across, Down;
      var nv, nh := Down(p, sc, i), Across(p, sc, i);
      var row0, col0 := my * nv, mx * nh;
      ghost var now := ids;
      var sy := 0;
      while sy < nv
        invariant 0 <= sy <= nv && Valid() && now == ids + Part(i, row0, col0, nh, sy, 0)
        invariant Wrote(start, ws[..], p, sc.block, qts, g, now)
      {
        var sx := 0;
        while sx < nh
          invariant 0 <= sx <= nh && Valid() && now == ids + Part(i, row0, col0, nh, sy, sx)
          invariant Wrote(start, ws[..], p, sc.block, qts, g, now)
        {
          UnitPadded(p, sc, i, my, mx, sy, sx);
          var b := Id(i, row0 + sy, col0 + sx);
          PutCell(b, sc.block, sc.block(b), qts, g, start, now);
          now := now + iset{b};
          sx := sx + 1;
        }
        sy := sy + 1;
      }
      UnitIsPart(p, sc, i, my, mx);
    }

    /** Decodes one unit: all components of the scan. */
    method PutUnits(sc: Scan, my: nat, mx: nat, qts: seq<Quant>, g: Idct.Config, ghost start: seq<Byte>, ghost ids: iset<Id>)
      requires Valid() && sc.For(p) && |qts| == p.N() && g.Valid()
      requires my < UnitsY(p, sc) && mx < UnitsX(p, sc)
      requires |start| == p.Total() && Wrote(start, ws[..], p, sc.block, qts, g, ids)
      modifies ws
      ensures Valid() && Wrote(start, ws[..], p, sc.block, qts, g, ids + Units(p, sc, |sc.comps|, my, mx))
    {
      hide Wrote, Plan.Total, Component, UnitsX, UnitsY, Across, Down, Unit;
      ghost var now := ids;
      var j := 0;
      while j < |sc.comps|
        invariant 0 <= j <= |sc.comps| && Valid() && now == ids + Units(p, sc, j, my, mx)
        invariant Wrote(start, ws[..], p, sc.block, qts, g, now)
      {
        PutUnit(sc, sc.comps[j], my, mx, qts, g, start, now);
        now := now + Unit(p, sc, sc.comps[j], my, mx);
        UnitsStep(p, sc, j, my, mx);
        j := j + 1;
      }
    }

    /** Runs one scan: every block of a unit that still has data gets its coefficients,
        and no other block changes. */
    method RunScan(sc: Scan, qts: seq<Quant>, g: Idct.Config)
      requires Valid() && sc.For(p) && |qts| == p.N() && g.Valid()
      modifies ws
      ensures Valid()
      ensures Wrote(old(ws[..]), ws[..], p, sc.block, qts, g, Visited(p, sc, UnitsY(p, sc), 0))
    {
      hide Wrote, Plan.Total, Component, UnitsX, UnitsY, Across, Down, Unit, Units, Visited;
      ghost var start := ws[..];
      WroteNone(start, p, sc.block, qts, g);
      VisitedNone(p, sc);
      var my := 0;
      while my < UnitsY(p, sc)
        invariant 0 <= my <= UnitsY(p, sc) && Valid()
        invariant Wrote(start, ws[..], p, sc.block, qts, g, Visited(p, sc, my, 0))
      {
        var mx := 0;
        while mx < UnitsX(p, sc)
          invariant 0 <= mx <= UnitsX(p, sc) && Valid()
          invariant Wrote(start, ws[..], p, sc.block, qts, g, Visited(p, sc, my, mx))
        {
          VisitedStep(p, sc, my, mx);
          if sc.live(my, mx) {
            PutUnits(sc, my, mx, qts, g, start, Visited(p, sc, my, mx));
          }
          mx := mx + 1;
        }
        VisitedRow(p, sc, my);
        my := my + 1;
      }
    }

    /** Turns all coefficients into samples: afterwards every real block's window shows
        its coefficients. */
    method Finish(qts: seq<Quant>, g: Idct.Config)
      requires Valid() && p.buffered && |qts| == p.N() && g.Valid()
      modifies ws
      ensures Valid() && Finished(old(ws[..]), ws[..], p, qts, g, Upto(p, p.N(), 0, 0))
      ensures forall b: Id :: b.Real(p) ==> b in Upto(p, p.N(), 0, 0)
    {
      forall b: Id | b.Real(p) ensures b in Upto(p, p.N(), 0, 0) { UptoAll(p, b); }
      hide Finished, Plan.Total, Component, Upto, OnlyWindow, ShowsBlock, Coefs;
      ghost var start := ws[..];
      FinishedNone(start, p, qts, g);
      var i := 0;
      while i < p.N()
        invariant 0 <= i <= p.N() && Valid() && Finished(start, ws[..], p, qts, g, Upto(p, i, 0, 0))
      {
        var row := 0;
        while row < p.C(i).hblocks
          invariant 0 <= row <= p.C(i).hblocks && Valid() && Finished(start, ws[..], p, qts, g, Upto(p, i, row, 0))
        {
          var col := 0;
          while col < p.C(i).wblocks
            invariant 0 <= col <= p.C(i).wblocks && Valid() && Finished(start, ws[..], p, qts, g, Upto(p, i, row, col))
          {
            FinishBlock(Id(i, row, col), qts, g, start, Upto(p, i, row, col));
            UptoStep(p, i, row, col);
            col := col + 1;
          }
          UptoNext(p, i, row);
          row := row + 1;
        }
        UptoNext(p, i, row);
        i := i + 1;
      }
    }

    /** Makes picture row `y` of component `i` readable at `at`: in the plane itself, or
        enlarged in the component's buffer. */
    method EnlargeRow(i: nat, y: nat) returns (at: nat)
      requires Valid() && i < p.N() && y < p.f.Sh()
      modifies ws
      ensures Valid() && Kept(old(ws[..]), ws[..], p.RowAt(i), p.RowAt(i) + (p.Ubw() - 32))
      ensures ReadsRow(ws[..], p, i, at, Shown(old(ws[..]), p, i, y))
    {
      hide Component, Plan.Total, Plan.RowAt, Enlarge.Sane, Enlarge.Enlarged, Upsample.Filled, Start;
      SaneComp(p, i);
      RowExists(p, i, y);
      ShownCovers(ws[..], p, i, y);
      var c, sh := p.C(i), p.f.Sh();
      var a := Upsample.Clamp(Enlarge.MainRow(c, y, sh), c.dh);
      var b := Upsample.Clamp(Enlarge.OtherRow(c, y, sh), c.dh);
      RowInside(p, i, a);
      RowInside(p, i, b);
      BufferInside(p, i);
      at := SampleAt(p, i, a, 0);
      ghost var before := ws[..];
      if c.up.Full? {
        FullShown(ws[..], p, i, y);
      } else {
        at := p.RowAt(i);
        assert before[SampleAt(p, i, a, 0)..SampleAt(p, i, a, 0) + c.dw] == PlaneRow(before, p, i, a);
        assert before[SampleAt(p, i, b, 0)..SampleAt(p, i, b, 0) + c.dw] == PlaneRow(before, p, i, b);
        Enlarge.EnlargeInto(ws, c, p.f.Sw(), SampleAt(p, i, a, 0), SampleAt(p, i, b, 0), y % 2 == 1, at);
        FilledShown(before, ws[..], p, i, at, Shown(before, p, i, y));
        GuardAbove(before, ws[..], p, at, at + (p.Ubw() - 32));
      }
    }

    /** Puts picture row `y` into the output line: every pixel is the colour of the
        components' samples there. The planes stay as they are. */
    method OutputRow(y: nat, colour: (Byte, Byte, Byte, Byte) -> Bgra)
      requires Valid() && y < p.f.Sh()
      modifies ws
      ensures Valid() && Kept(old(ws[..]), ws[..], p.Planes(), p.LineAt() + 4 * p.f.Sw())
      ensures LineShows(old(ws[..]), ws[..], p, y, colour, p.f.Sw())
    {
      hide Component, Plan.Total, Plan.RowAt, Plan.Planes, Plan.Ubw, ReadsRow, Shown, LineShows, Start;
      ghost var start := ws[..];
      var at: seq<nat> := [];
      Rising(p, 0, p.N());
      while |at| < p.N()
        invariant |at| <= p.N() && Valid() && Kept(start, ws[..], p.Planes(), p.LineAt())
        invariant forall j :: 0 <= j < |at| ==> ReadsRow(ws[..], p, j, at[j], Shown(start, p, j, y))
        decreases p.N() - |at|
      {
        var i := |at|;
        ghost var before := ws[..];
        BufferInside(p, i);
        ShownKept(start, before, p, i, y, p.LineAt());
        var a := EnlargeRow(i, y);
        forall j | 0 <= j < i ensures ReadsRow(ws[..], p, j, at[j], Shown(start, p, j, y)) {
          ReadsStill(before, ws[..], p, j, at[j], Shown(start, p, j, y), i);
        }
        KeptThen(start, before, ws[..], p.Planes(), p.LineAt(), p.RowAt(i), p.RowAt(i) + (p.Ubw() - 32));
        at := at + [a];
      }
      PutLine(y, at, colour, start);
    }

    /** The colour conversion of one row. */
    method PutLine(y: nat, at: seq<nat>, colour: (Byte, Byte, Byte, Byte) -> Bgra, ghost start: seq<Byte>)
      requires Valid() && y < p.f.Sh() && |at| == p.N() && |start| == p.Total()
      requires Kept(start, ws[..], p.Planes(), p.LineAt())
      requires forall j :: 0 <= j < |at| ==> ReadsRow(ws[..], p, j, at[j], Shown(start, p, j, y))
      modifies ws
      ensures Valid() && Kept(start, ws[..], p.Planes(), p.LineAt() + 4 * p.f.Sw())
      ensures LineShows(start, ws[..], p, y, colour, p.f.Sw())
    {
      hide Component, Plan.Total, Plan.RowAt, Plan.Planes, Plan.Ubw, Plan.LineAt, ReadsRow, Shown, LineShows, Start, Kept;
      ghost var full := ws[..];
      LineRoom(p);
      LineNone(start, ws[..], p, y, colour);
      var x := 0;
      while x < p.f.Sw()
        invariant 0 <= x <= p.f.Sw() && Valid() && Kept(start, ws[..], p.Planes(), p.LineAt() + 4 * p.f.Sw())
        invariant Kept(full, ws[..], p.LineAt(), p.LineAt() + 4 * p.f.Sw())
        invariant LineShows(start, ws[..], p, y, colour, x)
      {
        var s0 := ReadSample(0, y, at, x, start, full);
        var s1 := ReadSample(1, y, at, x, start, full);
        var s2 := ReadSample(2, y, at, x, start, full);
        var s3 := ReadSample(3, y, at, x, start, full);
        PutPixel(x, y, colour(s0, s1, s2, s3), colour, start, full);
        x := x + 1;
      }
    }

    /** Sample `x` of component `k`, or of the first one where there is no such component. */
    method ReadSample(k: nat, y: nat, at: seq<nat>, x: nat, ghost start: seq<Byte>, ghost full: seq<Byte>) returns (s: Byte)
      requires Valid() && y < p.f.Sh() && |at| == p.N() && |start| == |full| == p.Total() && x < p.f.Sw()
      requires forall j :: 0 <= j < |at| ==> ReadsRow(full, p, j, at[j], Shown(start, p, j, y))
      requires Kept(full, ws[..], p.LineAt(), p.LineAt() + 4 * p.f.Sw())
      ensures s == SampleShown(start, p, k, y, x)
    {
      hide Component, Plan.Total, Plan.RowAt, Plan.Planes, Plan.LineAt, Shown, Start;
      var j := if k < p.N() then k else 0;
      ShownCovers(start, p, j, y);
      RowBelowLine(p, j, at[j], Shown(start, p, j, y), full);
      assert full[at[j]..at[j] + |Shown(start, p, j, y)|][x] == full[at[j] + x];
      s := ws[at[j] + x];
    }

    method PutPixel(x: nat, y: nat, c: Bgra, colour: (Byte, Byte, Byte, Byte) -> Bgra, ghost start: seq<Byte>, ghost full: seq<Byte>)
      requires Valid() && y < p.f.Sh() && x < p.f.Sw() && |start| == |full| == p.Total()
      requires LineShows(start, ws[..], p, y, colour, x) && c == PixelShown(start, p, y, x, colour)
      requires Kept(start, ws[..], p.Planes(), p.LineAt() + 4 * p.f.Sw()) && Kept(full, ws[..], p.LineAt(), p.LineAt() + 4 * p.f.Sw())
      modifies ws
      ensures Valid() && LineShows(start, ws[..], p, y, colour, x + 1)
      ensures Kept(start, ws[..], p.Planes(), p.LineAt() + 4 * p.f.Sw()) && Kept(full, ws[..], p.LineAt(), p.LineAt() + 4 * p.f.Sw())
    {
      hide Component, Plan.Total, Plan.Planes, Plan.LineAt, PixelShown, Start, LineShows, Kept, LinePixel;
      LineRoom(p);
      ghost var before := ws[..];
      var o := p.LineAt() + 4 * x;
      PutFour(ws, o, c);
      KeptThen(start, before, ws[..], p.Planes(), p.LineAt() + 4 * p.f.Sw(), o, o + 4);
      KeptThen(full, before, ws[..], p.LineAt(), p.LineAt() + 4 * p.f.Sw(), o, o + 4);
      GuardAbove(before, ws[..], p, o, o + 4);
      LineNext(start, before, ws[..], p, y, colour, x);
    }

    method FinishBlock(b: Id, qts: seq<Quant>, g: Idct.Config, ghost start: seq<Byte>, ghost ids: iset<Id>)
      requires Valid() && p.buffered && |qts| == p.N() && g.Valid() && b.Real(p)
      requires |start| == p.Total() && Finished(start, ws[..], p, qts, g, ids)
      modifies ws
      ensures Valid() && Finished(start, ws[..], p, qts, g, ids + iset{b})
    {
      hide Finished, Plan.Total, Plan.Planes, Component, OnlyWindow, ShowsBlock, Coefs;
      ghost var before := ws[..];
      RealPadded(p, b);
      var blk := LoadBlock(p, ws, b);
      PutBlock(p, ws, b, blk, qts[b.i], g);
      FinishedOne(start, before, ws[..], p, qts, g, ids, b);
      WindowKept(before, ws[..], p, b);
      BelowRows(p, PlaneOf(b.i));
      GuardKept(before, ws[..], p);
    }
  }

  method PutFour(ws: array<Byte>, o: nat, c: Bgra)
    requires o + 4 <= ws.Length
    modifies ws
    ensures Kept(old(ws[..]), ws[..], o, o + 4) && LinePixel(ws[..], o) == c
  {
    ws[o], ws[o + 1], ws[o + 2], ws[o + 3] := c.b, c.g, c.r, c.a;
  }

  // ---- fresh memory ---------------------------------------------------------------------------

  method FillBytes(ws: array<Byte>, lo: nat, hi: nat, v: Byte)
    requires lo <= hi <= ws.Length
    modifies ws
    ensures Kept(old(ws[..]), ws[..], lo, hi) && AllAre(ws[..], lo, hi, v)
  {
    var q := lo;
    while q < hi
      invariant lo <= q <= hi && Kept(old(ws[..]), ws[..], lo, hi) && AllAre(ws[..], lo, q, v)
    {
      ws[q] := v;
      q := q + 1;
    }
  }

  ghost predicate AllAre(ws: seq<Byte>, lo: nat, hi: nat, v: Byte)
  {
    hi <= |ws| && forall q :: lo <= q < hi ==> ws[q] == v
  }

  /** The planes of the first `n` components are grey and their coefficients zero. */
  ghost predicate Blank(ws: seq<Byte>, p: Plan, n: nat)
    requires p.Ok() && |ws| == p.Total() && n <= p.N()
  {
    forall i :: 0 <= i < n ==> BlankComp(ws, p, i)
  }

  ghost predicate BlankComp(ws: seq<Byte>, p: Plan, i: nat)
    requires p.Ok() && |ws| == p.Total() && i < p.N()
  {
    && AllAre(ws, PlaneOf(i).Lo(p), PlaneOf(i).Hi(p), 128)
    && (p.buffered ==> AllAre(ws, CoefOf(i).Lo(p), CoefOf(i).Hi(p), 0))
  }

  lemma BlankNone(ws: seq<Byte>, p: Plan)
    requires p.Ok() && |ws| == p.Total()
    ensures Blank(ws, p, 0)
  {
  }

  lemma BlankStep(before: seq<Byte>, middle: seq<Byte>, after: seq<Byte>, p: Plan, i: nat)
    requires p.Ok() && |before| == |middle| == |after| == p.Total() && i < p.N() && Blank(before, p, i)
    requires Kept(before, middle, PlaneOf(i).Lo(p), PlaneOf(i).Hi(p)) && AllAre(middle, PlaneOf(i).Lo(p), PlaneOf(i).Hi(p), 128)
    requires if p.buffered then Kept(middle, after, CoefOf(i).Lo(p), CoefOf(i).Hi(p)) && AllAre(after, CoefOf(i).Lo(p), CoefOf(i).Hi(p), 0) else after == middle
    ensures Blank(after, p, i + 1)
  {
    hide Component, Plan.Total, Slice.Lo, Slice.Hi;
    forall j | 0 <= j < i + 1 ensures BlankComp(after, p, j) {
      if j < i {
        assert BlankComp(before, p, j);
        Disjoint(p, PlaneOf(j), PlaneOf(i));
        if p.buffered {
          Disjoint(p, PlaneOf(j), CoefOf(i));
          Disjoint(p, CoefOf(j), PlaneOf(i));
          Disjoint(p, CoefOf(j), CoefOf(i));
        }
      } else if p.buffered {
        Disjoint(p, PlaneOf(i), CoefOf(i));
      }
    }
  }

  lemma BlankKept(before: seq<Byte>, after: seq<Byte>, p: Plan)
    requires p.Ok() && |before| == |after| == p.Total() >= 8 && Blank(before, p, p.N()) && Kept(before, after, p.Total() - 8, p.Total())
    ensures Blank(after, p, p.N())
  {
    hide Component, Plan.Total, Slice.Lo, Slice.Hi;
    forall j | 0 <= j < p.N() ensures BlankComp(after, p, j) {
      assert BlankComp(before, p, j);
      BelowRows(p, PlaneOf(j));
      if p.buffered { BelowRows(p, CoefOf(j)); }
    }
  }

  // ---- enlarging ----------------------------------------------------------------------------

  /** The real samples of plane row `r`. */
  ghost function PlaneRow(ws: seq<Byte>, p: Plan, i: nat, r: nat): (row: seq<Byte>)
    requires p.Ok() && i < p.N() && r < p.C(i).dh && |ws| == p.Total()
    ensures |row| == p.C(i).dw
  {
    RowInside(p, i, r);
    ws[SampleAt(p, i, r, 0)..SampleAt(p, i, r, 0) + p.C(i).dw]
  }

  lemma RowInside(p: Plan, i: nat, r: nat)
    requires p.Ok() && i < p.N() && r < p.C(i).dh
    ensures PlaneOf(i).Lo(p) <= SampleAt(p, i, r, 0) <= SampleAt(p, i, r, 0) + p.C(i).dw <= PlaneOf(i).Hi(p) <= p.Planes() <= p.Total()
  {
    hide Component, Start, Align16, Slice.Lo, Slice.Hi, Plan.PlaneAt, Plan.Planes, Plan.Total;
    Measured(p, i);
    Fits(p.f, p.samp[i]);
    SampleIn(p, i, r, 0);
    SampleIn(p, i, r, p.C(i).dw - 1);
    assert SampleAt(p, i, r, p.C(i).dw - 1) == SampleAt(p, i, r, 0) + (p.C(i).dw - 1);
    BelowRows(p, PlaneOf(i));
  }

  lemma SaneComp(p: Plan, i: nat)
    requires p.Ok() && i < p.N()
    ensures Enlarge.Sane(p.C(i)) && p.f.Sw() > 0 && p.f.Sh() > 0
  {
    hide Component;
    Measured(p, i);
    Fits(p.f, p.samp[i]);
    ModeExact(p.f, p.samp[i]);
    CeilUp(p.f.w, p.f.den);
    CeilUp(p.f.h, p.f.den);
  }

  /** The plane row for row number `r`, the first or last one when `r` lies outside. */
  ghost function Clamped(ws: seq<Byte>, p: Plan, i: nat, r: int): (row: seq<Byte>)
    requires p.Ok() && i < p.N() && |ws| == p.Total()
    ensures |row| == p.C(i).dw
  {
    hide Component, Plan.Total;
    SaneComp(p, i);
    PlaneRow(ws, p, i, Upsample.Clamp(r, p.C(i).dh))
  }

  /** Row `y` of the picture as component `i` shows it. */
  ghost function Shown(ws: seq<Byte>, p: Plan, i: nat, y: nat): (row: seq<Byte>)
    requires p.Ok() && i < p.N() && |ws| == p.Total()
  {
    hide Component, Plan.Total, Enlarge.Sane;
    SaneComp(p, i);
    var c, sh := p.C(i), p.f.Sh();
    Enlarge.Enlarged(c, p.f.Sw(), Clamped(ws, p, i, Enlarge.MainRow(c, y, sh)), Clamped(ws, p, i, Enlarge.OtherRow(c, y, sh)), y % 2 == 1)
  }

  /** An enlarged row covers the picture and fits its buffer. */
  lemma ShownCovers(ws: seq<Byte>, p: Plan, i: nat, y: nat)
    requires p.Ok() && i < p.N() && |ws| == p.Total()
    ensures p.f.Sw() <= |Shown(ws, p, i, y)|
    ensures !p.C(i).up.Full? ==> |Shown(ws, p, i, y)| == RowBytes(p.f, p.C(i)) <= p.Ubw() - 32
    ensures p.f.Sw() <= p.Ubw() - 32
  {
    hide Component, Clamped, CeilDiv, Plan.Total, Enlarge.Sane, Enlarge.MainRow, Enlarge.OtherRow;
    SaneComp(p, i);
    Measured(p, i);
    Covers(p.f, p.samp[i]);
    FullFactor(p, i);
    WidestCovers(p.f, p.Comps(), p.N(), i);
  }

  lemma FullFactor(p: Plan, i: nat)
    requires p.Ok() && i < p.N()
    ensures p.C(i).up.Full? ==> p.C(i).hexp == 1
  {
    hide Component;
    SaneComp(p, i);
  }

  /** The component row behind picture row `y` exists, so that clamping matters only to
      the neighbour of the first and the last row. */
  lemma RowExists(p: Plan, i: nat, y: nat)
    requires p.Ok() && i < p.N() && y < p.f.Sh() && Enlarge.Sane(p.C(i)) && p.f.Sh() > 0
    ensures Enlarge.MainRow(p.C(i), y, p.f.Sh()) < p.C(i).dh
  {
    hide Component, CeilDiv;
    var c, sh := p.C(i), p.f.Sh();
    Measured(p, i);
    Covers(p.f, p.samp[i]);
    if c.up.Nearest? {
      Upsample.NearIn(y, c.dh, sh);
    } else {
      Upsample.Quotient(y, c.vexp, c.dh);
    }
  }

  /** The row is in memory at `at`, in the component's plane or its buffer. */
  ghost predicate ReadsRow(ws: seq<Byte>, p: Plan, i: nat, at: nat, row: seq<Byte>)
    requires p.Ok() && i < p.N() && |ws| == p.Total()
  {
    && at + |row| <= |ws| && ws[at..at + |row|] == row
    && ((PlaneOf(i).Lo(p) <= at && at + |row| <= PlaneOf(i).Hi(p)) || (RowOf(i).Lo(p) <= at && at + |row| <= RowOf(i).Hi(p)))
  }

  lemma BufferInside(p: Plan, i: nat)
    requires p.Ok() && i < p.N()
    ensures p.Planes() <= p.RowAt(i) <= p.RowAt(i) + p.Ubw() <= p.LineAt() <= p.Total() - 16
    ensures RowOf(i).Lo(p) == p.RowAt(i) && RowOf(i).Hi(p) == p.RowAt(i) + p.Ubw()
  {
    hide Component, Start, Widest;
    Mono(p.Ubw(), i + 1, p.N());
    assert (i + 1) * p.Ubw() == i * p.Ubw() + p.Ubw();
  }

  lemma FullShown(ws: seq<Byte>, p: Plan, i: nat, y: nat)
    requires p.Ok() && i < p.N() && y < p.f.Sh() && |ws| == p.Total() && p.C(i).up.Full?
    requires Enlarge.Sane(p.C(i)) && p.f.Sh() > 0
    ensures ReadsRow(ws, p, i, SampleAt(p, i, Upsample.Clamp(Enlarge.MainRow(p.C(i), y, p.f.Sh()), p.C(i).dh), 0), Shown(ws, p, i, y))
  {
    hide Component, Plan.Total, SampleAt, Slice.Lo, Slice.Hi, Enlarge.MainRow;
    RowInside(p, i, Upsample.Clamp(Enlarge.MainRow(p.C(i), y, p.f.Sh()), p.C(i).dh));
  }

  lemma FilledShown(before: seq<Byte>, after: seq<Byte>, p: Plan, i: nat, at: nat, row: seq<Byte>)
    requires p.Ok() && i < p.N() && |before| == p.Total() && at == p.RowAt(i) && |row| <= p.Ubw() - 32
    requires Upsample.Filled(before, after, row, at, |row|)
    ensures ReadsRow(after, p, i, at, row) && Kept(before, after, at, at + (p.Ubw() - 32))
  {
    hide Component, Plan.Total, Plan.RowAt, Start;
    BufferInside(p, i);
    Upsample.FilledAll(before, after, row, at);
  }

  datatype Bgra = Bgra(b: Byte, g: Byte, r: Byte, a: Byte)

  ghost function SampleShown(ws: seq<Byte>, p: Plan, k: nat, y: nat, x: nat): (s: Byte)
    requires p.Ok() && |ws| == p.Total() && x < p.f.Sw()
  {
    hide Component, Plan.Total, Shown;
    var j := if k < p.N() then k else 0;
    ShownCovers(ws, p, j, y);
    Shown(ws, p, j, y)[x]
  }

  ghost function PixelShown(ws: seq<Byte>, p: Plan, y: nat, x: nat, colour: (Byte, Byte, Byte, Byte) -> Bgra): (c: Bgra)
    requires p.Ok() && |ws| == p.Total() && x < p.f.Sw()
  {
    colour(SampleShown(ws, p, 0, y, x), SampleShown(ws, p, 1, y, x), SampleShown(ws, p, 2, y, x), SampleShown(ws, p, 3, y, x))
  }

  /** The first `n` pixels of the line are those of picture row `y`. */
  ghost predicate LineShows(before: seq<Byte>, after: seq<Byte>, p: Plan, y: nat, colour: (Byte, Byte, Byte, Byte) -> Bgra, n: nat)
    requires p.Ok() && |before| == |after| == p.Total() && n <= p.f.Sw()
  {
    && p.LineAt() + 4 * p.f.Sw() <= p.Total()
    && forall x: nat :: x < n ==> LinePixel(after, p.LineAt() + 4 * x) == PixelShown(before, p, y, x, colour)
  }

  function LinePixel(ws: seq<Byte>, o: nat): Bgra
    requires o + 4 <= |ws|
  {
    Bgra(ws[o], ws[o + 1], ws[o + 2], ws[o + 3])
  }

  lemma LineRoom(p: Plan)
    requires p.Ok()
    ensures p.Planes() <= p.LineAt() <= p.LineAt() + 4 * p.f.Sw() <= p.Total() - 8
  {
    hide Component, Start, Widest;
    Mono(p.Ubw(), 0, p.N());
  }

  lemma LineNone(before: seq<Byte>, after: seq<Byte>, p: Plan, y: nat, colour: (Byte, Byte, Byte, Byte) -> Bgra)
    requires p.Ok() && |before| == |after| == p.Total() && Kept(before, after, p.Planes(), p.LineAt())
    ensures LineShows(before, after, p, y, colour, 0)
    ensures Kept(before, after, p.Planes(), p.LineAt() + 4 * p.f.Sw())
    ensures Kept(after, after, p.LineAt(), p.LineAt() + 4 * p.f.Sw())
  {
    hide Component, Plan.Total, Plan.LineAt, Plan.Planes, PixelShown;
    LineRoom(p);
  }

  lemma LineNext(start: seq<Byte>, before: seq<Byte>, after: seq<Byte>, p: Plan, y: nat, colour: (Byte, Byte, Byte, Byte) -> Bgra, x: nat)
    requires p.Ok() && |start| == |before| == |after| == p.Total() && x < p.f.Sw() && LineShows(start, before, p, y, colour, x)
    requires Kept(before, after, p.LineAt() + 4 * x, p.LineAt() + 4 * x + 4)
    requires LinePixel(after, p.LineAt() + 4 * x) == PixelShown(start, p, y, x, colour)
    ensures LineShows(start, after, p, y, colour, x + 1)
  {
    hide Component, Plan.Total, Plan.LineAt, PixelShown;
    var at := p.LineAt();
    forall u: nat | u < x + 1 ensures LinePixel(after, at + 4 * u) == PixelShown(start, p, y, u, colour) {
      if u < x { assert LinePixel(before, at + 4 * u) == PixelShown(start, p, y, u, colour); }
    }
  }

  /** Readable rows lie below the line. */
  lemma RowBelowLine(p: Plan, j: nat, at: nat, row: seq<Byte>, ws: seq<Byte>)
    requires p.Ok() && j < p.N() && |ws| == p.Total() && ReadsRow(ws, p, j, at, row)
    ensures at + |row| <= p.LineAt()
  {
    hide Component, Plan.Total, Plan.RowAt, Plan.LineAt, Start, Plan.PlaneAt;
    Apart(p, PlaneOf(j), LineSlice);
    Apart(p, RowOf(j), LineSlice);
    BufferInside(p, j);
  }

  lemma Rising(p: Plan, i: nat, j: nat)
    requires p.Ok() && i <= j <= p.N()
    ensures p.Planes() <= p.RowAt(i) <= p.RowAt(j) <= p.LineAt()
  {
    hide Component, Start, Widest;
    Mono(p.Ubw(), 0, i);
    Mono(p.Ubw(), i, j);
    Mono(p.Ubw(), j, p.N());
  }

  /** What is written above the planes does not change what a component shows. */
  lemma ShownKept(before: seq<Byte>, after: seq<Byte>, p: Plan, i: nat, y: nat, hi: nat)
    requires p.Ok() && i < p.N() && y < p.f.Sh() && |before| == |after| == p.Total() && Kept(before, after, p.Planes(), hi)
    ensures Shown(after, p, i, y) == Shown(before, p, i, y)
  {
    hide Component, Plan.Total, Plan.Planes, Enlarge.Sane, Enlarge.Enlarged, Clamped, Start;
    SaneComp(p, i);
    ClampedKept(before, after, p, i, Enlarge.MainRow(p.C(i), y, p.f.Sh()), hi);
    ClampedKept(before, after, p, i, Enlarge.OtherRow(p.C(i), y, p.f.Sh()), hi);
  }

  lemma ClampedKept(before: seq<Byte>, after: seq<Byte>, p: Plan, i: nat, r: int, hi: nat)
    requires p.Ok() && i < p.N() && |before| == |after| == p.Total() && Kept(before, after, p.Planes(), hi)
    ensures Clamped(after, p, i, r) == Clamped(before, p, i, r)
  {
    hide Component, Plan.Total, Plan.Planes, SampleAt, Start;
    SaneComp(p, i);
    var u := Upsample.Clamp(r, p.C(i).dh);
    RowInside(p, i, u);
    KeptSlice(before, after, p.Planes(), hi, SampleAt(p, i, u, 0), SampleAt(p, i, u, 0) + p.C(i).dw);
  }

  /** Filling one component's buffer leaves the rows of the others readable. */
  lemma ReadsStill(before: seq<Byte>, after: seq<Byte>, p: Plan, j: nat, at: nat, row: seq<Byte>, i: nat)
    requires p.Ok() && j < i < p.N() && |before| == |after| == p.Total() && ReadsRow(before, p, j, at, row)
    requires Kept(before, after, p.RowAt(i), p.RowAt(i) + (p.Ubw() - 32))
    ensures ReadsRow(after, p, j, at, row)
  {
    hide Component, Plan.Total, Plan.RowAt, Plan.Ubw, Start, Plan.PlaneAt;
    Apart(p, PlaneOf(j), RowOf(i));
    Apart(p, RowOf(j), RowOf(i));
    BufferInside(p, i);
    KeptSlice(before, after, p.RowAt(i), p.RowAt(i) + (p.Ubw() - 32), at, at + |row|);
  }

  /** Writes in the buffers and the line leave the guard alone. */
  lemma GuardAbove(before: seq<Byte>, after: seq<Byte>, p: Plan, lo: nat, hi: nat)
    requires p.Ok() && |before| == p.Total() && Kept(before, after, lo, hi) && hi <= p.Total() - 8
    requires before[p.Total() - 8..] == GUARD
    ensures after[p.Total() - 8..] == GUARD
  {
    hide Plan.Total, Component;
    KeptSlice(before, after, lo, hi, p.Total() - 8, p.Total());
    assert before[p.Total() - 8..] == before[p.Total() - 8..p.Total()];
    assert after[p.Total() - 8..] == after[p.Total() - 8..p.Total()];
  }

  // ---- finishing ----------------------------------------------------------------------------

  /** The windows of the blocks in `ids` show their coefficients; the coefficients and
      the other windows are as before. */
  ghost predicate Finished(before: seq<Byte>, after: seq<Byte>, p: Plan, qts: seq<Quant>, g: Idct.Config, ids: iset<Id>)
    requires p.Ok() && p.buffered && |before| == |after| == p.Total() && |qts| == p.N() && g.Valid()
  {
    && Kept(before, after, 0, p.Planes())
    && (forall b: Id :: b.Padded(p) ==> Coefs(after, p, b) == Coefs(before, p, b))
    && forall b: Id :: b.Real(p) ==> WindowDone(before, after, p, b, qts[b.i], g, b in ids)
  }

  ghost predicate WindowDone(before: seq<Byte>, after: seq<Byte>, p: Plan, b: Id, qt: Quant, g: Idct.Config, done: bool)
    requires p.Ok() && p.buffered && |before| == |after| == p.Total() && g.Valid() && b.Real(p)
  {
    RealPadded(p, b);
    if done then ShowsBlock(after, p, b, Coefs(before, p, b), qt, g) else SameWindow(before, after, p, b)
  }

  /** The real blocks of the components below `i`, and of component `i` those before
      (row, col). */
  ghost function Upto(p: Plan, i: nat, row: nat, col: nat): (ids: iset<Id>)
    requires p.Ok()
  {
    iset b: Id | b.Real(p) && (b.i < i || (b.i == i && (b.row < row || (b.row == row && b.col < col))))
  }

  lemma FinishedNone(ws: seq<Byte>, p: Plan, qts: seq<Quant>, g: Idct.Config)
    requires p.Ok() && p.buffered && |ws| == p.Total() && |qts| == p.N() && g.Valid()
    ensures Finished(ws, ws, p, qts, g, Upto(p, 0, 0, 0))
  {
    hide Coefs, Plan.Total, Component, SampleOf, ShowsBlock;
  }

  lemma FinishedOne(start: seq<Byte>, before: seq<Byte>, after: seq<Byte>, p: Plan, qts: seq<Quant>, g: Idct.Config, ids: iset<Id>, a: Id)
    requires p.Ok() && p.buffered && |start| == |before| == |after| == p.Total() && |qts| == p.N() && g.Valid()
    requires Finished(start, before, p, qts, g, ids) && a.Real(p) && a.Padded(p)
    requires ShowsBlock(after, p, a, Coefs(before, p, a), qts[a.i], g) && OnlyWindow(before, after, p, a)
    ensures Finished(start, after, p, qts, g, ids + iset{a})
  {
    hide Coefs, Plan.Total, Plan.Planes, Component, SameWindow, ShowsBlock, OnlyWindow;
    WindowKept(before, after, p, a);
    BelowRows(p, PlaneOf(a.i));
    KeptThen(start, before, after, 0, p.Planes(), PlaneOf(a.i).Lo(p), PlaneOf(a.i).Hi(p));
    forall b: Id | b.Padded(p) ensures Coefs(after, p, b) == Coefs(start, p, b) {
      BlockSlice(p, b);
      Disjoint(p, PlaneOf(a.i), CoefOf(b.i));
      OtherBlock(before, after, p, b, PlaneOf(a.i).Lo(p), PlaneOf(a.i).Hi(p));
    }
    forall b: Id | b.Real(p) ensures WindowDone(start, after, p, b, qts[b.i], g, b in ids + iset{a}) {
      RealPadded(p, b);
      assert WindowDone(start, before, p, b, qts[b.i], g, b in ids);
      if b != a {
        OtherWindow(before, after, p, a, b);
        WindowThen(start, before, after, p, b, Coefs(start, p, b), qts[b.i], g);
      }
    }
  }

  lemma WindowThen(start: seq<Byte>, before: seq<Byte>, after: seq<Byte>, p: Plan, b: Id, blk: Block, qt: Quant, g: Idct.Config)
    requires p.Ok() && b.Real(p) && |start| == |before| == |after| == p.Total() && g.Valid() && SameWindow(before, after, p, b)
    ensures ShowsBlock(before, p, b, blk, qt, g) ==> ShowsBlock(after, p, b, blk, qt, g)
    ensures SameWindow(start, before, p, b) ==> SameWindow(start, after, p, b)
  {
    hide Plan.Total, Component, SampleOf, Pixel;
  }

  lemma UptoStep(p: Plan, i: nat, row: nat, col: nat)
    requires p.Ok() && Id(i, row, col).Real(p)
    ensures Upto(p, i, row, col + 1) == Upto(p, i, row, col) + iset{Id(i, row, col)}
  {
    hide Component;
  }

  lemma UptoNext(p: Plan, i: nat, row: nat)
    requires p.Ok() && i < p.N()
    ensures Upto(p, i, row, p.C(i).wblocks) == Upto(p, i, row + 1, 0)
    ensures Upto(p, i, p.C(i).hblocks, 0) == Upto(p, i + 1, 0, 0)
  {
    hide Component;
  }

  lemma UptoAll(p: Plan, b: Id)
    requires p.Ok() && b.Real(p)
    ensures b in Upto(p, p.N(), 0, 0)
  {
  }

  /** Writes below the row buffers leave the guard alone. */
  lemma GuardKept(before: seq<Byte>, after: seq<Byte>, p: Plan)
    requires p.Ok() && |before| == p.Total() && Kept(before, after, 0, p.Planes())
    requires before[p.Total() - 8..] == GUARD
    ensures after[p.Total() - 8..] == GUARD
  {
    BeyondPlanes(p);
    hide Plan.Total, Plan.Planes, Component;
    KeptSlice(before, after, 0, p.Planes(), p.Total() - 8, p.Total());
    assert before[p.Total() - 8..] == before[p.Total() - 8..p.Total()];
    assert after[p.Total() - 8..] == after[p.Total() - 8..p.Total()];
  }

  lemma BeyondPlanes(p: Plan)
    requires p.Ok()
    ensures p.Planes() <= p.Total() - 8
  {
    hide Component, Start, Widest;
    Mono(p.Ubw(), 0, p.N());
  }

  // ---- the order of a scan ----------------------------------------------------------------

  /** `sy` full rows of `nh` blocks from (row0, col0), and `sx` blocks of the next row. */
  ghost function Part(i: nat, row0: nat, col0: nat, nh: nat, sy: nat, sx: nat): (ids: iset<Id>)
  {
    iset b: Id | b.i == i && ((row0 <= b.row < row0 + sy && col0 <= b.col < col0 + nh) || (b.row == row0 + sy && col0 <= b.col < col0 + sx))
  }

  lemma UnitIsPart(p: Plan, sc: Scan, i: nat, my: nat, mx: nat)
    requires p.Ok() && i < p.N()
    ensures Unit(p, sc, i, my, mx) == Part(i, my * Down(p, sc, i), mx * Across(p, sc, i), Across(p, sc, i), Down(p, sc, i), 0)
  {
    hide Component, Down, Across;
    var nv, nh := Down(p, sc, i), Across(p, sc, i);
    forall b: Id | b.i == i
      ensures b in Unit(p, sc, i, my, mx) <==> my * nv <= b.row < my * nv + nv && mx * nh <= b.col < mx * nh + nh
    {
      QuotientIs(b.row, nv, my);
      QuotientIs(b.col, nh, mx);
    }
  }

  lemma QuotientIs(r: nat, n: nat, m: nat)
    requires n > 0
    ensures r / n == m <==> m * n <= r < m * n + n
  {
    var q := r / n;
    assert q * n <= r < q * n + n;
    if q < m { Mono(n, q + 1, m); assert (q + 1) * n == q * n + n; }
    if q > m { Mono(n, m + 1, q); assert (m + 1) * n == m * n + n; }
  }

  lemma UnitsStep(p: Plan, sc: Scan, j: nat, my: nat, mx: nat)
    requires p.Ok() && sc.For(p) && j < |sc.comps|
    ensures Units(p, sc, j + 1, my, mx) == Units(p, sc, j, my, mx) + Unit(p, sc, sc.comps[j], my, mx)
  {
    hide Component, Down, Across;
    assert sc.comps[..j + 1] == sc.comps[..j] + [sc.comps[j]];
  }

  lemma VisitedNone(p: Plan, sc: Scan)
    requires p.Ok() && sc.For(p)
    ensures Visited(p, sc, 0, 0) == iset{}
  {
    hide Component, Down, Across, UnitsX;
  }

  lemma VisitedStep(p: Plan, sc: Scan, my: nat, mx: nat)
    requires p.Ok() && sc.For(p) && mx < UnitsX(p, sc)
    ensures Visited(p, sc, my, mx + 1)
      == if sc.live(my, mx) then Visited(p, sc, my, mx) + Units(p, sc, |sc.comps|, my, mx) else Visited(p, sc, my, mx)
  {
    hide Component, Down, Across, UnitsX;
    assert sc.comps[..|sc.comps|] == sc.comps;
  }

  lemma VisitedRow(p: Plan, sc: Scan, my: nat)
    requires p.Ok() && sc.For(p)
    ensures Visited(p, sc, my, UnitsX(p, sc)) == Visited(p, sc, my + 1, 0)
  {
    hide Component, Down, Across, UnitsX;
  }
}
