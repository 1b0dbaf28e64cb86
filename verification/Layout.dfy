/** How one block of memory is divided among the planes, coefficients, row buffers and
    the output line of a JPEG frame, with guard bytes at the end. */
module Layout {
  import opened Grid
  import opened Geometry

  const MAX_WORKSPACE := 0x1000_0000

  function Align16(v: nat): (r: nat)
    ensures v <= r < v + 16
  {
    (v + 15) / 16 * 16
  }

  function PlaneBytes(c: Comp): nat { c.pw * c.ph }

  /** Two bytes for each of the 64 coefficients of a block. */
  function CoefBytes(c: Comp): nat { c.mcuWb * c.mcuHb * 128 }

  function Space(c: Comp, buffered: bool): nat
  {
    Align16(PlaneBytes(c)) + if buffered then Align16(CoefBytes(c)) else 0
  }

  /** Where the slices of component `i` begin. */
  function Start(cs: seq<Comp>, i: nat, buffered: bool): (r: nat)
    requires i <= |cs|
  {
    if i == 0 then 0 else Start(cs, i - 1, buffered) + Space(cs[i - 1], buffered)
  }

  /** The bytes an enlarged row of the component takes in its buffer. */
  function RowBytes(f: Frame, c: Comp): nat
    requires f.Valid()
  {
    if c.up.Full? then 0 else if c.up.Nearest? then f.Sw() else c.dw * c.hexp
  }

  function Widest(f: Frame, cs: seq<Comp>, n: nat): (w: nat)
    requires f.Valid() && n <= |cs|
  {
    if n == 0 then f.Sw()
    else
      var w := Widest(f, cs, n - 1);
      if RowBytes(f, cs[n - 1]) > w then RowBytes(f, cs[n - 1]) else w
  }

  lemma {:induction false} WidestCovers(f: Frame, cs: seq<Comp>, n: nat, i: nat)
    requires f.Valid() && n <= |cs| && i < n
    ensures f.Sw() <= Widest(f, cs, n) && RowBytes(f, cs[i]) <= Widest(f, cs, n)
  {
    if i < n - 1 { WidestCovers(f, cs, n - 1, i); } else if n > 1 { WidestCovers(f, cs, n - 1, 0); }
  }

  /** The geometry of all components. */
  ghost function Measures(f: Frame, samp: seq<Sampling>): (cs: seq<Comp>)
    requires forall i :: 0 <= i < |samp| ==> f.Takes(samp[i])
    ensures |cs| == |samp| && forall i :: 0 <= i < |samp| ==> cs[i] == Component(f, samp[i])
  {
    seq(|samp|, i requires 0 <= i < |samp| => Component(f, samp[i]))
  }

  /** A component number; mentioning it makes the component's geometry known. */
  predicate Number(i: nat) { true }

  datatype Plan = Plan(f: Frame, samp: seq<Sampling>, comps: seq<Comp>, buffered: bool)
  {
    predicate Ok()
    {
      && 1 <= |samp| <= 4 && |comps| == |samp| && f.Valid()
      && forall i {:trigger Number(i)} :: 0 <= i < |samp| && Number(i) ==> f.Takes(samp[i]) && comps[i] == Component(f, samp[i])
    }

    function N(): nat { |samp| }

    function C(i: nat): (c: Comp)
      requires Ok() && i < N()
    {
      comps[i]
    }

    function Comps(): (cs: seq<Comp>)
      requires Ok()
      ensures |cs| == N()
    {
      comps
    }

    /** The width of a row buffer. */
    function Ubw(): (r: nat) requires Ok() ensures r >= 32 { Widest(f, Comps(), N()) + 32 }

    function PlaneAt(i: nat): nat requires Ok() && i < N() { Start(Comps(), i, buffered) }
    function CoefAt(i: nat): nat requires Ok() && i < N() { PlaneAt(i) + Align16(PlaneBytes(C(i))) }
    function Planes(): nat requires Ok() { Start(Comps(), N(), buffered) }
    function RowAt(i: nat): nat requires Ok() && i <= N() { Planes() + i * Ubw() }
    function LineAt(): nat requires Ok() { RowAt(N()) }
    function Total(): nat requires Ok() { LineAt() + f.Sw() * 4 + 64 + 16 }
  }

  lemma Measured(p: Plan, i: nat)
    requires p.Ok() && i < p.N()
    ensures p.f.Takes(p.samp[i]) && p.C(i) == Component(p.f, p.samp[i])
  {
    hide Component;
    assert Number(i);
  }

  /** The slices of the block. */
  datatype Slice = PlaneOf(i: nat) | CoefOf(i: nat) | RowOf(i: nat) | LineSlice | Guard
  {
    predicate In(p: Plan)
    {
      match this
      case PlaneOf(i) => i < p.N()
      case CoefOf(i) => i < p.N() && p.buffered
      case RowOf(i) => i < p.N()
      case _ => true
    }

    function Lo(p: Plan): nat
      requires p.Ok() && In(p)
    {
      match this
      case PlaneOf(i) => p.PlaneAt(i)
      case CoefOf(i) => p.CoefAt(i)
      case RowOf(i) => p.RowAt(i)
      case LineSlice => p.LineAt()
      case Guard => p.Total() - 8
    }

    function Hi(p: Plan): nat
      requires p.Ok() && In(p)
    {
      match this
      case PlaneOf(i) => p.PlaneAt(i) + PlaneBytes(p.C(i))
      case CoefOf(i) => p.CoefAt(i) + CoefBytes(p.C(i))
      case RowOf(i) => p.RowAt(i) + p.Ubw()
      case LineSlice => p.LineAt() + p.f.Sw() * 4
      case Guard => p.Total()
    }

    /** The order of the slices in memory. */
    function Rank(n: nat): nat
    {
      match this
      case PlaneOf(i) => 2 * i
      case CoefOf(i) => 2 * i + 1
      case RowOf(i) => 2 * n + i
      case LineSlice => 3 * n
      case Guard => 3 * n + 1
    }
  }

  lemma {:induction false} StartMono(cs: seq<Comp>, i: nat, j: nat, buffered: bool)
    requires i <= j <= |cs|
    ensures Start(cs, i, buffered) <= Start(cs, j, buffered)
  {
    hide Align16;
    if i < j { StartMono(cs, i, j - 1, buffered); }
  }

  /** Component `i`'s slices end before those of the next one begin. */
  lemma ComponentEnds(p: Plan, i: nat, j: nat)
    requires p.Ok() && i < j <= p.N()
    ensures p.CoefAt(i) <= Start(p.Comps(), j, p.buffered)
    ensures p.buffered ==> p.CoefAt(i) + CoefBytes(p.C(i)) <= Start(p.Comps(), j, p.buffered)
  {
    hide Component, PlaneBytes, CoefBytes;
    StartMono(p.Comps(), i + 1, j, p.buffered);
  }

  /** Slices that come later in memory begin after those that come earlier end, and all
      lie inside the block. */
  lemma Apart(p: Plan, a: Slice, b: Slice)
    requires p.Ok() && a.In(p) && b.In(p) && a.Rank(p.N()) < b.Rank(p.N())
    ensures a.Lo(p) <= a.Hi(p) <= b.Lo(p) <= b.Hi(p) <= p.Total()
  {
    hide Component, PlaneBytes, CoefBytes, CeilDiv, Widest, Start, Align16;
    Inside(p, a);
    Inside(p, b);
    if a.PlaneOf? || a.CoefOf? {
      if b.PlaneOf? || b.CoefOf? {
        if a.i < b.i { ComponentEnds(p, a.i, b.i); }
      } else {
        ComponentEnds(p, a.i, p.N());
        Mono(p.Ubw(), 0, if b.RowOf? then b.i else p.N());
      }
    } else if a.RowOf? {
      Mono(p.Ubw(), a.i + 1, if b.RowOf? then b.i else p.N());
      assert (a.i + 1) * p.Ubw() == a.i * p.Ubw() + p.Ubw();
    }
  }

  lemma Inside(p: Plan, a: Slice)
    requires p.Ok() && a.In(p)
    ensures a.Lo(p) <= a.Hi(p) <= p.Total()
  {
    hide Component, PlaneBytes, CoefBytes, CeilDiv, Widest, Start, Align16;
    if a.PlaneOf? || a.CoefOf? {
      ComponentEnds(p, a.i, p.N());
      Mono(p.Ubw(), 0, p.N());
    } else if a.RowOf? {
      Mono(p.Ubw(), a.i + 1, p.N());
      assert (a.i + 1) * p.Ubw() == a.i * p.Ubw() + p.Ubw();
    }
  }

  /** Different slices share no byte. */
  lemma Disjoint(p: Plan, a: Slice, b: Slice)
    requires p.Ok() && a.In(p) && b.In(p) && a != b
    ensures a.Hi(p) <= b.Lo(p) || b.Hi(p) <= a.Lo(p)
  {
    hide Slice.Lo, Slice.Hi;
    if a.Rank(p.N()) < b.Rank(p.N()) { Apart(p, a, b); } else { Apart(p, b, a); }
  }

  // ---- addresses ---------------------------------------------------------------------

  /** Sample (x, y) of the plane of component `i`. */
  function SampleAt(p: Plan, i: nat, y: nat, x: nat): nat
    requires p.Ok() && i < p.N()
  {
    hide Component, Start;
    p.PlaneAt(i) + At(y, p.C(i).pw, x)
  }

  lemma SampleIn(p: Plan, i: nat, y: nat, x: nat)
    requires p.Ok() && i < p.N() && y < p.C(i).ph && x < p.C(i).pw
    ensures PlaneOf(i).Lo(p) <= SampleAt(p, i, y, x) < PlaneOf(i).Hi(p)
  {
    hide Component, Start;
    InPlane(x, y, p.C(i).pw, p.C(i).ph);
  }

  /** A block of a component: its row and column. */
  datatype Id = Id(i: nat, row: nat, col: nat)
  {
    /** Inside the padded block grid. */
    ghost predicate Padded(p: Plan)
      requires p.Ok()
    {
      i < p.N() && row < p.C(i).mcuHb && col < p.C(i).mcuWb
    }

    /** Inside the real component. */
    ghost predicate Real(p: Plan)
      requires p.Ok()
    {
      i < p.N() && row < p.C(i).hblocks && col < p.C(i).wblocks
    }
  }

  lemma RealPadded(p: Plan, b: Id)
    requires p.Ok() && b.Real(p)
    ensures b.Padded(p)
  {
    hide Component;
    Measured(p, b.i);
    Fits(p.f, p.samp[b.i]);
  }

  /** The block's coefficients. */
  function BlockAt(p: Plan, b: Id): nat
    requires p.Ok() && b.i < p.N()
  {
    hide Component, Start, At;
    p.CoefAt(b.i) + At(b.row, p.C(b.i).mcuWb, b.col) * 128
  }

  lemma BlockIn(p: Plan, b: Id)
    requires p.Ok() && p.buffered && b.Padded(p)
    ensures CoefOf(b.i).Lo(p) <= BlockAt(p, b) <= BlockAt(p, b) + 128 <= CoefOf(b.i).Hi(p)
  {
    hide Component, Start, Align16;
    var c := p.C(b.i);
    InPlane(b.col, b.row, c.mcuWb, c.mcuHb);
    Mono(128, b.row * c.mcuWb + b.col + 1, c.mcuWb * c.mcuHb);
  }

  /** Blocks share no coefficient. */
  lemma BlocksApart(p: Plan, a: Id, b: Id)
    requires p.Ok() && p.buffered && a.Padded(p) && b.Padded(p) && a != b
    ensures BlockAt(p, a) + 128 <= BlockAt(p, b) || BlockAt(p, b) + 128 <= BlockAt(p, a)
  {
    hide Component, Start, Align16;
    if a.i != b.i {
      hide BlockAt;
      BlockIn(p, a);
      BlockIn(p, b);
      Disjoint(p, CoefOf(a.i), CoefOf(b.i));
    } else {
      var w := p.C(a.i).mcuWb;
      if a.row * w + a.col == b.row * w + b.col { PlaceUnique(a.col, a.row, b.col, b.row, w); }
    }
  }

  /** Sample (r, x) of a block's window. */
  lemma WindowIn(p: Plan, b: Id, r: nat, x: nat)
    requires p.Ok() && b.Real(p) && r < p.C(b.i).ssize && x < p.C(b.i).ssize
    ensures var c := p.C(b.i); At(b.row, c.ssize, r) < c.ph && At(b.col, c.ssize, x) < c.pw
  {
    hide Component;
    Measured(p, b.i);
    Fits(p.f, p.samp[b.i]);
    var c := p.C(b.i);
    InPlane(r, b.row, c.ssize, c.hblocks);
    InPlane(x, b.col, c.ssize, c.wblocks);
  }

  function WindowAt(p: Plan, b: Id, r: nat, x: nat): nat
    requires p.Ok() && b.i < p.N()
  {
    hide Component, SampleAt, At;
    SampleAt(p, b.i, At(b.row, p.C(b.i).ssize, r), At(b.col, p.C(b.i).ssize, x))
  }

  /** Windows of different blocks share no sample. */
  lemma WindowsApart(p: Plan, a: Id, r: nat, x: nat, b: Id, r': nat, x': nat)
    requires p.Ok() && a.Real(p) && b.Real(p)
    requires r < p.C(a.i).ssize && x < p.C(a.i).ssize && r' < p.C(b.i).ssize && x' < p.C(b.i).ssize
    requires WindowAt(p, a, r, x) == WindowAt(p, b, r', x')
    ensures a == b && r == r' && x == x'
  {
    hide Component, Start, Align16, At, SampleAt, Slice.Lo, Slice.Hi, Plan.PlaneAt;
    WindowIn(p, a, r, x);
    WindowIn(p, b, r', x');
    var n, n' := p.C(a.i).ssize, p.C(b.i).ssize;
    var y, u, y', u' := At(a.row, n, r), At(a.col, n, x), At(b.row, n', r'), At(b.col, n', x');
    SampleIn(p, a.i, y, u);
    SampleIn(p, b.i, y', u');
    if a.i != b.i {
      Disjoint(p, PlaneOf(a.i), PlaneOf(b.i));
    } else {
      SampleUnique(p, a.i, y, u, y', u');
      AtUnique(a.row, a.col, r, x, b.row, b.col, r', x', n);
    }
  }

  lemma SampleUnique(p: Plan, i: nat, y: nat, x: nat, y': nat, x': nat)
    requires p.Ok() && i < p.N() && x < p.C(i).pw && x' < p.C(i).pw && SampleAt(p, i, y, x) == SampleAt(p, i, y', x')
    ensures y == y' && x == x'
  {
    hide Component, Start, Plan.PlaneAt;
    PlaceUnique(x, y, x', y', p.C(i).pw);
  }

  lemma AtUnique(row: nat, col: nat, r: nat, x: nat, row': nat, col': nat, r': nat, x': nat, n: nat)
    requires r < n && x < n && r' < n && x' < n
    requires At(row, n, r) == At(row', n, r') && At(col, n, x) == At(col', n, x')
    ensures row == row' && col == col' && r == r' && x == x'
  {
    PlaceUnique(r, row, r', row', n);
    PlaceUnique(x, col, x', col', n);
  }
}
