/** Frame setup: checks the frame, chooses the scale, measures the components and takes
    the memory; and a whole decoding run on top of it. */
module FrameSetup {
  import opened Grid
  import opened Geometry
  import opened Layout
  import opened Blocks
  import opened Workspace
  import Idct

  /** The frame header and what the first scan tells. */
  datatype Header = Header(w: nat, h: nat, samp: seq<Sampling>, progressive: bool, firstComps: nat)
  {
    predicate Parsed()
    {
      && 1 <= w <= MAX_DIM && h <= MAX_DIM && 1 <= |samp| <= 4 && 1 <= firstComps <= |samp|
      && forall i :: 0 <= i < |samp| ==> 1 <= samp[i].h <= 4 && 1 <= samp[i].v <= 4
    }
  }

  /** What the caller asks for; `swap` when the orientation exchanges the axes. */
  datatype Request = Request(maxW: nat, maxH: nat, fit: bool, swap: bool)

  datatype Code = Fine | Invalid | Overflow

  ghost function MaxH(samp: seq<Sampling>, n: nat): (m: nat)
    requires n <= |samp|
  {
    if n == 0 then 1 else if samp[n - 1].h > MaxH(samp, n - 1) then samp[n - 1].h else MaxH(samp, n - 1)
  }

  ghost function MaxV(samp: seq<Sampling>, n: nat): (m: nat)
    requires n <= |samp|
  {
    if n == 0 then 1 else if samp[n - 1].v > MaxV(samp, n - 1) then samp[n - 1].v else MaxV(samp, n - 1)
  }

  lemma {:induction false} MaxBounds(samp: seq<Sampling>, n: nat)
    requires n <= |samp| && forall i :: 0 <= i < |samp| ==> 1 <= samp[i].h <= 4 && 1 <= samp[i].v <= 4
    ensures 1 <= MaxH(samp, n) <= 4 && 1 <= MaxV(samp, n) <= 4
    ensures forall i :: 0 <= i < n ==> samp[i].h <= MaxH(samp, n) && samp[i].v <= MaxV(samp, n)
  {
    if n > 0 { MaxBounds(samp, n - 1); }
  }

  /** The scaled and turned picture fits the limits. */
  ghost predicate FitsAt(w: nat, h: nat, r: Request, den: nat)
    requires den > 0
  {
    (if r.swap then CeilDiv(h, den) else CeilDiv(w, den)) <= r.maxW
    && (if r.swap then CeilDiv(w, den) else CeilDiv(h, den)) <= r.maxH
  }

  /** The scale: the smallest divisor that fits, or the largest one when the rest of the
      reduction is left to the scaler. */
  ghost predicate Scaled(w: nat, h: nat, r: Request, den: nat)
  {
    && Size(den) && (forall d: nat :: Size(d) && d < den ==> !FitsAt(w, h, r, d))
    && (FitsAt(w, h, r, den) || (r.fit && den == 8)) && (!r.fit ==> den == 1)
  }

  lemma FitsIs(w: nat, h: nat, r: Request, den: nat)
    requires den > 0
    ensures var sw, sh := CeilDiv(w, den), CeilDiv(h, den);
      FitsAt(w, h, r, den) <==> if r.swap then sh <= r.maxW && sw <= r.maxH else sw <= r.maxW && sh <= r.maxH
  {
  }

  method ChooseScale(w: nat, h: nat, r: Request) returns (den: nat)
    ensures den == 0 <==> !r.fit && !FitsAt(w, h, r, 1)
    ensures den > 0 ==> Scaled(w, h, r, den)
  {
    hide FitsAt;
    den := 0;
    var dv := 1;
    while dv <= 8
      invariant dv == 1 || (r.fit && (dv == 2 || dv == 4 || dv == 8 || dv == 16))
      invariant den == 0 && forall d: nat :: Size(d) && d < dv ==> !FitsAt(w, h, r, d)
      decreases 16 - dv
    {
      var sw, sh := CeilDiv(w, dv), CeilDiv(h, dv);
      var ow, oh := if r.swap then sh else sw, if r.swap then sw else sh;
      FitsIs(w, h, r, dv);
      if ow <= r.maxW && oh <= r.maxH {
        return dv;
      }
      if !r.fit {
        break;
      }
      dv := dv * 2;
    }
    if r.fit {
      den := 8;
    }
  }

  /** The blocks that cover the first `n` components. */
  ghost function BlockCount(hd: Header, h: nat, hmax: nat, vmax: nat, n: nat): (c: nat)
    requires n <= |hd.samp| && hmax > 0 && vmax > 0
  {
    if n == 0 then 0
    else
      var wblocks, hblocks := CeilDiv(hd.w * hd.samp[n - 1].h, hmax * 8), CeilDiv(h * hd.samp[n - 1].v, vmax * 8);
      BlockCount(hd, h, hmax, vmax, n - 1) + wblocks * hblocks
  }

  /** More blocks than a file of that size can code. */
  ghost predicate Bomb(hd: Header, h: nat, size: nat)
    requires hd.Parsed()
  {
    MaxBounds(hd.samp, |hd.samp|);
    BlockCount(hd, h, MaxH(hd.samp, |hd.samp|), MaxV(hd.samp, |hd.samp|), |hd.samp|) > (size + 4096) * 256
  }

  /** The plan for a frame of height `h` decoded at 1/`den`. */
  ghost function PlanFor(hd: Header, h: nat, den: nat): (p: Plan)
    requires hd.Parsed() && 1 <= h <= MAX_DIM && Size(den)
    ensures p.Ok() && p.f.den == den
  {
    MaxBounds(hd.samp, |hd.samp|);
    var f := Frame(hd.w, h, MaxH(hd.samp, |hd.samp|), MaxV(hd.samp, |hd.samp|), den);
    Plan(f, hd.samp, Measures(f, hd.samp), Buffered(hd))
  }

  ghost predicate Affordable(hd: Header, h: nat, den: nat)
    requires hd.Parsed() && 1 <= h <= MAX_DIM
  {
    Size(den) && PlanFor(hd, h, den).Total() <= MAX_WORKSPACE
  }

  method Factors(hd: Header) returns (hmax: nat, vmax: nat)
    requires hd.Parsed()
    ensures hmax == MaxH(hd.samp, |hd.samp|) && vmax == MaxV(hd.samp, |hd.samp|)
  {
    hmax, vmax := 1, 1;
    var i := 0;
    while i < |hd.samp|
      invariant 0 <= i <= |hd.samp| && hmax == MaxH(hd.samp, i) && vmax == MaxV(hd.samp, i)
    {
      if hd.samp[i].h > hmax { hmax := hd.samp[i].h; }
      if hd.samp[i].v > vmax { vmax := hd.samp[i].v; }
      i := i + 1;
    }
  }

  method CountBlocks(hd: Header, h: nat, hmax: nat, vmax: nat) returns (total: nat)
    requires hmax > 0 && vmax > 0
    ensures total == BlockCount(hd, h, hmax, vmax, |hd.samp|)
  {
    hide CeilDiv;
    total := 0;
    var i := 0;
    while i < |hd.samp|
      invariant 0 <= i <= |hd.samp| && total == BlockCount(hd, h, hmax, vmax, i)
    {
      var wblocks := CeilDiv(hd.w * hd.samp[i].h, hmax * 8);
      var hblocks := CeilDiv(h * hd.samp[i].v, vmax * 8);
      total := total + wblocks * hblocks;
      i := i + 1;
    }
  }

  /** Finds the block size of a component by doubling. */
  method BlockSize(f: Frame, s: Sampling) returns (ss: nat)
    requires f.Takes(s)
    ensures Size(ss) && ss >= f.N() && ss == ScaledSize(f, s, f.N())
  {
    ss := f.N();
    while ss < 8 && (f.hmax * f.N()) % (s.h * ss * 2) == 0 && (f.vmax * f.N()) % (s.v * ss * 2) == 0
      invariant Size(ss) && ss >= f.N() && ScaledSize(f, s, ss) == ScaledSize(f, s, f.N())
      decreases 8 - ss
    {
      ss := ss * 2;
    }
  }

  /** Measures a component. */
  method Measure(f: Frame, s: Sampling) returns (c: Comp)
    requires f.Takes(s)
    ensures c == Component(f, s)
  {
    hide CeilDiv, Mode, ScaledSize;
    var ss := BlockSize(f, s);
    var dw, dh := CeilDiv(f.w * s.h * ss, f.hmax * 8), CeilDiv(f.h * s.v * ss, f.vmax * 8);
    var up, hexp, vexp := ChooseMode(f, Share(s.h, ss, f.N()), Share(s.v, ss, f.N()), dw);
    c := Comp(s.h, s.v, CeilDiv(f.w * s.h, f.hmax * 8), CeilDiv(f.h * s.v, f.vmax * 8), ss,
              f.McuX() * s.h, f.McuY() * s.v, dw, dh, f.McuX() * s.h * ss, f.McuY() * s.v * ss, up, hexp, vexp);
  }

  /** Chooses how a component is enlarged. */
  method ChooseMode(f: Frame, hin: nat, vin: nat, dw: nat) returns (up: UpMode, hexp: nat, vexp: nat)
    requires f.Valid() && hin > 0 && vin > 0
    ensures (up, hexp, vexp) == Mode(f, hin, vin, dw)
  {
    var fancy := f.N() > 1;
    hexp, vexp := 1, 1;
    if hin == f.hmax && vin == f.vmax {
      up := Full;
    } else if hin * 2 == f.hmax && vin == f.vmax {
      up := if fancy && dw > 2 then H2V1F else H2V1;
      hexp := 2;
    } else if hin == f.hmax && vin * 2 == f.vmax && fancy {
      up := H1V2F;
      vexp := 2;
    } else if hin * 2 == f.hmax && vin * 2 == f.vmax {
      up := if fancy && dw > 2 then H2V2F else H2V2;
      hexp, vexp := 2, 2;
    } else if f.hmax % hin == 0 && f.vmax % vin == 0 {
      up, hexp, vexp := Int, f.hmax / hin, f.vmax / vin;
    } else {
      up := Nearest;
    }
  }

  lemma Sizes(c: Comp)
    ensures Align16(PlaneBytes(c)) == (c.pw * c.ph + 15) / 16 * 16
    ensures Align16(CoefBytes(c)) == (c.mcuWb * c.mcuHb * 64 * 2 + 15) / 16 * 16
  {
  }

  /** Measures all components, refusing a frame as soon as its planes and coefficients
      are too large. */
  method MeasureAll(f: Frame, samp: seq<Sampling>, buffered: bool, ghost p: Plan) returns (ok: bool, cs: seq<Comp>, total: nat)
    requires p.Ok() && p.f == f && p.samp == samp && p.buffered == buffered
    ensures ok <==> p.Planes() <= MAX_WORKSPACE
    ensures ok ==> cs == p.comps && total == p.Planes()
  {
    hide Component, PlaneBytes, CoefBytes, Align16;
    cs, total := [], 0;
    while |cs| < |samp|
      invariant |cs| <= |samp| && cs == p.comps[..|cs|] && total == Start(p.comps, |cs|, buffered) <= MAX_WORKSPACE
      decreases |samp| - |cs|
    {
      var i := |cs|;
      Measured(p, i);
      var c := Measure(f, samp[i]);
      cs := cs + [c];
      Sizes(c);
      total := total + (c.pw * c.ph + 15) / 16 * 16 + (if buffered then (c.mcuWb * c.mcuHb * 64 * 2 + 15) / 16 * 16 else 0);
      if total > MAX_WORKSPACE {
        StartMono(p.comps, i + 1, p.N(), buffered);
        return false, cs, total;
      }
    }
    ok := true;
  }

  /** The width of the row buffers. */
  method BufferWidth(f: Frame, cs: seq<Comp>) returns (ubw: nat)
    requires f.Valid()
    ensures ubw == Widest(f, cs, |cs|) + 32
  {
    ubw := f.Sw();
    var i := 0;
    while i < |cs|
      invariant 0 <= i <= |cs| && ubw == Widest(f, cs, i)
    {
      var w := if cs[i].up.Full? then 0 else if cs[i].up.Nearest? then f.Sw() else cs[i].dw * cs[i].hexp;
      if w > ubw { ubw := w; }
      i := i + 1;
    }
    ubw := ubw + 32;
  }

  /** A height the header leaves open comes from the lines marker. */
  ghost function Height(hd: Header, lines: nat): nat { if hd.h == 0 then lines else hd.h }

  /** Sets a frame up. It is refused exactly when it has no height, claims more than the
      file can hold, does not fit the caller's limits, or needs too much memory. */
  method Setup(hd: Header, lines: nat, size: nat, r: Request) returns (rc: Code, d: Decoder?)
    requires hd.Parsed() && lines <= MAX_DIM
    ensures rc.Invalid? <==> Height(hd, lines) == 0 || Bomb(hd, Height(hd, lines), size)
    ensures rc.Fine? <==> !rc.Invalid? && exists den :: Scaled(hd.w, Height(hd, lines), r, den) && Affordable(hd, Height(hd, lines), den)
    ensures rc.Fine? <==> d != null
    ensures d != null ==> fresh(d) && fresh(d.ws) && d.Valid() && Blank(d.ws[..], d.p, d.p.N())
    ensures d != null ==> Scaled(hd.w, Height(hd, lines), r, d.p.f.den) && d.p == PlanFor(hd, Height(hd, lines), d.p.f.den)
  {
    hide Component, Blank, FitsAt, BlockCount, PlanFor, Plan.Total, Scaled, Decoder.Valid;
    d := null;
    var h := if hd.h == 0 then lines else hd.h;
    if h == 0 {
      return Invalid, null;
    }
    var hmax, vmax := Factors(hd);
    MaxBounds(hd.samp, |hd.samp|);
    var blocks := CountBlocks(hd, h, hmax, vmax);
    if blocks > (size + 4096) * 256 {
      return Invalid, null;
    }
    var den := ChooseScale(hd.w, h, r);
    if den == 0 {
      NoScale(hd.w, h, r);
      return Overflow, null;
    }
    ScaledSizes(hd.w, h, r, den);
    forall e | Scaled(hd.w, h, r, e) ensures e == den { ScaledUnique(hd.w, h, r, den, e); }
    rc, d := Allocate(hd, h, den, hmax, vmax);
  }

  /** Measures the components and takes the memory, unless it would be too much. */
  method Allocate(hd: Header, h: nat, den: nat, hmax: nat, vmax: nat) returns (rc: Code, d: Decoder?)
    requires hd.Parsed() && 1 <= h <= MAX_DIM && Size(den)
    requires hmax == MaxH(hd.samp, |hd.samp|) && vmax == MaxV(hd.samp, |hd.samp|)
    ensures rc == if PlanFor(hd, h, den).Total() <= MAX_WORKSPACE then Fine else Overflow
    ensures rc.Fine? <==> d != null
    ensures d != null ==> fresh(d) && fresh(d.ws) && d.Valid() && d.p == PlanFor(hd, h, den) && Blank(d.ws[..], d.p, d.p.N())
  {
    hide Component, Start, Blank, Widest, Plan.Total, Plan.Planes, Decoder.Valid, Measures, MaxH, MaxV;
    MaxBounds(hd.samp, |hd.samp|);
    var f := Frame(hd.w, h, hmax, vmax, den);
    ghost var p := PlanFor(hd, h, den);
    var buffered := hd.progressive || hd.firstComps < |hd.samp|;
    var ok, cs, total := MeasureAll(f, hd.samp, buffered, p);
    TotalIs(p);
    if !ok {
      return Overflow, null;
    }
    var ubw := BufferWidth(f, cs);
    total := total + ubw * |cs| + f.Sw() * 4 + 64 + 16;
    if total > MAX_WORKSPACE {
      return Overflow, null;
    }
    d := new Decoder(Plan(f, hd.samp, cs, buffered));
    rc := Fine;
  }

  lemma TotalIs(p: Plan)
    requires p.Ok()
    ensures p.Planes() <= p.Total() == p.Planes() + p.Ubw() * |p.comps| + p.f.Sw() * 4 + 64 + 16
  {
    hide Component, Start, Widest;
    Mono(p.Ubw(), 0, p.N());
  }

  lemma ScaledSizes(w: nat, h: nat, r: Request, den: nat)
    requires Scaled(w, h, r, den)
    ensures Size(den)
  {
  }

  lemma NoScale(w: nat, h: nat, r: Request)
    requires !r.fit && !FitsAt(w, h, r, 1)
    ensures forall den :: !Scaled(w, h, r, den)
  {
    hide FitsAt;
  }

  lemma ScaledUnique(w: nat, h: nat, r: Request, a: nat, b: nat)
    requires Scaled(w, h, r, a) && Scaled(w, h, r, b)
    ensures a == b
  {
    hide FitsAt;
  }

  // ---- a whole run ----------------------------------------------------------------------------

  /** The picture as lines of pixels. */
  ghost predicate Pictured(out: seq<Bgra>, ws: seq<Byte>, p: Plan, colour: (Byte, Byte, Byte, Byte) -> Bgra, rows: nat)
    requires p.Ok() && |ws| == p.Total() && rows <= p.f.Sh()
  {
    |out| == rows * p.f.Sw() && forall y: nat, x: nat :: y < rows && x < p.f.Sw() ==> PixelIs(out, ws, p, colour, y, x)
  }

  ghost predicate PixelIs(out: seq<Bgra>, ws: seq<Byte>, p: Plan, colour: (Byte, Byte, Byte, Byte) -> Bgra, y: nat, x: nat)
    requires p.Ok() && |ws| == p.Total() && y < p.f.Sh() && x < p.f.Sw()
  {
    At(y, p.f.Sw(), x) < |out| && out[At(y, p.f.Sw(), x)] == PixelShown(ws, p, y, x, colour)
  }

  /** Puts out the rows from the top. */
  method Output(d: Decoder, colour: (Byte, Byte, Byte, Byte) -> Bgra) returns (out: seq<Bgra>)
    requires d.Valid()
    modifies d.ws
    ensures d.Valid() && Pictured(out, old(d.ws[..]), d.p, colour, d.p.f.Sh())
  {
    hide Component, Plan.Total, Plan.Planes, Plan.LineAt, PixelShown, Pictured, LineShows;
    ghost var start := d.ws[..];
    out := [];
    PicturedNone(start, d.p, colour);
    LineRoom(d.p);
    var y := 0;
    while y < d.p.f.Sh()
      invariant 0 <= y <= d.p.f.Sh() && d.Valid() && Pictured(out, start, d.p, colour, y)
      invariant Kept(start, d.ws[..], d.p.Planes(), d.p.LineAt() + 4 * d.p.f.Sw())
    {
      ghost var before := d.ws[..];
      d.OutputRow(y, colour);
      var line := ReadLine(d);
      PicturedRow(out, line, start, before, d.ws[..], d.p, colour, y);
      KeptThen(start, before, d.ws[..], d.p.Planes(), d.p.LineAt() + 4 * d.p.f.Sw(), d.p.Planes(), d.p.LineAt() + 4 * d.p.f.Sw());
      out := out + line;
      y := y + 1;
    }
  }

  method ReadLine(d: Decoder) returns (line: seq<Bgra>)
    requires d.Valid()
    ensures |line| == d.p.f.Sw() && d.p.LineAt() + 4 * d.p.f.Sw() <= d.p.Total()
    ensures forall x: nat :: x < d.p.f.Sw() ==> line[x] == LinePixel(d.ws[..], d.p.LineAt() + 4 * x)
  {
    hide Component, Plan.Total, Plan.LineAt;
    LineRoom(d.p);
    line := [];
    while |line| < d.p.f.Sw()
      invariant |line| <= d.p.f.Sw() && forall x: nat :: x < |line| ==> line[x] == LinePixel(d.ws[..], d.p.LineAt() + 4 * x)
      decreases d.p.f.Sw() - |line|
    {
      var o := d.p.LineAt() + 4 * |line|;
      line := line + [Bgra(d.ws[o], d.ws[o + 1], d.ws[o + 2], d.ws[o + 3])];
    }
  }

  lemma PicturedNone(ws: seq<Byte>, p: Plan, colour: (Byte, Byte, Byte, Byte) -> Bgra)
    requires p.Ok() && |ws| == p.Total()
    ensures Pictured([], ws, p, colour, 0)
  {
  }

  lemma PicturedRow(out: seq<Bgra>, line: seq<Bgra>, start: seq<Byte>, before: seq<Byte>, after: seq<Byte>, p: Plan, colour: (Byte, Byte, Byte, Byte) -> Bgra, y: nat)
    requires p.Ok() && |start| == |before| == |after| == p.Total() && y < p.f.Sh()
    requires Pictured(out, start, p, colour, y) && Kept(start, before, p.Planes(), p.LineAt() + 4 * p.f.Sw())
    requires LineShows(before, after, p, y, colour, p.f.Sw()) && |line| == p.f.Sw()
    requires forall x: nat :: x < |line| ==> line[x] == LinePixel(after, p.LineAt() + 4 * x)
    ensures Pictured(out + line, start, p, colour, y + 1)
  {
    hide Component, Plan.Total, Plan.Planes, Plan.LineAt, PixelShown;
    var w := p.f.Sw();
    assert (y + 1) * w == y * w + w;
    forall v: nat, x: nat | v < y + 1 && x < w ensures PixelIs(out + line, start, p, colour, v, x) {
      if v < y {
        assert PixelIs(out, start, p, colour, v, x);
      } else {
        PixelKept(start, before, p, y, x, colour);
      }
    }
  }

  lemma PixelKept(start: seq<Byte>, before: seq<Byte>, p: Plan, y: nat, x: nat, colour: (Byte, Byte, Byte, Byte) -> Bgra)
    requires p.Ok() && |start| == |before| == p.Total() && y < p.f.Sh() && x < p.f.Sw()
    requires Kept(start, before, p.Planes(), p.LineAt() + 4 * p.f.Sw())
    ensures PixelShown(before, p, y, x, colour) == PixelShown(start, p, y, x, colour)
  {
    hide Component, Plan.Total, Plan.Planes, Plan.LineAt, Shown, Kept;
    var hi := p.LineAt() + 4 * p.f.Sw();
    ShownKept(start, before, p, 0, y, hi);
    if 1 < p.N() { ShownKept(start, before, p, 1, y, hi); }
    if 2 < p.N() { ShownKept(start, before, p, 2, y, hi); }
    if 3 < p.N() { ShownKept(start, before, p, 3, y, hi); }
  }

  ghost predicate Buffered(hd: Header) { hd.progressive || hd.firstComps < |hd.samp| }

  /** The memory after each scan, from blank memory on. */
  ghost predicate Traced(states: seq<seq<Byte>>, scans: seq<Scan>, p: Plan, qts: seq<Quant>, g: Idct.Config)
    requires p.Ok() && |qts| == p.N() && g.Valid() && |states| <= |scans| + 1
  {
    && |states| > 0 && (forall k :: 0 <= k < |states| ==> |states[k]| == p.Total()) && Blank(states[0], p, p.N())
    && forall k :: 0 <= k < |states| - 1 ==> Scanned(states[k], states[k + 1], scans[k], p, qts, g)
  }

  ghost predicate Scanned(before: seq<Byte>, after: seq<Byte>, sc: Scan, p: Plan, qts: seq<Quant>, g: Idct.Config)
    requires p.Ok() && |before| == |after| == p.Total() && |qts| == p.N() && g.Valid()
  {
    sc.For(p) && Wrote(before, after, p, sc.block, qts, g, Visited(p, sc, UnitsY(p, sc), 0))
  }

  /** Sets up, runs the scans (only the first without coefficient memory), finishes, puts
      the picture out and gives the memory back. Whatever the scans bring, the guard is
      intact at the end, and the picture shows what they left in the planes. */
  method Run(hd: Header, lines: nat, size: nat, r: Request, scans: seq<Scan>, qts: seq<Quant>, g: Idct.Config, colour: (Byte, Byte, Byte, Byte) -> Bgra)
    returns (rc: Code, out: seq<Bgra>, intact: bool, ghost p: Plan, ghost states: seq<seq<Byte>>, ghost planes: seq<Byte>)
    requires hd.Parsed() && lines <= MAX_DIM && |qts| == |hd.samp| && g.Valid()
    requires forall k :: 0 <= k < |scans| ==> scans[k].Suits(|hd.samp|, Buffered(hd))
    ensures intact
    ensures rc.Fine? ==> RunDone(hd, scans, p, qts, g, colour, states, planes, out)
  {
    hide Component, Plan.Total, Finished, Pictured, Traced, Blank, Upto, Scan.Suits;
    out, intact, planes, states, p := [], true, [], [], Plan(Frame(0, 0, 0, 0, 0), [], [], false);
    var d: Decoder?;
    rc, d := Setup(hd, lines, size, r);
    if d == null {
      return;
    }
    p, states := d.p, [d.ws[..]];
    TracedStart(d.ws[..], scans, p, qts, g);
    var k := 0;
    while k < |scans| && (d.p.buffered || k == 0)
      invariant 0 <= k <= |scans| && (d.p.buffered || k <= 1) && d.Valid() && d.p == p && fresh(d) && fresh(d.ws)
      invariant |states| == k + 1 && states[k] == d.ws[..] && Traced(states, scans, p, qts, g)
    {
      d.RunScan(scans[k], qts, g);
      TracedStep(states, d.ws[..], scans, p, qts, g);
      states := states + [d.ws[..]];
      k := k + 1;
    }
    if d.p.buffered {
      d.Finish(qts, g);
    }
    planes := d.ws[..];
    out := Output(d, colour);
    intact := d.Close();
  }

  ghost predicate RunDone(hd: Header, scans: seq<Scan>, p: Plan, qts: seq<Quant>, g: Idct.Config, colour: (Byte, Byte, Byte, Byte) -> Bgra, states: seq<seq<Byte>>, planes: seq<Byte>, out: seq<Bgra>)
    requires |qts| == |hd.samp| && g.Valid()
  {
    && p.Ok() && p.samp == hd.samp && p.buffered == Buffered(hd) && |planes| == p.Total()
    && |states| == 1 + (if p.buffered then |scans| else Least(|scans|, 1)) && Traced(states, scans, p, qts, g)
    && |states[|states| - 1]| == p.Total()
    && (if p.buffered then Finished(states[|states| - 1], planes, p, qts, g, Upto(p, p.N(), 0, 0)) else planes == states[|states| - 1])
    && Pictured(out, planes, p, colour, p.f.Sh())
  }

  lemma TracedStart(ws: seq<Byte>, scans: seq<Scan>, p: Plan, qts: seq<Quant>, g: Idct.Config)
    requires p.Ok() && |qts| == p.N() && g.Valid() && |ws| == p.Total() && Blank(ws, p, p.N())
    ensures Traced([ws], scans, p, qts, g)
  {
    hide Component, Plan.Total, Blank;
  }

  lemma TracedStep(states: seq<seq<Byte>>, after: seq<Byte>, scans: seq<Scan>, p: Plan, qts: seq<Quant>, g: Idct.Config)
    requires p.Ok() && |qts| == p.N() && g.Valid() && |states| <= |scans| && Traced(states, scans, p, qts, g)
    requires |after| == p.Total() && |states| > 0 && |states[|states| - 1]| == p.Total()
    requires Scanned(states[|states| - 1], after, scans[|states| - 1], p, qts, g)
    ensures Traced(states + [after], scans, p, qts, g)
  {
    hide Component, Plan.Total, Blank, Scanned;
    var next := states + [after];
    forall k | 0 <= k < |next| - 1 ensures Scanned(next[k], next[k + 1], scans[k], p, qts, g) {
      if k < |states| - 1 {
        assert Scanned(states[k], states[k + 1], scans[k], p, qts, g);
      }
    }
  }
}
