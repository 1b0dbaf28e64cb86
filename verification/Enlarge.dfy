/** One picture row of a component in each enlarging mode. */
module Enlarge {
  import opened Grid
  import opened Geometry
  import opened Upsample

  /** The component's numbers make sense: what every frame's components satisfy. */
  predicate Sane(c: Comp)
  {
    && c.dw > 0 && c.dh > 0 && c.hexp > 0 && c.vexp > 0
    && (c.up.H2V1F? || c.up.H2V2F? ==> c.dw > 2)
    && (c.up.Full? || c.up.H1V2F? ==> c.hexp == 1) && (c.up.Full? || c.up.H2V1? || c.up.H2V1F? ==> c.vexp == 1)
    && (c.up.H2V1? || c.up.H2V1F? || c.up.H2V2? || c.up.H2V2F? ==> c.hexp == 2)
    && (c.up.H1V2F? || c.up.H2V2? || c.up.H2V2F? ==> c.vexp == 2)
  }

  /** The component row behind picture row `y`. */
  function MainRow(c: Comp, y: nat, sh: nat): (r: nat)
    requires Sane(c) && sh > 0
  {
    if c.up.Nearest? then y * c.dh / sh else y / c.vexp
  }

  /** The row blended in: the nearer neighbour in the modes that blend rows. */
  function OtherRow(c: Comp, y: nat, sh: nat): (r: int)
    requires Sane(c) && sh > 0
  {
    if c.up.H1V2F? || c.up.H2V2F? then Lean(y) else MainRow(c, y, sh)
  }

  /** The picture row made of component row `a` and the row `b` blended in. */
  function Enlarged(c: Comp, sw: nat, a: seq<Byte>, b: seq<Byte>, odd: bool): (row: seq<Byte>)
    requires Sane(c) && sw > 0 && |a| == |b| == c.dw
    ensures |row| == if c.up.Nearest? then sw else c.dw * c.hexp
  {
    match c.up
    case Full => a
    case H2V1F => Smoothed(a)
    case H2V1 => Repeated(a, 2)
    case H1V2F => Blended(a, b, odd)
    case H2V2F => Smoothed2(a, b)
    case H2V2 => Repeated(a, 2)
    case Int => Repeated(a, c.hexp)
    case Nearest => Picked(a, sw)
  }

  /** Enlarges inside the memory, for the modes that need a buffer. */
  method EnlargeInto(m: array<Byte>, c: Comp, sw: nat, a: nat, b: nat, odd: bool, out: nat)
    requires Sane(c) && sw > 0 && !c.up.Full?
    requires a + c.dw <= out && b + c.dw <= out && out + (if c.up.Nearest? then sw else c.dw * c.hexp) <= m.Length
    modifies m
    ensures var row := Enlarged(c, sw, old(m[a..a + c.dw]), old(m[b..b + c.dw]), odd);
      Filled(old(m[..]), m[..], row, out, |row|)
  {
    hide Filled, Smooth, Smooth2, Nth, Near, Col;
    match c.up
    case Full =>
    case H2V1F => FancyH2V1(m, a, c.dw, out);
    case H2V1 => Double(m, a, c.dw, out);
    case H1V2F => Blend(m, a, b, c.dw, odd, out);
    case H2V2F => FancyH2V2(m, a, b, c.dw, out);
    case H2V2 => Double(m, a, c.dw, out);
    case Int => Spread(m, a, c.dw, c.hexp, out);
    case Nearest => Pick(m, a, c.dw, sw, out);
  }
}
