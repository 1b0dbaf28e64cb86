/** The RLE4 and RLE8 interpreter of the BMP decoder: every pixel of the plane ends
    up with the last value the command stream put there, or stays undefined. */
module BmpRle {
  import opened Grid

  const UNDEF := 0xFFFF

  /** A pixel the command stream writes; coordinates may lie outside the plane. */
  datatype Put = Put(x: nat, y: nat, v: int)

  /** Pixel `k` of a run: RLE4 alternates the two halves of its byte. */
  ghost function Nibble(b: Byte, k: nat): (v: int)
    ensures 0 <= v < 16
  {
    if k % 2 == 1 then b % 16 else b / 16
  }

  /** `n` pixels from (x, y) on, all from the byte `b`. */
  ghost function Encoded(four: bool, b: Byte, n: nat, x: nat, y: nat): (ps: seq<Put>)
    ensures |ps| == n
  {
    seq(n, k requires 0 <= k < n => Put(x + k, y, if four then Nibble(b, k) else b))
  }

  /** `n` pixels from (x, y) on, each from its own byte or half byte. */
  ghost function Absolute(four: bool, bytes: seq<Byte>, n: nat, x: nat, y: nat): (ps: seq<Put>)
    requires if four then n <= 2 * |bytes| else n <= |bytes|
    ensures |ps| == n
  {
    seq(n, k requires 0 <= k < n => Put(x + k, y, if four then Nibble(bytes[k / 2], k) else bytes[k]))
  }

  /** The bytes an absolute run of `v` pixels takes, without padding. */
  ghost function RunBytes(four: bool, v: nat): nat { if four then (v + 1) / 2 else v }

  /** Everything the commands from `i` on write, with the cursor at (x, y). */
  ghost function Commands(p: seq<Byte>, four: bool, h: nat, i: nat, x: nat, y: nat): (ps: seq<Put>)
    decreases |p| - i
  {
    if i + 2 > |p| || y >= h then []
    else
      var c, v := p[i], p[i + 1];
      if c > 0 then Encoded(four, v, c, x, y) + Commands(p, four, h, i + 2, x + c, y)
      else if v == 0 then Commands(p, four, h, i + 2, 0, y + 1)
      else if v == 1 then []
      else if v == 2 then
        (if i + 4 > |p| then [] else Commands(p, four, h, i + 4, x + p[i + 2], y + p[i + 3]))
      else
        var (bytes, skip) := Extent(p, four, i + 2, v);
        var n := Least(v, if four then 2 * bytes else bytes);
        Absolute(four, p[i + 2..i + 2 + bytes], n, x, y) + Commands(p, four, h, i + 2 + skip, x + n, y)
  }

  /** How many bytes of an absolute run exist, and how far to skip. */
  ghost function Extent(p: seq<Byte>, four: bool, i: nat, v: nat): (r: (nat, nat))
    requires i <= |p|
    ensures i + r.0 <= |p| && r.0 <= r.1
  {
    var bytes := RunBytes(four, v);
    if i + bytes > |p| then (|p| - i, |p| - i) else (bytes, bytes + bytes % 2)
  }

  /** The last value put at (x, y), or undefined. */
  ghost function Painted(ps: seq<Put>, x: nat, y: nat): (v: int)
  {
    if ps == [] then UNDEF
    else
      var q := ps[|ps| - 1];
      if q.x == x && q.y == y then q.v else Painted(ps[..|ps| - 1], x, y)
  }

  /** The last put decides: the value is that of a put no later put overrides. */
  lemma {:induction false} PaintedIsLast(ps: seq<Put>, x: nat, y: nat)
    ensures if exists k :: 0 <= k < |ps| && ps[k].x == x && ps[k].y == y
      then exists k :: 0 <= k < |ps| && ps[k].x == x && ps[k].y == y && Painted(ps, x, y) == ps[k].v
             && forall j :: k < j < |ps| ==> !(ps[j].x == x && ps[j].y == y)
      else Painted(ps, x, y) == UNDEF
  {
    if ps != [] {
      var n := |ps| - 1;
      if ps[n].x == x && ps[n].y == y {
      } else {
        PaintedIsLast(ps[..n], x, y);
        assert forall k :: 0 <= k < n ==> ps[..n][k] == ps[k];
      }
    }
  }

  // ---- the plane --------------------------------------------------------------------

  ghost function At(plane: seq<int>, w: nat, h: nat, x: nat, y: nat): int
    requires |plane| == w * h && x < w && y < h
  {
    InPlane(x, y, w, h);
    plane[y * w + x]
  }

  /** The plane shows what has been put so far. */
  ghost predicate Shows(plane: seq<int>, w: nat, h: nat, ps: seq<Put>)
  {
    |plane| == w * h && forall x: nat, y: nat :: x < w && y < h ==> At(plane, w, h, x, y) == Painted(ps, x, y)
  }

  lemma ShowsPut(plane: seq<int>, w: nat, h: nat, ps: seq<Put>, q: Put)
    requires Shows(plane, w, h, ps)
    ensures q.x < w && q.y < h ==> q.y * w + q.x < w * h && Shows(plane[q.y * w + q.x := q.v], w, h, ps + [q])
    ensures !(q.x < w && q.y < h) ==> Shows(plane, w, h, ps + [q])
  {
    assert (ps + [q])[..|ps|] == ps;
    if q.x < w && q.y < h {
      InPlane(q.x, q.y, w, h);
      var plane' := plane[q.y * w + q.x := q.v];
      forall x: nat, y: nat | x < w && y < h ensures At(plane', w, h, x, y) == Painted(ps + [q], x, y) {
        InPlane(x, y, w, h);
        if y * w + x == q.y * w + q.x { PlaceUnique(x, y, q.x, q.y, w); }
        assert At(plane, w, h, x, y) == Painted(ps, x, y);
      }
    } else {
      forall x: nat, y: nat | x < w && y < h ensures At(plane, w, h, x, y) == Painted(ps + [q], x, y) { }
    }
  }

  method PutPixel(plane: array<int>, w: nat, h: nat, x: nat, y: nat, v: int, ghost ps: seq<Put>)
    requires Shows(plane[..], w, h, ps)
    modifies plane
    ensures Shows(plane[..], w, h, ps + [Put(x, y, v)])
  {
    hide Shows;
    ShowsPut(plane[..], w, h, ps, Put(x, y, v));
    if x < w && y < h {
      ShowsSize(plane[..], w, h, ps);
      ghost var before := plane[..];
      plane[y * w + x] := v;
      assert plane[..] == before[y * w + x := v];
    }
  }

  lemma ShowsSize(plane: seq<int>, w: nat, h: nat, ps: seq<Put>)
    requires Shows(plane, w, h, ps)
    ensures |plane| == w * h
  {
  }

  /** Puts a list of pixels in turn: the values come from `src`. */
  method PutRun(plane: array<int>, w: nat, h: nat, x: nat, y: nat, src: seq<int>, ghost ps: seq<Put>)
    requires Shows(plane[..], w, h, ps)
    modifies plane
    ensures Shows(plane[..], w, h, ps + seq(|src|, k requires 0 <= k < |src| => Put(x + k, y, src[k])))
  {
    hide Shows;
    ghost var all := seq(|src|, k requires 0 <= k < |src| => Put(x + k, y, src[k]));
    var k := 0;
    assert ps + all[..0] == ps;
    while k < |src|
      invariant 0 <= k <= |src| && Shows(plane[..], w, h, ps + all[..k])
    {
      PutPixel(plane, w, h, x + k, y, src[k], ps + all[..k]);
      assert ps + all[..k] + [Put(x + k, y, src[k])] == ps + all[..k + 1];
      k := k + 1;
    }
    assert all[..k] == all;
  }

  function Values(four: bool, b: Byte, n: nat): (s: seq<int>)
    ensures |s| == n
  {
    seq(n, k requires 0 <= k < n => if !four then b else if k % 2 == 1 then b % 16 else b / 16)
  }

  function Literals(four: bool, bytes: seq<Byte>, n: nat): (s: seq<int>)
    requires if four then n <= 2 * |bytes| else n <= |bytes|
    ensures |s| == n
  {
    seq(n, k requires 0 <= k < n => if !four then bytes[k] else if k % 2 == 1 then bytes[k / 2] % 16 else bytes[k / 2] / 16)
  }

  /** What is left to do after the puts `ps` is what the commands from `i` on do. */
  ghost predicate Left(all: seq<Put>, ps: seq<Put>, p: seq<Byte>, four: bool, h: nat, i: nat, x: nat, y: nat)
  {
    all == ps + Commands(p, four, h, i, x, y)
  }

  lemma LeftNothing(all: seq<Put>, ps: seq<Put>, p: seq<Byte>, four: bool, h: nat, i: nat, x: nat, y: nat)
    requires Left(all, ps, p, four, h, i, x, y)
    requires i + 2 > |p| || y >= h || (p[i] == 0 && (p[i + 1] == 1 || (p[i + 1] == 2 && i + 4 > |p|)))
    ensures all == ps
  {
    assert ps + [] == ps;
  }

  lemma LeftRun(all: seq<Put>, ps: seq<Put>, p: seq<Byte>, four: bool, h: nat, i: nat, x: nat, y: nat, c: nat)
    requires Left(all, ps, p, four, h, i, x, y) && i + 2 <= |p| && y < h && c == p[i] > 0
    ensures Left(all, ps + Encoded(four, p[i + 1], c, x, y), p, four, h, i + 2, x + c, y)
  {
    hide Encoded;
    var run, rest := Encoded(four, p[i + 1], c, x, y), Commands(p, four, h, i + 2, x + c, y);
    assert ps + (run + rest) == ps + run + rest;
  }

  lemma LeftMove(all: seq<Put>, ps: seq<Put>, p: seq<Byte>, four: bool, h: nat, i: nat, x: nat, y: nat)
    requires Left(all, ps, p, four, h, i, x, y) && i + 2 <= |p| && y < h && p[i] == 0
    ensures p[i + 1] == 0 ==> Left(all, ps, p, four, h, i + 2, 0, y + 1)
    ensures p[i + 1] == 2 && i + 4 <= |p| ==> Left(all, ps, p, four, h, i + 4, x + p[i + 2], y + p[i + 3])
  {
  }

  lemma LeftAbsolute(all: seq<Put>, ps: seq<Put>, p: seq<Byte>, four: bool, h: nat, i: nat, x: nat, y: nat, v: nat)
    requires Left(all, ps, p, four, h, i, x, y) && i + 2 <= |p| && y < h && p[i] == 0 && v == p[i + 1] > 2
    ensures var (bytes, skip) := Extent(p, four, i + 2, v);
      var n := Least(v, if four then 2 * bytes else bytes);
      Left(all, ps + Absolute(four, p[i + 2..i + 2 + bytes], n, x, y), p, four, h, i + 2 + skip, x + n, y)
  {
    hide Absolute, Extent;
    var (bytes, skip) := Extent(p, four, i + 2, v);
    var n := Least(v, if four then 2 * bytes else bytes);
    var run, rest := Absolute(four, p[i + 2..i + 2 + bytes], n, x, y), Commands(p, four, h, i + 2 + skip, x + n, y);
    assert ps + (run + rest) == ps + run + rest;
  }

  /** Interprets the commands from the start of `p`, with the cursor at the first
      pixel of the file's first row. */
  method Decode(p: seq<Byte>, w: nat, h: nat, four: bool, plane: array<int>)
    requires plane.Length == w * h && forall k :: 0 <= k < plane.Length ==> plane[k] == UNDEF
    modifies plane
    ensures Shows(plane[..], w, h, Commands(p, four, h, 0, 0, 0))
  {
    hide Shows, Nibble, Commands, Left, Encoded, Absolute, Values, Literals;
    ghost var all := Commands(p, four, h, 0, 0, 0);
    ghost var ps: seq<Put> := [];
    StartsUndefined(plane[..], w, h);
    LeftAll(p, four, h);
    var x: nat, y: nat, i: nat := 0, 0, 0;
    while i + 2 <= |p| && y < h
      invariant Shows(plane[..], w, h, ps) && Left(all, ps, p, four, h, i, x, y)
      decreases |p| - i
    {
      var c: nat, v: nat := p[i], p[i + 1];
      if c > 0 {
        LeftRun(all, ps, p, four, h, i, x, y, c);
        EncodedIs(four, v, c, x, y);
        PutRun(plane, w, h, x, y, Values(four, v, c), ps);
        ps := ps + Encoded(four, v, c, x, y);
        x, i := x + c, i + 2;
      } else if v == 0 {
        LeftMove(all, ps, p, four, h, i, x, y);
        x, y, i := 0, y + 1, i + 2;
      } else if v == 1 {
        break;
      } else if v == 2 {
        if i + 4 > |p| {
          break;
        }
        LeftMove(all, ps, p, four, h, i, x, y);
        x, y, i := x + p[i + 2], y + p[i + 3], i + 4;
      } else {
        LeftAbsolute(all, ps, p, four, h, i, x, y, v);
        var bytes := if four then (v + 1) / 2 else v;
        var skip := bytes + bytes % 2;
        if i + 2 + bytes > |p| {
          bytes := |p| - (i + 2);
          skip := bytes;
        }
        ExtentIs(p, four, i + 2, v);
        var n := Least(v, if four then 2 * bytes else bytes);
        var lit := p[i + 2..i + 2 + bytes];
        AbsoluteIs(four, lit, n, x, y);
        PutRun(plane, w, h, x, y, Literals(four, lit, n), ps);
        ps := ps + Absolute(four, lit, n, x, y);
        x, i := x + n, i + 2 + skip;
      }
    }
    LeftNothing(all, ps, p, four, h, i, x, y);
  }

  lemma LeftAll(p: seq<Byte>, four: bool, h: nat)
    ensures Left(Commands(p, four, h, 0, 0, 0), [], p, four, h, 0, 0, 0)
  {
  }

  lemma StartsUndefined(plane: seq<int>, w: nat, h: nat)
    requires |plane| == w * h && forall k :: 0 <= k < |plane| ==> plane[k] == UNDEF
    ensures Shows(plane, w, h, [])
  {
    forall x: nat, y: nat | x < w && y < h ensures At(plane, w, h, x, y) == UNDEF { InPlane(x, y, w, h); }
  }

  lemma EncodedIs(four: bool, b: Byte, n: nat, x: nat, y: nat)
    ensures var src := Values(four, b, n);
      Encoded(four, b, n, x, y) == seq(|src|, k requires 0 <= k < |src| => Put(x + k, y, src[k]))
  {
  }

  lemma ExtentIs(p: seq<Byte>, four: bool, i: nat, v: nat)
    requires i <= |p|
    ensures var bytes := if four then (v + 1) / 2 else v;
      Extent(p, four, i, v) == if i + bytes > |p| then (|p| - i, |p| - i) else (bytes, bytes + bytes % 2)
  {
  }

  lemma AbsoluteIs(four: bool, bytes: seq<Byte>, n: nat, x: nat, y: nat)
    requires if four then n <= 2 * |bytes| else n <= |bytes|
    ensures var src := Literals(four, bytes, n);
      Absolute(four, bytes, n, x, y) == seq(|src|, k requires 0 <= k < |src| => Put(x + k, y, src[k]))
  {
  }

  // ---- the commands a picture is written with ---------------------------------------

  /** What a command draws: pixels of two alternating values, pixels of any values, the
      next row, or a move. */
  datatype Segment = Run(n: nat, a: Byte, b: Byte) | Literal(vs: seq<Byte>) | Line | Skip(dx: Byte, dy: Byte)

  /** The segment can be written: RLE4 has small values, RLE8 runs of one value. */
  ghost predicate Writable(s: Segment, four: bool)
  {
    match s
    case Run(n, a, b) => 1 <= n <= 255 && if four then a < 16 && b < 16 else a == b
    case Literal(vs) => 3 <= |vs| <= 255 && (four ==> forall k :: 0 <= k < |vs| ==> vs[k] < 16)
    case _ => true
  }

  /** Two values in a byte, the first in its high half. */
  ghost function Packed(vs: seq<Byte>): (r: seq<Byte>)
    requires forall k :: 0 <= k < |vs| ==> vs[k] < 16
    ensures |r| == (|vs| + 1) / 2
  {
    seq((|vs| + 1) / 2, j requires 0 <= j < (|vs| + 1) / 2 => 16 * vs[2 * j] + if 2 * j + 1 < |vs| then vs[2 * j + 1] else 0)
  }

  /** Literal bytes are padded to an even number. */
  ghost function Padded(b: seq<Byte>): (r: seq<Byte>)
    ensures |r| == |b| + |b| % 2 && b <= r
  {
    if |b| % 2 == 1 then b + [0] else b
  }

  ghost function Code(s: Segment, four: bool): (r: seq<Byte>)
    requires Writable(s, four)
  {
    match s
    case Run(n, a, b) => [n, if four then 16 * a + b else a]
    case Literal(vs) => [0, |vs|] + Padded(if four then Packed(vs) else vs)
    case Line => [0, 0]
    case Skip(dx, dy) => [0, 2, dx, dy]
  }

  /** The codes of all segments, and the end of the picture. */
  ghost function CodeAll(ss: seq<Segment>, four: bool): (r: seq<Byte>)
    requires forall k :: 0 <= k < |ss| ==> Writable(ss[k], four)
  {
    if ss == [] then [0, 1] else Code(ss[0], four) + CodeAll(ss[1..], four)
  }

  /** What a segment draws from (x, y) on, and where it leaves the cursor. */
  ghost function Puts(s: Segment, x: nat, y: nat): (ps: seq<Put>)
  {
    match s
    case Run(n, a, b) => seq(n, k requires 0 <= k < n => Put(x + k, y, if k % 2 == 0 then a else b))
    case Literal(vs) => seq(|vs|, k requires 0 <= k < |vs| => Put(x + k, y, vs[k]))
    case _ => []
  }

  ghost function NextX(s: Segment, x: nat): nat
  {
    match s
    case Run(n, _, _) => x + n
    case Literal(vs) => x + |vs|
    case Line => 0
    case Skip(dx, _) => x + dx
  }

  ghost function NextY(s: Segment, y: nat): nat { if s.Line? then y + 1 else if s.Skip? then y + s.dy else y }

  /** What the segments draw in a picture of `h` rows. */
  ghost function Drawn(ss: seq<Segment>, h: nat, x: nat, y: nat): (ps: seq<Put>)
    decreases |ss|
  {
    if ss == [] || y >= h then []
    else Puts(ss[0], x, y) + Drawn(ss[1..], h, NextX(ss[0], x), NextY(ss[0], y))
  }

  /** The commands draw what they were written for. */
  lemma {:induction false} CommandsBack(ss: seq<Segment>, four: bool, p: seq<Byte>, i: nat, h: nat, x: nat, y: nat)
    requires forall k :: 0 <= k < |ss| ==> Writable(ss[k], four)
    requires i <= |p| && p[i..] == CodeAll(ss, four)
    ensures Commands(p, four, h, i, x, y) == Drawn(ss, h, x, y)
    decreases |ss|
  {
    hide Commands, Code, Puts, NextX, NextY, Writable;
    if ss == [] {
      assert p[i..][0] == 0 && p[i..][1] == 1;
      NothingLeft(p, four, h, i, x, y);
    } else if y >= h {
      NothingLeft(p, four, h, i, x, y);
    } else {
      var c := Code(ss[0], four);
      Begins(p, i, c, CodeAll(ss[1..], four));
      OneBack(ss[0], four, p, i, h, x, y);
      CommandsBack(ss[1..], four, p, i + |c|, h, NextX(ss[0], x), NextY(ss[0], y));
    }
  }

  lemma OneBack(s: Segment, four: bool, p: seq<Byte>, i: nat, h: nat, x: nat, y: nat)
    requires y < h && Writable(s, four)
    requires var c := Code(s, four); i + |c| <= |p| && p[i..i + |c|] == c
    ensures Commands(p, four, h, i, x, y) == Puts(s, x, y) + Commands(p, four, h, i + |Code(s, four)|, NextX(s, x), NextY(s, y))
  {
    hide Commands, Packed, Padded;
    match s
    case Run(n, a, b) => RunBack(p, four, h, i, x, y, n, a, b);
    case Literal(vs) => LiteralBack(p, four, h, i, x, y, vs);
    case _ => MoveBack(p, four, h, i, x, y);
  }

  lemma Begins(p: seq<Byte>, i: nat, c: seq<Byte>, rest: seq<Byte>)
    requires i <= |p| && p[i..] == c + rest
    ensures i + |c| <= |p| && p[i..i + |c|] == c && p[i + |c|..] == rest
  {
    assert p[i..][..|c|] == c && p[i..][|c|..] == rest;
  }

  lemma NothingLeft(p: seq<Byte>, four: bool, h: nat, i: nat, x: nat, y: nat)
    requires i + 2 > |p| || y >= h || (p[i] == 0 && p[i + 1] == 1)
    ensures Commands(p, four, h, i, x, y) == []
  {
  }

  lemma RunBack(p: seq<Byte>, four: bool, h: nat, i: nat, x: nat, y: nat, n: nat, a: Byte, b: Byte)
    requires y < h && Writable(Run(n, a, b), four) && i + 2 <= |p| && p[i..i + 2] == Code(Run(n, a, b), four)
    ensures Commands(p, four, h, i, x, y)
         == seq(n, k requires 0 <= k < n => Put(x + k, y, if k % 2 == 0 then a else b)) + Commands(p, four, h, i + 2, x + n, y)
  {
    var v := p[i..i + 2][1];
    assert p[i] == p[i..i + 2][0] && p[i + 1] == v;
    assert four ==> v / 16 == a && v % 16 == b;
  }

  lemma MoveBack(p: seq<Byte>, four: bool, h: nat, i: nat, x: nat, y: nat)
    requires y < h && i + 2 <= |p|
    ensures p[i..i + 2] == [0, 0] ==> Commands(p, four, h, i, x, y) == Commands(p, four, h, i + 2, 0, y + 1)
    ensures i + 4 <= |p| ==> forall dx: Byte, dy: Byte :: p[i..i + 4] == [0, 2, dx, dy] ==>
      Commands(p, four, h, i, x, y) == Commands(p, four, h, i + 4, x + dx, y + dy)
  {
    assert p[i] == p[i..i + 2][0] && p[i + 1] == p[i..i + 2][1];
    if i + 4 <= |p| {
      var q := p[i..i + 4];
      assert p[i] == q[0] && p[i + 1] == q[1] && p[i + 2] == q[2] && p[i + 3] == q[3];
    }
  }

  lemma LiteralBack(p: seq<Byte>, four: bool, h: nat, i: nat, x: nat, y: nat, vs: seq<Byte>)
    requires y < h && Writable(Literal(vs), four)
    requires var c := Code(Literal(vs), four); i + |c| <= |p| && p[i..i + |c|] == c
    ensures Commands(p, four, h, i, x, y)
         == seq(|vs|, k requires 0 <= k < |vs| => Put(x + k, y, vs[k]))
            + Commands(p, four, h, i + |Code(Literal(vs), four)|, x + |vs|, y)
  {
    hide Absolute, Commands, Packed, Padded;
    var b := if four then Packed(vs) else vs;
    Opening(p, i, |vs|, b, Padded(b));
    LiteralValues(four, b, vs, x, y);
    LiteralStep(p, four, h, i, x, y, |vs|);
  }

  lemma Opening(p: seq<Byte>, i: nat, v: Byte, b: seq<Byte>, padded: seq<Byte>)
    requires b <= padded && i + 2 + |padded| <= |p| && p[i..i + 2 + |padded|] == [0, v] + padded
    ensures p[i] == 0 && p[i + 1] == v && p[i + 2..i + 2 + |b|] == b
  {
    var q := p[i..i + 2 + |padded|];
    assert p[i] == q[0] && p[i + 1] == q[1];
    assert forall k :: 0 <= k < |b| ==> p[i + 2 + k] == q[2 + k] == padded[k] == b[k];
  }

  lemma LiteralStep(p: seq<Byte>, four: bool, h: nat, i: nat, x: nat, y: nat, n: nat)
    requires var bytes := if four then (n + 1) / 2 else n;
      3 <= n && y < h && i + 2 + bytes <= |p| && p[i] == 0 && p[i + 1] == n
    ensures var bytes := if four then (n + 1) / 2 else n;
      Commands(p, four, h, i, x, y)
        == Absolute(four, p[i + 2..i + 2 + bytes], n, x, y) + Commands(p, four, h, i + 2 + bytes + bytes % 2, x + n, y)
  {
    hide Absolute, Encoded;
  }

  lemma LiteralValues(four: bool, b: seq<Byte>, vs: seq<Byte>, x: nat, y: nat)
    requires Writable(Literal(vs), four) && b == if four then Packed(vs) else vs
    ensures Absolute(four, b, |vs|, x, y) == seq(|vs|, k requires 0 <= k < |vs| => Put(x + k, y, vs[k]))
  {
    if four {
      forall k | 0 <= k < |vs| ensures Nibble(b[k / 2], k) == vs[k] {
        var j := k / 2;
        assert b[j] == 16 * vs[2 * j] + if 2 * j + 1 < |vs| then vs[2 * j + 1] else 0;
      }
    }
  }

  /** A picture that is written and decoded shows what its segments draw. */
  method Decoded(ss: seq<Segment>, w: nat, h: nat, four: bool, p: seq<Byte>, plane: array<int>)
    requires forall k :: 0 <= k < |ss| ==> Writable(ss[k], four)
    requires p == CodeAll(ss, four)
    requires plane.Length == w * h && forall k :: 0 <= k < plane.Length ==> plane[k] == UNDEF
    modifies plane
    ensures Shows(plane[..], w, h, Drawn(ss, h, 0, 0))
  {
    hide Shows, Commands, Drawn;
    assert p[0..] == p;
    CommandsBack(ss, four, p, 0, h, 0, 0);
    Decode(p, w, h, four, plane);
  }
}
