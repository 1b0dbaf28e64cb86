/** The BMP decoder: a header parser whose checks justify every later access, row
    conversion for all pixel depths, and the driver that crops or scales. */
module Bmp {
  import opened BitSeq
  import Huffman
  import BmpRle
  import opened Common
  import opened Grid
  import Scaler

  const MAX_DIM := 65535

  /** No buffer is larger than the addresses of the machine. */
  const ADDRESSES: nat := 0x1_0000_0000_0000
  const MAX_RLE_PIXELS := 0x200_0000

  datatype Compression = Rgb | Rle8 | Rle4 | Fields | Jpeg | Png | AlphaFields

  datatype Color = Color(b: Byte, g: Byte, r: Byte, a: Byte)

  /** A colour channel of a packed pixel: its mask, the place of its lowest bit and
      the mask moved there; a zero mask is an absent channel. */
  datatype Channel = Channel(mask: nat, shift: nat, max: nat)

  datatype Header = Header(
    w: nat, h: nat, topDown: bool, bpp: nat, comp: Compression,
    chans: seq<Channel>, pal: seq<Color>, dataOff: nat, stride: nat, std32: bool)

  datatype Parsed = Ok(header: Header) | Invalid | Unsupported

  function Rd16(d: seq<Byte>, p: nat): (v: nat)
    requires p + 2 <= |d|
    ensures v < 0x1_0000
  {
    d[p] as int + 256 * (d[p + 1] as int)
  }

  function Rd32(d: seq<Byte>, p: nat): (v: nat)
    requires p + 4 <= |d|
    ensures v < 0x1_0000_0000
  {
    Rd16(d, p) + 0x1_0000 * Rd16(d, p + 2)
  }

  /** The cast from `uint32_t` to `int32_t`. */
  function Signed32(v: nat): (r: int)
    requires v < 0x1_0000_0000
    ensures -0x8000_0000 <= r < 0x8000_0000 && (v - r) % 0x1_0000_0000 == 0
  {
    if v < 0x8000_0000 then v else v - 0x1_0000_0000
  }

  /** The number that names a compression in the file. */
  ghost function CodeOf(c: Compression): nat
  {
    if c.Rgb? then 0 else if c.Rle8? then 1 else if c.Rle4? then 2 else if c.Fields? then 3
    else if c.Jpeg? then 4 else if c.Png? then 5 else 6
  }

  function CompressionOf(v: nat): (c: Option<Compression>)
    ensures c.None? <==> v > 6
    ensures c.Some? ==> v == CodeOf(c.value)
  {
    match v
    case 0 => Some(Rgb)
    case 1 => Some(Rle8)
    case 2 => Some(Rle4)
    case 3 => Some(Fields)
    case 4 => Some(Jpeg)
    case 5 => Some(Png)
    case 6 => Some(AlphaFields)
    case _ => None
  }

  ghost predicate Plain(c: Compression) { c.Rgb? || c.Fields? || c.AlphaFields? }

  ghost predicate Depth(bpp: nat) { bpp in {1, 2, 4, 8, 16, 24, 32} }

  /** What an accepted header promises about a file of `size` bytes. */
  ghost predicate Usable(h: Header, size: nat)
  {
    && 1 <= h.w <= MAX_DIM && 1 <= h.h <= MAX_DIM && h.dataOff <= size
    && (!h.comp.Jpeg? && !h.comp.Png? ==>
          && Depth(h.bpp) && |h.chans| == 4 && |h.pal| == 256
          && h.stride == ((h.w * h.bpp + 31) / 32) * 4
          && (h.comp.Rle8? ==> h.bpp == 8) && (h.comp.Rle4? ==> h.bpp == 4)
          && (Plain(h.comp) ==> h.dataOff + h.stride * h.h <= size)
          && (h.comp.Fields? || h.comp.AlphaFields? ==> h.bpp == 16 || h.bpp == 32)
          && forall i :: 0 <= i < 4 ==> ChannelOk(h.chans[i]))
  }

  /** The mask is its top value moved up to its lowest bit. */
  ghost predicate ChannelOk(c: Channel)
  {
    c.shift < 32 && c.mask == Shl(c.max, c.shift) && c.mask < 0x1_0000_0000 && (c.max > 0 ==> c.max % 2 == 1)
  }

  const NO_CHANNEL := Channel(0, 0, 0)

  method SetMask(bpp: nat, m: nat) returns (c: Channel)
    requires m < 0x1_0000_0000
    ensures ChannelOk(c) && c.mask == Narrow(bpp, m) && (c.max == 0 <==> c.mask == 0)
  {
    hide Shl;
    var mask := if bpp == 16 then m % 0x1_0000 else m;
    if mask == 0 {
      Huffman.ShlZero(0);
      return NO_CHANNEL;
    }
    var s, v := 0, mask;
    assert Shl(v, 0) == v by { ShlNone(v); }
    while v % 2 == 0
      invariant 0 < v <= mask && s >= 0 && Shl(v, s) == mask
      decreases v
    {
      ShlDouble(v / 2, s);
      v := v / 2;
      s := s + 1;
    }
    ShiftBound(v, s, mask);
    c := Channel(mask, s, v);
  }

  lemma ShlNone(v: int)
    ensures Shl(v, 0) == v
  {
  }

  lemma ShiftBound(v: nat, s: nat, mask: nat)
    requires v > 0 && Shl(v, s) == mask < 0x1_0000_0000
    ensures s < 32
  {
    if s >= 32 {
      Huffman.ShlShl(v, 32, s - 32);
      Huge(v);
    }
  }

  lemma Huge(v: nat)
    requires v > 0
    ensures Shl(v, 32) >= 0x1_0000_0000
  {
    assert Shl(v, 8) >= 0x100 by { Times256(v); }
    Huffman.ShlShl(v, 8, 8);
    assert Shl(v, 16) >= 0x1_0000 by { Times256(Shl(v, 8)); }
    Huffman.ShlShl(v, 16, 8);
    assert Shl(v, 24) >= 0x100_0000 by { Times256(Shl(v, 16)); }
    Huffman.ShlShl(v, 24, 8);
    Times256(Shl(v, 24));
  }

  lemma Times256(v: int)
    ensures Shl(v, 8) == 256 * v
  {
    assert Shl(v, 0) == v;
    assert Shl(v, 2) == 4 * v;
    assert Shl(v, 4) == 16 * v;
    assert Shl(v, 6) == 64 * v;
  }

  /** Entry `i` of a palette of `n` entries stored from `at` on; the rest is black. */
  ghost function EntryAt(d: seq<Byte>, at: nat, entry: nat, n: nat, i: nat): (c: Color)
    requires 3 <= entry && at + n * entry <= |d|
  {
    if i < n then
      Grid.Mono(entry, i + 1, n);
      assert (i + 1) * entry == i * entry + entry;
      Color(d[at + i * entry], d[at + i * entry + 1], d[at + i * entry + 2], 255)
    else Color(0, 0, 0, 255)
  }

  method ReadPalette(d: seq<Byte>, at: nat, entry: nat, n: nat) returns (pal: seq<Color>)
    requires 3 <= entry && at + n * entry <= |d|
    ensures |pal| == 256 && forall i :: 0 <= i < 256 ==> pal[i] == EntryAt(d, at, entry, n, i)
  {
    pal := [];
    while |pal| < 256
      invariant |pal| <= 256 && forall i :: 0 <= i < |pal| ==> pal[i] == EntryAt(d, at, entry, n, i)
      decreases 256 - |pal|
    {
      var i := |pal|;
      var c := Color(0, 0, 0, 255);
      if i < n {
        assert (i + 1) * entry <= n * entry by { Grid.Mono(entry, i + 1, n); }
        assert (i + 1) * entry == i * entry + entry;
        c := Color(d[at + i * entry], d[at + i * entry + 1], d[at + i * entry + 2], 255);
      }
      pal := pal + [c];
    }
  }

  ghost function Narrow(bpp: nat, m: nat): nat { if bpp == 16 then m % 0x1_0000 else m }

  ghost predicate HasMasks(comp: Compression) { comp.Fields? || comp.AlphaFields? }

  /** Where the masks end when they follow a short header. */
  ghost function MasksEnd(hs: nat, comp: Compression): nat { 14 + hs + (if comp.AlphaFields? then 16 else 12) }

  ghost predicate MasksReadable(d: seq<Byte>, hs: nat, comp: Compression)
  {
    HasMasks(comp) ==>
      if hs >= 56 then |d| >= 70 else if hs >= 52 then |d| >= 66 else MasksEnd(hs, comp) <= |d|
  }

  /** Mask `c` (red, green, blue, alpha): inside a long header, after a short one,
      or the usual one. */
  ghost function MaskOf(d: seq<Byte>, hs: nat, comp: Compression, bpp: nat, c: nat): (m: nat)
    requires MasksReadable(d, hs, comp) && c < 4
    ensures m < 0x1_0000_0000
  {
    if HasMasks(comp) then
      if c == 3 && (if hs >= 52 then hs < 56 else comp.Fields?) then 0
      else Rd32(d, (if hs >= 52 then 54 else 14 + hs) + 4 * c)
    else if bpp == 16 then (match c case 0 => 0x7C00 case 1 => 0x03E0 case 2 => 0x001F case _ => 0)
    else if bpp == 32 then (match c case 0 => 0xFF_0000 case 1 => 0xFF00 case 2 => 0xFF case _ => 0)
    else 0
  }

  ghost predicate ChannelsOf(chans: seq<Channel>, d: seq<Byte>, hs: nat, comp: Compression, bpp: nat)
  {
    && MasksReadable(d, hs, comp) && |chans| == 4
    && forall c :: 0 <= c < 4 ==> ChannelOk(chans[c]) && chans[c].mask == Narrow(bpp, MaskOf(d, hs, comp, bpp, c))
  }

  /** Reads the four masks. */
  method ReadMasks(d: seq<Byte>, hs: nat, hdrEnd: nat, bpp: nat, comp: Compression) returns (ok: bool, m: seq<nat>, end: nat)
    requires (hs >= 52 ==> |d| >= 66) && (hs >= 56 ==> |d| >= 70) && hdrEnd == (14 + hs) % 0x1_0000_0000
    ensures ok <==> MasksReadable(d, hs, comp)
    ensures ok ==> |m| == 4 && forall c :: 0 <= c < 4 ==> m[c] == MaskOf(d, hs, comp, bpp, c)
    ensures ok ==> end == if HasMasks(comp) && hs < 52 then MasksEnd(hs, comp) else hdrEnd
  {
    hide Rd32;
    end := hdrEnd;
    var m0, m1, m2, m3 := 0, 0, 0, 0;
    if comp.Fields? || comp.AlphaFields? {
      if hs >= 52 {
        m0, m1, m2 := Rd32(d, 54), Rd32(d, 58), Rd32(d, 62);
        if hs >= 56 { m3 := Rd32(d, 66); }
      } else {
        var n := if comp.AlphaFields? then 16 else 12;
        if hdrEnd + n > |d| {
          return false, [], end;
        }
        m0, m1, m2 := Rd32(d, hdrEnd), Rd32(d, hdrEnd + 4), Rd32(d, hdrEnd + 8);
        if n == 16 { m3 := Rd32(d, hdrEnd + 12); }
        end := hdrEnd + n;
      }
    } else if bpp == 16 {
      m0, m1, m2 := 0x7C00, 0x03E0, 0x001F;
    } else if bpp == 32 {
      m0, m1, m2 := 0xFF_0000, 0xFF00, 0xFF;
    }
    ok, m := true, [m0, m1, m2, m3];
  }

  /** Red, green and blue are all absent. */
  ghost predicate Colourless(m: seq<nat>, bpp: nat)
    requires |m| == 4
  {
    Narrow(bpp, m[0]) == 0 && Narrow(bpp, m[1]) == 0 && Narrow(bpp, m[2]) == 0
  }

  /** The channels of a pixel format; a file's own masks may not leave out red, green
      and blue together. */
  method Channels(d: seq<Byte>, hs: nat, hdrEnd: nat, bpp: nat, comp: Compression) returns (ok: bool, chans: seq<Channel>, end: nat)
    requires (hs >= 52 ==> |d| >= 66) && (hs >= 56 ==> |d| >= 70) && hdrEnd == (14 + hs) % 0x1_0000_0000
    ensures ok ==> ChannelsOf(chans, d, hs, comp, bpp)
    ensures ok <==> MasksReadable(d, hs, comp) && !(HasMasks(comp) && Colourless(seq(4, c requires 0 <= c < 4 => MaskOf(d, hs, comp, bpp, c)), bpp))
    ensures ok ==> end == if HasMasks(comp) && hs < 52 then MasksEnd(hs, comp) else hdrEnd
  {
    hide ChannelOk, MaskOf, MasksReadable;
    var m: seq<nat>;
    ok, m, end := ReadMasks(d, hs, hdrEnd, bpp, comp);
    chans := [];
    if ok {
      assert m == seq(4, c requires 0 <= c < 4 => MaskOf(d, hs, comp, bpp, c));
      assert m[0] < 0x1_0000_0000 && m[1] < 0x1_0000_0000 && m[2] < 0x1_0000_0000 && m[3] < 0x1_0000_0000;
      var c0 := SetMask(bpp, m[0]);
      var c1 := SetMask(bpp, m[1]);
      var c2 := SetMask(bpp, m[2]);
      var c3 := SetMask(bpp, m[3]);
      chans := [c0, c1, c2, c3];
      ok := !((comp.Fields? || comp.AlphaFields?) && c0.max == 0 && c1.max == 0 && c2.max == 0);
    }
  }

  /** Size, depth, compression and palette count of the two header families. */
  datatype Basics = Basics(core: bool, w: int, h: int, planes: nat, bpp: nat, comp: nat, used: nat)

  /** The fields as each header family stores them. */
  ghost function FieldsOf(d: seq<Byte>, hs: nat): (f: Basics)
    requires |d| >= 26 && (hs != 12 ==> |d| >= 30 && (hs >= 20 ==> |d| >= 34) && (hs >= 36 ==> |d| >= 50))
  {
    if hs == 12 then Basics(true, Rd16(d, 18), Rd16(d, 20), Rd16(d, 22), Rd16(d, 24), 0, 0)
    else Basics(false, Signed32(Rd32(d, 18)), Signed32(Rd32(d, 22)), Rd16(d, 26), Rd16(d, 28),
                if hs >= 20 then Rd32(d, 30) else 0, if hs >= 36 then Rd32(d, 46) else 0)
  }

  /** The header sizes the decoder knows, with all of the header it reads present. */
  ghost predicate Known(d: seq<Byte>, hs: nat)
  {
    |d| >= 26 && (hs == 12 || ((hs == 16 || hs >= 40) && 14 + (if hs < 64 then hs else 64) <= |d|))
  }

  method ReadFields(d: seq<Byte>, hs: nat) returns (rc: int, f: Basics)
    requires |d| >= 26 && hs < 0x1_0000_0000
    ensures rc == 0 <==> Known(d, hs)
    ensures rc == 0 || (rc == -2 && hs != 12 && hs != 16 && hs < 40) || (rc == -1 && (hs == 16 || hs >= 40))
    ensures rc == 0 ==> f == FieldsOf(d, hs)
  {
    f := Basics(false, 0, 0, 0, 0, 0, 0);
    if hs == 12 {
      return 0, Basics(true, Rd16(d, 18), Rd16(d, 20), Rd16(d, 22), Rd16(d, 24), 0, 0);
    }
    if hs == 16 || hs >= 40 {
      if 14 + (if hs < 64 then hs else 64) > |d| {
        return -1, f;
      }
      return 0, Basics(false, Signed32(Rd32(d, 18)), Signed32(Rd32(d, 22)), Rd16(d, 26), Rd16(d, 28),
                       if hs >= 20 then Rd32(d, 30) else 0, if hs >= 36 then Rd32(d, 46) else 0);
    }
    return -2, f;
  }

  function HeaderEnd(hs: nat): nat { (14 + hs) % 0x1_0000_0000 }

  /** The header says what the file's bytes say: size, orientation, depth, masks and
      palette. */
  ghost predicate Describes(h: Header, d: seq<Byte>)
    requires Usable(h, |d|)
  {
    && |d| >= 26 && Known(d, Rd32(d, 14))
    && var hs := Rd32(d, 14);
       var f := FieldsOf(d, hs);
    && h.dataOff == Rd32(d, 10)
    && h.w == f.w && f.h == (if h.topDown then -(h.h as int) else h.h) && h.bpp == f.bpp
    && CompressionOf(f.comp) == Some(h.comp)
    && (!h.comp.Jpeg? && !h.comp.Png? ==>
          && ChannelsOf(h.chans, d, hs, h.comp, h.bpp)
          && (h.std32 <==> h.bpp == 32 && h.chans[0].mask == 0xFF_0000 && h.chans[1].mask == 0xFF00 && h.chans[2].mask == 0xFF)
          && (h.bpp <= 8 ==> PaletteOf(h.pal, d, hs, h.dataOff, f, h.bpp)))
  }

  ghost predicate PaletteOf(pal: seq<Color>, d: seq<Byte>, hs: nat, off: nat, f: Basics, bpp: nat)
    requires bpp in {1, 2, 4, 8} && off <= |d|
  {
    && HeaderEnd(hs) <= off && |pal| == 256
    && var entry := if f.core then 3 else 4;
       var n := PaletteCount(f.used, bpp, (off - HeaderEnd(hs)) / entry);
    && HeaderEnd(hs) + n * entry <= |d|
    && forall i :: 0 <= i < 256 ==> pal[i] == EntryAt(d, HeaderEnd(hs), entry, n, i)
  }

  lemma PaletteSize(bpp: nat)
    requires bpp in {1, 2, 4, 8}
    ensures 2 <= Pow2(bpp) <= 256
  {
    Pow2Values();
  }

  /** How many palette entries the file has room for and declares. */
  ghost function PaletteCount(used: nat, bpp: nat, avail: nat): (n: nat)
    requires bpp in {1, 2, 4, 8}
    ensures n <= avail && n <= 256
  {
    PaletteSize(bpp);
    var declared := if used == 0 || used > Pow2(bpp) then Pow2(bpp) else used;
    if declared < avail then declared else avail
  }

  /** Where the pixel format's own data ends: the header, or the masks behind it. */
  ghost function FormatEnd(hs: nat, comp: Compression): nat { if HasMasks(comp) && hs < 52 then MasksEnd(hs, comp) else HeaderEnd(hs) }

  ghost function Stride(w: nat, bpp: nat): nat { ((w * bpp + 31) / 32) * 4 }

  /** The depth suits the header family and the compression. */
  ghost predicate DepthSuits(core: bool, bpp: nat, comp: Compression)
  {
    && Depth(bpp) && !(core && bpp in {2, 16, 32})
    && (comp.Rle8? ==> bpp == 8) && (comp.Rle4? ==> bpp == 4) && (HasMasks(comp) ==> bpp == 16 || bpp == 32)
  }

  /** Stored pixels can be decoded: the depth suits, the masks are there and show some
      colour, and uncompressed rows lie inside the file. */
  ghost predicate PixelsAcceptable(d: seq<Byte>, off: nat, hs: nat, f: Basics, comp: Compression, w: nat, h: nat)
  {
    && DepthSuits(f.core, f.bpp, comp) && MasksReadable(d, hs, comp)
    && !(HasMasks(comp) && Colourless(seq(4, c requires 0 <= c < 4 => MaskOf(d, hs, comp, f.bpp, c)), f.bpp))
    && FormatEnd(hs, comp) <= off <= |d| && (Plain(comp) ==> off + Stride(w, f.bpp) * h <= |d|)
  }

  /** The header fields common to all files are acceptable. */
  ghost predicate FieldsAcceptable(d: seq<Byte>)
  {
    && |d| >= 26 && d[0] == 0x42 && d[1] == 0x4D && Known(d, Rd32(d, 14))
    && var f := FieldsOf(d, Rd32(d, 14));
    && f.planes == 1 && 1 <= f.w <= MAX_DIM && f.h != 0 && -MAX_DIM <= f.h <= MAX_DIM && CompressionOf(f.comp).Some?
  }

  /** Which files are accepted, by their bytes. */
  ghost predicate Acceptable(d: seq<Byte>)
  {
    && FieldsAcceptable(d)
    && var off, hs := Rd32(d, 10), Rd32(d, 14);
       var f := FieldsOf(d, hs);
       var comp := CompressionOf(f.comp).value;
       if comp.Jpeg? || comp.Png? then off <= |d|
       else PixelsAcceptable(d, off, hs, f, comp, f.w, if f.h < 0 then -f.h else f.h)
  }

  /** A bitmap of a kind this decoder does not read: another header, more than 65535 pixels on
      a side, another compression, or another depth. What else is refused is invalid. */
  ghost predicate Foreign(d: seq<Byte>)
  {
    && |d| >= 26 && d[0] == 0x42 && d[1] == 0x4D
    && var hs := Rd32(d, 14);
       if !Known(d, hs) then hs != 12 && hs != 16 && hs < 40
       else
         var f := FieldsOf(d, hs);
         && f.planes == 1 && f.w > 0 && f.h != 0
         && (f.w > MAX_DIM || f.h > MAX_DIM || -f.h > MAX_DIM || f.comp > 6
             || (f.comp != 4 && f.comp != 5 && ForeignDepth(f.core, f.bpp)))
  }

  ghost predicate ForeignDepth(core: bool, bpp: nat) { !Depth(bpp) || (core && bpp in {2, 16, 32}) }

  /** Parses the header; an accepted one is usable for the whole decoder and says
      what the file says. */
  method Parse(d: seq<Byte>) returns (r: Parsed)
    ensures r.Ok? ==> Usable(r.header, |d|) && Describes(r.header, d)
    ensures r.Ok? <==> Acceptable(d)
    ensures r.Unsupported? <==> Foreign(d)
  {
    hide ChannelOk, Shl, ChannelsOf, PaletteOf, PixelsAcceptable, CompressionOf;
    if |d| < 26 || d[0] != 0x42 || d[1] != 0x4D {
      return Invalid;
    }
    var off, hs := Rd32(d, 10), Rd32(d, 14);
    var rc, f := ReadFields(d, hs);
    if rc != 0 {
      return if rc == -1 then Invalid else Unsupported;
    }
    if f.planes != 1 || f.w <= 0 || f.h == 0 {
      return Invalid;
    }
    var height := if f.h < 0 then -f.h else f.h;
    if f.w > MAX_DIM || height > MAX_DIM {
      return Unsupported;
    }
    var oc := CompressionOf(f.comp);
    if oc.None? {
      return Unsupported;
    }
    var comp := oc.value;
    if comp.Jpeg? || comp.Png? {
      if off > |d| {
        return Invalid;
      }
      return Ok(Header(f.w, height, f.h < 0, f.bpp, comp, [], [], off, 0, false));
    }
    r := ParsePixels(d, off, hs, f, comp, height);
  }

  /** The part of the header that describes pixels stored in the file itself. */
  method ParsePixels(d: seq<Byte>, off: nat, hs: nat, f: Basics, comp: Compression, height: nat) returns (r: Parsed)
    requires Known(d, hs) && hs == Rd32(d, 14) && off == Rd32(d, 10) && f == FieldsOf(d, hs)
    requires !comp.Jpeg? && !comp.Png? && CompressionOf(f.comp) == Some(comp)
    requires 1 <= f.w <= MAX_DIM && 1 <= height <= MAX_DIM && height == (if f.h < 0 then -f.h else f.h)
    ensures r.Ok? ==> Usable(r.header, |d|) && Describes(r.header, d)
    ensures r.Ok? <==> PixelsAcceptable(d, off, hs, f, comp, f.w, height)
    ensures r.Unsupported? <==> ForeignDepth(f.core, f.bpp)
  {
    hide ChannelOk, Shl, PaletteOf, FieldsOf, CompressionOf, ChannelsOf, MaskOf, MasksReadable, Colourless;
    var bpp := f.bpp;
    if bpp !in {1, 2, 4, 8, 16, 24, 32} || (f.core && bpp in {2, 16, 32}) {
      return Unsupported;
    }
    if (comp.Rle8? && bpp != 8) || (comp.Rle4? && bpp != 4) || ((comp.Fields? || comp.AlphaFields?) && bpp != 16 && bpp != 32) {
      return Invalid;
    }
    var ok, chans, hdrEnd := Channels(d, hs, HeaderEnd(hs), bpp, comp);
    if !ok || off < hdrEnd || off > |d| {
      return Invalid;
    }
    ChannelsAre(chans, d, hs, comp, bpp);
    var std32 := bpp == 32 && chans[0].mask == 0xFF_0000 && chans[1].mask == 0xFF00 && chans[2].mask == 0xFF;
    var pal := Palette(d, off, hs, hdrEnd, f, bpp);
    var stride := ((f.w * bpp + 31) / 32) * 4;
    if !comp.Rle8? && !comp.Rle4? && off + stride * height > |d| {
      return Invalid;
    }
    return Ok(Header(f.w, height, f.h < 0, bpp, comp, chans, pal, off, stride, std32));
  }

  lemma ChannelsAre(chans: seq<Channel>, d: seq<Byte>, hs: nat, comp: Compression, bpp: nat)
    requires ChannelsOf(chans, d, hs, comp, bpp)
    ensures |chans| == 4 && forall c :: 0 <= c < 4 ==> ChannelOk(chans[c])
  {
    hide ChannelOk;
  }

  method Palette(d: seq<Byte>, off: nat, hs: nat, hdrEnd: nat, f: Basics, bpp: nat) returns (pal: seq<Color>)
    requires Depth(bpp) && hdrEnd <= off <= |d| && (bpp <= 8 ==> hdrEnd == HeaderEnd(hs))
    ensures |pal| == 256 && (bpp <= 8 ==> PaletteOf(pal, d, hs, off, f, bpp))
  {
    if bpp > 8 {
      return seq(256, _ => Color(0, 0, 0, 0));
    }
    var entry := if f.core then 3 else 4;
    var avail := (off - hdrEnd) / entry;
    PaletteSize(bpp);
    var colours := Pow2(bpp);
    var declared := if f.used == 0 || f.used > colours then colours else f.used;
    var n := if declared < avail then declared else avail;
    assert n * entry <= avail * entry <= off - hdrEnd by { Grid.Mono(entry, n, avail); }
    pal := ReadPalette(d, hdrEnd, entry, n);
  }

  // ---- pixels -----------------------------------------------------------------------

  /** Bitwise and of the low `n` bits. */
  function And(a: nat, b: nat, n: nat): (r: nat)
    ensures r <= b
  {
    if n == 0 then 0 else 2 * And(a / 2, b / 2, n - 1) + (if a % 2 == 1 && b % 2 == 1 then 1 else 0)
  }

  /** A bit is set exactly where both numbers have it. */
  lemma {:induction false} AndBit(a: nat, b: nat, n: nat, k: nat)
    requires k < n
    ensures Shr(And(a, b, n), k) % 2 == 1 <==> Shr(a, k) % 2 == 1 && Shr(b, k) % 2 == 1
    decreases n
  {
    if k > 0 { AndBit(a / 2, b / 2, n - 1, k - 1); }
  }

  /** A channel of a packed pixel, scaled to a byte with 32-bit arithmetic. */
  function ScaleChannel(c: Channel, px: nat): (v: int)
    ensures 0 <= v <= 255
  {
    if c.max == 0 then 0
    else
      var v := Shr(And(px, c.mask, 32), c.shift);
      if c.max == 255 then v % 256 else (((v * 255) % 0x1_0000_0000) / c.max) % 256
  }

  /** A channel's value in a packed pixel. */
  function ValueIn(c: Channel, px: nat): (v: int) { Shr(And(px, c.mask, 32), c.shift) }

  /** The channel's share of 255, rounded down. */
  predicate ScaledExactly(c: Channel, px: nat)
    requires c.max > 0
  {
    ScaleChannel(c, px) == ValueIn(c, px) * 255 / c.max
  }

  lemma ValueBound(c: Channel, px: nat)
    requires ChannelOk(c)
    ensures 0 <= ValueIn(c, px) <= c.max
  {
    hide Shl, Shr, And;
    var a := And(px, c.mask, 32);
    var v := Shr(a, c.shift);
    ShrLow(a, c.shift);
    if v > c.max { ShlMono(c.max, v, c.shift); }
  }

  /** The 32-bit arithmetic scales every pixel exactly if and only if the channel's top
      value times 255 fits 32 bits. */
  lemma ScaleExact(c: Channel)
    requires ChannelOk(c) && c.max > 0
    ensures (forall px: nat :: ScaledExactly(c, px)) <==> c.max * 255 < 0x1_0000_0000
  {
    hide Shl, Shr, And, ScaleChannel, ChannelOk, ValueIn;
    if c.max * 255 < 0x1_0000_0000 {
      forall px: nat ensures ScaledExactly(c, px) {
        ValueBound(c, px);
        ScaleIs(c, px, ValueIn(c, px));
        Share(ValueIn(c, px), c.max);
      }
    } else {
      TopValue(c);
      ScaleIs(c, c.mask, c.max);
      Wrapped(c.max);
      assert !ScaledExactly(c, c.mask);
    }
  }

  /** A pixel of all ones in the channel has the top value. */
  lemma TopValue(c: Channel)
    requires ChannelOk(c)
    ensures ValueIn(c, c.mask) == c.max
  {
    hide And;
    WordSize();
    AndSelf(c.mask, 32);
    assert Pow2(c.shift) > 0;
    ShrSplit(c.max, 0, c.shift);
  }

  lemma WordSize()
    ensures Pow2(32) == 0x1_0000_0000
  {
    Pow2Values();
    Huffman.ShlShl(1, 16, 16);
    Times256(0x1_0000);
    Huffman.ShlShl(0x1_0000, 8, 8);
    Times256(0x100_0000);
  }

  lemma {:induction false} AndSelf(a: nat, n: nat)
    requires a < Pow2(n)
    ensures And(a, a, n) == a
  {
    if n > 0 {
      ShlDouble(1, n - 1);
      AndSelf(a / 2, n - 1);
    }
  }

  /** A top value whose product overflows does not come out as 255. */
  lemma Wrapped(m: nat)
    requires m * 255 >= 0x1_0000_0000
    ensures (((m * 255) % 0x1_0000_0000) / m) % 256 != m * 255 / m && m != 255
  {
    var p := (m * 255) % 0x1_0000_0000;
    var q := p / m;
    assert p <= m * 255 - 0x1_0000_0000;
    assert q * m <= p;
    if q >= 255 { Grid.Mono(m, 255, q); }
    Ratio255(m);
  }

  lemma Ratio255(m: nat)
    requires m > 0
    ensures m * 255 / m == 255
  {
  }

  lemma ScaleIs(c: Channel, px: nat, v: nat)
    requires c.max > 0 && v == ValueIn(c, px)
    ensures ScaleChannel(c, px) == if c.max == 255 then v % 256 else (((v * 255) % 0x1_0000_0000) / c.max) % 256
  {
  }

  lemma Share(v: nat, m: nat)
    requires v <= m && 0 < m && m * 255 < 0x1_0000_0000
    ensures (if m == 255 then v % 256 else (((v * 255) % 0x1_0000_0000) / m) % 256) == v * 255 / m
  {
    if m == 255 {
      assert v * 255 / 255 == v;
    } else {
      NoCarry(v * 255, m);
    }
  }

  lemma NoCarry(p: nat, m: nat)
    requires 0 < m && p <= 255 * m && p < 0x1_0000_0000
    ensures ((p % 0x1_0000_0000) / m) % 256 == p / m
  {
    assert p % 0x1_0000_0000 == p;
    QuotientBound(p, m);
  }

  lemma QuotientBound(p: nat, m: nat)
    requires m > 0 && p <= 255 * m
    ensures p / m <= 255
  {
    var q := p / m;
    assert q * m <= p;
    if q > 255 { Grid.Mono(m, 256, q); }
  }

  /** The index of pixel `i` in a row of palette indices, first pixel in the high bits. */
  function IndexAt(d: seq<Byte>, off: nat, bpp: nat, i: nat): (v: nat)
    requires bpp in {1, 2, 4, 8} && off + (i * bpp) / 8 < |d|
    ensures v < 256
  {
    var bit := i * bpp;
    PaletteSize(bpp);
    Shr(d[off + bit / 8], 8 - bpp - bit % 8) % Pow2(bpp)
  }

  /** It is the number that the pixel's own bits spell, counted from the first bit of the
      row's bytes. */
  lemma IndexIsBits(d: seq<Byte>, off: nat, bpp: nat, i: nat)
    requires bpp in {1, 2, 4, 8} && off + (i * bpp) / 8 < |d|
    ensures var bit := i * bpp;
      bit % 8 + bpp <= 8 && IndexAt(d, off, bpp, i) == Val(Bin(d[off + bit / 8], 8)[bit % 8..bit % 8 + bpp])
  {
    hide Val, Bin, Shr, Pow2;
    var bit := i * bpp;
    Grouped(bpp, i);
    BitsOf(d[off + bit / 8], bit % 8, bpp);
  }

  /** Pixels do not straddle bytes. */
  lemma Grouped(bpp: nat, i: nat)
    requires bpp in {1, 2, 4, 8}
    ensures (i * bpp) % 8 + bpp <= 8
  {
    if bpp == 1 {} else if bpp == 2 {} else if bpp == 4 {} else {}
  }

  lemma BitsOf(byte: nat, o: nat, n: nat)
    requires byte < 256 && o + n <= 8
    ensures Shr(byte, 8 - n - o) % Pow2(n) == Val(Bin(byte, 8)[o..o + n])
  {
    hide Val, Bin, Shr, Low, Shl;
    var bits := Bin(byte, 8);
    var a, m, c := bits[..o], bits[o..o + n], bits[o + n..];
    assert bits == a + m + c;
    Pow2Values();
    ValBin(byte, 8);
    ValCut(a + m, c);
    ValCut(a, m);
    LowMod(Shr(byte, 8 - n - o), n);
  }

  lemma {:induction false} LowMod(x: nat, k: nat)
    ensures Low(x, k) == x % Pow2(k)
    decreases k
  {
    if k > 0 {
      ShlDouble(1, k - 1);
      LowMod(x / 2, k - 1);
      HalfMod(x, Pow2(k - 1));
    }
  }

  lemma HalfMod(x: nat, p: nat)
    requires p > 0
    ensures x % (2 * p) == 2 * ((x / 2) % p) + x % 2
  {
    var q, r := (x / 2) / p, (x / 2) % p;
    assert x / 2 == q * p + r;
    assert x == q * (2 * p) + (2 * r + x % 2);
    Remainder(x, 2 * p, q, 2 * r + x % 2);
  }

  lemma Remainder(x: nat, d: nat, q: nat, r: nat)
    requires x == q * d + r && r < d
    ensures x % d == r
  {
    Grid.PlaceUnique(x % d, x / d, r, q, d);
  }

  /** All bytes of a row's pixels lie inside its stride. */
  lemma RowFits(w: nat, bpp: nat, stride: nat, i: nat)
    requires i < w && Depth(bpp) && stride == ((w * bpp + 31) / 32) * 4
    ensures bpp == 24 ==> 3 * i + 3 <= stride
    ensures bpp == 32 ==> 4 * i + 4 <= stride
    ensures bpp == 16 ==> 2 * i + 2 <= stride
    ensures bpp <= 8 ==> (i * bpp) / 8 < stride
  {
    if bpp == 1 {} else if bpp == 2 {} else if bpp == 4 {} else if bpp == 8 {}
    else if bpp == 16 {} else if bpp == 24 {} else {}
  }

  /** A packed pixel, channel by channel; without an alpha mask it is opaque. */
  function Packed(chans: seq<Channel>, px: nat): (c: Color)
    requires |chans| == 4
  {
    Color(ScaleChannel(chans[2], px), ScaleChannel(chans[1], px), ScaleChannel(chans[0], px),
          if chans[3].max > 0 then ScaleChannel(chans[3], px) else 255)
  }

  /** Pixel `i` of the stored row at `off`. */
  function PixelAt(h: Header, d: seq<Byte>, off: nat, i: nat, alpha: bool): (c: Color)
    requires Usable(h, |d|) && !h.comp.Jpeg? && !h.comp.Png? && i < h.w && off + h.stride <= |d|
  {
    RowFits(h.w, h.bpp, h.stride, i);
    if h.bpp == 24 then Color(d[off + 3 * i], d[off + 3 * i + 1], d[off + 3 * i + 2], 255)
    else if h.bpp == 32 then
      if h.std32 && h.chans[3].max == 0
      then Color(d[off + 4 * i], d[off + 4 * i + 1], d[off + 4 * i + 2], if alpha then d[off + 4 * i + 3] else 255)
      else Packed(h.chans, Rd32(d, off + 4 * i))
    else if h.bpp == 16 then Packed(h.chans, Rd16(d, off + 2 * i))
    else h.pal[IndexAt(d, off, h.bpp, i)]
  }

  /** A pixel of the RLE plane; undefined ones are transparent black. */
  function PlanePixel(pal: seq<Color>, v: int): (c: Color)
    requires |pal| == 256
  {
    if v == BmpRle.UNDEF then Color(0, 0, 0, 0) else pal[v % 256]
  }

  function FileRow(h: Header, j: nat): (y: nat)
    requires j < h.h
    ensures y < h.h
  {
    if h.topDown then j else h.h - 1 - j
  }

  predicate IsRle(h: Header) { h.comp.Rle8? || h.comp.Rle4? }

  lemma RowInFile(h: Header, size: nat, y: nat)
    requires Usable(h, size) && Plain(h.comp) && y < h.h
    ensures h.dataOff + y * h.stride + h.stride <= size
  {
    Grid.Mono(h.stride, y + 1, h.h);
    assert (y + 1) * h.stride == y * h.stride + h.stride;
  }

  /** What decoding shows at column `i` of row `j`, counted from the top. */
  ghost function Shown(h: Header, d: seq<Byte>, plane: seq<int>, alpha: bool, i: nat, j: nat): (c: Color)
    requires Usable(h, |d|) && !h.comp.Jpeg? && !h.comp.Png? && i < h.w && j < h.h
    requires IsRle(h) ==> |plane| == h.w * h.h
  {
    if IsRle(h) then PlanePixel(h.pal, BmpRle.At(plane, h.w, h.h, i, FileRow(h, j)))
    else StoredPixel(h, d, alpha, i, FileRow(h, j))
  }

  /** Pixel `i` of the file's row `y`. */
  function StoredPixel(h: Header, d: seq<Byte>, alpha: bool, i: nat, y: nat): (c: Color)
    requires Usable(h, |d|) && Plain(h.comp) && i < h.w && y < h.h
  {
    RowInFile(h, |d|, y);
    PixelAt(h, d, h.dataOff + y * h.stride, i, alpha)
  }

  function Part(c: Color, k: nat): Byte
  {
    if k == 0 then c.b else if k == 1 then c.g else if k == 2 then c.r else c.a
  }

  /** Row `j` as bytes. */
  ghost function RowBytes(h: Header, d: seq<Byte>, plane: seq<int>, alpha: bool, j: nat): (r: seq<Byte>)
    requires Usable(h, |d|) && !h.comp.Jpeg? && !h.comp.Png? && j < h.h
    requires IsRle(h) ==> |plane| == h.w * h.h
    ensures |r| == 4 * h.w
  {
    seq(4 * h.w, k requires 0 <= k < 4 * h.w => Part(Shown(h, d, plane, alpha, k / 4, j), k % 4))
  }

  /** Converts the first `n` pixels of row `j` into the scratch line. */
  method FillLine(h: Header, d: seq<Byte>, plane: array<int>, alpha: bool, j: nat, n: nat, line: array<Byte>)
    requires Usable(h, |d|) && !h.comp.Jpeg? && !h.comp.Png? && j < h.h && n <= h.w && line.Length == 4 * h.w
    requires IsRle(h) ==> plane.Length == h.w * h.h
    modifies line
    ensures line[..4 * n] == RowBytes(h, d, plane[..], alpha, j)[..4 * n]
  {
    hide Usable, Shown, IsRle;
    ghost var row := RowBytes(h, d, plane[..], alpha, j);
    var i := 0;
    while i < n
      invariant 0 <= i <= n && line[..4 * i] == row[..4 * i]
    {
      var c := ConvertPixel(h, d, plane, alpha, i, j);
      line[4 * i], line[4 * i + 1], line[4 * i + 2], line[4 * i + 3] := c.b, c.g, c.r, c.a;
      FourBytes(h, d, plane[..], alpha, i, j);
      assert line[..4 * (i + 1)] == line[..4 * i] + [c.b, c.g, c.r, c.a];
      i := i + 1;
    }
  }

  lemma FourBytes(h: Header, d: seq<Byte>, plane: seq<int>, alpha: bool, i: nat, j: nat)
    requires Usable(h, |d|) && !h.comp.Jpeg? && !h.comp.Png? && j < h.h && i < h.w
    requires IsRle(h) ==> |plane| == h.w * h.h
    ensures var row, c := RowBytes(h, d, plane, alpha, j), Shown(h, d, plane, alpha, i, j);
      row[..4 * (i + 1)] == row[..4 * i] + [c.b, c.g, c.r, c.a]
  {
    hide Usable, Shown, IsRle;
    var row := RowBytes(h, d, plane, alpha, j);
    assert (4 * i) / 4 == i && (4 * i + 1) / 4 == i && (4 * i + 2) / 4 == i && (4 * i + 3) / 4 == i;
    assert (4 * i) % 4 == 0 && (4 * i + 1) % 4 == 1 && (4 * i + 2) % 4 == 2 && (4 * i + 3) % 4 == 3;
  }

  method ConvertPixel(h: Header, d: seq<Byte>, plane: array<int>, alpha: bool, i: nat, j: nat) returns (c: Color)
    requires Usable(h, |d|) && !h.comp.Jpeg? && !h.comp.Png? && i < h.w && j < h.h
    requires IsRle(h) ==> plane.Length == h.w * h.h
    ensures c == Shown(h, d, plane[..], alpha, i, j)
  {
    hide PixelAt, StoredPixel, PlanePixel, Shown, Usable;
    var y := FileRow(h, j);
    if IsRle(h) {
      ShownRle(h, d, plane[..], alpha, i, j);
      c := PlanePixel(h.pal, plane[y * h.w + i]);
    } else {
      ShownStored(h, d, plane[..], alpha, i, j);
      c := StoredPixel(h, d, alpha, i, y);
    }
  }

  lemma ShownRle(h: Header, d: seq<Byte>, plane: seq<int>, alpha: bool, i: nat, j: nat)
    requires Usable(h, |d|) && IsRle(h) && i < h.w && j < h.h && |plane| == h.w * h.h
    ensures var y := FileRow(h, j);
      |h.pal| == 256 && 0 <= y * h.w + i < |plane| && Shown(h, d, plane, alpha, i, j) == PlanePixel(h.pal, plane[y * h.w + i])
  {
    hide PlanePixel, StoredPixel, Usable;
    Kinds(h, d);
    InPlane(i, FileRow(h, j), h.w, h.h);
  }

  lemma ShownStored(h: Header, d: seq<Byte>, plane: seq<int>, alpha: bool, i: nat, j: nat)
    requires Usable(h, |d|) && !IsRle(h) && !h.comp.Jpeg? && !h.comp.Png? && i < h.w && j < h.h
    ensures Plain(h.comp) && Shown(h, d, plane, alpha, i, j) == StoredPixel(h, d, alpha, i, FileRow(h, j))
  {
    hide PlanePixel, StoredPixel, ChannelOk;
  }

  // ---- what the stored bytes mean ---------------------------------------------------

  /** A channel's share of 255. */
  ghost function Level(c: Channel, px: nat): (v: int)
    requires ChannelOk(c)
    ensures 0 <= v <= 255
  {
    ValueBound(c, px);
    if c.max == 0 then 0 else
      QuotientBound(ValueIn(c, px) * 255, c.max);
      ValueIn(c, px) * 255 / c.max
  }

  /** The number of two or four bytes, the low one first. */
  ghost function Two(d: seq<Byte>, p: nat): (v: nat)
    requires p + 2 <= |d|
  {
    (d[p] as int) + 0x100 * (d[p + 1] as int)
  }

  ghost function Four(d: seq<Byte>, p: nat): (v: nat)
    requires p + 4 <= |d|
  {
    (d[p] as int) + 0x100 * (d[p + 1] as int) + 0x1_0000 * (d[p + 2] as int) + 0x100_0000 * (d[p + 3] as int)
  }

  /** The colour whose index the bits of a pixel spell, the first pixel in the high bits. */
  ghost function Indexed(pal: seq<Color>, d: seq<Byte>, row: nat, bpp: nat, i: nat): (c: Color)
    requires bpp in {1, 2, 4, 8} && row + (i * bpp) / 8 < |d| && |pal| == 256
  {
    hide Val, Bin, IndexAt;
    IndexIsBits(d, row, bpp, i);
    var bit := i * bpp;
    var n := Val(Bin(d[row + bit / 8], 8)[bit % 8..bit % 8 + bpp]);
    assert n == IndexAt(d, row, bpp, i);
    pal[n]
  }

  /** The colour that the bytes of a stored row give to column `i`: blue before green
      before red, masks over the whole number, or an index. */
  ghost function MeantIn(h: Header, d: seq<Byte>, row: nat, fourth: bool, i: nat): (c: Color)
    requires Usable(h, |d|) && Plain(h.comp) && i < h.w && row + h.stride <= |d|
  {
    hide ChannelOk, Indexed, Level, Two, Four;
    RowFits(h.w, h.bpp, h.stride, i);
    if h.bpp == 24 then Color(d[row + 3 * i], d[row + 3 * i + 1], d[row + 3 * i + 2], 255)
    else if h.bpp == 32 then
      var p := row + 4 * i;
      if h.std32 && h.chans[3].max == 0 then Color(d[p], d[p + 1], d[p + 2], if fourth then d[p + 3] else 255)
      else Mixed(h.chans, Four(d, p))
    else if h.bpp == 16 then Mixed(h.chans, Two(d, row + 2 * i))
    else Indexed(h.pal, d, row, h.bpp, i)
  }

  /** Rows are stored upwards unless the height is negative. */
  ghost function Meant(h: Header, d: seq<Byte>, fourth: bool, i: nat, j: nat): (c: Color)
    requires Usable(h, |d|) && Plain(h.comp) && i < h.w && j < h.h
  {
    var y := if h.topDown then j else h.h - 1 - j;
    RowInFile(h, |d|, y);
    MeantIn(h, d, h.dataOff + y * h.stride, fourth, i)
  }

  /** The channels are those of the red, green, blue and alpha masks, in this order. */
  ghost function Mixed(chans: seq<Channel>, px: nat): (c: Color)
    requires |chans| == 4 && forall k :: 0 <= k < 4 ==> ChannelOk(chans[k])
  {
    Color(Level(chans[2], px), Level(chans[1], px), Level(chans[0], px), if chans[3].max > 0 then Level(chans[3], px) else 255)
  }

  /** No channel is too wide for the 32-bit arithmetic. */
  ghost predicate Moderate(chans: seq<Channel>) { forall k :: 0 <= k < |chans| ==> chans[k].max * 255 < 0x1_0000_0000 }

  lemma LevelIs(c: Channel, px: nat)
    requires ChannelOk(c) && c.max * 255 < 0x1_0000_0000
    ensures ScaleChannel(c, px) == Level(c, px)
  {
    hide ScaleChannel, ValueIn, ChannelOk;
    if c.max > 0 {
      ScaleExact(c);
      assert ScaledExactly(c, px);
    } else {
      NoChannel(c, px);
    }
  }

  lemma NoChannel(c: Channel, px: nat)
    requires c.max == 0
    ensures ScaleChannel(c, px) == 0
  {
  }

  lemma MixedIs(chans: seq<Channel>, px: nat)
    requires |chans| == 4 && Moderate(chans) && forall k :: 0 <= k < 4 ==> ChannelOk(chans[k])
    ensures Packed(chans, px) == Mixed(chans, px)
  {
    hide ScaleChannel, Level, ChannelOk;
    LevelIs(chans[0], px);
    LevelIs(chans[1], px);
    LevelIs(chans[2], px);
    LevelIs(chans[3], px);
  }

  lemma TwoFour(d: seq<Byte>, p: nat)
    ensures p + 2 <= |d| ==> Rd16(d, p) == Two(d, p)
    ensures p + 4 <= |d| ==> Rd32(d, p) == Four(d, p)
  {
  }

  lemma MeantAtRow(h: Header, d: seq<Byte>, row: nat, alpha: bool, i: nat)
    requires Usable(h, |d|) && Plain(h.comp) && i < h.w && row + h.stride <= |d| && Moderate(h.chans)
    ensures PixelAt(h, d, row, i, alpha) == MeantIn(h, d, row, alpha, i)
  {
    hide Packed, Mixed, ChannelOk, IndexAt, Moderate, Rd16, Rd32, Two, Four, Val, Bin;
    RowFits(h.w, h.bpp, h.stride, i);
    if h.bpp == 32 {
      TwoFour(d, row + 4 * i);
      MixedIs(h.chans, Rd32(d, row + 4 * i));
    } else if h.bpp == 16 {
      TwoFour(d, row + 2 * i);
      MixedIs(h.chans, Rd16(d, row + 2 * i));
    } else if h.bpp <= 8 {
      IndexIsBits(d, row, h.bpp, i);
    }
  }

  /** Every stored pixel is shown as its bytes mean it. */
  lemma ShownIsMeant(h: Header, d: seq<Byte>, plane: seq<int>, alpha: bool, i: nat, j: nat)
    requires Usable(h, |d|) && Plain(h.comp) && i < h.w && j < h.h && Moderate(h.chans)
    ensures Shown(h, d, plane, alpha, i, j) == Meant(h, d, alpha, i, j)
  {
    hide PixelAt, MeantIn, Usable, Shown, Moderate;
    var y := if h.topDown then j else h.h - 1 - j;
    RowInFile(h, |d|, y);
    MeantAtRow(h, d, h.dataOff + y * h.stride, alpha, i);
    ShownStored(h, d, plane, alpha, i, j);
  }

  /** A pixel of a run-length coded image: transparent where the commands put nothing. */
  ghost function MeantRle(h: Header, plane: seq<int>, i: nat, j: nat): (c: Color)
    requires |h.pal| == 256 && i < h.w && j < h.h && |plane| == h.w * h.h
  {
    var y := if h.topDown then j else h.h - 1 - j;
    InPlane(i, y, h.w, h.h);
    var v := plane[y * h.w + i];
    if v == 0xFFFF then Color(0, 0, 0, 0) else h.pal[v % 256]
  }

  lemma ShownIsMeantRle(h: Header, d: seq<Byte>, plane: seq<int>, alpha: bool, i: nat, j: nat)
    requires Usable(h, |d|) && IsRle(h) && i < h.w && j < h.h && |plane| == h.w * h.h && |h.pal| == 256
    ensures Shown(h, d, plane, alpha, i, j) == MeantRle(h, plane, i, j)
  {
    hide Usable;
    ShownRle(h, d, plane, alpha, i, j);
  }

  /** Pixel (i, j) of a picture `w` pixels wide. */
  ghost predicate PixelIs(out: seq<int>, w: nat, i: nat, j: nat, c: Color)
  {
    var p := j * (4 * w) + 4 * i;
    p + 4 <= |out| && out[p] == c.b && out[p + 1] == c.g && out[p + 2] == c.r && out[p + 3] == c.a
  }

  /** The picture's pixels are what the file's bytes mean. */
  ghost predicate ShowsMeant(h: Header, d: seq<Byte>, plane: seq<int>, out: seq<int>, ow: nat, oh: nat)
    requires Decodable(h, d, plane) && ow <= h.w && oh <= h.h
  {
    |h.pal| == 256 && forall i: nat, j: nat :: i < ow && j < oh ==> PixelIs(out, ow, i, j, MeantPixel(h, d, plane, i, j))
  }

  lemma CroppedMeant(h: Header, d: seq<Byte>, plane: seq<int>, out: seq<int>, ow: nat, oh: nat)
    requires Decodable(h, d, plane) && ow <= h.w && oh <= h.h && Cropped(h, d, plane, AlphaByte(h, d), out, ow, oh)
    requires IsRle(h) || Moderate(h.chans)
    ensures ShowsMeant(h, d, plane, out, ow, oh)
  {
    hide Usable, PlaneOf, AlphaByte, Shown, Moderate, RowBytes, MeantPixel;
    var alpha := AlphaByte(h, d);
    Kinds(h, d);
    forall i: nat, j: nat | i < ow && j < oh ensures PixelIs(out, ow, i, j, MeantPixel(h, d, plane, i, j)) {
      assert RowShown(h, d, plane, alpha, out, ow, j);
      FourParts(h, d, plane, alpha, i, j);
      Placed(h, d, plane, alpha, out, ow, i, j);
      MeantShown(h, d, plane, i, j);
    }
  }

  /** `rows` are the picture's rows, from the top, as the file's bytes mean them. */
  ghost predicate RowsMean(h: Header, d: seq<Byte>, plane: seq<int>, rows: seq<Scaler.Row>)
    requires Decodable(h, d, plane)
  {
    && |rows| == h.h && Scaler.RowsOk(h.w, rows) && |h.pal| == 256
    && forall i: nat, j: nat :: i < h.w && j < h.h ==> PixelIs(rows[j], h.w, i, 0, MeantPixel(h, d, plane, i, j))
  }

  ghost function MeantPixel(h: Header, d: seq<Byte>, plane: seq<int>, i: nat, j: nat): (c: Color)
    requires Decodable(h, d, plane) && i < h.w && j < h.h && |h.pal| == 256
  {
    if IsRle(h) then MeantRle(h, plane, i, j) else Meant(h, d, AlphaByte(h, d), i, j)
  }

  /** Every pixel of the smaller picture is the light that falls on it from the pixels that
      the file's bytes mean. */
  ghost predicate ShrinksMeant(h: Header, d: seq<Byte>, plane: seq<int>, out: seq<int>, ow: nat, oh: nat)
    requires Decodable(h, d, plane) && 0 < ow && 0 < oh
  {
    exists rows :: RowsMean(h, d, plane, rows) && AllLit(Scaler.Dims(h.w, h.h, ow, oh), out, rows)
  }

  ghost predicate AllLit(dims: Scaler.Dims, out: seq<int>, rows: seq<Scaler.Row>)
  {
    && Scaler.RowsOk(dims.sw, rows) && |rows| == dims.sh
    && forall j, i :: 0 <= j < dims.dh && 0 <= i < dims.dw ==>
         j * (4 * dims.dw) + 4 * i + 3 < |out| && Scaler.Lit(dims, out, rows, j, i)
  }

  lemma ShrunkMeant(h: Header, d: seq<Byte>, plane: seq<int>, out: seq<int>, ow: nat, oh: nat)
    requires Decodable(h, d, plane) && 0 < ow <= h.w && 0 < oh <= h.h && Shrunk(h, d, plane, AlphaByte(h, d), out, ow, oh)
    requires IsRle(h) || Moderate(h.chans)
    ensures ShrinksMeant(h, d, plane, out, ow, oh)
  {
    hide Usable, PlaneOf, AlphaByte, RowBytes, Scaler.Averaged, Scaler.Lit, Moderate, MeantPixel;
    Kinds(h, d);
    var alpha, dims := AlphaByte(h, d), Scaler.Dims(h.w, h.h, ow, oh);
    var rows := ImageRows(h, d, plane, alpha);
    forall i: nat, j: nat | i < h.w && j < h.h ensures PixelIs(rows[j], h.w, i, 0, MeantPixel(h, d, plane, i, j)) {
      FourParts(h, d, plane, alpha, i, j);
      MeantShown(h, d, plane, i, j);
    }
    forall j, i | 0 <= j < oh && 0 <= i < ow
      ensures j * (4 * ow) + 4 * i + 3 < |out| && Scaler.Lit(dims, out, rows, j, i)
    {
      Scaler.AveragedLit(dims, out, rows, j, i);
    }
    assert AllLit(dims, out, rows);
  }

  lemma MeantShown(h: Header, d: seq<Byte>, plane: seq<int>, i: nat, j: nat)
    requires Decodable(h, d, plane) && i < h.w && j < h.h && |h.pal| == 256 && (IsRle(h) || Moderate(h.chans))
    ensures Shown(h, d, plane, AlphaByte(h, d), i, j) == MeantPixel(h, d, plane, i, j)
  {
    hide Usable, PlaneOf, Meant, MeantRle, AlphaByte, Shown, Moderate;
    Kinds(h, d);
    if IsRle(h) { ShownIsMeantRle(h, d, plane, AlphaByte(h, d), i, j); } else { ShownIsMeant(h, d, plane, AlphaByte(h, d), i, j); }
  }

  lemma Kinds(h: Header, d: seq<Byte>)
    requires Usable(h, |d|) && !h.comp.Jpeg? && !h.comp.Png?
    ensures |h.pal| == 256 && (IsRle(h) || Plain(h.comp))
  {
    hide ChannelOk;
  }

  lemma Placed(h: Header, d: seq<Byte>, plane: seq<int>, alpha: bool, out: seq<int>, ow: nat, i: nat, j: nat)
    requires Decodable(h, d, plane) && i < ow <= h.w && j < h.h && RowShown(h, d, plane, alpha, out, ow, j)
    ensures var p, row := j * (4 * ow) + 4 * i, RowBytes(h, d, plane, alpha, j);
      p + 4 <= |out| && out[p] == row[4 * i] && out[p + 1] == row[4 * i + 1] && out[p + 2] == row[4 * i + 2] && out[p + 3] == row[4 * i + 3]
  {
    hide Usable, PlaneOf, RowBytes;
    var q, row := j * (4 * ow), RowBytes(h, d, plane, alpha, j);
    assert out[q + 4 * i] == row[4 * i] && out[q + (4 * i + 1)] == row[4 * i + 1];
    assert out[q + (4 * i + 2)] == row[4 * i + 2] && out[q + (4 * i + 3)] == row[4 * i + 3];
  }

  /** A row has blue, green, red and alpha of each pixel in turn. */
  lemma FourParts(h: Header, d: seq<Byte>, plane: seq<int>, alpha: bool, i: nat, j: nat)
    requires Usable(h, |d|) && !h.comp.Jpeg? && !h.comp.Png? && j < h.h && i < h.w
    requires IsRle(h) ==> |plane| == h.w * h.h
    ensures var row, c := RowBytes(h, d, plane, alpha, j), Shown(h, d, plane, alpha, i, j);
      row[4 * i] == c.b && row[4 * i + 1] == c.g && row[4 * i + 2] == c.r && row[4 * i + 3] == c.a
  {
    hide Usable, Shown, IsRle;
    assert (4 * i) / 4 == i && (4 * i + 1) / 4 == i && (4 * i + 2) / 4 == i && (4 * i + 3) / 4 == i;
    assert (4 * i) % 4 == 0 && (4 * i + 1) % 4 == 1 && (4 * i + 2) % 4 == 2 && (4 * i + 3) % 4 == 3;
  }

  // ---- the driver -------------------------------------------------------------------

  /** Some stored pixel of a 32-bit image without an alpha mask has a fourth byte. */
  ghost predicate AlphaByte(h: Header, d: seq<Byte>)
    requires Usable(h, |d|)
  {
    h.comp.Rgb? && h.bpp == 32 && h.std32 && h.chans[3].max == 0 &&
    exists y, x :: 0 <= y < h.h && 0 <= x < h.w && FourthByte(h, d, x, y) != 0
  }

  ghost function FourthByte(h: Header, d: seq<Byte>, x: nat, y: nat): (b: Byte)
    requires Usable(h, |d|) && Plain(h.comp) && h.bpp == 32 && x < h.w && y < h.h
  {
    RowInFile(h, |d|, y);
    RowFits(h.w, h.bpp, h.stride, x);
    d[h.dataOff + y * h.stride + 4 * x + 3]
  }

  method FindAlpha(h: Header, d: seq<Byte>) returns (alpha: bool)
    requires Usable(h, |d|) && !h.comp.Jpeg? && !h.comp.Png?
    ensures alpha == AlphaByte(h, d)
  {
    hide ChannelOk;
    alpha := false;
    if !(h.comp.Rgb? && h.bpp == 32 && h.std32 && h.chans[3].max == 0) {
      return;
    }
    var y := 0;
    while y < h.h && !alpha
      invariant 0 <= y <= h.h
      invariant alpha ==> AlphaByte(h, d)
      invariant !alpha ==> forall v, x :: 0 <= v < y && 0 <= x < h.w ==> FourthByte(h, d, x, v) == 0
    {
      var x := 0;
      while x < h.w
        invariant 0 <= x <= h.w && forall u :: 0 <= u < x ==> FourthByte(h, d, u, y) == 0
      {
        RowInFile(h, |d|, y);
        RowFits(h.w, h.bpp, h.stride, x);
        assert FourthByte(h, d, x, y) == d[h.dataOff + y * h.stride + 4 * x + 3];
        if d[h.dataOff + y * h.stride + 4 * x + 3] != 0 {
          alpha := true;
          break;
        }
        x := x + 1;
      }
      y := y + 1;
    }
  }

  datatype Outcome = Done(ow: nat, oh: nat) | Refused | Embedded

  /** The plane of an RLE image: what its commands leave in each pixel. */
  ghost predicate PlaneOf(h: Header, d: seq<Byte>, plane: seq<int>)
    requires Usable(h, |d|)
  {
    BmpRle.Shows(plane, h.w, h.h, BmpRle.Commands(d[h.dataOff..], h.comp.Rle4?, h.h, 0, 0, 0))
  }

  method ReadPlane(h: Header, d: seq<Byte>) returns (plane: array<int>)
    requires Usable(h, |d|)
    ensures fresh(plane) && plane.Length == h.w * h.h && PlaneOf(h, d, plane[..])
  {
    hide BmpRle.Shows, BmpRle.Commands;
    plane := new int[h.w * h.h](_ => BmpRle.UNDEF);
    BmpRle.Decode(d[h.dataOff..], h.w, h.h, h.comp.Rle4?, plane);
  }

  ghost predicate Decodable(h: Header, d: seq<Byte>, plane: seq<int>)
  {
    Usable(h, |d|) && !h.comp.Jpeg? && !h.comp.Png? && (IsRle(h) ==> |plane| == h.w * h.h && PlaneOf(h, d, plane))
  }

  /** All rows of the image, from the top. */
  ghost function ImageRows(h: Header, d: seq<Byte>, plane: seq<int>, alpha: bool): (rows: seq<Scaler.Row>)
    requires Decodable(h, d, plane)
    ensures |rows| == h.h && Scaler.RowsOk(h.w, rows)
    ensures forall j :: 0 <= j < h.h ==> rows[j] == RowBytes(h, d, plane, alpha, j)
  {
    seq(h.h, j requires 0 <= j < h.h => RowBytes(h, d, plane, alpha, j))
  }

  /** The top left `ow` by `oh` pixels of the image. */
  ghost predicate Cropped(h: Header, d: seq<Byte>, plane: seq<int>, alpha: bool, out: seq<int>, ow: nat, oh: nat)
    requires Decodable(h, d, plane) && ow <= h.w && oh <= h.h
  {
    forall j: nat :: j < oh ==> RowShown(h, d, plane, alpha, out, ow, j)
  }

  ghost predicate RowShown(h: Header, d: seq<Byte>, plane: seq<int>, alpha: bool, out: seq<int>, ow: nat, j: nat)
    requires Decodable(h, d, plane) && ow <= h.w && j < h.h
  {
    && j * (4 * ow) + 4 * ow <= |out|
    && forall k :: 0 <= k < 4 * ow ==> out[j * (4 * ow) + k] == RowBytes(h, d, plane, alpha, j)[k]
  }

  /** The image averaged down to `ow` by `oh` pixels. */
  ghost predicate Shrunk(h: Header, d: seq<Byte>, plane: seq<int>, alpha: bool, out: seq<int>, ow: nat, oh: nat)
    requires Decodable(h, d, plane) && 0 < ow <= h.w && 0 < oh <= h.h
  {
    forall j :: 0 <= j < oh ==>
      Scaler.Averaged(Scaler.Dims(h.w, h.h, ow, oh), out, ImageRows(h, d, plane, alpha), j)
  }

  method CropRows(h: Header, d: seq<Byte>, plane: array<int>, alpha: bool, out: array<int>, ow: nat, oh: nat)
    requires Decodable(h, d, plane[..]) && ow <= h.w && oh <= h.h && out.Length >= oh * (4 * ow) && out != plane
    modifies out
    ensures Cropped(h, d, plane[..], alpha, out[..], ow, oh)
    ensures Kept(old(out[..]), out[..], 0, oh * (4 * ow))
  {
    hide Usable, RowShown, PlaneOf;
    var line := new Byte[4 * h.w];
    var j := 0;
    while j < oh
      invariant 0 <= j <= oh && Decodable(h, d, plane[..])
      invariant forall y: nat :: y < j ==> RowShown(h, d, plane[..], alpha, out[..], ow, y)
      invariant Kept(old(out[..]), out[..], 0, j * (4 * ow))
    {
      FillLine(h, d, plane, alpha, j, ow, line);
      ghost var before := out[..];
      Grid.Mono(4 * ow, j + 1, oh);
      assert (j + 1) * (4 * ow) == j * (4 * ow) + 4 * ow;
      CopyRow(line, out, j * (4 * ow), 4 * ow);
      RowKept(h, d, plane[..], alpha, before, out[..], line[..], ow, j);
      j := j + 1;
    }
  }

  method CopyRow(line: array<Byte>, out: array<int>, base: nat, n: nat)
    requires n <= line.Length && base + n <= out.Length
    modifies out
    ensures forall k :: 0 <= k < n ==> out[base + k] == line[k]
    ensures Kept(old(out[..]), out[..], base, base + n)
  {
    var k := 0;
    while k < n
      invariant 0 <= k <= n && forall i :: 0 <= i < k ==> out[base + i] == line[i]
      invariant Kept(old(out[..]), out[..], base, base + n)
    {
      out[base + k] := line[k];
      k := k + 1;
    }
  }

  /** Copying row `j` in shows it and disturbs no row before it. */
  lemma RowKept(h: Header, d: seq<Byte>, plane: seq<int>, alpha: bool, before: seq<int>, after: seq<int>, line: seq<Byte>, ow: nat, j: nat)
    requires Decodable(h, d, plane) && ow <= h.w && j < h.h && j * (4 * ow) + 4 * ow <= |after| && |line| == 4 * h.w
    requires line[..4 * ow] == RowBytes(h, d, plane, alpha, j)[..4 * ow]
    requires Kept(before, after, j * (4 * ow), j * (4 * ow) + 4 * ow)
    requires forall k :: 0 <= k < 4 * ow ==> after[j * (4 * ow) + k] == line[k]
    requires forall y: nat :: y < j ==> RowShown(h, d, plane, alpha, before, ow, y)
    ensures forall y: nat :: y <= j ==> RowShown(h, d, plane, alpha, after, ow, y)
  {
    hide Usable, PlaneOf, RowBytes;
    ghost var row := RowBytes(h, d, plane, alpha, j);
    forall k | 0 <= k < 4 * ow ensures after[j * (4 * ow) + k] == row[k] {
      assert line[..4 * ow][k] == row[..4 * ow][k];
    }
    forall y: nat | y < j ensures RowShown(h, d, plane, alpha, after, ow, y) {
      assert RowShown(h, d, plane, alpha, before, ow, y);
      Grid.Mono(4 * ow, y + 1, j);
      assert (y + 1) * (4 * ow) == y * (4 * ow) + 4 * ow;
    }
  }

  method WholeLine(h: Header, d: seq<Byte>, plane: array<int>, alpha: bool, j: nat, line: array<Byte>)
    requires Decodable(h, d, plane[..]) && j < h.h && line.Length == 4 * h.w
    modifies line
    ensures line[..] == ImageRows(h, d, plane[..], alpha)[j]
  {
    hide Usable, PlaneOf, RowBytes;
    FillLine(h, d, plane, alpha, j, h.w, line);
    assert line[..4 * h.w] == line[..];
  }

  lemma HasPixels(h: Header, d: seq<Byte>, plane: seq<int>)
    requires Decodable(h, d, plane)
    ensures h.w > 0 && h.h > 0
  {
  }

  method ShrinkRows(h: Header, d: seq<Byte>, plane: array<int>, alpha: bool, out: array<int>, ow: nat, oh: nat)
    requires Decodable(h, d, plane[..]) && 0 < ow <= h.w && 0 < oh <= h.h && out.Length >= oh * (4 * ow) && out != plane
    modifies out
    ensures Shrunk(h, d, plane[..], alpha, out[..], ow, oh)
    ensures Kept(old(out[..]), out[..], 0, oh * (4 * ow))
  {
    hide Usable, PlaneOf, RowBytes, Decodable, ImageRows, Scaler.Written, Scaler.VRow, Scaler.Averaged, Scaler.OutByte;
    HasPixels(h, d, plane[..]);
    var dims := Scaler.Dims(h.w, h.h, ow, oh);
    ghost var rows := ImageRows(h, d, plane[..], alpha);
    var s := new Scaler.Scaler(dims, out);
    Scaler.KeptSame(out[..], 0);
    var line := new Byte[4 * h.w];
    var y := 0;
    while y < h.h
      invariant 0 <= y <= h.h && s.d == dims && s.out == out && fresh(s) && fresh(s.hrow) && fresh(s.acc)
      invariant s.Valid() && s.rows == rows[..y] && plane[..] == old(plane[..])
      invariant Kept(old(out[..]), out[..], 0, s.dstRow * (4 * ow))
    {
      WholeLine(h, d, plane, alpha, y, line);
      ghost var n := s.dstRow;
      s.PushRow(line[..]);
      Mono(4 * ow, n, s.dstRow);
      y := y + 1;
    }
    assert rows[..h.h] == rows;
    Scaler.AllRows(dims, s.dstRow);
    forall j | 0 <= j < oh ensures Scaler.Averaged(dims, out[..], rows, j) {
      Scaler.WrittenAveraged(dims, out[..], rows, j);
    }
  }

  /** What a decoded picture is: the image cropped to the limits, or, when it may be
      fitted and exceeds them, averaged down to the largest size of its shape. */
  ghost predicate Pictured(h: Header, d: seq<Byte>, plane: seq<int>, maxW: nat, maxH: nat, fit: bool, out: seq<int>, ow: nat, oh: nat)
    requires Decodable(h, d, plane)
  {
    var alpha := AlphaByte(h, d);
    if fit && (h.w > maxW || h.h > maxH)
    then 0 < ow <= h.w && 0 < oh <= h.h && FitSize(h.w, h.h, maxW, maxH, ow, oh) && Shrunk(h, d, plane, alpha, out, ow, oh)
    else ow == Grid.Least(h.w, maxW) && oh == Grid.Least(h.h, maxH) && Cropped(h, d, plane, alpha, out, ow, oh)
  }

  /** The header and plane are those of the file, and `out` shows their picture. */
  ghost predicate Decoded(h: Header, d: seq<Byte>, plane: seq<int>, maxW: nat, maxH: nat, fit: bool, out: seq<int>, ow: nat, oh: nat)
  {
    && Decodable(h, d, plane)
    && Describes(h, d)
    && Pictured(h, d, plane, maxW, maxH, fit, out, ow, oh)
  }

  ghost predicate FitSize(w: nat, h: nat, maxW: nat, maxH: nat, ow: nat, oh: nat)
  {
    if w * maxH >= h * maxW then ow == maxW && Scaler.Fitted(w, h, maxW, maxH, oh)
    else oh == maxH && Scaler.Fitted(h, w, maxH, maxW, ow)
  }

  /** Decodes a file into `out`. JPEG and PNG payloads belong to other decoders. The
      ghost results are the parsed header and the RLE plane. */
  method Decode(d: seq<Byte>, out: array<int>, maxW: nat, maxH: nat, fit: bool)
    returns (r: Outcome, ghost h: Header, ghost plane: seq<int>)
    requires ADDRESSES > out.Length >= maxH * (4 * maxW)
    modifies out
    ensures r.Done? ==> Decoded(h, d, plane, maxW, maxH, fit, out[..], r.ow, r.oh)
    ensures r.Done? && (IsRle(h) || Moderate(h.chans)) ==>
      if fit && (h.w > maxW || h.h > maxH) then r.ow > 0 && r.oh > 0 && ShrinksMeant(h, d, plane, out[..], r.ow, r.oh)
      else r.ow <= h.w && r.oh <= h.h && ShowsMeant(h, d, plane, out[..], r.ow, r.oh)
    ensures r.Done? <==> maxW > 0 && maxH > 0 && Acceptable(d) && Decodes(d)
    ensures r.Embedded? <==> maxW > 0 && maxH > 0 && Acceptable(d) && HoldsFile(d)
    ensures r.Done? ==> OnlyPicture(old(out[..]), out[..], r.ow, r.oh)
    ensures !r.Done? ==> out[..] == old(out[..])
  {
    hide ChannelOk, Describes, Shrunk, Cropped, PlaneOf, AlphaByte, FitSize, RowBytes, Acceptable, Decodes, HoldsFile, ShowsMeant, ShrinksMeant, Moderate;
    h, plane := Header(0, 0, false, 0, Rgb, [], [], 0, 0, false), [];
    if maxW == 0 || maxH == 0 {
      return Refused, h, plane;
    }
    var p := Parse(d);
    if !p.Ok? {
      return Refused, h, plane;
    }
    var hd := p.header;
    h := hd;
    Decoding(d, hd);
    if hd.comp.Jpeg? || hd.comp.Png? {
      return Embedded, h, plane;
    }
    var scale := fit && (hd.w > maxW || hd.h > maxH);
    var ow, oh := Grid.Least(hd.w, maxW), Grid.Least(hd.h, maxH);
    if scale {
      ow, oh := FitInto(hd.w, hd.h, maxW, maxH);
    }
    var pixels := new int[0];
    if IsRle(hd) {
      if hd.w * hd.h > MAX_RLE_PIXELS {
        return Refused, h, plane;
      }
      pixels := ReadPlane(hd, d);
    }
    plane := pixels[..];
    var alpha := FindAlpha(hd, d);
    Room(ow, oh, maxW, maxH);
    if scale {
      ShrinkRows(hd, d, pixels, alpha, out, ow, oh);
      if IsRle(hd) || Moderate(hd.chans) { ShrunkMeant(hd, d, plane, out[..], ow, oh); }
    } else {
      CropRows(hd, d, pixels, alpha, out, ow, oh);
      if IsRle(hd) || Moderate(hd.chans) { CroppedMeant(hd, d, plane, out[..], ow, oh); }
    }
    r := Done(ow, oh);
  }

  /** An accepted file whose pixels are another file. */
  ghost predicate HoldsFile(d: seq<Byte>)
    requires Acceptable(d)
  {
    var comp := CompressionOf(FieldsOf(d, Rd32(d, 14)).comp).value;
    comp.Jpeg? || comp.Png?
  }

  /** An accepted file whose own pixels are not too many to be kept in a plane. */
  ghost predicate Decodes(d: seq<Byte>)
    requires Acceptable(d)
  {
    var f := FieldsOf(d, Rd32(d, 14));
    var comp := CompressionOf(f.comp).value;
    !HoldsFile(d) && (comp.Rle8? || comp.Rle4? ==> f.w * (if f.h < 0 then -f.h else f.h) <= MAX_RLE_PIXELS)
  }

  lemma Decoding(d: seq<Byte>, h: Header)
    requires Acceptable(d) && Usable(h, |d|) && Describes(h, d)
    ensures HoldsFile(d) <==> h.comp.Jpeg? || h.comp.Png?
    ensures Decodes(d) <==> !h.comp.Jpeg? && !h.comp.Png? && (IsRle(h) ==> h.w * h.h <= MAX_RLE_PIXELS)
  {
    hide ChannelsOf, PaletteOf, FieldsOf, CompressionOf;
  }

  /** Nothing outside the picture differs. */
  ghost predicate OnlyPicture(before: seq<int>, after: seq<int>, ow: nat, oh: nat)
  {
    Kept(before, after, 0, oh * (4 * ow))
  }

  lemma Room(ow: nat, oh: nat, maxW: nat, maxH: nat)
    requires ow <= maxW && oh <= maxH
    ensures oh * (4 * ow) <= maxH * (4 * maxW)
  {
    Grid.Mono(4 * ow, oh, maxH);
    Mono(maxH, 4 * ow, 4 * maxW);
  }

  lemma Product(side: nat, m: nat, other: nat)
    requires 0 < side <= MAX_DIM && m > 0 && m * (4 * other) < ADDRESSES
    ensures side * other < Scaler.U64
  {
    Mono(4 * other, 1, m);
    Mono(other, side, MAX_DIM);
  }

  method FitInto(w: nat, h: nat, maxW: nat, maxH: nat) returns (ow: nat, oh: nat)
    requires 0 < w <= MAX_DIM && 0 < h <= MAX_DIM && maxW > 0 && maxH > 0 && (w > maxW || h > maxH)
    requires maxH * (4 * maxW) < ADDRESSES
    ensures 0 < ow <= w && 0 < oh <= h && ow <= maxW && oh <= maxH && FitSize(w, h, maxW, maxH, ow, oh)
  {
    Product(w, maxW, maxH);
    Product(h, maxH, maxW);
    ow, oh := Scaler.FitDims(w, h, maxW, maxH);
  }
}
