/** Sequential (baseline and extended) scans: a block is a coded DC difference followed
    by run lengths of AC coefficients. The coder is that of section F.1.2 of ITU-T T.81. */
module Sequential {
  import opened BitSeq
  import opened BitReader
  import opened Huffman
  import opened Progressive
  import opened ProgressiveCoder
  import opened ProgressiveDc

  /** The AC part of a block as a band of its own, at full precision. */
  const BAND := Scan(1, 63, 0, false)

  function Zeros(): (z: Block) { seq(64, _ => 0) }

  /** Decodes the AC coefficients from zigzag place `k` on. */
  function SeqAc(c: Code, s: Stream, z: Block, k: nat): (r: (Block, Stream))
    requires c.WellFormed()
    decreases 64 - k
  {
    if k > 63 then (z, s) else
      var (sym, s1) := Symbol(c, s);
      var rs := if sym < 0 then 0 else sym;
      var (r, size) := (rs / 16, rs % 16);
      if size != 0 then
        var (v, s2) := RecvExt(s1, size);
        SeqAc(c, s2, Put(z, k + r, Int16(v)), k + r + 1)
      else if r == 15 then SeqAc(c, s1, z, k + 16)
      else (z, s1)
  }

  datatype Tables = Tables(dc: Code, ac: Code)
  {
    predicate WellFormed() { dc.WellFormed() && ac.WellFormed() }
  }

  /** Decodes a block: the next prediction, the block and the rest of the stream. */
  function SeqBlock(t: Tables, s: Stream, pred: int): (r: (int, Block, Stream))
    requires t.WellFormed()
  {
    var (p, v, s1) := DcFirst(t.dc, 0, s, pred);
    var (z, s2) := SeqAc(t.ac, s1, Zeros()[0 := v], 1);
    (p, z, s2)
  }

  predicate Formed(ts: seq<Tables>) { forall i :: 0 <= i < |ts| ==> ts[i].WellFormed() }

  /** The blocks of one minimum coded unit; `pattern` lists their components. */
  function SeqUnit(ts: seq<Tables>, s: Stream, pattern: seq<nat>, preds: seq<int>): (r: (seq<Block>, seq<int>, Stream))
    requires |ts| == |preds| && Formed(ts)
    requires Within(pattern, |preds|)
    ensures |r.1| == |preds|
    decreases |pattern|
  {
    if pattern == [] then ([], preds, s) else
      var c := pattern[0];
      var (p, z, s1) := SeqBlock(ts[c], s, preds[c]);
      var (zs, preds', s2) := SeqUnit(ts, s1, pattern[1..], preds[c := p]);
      ([z] + zs, preds', s2)
  }

  /** A scan of `n` units; it stops where the data does. */
  function SeqScan(ts: seq<Tables>, s: Stream, pattern: seq<nat>, preds: seq<int>, n: nat): (r: (seq<seq<Block>>, Stream))
    requires |ts| == |preds| && Formed(ts)
    requires Within(pattern, |preds|)
    decreases n
  {
    hide Formed, Within, SeqUnit;
    if n == 0 || s.starved then ([], s) else
      var (zs, preds', s1) := SeqUnit(ts, s, pattern, preds);
      var (rest, s2) := SeqScan(ts, s1, pattern, preds', n - 1);
      ([zs] + rest, s2)
  }

  // ---- in place ---------------------------------------------------------------------------

  /** Decodes one block over zeros. */
  method BlkSeq(b: Reader, dt: Table, at: Table, coef: array<int>, base: nat, pred: int) returns (pred': int)
    requires dt.Built() && at.Built() && DcTable(dt.Spec()) && b.Valid() && base + 64 <= coef.Length
    requires coef != dt.maxcode && coef != dt.valoff && coef != at.maxcode && coef != at.valoff
    requires BlockAt(coef[..], base) == Zeros()
    modifies b, coef
    ensures b.Valid() && Confined(old(coef[..]), coef[..], base)
    ensures (pred', BlockAt(coef[..], base), b.View()) == SeqBlock(Tables(dt.Spec(), at.Spec()), old(b.View()), pred)
  {
    hide Natural, Symbol, RecvExt, Shl, BlockAt, Reader.Valid, Reader.View, LimitsDone, LookDone, Code.Feasible, DcFirst, Put, Confined, DcTable, SeqAc;
    ConfinedNone(coef[..], base);
    ghost var d, c, s0 := dt.Spec(), at.Spec(), b.View();
    pred' := BlkDcFirst(b, dt, coef, base, pred, 0);
    ghost var s1, z1 := b.View(), BlockAt(coef[..], base);
    var k := 1;
    while k < 64
      invariant at.Built() && c == at.Spec() && b.Valid() && 1 <= k <= 79
      invariant Confined(old(coef[..]), coef[..], base)
      invariant SeqAc(c, b.View(), BlockAt(coef[..], base), k) == SeqAc(c, s1, z1, 1)
      decreases 80 - k
    {
      UnfoldSeqAc(c, b.View(), BlockAt(coef[..], base), k);
      var r, size := DecodeSymbol(b, at);
      if size != 0 {
        k := k + r;
        var v := b.ReceiveExtend(size);
        ghost var before := coef[..];
        Store(coef, base, k, Int16(v));
        ConfinedThen(old(coef[..]), before, coef[..], base);
      } else if r != 15 {
        return;
      } else {
        k := k + 15;
      }
      k := k + 1;
    }
    SeqAcDone(c, b.View(), BlockAt(coef[..], base), k);
  }

  /** One symbol of the AC part. */
  lemma UnfoldSeqAc(c: Code, s: Stream, z: Block, k: nat)
    requires c.WellFormed() && k <= 63
    ensures var (sym, s1) := Symbol(c, s);
      var rs := if sym < 0 then 0 else sym;
      if rs % 16 != 0 then
        var (v, s2) := RecvExt(s1, rs % 16);
        SeqAc(c, s, z, k) == SeqAc(c, s2, Put(z, k + rs / 16, Int16(v)), k + rs / 16 + 1)
      else if rs / 16 == 15 then SeqAc(c, s, z, k) == SeqAc(c, s1, z, k + 16)
      else SeqAc(c, s, z, k) == (z, s1)
  {
    hide Symbol, RecvExt, Put;
  }

  lemma SeqAcDone(c: Code, s: Stream, z: Block, k: nat)
    requires c.WellFormed() && k > 63
    ensures SeqAc(c, s, z, k) == (z, s)
  {
  }

  /** The decoding tables of a scan's components are built, and hold the codes `ts`. */
  ghost predicate Loaded(dts: seq<Table>, ats: seq<Table>, ts: seq<Tables>)
    reads set t | t in dts + ats :: t.bits, set t | t in dts + ats :: t.vals
    reads set t | t in dts + ats :: t.look, set t | t in dts + ats :: t.maxcode, set t | t in dts + ats :: t.valoff
  {
    && |dts| == |ats| == |ts|
    && forall i :: 0 <= i < |dts| ==> dts[i] in dts + ats && ats[i] in dts + ats && Paired(dts[i], ats[i], ts[i])
  }

  ghost predicate Paired(dt: Table, at: Table, t: Tables)
    reads dt.bits, dt.vals, dt.look, dt.maxcode, dt.valoff, at.bits, at.vals, at.look, at.maxcode, at.valoff
  {
    Holds(dt, t.dc) && Holds(at, t.ac) && DcTable(t.dc)
  }

  /** Decodes one block into scratch memory. */
  method NextBlock(b: Reader, dt: Table, at: Table, ghost t: Tables, pred: int) returns (pred': int, z: Block)
    requires Paired(dt, at, t) && b.Valid()
    modifies b
    ensures Paired(dt, at, t) && b.Valid() && (pred', z, b.View()) == SeqBlock(t, old(b.View()), pred)
  {
    hide Natural, SeqBlock, Reader.Valid, Reader.View, LimitsDone, LookDone, DcTable;
    var tmp := new int[64](_ => 0);
    ZigZeros(tmp[..]);
    pred' := BlkSeq(b, dt, at, tmp, 0, pred);
    z := Zig(tmp[..]);
    assert tmp[..][0..64] == tmp[..];
  }

  lemma ZigZeros(b: seq<int>)
    requires |b| == 64 && forall k :: 0 <= k < 64 ==> b[k] == 0
    ensures BlockAt(b, 0) == Zeros()
  {
    hide Natural, Zigzag;
    assert b[0..64] == b;
    forall k | 0 <= k < 64 ensures Zig(b)[k] == 0 { NaturalInverse(k); }
  }

  /** Decodes one unit. */
  method RunUnit(b: Reader, dts: seq<Table>, ats: seq<Table>, ghost ts: seq<Tables>, pattern: seq<nat>, preds: seq<int>)
    returns (zs: seq<Block>, preds': seq<int>)
    requires Loaded(dts, ats, ts) && Formed(ts) && b.Valid() && |preds| == |ts| && Within(pattern, |preds|)
    modifies b
    ensures b.Valid() && Loaded(dts, ats, ts)
    ensures (zs, preds', b.View()) == SeqUnit(ts, old(b.View()), pattern, preds)
  {
    hide SeqBlock, Reader.Valid, Reader.View, Paired, SeqUnit, Formed;
    ghost var goal := SeqUnit(ts, b.View(), pattern, preds);
    zs, preds' := [], preds;
    var j := 0;
    assert pattern[0..] == pattern;
    PrependNone(goal);
    while j < |pattern|
      invariant 0 <= j <= |pattern| && b.Valid() && |preds'| == |ts| && Loaded(dts, ats, ts)
      invariant Within(pattern[j..], |preds|)
      invariant Prepend(zs, SeqUnit(ts, b.View(), pattern[j..], preds')) == goal
    {
      UnitNext(ts, b.View(), pattern[j..], preds', zs);
      assert pattern[j..][0] == pattern[j] && pattern[j..][1..] == pattern[j + 1..];
      var c := pattern[j];
      var p, z := NextBlock(b, dts[c], ats[c], ts[c], preds'[c]);
      zs, preds' := zs + [z], preds'[c := p];
      j := j + 1;
    }
    UnitDone(ts, b.View(), pattern[j..], preds', zs);
  }

  lemma PrependNone(r: (seq<Block>, seq<int>, Stream))
    ensures Prepend([], r) == r
  {
    assert [] + r.0 == r.0;
  }

  ghost function Prepend(zs: seq<Block>, r: (seq<Block>, seq<int>, Stream)): (q: (seq<Block>, seq<int>, Stream))
  {
    (zs + r.0, r.1, r.2)
  }

  lemma UnitNext(ts: seq<Tables>, s: Stream, pattern: seq<nat>, preds: seq<int>, zs: seq<Block>)
    requires |ts| == |preds| && Formed(ts) && Within(pattern, |preds|) && pattern != []
    ensures var c := pattern[0];
      var (p, z, s1) := SeqBlock(ts[c], s, preds[c]);
      Prepend(zs, SeqUnit(ts, s, pattern, preds)) == Prepend(zs + [z], SeqUnit(ts, s1, pattern[1..], preds[c := p]))
  {
    hide SeqBlock;
    var c := pattern[0];
    var (p, z, s1) := SeqBlock(ts[c], s, preds[c]);
    var rest := SeqUnit(ts, s1, pattern[1..], preds[c := p]).0;
    assert zs + ([z] + rest) == zs + [z] + rest;
  }

  lemma UnitDone(ts: seq<Tables>, s: Stream, pattern: seq<nat>, preds: seq<int>, zs: seq<Block>)
    requires |ts| == |preds| && Formed(ts) && Within(pattern, |preds|) && pattern == []
    ensures Prepend(zs, SeqUnit(ts, s, pattern, preds)) == (zs, preds, s)
  {
    assert zs + [] == zs;
  }

  /** Decodes the units of a scan, until the data runs out. */
  method RunSeqScan(b: Reader, dts: seq<Table>, ats: seq<Table>, ghost ts: seq<Tables>, pattern: seq<nat>, n: nat) returns (zss: seq<seq<Block>>)
    requires Loaded(dts, ats, ts) && Formed(ts) && b.Valid() && Within(pattern, |ts|)
    modifies b
    ensures b.Valid() && (zss, b.View()) == SeqScan(ts, old(b.View()), pattern, seq(|ts|, _ => 0), n)
  {
    hide Reader.Valid, Paired, SeqUnit, SeqScan, Formed, Within;
    var preds := seq(|dts|, _ => 0);
    ghost var goal := SeqScan(ts, b.View(), pattern, preds, n);
    zss := [];
    PrependScanNone(goal);
    var j := 0;
    while j < n && !b.insufficient
      invariant 0 <= j <= n && b.Valid() && |preds| == |ts| && Loaded(dts, ats, ts)
      invariant PrependScan(zss, SeqScan(ts, b.View(), pattern, preds, n - j)) == goal
    {
      ScanNext(ts, b.View(), pattern, preds, n - j, zss);
      var zs;
      zs, preds := RunUnit(b, dts, ats, ts, pattern, preds);
      zss := zss + [zs];
      j := j + 1;
    }
    ScanDone(ts, b.View(), pattern, preds, n - j, zss);
  }

  lemma PrependScanNone(r: (seq<seq<Block>>, Stream))
    ensures PrependScan([], r) == r
  {
    assert [] + r.0 == r.0;
  }

  ghost function PrependScan(zss: seq<seq<Block>>, r: (seq<seq<Block>>, Stream)): (q: (seq<seq<Block>>, Stream))
  {
    (zss + r.0, r.1)
  }

  lemma ScanNext(ts: seq<Tables>, s: Stream, pattern: seq<nat>, preds: seq<int>, n: nat, zss: seq<seq<Block>>)
    requires |ts| == |preds| && Formed(ts) && Within(pattern, |preds|) && n > 0 && !s.starved
    ensures var (zs, preds', s1) := SeqUnit(ts, s, pattern, preds);
      PrependScan(zss, SeqScan(ts, s, pattern, preds, n)) == PrependScan(zss + [zs], SeqScan(ts, s1, pattern, preds', n - 1))
  {
    hide SeqUnit, Formed, Within;
    var (zs, preds', s1) := SeqUnit(ts, s, pattern, preds);
    var rest := SeqScan(ts, s1, pattern, preds', n - 1).0;
    assert zss + ([zs] + rest) == zss + [zs] + rest;
  }

  lemma ScanDone(ts: seq<Tables>, s: Stream, pattern: seq<nat>, preds: seq<int>, n: nat, zss: seq<seq<Block>>)
    requires |ts| == |preds| && Formed(ts) && Within(pattern, |preds|) && (n == 0 || s.starved)
    ensures PrependScan(zss, SeqScan(ts, s, pattern, preds, n)) == (zss, s)
  {
    hide Formed, Within, SeqUnit;
    assert zss + [] == zss;
  }

  lemma ConfinedNone(coef: seq<int>, base: nat)
    requires base + 64 <= |coef|
    ensures Confined(coef, coef, base)
  {
  }

  lemma ConfinedThen(a: seq<int>, b: seq<int>, c: seq<int>, base: nat)
    requires base + 64 <= |a| == |b| && Confined(a, b, base) && Confined(b, c, base)
    ensures Confined(a, c, base)
  {
  }

  // ---- the coder ----------------------------------------------------------------------------

  /** Run lengths and values, then an end-of-block symbol unless the last coefficient is
      coded. */
  ghost function SeqTokens(x: Block): (ts: seq<Token>)
  {
    HeadTokens(BAND, x, 1) + (if EndPos(BAND, x, 1) > 63 then [] else RunTokens(1))
  }

  ghost predicate SeqCodable(t: Tables, x: Block, pred: int)
    requires t.WellFormed()
  {
    && t.dc.Feasible() && t.ac.Feasible() && Codable(BAND, x) && -0x8000 <= x[0] < 0x8000 && -0x8000 <= pred < 0x8000
    && Covers(t.dc, DcTokens(0, x[0], pred)) && Covers(t.ac, SeqTokens(x))
  }

  ghost function SeqBits(t: Tables, x: Block, pred: int): (b: seq<bool>)
    requires t.WellFormed() && SeqCodable(t, x, pred)
  {
    Bits(t.dc, DcTokens(0, x[0], pred)) + Bits(t.ac, SeqTokens(x))
  }

  // ---- decoding undoes coding -----------------------------------------------------------------

  /** Where no end-of-band run is left over, the sequential decoder does what the
      progressive one does on the whole band. */
  lemma {:induction false} SeqIsHead(c: Code, s: Stream, z: Block, k: nat)
    requires c.WellFormed() && Head(c, BAND, s, z, k).2 == 0
    ensures SeqAc(c, s, z, k) == (Head(c, BAND, s, z, k).0, Head(c, BAND, s, z, k).1)
    decreases 64 - k
  {
    hide Symbol, RecvExt, Put, Shl, GetBits;
    if k <= 63 {
      var (sym, s1) := Symbol(c, s);
      var rs := if sym < 0 then 0 else sym;
      var (r, size) := (rs / 16, rs % 16);
      if size != 0 {
        var (v, s2) := RecvExt(s1, size);
        ShlNothing(v);
        SeqIsHead(c, s2, Put(z, k + r, Int16(v)), k + r + 1);
      } else if r == 15 {
        SeqIsHead(c, s1, z, k + 16);
      } else if r > 0 {
        LongRun(s1, r);
      }
    }
  }

  lemma ShlNothing(v: int)
    ensures Shl(v, 0) == v && Shr(v, 0) == v
  {
  }

  lemma LongRun(s: Stream, r: nat)
    requires r > 0
    ensures RunLength(s, r).0 > 1
  {
    hide Val, Take, Drop, Shl;
    assert Pow2(r) == 2 * Pow2(r - 1) by { ShlDouble(1, r - 1); }
    PowIs(r - 1);
  }

  /** At full precision nothing of a coefficient is left to later scans. */
  lemma FullTarget(x: int)
    ensures Target(BAND, x) == x && (IsNew(BAND, x) <==> x != 0)
  {
    ShlNothing(Abs(x));
    ShlNothing(Mag(x, 0));
  }

  lemma FillAcs(x: Block, z: Block)
    requires z[0] == x[0]
    ensures Fill(BAND, x, z, 1, 64) == x
  {
    hide Target;
    forall i | 0 <= i < 64 ensures Fill(BAND, x, z, 1, 64)[i] == x[i] { FullTarget(x[i]); }
  }

  lemma RestIsZero(x: Block, z: Block, e: nat)
    requires 1 <= e <= 64 && !More(BAND, x, e) && forall i :: e <= i < 64 ==> z[i] == 0
    ensures Fill(BAND, x, z, 1, e) == Fill(BAND, x, z, 1, 64)
  {
    hide Target, IsNew;
    forall i | e <= i < 64 ensures Target(BAND, x[i]) == z[i] { FullTarget(x[i]); }
  }

  /** The AC symbols of a block come back. */
  lemma AcBack(c: Code, x: Block, more: seq<bool>)
    requires c.WellFormed() && c.Feasible() && Codable(BAND, x) && Covers(c, SeqTokens(x))
    ensures SeqAc(c, Stream(Bits(c, SeqTokens(x)) + more, false), Zeros()[0 := x[0]], 1) == (x, Stream(more, false))
  {
    hide SeqAc, Head, HeadTokens, RunTokens, Bits, Covers, Codable, Code.Feasible, Code.WellFormed, More, Fill, Ready;
    var z := Zeros()[0 := x[0]];
    var s := Stream(Bits(c, SeqTokens(x)) + more, false);
    var e := EndPos(BAND, x, 1);
    var last := if e > 63 then [] else RunTokens(1);
    CoversSplit(c, HeadTokens(BAND, x, 1), last);
    BitsConcat(c, HeadTokens(BAND, x, 1), last);
    assert Bits(c, SeqTokens(x)) + more == Bits(c, HeadTokens(BAND, x, 1)) + (Bits(c, last) + more);
    BitsNone(c);
    ReadyZero(x);
    HeadBack(c, BAND, x, z, 1, Bits(c, last) + more);
    RestIsZero(x, z, e);
    FillAcs(x, z);
    HeadEnd(c, x, e, more);
    SeqIsHead(c, s, z, 1);
  }

  lemma ReadyZero(x: Block)
    ensures Ready(BAND, x, Zeros()[0 := x[0]], 1)
  {
  }

  /** After the last coefficient the decoder stops with nothing left over. */
  lemma HeadEnd(c: Code, x: Block, e: nat, more: seq<bool>)
    requires c.WellFormed() && c.Feasible() && e <= 64 && (e <= 63 ==> Covers(c, RunTokens(1)))
    ensures Head(c, BAND, Stream((if e > 63 then [] else Bits(c, RunTokens(1))) + more, false), x, e) == (x, Stream(more, false), 0)
  {
    hide Symbol, RunTokens, Bits, Covers, RunLength, Code.Feasible, Code.WellFormed;
    if e > 63 {
      assert [] + more == more;
    } else {
      RunBack(c, 1, more);
      UnfoldRun(c, BAND, Stream(Bits(c, RunTokens(1)) + more, false), x, e);
    }
  }

  /** A coded block comes back, and the prediction follows the coder's. */
  lemma BlockBack(t: Tables, x: Block, pred: int, more: seq<bool>)
    requires t.WellFormed() && SeqCodable(t, x, pred)
    ensures SeqBlock(t, Stream(SeqBits(t, x, pred) + more, false), pred) == (x[0], x, Stream(more, false))
  {
    hide SeqAc, DcDiff, DcTokens, SeqTokens, Bits, Covers, Codable, Code.Feasible, Code.WellFormed;
    var d, a := Bits(t.dc, DcTokens(0, x[0], pred)), Bits(t.ac, SeqTokens(x));
    assert d + a + more == d + (a + more);
    DcDiffBack(t.dc, 0, x[0], pred, a + more);
    ShlNothing(x[0]);
    AcBack(t.ac, x, more);
  }

  /** The predictions after a unit. */
  function NextPreds(pattern: seq<nat>, xs: seq<Block>, preds: seq<int>): (r: seq<int>)
    requires |xs| == |pattern| && Within(pattern, |preds|)
    ensures |r| == |preds|
    decreases |pattern|
  {
    if pattern == [] then preds else NextPreds(pattern[1..], xs[1..], preds[pattern[0] := xs[0][0]])
  }

  ghost predicate UnitCodable(ts: seq<Tables>, pattern: seq<nat>, xs: seq<Block>, preds: seq<int>)
    requires |ts| == |preds| && Formed(ts)
    decreases |pattern|
  {
    if pattern == [] then xs == []
    else
      && xs != [] && pattern[0] < |ts| && SeqCodable(ts[pattern[0]], xs[0], preds[pattern[0]])
      && UnitCodable(ts, pattern[1..], xs[1..], preds[pattern[0] := xs[0][0]])
  }

  ghost function UnitBits(ts: seq<Tables>, pattern: seq<nat>, xs: seq<Block>, preds: seq<int>): (b: seq<bool>)
    requires |ts| == |preds| && Formed(ts) && UnitCodable(ts, pattern, xs, preds)
    decreases |pattern|
  {
    if pattern == [] then []
    else SeqBits(ts[pattern[0]], xs[0], preds[pattern[0]]) + UnitBits(ts, pattern[1..], xs[1..], preds[pattern[0] := xs[0][0]])
  }

  lemma {:induction false} UnitBack(ts: seq<Tables>, pattern: seq<nat>, xs: seq<Block>, preds: seq<int>, more: seq<bool>)
    requires |ts| == |preds| && Formed(ts)
    requires Within(pattern, |preds|) && UnitCodable(ts, pattern, xs, preds)
    ensures |xs| == |pattern|
    ensures SeqUnit(ts, Stream(UnitBits(ts, pattern, xs, preds) + more, false), pattern, preds)
      == (xs, NextPreds(pattern, xs, preds), Stream(more, false))
    decreases |pattern|
  {
    hide SeqBlock, SeqBits, SeqCodable, Tables.WellFormed;
    if pattern == [] {
      assert [] + more == more;
    } else {
      var c := pattern[0];
      var bits, rest := SeqBits(ts[c], xs[0], preds[c]), UnitBits(ts, pattern[1..], xs[1..], preds[c := xs[0][0]]);
      assert bits + rest + more == bits + (rest + more);
      BlockBack(ts[c], xs[0], preds[c], rest + more);
      UnitBack(ts, pattern[1..], xs[1..], preds[c := xs[0][0]], more);
      assert [xs[0]] + xs[1..] == xs;
    }
  }

  ghost predicate ScanCodable(ts: seq<Tables>, pattern: seq<nat>, xss: seq<seq<Block>>, preds: seq<int>)
    requires |ts| == |preds| && Formed(ts)
    requires Within(pattern, |preds|)
    decreases |xss|
  {
    xss == [] ||
    (&& |xss[0]| == |pattern| && UnitCodable(ts, pattern, xss[0], preds)
     && ScanCodable(ts, pattern, xss[1..], NextPreds(pattern, xss[0], preds)))
  }

  ghost function ScanBits(ts: seq<Tables>, pattern: seq<nat>, xss: seq<seq<Block>>, preds: seq<int>): (b: seq<bool>)
    requires |ts| == |preds| && Formed(ts)
    requires Within(pattern, |preds|) && ScanCodable(ts, pattern, xss, preds)
    decreases |xss|
  {
    if xss == [] then []
    else UnitBits(ts, pattern, xss[0], preds) + ScanBits(ts, pattern, xss[1..], NextPreds(pattern, xss[0], preds))
  }

  /** A whole interleaved scan of any number of components comes back, block by block. */
  lemma {:induction false} SequentialScan(ts: seq<Tables>, pattern: seq<nat>, xss: seq<seq<Block>>, preds: seq<int>, more: seq<bool>)
    requires |ts| == |preds| && Formed(ts)
    requires Within(pattern, |preds|) && ScanCodable(ts, pattern, xss, preds)
    ensures SeqScan(ts, Stream(ScanBits(ts, pattern, xss, preds) + more, false), pattern, preds, |xss|) == (xss, Stream(more, false))
    decreases |xss|
  {
    hide SeqUnit, UnitBits, UnitCodable, NextPreds, Formed, Within;
    if xss == [] {
      assert [] + more == more;
    } else {
      var preds' := NextPreds(pattern, xss[0], preds);
      var bits, rest := UnitBits(ts, pattern, xss[0], preds), ScanBits(ts, pattern, xss[1..], preds');
      assert bits + rest + more == bits + (rest + more);
      UnitBack(ts, pattern, xss[0], preds, rest + more);
      SequentialScan(ts, pattern, xss[1..], preds', more);
      assert [xss[0]] + xss[1..] == xss;
    }
  }
}
