/** The whole way of the DC coefficients of a progressive frame: the interleaved first
    scan and the refinements, each from a segment of its own, give every value back. */
module CodedDc {
  import opened Grid
  import opened BitSeq
  import opened BitReader
  import opened Huffman
  import opened Progressive
  import opened ProgressiveDc
  import opened Segments

  /** The DC tables of the scan's components are built, and hold the codes. */
  ghost predicate Loaded(ts: seq<Table>, codes: seq<Code>)
    reads set t | t in ts :: t.bits, set t | t in ts :: t.vals
    reads set t | t in ts :: t.look, set t | t in ts :: t.maxcode, set t | t in ts :: t.valoff
  {
    |ts| == |codes| && forall i :: 0 <= i < |ts| ==> ts[i] in ts && Holds(ts[i], codes[i]) && DcTable(codes[i])
  }

  // ---- first scan -----------------------------------------------------------------------

  /** One DC value of a first scan, in a scratch block. */
  method NextDc(b: Reader, t: Table, ghost c: Code, al: nat, pred: int) returns (pred': int, dc: int)
    requires Holds(t, c) && DcTable(c) && b.Valid()
    modifies b
    ensures Holds(t, c) && b.Valid() && (pred', dc, b.View()) == DcFirst(c, al, old(b.View()), pred)
  {
    hide Reader.Valid, Reader.View, DcFirst, LimitsDone, LookDone, DcTable, BlockAt;
    var tmp := new int[64](_ => 0);
    pred' := BlkDcFirst(b, t, tmp, 0, pred, al);
    BlockElem(tmp[..], 0, 0);
    dc := tmp[Natural(0)];
  }

  ghost function Joined(dcs: seq<int>, r: (seq<int>, seq<int>, Stream)): (q: (seq<int>, seq<int>, Stream)) { (dcs + r.0, r.1, r.2) }

  method FirstUnit(b: Reader, ts: seq<Table>, ghost codes: seq<Code>, al: nat, pattern: seq<nat>, preds: seq<int>) returns (dcs: seq<int>, preds': seq<int>)
    requires Loaded(ts, codes) && Formed(codes) && b.Valid() && |preds| == |codes| && Within(pattern, |preds|)
    modifies b
    ensures Loaded(ts, codes) && b.Valid() && (dcs, preds', b.View()) == DcMcu(codes, al, old(b.View()), pattern, preds)
  {
    hide Reader.Valid, Reader.View, Holds, DcTable, DcFirst, DcMcu;
    ghost var goal := DcMcu(codes, al, b.View(), pattern, preds);
    dcs, preds' := [], preds;
    var j := 0;
    assert pattern[0..] == pattern && [] + goal.0 == goal.0;
    while j < |pattern|
      invariant 0 <= j <= |pattern| && Loaded(ts, codes) && b.Valid() && |preds'| == |codes| && Within(pattern[j..], |preds|)
      invariant Joined(dcs, DcMcu(codes, al, b.View(), pattern[j..], preds')) == goal
    {
      UnitNext(codes, al, b.View(), pattern[j..], preds', dcs);
      assert pattern[j..][0] == pattern[j] && pattern[j..][1..] == pattern[j + 1..];
      var c := pattern[j];
      var p, dc := NextDc(b, ts[c], codes[c], al, preds'[c]);
      dcs, preds' := dcs + [dc], preds'[c := p];
      j := j + 1;
    }
    UnitDone(codes, al, b.View(), pattern[j..], preds', dcs);
  }

  lemma UnitNext(codes: seq<Code>, al: nat, s: Stream, pattern: seq<nat>, preds: seq<int>, dcs: seq<int>)
    requires |codes| == |preds| && Formed(codes) && Within(pattern, |preds|) && pattern != []
    ensures var c := pattern[0];
      var (p, dc, s1) := DcFirst(codes[c], al, s, preds[c]);
      Joined(dcs, DcMcu(codes, al, s, pattern, preds)) == Joined(dcs + [dc], DcMcu(codes, al, s1, pattern[1..], preds[c := p]))
  {
    hide DcFirst;
    var c := pattern[0];
    var (p, dc, s1) := DcFirst(codes[c], al, s, preds[c]);
    var rest := DcMcu(codes, al, s1, pattern[1..], preds[c := p]).0;
    assert dcs + ([dc] + rest) == dcs + [dc] + rest;
  }

  lemma UnitDone(codes: seq<Code>, al: nat, s: Stream, pattern: seq<nat>, preds: seq<int>, dcs: seq<int>)
    requires |codes| == |preds| && Formed(codes) && Within(pattern, |preds|) && pattern == []
    ensures Joined(dcs, DcMcu(codes, al, s, pattern, preds)) == (dcs, preds, s)
  {
    assert dcs + [] == dcs;
  }

  ghost function After(done: seq<seq<int>>, r: (seq<seq<int>>, Stream)): (q: (seq<seq<int>>, Stream)) { (done + r.0, r.1) }

  /** A first scan; units the data no longer reaches keep their values. */
  method FirstScan(b: Reader, ts: seq<Table>, ghost codes: seq<Code>, al: nat, pattern: seq<nat>, mcus: seq<seq<int>>) returns (r: seq<seq<int>>)
    requires Loaded(ts, codes) && Formed(codes) && b.Valid() && Within(pattern, |codes|)
    modifies b
    ensures b.Valid() && (r, b.View()) == DcScan(codes, al, old(b.View()), pattern, seq(|codes|, _ => 0), mcus)
  {
    hide Reader.Valid, Holds, DcMcu, DcScan;
    var preds := seq(|ts|, _ => 0);
    ghost var goal := DcScan(codes, al, b.View(), pattern, preds, mcus);
    r := [];
    var u := 0;
    assert mcus[0..] == mcus && [] + goal.0 == goal.0;
    while u < |mcus| && !b.insufficient
      invariant 0 <= u <= |mcus| && Loaded(ts, codes) && b.Valid() && |preds| == |codes|
      invariant After(r, DcScan(codes, al, b.View(), pattern, preds, mcus[u..])) == goal
    {
      ScanNext(codes, al, b.View(), pattern, preds, mcus[u..], r);
      assert mcus[u..][1..] == mcus[u + 1..];
      var dcs;
      dcs, preds := FirstUnit(b, ts, codes, al, pattern, preds);
      r := r + [dcs];
      u := u + 1;
    }
    ScanDone(codes, al, b.View(), pattern, preds, mcus[u..]);
    r := r + mcus[u..];
  }

  lemma ScanNext(codes: seq<Code>, al: nat, s: Stream, pattern: seq<nat>, preds: seq<int>, mcus: seq<seq<int>>, done: seq<seq<int>>)
    requires |codes| == |preds| && Formed(codes) && Within(pattern, |preds|) && mcus != [] && !s.starved
    ensures var (dcs, preds', s1) := DcMcu(codes, al, s, pattern, preds);
      After(done, DcScan(codes, al, s, pattern, preds, mcus)) == After(done + [dcs], DcScan(codes, al, s1, pattern, preds', mcus[1..]))
  {
    hide DcMcu;
    var (dcs, preds', s1) := DcMcu(codes, al, s, pattern, preds);
    var rest := DcScan(codes, al, s1, pattern, preds', mcus[1..]).0;
    assert done + ([dcs] + rest) == done + [dcs] + rest;
  }

  lemma ScanDone(codes: seq<Code>, al: nat, s: Stream, pattern: seq<nat>, preds: seq<int>, mcus: seq<seq<int>>)
    requires |codes| == |preds| && Formed(codes) && Within(pattern, |preds|) && (mcus == [] || s.starved)
    ensures DcScan(codes, al, s, pattern, preds, mcus) == (mcus, s)
  {
  }

  // ---- refinements ------------------------------------------------------------------------

  method RefineUnit(b: Reader, al: nat, dcs: seq<int>) returns (r: seq<int>)
    requires b.Valid()
    modifies b
    ensures b.Valid() && (r, b.View()) == DcRefineMcu(al, old(b.View()), dcs)
  {
    hide Reader.Valid, Reader.View, DcRefineMcu, DcRefine;
    ghost var goal := DcRefineMcu(al, b.View(), dcs);
    r := [];
    var j := 0;
    assert dcs[0..] == dcs && [] + goal.0 == goal.0;
    while j < |dcs|
      invariant 0 <= j <= |dcs| && b.Valid()
      invariant Refined(r, DcRefineMcu(al, b.View(), dcs[j..])) == goal
    {
      RefineNext(al, b.View(), dcs[j..], r);
      assert dcs[j..][0] == dcs[j] && dcs[j..][1..] == dcs[j + 1..];
      var dc := RefineOne(b, al, dcs[j]);
      r := r + [dc];
      j := j + 1;
    }
    RefineDone(al, b.View(), dcs[j..], r);
  }

  ghost function Refined(done: seq<int>, r: (seq<int>, Stream)): (q: (seq<int>, Stream)) { (done + r.0, r.1) }

  /** One DC value of a refinement, in a scratch block. */
  method RefineOne(b: Reader, al: nat, dc: int) returns (r: int)
    requires b.Valid()
    modifies b
    ensures b.Valid() && (r, b.View()) == DcRefine(al, old(b.View()), dc)
  {
    hide Reader.Valid, Reader.View, DcRefine, BlockAt;
    var tmp := new int[64](_ => 0);
    BlockElem(tmp[..], 0, 0);
    tmp[Natural(0)] := dc;
    BlockElem(tmp[..], 0, 0);
    BlkDcRefine(b, tmp, 0, al);
    BlockElem(tmp[..], 0, 0);
    r := tmp[Natural(0)];
  }

  lemma RefineNext(al: nat, s: Stream, dcs: seq<int>, done: seq<int>)
    requires dcs != []
    ensures var (dc, s1) := DcRefine(al, s, dcs[0]);
      Refined(done, DcRefineMcu(al, s, dcs)) == Refined(done + [dc], DcRefineMcu(al, s1, dcs[1..]))
  {
    hide DcRefine;
    var (dc, s1) := DcRefine(al, s, dcs[0]);
    var rest := DcRefineMcu(al, s1, dcs[1..]).0;
    assert done + ([dc] + rest) == done + [dc] + rest;
  }

  lemma RefineDone(al: nat, s: Stream, dcs: seq<int>, done: seq<int>)
    requires dcs == []
    ensures Refined(done, DcRefineMcu(al, s, dcs)) == (done, s)
  {
    assert done + [] == done;
  }

  /** A refinement scan; units the data no longer reaches keep their values. */
  method RefineScan(b: Reader, al: nat, mcus: seq<seq<int>>) returns (r: seq<seq<int>>)
    requires b.Valid()
    modifies b
    ensures b.Valid() && (r, b.View()) == DcRefineScan(al, old(b.View()), mcus)
  {
    hide Reader.Valid, DcRefineMcu, DcRefineScan;
    ghost var goal := DcRefineScan(al, b.View(), mcus);
    r := [];
    var u := 0;
    assert mcus[0..] == mcus && [] + goal.0 == goal.0;
    while u < |mcus| && !b.insufficient
      invariant 0 <= u <= |mcus| && b.Valid()
      invariant After(r, DcRefineScan(al, b.View(), mcus[u..])) == goal
    {
      RefineScanNext(al, b.View(), mcus[u..], r);
      assert mcus[u..][0] == mcus[u] && mcus[u..][1..] == mcus[u + 1..];
      var dcs := RefineUnit(b, al, mcus[u]);
      r := r + [dcs];
      u := u + 1;
    }
    RefineScanDone(al, b.View(), mcus[u..]);
    r := r + mcus[u..];
  }

  lemma RefineScanNext(al: nat, s: Stream, mcus: seq<seq<int>>, done: seq<seq<int>>)
    requires mcus != [] && !s.starved
    ensures var (dcs, s1) := DcRefineMcu(al, s, mcus[0]);
      After(done, DcRefineScan(al, s, mcus)) == After(done + [dcs], DcRefineScan(al, s1, mcus[1..]))
  {
    hide DcRefineMcu;
    var (dcs, s1) := DcRefineMcu(al, s, mcus[0]);
    var rest := DcRefineScan(al, s1, mcus[1..]).0;
    assert done + ([dcs] + rest) == done + [dcs] + rest;
  }

  lemma RefineScanDone(al: nat, s: Stream, mcus: seq<seq<int>>)
    requires mcus == [] || s.starved
    ensures DcRefineScan(al, s, mcus) == (mcus, s)
  {
  }

  // ---- all scans ----------------------------------------------------------------------------

  /** The segment of refinement `al`, ended by the marker `m`. */
  ghost predicate Refines(data: seq<Byte>, al: nat, mcus: seq<seq<int>>)
  {
    exists m: Byte, post: seq<Byte> :: m != 0 && m != 0xFF && data == Segment(DcRefineScanBits(al, mcus), m) + post
  }

  lemma RefinesBack(data: seq<Byte>, al: nat, mcus: seq<seq<int>>)
    requires Refines(data, al, mcus)
    ensures Stream(ToBits(Unstuffed(data, 0)), false)
      == Stream(DcRefineScanBits(al, mcus) + Filler(|DcRefineScanBits(al, mcus)|), false)
  {
    hide Segment, Filler, DcRefineScanBits, Unstuffed;
    var bits := DcRefineScanBits(al, mcus);
    var m: Byte, post: seq<Byte> :| m != 0 && m != 0xFF && data == Segment(bits, m) + post;
    assert [] + Segment(bits, m) + post == data;
    SegmentBack([], bits, m, post);
  }

  ghost predicate InRange(mcus: seq<seq<int>>)
  {
    forall m :: m in mcus ==> forall i :: 0 <= i < |m| ==> -0x8000 <= m[i] < 0x8000
  }

  /** A first scan at bit position `a` and `a` refinements, read from their segments, give
      every DC value back. */
  method DecodeDc(ts: seq<Table>, ghost codes: seq<Code>, a: nat, pattern: seq<nat>, first: seq<Byte>, datas: seq<seq<Byte>>, blank: seq<seq<int>>, ghost m: Byte, ghost post: seq<Byte>, ghost mcus: seq<seq<int>>)
    returns (r: seq<seq<int>>)
    requires Loaded(ts, codes) && Formed(codes) && Within(pattern, |codes|) && a <= 13 && InRange(mcus) && |blank| == |mcus|
    requires DcScanCodable(codes, a, pattern, mcus, seq(|codes|, _ => 0)) && m != 0 && m != 0xFF
    requires first == Segment(DcScanBits(codes, a, pattern, mcus, seq(|codes|, _ => 0)), m) + post
    requires |datas| == a && forall k :: 0 <= k < a ==> Refines(datas[k], a - 1 - k, mcus)
    ensures r == mcus
  {
    hide Segment, DcScanBits, DcScanCodable, DcScan, DcLevels, Filler, Unstuffed, Loaded, InRange, DcRefineScan, DcRefineScanBits, Refines;
    ghost var bits := DcScanBits(codes, a, pattern, mcus, seq(|codes|, _ => 0));
    assert [] + Segment(bits, m) + post == first;
    SegmentBack([], bits, m, post);
    DcScanBack(codes, a, pattern, mcus, seq(|codes|, _ => 0), blank, Filler(|bits|));
    var b := new Reader(first, 0);
    r := FirstScan(b, ts, codes, a, pattern, blank);
    var k := 0;
    while k < a
      invariant 0 <= k <= a && r == DcLevels(mcus, a - k)
    {
      var al := a - 1 - k;
      RefinesBack(datas[k], al, mcus);
      RangeKnown(mcus);
      DcRefineScanBack(al, mcus, Filler(|DcRefineScanBits(al, mcus)|));
      var c := new Reader(datas[k], 0);
      r := RefineScan(c, al, r);
      k := k + 1;
    }
    RangeKnown(mcus);
    DcRefinementsBack(0, mcus, []);
  }

  lemma RangeKnown(mcus: seq<seq<int>>)
    requires InRange(mcus)
    ensures forall m :: m in mcus ==> forall i :: 0 <= i < |m| ==> -0x8000 <= m[i] < 0x8000
  {
  }
}
