/** The entropy-coded segment reader of the JPEG decoder: a 64-bit window over
    byte-stuffed data that feeds zero bits once the data runs out. */
module BitReader {
  import opened Grid
  import opened BitSeq

  const EOI := 0xD9

  /** What a reader can still deliver: the real bits, and whether a bit beyond
      them has been handed out already. */
  datatype Stream = Stream(bits: seq<bool>, starved: bool)

  function GetBits(s: Stream, n: nat): (r: (nat, Stream))
  {
    (Val(Take(s.bits, n)), Advance(s, n))
  }

  function Advance(s: Stream, n: nat): (r: Stream)
  {
    Stream(Drop(s.bits, n), s.starved || n > |s.bits|)
  }

  /** EXTEND of section F.2.2.1 of T.81. */
  function Extend(v: nat, s: nat): (r: int)
    requires s > 0
  {
    if v < Pow2(s - 1) then v - Pow2(s) + 1 else v
  }

  function RecvExt(s: Stream, n: nat): (r: (int, Stream))
    requires n > 0
  {
    var (v, s') := GetBits(s, n);
    (Extend(v, n), s')
  }

  /** The bits a list of reads hands out, in order. */
  function Reads(s: Stream, ns: seq<nat>): (r: (seq<bool>, Stream))
    decreases |ns|
  {
    if ns == [] then ([], s) else
      var (v, s') := GetBits(s, ns[0]);
      var (more, end) := Reads(s', ns[1..]);
      (Bin(v, ns[0]) + more, end)
  }

  function Sum(ns: seq<nat>): (n: nat)
  {
    if ns == [] then 0 else ns[0] + Sum(ns[1..])
  }

  /** However the reads are cut, together they hand out the stream's bits
      followed by zeros, and the stream starves exactly when they ask for more
      bits than it holds. */
  lemma {:induction false} ReadsTakePrefix(s: Stream, ns: seq<nat>)
    ensures Reads(s, ns).0 == Take(s.bits, Sum(ns))
    ensures Reads(s, ns).1 == Advance(s, Sum(ns))
    decreases |ns|
  {
    if ns != [] {
      var n, m := ns[0], Sum(ns[1..]);
      ReadsTakePrefix(Advance(s, n), ns[1..]);
      BinVal(Take(s.bits, n));
      TakeTwice(s.bits, n, m);
    }
  }

  lemma TakeTwice(b: seq<bool>, n: nat, m: nat)
    ensures Take(b, n) + Take(Drop(b, n), m) == Take(b, n + m)
    ensures Drop(Drop(b, n), m) == Drop(b, n + m)
  {
  }

  // ---- byte stuffing ------------------------------------------------------

  /** A run of fill bytes ends at the first byte that is not 0xFF. */
  function SkipFill(d: seq<Byte>, p: nat): (q: nat)
    requires p <= |d|
    ensures p <= q <= |d|
    ensures forall i :: p <= i < q ==> d[i] == 0xFF
    ensures q < |d| ==> d[q] != 0xFF
    decreases |d| - p
  {
    if p < |d| && d[p] == 0xFF then SkipFill(d, p + 1) else p
  }

  /** The data bytes from `p` up to the first marker, or up to the end. */
  function Unstuffed(d: seq<Byte>, p: nat): (r: seq<Byte>)
    requires p <= |d|
    decreases |d| - p
  {
    if p == |d| then []
    else if d[p] != 0xFF then [d[p]] + Unstuffed(d, p + 1)
    else
      var q := SkipFill(d, p + 1);
      if q == |d| || d[q] != 0 then [] else [0xFF] + Unstuffed(d, q + 1)
  }

  /** The marker that ends the segment starting at `p`. */
  function Terminator(d: seq<Byte>, p: nat): (m: Byte)
    requires p <= |d|
    decreases |d| - p
  {
    if p == |d| then EOI
    else if d[p] != 0xFF then Terminator(d, p + 1)
    else
      var q := SkipFill(d, p + 1);
      if q == |d| then EOI else if d[q] != 0 then d[q] else Terminator(d, q + 1)
  }

  /** What a coder writes for data bytes: each 0xFF is followed by a zero byte
      (section F.1.2.3 of T.81). */
  function Stuff(bytes: seq<Byte>): (r: seq<Byte>)
  {
    if bytes == [] then [] else
      (if bytes[0] == 0xFF then [0xFF, 0] else [bytes[0]]) + Stuff(bytes[1..])
  }

  /** Stuffed data followed by a marker comes back as the data and the marker. */
  lemma {:induction false} UnstuffStuff(pre: seq<Byte>, bytes: seq<Byte>, m: Byte, post: seq<Byte>)
    requires m != 0 && m != 0xFF
    ensures Unstuffed(pre + Stuff(bytes) + [0xFF, m] + post, |pre|) == bytes
    ensures Terminator(pre + Stuff(bytes) + [0xFF, m] + post, |pre|) == m
    decreases |bytes|
  {
    var d := pre + Stuff(bytes) + [0xFF, m] + post;
    if bytes == [] {
      assert d[|pre|] == 0xFF && d[|pre| + 1] == m;
      assert SkipFill(d, |pre| + 1) == |pre| + 1;
    } else {
      var head := if bytes[0] == 0xFF then [0xFF, 0] else [bytes[0]];
      assert d == (pre + head) + Stuff(bytes[1..]) + [0xFF, m] + post;
      UnstuffStuff(pre + head, bytes[1..], m, post);
      assert d[|pre|] == bytes[0];
      if bytes[0] == 0xFF {
        assert d[|pre| + 1] == 0;
        assert SkipFill(d, |pre| + 1) == |pre| + 1;
      }
    }
  }

  function ToBits(bytes: seq<Byte>): (s: seq<bool>)
    ensures |s| == 8 * |bytes|
  {
    if bytes == [] then [] else Bin(bytes[0], 8) + ToBits(bytes[1..])
  }

  // ---- the 64-bit window --------------------------------------------------

  /** Shifting `add` into a 64-bit register drops as many bits at the top. */
  lemma ShiftIn(win: seq<bool>, add: seq<bool>)
    requires |win| == 64 && |add| <= 64
    ensures Val(win[|add|..] + add) == Low(Shl(Val(win), |add|) + Val(add), 64)
  {
    hide *;
    var hi, lo := win[..|add|], win[|add|..] + add;
    assert win + add == hi + lo;
    ValConcat(win, add);
    ValCut(hi, lo);
  }

  lemma PadWindow(win: seq<bool>, cnt: nat, padded: nat, k: nat)
    requires |win| == 64 && padded <= cnt && cnt + k <= 64 && win[64 - padded..] == Zeros(padded)
    ensures var w := win[k..] + Zeros(k);
      && w[64 - padded - k..] == Zeros(padded + k)
      && w[64 - cnt - k..64 - padded - k] == win[64 - cnt..64 - padded]
  {
    forall i | 64 - padded <= i < 64 ensures !win[i] {
      assert win[i] == win[64 - padded..][i - (64 - padded)];
    }
  }

  class Reader {
    const data: seq<Byte>
    var p: nat
    var buf: nat
    var cnt: nat
    var padded: nat
    var marker: nat
    var insufficient: bool
    ghost var win: seq<bool>      // all 64 bits of `buf`

    ghost predicate Valid()
      reads this
    {
      && p <= |data|
      && padded <= cnt <= 64
      && |win| == 64 && buf == Val(win)
      && win[64 - padded..] == Zeros(padded)
      && (padded > 0 ==> marker != 0)
    }

    /** The bits not yet handed out: those in the window, then the unread data. */
    ghost function Rest(): (s: seq<bool>)
      requires Valid()
      reads this
    {
      win[64 - cnt..64 - padded] + (if marker == 0 then ToBits(Unstuffed(data, p)) else [])
    }

    ghost function View(): (s: Stream)
      requires Valid()
      reads this
    {
      Stream(Rest(), insufficient)
    }

    constructor (d: seq<Byte>, start: nat)
      requires start <= |d|
      ensures Valid() && data == d
      ensures View() == Stream(ToBits(Unstuffed(d, start)), false)
    {
      ValZeros(64);
      data, p, buf, cnt, padded, marker, insufficient, win := d, start, 0, 0, 0, 0, false, Zeros(64);
    }

    /** Shifts one data byte into the window. */
    method PushByte(c: Byte)
      requires Valid() && cnt <= 56 && padded == 0
      modifies `buf, `cnt, `win
      ensures Valid() && cnt == old(cnt) + 8
      ensures win == old(win)[8..] + Bin(c, 8)
    {
      hide Low;
      ValBin(c, 8);
      Pow2Values();
      ShiftIn(win, Bin(c, 8));
      buf := Low(Shl(buf, 8) + c, 64);
      cnt := cnt + 8;
      win := win[8..] + Bin(c, 8);
    }

    /** Feeds zero bits until `need` bits are in the window. */
    method Pad(need: nat)
      requires Valid() && cnt < need <= 16 && marker != 0
      modifies `buf, `cnt, `padded, `win
      ensures Valid() && cnt == need
      ensures View() == old(View())
    {
      hide Low, Shl, Val, Unstuffed, ToBits;
      var k := need - cnt;
      PadWindow(win, cnt, padded, k);
      ValZeros(k);
      ShiftIn(win, Zeros(k));
      buf := Low(Shl(buf, k), 64);
      padded := padded + k;
      cnt := need;
      win := win[k..] + Zeros(k);
    }

    method SkipFillBytes()
      requires p <= |data|
      modifies `p
      ensures p == SkipFill(data, old(p))
    {
      while p < |data| && data[p] == 0xFF
        invariant p <= |data| && SkipFill(data, p) == SkipFill(data, old(p))
      {
        p := p + 1;
      }
    }

    /** The next data byte, or -1 with `marker` set at the end of the segment. */
    method NextByte() returns (c: int)
      requires p <= |data| && marker == 0
      modifies `p, `marker
      ensures old(p) <= p <= |data| && -1 <= c < 256
      ensures c >= 0 ==> marker == 0 && p > old(p)
                         && Unstuffed(data, old(p)) == [c] + Unstuffed(data, p)
                         && Terminator(data, old(p)) == Terminator(data, p)
      ensures c < 0 ==> Unstuffed(data, old(p)) == [] && marker == Terminator(data, old(p)) != 0
    {
      if p >= |data| {
        marker := EOI;
        return -1;
      }
      c := data[p];
      p := p + 1;
      if c == 0xFF {
        SkipFillBytes();
        if p >= |data| {
          marker := EOI;
          return -1;
        }
        var c2 := data[p];
        p := p + 1;
        if c2 != 0 {
          marker := c2;
          return -1;
        }
      }
    }

    /** Takes the next data byte into the window, or meets the terminator. */
    method Fetch()
      requires Valid() && cnt <= 56 && marker == 0
      modifies `p, `buf, `cnt, `marker, `win
      ensures Valid() && padded == 0
      ensures View() == old(View())
      ensures marker != 0 || p > old(p)
    {
      hide Val, Bin, Unstuffed, Terminator;
      var c := NextByte();
      if c >= 0 {
        PushByte(c);
        Append(old(win), cnt - 8, Bin(c, 8), ToBits(Unstuffed(data, p)));
      }
    }

    method Fill(need: nat)
      requires Valid() && need <= 16
      modifies `p, `buf, `cnt, `padded, `marker, `win
      ensures Valid() && need <= cnt
      ensures View() == old(View())
    {
      hide Unstuffed, ToBits, Terminator;
      while cnt <= 56 && marker == 0
        invariant Valid()
        invariant View() == old(View())
        decreases if marker == 0 then 1 else 0, |data| - p
      {
        Fetch();
      }
      if cnt < need {
        Pad(need);
      }
    }

    /** The next `n` bits without taking them. */
    method Peek(n: nat) returns (v: nat)
      requires Valid() && n <= 16
      modifies `p, `buf, `cnt, `padded, `marker, `win
      ensures Valid() && n <= cnt
      ensures View() == old(View()) && v == Val(Take(View().bits, n))
    {
      hide Val, Shr, Low, Unstuffed, ToBits;
      if cnt < n {
        Fill(n);
      }
      v := Low(Shr(buf, cnt - n), n);
      WindowBits(win, cnt, n);
      WindowHead(win, cnt, padded, n, if marker == 0 then ToBits(Unstuffed(data, p)) else []);
    }

    method Consume(n: nat)
      requires Valid() && n <= cnt
      modifies `cnt, `padded, `insufficient
      ensures Valid()
      ensures View() == Advance(old(View()), n)
    {
      hide Val, Unstuffed, ToBits;
      WindowTail(win, cnt, padded, n, if marker == 0 then ToBits(Unstuffed(data, p)) else []);
      cnt := cnt - n;
      if padded > 0 && cnt < padded {
        insufficient := true;
        padded := cnt;
      }
    }

    method Get(n: nat) returns (v: nat)
      requires Valid() && 1 <= n <= 16
      modifies this
      ensures Valid()
      ensures (v, View()) == GetBits(old(View()), n)
    {
      v := Peek(n);
      Consume(n);
    }

    method ReceiveExtend(n: nat) returns (v: int)
      requires Valid() && 1 <= n <= 16
      modifies this
      ensures Valid()
      ensures (v, View()) == RecvExt(old(View()), n)
    {
      v := Get(n);
      if v < Pow2(n - 1) {
        v := v - Pow2(n) + 1;
      }
    }
  }

  lemma WindowBits(win: seq<bool>, cnt: nat, n: nat)
    requires |win| == 64 && n <= cnt <= 64
    ensures Low(Shr(Val(win), cnt - n), n) == Val(win[64 - cnt..64 - cnt + n])
  {
    hide *;
    var a, b, c := win[..64 - cnt], win[64 - cnt..64 - cnt + n], win[64 - cnt + n..];
    assert win == (a + b) + c;
    ValCut(a + b, c);
    ValCut(a, b);
  }

  lemma WindowHead(win: seq<bool>, cnt: nat, padded: nat, n: nat, more: seq<bool>)
    requires |win| == 64 && padded <= cnt <= 64 && n <= cnt && win[64 - padded..] == Zeros(padded)
    requires padded > 0 ==> more == []
    ensures win[64 - cnt..64 - cnt + n] == Take(win[64 - cnt..64 - padded] + more, n)
  {
    forall i | 64 - padded <= i < 64 ensures !win[i] {
      assert win[i] == win[64 - padded..][i - (64 - padded)];
    }
  }

  lemma WindowTail(win: seq<bool>, cnt: nat, padded: nat, n: nat, more: seq<bool>)
    requires |win| == 64 && padded <= cnt <= 64 && n <= cnt && win[64 - padded..] == Zeros(padded)
    requires padded > 0 ==> more == []
    ensures cnt - n < padded ==>
      Drop(win[64 - cnt..64 - padded] + more, n) == [] && win[64 - (cnt - n)..] == Zeros(cnt - n)
    ensures cnt - n >= padded ==>
      Drop(win[64 - cnt..64 - padded] + more, n) == win[64 - (cnt - n)..64 - padded] + more
  {
    if cnt - n < padded {
      assert win[64 - (cnt - n)..] == win[64 - padded..][padded - (cnt - n)..];
    }
  }

  lemma Append(win: seq<bool>, cnt: nat, add: seq<bool>, more: seq<bool>)
    requires |win| == 64 && |add| == 8 && cnt <= 56
    ensures (win[8..] + add)[56 - cnt..64] + more == win[64 - cnt..64] + (add + more)
  {
  }
}
