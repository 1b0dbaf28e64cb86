/** Entropy-coded segments as bytes: the coder's bits are filled up with ones, packed,
    stuffed and ended by a marker; the reader takes them back. */
module Segments {
  import opened Grid
  import opened BitSeq
  import opened BitReader

  /** Eight bits to a byte, first bit highest. */
  function Pack(bits: seq<bool>): (bytes: seq<Byte>)
    requires |bits| % 8 == 0
    decreases |bits|
  {
    if bits == [] then []
    else
      ValBound(bits[..8]);
      Pow2Values();
      [Val(bits[..8])] + Pack(bits[8..])
  }

  lemma {:induction false} PackBits(bits: seq<bool>)
    requires |bits| % 8 == 0
    ensures ToBits(Pack(bits)) == bits
    decreases |bits|
  {
    if bits != [] {
      PackBits(bits[8..]);
      BinVal(bits[..8]);
      var bytes := Pack(bits);
      assert bytes[1..] == Pack(bits[8..]) && bytes[0] == Val(bits[..8]);
      assert bits == bits[..8] + bits[8..];
    }
  }

  /** One bits up to the next whole byte (section F.1.2.3 of ITU-T T.81). */
  function Filler(n: nat): (ones: seq<bool>)
    ensures (n + |ones|) % 8 == 0
  {
    seq((8 - n % 8) % 8, _ => true)
  }

  /** A coded segment and the marker after it. */
  function Segment(bits: seq<bool>, m: Byte): (bytes: seq<Byte>)
  {
    Stuff(Pack(bits + Filler(|bits|))) + [0xFF, m]
  }

  /** The reader delivers the coder's bits, then the filler. */
  lemma SegmentBack(pre: seq<Byte>, bits: seq<bool>, m: Byte, post: seq<Byte>)
    requires m != 0 && m != 0xFF
    ensures |pre| <= |pre + Segment(bits, m) + post|
    ensures ToBits(Unstuffed(pre + Segment(bits, m) + post, |pre|)) == bits + Filler(|bits|)
  {
    hide Filler;
    var bytes := Pack(bits + Filler(|bits|));
    UnstuffStuff(pre, bytes, m, post);
    assert pre + Segment(bits, m) + post == pre + Stuff(bytes) + [0xFF, m] + post;
    PackBits(bits + Filler(|bits|));
  }
}
