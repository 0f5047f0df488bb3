/** Bytes, little-endian fields and telemetry packets, shared by every component. */
module Telemetry {

  type Byte = bv8

  const MAX_TELEMETRY_PAYLOAD_SIZE := 4000

  /** A telemetry packet. The header's length field is the length of the payload. */
  datatype Packet = Packet(id: nat, timestamp: nat, payload: seq<Byte>) {
    /** The header's fields fit their C types: two 16-bit integers and a 32-bit one. */
    predicate Valid() {
      id < 0x1_0000 && |payload| < 0x1_0000 && timestamp < 0x1_0000_0000
    }
  }

  datatype Option<+T> = None | Some(value: T)

  // Proofs get to see bytes as numbers only through `IntOf`: the conversion `as int` is dear to reason about.

  function Count(b: Byte): nat
    decreases b
  {
    if b == 0 then 0 else 1 + Count(b - 1)
  }

  lemma {:induction false} CountIsInt(b: Byte)
    ensures Count(b) == b as int < 256
    decreases b
  {
    if b != 0 {
      CountIsInt(b - 1);
      BareSuccessor(b - 1);
    }
  }

  /** The value of a byte, between 0 and 255. */
  function IntOf(b: Byte): (n: nat)
    ensures n < 256
  {
    CountIsInt(b);
    Count(b)
  }

  lemma ByteSuccessor(b: Byte)
    requires b < 255
    ensures IntOf(b + 1) == IntOf(b) + 1
  {
    assert (b + 1) - 1 == b;
  }

  lemma BareSuccessor(b: Byte)
    requires b < 255
    ensures (b + 1) as int == b as int + 1
  {}

  lemma {:induction false} EveryValueIsAByte(n: nat) returns (b: Byte)
    requires n < 256
    ensures IntOf(b) == n
  {
    if n == 0 {
      b := 0;
    } else {
      b := EveryValueIsAByte(n - 1);
      CountIsInt(b);
      ByteSuccessor(b);
      b := b + 1;
    }
  }

  lemma IntOfIsInjective(a: Byte, b: Byte)
    requires IntOf(a) == IntOf(b)
    ensures a == b
  {
    CountIsInt(a);
    CountIsInt(b);
    assert (a as int) as bv8 == a && (b as int) as bv8 == b;
  }

  /** The byte whose value is `n`. */
  function ToByte(n: nat): (b: Byte)
    requires n < 256
    ensures IntOf(b) == n
  {
    assert exists b: Byte :: IntOf(b) == n by { var b := EveryValueIsAByte(n); }
    assert forall a: Byte, b: Byte :: IntOf(a) == IntOf(b) ==> a == b by {
      forall a: Byte, b: Byte | IntOf(a) == IntOf(b) ensures a == b { IntOfIsInjective(a, b); }
    }
    var b: Byte :| IntOf(b) == n;
    b
  }

  lemma ToByteOfByte(b: Byte)
    ensures ToByte(IntOf(b)) == b
  {
    IntOfIsInjective(b, ToByte(IntOf(b)));
  }

  function Low(n: nat): Byte { ToByte(n % 0x100) }

  function High(n: nat): Byte
    requires n < 0x1_0000
  {
    ToByte(n / 0x100)
  }

  /** A 16-bit field as it lies in memory, low byte first. */
  function Le16(n: nat): (bs: seq<Byte>)
    requires n < 0x1_0000
    ensures |bs| == 2
  {
    [Low(n), High(n)]
  }

  function Le32(n: nat): (bs: seq<Byte>)
    requires n < 0x1_0000_0000
    ensures |bs| == 4
  {
    Le16(n % 0x1_0000) + Le16(n / 0x1_0000)
  }

  function FromLe16(lo: Byte, hi: Byte): (n: nat)
    ensures n < 0x1_0000
  {
    IntOf(lo) + 0x100 * IntOf(hi)
  }

  function FromLe32(lo: nat, hi: nat): (n: nat)
    requires lo < 0x1_0000 && hi < 0x1_0000
    ensures n < 0x1_0000_0000
  {
    lo + 0x1_0000 * hi
  }

  /** Reading a little-endian field undoes writing it, and writing it undoes reading it. */
  lemma Le16RoundTrip(n: nat)
    requires n < 0x1_0000
    ensures FromLe16(Low(n), High(n)) == n
  {}

  lemma TwoDigits(lo: nat, hi: nat)
    requires lo < 0x100 && hi < 0x100
    ensures lo + 0x100 * hi < 0x1_0000
    ensures (lo + 0x100 * hi) % 0x100 == lo && (lo + 0x100 * hi) / 0x100 == hi
  {}

  lemma LowAndHigh(lo: nat, hi: nat)
    requires lo < 0x100 && hi < 0x100
    ensures lo + 0x100 * hi < 0x1_0000
    ensures Low(lo + 0x100 * hi) == ToByte(lo) && High(lo + 0x100 * hi) == ToByte(hi)
  {
    hide ToByte;
    TwoDigits(lo, hi);
  }

  lemma Le16Canonical(a: Byte, b: Byte)
    ensures Le16(FromLe16(a, b)) == [a, b]
  {
    hide ToByte, IntOf, Low, High;
    ToByteOfByte(a);
    ToByteOfByte(b);
    LowAndHigh(IntOf(a), IntOf(b));
  }

  lemma TwoHalves(lo: nat, hi: nat)
    requires lo < 0x1_0000 && hi < 0x1_0000
    ensures FromLe32(lo, hi) % 0x1_0000 == lo && FromLe32(lo, hi) / 0x1_0000 == hi
  {}

  lemma Le32OfHalves(lo: nat, hi: nat)
    requires lo < 0x1_0000 && hi < 0x1_0000
    ensures Le32(FromLe32(lo, hi)) == Le16(lo) + Le16(hi)
  {
    TwoHalves(lo, hi);
  }

  /** The eight bytes of a packet's header as they lie in memory: id, length, timestamp. */
  function HeaderBytes(p: Packet): (bs: seq<Byte>)
    requires p.Valid()
    ensures |bs| == 8
  {
    Le16(p.id) + Le16(|p.payload|) + Le32(p.timestamp)
  }

  /** Where the fields lie: each at its offset in the packed struct, low byte first. */
  lemma HeaderLayout(p: Packet)
    requires p.Valid()
    ensures
      var bs := HeaderBytes(p);
      && p.id == IntOf(bs[0]) + 0x100 * IntOf(bs[1])
      && |p.payload| == IntOf(bs[2]) + 0x100 * IntOf(bs[3])
      && p.timestamp == IntOf(bs[4]) + 0x100 * IntOf(bs[5]) + 0x1_0000 * (IntOf(bs[6]) + 0x100 * IntOf(bs[7]))
  {
    hide IntOf, ToByte;
    Le16RoundTrip(p.id);
    Le16RoundTrip(|p.payload|);
    Le16RoundTrip(p.timestamp % 0x1_0000);
    Le16RoundTrip(p.timestamp / 0x1_0000);
  }

  datatype Header = Header(id: nat, length: nat, timestamp: nat)

  function HeaderOf(bs: seq<Byte>): (h: Header)
    requires |bs| == 8
    ensures h.id < 0x1_0000 && h.length < 0x1_0000 && h.timestamp < 0x1_0000_0000
  {
    Header(FromLe16(bs[0], bs[1]), FromLe16(bs[2], bs[3]), FromLe32(FromLe16(bs[4], bs[5]), FromLe16(bs[6], bs[7])))
  }

  lemma HeaderRoundTrip(p: Packet)
    requires p.Valid()
    ensures HeaderOf(HeaderBytes(p)) == Header(p.id, |p.payload|, p.timestamp)
  {
    Le16RoundTrip(p.id);
    Le16RoundTrip(|p.payload|);
    Le16RoundTrip(p.timestamp % 0x1_0000);
    Le16RoundTrip(p.timestamp / 0x1_0000);
  }

  lemma Le32Canonical(a: Byte, b: Byte, c: Byte, d: Byte)
    ensures Le32(FromLe32(FromLe16(a, b), FromLe16(c, d))) == [a, b] + [c, d]
  {
    Le32OfHalves(FromLe16(a, b), FromLe16(c, d));
    Le16Canonical(a, b);
    Le16Canonical(c, d);
  }

  lemma EightBytes(bs: seq<Byte>)
    requires |bs| == 8
    ensures bs == [bs[0], bs[1]] + [bs[2], bs[3]] + ([bs[4], bs[5]] + [bs[6], bs[7]])
  {}

  lemma HeaderCanonical(bs: seq<Byte>, p: Packet)
    requires |bs| == 8
    requires HeaderOf(bs) == Header(p.id, |p.payload|, p.timestamp)
    ensures p.Valid() && HeaderBytes(p) == bs
  {
    Le16Canonical(bs[0], bs[1]);
    Le16Canonical(bs[2], bs[3]);
    Le32Canonical(bs[4], bs[5], bs[6], bs[7]);
    EightBytes(bs);
  }
}
