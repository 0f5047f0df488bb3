/** What a consumer's filter selects, bit by bit, and what the filters in use select. */
module BusFilters {
  import opened Bus

  /** The bits of a 16-bit field, lowest first. */
  const BITS: seq<bv16> :=
    [0x1, 0x2, 0x4, 0x8, 0x10, 0x20, 0x40, 0x80, 0x100, 0x200, 0x400, 0x800, 0x1000, 0x2000, 0x4000, 0x8000]

  predicate HasBit(x: bv16, bit: bv16) { x & bit != 0 }

  predicate IsSet(x: bv16, k: nat)
    requires k < 16
  {
    HasBit(x, BITS[k])
  }

  /** Under the mask `x` has the bits of `value`, and `value` has no others. */
  ghost predicate HasBits(value: bv16, mask: bv16, x: bv16) {
    forall k :: 0 <= k < 16 ==> IsSet(value, k) == (IsSet(mask, k) && IsSet(x, k))
  }

  /** The packet's id and flags have the bits the filter asks for. */
  ghost predicate Selects(f: Filter, m: Message) {
    HasBits(f.source, f.sourceMask, m.id) && HasBits(f.metadata, f.metadataMask, m.flags)
  }

  lemma BareMasked(mask: bv16, x: bv16, bit: bv16)
    requires bit & (bit - 1) == 0
    ensures ((mask & x) & bit != 0) == (mask & bit != 0 && x & bit != 0)
  {}

  lemma MaskedBit(mask: bv16, x: bv16, bit: bv16)
    requires bit & (bit - 1) == 0
    ensures HasBit(Under(mask, x), bit) == (HasBit(mask, bit) && HasBit(x, bit))
  {
    BareMasked(mask, x, bit);
  }

  lemma BareOneBit(k: nat)
    requires k < 16
    ensures BITS[k] & (BITS[k] - 1) == 0
  {}

  /** No difference in one bit. */
  predicate Agree(x: bv16, y: bv16, bit: bv16) { (x ^ y) & bit == 0 }

  lemma BareAgree(x: bv16, y: bv16)
    requires Agree(x, y, 0x1) && Agree(x, y, 0x2) && Agree(x, y, 0x4) && Agree(x, y, 0x8)
    requires Agree(x, y, 0x10) && Agree(x, y, 0x20) && Agree(x, y, 0x40) && Agree(x, y, 0x80)
    requires Agree(x, y, 0x100) && Agree(x, y, 0x200) && Agree(x, y, 0x400) && Agree(x, y, 0x800)
    requires Agree(x, y, 0x1000) && Agree(x, y, 0x2000) && Agree(x, y, 0x4000) && Agree(x, y, 0x8000)
    ensures x == y
  {}

  lemma BareDifference(x: bv16, y: bv16, bit: bv16)
    requires bit & (bit - 1) == 0 && HasBit(x, bit) == HasBit(y, bit)
    ensures Agree(x, y, bit)
  {}

  lemma SameBit(x: bv16, y: bv16, k: nat)
    requires k < 16 && IsSet(x, k) == IsSet(y, k)
    ensures Agree(x, y, BITS[k])
  {
    hide HasBit, Agree;
    BareOneBit(k);
    BareDifference(x, y, BITS[k]);
  }

  lemma SameBits(x: bv16, y: bv16)
    requires forall k :: 0 <= k < 16 ==> IsSet(x, k) == IsSet(y, k)
    ensures x == y
  {
    hide IsSet, Agree;
    forall k | 0 <= k < 16 ensures Agree(x, y, BITS[k]) {
      SameBit(x, y, k);
    }
    assert Agree(x, y, BITS[0]) && Agree(x, y, BITS[1]) && Agree(x, y, BITS[2]) && Agree(x, y, BITS[3]);
    assert Agree(x, y, BITS[4]) && Agree(x, y, BITS[5]) && Agree(x, y, BITS[6]) && Agree(x, y, BITS[7]);
    assert Agree(x, y, BITS[8]) && Agree(x, y, BITS[9]) && Agree(x, y, BITS[10]) && Agree(x, y, BITS[11]);
    assert Agree(x, y, BITS[12]) && Agree(x, y, BITS[13]) && Agree(x, y, BITS[14]) && Agree(x, y, BITS[15]);
    BareAgree(x, y);
  }

  lemma MaskedBits(mask: bv16, x: bv16, k: nat)
    requires k < 16
    ensures IsSet(Under(mask, x), k) == (IsSet(mask, k) && IsSet(x, k))
  {
    hide Under, HasBit;
    BareOneBit(k);
    MaskedBit(mask, x, BITS[k]);
  }

  lemma MaskedIffBits(value: bv16, mask: bv16, x: bv16)
    ensures Under(mask, x) == value <==> HasBits(value, mask, x)
  {
    hide IsSet, Under;
    forall k | 0 <= k < 16 ensures IsSet(Under(mask, x), k) == (IsSet(mask, k) && IsSet(x, k)) {
      MaskedBits(mask, x, k);
    }
    if HasBits(value, mask, x) { SameBits(Under(mask, x), value); }
  }

  /**
   A packet is wanted if and only if every bit of its id under the source mask is that bit of the source, the source has no bit
   outside its mask, and the same holds for its flags and the metadata.
   */
  lemma WantsIffBits(f: Filter, m: Message)
    ensures Wants(f, m) <==> Selects(f, m)
  {
    hide HasBits, Under;
    MaskedIffBits(f.source, f.sourceMask, m.id);
    MaskedIffBits(f.metadata, f.metadataMask, m.flags);
  }

  // ----- the filters of the consumers -----

  const SEND_OVER_CAN: bv16 := 1
  const DONT_SEND_OVER_USB: bv16 := 2

  lemma BareFilters(x: bv16)
    ensures 0 & x == 0
    ensures (1 & x == 1) == (x & 1 != 0)
    ensures (2 & x == 0) == !(x & 2 != 0)
  {}

  lemma Masks(x: bv16)
    ensures Under(0, x) == 0
    ensures (Under(SEND_OVER_CAN, x) == SEND_OVER_CAN) == HasBit(x, SEND_OVER_CAN)
    ensures (Under(DONT_SEND_OVER_USB, x) == 0) == !HasBit(x, DONT_SEND_OVER_USB)
  {
    BareFilters(x);
  }

  /** The file drivers take everything, the CAN consumers what is flagged for CAN, and USB and serial what is not flagged against USB. */
  lemma FiltersInUse(m: Message)
    ensures Wants(Filter(0, 0, 0, 0), m)
    ensures Wants(Filter(0, 0, SEND_OVER_CAN, SEND_OVER_CAN), m) <==> IsSet(m.flags, 0)
    ensures Wants(Filter(0, 0, 0, DONT_SEND_OVER_USB), m) <==> !IsSet(m.flags, 1)
  {
    hide Under, HasBit;
    Masks(m.id);
    Masks(m.flags);
  }

  /** A filter that asks for a bit outside its mask takes nothing, whatever is sent: so does that of the on-board m3tel output. */
  lemma BitOutsideTheMask(f: Filter, k: nat, m: Message)
    requires k < 16
    requires (IsSet(f.source, k) && !IsSet(f.sourceMask, k)) || (IsSet(f.metadata, k) && !IsSet(f.metadataMask, k))
    ensures !Wants(f, m)
  {
    hide IsSet, Wants;
    WantsIffBits(f, m);
  }

  lemma M3OutputTakesNothing(m: Message)
    ensures !Wants(Filter(0, 0, SEND_OVER_CAN, 0), m)
  {
    BareOutside();
    BitOutsideTheMask(Filter(0, 0, SEND_OVER_CAN, 0), 0, m);
  }

  lemma BareOutside()
    ensures IsSet(SEND_OVER_CAN, 0) && !IsSet(0, 0)
  {}
}
