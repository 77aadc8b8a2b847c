/** Bit counts made without a branch on the value: the leading count by five halvings, the trailing count by isolating
    the lowest bit, the population fold, and the lowest bit's place by six masks. A word is 64 bits. */
module BitCounts {

  const TOP: bv64 := 0x8000_0000_0000_0000
  const ALL: bv64 := 0xFFFF_FFFF_FFFF_FFFF

  /** Zero bits above the highest bit set, counted one at a time; 64 for a word of none. */
  function Lead(v: bv64): nat
    decreases ALL - v
  {
    if v == 0 then 64 else if v & TOP != 0 then 0 else 1 + Lead(v << 1)
  }

  /** Zero bits below the lowest bit set, counted one at a time; 64 for a word of none. */
  function Trail(v: bv64): nat
    decreases v
  {
    if v == 0 then 64 else if v & 1 != 0 then 0 else 1 + Trail(v >> 1)
  }

  // ---- the leading count ------------------------------------------------------------------------------------

  lemma {:induction false} LeadBy2(v: bv64)
    requires v != 0 && v >> 62 == 0
    ensures v << 2 != 0 && Lead(v) == 2 + Lead(v << 2)
  {
    assert v & TOP == 0 && (v << 1) & TOP == 0 && v << 1 != 0;
    assert (v << 1) << 1 == v << 2;
  }

  lemma {:induction false} LeadBy4(v: bv64)
    requires v != 0 && v >> 60 == 0
    ensures v << 4 != 0 && Lead(v) == 4 + Lead(v << 4)
  {
    LeadBy2(v);
    LeadBy2(v << 2);
    assert (v << 2) << 2 == v << 4;
  }

  lemma {:induction false} LeadBy8(v: bv64)
    requires v != 0 && v >> 56 == 0
    ensures v << 8 != 0 && Lead(v) == 8 + Lead(v << 8)
  {
    LeadBy4(v);
    LeadBy4(v << 4);
    assert (v << 4) << 4 == v << 8;
  }

  lemma {:induction false} LeadBy16(v: bv64)
    requires v != 0 && v >> 48 == 0
    ensures v << 16 != 0 && Lead(v) == 16 + Lead(v << 16)
  {
    LeadBy8(v);
    LeadBy8(v << 8);
    assert (v << 8) << 8 == v << 16;
  }

  lemma {:induction false} LeadBy32(v: bv64)
    requires v != 0 && v >> 32 == 0
    ensures v << 32 != 0 && Lead(v) == 32 + Lead(v << 32)
  {
    LeadBy16(v);
    LeadBy16(v << 16);
    assert (v << 16) << 16 == v << 32;
  }

  lemma {:induction false} Halve32(v: bv64)
    requires v != 0
    ensures var n := if v >> 32 == 0 then v << 32 else v;
      n >> 32 != 0 && Lead(v) == (if v >> 32 == 0 then 32 else 0) + Lead(n)
  {
    hide Lead;
    if v >> 32 == 0 {
      assert v != 0 && (v << 32) >> 32 != 0;
      LeadBy32(v);
    }
  }

  lemma {:induction false} Halve16(v: bv64)
    requires v >> 32 != 0
    ensures var n := if v >> 48 == 0 then v << 16 else v;
      n >> 48 != 0 && Lead(v) == (if v >> 48 == 0 then 16 else 0) + Lead(n)
  {
    hide Lead;
    if v >> 48 == 0 {
      assert v != 0 && (v << 16) >> 48 != 0;
      LeadBy16(v);
    }
  }

  lemma {:induction false} Halve8(v: bv64)
    requires v >> 48 != 0
    ensures var n := if v >> 56 == 0 then v << 8 else v;
      n >> 56 != 0 && Lead(v) == (if v >> 56 == 0 then 8 else 0) + Lead(n)
  {
    hide Lead;
    if v >> 56 == 0 {
      assert v != 0 && (v << 8) >> 56 != 0;
      LeadBy8(v);
    }
  }

  lemma {:induction false} Halve4(v: bv64)
    requires v >> 56 != 0
    ensures var n := if v >> 60 == 0 then v << 4 else v;
      n >> 60 != 0 && Lead(v) == (if v >> 60 == 0 then 4 else 0) + Lead(n)
  {
    hide Lead;
    if v >> 60 == 0 {
      assert v != 0 && (v << 4) >> 60 != 0;
      LeadBy4(v);
    }
  }

  lemma {:induction false} Halve2(v: bv64)
    requires v >> 60 != 0
    ensures var n := if v >> 62 == 0 then v << 2 else v;
      n >> 62 != 0 && Lead(v) == (if v >> 62 == 0 then 2 else 0) + Lead(n)
  {
    hide Lead;
    if v >> 62 == 0 {
      assert v != 0 && (v << 2) >> 62 != 0;
      LeadBy2(v);
    }
  }

  /** The count of the arm without the builtin. */
  method ClzLead(val: bv64) returns (zeros: int)
    ensures zeros == if val == 0 then 63 else Lead(val)
  {
    hide Lead;
    var remaining := val;
    zeros := 0;
    if val != 0 { Halve32(remaining); }
    remaining, zeros := if remaining >> 32 == 0 then remaining << 32 else remaining,
                        zeros + if remaining >> 32 == 0 then 32 else 0;
    if val != 0 { Halve16(remaining); }
    remaining, zeros := if remaining >> 48 == 0 then remaining << 16 else remaining,
                        zeros + if remaining >> 48 == 0 then 16 else 0;
    if val != 0 { Halve8(remaining); }
    remaining, zeros := if remaining >> 56 == 0 then remaining << 8 else remaining,
                        zeros + if remaining >> 56 == 0 then 8 else 0;
    if val != 0 { Halve4(remaining); }
    remaining, zeros := if remaining >> 60 == 0 then remaining << 4 else remaining,
                        zeros + if remaining >> 60 == 0 then 4 else 0;
    if val != 0 { Halve2(remaining); }
    remaining, zeros := if remaining >> 62 == 0 then remaining << 2 else remaining,
                        zeros + if remaining >> 62 == 0 then 2 else 0;
    if val != 0 { LeadLast(remaining); }
    zeros := zeros + if remaining >> 63 == 0 then 1 else 0;
  }

  lemma {:induction false} LeadLast(v: bv64)
    requires v >> 62 != 0
    ensures Lead(v) == if v >> 63 == 0 then 1 else 0
  {
    assert v != 0 && (v & TOP == 0 <==> v >> 63 == 0);
    if v & TOP == 0 {
      assert v << 1 != 0 && (v << 1) & TOP != 0;
    }
  }

  // ---- the lowest bit ---------------------------------------------------------------------------------------

  /** The lowest bit set, alone. */
  function Low(v: bv64): bv64 {
    v & (0 - v)
  }

  predicate IsBit(v: bv64) {
    v != 0 && v & (v - 1) == 0
  }

  lemma {:induction false} LowOdd(v: bv64)
    requires v & 1 != 0
    ensures Low(v) == 1
  {
  }

  lemma {:induction false} LowHalves(v: bv64)
    requires v != 0 && v & 1 == 0
    ensures Low(v) >> 1 == Low(v >> 1) && Low(v) & 1 == 0 && Low(v) != 0 && v >> 1 != 0
  {
  }

  lemma {:induction false} LowIsBit(v: bv64)
    requires v != 0
    ensures IsBit(Low(v))
    decreases v
  {
    if v & 1 != 0 {
      LowOdd(v);
    } else {
      LowHalves(v);
      LowIsBit(v >> 1);
      BitDoubles(Low(v));
    }
  }

  lemma {:induction false} BitDoubles(w: bv64)
    requires w & 1 == 0 && w != 0
    ensures IsBit(w) <==> IsBit(w >> 1)
  {
  }

  lemma {:induction false} LowTrails(v: bv64)
    requires v != 0
    ensures Trail(Low(v)) == Trail(v)
    decreases v
  {
    hide Low;
    if v & 1 != 0 {
      LowOdd(v);
    } else {
      LowHalves(v);
      LowTrails(v >> 1);
    }
  }

  /** Of a single bit the two counts meet. */
  lemma {:induction false} BitCounted(w: bv64)
    requires IsBit(w)
    ensures Lead(w) + Trail(w) == 63
    decreases w
  {
    if w & 1 != 0 {
      assert w == 1;
      LeadOne();
    } else {
      assert IsBit(w >> 1) && (w >> 1) << 1 == w && (w >> 1) & TOP == 0;
      BitCounted(w >> 1);
    }
  }

  lemma {:induction false} LeadOne()
    ensures Lead(1) == 63
  {
    LeadBy32(1);
    LeadBy16(0x1_0000_0000);
    LeadBy8(0x1_0000_0000_0000);
    LeadBy4(0x100_0000_0000_0000);
    LeadBy2(0x1000_0000_0000_0000);
    assert Lead(0x8000_0000_0000_0000) == 0;
    assert Lead(0x4000_0000_0000_0000) == 1;
  }

  /** The count of the arm without the builtin: the lowest bit isolated and counted from above. */
  method ClzTrail(val: bv64) returns (zeros: int)
    ensures zeros == if val == 0 then 63 else Trail(val)
  {
    var withFloor := val | TOP;
    var lowest := Low(withFloor);
    LowIsBit(withFloor);
    BitCounted(lowest);
    LowTrails(withFloor);
    FloorTrails(val);
    var lead := ClzLead(lowest);
    zeros := 63 - lead;
  }

  /** Set besides, the top bit is the lowest of a word of no other and of no other word. */
  lemma {:induction false} FloorTrails(v: bv64)
    ensures Trail(v | TOP) == if v == 0 then 63 else Trail(v)
  {
    TopTrails();
    if v != 0 {
      LowTrails(v);
      LowTrails(v | TOP);
      assert Low(v | TOP) == Low(v);
    }
  }

  lemma {:induction false} TopTrails()
    ensures Trail(TOP) == 63
  {
    BitCounted(TOP);
  }

  // ---- the population fold ----------------------------------------------------------------------------------

  const PAIRS: bv64 := 0x5555_5555_5555_5555
  const QUADS: bv64 := 0x3333_3333_3333_3333
  const OCTETS: bv64 := 0x0F0F_0F0F_0F0F_0F0F
  const ONES: bv64 := 0x0101_0101_0101_0101

  function ByPairs(v: bv64): bv64 {
    v - ((v >> 1) & PAIRS)
  }

  function ByQuads(v: bv64): bv64 {
    (v & QUADS) + ((v >> 2) & QUADS)
  }

  function ByOctets(v: bv64): bv64 {
    (v + (v >> 4)) & OCTETS
  }

  /** Every octet summed into the top one, and the top one read out. */
  function Summed(v: bv64): bv64 {
    (v * ONES) >> 56
  }

  function Folded(v: bv64): bv64 {
    Summed(ByOctets(ByQuads(ByPairs(v))))
  }

  lemma {:induction false} FoldedBit(w: bv64)
    requires IsBit(w) && w != 1
    ensures Folded(w - 1) == Folded((w >> 1) - 1) + 1
  {
  }

  /** The fold of a single bit less one counts the zeros below the bit. */
  lemma {:induction false} FoldedTrails(w: bv64)
    requires IsBit(w)
    ensures Folded(w - 1) as int == Trail(w)
    decreases w
  {
    hide Folded, Trail;
    if w == 1 {
      FoldedOne();
    } else {
      FoldedBit(w);
      TrailHalves(w);
      BitOdd(w);
      BitDoubles(w);
      FoldedTrails(w >> 1);
      TrailSmall(w >> 1);
      NextOf(Folded((w >> 1) - 1));
    }
  }

  lemma {:induction false} FoldedOne()
    ensures Folded(1 - 1) as int == 0 == Trail(1)
  {
    assert Folded(0) == 0;
  }

  lemma {:induction false} TrailHalves(w: bv64)
    requires IsBit(w) && w != 1
    ensures Trail(w) == 1 + Trail(w >> 1)
  {
    hide IsBit;
    BitOdd(w);
  }

  lemma {:induction false} BitOdd(w: bv64)
    requires IsBit(w) && w != 1
    ensures w & 1 == 0 && w >> 1 != 0
  {
  }

  lemma {:induction false} TrailSmall(v: bv64)
    ensures Trail(v) <= 64
  {
    if v != 0 {
      LowIsBit(v);
      LowTrails(v);
      BitCounted(Low(v));
    }
  }

  lemma {:induction false} NextOf(x: bv64)
    requires x as int <= 64
    ensures (x + 1) as int == x as int + 1
  {
  }

  /** The trailing count by the population fold: every bit of a word for a mask of none. */
  method RingTrail(mask: bv64) returns (count: int)
    ensures count == Trail(mask)
  {
    hide Trail, Low, IsBit, ByPairs, ByQuads, ByOctets, Summed;
    var folded := Low(mask) - 1;
    folded := ByPairs(folded);
    folded := ByQuads(folded);
    folded := ByOctets(folded);
    count := Summed(folded) as int;
    if mask == 0 {
      FoldedAll();
    } else {
      LowIsBit(mask);
      LowTrails(mask);
      FoldedTrails(Low(mask));
    }
  }

  lemma {:induction false} FoldedAll()
    ensures Low(0) - 1 == ALL && Folded(ALL) as int == 64 == Trail(0)
  {
    assert Folded(ALL) == 64;
  }

  // ---- six masks --------------------------------------------------------------------------------------------

  /** The place of a single bit by six masked steps. */
  function Placed(low: bv64): nat {
    (if low & 0xFFFF_FFFF_0000_0000 != 0 then 32 else 0)
    + (if low & 0xFFFF_0000_FFFF_0000 != 0 then 16 else 0)
    + (if low & 0xFF00_FF00_FF00_FF00 != 0 then 8 else 0)
    + (if low & 0xF0F0_F0F0_F0F0_F0F0 != 0 then 4 else 0)
    + (if low & 0xCCCC_CCCC_CCCC_CCCC != 0 then 2 else 0)
    + (if low & 0xAAAA_AAAA_AAAA_AAAA != 0 then 1 else 0)
  }

  lemma {:induction false} PlacedShifts(w: bv64)
    requires IsBit(w) && w != 1
    ensures Placed(w) == Placed(w >> 1) + 1
  {
  }

  lemma {:induction false} PlacedTrails(w: bv64)
    requires IsBit(w)
    ensures Placed(w) == Trail(w)
    decreases w
  {
    hide Placed;
    if w == 1 {
      PlacedOne();
    } else {
      PlacedShifts(w);
      BitOdd(w);
      BitDoubles(w);
      PlacedTrails(w >> 1);
    }
  }

  lemma {:induction false} PlacedOne()
    ensures Placed(1) == 0
  {
  }

  /** A word, every bit of it set where it has none. */
  function Whole(bits: bv64): bv64 {
    bits | (0 - (if bits == 0 then 1 else 0))
  }

  lemma {:induction false} WholeReads(bits: bv64)
    ensures Whole(bits) == if bits == 0 then ALL else bits
  {
  }

  /** By the six masks, the trailing count of every word that has a bit. */
  method CarcerLowest(bits: bv64) returns (place: nat)
    ensures place == if bits == 0 then 0 else Trail(bits)
  {
    hide Trail, Low, IsBit, Whole;
    WholeReads(bits);
    var whole := Whole(bits);
    var low := Low(whole);
    LowIsBit(whole);
    LowTrails(whole);
    PlacedTrails(low);
    TrailAll();
    place := 0;
    place := place + if low & 0xFFFF_FFFF_0000_0000 != 0 then 32 else 0;
    place := place + if low & 0xFFFF_0000_FFFF_0000 != 0 then 16 else 0;
    place := place + if low & 0xFF00_FF00_FF00_FF00 != 0 then 8 else 0;
    place := place + if low & 0xF0F0_F0F0_F0F0_F0F0 != 0 then 4 else 0;
    place := place + if low & 0xCCCC_CCCC_CCCC_CCCC != 0 then 2 else 0;
    place := place + if low & 0xAAAA_AAAA_AAAA_AAAA != 0 then 1 else 0;
  }

  lemma {:induction false} TrailAll()
    ensures Trail(ALL) == 0
  {
  }

  // ---- bits by place ----------------------------------------------------------------------------------------

  /** The bit at a place. */
  function Bit(n: nat): bv64 {
    if n == 0 then 1 else Bit(n - 1) << 1
  }

  /** The shift that makes a bit at a place. */
  lemma {:induction false} ShiftIsBit(n: bv64)
    requires n < 64
    ensures (1 as bv64) << n == Bit(n as int)
    decreases n
  {
    if n > 0 {
      ShiftIsBit(n - 1);
      ShiftNext(n);
      ShiftPlace(n);
    }
  }

  lemma {:induction false} ShiftPlace(n: bv64)
    requires 0 < n < 64
    ensures (n - 1) as int == n as int - 1
  {
  }

  lemma {:induction false} ShiftNext(n: bv64)
    requires 0 < n < 64
    ensures (1 as bv64) << n == ((1 as bv64) << (n - 1)) << 1
  {
  }

  /** A bit's place is the count of zeros below it. */
  lemma {:induction false} BitPlace(n: nat)
    requires n < 64
    ensures IsBit(Bit(n)) && Trail(Bit(n)) == n
  {
    hide Trail;
    if n == 0 {
      TrailOne();
    } else {
      BitPlace(n - 1);
      BitCounted(Bit(n - 1));
      LeadPositive(Bit(n - 1));
      BitNext(Bit(n - 1));
      TrailHalves(Bit(n));
    }
  }

  lemma {:induction false} TrailOne()
    ensures Trail(1) == 0
  {
  }

  lemma {:induction false} LeadPositive(v: bv64)
    requires v != 0 && Lead(v) > 0
    ensures v & TOP == 0
  {
  }

  lemma {:induction false} BitNext(w: bv64)
    requires IsBit(w) && w & TOP == 0
    ensures IsBit(w << 1) && (w << 1) >> 1 == w && w << 1 != 1
  {
  }

  /** A single bit is the bit at its place. */
  lemma {:induction false} BitIs(w: bv64)
    requires IsBit(w)
    ensures Trail(w) < 64 && Bit(Trail(w)) == w
    decreases w
  {
    hide Trail;
    if w == 1 {
      TrailOne();
    } else {
      TrailHalves(w);
      BitOdd(w);
      BitDoubles(w);
      BitIs(w >> 1);
      BitCounted(w);
      assert (w >> 1) << 1 == w;
    }
  }

  lemma {:induction false} BitsMeet(v: bv64, w: bv64)
    requires IsBit(v) && IsBit(w)
    ensures v & w == if v == w then v else 0
  {
  }

  /** The trailing count names the lowest bit set. */
  lemma {:induction false} TrailNames(v: bv64)
    requires v != 0
    ensures Trail(v) < 64 && Low(v) == Bit(Trail(v))
  {
    hide Trail, Bit, Low, IsBit;
    LowIsBit(v);
    LowTrails(v);
    BitIs(Low(v));
  }

  predicate Meets(v: bv64, w: bv64) {
    v & w != 0
  }

  predicate Under(v: bv64, w: bv64) {
    v < w
  }

  lemma {:induction false} TrailLeast(v: bv64, j: nat)
    requires v != 0 && j < Trail(v) < 64
    ensures !Meets(v, Bit(j))
  {
    hide Trail, Bit, Low, IsBit, Meets, Under;
    TrailNames(v);
    BitPlace(j);
    BitsOrder(j, Trail(v));
    BelowLow(v, Bit(j));
  }

  lemma {:induction false} TrailMeets(v: bv64)
    requires v != 0
    ensures Trail(v) < 64 && Meets(v, Bit(Trail(v)))
  {
    hide Trail, Bit, Low, IsBit, Meets;
    TrailNames(v);
    LowIn(v);
  }

  lemma {:induction false} BelowLow(v: bv64, w: bv64)
    requires IsBit(w) && Under(w, Low(v))
    ensures !Meets(v, w)
  {
  }

  lemma {:induction false} LowIn(v: bv64)
    requires v != 0
    ensures Meets(v, Low(v))
  {
  }

  lemma {:induction false} BitsOrder(j: nat, k: nat)
    requires j < k < 64
    ensures Under(Bit(j), Bit(k))
  {
    BitPlace(k - 1);
    BitCounted(Bit(k - 1));
    LeadPositive(Bit(k - 1)) by {
      BitPlace(k - 1);
    }
    BitGrows(Bit(k - 1));
    if j < k - 1 {
      BitsOrder(j, k - 1);
    }
  }

  lemma {:induction false} BitGrows(w: bv64)
    requires w != 0 && w & TOP == 0
    ensures w < w << 1
  {
  }
}
