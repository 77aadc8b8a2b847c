/** The lane arithmetic on a word of eight bytes, first byte lowest: every operation is the one on its lanes.

    A lane is read by turning the word. An operation that commutes with the turn and is right in its first lane is right
    in every lane. */
module VerbumScrutor {
  import L = CellularumLanes

  const ONES: bv64 := 0x0101_0101_0101_0101
  const LOW7: bv64 := 0x7F7F_7F7F_7F7F_7F7F
  const HIGH: bv64 := 0x8080_8080_8080_8080

  /** A word turned down by one lane, the first lane coming in at the top. */
  function Turn(w: bv64): bv64 {
    (w >> 8) | (w << 56)
  }

  function Turned(w: bv64, i: nat): bv64 {
    if i == 0 then w else Turn(Turned(w, i - 1))
  }

  /** The first lane of a word, as a byte. */
  function Byte(w: bv64): bv8 {
    (w & 0xFF) as bv8
  }

  /** Whether the first lane of a word holds anything. */
  predicate FirstSet(m: bv64) {
    m & 0xFF != 0
  }

  /** The bytes of a word, first lane first, and the lanes a mask has set. */
  function BytesOf(w: bv64): L.Word {
    seq(8, i requires 0 <= i < 8 => Byte(Turned(w, i)))
  }

  function MaskOf(m: bv64): L.Mask {
    seq(8, i requires 0 <= i < 8 => FirstSet(Turned(m, i)))
  }

  // ---- the operations ---------------------------------------------------------------------------------------

  function HasZero(w: bv64): bv64 {
    !(((w & LOW7) + LOW7) | w) & HIGH
  }

  function Ge(w: bv64, b: bv64): bv64 {
    (w & HIGH) | (((w | HIGH) - ONES * b) & HIGH)
  }

  function Le(w: bv64, b: bv64): bv64 {
    !w & ((((ONES * b) | HIGH) - (w & !HIGH)) & HIGH)
  }

  /** The lanes that hold a letter. */
  function Alpha(w: bv64): bv64 {
    var lo := w | (ONES * 0x20);
    var inRange := lo & LOW7;
    Ge(inRange, 0x61) & Le(inRange, 0x7A) & !lo
  }

  function Xor(ci: bool, w: bv64, v: bv64): bv64 {
    if ci then Clears(Meets(w, v), CaseBits(Alpha(w))) else Meets(w, v)
  }

  function FoldLower(w: bv64): bv64 {
    Joins(w, CaseBits(Alpha(w)))
  }

  function AnyUpper(w: bv64): bv64 {
    HasZero((w & (ONES * 0x60)) ^ (ONES * 0x40))
  }

  /** The lanes that hold anything but zero. */
  function NotZero(w: bv64): bv64 {
    HIGH & !HasZero(w)
  }

  // ---- turning ----------------------------------------------------------------------------------------------

  lemma {:induction false} TurnHasZero(w: bv64)
    ensures HasZero(Turn(w)) == Turn(HasZero(w))
  {
  }

  lemma {:induction false} TurnAlpha(w: bv64)
    ensures Alpha(Turn(w)) == Turn(Alpha(w))
  {
  }

  /** The case bit of each lane a mask has set. */
  function CaseBits(a: bv64): bv64 {
    a >> 2
  }

  lemma {:induction false} TurnCaseBits(w: bv64)
    ensures CaseBits(Alpha(Turn(w))) == Turn(CaseBits(Alpha(w)))
  {
    hide Alpha;
    TurnAlpha(w);
    AlphaHigh(w);
    TurnShifts(Alpha(w));
  }

  lemma {:induction false} AlphaHigh(w: bv64)
    ensures Alpha(w) & !HIGH == 0
  {
  }

  lemma {:induction false} TurnShifts(a: bv64)
    requires a & !HIGH == 0
    ensures CaseBits(Turn(a)) == Turn(CaseBits(a))
  {
  }

  function Clears(d: bv64, c: bv64): bv64 {
    d & !c
  }

  function Meets(w: bv64, v: bv64): bv64 {
    w ^ v
  }

  function Joins(w: bv64, c: bv64): bv64 {
    w | c
  }

  lemma {:induction false} TurnClears(d: bv64, c: bv64)
    ensures Clears(Turn(d), Turn(c)) == Turn(Clears(d, c))
  {
  }

  lemma {:induction false} TurnMeets(w: bv64, v: bv64)
    ensures Meets(Turn(w), Turn(v)) == Turn(Meets(w, v))
  {
  }

  lemma {:induction false} TurnJoins(w: bv64, c: bv64)
    ensures Joins(Turn(w), Turn(c)) == Turn(Joins(w, c))
  {
  }

  lemma {:induction false} TurnXor(ci: bool, w: bv64, v: bv64)
    ensures Xor(ci, Turn(w), Turn(v)) == Turn(Xor(ci, w, v))
  {
    hide Alpha, Turn, CaseBits, Clears, Meets;
    TurnMeets(w, v);
    TurnCaseBits(w);
    TurnClears(Meets(w, v), CaseBits(Alpha(w)));
  }

  lemma {:induction false} TurnFold(w: bv64)
    ensures FoldLower(Turn(w)) == Turn(FoldLower(w))
  {
    hide Alpha, Turn, CaseBits, Joins;
    TurnCaseBits(w);
    TurnJoins(w, CaseBits(Alpha(w)));
  }

  lemma {:induction false} TurnUpper(w: bv64)
    ensures AnyUpper(Turn(w)) == Turn(AnyUpper(w))
  {
  }

  lemma {:induction false} FirstHasZero(w: bv64)
    ensures FirstSet(HasZero(w)) <==> w & 0xFF == 0
  {
  }

  lemma {:induction false} FirstCaseBit(w: bv64)
    ensures CaseBits(Alpha(w)) & 0xFF == if L.Letter(Byte(w)) then 0x20 else 0
  {
  }

  lemma {:induction false} FirstMeets(w: bv64, v: bv64)
    ensures FirstSet(Meets(w, v)) <==> Byte(w) ^ Byte(v) != 0
  {
  }

  lemma {:induction false} FirstClears(w: bv64, v: bv64, c: bv64)
    ensures c & 0xFF == 0x20 ==> (FirstSet(Clears(Meets(w, v), c)) <==> (Byte(w) ^ Byte(v)) & 0xDF != 0)
    ensures c & 0xFF == 0 ==> (FirstSet(Clears(Meets(w, v), c)) <==> Byte(w) ^ Byte(v) != 0)
  {
  }

  lemma {:induction false} FirstXor(ci: bool, w: bv64, v: bv64)
    ensures FirstSet(Xor(ci, w, v)) <==> L.Differs(ci, Byte(w), Byte(v))
  {
    hide Alpha, CaseBits, Clears, Meets, Byte, L.Letter, FirstSet;
    FirstCaseBit(w);
    FirstMeets(w, v);
    FirstClears(w, v, CaseBits(Alpha(w)));
  }

  lemma {:induction false} FirstFold(w: bv64)
    ensures Byte(FoldLower(w)) == L.Fold(Byte(w))
  {
  }

  lemma {:induction false} FirstUpper(w: bv64)
    ensures FirstSet(AnyUpper(w)) <==> Byte(w) & 0x60 == 0x40
  {
  }

  // ---- the lanes of a word ----------------------------------------------------------------------------------

  /** A word's i-th byte from the lowest. */
  function Lane(w: bv64, i: nat): bv64
    requires i < 8
  {
    match i
    case 0 => w & 0xFF
    case 1 => (w >> 8) & 0xFF
    case 2 => (w >> 16) & 0xFF
    case 3 => (w >> 24) & 0xFF
    case 4 => (w >> 32) & 0xFF
    case 5 => (w >> 40) & 0xFF
    case 6 => (w >> 48) & 0xFF
    case 7 => (w >> 56) & 0xFF
  }

  /** A word turned down by whole lanes. */
  function Over(w: bv64, i: nat): bv64
    requires i < 8
  {
    match i
    case 0 => w
    case 1 => (w >> 8) | (w << 56)
    case 2 => (w >> 16) | (w << 48)
    case 3 => (w >> 24) | (w << 40)
    case 4 => (w >> 32) | (w << 32)
    case 5 => (w >> 40) | (w << 24)
    case 6 => (w >> 48) | (w << 16)
    case 7 => (w >> 56) | (w << 8)
  }

  lemma {:induction false} Turns(w: bv64)
    ensures Turn(w) == (w >> 8) | (w << 56)
    ensures Turn((w >> 8) | (w << 56)) == (w >> 16) | (w << 48)
    ensures Turn((w >> 16) | (w << 48)) == (w >> 24) | (w << 40)
    ensures Turn((w >> 24) | (w << 40)) == (w >> 32) | (w << 32)
    ensures Turn((w >> 32) | (w << 32)) == (w >> 40) | (w << 24)
    ensures Turn((w >> 40) | (w << 24)) == (w >> 48) | (w << 16)
    ensures Turn((w >> 48) | (w << 16)) == (w >> 56) | (w << 8)
  {
  }

  lemma {:induction false} TurnsOver(w: bv64, i: nat)
    requires i < 7
    ensures Turn(Over(w, i)) == Over(w, i + 1)
  {
    hide Turn;
    Turns(w);
    match i {
      case 0 =>
      case 1 =>
      case 2 =>
      case 3 =>
      case 4 =>
      case 5 =>
      case 6 =>
    }
  }

  lemma {:induction false} TurnedOver(w: bv64, i: nat)
    requires i < 8
    ensures Turned(w, i) == Over(w, i)
  {
    hide Turn, Over;
    if i > 0 {
      TurnedOver(w, i - 1);
      TurnsOver(w, i - 1);
    } else {
      OverNone(w);
    }
  }

  lemma {:induction false} OverNone(w: bv64)
    ensures Over(w, 0) == w
  {
  }

  lemma {:induction false} LowOf(w: bv64)
    ensures w & 0xFF <= 0xFF
    ensures ((w >> 8) | (w << 56)) & 0xFF == (w >> 8) & 0xFF <= 0xFF
    ensures ((w >> 16) | (w << 48)) & 0xFF == (w >> 16) & 0xFF <= 0xFF
    ensures ((w >> 24) | (w << 40)) & 0xFF == (w >> 24) & 0xFF <= 0xFF
    ensures ((w >> 32) | (w << 32)) & 0xFF == (w >> 32) & 0xFF <= 0xFF
    ensures ((w >> 40) | (w << 24)) & 0xFF == (w >> 40) & 0xFF <= 0xFF
    ensures ((w >> 48) | (w << 16)) & 0xFF == (w >> 48) & 0xFF <= 0xFF
    ensures ((w >> 56) | (w << 8)) & 0xFF == (w >> 56) & 0xFF <= 0xFF
  {
  }

  lemma {:induction false} LowOver(w: bv64, i: nat)
    requires i < 8
    ensures Over(w, i) & 0xFF == Lane(w, i) <= 0xFF
  {
    LowOf(w);
    match i {
      case 0 =>
      case 1 =>
      case 2 =>
      case 3 =>
      case 4 =>
      case 5 =>
      case 6 =>
      case 7 =>
    }
  }

  /** A word's lanes are its eight bytes from the lowest up, and a mask's those of its bytes that hold anything. */
  lemma {:induction false} LanesAre(w: bv64, i: nat)
    requires i < 8
    ensures |BytesOf(w)| == |MaskOf(w)| == 8 && Lane(w, i) <= 0xFF
    ensures BytesOf(w)[i] == Lane(w, i) as bv8
    ensures MaskOf(w)[i] <==> Lane(w, i) != 0
  {
    hide Turned, Turn, Over, Lane;
    TurnedOver(w, i);
    LowOver(w, i);
  }

  // ---- lane by lane -----------------------------------------------------------------------------------------

  lemma {:induction false} TurnedHasZero(w: bv64, i: nat)
    ensures Turned(HasZero(w), i) == HasZero(Turned(w, i))
  {
    hide Turn, HasZero;
    if i > 0 {
      TurnedHasZero(w, i - 1);
      TurnHasZero(Turned(w, i - 1));
    }
  }

  lemma {:induction false} TurnedXor(ci: bool, w: bv64, v: bv64, i: nat)
    ensures Turned(Xor(ci, w, v), i) == Xor(ci, Turned(w, i), Turned(v, i))
  {
    hide Turn, Xor;
    if i > 0 {
      TurnedXor(ci, w, v, i - 1);
      TurnXor(ci, Turned(w, i - 1), Turned(v, i - 1));
    }
  }

  lemma {:induction false} TurnedFold(w: bv64, i: nat)
    ensures Turned(FoldLower(w), i) == FoldLower(Turned(w, i))
  {
    hide Turn, FoldLower;
    if i > 0 {
      TurnedFold(w, i - 1);
      TurnFold(Turned(w, i - 1));
    }
  }

  lemma {:induction false} TurnedUpper(w: bv64, i: nat)
    ensures Turned(AnyUpper(w), i) == AnyUpper(Turned(w, i))
  {
    hide Turn, AnyUpper;
    if i > 0 {
      TurnedUpper(w, i - 1);
      TurnUpper(Turned(w, i - 1));
    }
  }

  /** The zero test marks exactly the lanes that hold zero. */
  lemma {:induction false} HasZeroLanes(w: bv64)
    ensures MaskOf(HasZero(w)) == L.HasZero(BytesOf(w))
  {
    forall i | 0 <= i < 8 ensures MaskOf(HasZero(w))[i] == L.HasZero(BytesOf(w))[i] {
      hide Turned, HasZero, Byte;
      TurnedHasZero(w, i);
      FirstHasZero(Turned(w, i));
      ByteZero(Turned(w, i));
    }
  }

  lemma {:induction false} ByteZero(w: bv64)
    ensures Byte(w) == 0 <==> w & 0xFF == 0
  {
  }

  /** The lane difference is zero exactly in the lanes that agree, with case folded or not, and the zero test of it,
      complemented, marks exactly those that differ. */
  lemma {:induction false} XorLanes(ci: bool, w: bv64, v: bv64)
    ensures MaskOf(NotZero(Xor(ci, w, v))) == L.DiffLanes(ci, BytesOf(w), BytesOf(v))
  {
    forall i | 0 <= i < 8
      ensures MaskOf(NotZero(Xor(ci, w, v)))[i] == L.DiffLanes(ci, BytesOf(w), BytesOf(v))[i]
    {
      hide Turned, NotZero, Byte, Xor, L.Differs, FirstSet;
      XorLane(ci, w, v, i);
    }
  }

  lemma {:induction false} XorLane(ci: bool, w: bv64, v: bv64, i: nat)
    ensures FirstSet(Turned(NotZero(Xor(ci, w, v)), i)) <==> L.Differs(ci, Byte(Turned(w, i)), Byte(Turned(v, i)))
  {
    hide Turned, NotZero, Byte, Xor, L.Differs, FirstSet;
    TurnedXor(ci, w, v, i);
    TurnedNotZero(Xor(ci, w, v), i);
    FirstXor(ci, Turned(w, i), Turned(v, i));
    FirstNotZero(Xor(ci, Turned(w, i), Turned(v, i)));
  }

  lemma {:induction false} TurnNotZero(w: bv64)
    ensures NotZero(Turn(w)) == Turn(NotZero(w))
  {
  }

  lemma {:induction false} TurnedNotZero(w: bv64, i: nat)
    ensures Turned(NotZero(w), i) == NotZero(Turned(w, i))
  {
    hide Turn, NotZero;
    if i > 0 {
      TurnedNotZero(w, i - 1);
      TurnNotZero(Turned(w, i - 1));
    }
  }

  lemma {:induction false} FirstNotZero(w: bv64)
    ensures FirstSet(NotZero(w)) <==> FirstSet(w)
  {
  }

  /** Folding lowers the capitals and leaves every other lane. */
  lemma {:induction false} FoldLanes(w: bv64, i: nat)
    requires i < 8
    ensures BytesOf(FoldLower(w))[i] == L.Fold(BytesOf(w)[i])
  {
    hide Turned, FoldLower, Byte, L.Fold;
    TurnedFold(w, i);
    FirstFold(Turned(w, i));
  }

  /** The capital block is marked lane by lane. */
  lemma {:induction false} UpperLanes(w: bv64, i: nat)
    requires i < 8
    ensures MaskOf(AnyUpper(w))[i] <==> BytesOf(w)[i] & 0x60 == 0x40
  {
    hide Turned, AnyUpper, Byte;
    TurnedUpper(w, i);
    FirstUpper(Turned(w, i));
  }
}
