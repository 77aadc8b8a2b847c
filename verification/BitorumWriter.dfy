/** The bit writer: values appended bit by bit, whole bytes stored as they fill, and the bits short of a byte carried
    from one call to the next. */
module BitorumWriter {
  import opened WordArithmetic

  /** The number bytes spell, the first the lowest. */
  function Value(bytes: seq<int>): int {
    if bytes == [] then 0 else bytes[0] + 256 * Value(bytes[1..])
  }

  lemma {:induction false} ValueConcat(a: seq<int>, b: seq<int>)
    ensures Value(a + b) == Value(a) + Pow2(8 * |a|) * Value(b)
  {
    hide Pow2;
    if a == [] {
      assert a + b == b;
      Pow2Small();
    } else {
      assert (a + b)[1..] == a[1..] + b;
      ValueConcat(a[1..], b);
      Pow2Adds(8, 8 * |a[1..]|);
      Pow2Small();
      Triple(256, Pow2(8 * |a[1..]|), Value(b));
    }
  }

  lemma {:induction false} Triple(a: int, b: int, c: int)
    ensures a * (b * c) == (a * b) * c
  {
  }

  lemma {:induction false} ValueOne(byte: int)
    ensures Value([byte]) == byte
  {
  }

  /** Bits that do not meet are or-ed as they are added. */
  lemma {:induction false} OrAdds(residue: bv8, chunk: bv8, n: bv8)
    requires n < 8 && residue < (1 as bv8) << n
    ensures residue | (chunk << n) == residue + (chunk << n)
  {
  }

  /** The first byte of a put: the residue, and the value's low bits above it. The rest of the value is what is shifted
      past it. */
  function FirstByte(residue: nat, work: nat, n: nat): nat
    requires n < 8
  {
    residue + (work % 256 * Pow2(n)) % 256
  }

  lemma {:induction false} FirstByteCarries(residue: nat, work: nat, n: nat)
    requires n < 8 && residue < Pow2(n)
    ensures FirstByte(residue, work, n) + 256 * (work / Pow2(8 - n)) == residue + work * Pow2(n)
    ensures FirstByte(residue, work, n) < 256
  {
    hide Pow2;
    Pow2Adds(n, 8 - n);
    Pow2Small();
    var p, t := Pow2(n), Pow2(8 - n);
    var q, r := work / t, work % t;
    assert work == q * t + r;
    ByteShifted(work, q, r, p, t);
    assert r * p <= 256 - p by { Scaled(r, t - 1, p); Distribute(t, -1, p); }
  }

  lemma {:induction false} Scaled(a: nat, b: int, p: nat)
    requires a <= b
    ensures a * p <= b * p
  {
  }

  lemma {:induction false} ByteShifted(work: nat, q: nat, r: nat, p: nat, t: nat)
    requires work == q * t + r && r < t && p * t == 256
    ensures work * p == 256 * q + r * p
    ensures (work % 256 * p) % 256 == r * p
  {
    hide Pow2;
    var k, w := work / 256, work % 256;
    assert work == k * 256 + w;
    Distribute(q * t, r, p);
    Triple(q, t, p);
    Distribute(k * 256, w, p);
    Triple(k, 256, p);
    Triple(k, p, 256);
    assert w * p + (k * p) * 256 == 256 * q + r * p;
    assert r * p < 256 by { Scaled(r, t - 1, p); Distribute(t, -1, p); }
    ModIs(work * p, q, r * p, 256);
    ModAdds(w * p, k * p, 256);
  }

  /** A value shifted down by bits keeps under what its count leaves. */
  lemma {:induction false} ShiftKeepsUnder(work: nat, left: nat, n: nat)
    requires work < Pow2(left) && n <= left
    ensures work / Pow2(n) < Pow2(left - n)
  {
    Pow2Adds(left - n, n);
    var q, r := work / Pow2(n), work % Pow2(n);
    assert work == q * Pow2(n) + r;
    if q >= Pow2(left - n) {
      Distribute(q - Pow2(left - n), Pow2(left - n), Pow2(n));
      TimesNonNegative(q - Pow2(left - n), Pow2(n));
    }
  }

  /** Every byte fits its octet. */
  ghost predicate AreBytes(bytes: seq<int>) {
    forall b :: b in bytes ==> 0 <= b < 256
  }

  /** The bits a put takes of a value: all of them where it asks for as many as a value holds. */
  function Masked(val: nat, count: nat): nat {
    val % Pow2(count)
  }

  datatype Field = Field(val: nat, count: nat)

  /** Bits a sequence of puts appends. */
  function Bits(puts: seq<Field>): nat {
    if puts == [] then 0 else Bits(puts[..|puts| - 1]) + puts[|puts| - 1].count
  }

  /** The number a sequence of puts spells: each masked value above every bit before it. */
  function Spelled(puts: seq<Field>): nat {
    if puts == [] then 0
    else
      var front, last := puts[..|puts| - 1], puts[|puts| - 1];
      Spelled(front) + Masked(last.val, last.count) * Pow2(Bits(front))
  }

  lemma {:induction false} SpelledAppends(puts: seq<Field>, put: Field)
    ensures Bits(puts + [put]) == Bits(puts) + put.count
    ensures Spelled(puts + [put]) == Spelled(puts) + Masked(put.val, put.count) * Pow2(Bits(puts))
  {
    assert (puts + [put])[..|puts|] == puts;
  }

  class Bitor {
    const out: array<int>
    const cap: nat
    var bytesWritten: nat
    var residue: nat
    var bitCount: nat
    var overflow: bool
    /** Every field put, an align's zero bits among them. */
    ghost var puts: seq<Field>

    ghost predicate Valid()
      reads this, out
    {
      && cap <= out.Length && bytesWritten <= cap && bitCount < 8 && residue < Pow2(bitCount)
      && AreBytes(out[..bytesWritten])
      && (!overflow ==>
            && Bits(puts) == 8 * bytesWritten + bitCount
            && Spelled(puts) == Value(out[..bytesWritten]) + residue * Pow2(8 * bytesWritten))
    }

    constructor (out: array<int>, cap: nat)
      requires cap <= out.Length
      ensures this.out == out && this.cap == cap && Valid() && !overflow
      ensures bytesWritten == bitCount == 0 && puts == []
    {
      this.out, this.cap, bytesWritten, residue, bitCount, overflow := out, cap, 0, 0, 0, false;
      puts := [];
    }

    /** The whole bytes of a put stored: the first with the residue under it, the rest of the value alone. */
    method WholeStored(work: nat, count: nat, whole: nat) returns (rest: nat, left: nat)
      requires Valid() && whole >= 1 && whole <= cap - bytesWritten && work < Pow2(count)
      requires whole == (bitCount + count) / 8
      modifies out
      ensures left == bitCount + count - 8 * whole && left < 8 && rest < Pow2(left)
      ensures AreBytes(out[bytesWritten..bytesWritten + whole])
      ensures Value(out[bytesWritten..bytesWritten + whole]) + Pow2(8 * whole) * rest == residue + work * Pow2(bitCount)
      ensures forall j :: 0 <= j < out.Length && !(bytesWritten <= j < bytesWritten + whole) ==> out[j] == old(out[j])
    {
      hide Pow2, FirstByte, Value;
      ghost var sum := residue + work * Pow2(bitCount);
      FirstByteCarries(residue, work, bitCount);
      ShiftKeepsUnder(work, count, 8 - bitCount);
      out[bytesWritten] := FirstByte(residue, work, bitCount);
      rest, left := work / Pow2(8 - bitCount), count - (8 - bitCount);
      ValueOne(out[bytesWritten]);
      assert out[bytesWritten..bytesWritten + 1] == [out[bytesWritten]];
      Pow2Small();
      var index := 1;
      while index < whole
        invariant 1 <= index <= whole && left == bitCount + count - 8 * index && rest < Pow2(left)
        invariant AreBytes(out[bytesWritten..bytesWritten + index])
        invariant Value(out[bytesWritten..bytesWritten + index]) + Pow2(8 * index) * rest == sum
        invariant forall j :: 0 <= j < out.Length && !(bytesWritten <= j < bytesWritten + index) ==>
            out[j] == old(out[j])
      {
        ghost var stored := out[bytesWritten..bytesWritten + index];
        ShiftKeepsUnder(rest, left, 8);
        out[bytesWritten + index] := rest % 256;
        assert out[bytesWritten..bytesWritten + index + 1] == stored + [rest % 256];
        ByteMoved(stored, rest, index);
        rest, left := rest / 256, left - 8;
        index := index + 1;
      }
    }

    /** A put: whole bytes stored where they fit, the bits short of a byte kept, and the whole put refused for good
        where the bytes would pass the capacity. */
    method Put(val: nat, count: nat)
      requires Valid() && count <= 64
      modifies this, out
      ensures Valid()
      ensures old(overflow) ==> Unwritten(old(out[..]), old(bytesWritten), old(residue), old(bitCount)) && overflow
      ensures !old(overflow) && (old(bitCount) + count) / 8 > cap - old(bytesWritten) ==>
        overflow && Unwritten(old(out[..]), old(bytesWritten), 0, 0)
      ensures !old(overflow) && (old(bitCount) + count) / 8 <= cap - old(bytesWritten) ==>
        && !overflow
        && puts == old(puts) + [Field(val, count)]
        && forall j :: 0 <= j < out.Length && !(old(bytesWritten) <= j < bytesWritten) ==> out[j] == old(out[j])
    {
      hide Pow2, Value, Masked, Spelled, Bits;
      if overflow { return; }
      var whole := (bitCount + count) / 8;
      var work := Masked(val, count);
      MaskedUnder(val, count);
      if whole > cap - bytesWritten {
        overflow, bitCount, residue := true, 0, 0;
        Pow2Small();
        return;
      }
      PutFits(work, count, whole);
      SpelledAppends(puts, Field(val, count));
      puts := puts + [Field(val, count)];
    }

    /** A put whose whole bytes fit. */
    method PutFits(val: nat, count: nat, whole: nat)
      requires Valid() && !overflow && count <= 64 && val < Pow2(count)
      requires whole == (bitCount + count) / 8 && whole <= cap - bytesWritten
      modifies out, `bytesWritten, `residue, `bitCount
      ensures bytesWritten == old(bytesWritten) + whole && bitCount < 8 && residue < Pow2(bitCount)
      ensures 8 * bytesWritten + bitCount == Bits(puts) + count
      ensures AreBytes(out[..bytesWritten])
      ensures Value(out[..bytesWritten]) + residue * Pow2(8 * bytesWritten) == Spelled(puts) + val * Pow2(Bits(puts))
      ensures forall j :: 0 <= j < out.Length && !(old(bytesWritten) <= j < bytesWritten) ==> out[j] == old(out[j])
    {
      hide Pow2, Value, Spelled, Bits, Masked, FirstByte, AreBytes;
      ghost var before, kept, shift := out[..bytesWritten], residue, bitCount;
      var work, left := val, count;
      if whole != 0 {
        work, left := WholeStored(work, count, whole);
        residue, bitCount := 0, 0;
      }
      ghost var stored := out[bytesWritten..bytesWritten + whole];
      Pow2Small();
      RestKept(residue, work, left, bitCount);
      var tail := work % Pow2(left % 8);
      residue := residue + tail * Pow2(bitCount);
      bitCount := bitCount + left;
      NothingStored(stored);
      StreamAdds(before, stored, kept, val, shift, residue);
      bytesWritten := bytesWritten + whole;
      assert out[..bytesWritten] == before + stored;
      BytesConcat(before, stored);
    }

    /** The partial byte stored, zeros above its bits: the stream's number stands and its bits fill their last byte. */
    method Align()
      requires Valid()
      modifies this, out
      ensures Valid()
      ensures old(overflow || bitCount == 0) ==>
        overflow == old(overflow) && Unwritten(old(out[..]), old(bytesWritten), old(residue), old(bitCount))
      ensures old(!overflow && bitCount != 0 && bytesWritten >= cap) ==>
        overflow && Unwritten(old(out[..]), old(bytesWritten), old(residue), old(bitCount))
      ensures old(!overflow && bitCount != 0 && bytesWritten < cap) ==>
        && !overflow && bitCount == 0 && puts == old(puts) + [Field(0, 8 - old(bitCount))]
        && Spelled(puts) == Spelled(old(puts)) && Bits(puts) == 8 * bytesWritten
        && out[..] == old(out[..])[old(bytesWritten) := old(residue)]
    {
      hide Pow2, Value, Masked, Spelled, Bits;
      if overflow || bitCount == 0 { return; }
      if bytesWritten >= cap {
        overflow := true;
        return;
      }
      Pow2Grows(bitCount, 8);
      Pow2Small();
      ghost var before := out[..bytesWritten];
      ValueConcat(before, [residue]);
      ValueOne(residue);
      out[bytesWritten] := residue;
      bytesWritten := bytesWritten + 1;
      assert out[..bytesWritten] == before + [residue];
      SpelledAppends(puts, Field(0, 8 - bitCount));
      MaskedNone(8 - bitCount);
      puts := puts + [Field(0, 8 - bitCount)];
      residue, bitCount := 0, 0;
    }

    /** Where a bit put now stands: in its byte of the buffer, the lowest bit of the first byte first, or in the bits
        carried. Its value's own bit is there. */
    lemma {:induction false} BitStands(i: nat, j: nat)
      requires Valid() && !overflow && i < |puts| && j < puts[i].count
      ensures var at := Bits(puts[..i]) + j;
        && at < 8 * bytesWritten + bitCount
        && (at < 8 * bytesWritten ==> out[at / 8] >= 0 && out[at / 8] / Pow2(at % 8) % 2 == puts[i].val / Pow2(j) % 2)
        && (at >= 8 * bytesWritten ==> residue / Pow2(at - 8 * bytesWritten) % 2 == puts[i].val / Pow2(j) % 2)
    {
      hide Pow2, Spelled, Bits, Value;
      var at, bytes := Bits(puts[..i]) + j, out[..bytesWritten];
      BitsSplit(puts, i);
      BitsReadBack(puts, i, j);
      ValueNonNegative(bytes);
      if at < 8 * bytesWritten {
        ValueBit(bytes, residue, at / 8, at % 8);
      } else {
        ValueUnder(bytes);
        Pow2Adds(8 * bytesWritten, at - 8 * bytesWritten);
        Chopped(Spelled(puts), Pow2(8 * bytesWritten), Pow2(at - 8 * bytesWritten));
        ModIs(Spelled(puts), residue, Value(bytes), Pow2(8 * bytesWritten));
      }
    }

    /** Nothing of the buffer or the cursor changed. */
    ghost predicate Unwritten(bytes: seq<int>, written: nat, rest: nat, count: nat)
      reads this, out
    {
      out[..] == bytes && bytesWritten == written && residue == rest && bitCount == count
    }
  }

  lemma {:induction false} MaskedNone(count: nat)
    ensures Masked(0, count) == 0
  {
  }

  lemma {:induction false} MaskedUnder(val: nat, count: nat)
    ensures Masked(val, count) < Pow2(count)
  {
  }

  /** The bits short of a byte, laid above the residue. */
  lemma {:induction false} RestKept(residue: nat, work: nat, left: nat, shift: nat)
    requires residue < Pow2(shift) && work < Pow2(left) && shift + left < 8
    ensures left % 8 == left && work % Pow2(left % 8) == work
    ensures residue + work * Pow2(shift) < Pow2(shift + left)
    ensures Pow2(0) == 1
  {
    hide Pow2;
    Pow2Small();
    Below(work, Pow2(left));
    Pow2Adds(left, shift);
    Scaled(work, Pow2(left) - 1, Pow2(shift));
    Distribute(Pow2(left), -1, Pow2(shift));
  }

  lemma {:induction false} BytesConcat(a: seq<int>, b: seq<int>)
    requires AreBytes(a) && (b == [] || AreBytes(b))
    ensures AreBytes(a + b)
  {
  }

  lemma {:induction false} NothingStored(stored: seq<int>)
    ensures stored == [] ==> Value(stored) == 0 && Pow2(8 * |stored|) == 1
  {
  }

  /** What a put stores and keeps, told of the whole stream: the value stands above every bit before it. */
  lemma {:induction false} StreamAdds(before: seq<int>, stored: seq<int>, residue: nat, work: nat, shift: nat,
                                      kept: nat)
    requires Value(stored) + Pow2(8 * |stored|) * kept == residue + work * Pow2(shift)
    ensures Value(before + stored) + kept * Pow2(8 * |before + stored|)
         == Value(before) + residue * Pow2(8 * |before|) + work * Pow2(8 * |before| + shift)
  {
    hide Pow2, Value;
    var p := Pow2(8 * |before|);
    ValueConcat(before, stored);
    Pow2Adds(8 * |before|, 8 * |stored|);
    Pow2Adds(8 * |before|, shift);
    Triple(p, Pow2(8 * |stored|), kept);
    DistributeLeft(p, Value(stored), Pow2(8 * |stored|) * kept);
    DistributeLeft(p, residue, work * Pow2(shift));
    Triple(work, p, Pow2(shift));
    Triple(p, work, Pow2(shift));
  }

  /** One byte of a value stored above the bytes before it. */
  lemma {:induction false} ByteMoved(stored: seq<int>, rest: nat, index: nat)
    requires |stored| == index
    ensures Value(stored + [rest % 256]) + Pow2(8 * (index + 1)) * (rest / 256)
        == Value(stored) + Pow2(8 * index) * rest
  {
    hide Pow2, Value;
    ValueConcat(stored, [rest % 256]);
    ValueOne(rest % 256);
    Pow2Adds(8 * index, 8);
    Pow2Small();
    var p, q, r := Pow2(8 * index), rest / 256, rest % 256;
    assert rest == 256 * q + r;
    Triple(p, 256, q);
    DistributeLeft(p, 256 * q, r);
  }

  lemma {:induction false} DistributeLeft(a: int, b: int, c: int)
    ensures a * (b + c) == a * b + a * c
  {
  }

  // ---- every sequence of puts reads back --------------------------------------------------------------------

  lemma {:induction false} SpelledUnder(puts: seq<Field>)
    ensures Spelled(puts) < Pow2(Bits(puts))
  {
    hide Pow2;
    Pow2Small();
    if puts != [] {
      var front, last := puts[..|puts| - 1], puts[|puts| - 1];
      SpelledUnder(front);
      MaskedUnder(last.val, last.count);
      Pow2Adds(last.count, Bits(front));
      Scaled(Masked(last.val, last.count), Pow2(last.count) - 1, Pow2(Bits(front)));
      Distribute(Pow2(last.count), -1, Pow2(Bits(front)));
    }
  }

  /** Every field put reads back off the stream at its own bits, whatever was put behind it. */
  lemma {:induction false} ReadsBack(puts: seq<Field>, i: nat)
    requires i < |puts|
    ensures Spelled(puts) / Pow2(Bits(puts[..i])) % Pow2(puts[i].count) == puts[i].val % Pow2(puts[i].count)
    decreases |puts|
  {
    hide Pow2;
    var front, last := puts[..|puts| - 1], puts[|puts| - 1];
    var p := Pow2(Bits(puts[..i]));
    if i == |puts| - 1 {
      SpelledUnder(front);
      ModIs(Spelled(puts), Masked(last.val, last.count), Spelled(front), p);
      MaskedUnder(last.val, last.count);
      Below(Masked(last.val, last.count), Pow2(last.count));
    } else {
      ReadsBack(front, i);
      assert front[..i] == puts[..i];
      BitsSplit(front, i);
      var w, c := Masked(last.val, last.count), Pow2(puts[i].count);
      var above := Pow2(Bits(front) - Bits(puts[..i]) - puts[i].count);
      Pow2Adds(Bits(puts[..i]), Bits(front) - Bits(puts[..i]));
      Pow2Adds(Bits(front) - Bits(puts[..i]) - puts[i].count, puts[i].count);
      Carried(Spelled(front), w, p, above, c);
    }
  }

  lemma {:induction false} BitsSplit(puts: seq<Field>, i: nat)
    requires i < |puts|
    ensures Bits(puts) >= Bits(puts[..i]) + puts[i].count
    decreases |puts|
  {
    if i == |puts| - 1 {
    } else {
      BitsSplit(puts[..|puts| - 1], i);
      assert puts[..|puts| - 1][..i] == puts[..i];
    }
  }

  /** What stands a whole field above changes neither the field nor what is below it. */
  lemma {:induction false} Carried(x: nat, w: nat, p: nat, above: nat, c: nat)
    requires p >= 1 && c >= 1
    ensures (x + w * (p * (above * c))) / p % c == x / p % c
  {
    var q, r := x / p, x % p;
    var k := w * above;
    assert x == q * p + r;
    Triple(p, above, c);
    Triple(w, p * above, c);
    Triple(w, above, p);
    assert w * (p * (above * c)) == (k * c) * p by {
      assert w * (p * (above * c)) == (w * (p * above)) * c;
      assert w * (p * above) == k * p;
      Triple(k, p, c);
      Triple(k, c, p);
    }
    Distribute(q, k * c, p);
    ModIs(x + w * (p * (above * c)), q + k * c, r, p);
    ModAdds(q, k, c);
  }

  // ---- bit by bit -------------------------------------------------------------------------------------------

  /** Bits taken off the low end of a number, all at once or in two goes. */
  lemma {:induction false} Chopped(x: nat, a: nat, b: nat)
    requires a >= 1 && b >= 1
    ensures x / (a * b) == x / a / b
  {
    var q, r := x / a, x % a;
    var s, t := q / b, q % b;
    assert x == q * a + r && q == s * b + t;
    Distribute(s * b, t, a);
    Triple(s, b, a);
    Distribute(b, -1 - t, a);
    TimesNonNegative(b - 1 - t, a);
    Distribute(b - 1 - t, 1, a);
    Distribute(-1 - t, 1, a);
    ModIs(x, s, t * a + r, a * b);
  }

  /** A bit of a number is the same bit of its low bits. */
  lemma {:induction false} BitOfLow(x: nat, j: nat, count: nat)
    requires j < count
    ensures x / Pow2(j) % 2 == x % Pow2(count) / Pow2(j) % 2
  {
    hide Pow2;
    var q, r := x / Pow2(count), x % Pow2(count);
    assert x == q * Pow2(count) + r;
    Pow2Adds(j, count - j);
    Pow2Adds(count - j - 1, 1);
    Pow2Small();
    Carried(r, q, Pow2(j), Pow2(count - j - 1), 2);
  }

  /** Every bit of every field put stands in the stream at its own place: the field's lowest bit at the field's first,
      and whatever the value holds past its count nowhere. */
  lemma {:induction false} BitsReadBack(puts: seq<Field>, i: nat, j: nat)
    requires i < |puts| && j < puts[i].count
    ensures Spelled(puts) / Pow2(Bits(puts[..i]) + j) % 2 == puts[i].val / Pow2(j) % 2
  {
    hide Pow2, Spelled, Bits;
    var x := Spelled(puts) / Pow2(Bits(puts[..i]));
    ReadsBack(puts, i);
    BitOfLow(x, j, puts[i].count);
    BitOfLow(puts[i].val, j, puts[i].count);
    Pow2Adds(Bits(puts[..i]), j);
    Chopped(Spelled(puts), Pow2(Bits(puts[..i])), Pow2(j));
  }

  /** A bit of the number bytes spell is that bit of its byte, the lowest first, whatever stands above them. */
  lemma {:induction false} ValueBit(bytes: seq<int>, above: nat, k: nat, b: nat)
    requires AreBytes(bytes) && k < |bytes| && b < 8
    ensures bytes[k] in bytes && Value(bytes) + above * Pow2(8 * |bytes|) >= 0
    ensures (Value(bytes) + above * Pow2(8 * |bytes|)) / Pow2(8 * k + b) % 2 == bytes[k] / Pow2(b) % 2
    decreases |bytes|
  {
    hide Pow2;
    var rest := bytes[1..];
    assert AreBytes(rest) by { assert forall x :: x in rest ==> x in bytes; }
    ValueNonNegative(rest);
    Pow2Adds(8, 8 * |rest|);
    Pow2Small();
    Triple(above, 256, Pow2(8 * |rest|));
    Triple(256, above, Pow2(8 * |rest|));
    var tail := Value(rest) + above * Pow2(8 * |rest|);
    TimesNonNegative(above, Pow2(8 * |rest|));
    assert Value(bytes) + above * Pow2(8 * |bytes|) == bytes[0] + 256 * tail;
    assert bytes[0] in bytes;
    if k == 0 {
      BitOfLow(bytes[0] + 256 * tail, b, 8);
      ModIs(bytes[0] + 256 * tail, tail, bytes[0], 256);
    } else {
      ValueBit(rest, above, k - 1, b);
      Pow2Adds(8, 8 * (k - 1) + b);
      Chopped(bytes[0] + 256 * tail, 256, Pow2(8 * (k - 1) + b));
      ModIs(bytes[0] + 256 * tail, tail, bytes[0], 256);
    }
  }

  lemma {:induction false} ValueUnder(bytes: seq<int>)
    requires AreBytes(bytes)
    ensures Value(bytes) < Pow2(8 * |bytes|)
  {
    hide Pow2;
    Pow2Small();
    if bytes != [] {
      assert bytes[0] in bytes;
      assert AreBytes(bytes[1..]) by { assert forall x :: x in bytes[1..] ==> x in bytes; }
      ValueUnder(bytes[1..]);
      Pow2Adds(8, 8 * |bytes[1..]|);
    }
  }

  lemma {:induction false} ValueNonNegative(bytes: seq<int>)
    requires AreBytes(bytes)
    ensures Value(bytes) >= 0
  {
    if bytes != [] {
      assert bytes[0] in bytes;
      assert AreBytes(bytes[1..]) by { assert forall x :: x in bytes[1..] ==> x in bytes; }
      ValueNonNegative(bytes[1..]);
    }
  }
}
