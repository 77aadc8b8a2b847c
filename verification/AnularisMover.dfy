/** The ring's mover: a run of bytes carried in whole words, eight, four, two and one at a time, and a narrowing tail;
    and a move across the buffer's end made of two such runs. */
module AnularisMover {
  import opened WordArithmetic
  import opened MemoriaOperor

  // ---- one run ----------------------------------------------------------------------------------------------

  /** Bytes stored one run behind another are one run. */
  lemma {:induction false} PutJoins(d: seq<int>, at: nat, s: seq<int>, from: nat, a: nat, b: nat)
    requires at + a + b <= |d| && from + a + b <= |s|
    ensures |Put(d, at, s[from..from + a])| == |d|
    ensures Put(Put(d, at, s[from..from + a]), at + a, s[from + a..from + a + b]) == Put(d, at, s[from..from + a + b])
  {
  }

  lemma {:induction false} PutNone(d: seq<int>, at: nat)
    requires at <= |d|
    ensures Put(d, at, []) == d
  {
  }

  /** What the mover has carried: the bytes before `done`, and nothing else changed. */
  ghost predicate Carried(d: seq<int>, d': seq<int>, at: nat, s: seq<int>, from: nat, done: nat) {
    at + done <= |d| && from + done <= |s| && d' == Put(d, at, s[from..from + done])
  }

  lemma {:induction false} CarriedFits(d: seq<int>, d': seq<int>, at: nat, s: seq<int>, from: nat, done: nat)
    requires Carried(d, d', at, s, from, done)
    ensures |d'| == |d|
  {
  }

  /** One access of `n` bytes: the source read, the destination written. */
  method Access(dst: array<int>, at: nat, src: array<int>, from: nat, done: nat, n: nat, ghost d: seq<int>)
    requires dst != src && at + done + n <= dst.Length && from + done + n <= src.Length
    requires Carried(d, dst[..], at, src[..], from, done)
    modifies dst
    ensures Carried(d, dst[..], at, src[..], from, done + n)
  {
    hide Put;
    CarriedFits(d, dst[..], at, src[..], from, done);
    PutJoins(d, at, src[..], from, done, n);
    assert src[from + done..from + done + n] == src[..][from + done..from + done + n];
    Stored(dst, at + done, src[from + done..from + done + n]);
  }

  method Copy2(dst: array<int>, at: nat, src: array<int>, from: nat, done: nat, step: nat, ghost d: seq<int>)
    requires dst != src && at + done + 2 * step <= dst.Length && from + done + 2 * step <= src.Length
    requires Carried(d, dst[..], at, src[..], from, done)
    modifies dst
    ensures Carried(d, dst[..], at, src[..], from, done + 2 * step)
  {
    hide Carried;
    Access(dst, at, src, from, done, step, d);
    Access(dst, at, src, from, done + step, step, d);
  }

  method Copy4(dst: array<int>, at: nat, src: array<int>, from: nat, done: nat, step: nat, ghost d: seq<int>)
    requires dst != src && at + done + 4 * step <= dst.Length && from + done + 4 * step <= src.Length
    requires Carried(d, dst[..], at, src[..], from, done)
    modifies dst
    ensures Carried(d, dst[..], at, src[..], from, done + 4 * step)
  {
    hide Carried;
    Copy2(dst, at, src, from, done, step, d);
    Copy2(dst, at, src, from, done + 2 * step, step, d);
  }

  method Copy8(dst: array<int>, at: nat, src: array<int>, from: nat, done: nat, step: nat, ghost d: seq<int>)
    requires dst != src && at + done + 8 * step <= dst.Length && from + done + 8 * step <= src.Length
    requires Carried(d, dst[..], at, src[..], from, done)
    modifies dst
    ensures Carried(d, dst[..], at, src[..], from, done + 8 * step)
  {
    hide Carried;
    Copy4(dst, at, src, from, done, step, d);
    Copy4(dst, at, src, from, done + 4 * step, step, d);
  }

  /** Bytes still to carry, as whole words and a remainder. */
  ghost predicate Left(left: int, words: nat, step: nat, remainder: nat) {
    IsWidth(step) && remainder < step && left == words * step + remainder
  }

  /** The whole words of a count. */
  function Words(bytes: nat, step: nat): nat
    requires step >= 1
  {
    bytes / step
  }

  /** Bytes the whole words of a count leave over. */
  function Remainder(bytes: nat, step: nat): int
    requires step >= 1
  {
    bytes - Words(bytes, step) * step
  }

  lemma {:induction false} LeftStarts(bytes: nat, step: nat)
    requires IsWidth(step)
    ensures Remainder(bytes, step) >= 0 && Left(bytes, Words(bytes, step), step, Remainder(bytes, step))
  {
  }

  lemma {:induction false} LeftLess(left: int, words: nat, step: nat, remainder: nat, n: nat)
    requires Left(left, words, step, remainder) && n <= words
    ensures Left(left - n * step, words - n, step, remainder) && n * step <= left
  {
    assert (words - n) * step == words * step - n * step;
    assert (words - n) * step >= 0;
  }

  lemma {:induction false} LeftEnds(left: int, step: nat, remainder: nat)
    requires Left(left, 0, step, remainder)
    ensures left == remainder < step && IsWidth(step)
  {
  }

  /** The tail, one access for each bit of the bytes a step leaves over. */
  method Tail(dst: array<int>, at: nat, src: array<int>, from: nat, done: nat, remainder: nat, step: nat,
              ghost d: seq<int>)
    requires IsWidth(step) && remainder < step
    requires dst != src && at + done + remainder <= dst.Length && from + done + remainder <= src.Length
    requires Carried(d, dst[..], at, src[..], from, done)
    modifies dst
    ensures Carried(d, dst[..], at, src[..], from, done + remainder)
  {
    hide Carried;
    var walked := done;
    if step >= 8 && remainder / 4 % 2 == 1 {
      Access(dst, at, src, from, walked, 4, d);
      walked := walked + 4;
    }
    if step >= 4 && remainder / 2 % 2 == 1 {
      Access(dst, at, src, from, walked, 2, d);
      walked := walked + 2;
    }
    if remainder % 2 == 1 {
      Access(dst, at, src, from, walked, 1, d);
      walked := walked + 1;
    }
  }

  /** The whole words under eight, one rung for each bit of their count. */
  method Rungs(dst: array<int>, at: nat, src: array<int>, from: nat, done: nat, words: nat, step: nat, remainder: nat,
               bytes: nat, ghost d: seq<int>)
    requires words < 8 && done <= bytes && Left(bytes - done, words, step, remainder)
    requires dst != src && at + bytes <= dst.Length && from + bytes <= src.Length
    requires Carried(d, dst[..], at, src[..], from, done)
    modifies dst
    ensures Carried(d, dst[..], at, src[..], from, bytes)
  {
    hide Left, Carried;
    var walked, rest := done, words;
    if words / 4 % 2 == 1 {
      LeftLess(bytes - walked, rest, step, remainder, 4);
      Copy4(dst, at, src, from, walked, step, d);
      walked, rest := walked + 4 * step, rest - 4;
    }
    if words / 2 % 2 == 1 {
      LeftLess(bytes - walked, rest, step, remainder, 2);
      Copy2(dst, at, src, from, walked, step, d);
      walked, rest := walked + 2 * step, rest - 2;
    }
    if words % 2 == 1 {
      LeftLess(bytes - walked, rest, step, remainder, 1);
      Access(dst, at, src, from, walked, step, d);
      walked, rest := walked + step, rest - 1;
    }
    LeftEnds(bytes - walked, step, remainder);
    Tail(dst, at, src, from, walked, remainder, step, d);
  }

  /** Bytes moved between two regions that do not overlap, at any alignment. */
  method RingMove(dst: array<int>, at: nat, src: array<int>, from: nat, bytes: nat, step: nat)
    requires IsWidth(step) && dst != src && at + bytes <= dst.Length && from + bytes <= src.Length
    modifies dst
    ensures dst[..] == Put(old(dst[..]), at, src[from..from + bytes])
  {
    hide Left, Carried, Put, Remainder, Words;
    ghost var d := dst[..];
    LeftStarts(bytes, step);
    var words := Words(bytes, step);
    var remainder: nat := Remainder(bytes, step);
    CarriedNone(d, at, src[..], from);
    var done: nat := 0;
    while words >= 8
      invariant done <= bytes && Left(bytes - done, words, step, remainder)
      invariant Carried(d, dst[..], at, src[..], from, done)
      decreases words
    {
      LeftLess(bytes - done, words, step, remainder, 8);
      Copy8(dst, at, src, from, done, step, d);
      done := done + 8 * step;
      words := words - 8;
    }
    Rungs(dst, at, src, from, done, words, step, remainder, bytes, d);
    CarriedAll(d, dst[..], at, src[..], from, bytes);
    assert src[..][from..from + bytes] == src[from..from + bytes];
  }

  lemma {:induction false} CarriedNone(d: seq<int>, at: nat, s: seq<int>, from: nat)
    requires at <= |d| && from <= |s|
    ensures Carried(d, d, at, s, from, 0)
  {
    PutNone(d, at);
  }

  lemma {:induction false} CarriedAll(d: seq<int>, d': seq<int>, at: nat, s: seq<int>, from: nat, bytes: nat)
    requires Carried(d, d', at, s, from, bytes)
    ensures at + bytes <= |d| && from + bytes <= |s| && d' == Put(d, at, s[from..from + bytes])
  {
  }

  // ---- a move across the buffer's end -----------------------------------------------------------------------

  /** An offset wrapped into the ring. */
  function Wrap(x: int, capacity: nat): nat
    requires capacity >= 1
  {
    x % capacity
  }

  /** The index a byte stands at, so far past an offset, around the ring. */
  function RingAt(offset: nat, i: nat, capacity: nat): nat
    requires capacity >= 1
  {
    Wrap(offset + i, capacity)
  }

  function Min(a: nat, b: nat): nat {
    if a < b then a else b
  }

  /** How far past an offset a ring index lies. */
  function Past(j: nat, offset: nat, capacity: nat): int {
    if j >= offset then j - offset else j - offset + capacity
  }

  /** A buffer with bytes written from an offset on, around the ring's end. */
  function WrapPut(b: seq<int>, capacity: nat, offset: nat, bytes: seq<int>): seq<int>
    requires offset < capacity <= |b| && |bytes| <= capacity
  {
    seq(|b|, j requires 0 <= j < |b| =>
      if j < capacity && Past(j, offset, capacity) < |bytes| then bytes[Past(j, offset, capacity)] else b[j])
  }

  /** Bytes read from an offset on, around the ring's end. */
  function WrapGet(b: seq<int>, capacity: nat, offset: nat, n: nat): seq<int>
    requires offset < capacity <= |b| && n <= capacity
  {
    seq(n, i requires 0 <= i < n => b[if offset + i < capacity then offset + i else offset + i - capacity])
  }

  lemma {:induction false} WrapOnce(x: nat, capacity: nat)
    requires capacity >= 1 && x < 2 * capacity
    ensures Wrap(x, capacity) == if x < capacity then x else x - capacity
  {
  }

  /** The bytes written stand at their offsets around the ring, and every other byte of the buffer stands. */
  lemma {:induction false} WrapPutAt(b: seq<int>, capacity: nat, offset: nat, bytes: seq<int>, i: nat, j: nat)
    requires offset < capacity <= |b| && |bytes| <= capacity && i < |bytes| && j < |b|
    ensures |WrapPut(b, capacity, offset, bytes)| == |b| && RingAt(offset, i, capacity) < |b|
    ensures WrapPut(b, capacity, offset, bytes)[RingAt(offset, i, capacity)] == bytes[i]
    ensures (forall n: nat :: n < |bytes| ==> RingAt(offset, n, capacity) != j) ==>
      WrapPut(b, capacity, offset, bytes)[j] == b[j]
  {
    hide Wrap;
    WrapOnce(offset + i, capacity);
    if j < capacity && Past(j, offset, capacity) < |bytes| {
      WrapOnce(offset + Past(j, offset, capacity), capacity);
      assert RingAt(offset, Past(j, offset, capacity), capacity) == j;
    }
  }

  /** What a read takes is what stands at its offsets around the ring. */
  lemma {:induction false} WrapGetAt(b: seq<int>, capacity: nat, offset: nat, n: nat, i: nat)
    requires offset < capacity <= |b| && n <= capacity && i < n
    ensures RingAt(offset, i, capacity) < |b|
    ensures WrapGet(b, capacity, offset, n)[i] == b[RingAt(offset, i, capacity)]
  {
    hide Wrap;
    WrapOnce(offset + i, capacity);
  }

  /** Bytes written and read back around the same offset are the same bytes. */
  lemma {:induction false} WrapRoundTrip(b: seq<int>, capacity: nat, offset: nat, bytes: seq<int>)
    requires offset < capacity <= |b| && |bytes| <= capacity
    ensures |WrapPut(b, capacity, offset, bytes)| == |b|
    ensures WrapGet(WrapPut(b, capacity, offset, bytes), capacity, offset, |bytes|) == bytes
  {
  }

  /** How a move divides at the end of the buffer: the bytes it carries, and those of them before the end. */
  datatype RingRun = RingRun(bytes: nat, beforeWrap: nat)

  function RunOf(capacity: nat, offset: nat, wanted: nat): RingRun
    requires offset <= capacity
  {
    var bytes := if wanted > capacity then capacity else wanted;
    var room := capacity - offset;
    RingRun(bytes, if room < bytes then room else bytes)
  }

  /** Two runs, one up to the end and one from the first byte on, are the move around the ring. */
  lemma {:induction false} RunsPut(b: seq<int>, capacity: nat, offset: nat, bytes: seq<int>, before: nat)
    requires offset < capacity <= |b| && |bytes| <= capacity
    requires before == Min(capacity - offset, |bytes|)
    ensures |Put(b, offset, bytes[..before])| == |b| && |bytes| - before <= offset
    ensures Put(Put(b, offset, bytes[..before]), 0, bytes[before..]) == WrapPut(b, capacity, offset, bytes)
  {
  }

  lemma {:induction false} RunsGet(d: seq<int>, b: seq<int>, capacity: nat, offset: nat, n: nat, before: nat)
    requires offset < capacity <= |b| && n <= capacity && n <= |d|
    requires before == Min(capacity - offset, n)
    ensures |Put(d, 0, b[offset..offset + before])| == |d| && n - before <= offset
    ensures Put(Put(d, 0, b[offset..offset + before]), before, b[0..n - before])
        == Put(d, 0, WrapGet(b, capacity, offset, n))
  {
  }

  /** Bytes moved into the ring, in at most two runs. */
  method RingMoveIn(buf: array<int>, capacity: nat, offset: nat, src: array<int>, wanted: nat, step: nat)
    returns (next: nat, ghost passes: nat)
    requires IsWidth(step) && buf != src && offset < capacity <= buf.Length && Min(wanted, capacity) <= src.Length
    modifies buf
    ensures buf[..] == WrapPut(old(buf[..]), capacity, offset, src[..Min(wanted, capacity)])
    ensures next == Wrap(offset + Min(wanted, capacity), capacity) && passes <= 2
  {
    hide WrapPut, Put, Wrap;
    var run := RunOf(capacity, offset, wanted);
    ghost var b, bytes := buf[..], src[..run.bytes];
    RunsPut(b, capacity, offset, bytes, run.beforeWrap);
    var done: nat, to, n := 0, offset, run.beforeWrap;
    passes := 0;
    PutNone(Put(b, offset, bytes[..run.beforeWrap]), 0);
    PutNone(b, offset);
    while done < run.bytes
      invariant done == 0 ==> passes == 0 && to == offset && n == run.beforeWrap && buf[..] == b
      invariant done != 0 ==> passes <= 2 && done >= run.beforeWrap && n == run.bytes - done
      invariant done == run.beforeWrap && done != 0 ==>
          passes == 1 && to == 0 && buf[..] == Put(b, offset, bytes[..done])
      invariant done != 0 && done != run.beforeWrap ==>
        done == run.bytes && buf[..] == Put(Put(b, offset, bytes[..run.beforeWrap]), 0, bytes[run.beforeWrap..])
      invariant done <= run.bytes
      decreases run.bytes - done
    {
      assert src[done..done + n] == bytes[done..done + n];
      RingMove(buf, to, src, done, n, step);
      assert bytes[0..run.beforeWrap] == bytes[..run.beforeWrap];
      assert bytes[run.beforeWrap..run.bytes] == bytes[run.beforeWrap..];
      done := done + n;
      to := 0;
      n := run.bytes - done;
      passes := passes + 1;
    }
    assert bytes[run.bytes..] == [];
    next := Wrap(offset + run.bytes, capacity);
  }

  /** Bytes moved out of the ring, in at most two runs. */
  method RingMoveOut(buf: array<int>, capacity: nat, offset: nat, dst: array<int>, wanted: nat, step: nat)
    returns (next: nat, ghost passes: nat)
    requires IsWidth(step) && buf != dst && offset < capacity <= buf.Length && Min(wanted, capacity) <= dst.Length
    modifies dst
    ensures dst[..] == Put(old(dst[..]), 0, WrapGet(buf[..], capacity, offset, Min(wanted, capacity)))
    ensures next == Wrap(offset + Min(wanted, capacity), capacity) && passes <= 2
  {
    hide WrapGet, Put, Wrap;
    var run := RunOf(capacity, offset, wanted);
    ghost var d, b := dst[..], buf[..];
    RunsGet(d, b, capacity, offset, run.bytes, run.beforeWrap);
    var done: nat, from, n := 0, offset, run.beforeWrap;
    passes := 0;
    PutNone(d, 0);
    PutNone(Put(d, 0, b[offset..offset + run.beforeWrap]), run.beforeWrap);
    while done < run.bytes
      invariant done == 0 ==> passes == 0 && from == offset && n == run.beforeWrap && dst[..] == d
      invariant done != 0 ==> passes <= 2 && done >= run.beforeWrap && n == run.bytes - done
      invariant done == run.beforeWrap && done != 0 ==>
        passes == 1 && from == 0 && dst[..] == Put(d, 0, b[offset..offset + done])
      invariant done != 0 && done != run.beforeWrap ==>
        done == run.bytes
        && dst[..] == Put(Put(d, 0, b[offset..offset + run.beforeWrap]), run.beforeWrap,
            b[0..run.bytes - run.beforeWrap])
      invariant done <= run.bytes
      decreases run.bytes - done
    {
      RingMove(dst, done, buf, from, n, step);
      done := done + n;
      from := 0;
      n := run.bytes - done;
      passes := passes + 1;
    }
    next := Wrap(offset + run.bytes, capacity);
  }
}
