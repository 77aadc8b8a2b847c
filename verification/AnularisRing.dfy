/** The ring's own entries, one side at a time: a put takes its whole span or none of it, a read takes what waits, and
    segments go round by two counters that wrap with the machine word. */
module AnularisRing {
  import opened WordArithmetic
  import opened MemoriaOperor
  import opened AnularisMover
  import G = AnularisSegments
  import S = AnularisStream

  // ---- the byte stream --------------------------------------------------------------------------------------

  /** A ring at rest, as its words and what went through it. */
  ghost function StreamOf(b: seq<int>, head: nat, tail: nat, accepted: seq<int>, taken: seq<int>): S.Ring {
    S.Ring(b, head, tail, S.Offers, S.Asks, accepted, taken)
  }

  /** A span that fits the room, moved in at the head, waits behind what waited. */
  lemma {:induction false} PutStands(b: seq<int>, head: nat, tail: nat, accepted: seq<int>, taken: seq<int>,
                                     bytes: seq<int>)
    requires S.Standing(StreamOf(b, head, tail, accepted, taken)) && |accepted| + |bytes| <= |taken| + |b| - 1
    ensures head < |b| && |WrapPut(b, |b|, head, bytes)| == |b|
    ensures S.Standing(StreamOf(WrapPut(b, |b|, head, bytes), Wrap(head + |bytes|, |b|), tail, accepted + bytes, taken))
  {
    hide WrapPut;
    var capacity := |b|;
    WrapPutLength(b, capacity, head, bytes);
    var b' := WrapPut(b, capacity, head, bytes);
    ModShifts(|accepted|, |bytes|, capacity);
    forall n | |taken| <= n < |accepted| + |bytes| ensures b'[n % capacity] == (accepted + bytes)[n] {
      if n >= |accepted| {
        WrapPutAt(b, capacity, head, bytes, n - |accepted|, 0);
        ModShifts(|accepted|, n - |accepted|, capacity);
      } else {
        forall i: nat | i < |bytes| ensures RingAt(head, i, capacity) != n % capacity {
          ModShifts(|accepted|, i, capacity);
          ModApart(n, |accepted| + i, capacity);
        }
        WrapPutStands(b, capacity, head, bytes, n % capacity);
      }
    }
  }

  lemma {:induction false} WrapPutLength(b: seq<int>, capacity: nat, offset: nat, bytes: seq<int>)
    requires offset < capacity <= |b| && |bytes| <= capacity
    ensures |WrapPut(b, capacity, offset, bytes)| == |b|
  {
  }

  lemma {:induction false} WrapPutStands(b: seq<int>, capacity: nat, offset: nat, bytes: seq<int>, j: nat)
    requires offset < capacity <= |b| && |bytes| <= capacity && j < |b|
    requires forall i: nat :: i < |bytes| ==> RingAt(offset, i, capacity) != j
    ensures |WrapPut(b, capacity, offset, bytes)| == |b| && WrapPut(b, capacity, offset, bytes)[j] == b[j]
  {
    hide WrapPut;
    if |bytes| > 0 {
      WrapPutAt(b, capacity, offset, bytes, 0, j);
    } else {
      WrapPutNone(b, capacity, offset);
    }
  }

  lemma {:induction false} WrapPutNone(b: seq<int>, capacity: nat, offset: nat)
    requires offset < capacity <= |b|
    ensures WrapPut(b, capacity, offset, []) == b
  {
  }

  /** Bytes that stand at their indices, read from the index of the first on. */
  lemma {:induction false} WrapGetIs(b: seq<int>, from: nat, at: nat, n: nat, bytes: seq<int>)
    requires from < |b| && n <= |b| && from == at % |b| && at + n <= |bytes|
    requires forall m :: at <= m < at + n ==> b[m % |b|] == bytes[m]
    ensures WrapGet(b, |b|, from, n) == bytes[at..at + n]
  {
    hide WrapGet;
    WrapGetLength(b, |b|, from, n);
    forall i | 0 <= i < n ensures WrapGet(b, |b|, from, n)[i] == bytes[at + i] {
      WrapGetAt(b, |b|, from, n, i);
      ModShifts(at, i, |b|);
    }
  }

  /** What a read takes from the tail on is what was accepted there. */
  lemma {:induction false} ReadStands(b: seq<int>, head: nat, tail: nat, accepted: seq<int>, taken: seq<int>, n: nat)
    requires S.Standing(StreamOf(b, head, tail, accepted, taken)) && |taken| + n <= |accepted|
    ensures tail < |b| && n <= |b|
    ensures WrapGet(b, |b|, tail, n) == accepted[|taken|..|taken| + n]
    ensures S.Standing(StreamOf(b, head, Wrap(tail + n, |b|), accepted, taken + WrapGet(b, |b|, tail, n)))
  {
    hide WrapGet;
    WrapGetIs(b, tail, |taken|, n, accepted);
    ModShifts(|taken|, n, |b|);
    assert accepted[..|taken|] + accepted[|taken|..|taken| + n] == accepted[..|taken| + n];
  }

  /** Bytes standing past the tail, read from where they stand. */
  lemma {:induction false} PeekStands(b: seq<int>, head: nat, tail: nat, accepted: seq<int>, taken: seq<int>,
                                      offset: nat, n: nat)
    requires S.Standing(StreamOf(b, head, tail, accepted, taken)) && |taken| + offset + n <= |accepted|
    ensures Wrap(tail + offset, |b|) < |b| && n <= |b|
    ensures WrapGet(b, |b|, Wrap(tail + offset, |b|), n) == accepted[|taken| + offset..|taken| + offset + n]
  {
    hide WrapGet;
    ModShifts(|taken|, offset, |b|);
    WrapGetIs(b, Wrap(tail + offset, |b|), |taken| + offset, n, accepted);
  }

  /** A tail carried less than a lap past the head. */
  lemma {:induction false} Overshoots(total: nat, past: nat, capacity: nat)
    requires capacity >= 1 && total < past < total + capacity
    ensures S.Used(total % capacity, past % capacity, capacity) == capacity - (past - total)
  {
    var a, b := total / capacity, past / capacity;
    assert total % capacity as int - past % capacity == (b - a - 1) * capacity + (capacity - (past - total));
    ModAdds(capacity - (past - total), b - a - 1, capacity);
    Below(capacity - (past - total), capacity);
  }

  /** Where a tail carried past a number of bytes leaves a ring. */
  lemma {:induction false} Consumed(b: seq<int>, head: nat, tail: nat, accepted: seq<int>, taken: seq<int>, n: nat)
    requires S.Standing(StreamOf(b, head, tail, accepted, taken))
    ensures |b| >= 1 && |taken| <= |accepted|
    ensures |taken| + n <= |accepted| ==>
      S.Standing(StreamOf(b, head, Wrap(tail + n, |b|), accepted, accepted[..|taken| + n]))
    ensures |accepted| < |taken| + n < |accepted| + |b| ==>
      S.Used(head, Wrap(tail + n, |b|), |b|) == |b| - (|taken| + n - |accepted|)
  {
    hide S.Used, WrapGet;
    ModShifts(|taken|, n, |b|);
    if |taken| + n > |accepted| && |taken| + n < |accepted| + |b| {
      Overshoots(|accepted|, |taken| + n, |b|);
    }
  }

  lemma {:induction false} WrapGetLength(b: seq<int>, capacity: nat, offset: nat, n: nat)
    requires offset < capacity <= |b| && n <= capacity
    ensures |WrapGet(b, capacity, offset, n)| == n
  {
  }

  /** A move into a ring that holds less than its buffer stays inside what it holds. */
  lemma {:induction false} PutWithin(b: seq<int>, capacity: nat, offset: nat, bytes: seq<int>)
    requires offset < capacity <= |b| && |bytes| <= capacity
    ensures |WrapPut(b, capacity, offset, bytes)| == |b|
    ensures WrapPut(b, capacity, offset, bytes)[..capacity] == WrapPut(b[..capacity], capacity, offset, bytes)
    ensures WrapPut(b, capacity, offset, bytes)[capacity..] == b[capacity..]
  {
  }

  lemma {:induction false} GetWithin(b: seq<int>, capacity: nat, offset: nat, n: nat)
    requires offset < capacity <= |b| && n <= capacity
    ensures WrapGet(b, capacity, offset, n) == WrapGet(b[..capacity], capacity, offset, n)
  {
  }

  /** A ring freshly laid takes a put of any span under its buffer where it is given no segment size, and of none where
      it is. */
  lemma {:induction false} FreshTakes(buf: seq<int>, segmentCount: nat, segmentBytes: nat, data: seq<int>)
    requires G.Init(|buf|, segmentCount, segmentBytes).Some?
    ensures var capacity := G.Init(|buf|, segmentCount, segmentBytes).value.capacity;
      && 1 <= capacity <= |buf|
      && var loaded := S.Do(S.Fresh(buf[..capacity]), S.LoadHead(data));
      && S.Do(loaded, S.LoadTailAhead).producer.Copying? <==>
           |data| < if segmentBytes == 0 then |buf| else 1
  {
    var capacity := G.Init(|buf|, segmentCount, segmentBytes).value.capacity;
    S.UsedIs(0, 0, 0, 0, capacity);
  }

  class RingState {
    const buf: array<int>
    const layout: G.Layout
    var head: nat
    var tail: nat
    /** Every byte a put accepted and every byte a read took. */
    ghost var accepted: seq<int>
    ghost var taken: seq<int>

    ghost predicate Valid()
      reads this, buf
    {
      1 <= layout.capacity <= buf.Length && S.Standing(StreamOf(buf[..layout.capacity], head, tail, accepted, taken))
    }

    constructor (buf: array<int>, layout: G.Layout)
      requires 1 <= layout.capacity <= buf.Length
      ensures this.buf == buf && this.layout == layout && Valid() && accepted == [] && taken == []
    {
      this.buf, this.layout, head, tail, accepted, taken := buf, layout, 0, 0, [], [];
    }

    /** A fresh ring laid over a buffer, or its refusal. One laid with no segment size streams bytes over the whole
        buffer; one given a size holds none. */
    static method Laid(buf: array<int>, segmentCount: nat, segmentBytes: nat) returns (ring: RingState?)
      ensures ring == null <==>
        || buf.Length == 0 || !G.IsPow2(segmentCount) || (segmentBytes == 0 && !G.IsPow2(buf.Length))
        || segmentCount * (if segmentBytes == 0 then 1 else segmentBytes) > buf.Length
      ensures ring != null ==>
        && fresh(ring) && ring.buf == buf && ring.Valid() && ring.accepted == ring.taken == []
        && ring.layout.capacity == (if segmentBytes == 0 then buf.Length else 1)
        && ring.layout.segmentCount == segmentCount
        && (segmentBytes == 0 ==> segmentCount * ring.layout.segmentBytes == buf.Length)
        && (segmentBytes != 0 ==> ring.layout.segmentBytes == segmentBytes)
    {
      var layout := G.Init(buf.Length, segmentCount, segmentBytes);
      if layout.None? {
        return null;
      }
      ring := new RingState(buf, layout.value);
    }

    /** The bytes a span's source is written from, or the refusal of the whole span. */
    method Put(src: array<int>, bytes: nat, step: nat) returns (ok: bool)
      requires Valid() && IsWidth(step) && src != buf && bytes <= src.Length
      modifies this, buf
      ensures Valid() && taken == old(taken)
      ensures ok <==> old(|accepted| - |taken|) + bytes <= layout.capacity - 1
      ensures accepted == old(accepted) + if ok then src[..bytes] else []
      ensures !ok ==> buf[..] == old(buf[..])
      ensures buf[layout.capacity..] == old(buf[layout.capacity..])
    {
      hide WrapPut, Wrap;
      var capacity := layout.capacity;
      S.UsedIs(head, tail, |accepted|, |taken|, capacity);
      ok := bytes <= capacity - 1 - S.Used(head, tail, capacity);
      if ok {
        PutStands(buf[..capacity], head, tail, accepted, taken, src[..bytes]);
        PutWithin(buf[..], capacity, head, src[..bytes]);
        ghost var passes;
        head, passes := RingMoveIn(buf, capacity, head, src, bytes, step);
        accepted := accepted + src[..bytes];
        assert buf[..capacity] == buf[..][..capacity] && buf[capacity..] == buf[..][capacity..];
      }
    }

    /** Up to a number of bytes taken from the tail, as many as wait. */
    method Read(dst: array<int>, want: nat, step: nat) returns (bytes: nat)
      requires Valid() && IsWidth(step) && dst != buf && want <= dst.Length
      modifies this, dst
      ensures Valid() && accepted == old(accepted)
      ensures bytes == Min(want, old(|accepted| - |taken|)) && |taken| == old(|taken|) + bytes
      ensures taken == old(taken) + dst[..bytes] == accepted[..old(|taken|) + bytes]
      ensures dst[bytes..] == old(dst[bytes..])
    {
      hide WrapGet, Wrap;
      var capacity := layout.capacity;
      S.UsedIs(head, tail, |accepted|, |taken|, capacity);
      var have := S.Used(head, tail, capacity);
      bytes := if have < want then have else want;
      ReadStands(buf[..capacity], head, tail, accepted, taken, bytes);
      GetWithin(buf[..], capacity, tail, bytes);
      ghost var passes, got := 0, WrapGet(buf[..], capacity, tail, bytes);
      WrapGetLength(buf[..], capacity, tail, bytes);
      tail, passes := RingMoveOut(buf, capacity, tail, dst, bytes, step);
      PutFront(old(dst[..]), got);
      taken := taken + got;
    }

    /** Bytes copied from so far past the tail, as many as are asked for whether they wait or not, and the tail left
        alone. */
    method Peek(dst: array<int>, offset: nat, want: nat, step: nat)
      requires Valid() && IsWidth(step) && dst != buf && Min(want, layout.capacity) <= dst.Length
      modifies dst
      ensures Valid()
      ensures var n := Min(want, layout.capacity);
        && dst[..n] == WrapGet(buf[..], layout.capacity, Wrap(tail + offset, layout.capacity), n)
        && dst[n..] == old(dst[n..])
      ensures |taken| + offset + want <= |accepted| ==>
        dst[..want] == accepted[|taken| + offset..|taken| + offset + want]
    {
      hide WrapGet;
      var capacity := layout.capacity;
      ModShifts(|taken|, offset, capacity);
      var at := Wrap(tail + offset, capacity);
      ghost var n := Min(want, capacity);
      ghost var passes, next, d, got := 0, 0, dst[..], WrapGet(buf[..], capacity, at, n);
      next, passes := RingMoveOut(buf, capacity, at, dst, want, step);
      WrapGetLength(buf[..], capacity, at, n);
      PutFront(d, got);
      if |taken| + offset + want <= |accepted| {
        PeekStands(buf[..capacity], head, tail, accepted, taken, offset, want);
        GetWithin(buf[..], capacity, at, want);
      }
    }

    /** A consume of more or fewer bytes than wait: of fewer, they leave the stream as if read; of more, by less than a
        lap, the cursors read as a ring that far short of a whole lap. */
    method Consume(bytes: nat)
      requires Valid()
      modifies this
      ensures accepted == old(accepted) && head == old(head)
      ensures bytes <= old(|accepted| - |taken|) ==> Valid() && taken == accepted[..old(|taken|) + bytes]
      ensures old(|accepted| - |taken|) < bytes < old(|accepted| - |taken|) + layout.capacity ==>
        S.Used(head, tail, layout.capacity) == layout.capacity - (bytes - old(|accepted| - |taken|))
    {
      hide Wrap, S.Used, S.Standing;
      Consumed(buf[..layout.capacity], head, tail, accepted, taken, bytes);
      taken := if bytes <= |accepted| - |taken| then accepted[..|taken| + bytes] else taken;
      tail := Wrap(tail + bytes, layout.capacity);
    }

    /** One byte taken from the tail where one waits. */
    method ReadByte() returns (got: bool, byte: int)
      requires Valid()
      modifies this
      ensures Valid() && accepted == old(accepted)
      ensures got <==> old(|taken| < |accepted|)
      ensures taken == old(taken) + if got then [byte] else []
    {
      hide WrapGet, Wrap;
      var capacity := layout.capacity;
      S.CursorsMeet(StreamOf(buf[..capacity], head, tail, accepted, taken));
      got, byte := tail != head, 0;
      if got {
        ReadStands(buf[..capacity], head, tail, accepted, taken, 1);
        WrapGetAt(buf[..capacity], capacity, tail, 1, 0);
        WrapGetLength(buf[..capacity], capacity, tail, 1);
        WrapOnce(tail, capacity);
        assert WrapGet(buf[..capacity], capacity, tail, 1) == [buf[tail]];
        byte := buf[tail];
        tail := Wrap(tail + 1, capacity);
        taken := taken + [byte];
      }
    }
  }

  lemma {:induction false} PutFront(d: seq<int>, word: seq<int>)
    requires |word| <= |d|
    ensures |Put(d, 0, word)| == |d| && Put(d, 0, word)[..|word|] == word && Put(d, 0, word)[|word|..] == d[|word|..]
  {
  }
}
