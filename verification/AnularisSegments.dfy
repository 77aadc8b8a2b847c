/** The ring's segments: two counters that wrap with the machine word, one side each, and the spans they name. */
module AnularisSegments {
  import opened WordArithmetic

  predicate IsPow2(n: nat) {
    n == 1 || (n != 0 && n % 2 == 0 && IsPow2(n / 2))
  }

  function Log2(n: nat): (k: nat)
    requires IsPow2(n)
    ensures n == Pow2(k)
  {
    if n == 1 then 0 else Log2(n / 2) + 1
  }

  /** It is two to some power. */
  lemma {:induction false} IsPow2Exactly(n: nat)
    ensures IsPow2(n) <==> exists k: nat :: n == Pow2(k)
  {
    hide IsPow2, Pow2;
    if IsPow2(n) {
      assert n == Pow2(Log2(n));
    }
    forall k: nat | n == Pow2(k) ensures IsPow2(n) {
      PowerIsPow2(k);
    }
  }

  lemma {:induction false} DoubleIsPow2(p: nat)
    requires IsPow2(p)
    ensures IsPow2(2 * p)
  {
    var n := 2 * p;
    assert n % 2 == 0 && n / 2 == p;
  }

  lemma {:induction false} PowerIsPow2(k: nat)
    ensures IsPow2(Pow2(k))
  {
    hide IsPow2;
    if k > 0 {
      PowerIsPow2(k - 1);
      DoubleIsPow2(Pow2(k - 1));
    } else {
      OneIsPow2();
    }
  }

  lemma {:induction false} OneIsPow2()
    ensures IsPow2(1)
  {
  }

  /** A smaller power of two divides a greater. */
  lemma {:induction false} Pow2Divides(n: nat, m: nat)
    requires IsPow2(n) && IsPow2(m) && n <= m
    ensures m % n == 0
    decreases n
  {
    if n != 1 {
      Pow2Divides(n / 2, m / 2);
      var q := m / 2 / (n / 2);
      assert m / 2 == q * (n / 2);
      assert m == q * n;
      ModIs(m, q, 0, n);
    } else {
      ModIs(m, m, 0, 1);
    }
  }

  // ---- the ring laid down -----------------------------------------------------------------------------------

  /** A ring's sizes. */
  datatype Layout = Layout(capacity: nat, segmentCount: nat, segmentBytes: nat)

  datatype Option<T> = None | Some(value: T)

  /** The sizes a fresh ring is laid with over `bufBytes` bytes, or its refusal. */
  function Init(bufBytes: nat, segmentCount: nat, segmentBytes: nat): (layout: Option<Layout>)
    ensures layout.Some? ==> (
      var l := layout.value;
      && IsPow2(l.capacity) && IsPow2(l.segmentCount) && l.segmentBytes >= 1 && l.segmentCount == segmentCount
      && l.segmentCount * l.segmentBytes <= bufBytes && 1 <= l.capacity <= bufBytes
      && l.capacity == (if segmentBytes != 0 then 1 else bufBytes)
      && l.segmentBytes == (if segmentBytes != 0 then segmentBytes else bufBytes / segmentCount)
      && (segmentBytes == 0 ==> l.segmentCount * l.segmentBytes == bufBytes))
    ensures layout.None? <==>
      bufBytes == 0 || !IsPow2(segmentCount) || (segmentBytes == 0 && !IsPow2(bufBytes))
      || segmentCount * (if segmentBytes == 0 then 1 else segmentBytes) > bufBytes
  {
    InitFits(bufBytes, segmentCount, segmentBytes);
    InitFills(bufBytes, segmentCount);
    if bufBytes == 0 || (segmentBytes == 0 && !IsPow2(bufBytes)) then None
    else if segmentCount == 0 || !IsPow2(segmentCount) || segmentCount > bufBytes then None
    else if segmentBytes > bufBytes / segmentCount then None
    else Some(Layout(if segmentBytes != 0 then 1 else bufBytes, segmentCount,
                     if segmentBytes != 0 then segmentBytes else bufBytes / segmentCount))
  }

  /** Segments a power of two divides a buffer into fill it. */
  lemma {:induction false} InitFills(bufBytes: nat, segmentCount: nat)
    ensures IsPow2(bufBytes) && IsPow2(segmentCount) && segmentCount <= bufBytes ==>
      segmentCount >= 1 && segmentCount * (bufBytes / segmentCount) == bufBytes
  {
    if IsPow2(bufBytes) && IsPow2(segmentCount) && segmentCount <= bufBytes {
      Pow2Divides(segmentCount, bufBytes);
    }
  }

  lemma {:induction false} InitFits(bufBytes: nat, segmentCount: nat, segmentBytes: nat)
    ensures segmentCount >= 1 ==> (segmentBytes <= bufBytes / segmentCount <==> segmentCount * segmentBytes <= bufBytes)
    ensures segmentCount >= 1 ==> segmentCount * (bufBytes / segmentCount) <= bufBytes
    ensures segmentCount >= 1 && segmentCount <= bufBytes ==> bufBytes / segmentCount >= 1
    ensures segmentCount >= 1 && segmentBytes >= 1 ==> segmentCount * segmentBytes >= segmentCount
  {
    if segmentCount >= 1 {
      var q, r := bufBytes / segmentCount, bufBytes % segmentCount;
      assert bufBytes == q * segmentCount + r;
      Distribute(q, -(segmentBytes as int), segmentCount);
      if segmentBytes <= q {
        TimesNonNegative(q - segmentBytes, segmentCount);
      } else {
        Times(segmentBytes - q, segmentCount);
      }
      if segmentBytes >= 1 {
        Times(segmentBytes, segmentCount);
      }
      assert q == 0 ==> q * segmentCount == 0;
    }
  }

  /** Segments lie inside the buffer and apart from one another. */
  lemma {:induction false} SpansApart(l: Layout, bufBytes: nat, i: nat, j: nat)
    requires l.segmentCount * l.segmentBytes <= bufBytes && i < j < l.segmentCount
    ensures i * l.segmentBytes + l.segmentBytes <= j * l.segmentBytes
    ensures j * l.segmentBytes + l.segmentBytes <= bufBytes
  {
    Distribute(i, 1, l.segmentBytes);
    Distribute(i + 1, j - i - 1, l.segmentBytes);
    TimesNonNegative(j - i - 1, l.segmentBytes);
    Distribute(j, 1, l.segmentBytes);
    Distribute(j + 1, l.segmentCount - j - 1, l.segmentBytes);
    TimesNonNegative(l.segmentCount - j - 1, l.segmentBytes);
  }

  // ---- the counters -----------------------------------------------------------------------------------------

  datatype Filler = Rests | LoadedClaimed(claimed: nat) | Fills(index: nat)
  datatype Drainer = Waits | LoadedReleased(released: nat) | Drains(index: nat)

  /** The two counters as the words hold them, and how many segments were published and freed in all. */
  datatype Segments = Segments(claimed: nat, released: nat, filler: Filler, drainer: Drainer, published: nat,
      freed: nat)

  datatype Action = LoadClaimed | NextAnswered | Publish | LoadReleased | FrontAnswered | Release

  /** The segment a counter names. */
  function IndexOf(counter: nat, count: nat): nat
    requires count >= 1
  {
    counter % count
  }

  /** The subtraction of two counters, around the word. */
  function InFlight(a: nat, b: nat, words: nat): nat
    requires words >= 1
  {
    (a as int - b) % words
  }

  predicate Enabled(s: Segments, act: Action) {
    match act
    case LoadClaimed => s.filler.Rests?
    case NextAnswered => s.filler.LoadedClaimed?
    case Publish => s.filler.Fills?
    case LoadReleased => s.drainer.Waits?
    case FrontAnswered => s.drainer.LoadedReleased?
    case Release => s.drainer.Drains?
  }

  /** One atomic step: a load, a test and what it answers, or the store that advances a counter by one. */
  function Do(s: Segments, act: Action, count: nat, words: nat): Segments
    requires Enabled(s, act) && count >= 1 && words >= 1
  {
    match act
    case LoadClaimed => s.(filler := LoadedClaimed(s.claimed))
    case NextAnswered =>
      var claimed := s.filler.claimed;
      s.(filler := if InFlight(claimed, s.released, words) < count then Fills(IndexOf(claimed, count)) else Rests)
    case Publish => s.(claimed := (s.claimed + 1) % words, filler := Rests, published := s.published + 1)
    case LoadReleased => s.(drainer := LoadedReleased(s.released))
    case FrontAnswered =>
      var released := s.drainer.released;
      s.(drainer := if s.claimed != released then Drains(IndexOf(released, count)) else Waits)
    case Release => s.(released := (s.released + 1) % words, drainer := Waits, freed := s.freed + 1)
  }

  /** In flight are at most the segments there are; the counters are the totals around the word; a segment being
      filled has room left for it, and a segment being drained was published. */
  ghost predicate Inv(s: Segments, count: nat, words: nat) {
    && 1 <= count < words && words % count == 0
    && s.freed <= s.published <= s.freed + count
    && s.claimed == s.published % words && s.released == s.freed % words
    && (match s.filler
        case Rests => true
        case LoadedClaimed(claimed) => claimed == s.claimed
        case Fills(index) => index == s.published % count && s.published < s.freed + count)
    && (match s.drainer
        case Waits => true
        case LoadedReleased(released) => released == s.released
        case Drains(index) => index == s.freed % count && s.freed < s.published)
  }

  /** A counter around the word names the segment its total names. */
  lemma {:induction false} IndexCarries(total: nat, count: nat, words: nat)
    requires count >= 1 && words >= 1 && words % count == 0
    ensures (total % words) % count == total % count
  {
    var q, k := total / words, words / count;
    assert words == k * count;
    assert total == q * words + total % words;
    assert q * words == (q * k) * count;
    ModAdds(total % words, q * k, count);
  }

  lemma {:induction false} BetweenIs(published: nat, freed: nat, count: nat, words: nat)
    requires freed <= published <= freed + count && count < words
    ensures InFlight(published % words, freed % words, words) == published - freed
  {
    var a, b := published / words, freed / words;
    assert published % words - freed % words == (b - a) * words + (published - freed);
    ModAdds(published - freed, b - a, words);
    Below(published - freed, words);
  }

  lemma {:induction false} StepKeeps(s: Segments, act: Action, count: nat, words: nat)
    requires Inv(s, count, words) && Enabled(s, act)
    ensures Inv(Do(s, act, count, words), count, words)
  {
    hide InFlight;
    ModShifts(s.published, 1, words);
    ModShifts(s.freed, 1, words);
    IndexCarries(s.published, count, words);
    IndexCarries(s.freed, count, words);
    BetweenIs(s.published, s.freed, count, words);
  }

  ghost predicate Runs(states: seq<Segments>, acts: seq<Action>, count: nat, words: nat) {
    && count >= 1 && words >= 1
    && |states| == |acts| + 1 && states[0] == Segments(0, 0, Rests, Waits, 0, 0)
    && forall n :: 0 <= n < |acts| ==>
        Enabled(states[n], acts[n]) && states[n + 1] == Do(states[n], acts[n], count, words)
  }

  lemma {:induction false} RunKeeps(states: seq<Segments>, acts: seq<Action>, count: nat, words: nat, n: nat)
    requires Runs(states, acts, count, words) && count < words && words % count == 0 && n < |states|
    ensures Inv(states[n], count, words)
  {
    hide Do, Enabled;
    if n > 0 {
      RunKeeps(states, acts, count, words, n - 1);
      StepKeeps(states[n - 1], acts[n - 1], count, words);
    }
  }

  /** The segment being filled is none that is published and not yet freed, the one being drained among them, and in
      flight are at most the segments there are. */
  lemma {:induction false} FillsNoneInFlight(states: seq<Segments>, acts: seq<Action>, count: nat, words: nat, n: nat,
                                             k: nat)
    requires Runs(states, acts, count, words) && count < words && words % count == 0 && n < |states|
    requires states[n].freed <= k < states[n].published
    ensures states[n].published - states[n].freed <= count
    ensures states[n].filler.Fills? ==> states[n].filler.index != k % count
    ensures states[n].drainer.Drains? && k == states[n].freed ==> states[n].drainer.index == k % count
  {
    RunKeeps(states, acts, count, words, n);
    var s := states[n];
    if s.filler.Fills? {
      ModApart(k, s.published, count);
    }
  }

  /** Segments are freed in the order they were published: the one drained next is the oldest published and not
      freed, and it is there to drain exactly where one is in flight. */
  lemma {:induction false} DrainsInOrder(states: seq<Segments>, acts: seq<Action>, count: nat, words: nat, n: nat)
    requires Runs(states, acts, count, words) && count < words && words % count == 0
    requires n < |acts| && acts[n].FrontAnswered?
    ensures states[n + 1].drainer.Drains? <==> states[n].freed < states[n].published
    ensures states[n + 1].drainer.Drains? ==> states[n + 1].drainer.index == states[n].freed % count
  {
    RunKeeps(states, acts, count, words, n);
    RunKeeps(states, acts, count, words, n + 1);
    var s := states[n];
    if s.freed < s.published {
      ModApart(s.freed, s.published, words);
    }
  }

  /** Another segment is given to fill exactly where one is neither published nor being drained. */
  lemma {:induction false} NextAnswers(states: seq<Segments>, acts: seq<Action>, count: nat, words: nat, n: nat)
    requires Runs(states, acts, count, words) && count < words && words % count == 0
    requires n < |acts| && acts[n].NextAnswered?
    ensures states[n + 1].filler.Fills? <==> states[n].published - states[n].freed < count
  {
    RunKeeps(states, acts, count, words, n);
    var s := states[n];
    BetweenIs(s.published, s.freed, count, words);
  }

  /** With the other side at rest wherever it stands, a side with a segment in reach takes it and hands it on: the next
      to fill where one is not in flight, the oldest to drain where one is. */
  lemma {:induction false} FillAlone(s: Segments, count: nat, words: nat)
    requires Inv(s, count, words) && s.filler.Rests? && s.published - s.freed < count
    ensures Enabled(s, LoadClaimed)
    ensures var loaded := Do(s, LoadClaimed, count, words);
      && Enabled(loaded, NextAnswered)
      && var fills := Do(loaded, NextAnswered, count, words);
      && fills == s.(filler := Fills(s.published % count)) && Enabled(fills, Publish)
      && var done := Do(fills, Publish, count, words);
      && Inv(done, count, words)
      && done == s.(published := s.published + 1, claimed := (s.published + 1) % words)
  {
    hide InFlight;
    BetweenIs(s.published, s.freed, count, words);
    IndexCarries(s.published, count, words);
    ModShifts(s.published, 1, words);
    var loaded := Do(s, LoadClaimed, count, words);
    StepKeeps(s, LoadClaimed, count, words);
    StepKeeps(loaded, NextAnswered, count, words);
    StepKeeps(Do(loaded, NextAnswered, count, words), Publish, count, words);
  }

  lemma {:induction false} DrainAlone(s: Segments, count: nat, words: nat)
    requires Inv(s, count, words) && s.drainer.Waits? && s.freed < s.published
    ensures Enabled(s, LoadReleased)
    ensures var loaded := Do(s, LoadReleased, count, words);
      && Enabled(loaded, FrontAnswered)
      && var drains := Do(loaded, FrontAnswered, count, words);
      && drains == s.(drainer := Drains(s.freed % count)) && Enabled(drains, Release)
      && var done := Do(drains, Release, count, words);
      && Inv(done, count, words)
      && done == s.(freed := s.freed + 1, released := (s.freed + 1) % words)
  {
    hide InFlight;
    ModApart(s.freed, s.published, words);
    IndexCarries(s.freed, count, words);
    ModShifts(s.freed, 1, words);
    var loaded := Do(s, LoadReleased, count, words);
    StepKeeps(s, LoadReleased, count, words);
    StepKeeps(loaded, FrontAnswered, count, words);
    StepKeeps(Do(loaded, FrontAnswered, count, words), Release, count, words);
  }
}
