/** The direction a transfer walks its words in, settled from the two spans it moves between. */
module PraetDescriptor {
  import opened MemoriaOperor

  datatype DirectioMotusVerbi = Neutrum | Sursum | Deorsum

  /** Which walk two spans call for: neither where they are apart or the same, and otherwise the one toward the
      source. */
  function DirectioFor(from: nat, to: nat, bytes: nat): DirectioMotusVerbi {
    if from < to + bytes && to < from + bytes && to != from then (if to > from then Deorsum else Sursum) else Neutrum
  }

  /** Bytes an engine moves in one step. */
  predicate IsMensura(step: nat) {
    step == 1 || step == 2 || step == 4
  }

  /** What a declaration asserts of an end: the span fits its pool and lies on whole steps. */
  predicate StepsFit(pool: nat, offset: nat, bytes: nat, step: nat)
    requires IsMensura(step)
  {
    offset + bytes <= pool && offset % step == 0 && bytes % step == 0
  }

  /** The engine's walk from the low step up, each step loaded and then stored. */
  function WalkedUp(m: seq<int>, from: nat, to: nat, bytes: nat, step: nat): seq<int>
    requires IsMensura(step) && bytes % step == 0 && from + bytes <= |m| && to + bytes <= |m|
    decreases bytes
  {
    if bytes == 0 then m else WalkedUp(Copied(m, to, from, step), from + step, to + step, bytes - step, step)
  }

  /** The engine's walk from the high step back. */
  function WalkedDown(m: seq<int>, from: nat, to: nat, bytes: nat, step: nat): seq<int>
    requires IsMensura(step) && bytes % step == 0 && from + bytes <= |m| && to + bytes <= |m|
    decreases bytes
  {
    if bytes == 0 then m
    else WalkedDown(Copied(m, to + bytes - step, from + bytes - step, step), from, to, bytes - step, step)
  }

  lemma {:induction false} CopiedAt(m: seq<int>, dst: nat, src: nat, bytes: nat, j: nat)
    requires dst + bytes <= |m| && src + bytes <= |m| && j < |m|
    ensures Copied(m, dst, src, bytes)[j] == if dst <= j < dst + bytes then m[j - dst + src] else m[j]
  {
  }

  /** A walk writes its destination alone. */
  lemma {:induction false} UpFrames(m: seq<int>, from: nat, to: nat, bytes: nat, step: nat, j: nat)
    requires IsMensura(step) && bytes % step == 0 && from + bytes <= |m| && to + bytes <= |m| && j < |m|
    ensures |WalkedUp(m, from, to, bytes, step)| == |m|
    ensures j < to || to + bytes <= j ==> WalkedUp(m, from, to, bytes, step)[j] == m[j]
    decreases bytes
  {
    hide Copied;
    if bytes > 0 {
      CopiedAt(m, to, from, step, j);
      CopiedLength(m, to, from, step);
      UpFrames(Copied(m, to, from, step), from + step, to + step, bytes - step, step, j);
    }
  }

  lemma {:induction false} CopiedLength(m: seq<int>, dst: nat, src: nat, bytes: nat)
    requires dst + bytes <= |m| && src + bytes <= |m|
    ensures |Copied(m, dst, src, bytes)| == |m|
  {
  }

  lemma {:induction false} UpSteps(m: seq<int>, from: nat, to: nat, bytes: nat, step: nat)
    requires IsMensura(step) && bytes % step == 0 && 0 < bytes && from + bytes <= |m| && to + bytes <= |m|
    ensures bytes >= step && (bytes - step) % step == 0 && |Copied(m, to, from, step)| == |m|
    ensures WalkedUp(m, from, to, bytes, step)
         == WalkedUp(Copied(m, to, from, step), from + step, to + step, bytes - step, step)
  {
  }

  lemma {:induction false} DownSteps(m: seq<int>, from: nat, to: nat, bytes: nat, step: nat)
    requires IsMensura(step) && bytes % step == 0 && 0 < bytes && from + bytes <= |m| && to + bytes <= |m|
    ensures bytes >= step && (bytes - step) % step == 0
    ensures |Copied(m, to + bytes - step, from + bytes - step, step)| == |m|
    ensures WalkedDown(m, from, to, bytes, step)
         == WalkedDown(Copied(m, to + bytes - step, from + bytes - step, step), from, to, bytes - step, step)
  {
  }

  lemma {:induction false} CopiedNone(m: seq<int>, dst: nat, src: nat)
    requires dst <= |m| && src <= |m|
    ensures Copied(m, dst, src, 0) == m
  {
  }

  /** A span copied as its first step and then its rest, its source at or above its destination or wholly below it. */
  lemma {:induction false} CopiedBelow(m: seq<int>, dst: nat, src: nat, a: nat, bytes: nat)
    requires a <= bytes && dst + bytes <= |m| && src + bytes <= |m| && (dst <= src || src + bytes <= dst)
    ensures |Copied(m, dst, src, a)| == |m|
    ensures Copied(Copied(m, dst, src, a), dst + a, src + a, bytes - a) == Copied(m, dst, src, bytes)
  {
  }

  /** A span copied as its last step and then what is below it. */
  lemma {:induction false} CopiedAbove(m: seq<int>, dst: nat, src: nat, a: nat, b: nat)
    requires dst + a + b <= |m| && src + a + b <= |m| && (src <= dst || dst + a + b <= src)
    ensures |Copied(m, dst + a, src + a, b)| == |m|
    ensures Copied(Copied(m, dst + a, src + a, b), dst, src, a) == Copied(m, dst, src, a + b)
  {
  }

  /** Walking upward carries the whole span where the destination does not lie inside the source. */
  lemma {:induction false} UpSafe(m: seq<int>, from: nat, to: nat, bytes: nat, step: nat)
    requires IsMensura(step) && bytes % step == 0 && from + bytes <= |m| && to + bytes <= |m|
    requires to <= from || from + bytes <= to
    ensures WalkedUp(m, from, to, bytes, step) == Copied(m, to, from, bytes)
    decreases bytes
  {
    hide Copied;
    if bytes == 0 {
      CopiedNone(m, to, from);
    } else {
      UpSteps(m, from, to, bytes, step);
      UpSafe(Copied(m, to, from, step), from + step, to + step, bytes - step, step);
      CopiedBelow(m, to, from, step, bytes);
    }
  }

  lemma {:induction false} DownSafe(m: seq<int>, from: nat, to: nat, bytes: nat, step: nat)
    requires IsMensura(step) && bytes % step == 0 && from + bytes <= |m| && to + bytes <= |m|
    requires from <= to || to + bytes <= from
    ensures WalkedDown(m, from, to, bytes, step) == Copied(m, to, from, bytes)
    decreases bytes
  {
    hide Copied;
    if bytes == 0 {
      CopiedNone(m, to, from);
    } else {
      DownSteps(m, from, to, bytes, step);
      DownSafe(Copied(m, to + bytes - step, from + bytes - step, step), from, to, bytes - step, step);
      CopiedAbove(m, to, from, bytes - step, step);
    }
  }

  /** A walk is a walk of its first part and then of its rest. */
  lemma {:induction false} UpSplits(m: seq<int>, from: nat, to: nat, a: nat, b: nat, step: nat)
    requires IsMensura(step) && a % step == 0 && b % step == 0 && from + a + b <= |m| && to + a + b <= |m|
    ensures (a + b) % step == 0 && |WalkedUp(m, from, to, a, step)| == |m|
    ensures WalkedUp(m, from, to, a + b, step) == WalkedUp(WalkedUp(m, from, to, a, step), from + a, to + a, b, step)
    decreases a
  {
    hide Copied;
    if a > 0 {
      CopiedLength(m, to, from, step);
      UpSplits(Copied(m, to, from, step), from + step, to + step, a - step, b, step);
    }
  }

  lemma {:induction false} DownSplits(m: seq<int>, from: nat, to: nat, a: nat, b: nat, step: nat)
    requires IsMensura(step) && a % step == 0 && b % step == 0 && from + a + b <= |m| && to + a + b <= |m|
    ensures (a + b) % step == 0 && |WalkedDown(m, from + b, to + b, a, step)| == |m|
    ensures WalkedDown(m, from, to, a + b, step)
        == WalkedDown(WalkedDown(m, from + b, to + b, a, step), from, to, b, step)
    decreases a
  {
    hide Copied;
    if a > 0 {
      CopiedLength(m, to + a + b - step, from + a + b - step, step);
      DownSplits(Copied(m, to + a + b - step, from + a + b - step, step), from, to, a - step, b, step);
    }
  }

  lemma {:induction false} DownFrames(m: seq<int>, from: nat, to: nat, bytes: nat, step: nat, j: nat)
    requires IsMensura(step) && bytes % step == 0 && from + bytes <= |m| && to + bytes <= |m| && j < |m|
    ensures |WalkedDown(m, from, to, bytes, step)| == |m|
    ensures j < to || to + bytes <= j ==> WalkedDown(m, from, to, bytes, step)[j] == m[j]
    decreases bytes
  {
    hide Copied;
    if bytes > 0 {
      CopiedAt(m, to + bytes - step, from + bytes - step, step, j);
      CopiedLength(m, to + bytes - step, from + bytes - step, step);
      DownFrames(Copied(m, to + bytes - step, from + bytes - step, step), from, to, bytes - step, step, j);
    }
  }

  lemma {:induction false} Apart(from: nat, to: nat, step: nat)
    requires IsMensura(step) && from % step == 0 && to % step == 0 && from < to
    ensures (to - from) % step == 0 && to - from >= step
  {
    if step == 1 {
    } else if step == 2 {
    } else {
    }
  }

  lemma {:induction false} StepsLeft(bytes: nat, d: nat, step: nat)
    requires IsMensura(step) && bytes % step == 0 && d % step == 0 && d <= bytes
    ensures (bytes - d) % step == 0
  {
  }

  /** A memory that holds its own offsets. */
  function Marked(n: nat): seq<int> {
    seq(n, j => j)
  }

  /** Upward into a destination inside the source: the step that reaches what the walk has written carries it on. */
  lemma {:induction false} UpSpoils(n: nat, from: nat, to: nat, bytes: nat, step: nat)
    requires IsMensura(step) && StepsFit(n, from, bytes, step) && StepsFit(n, to, bytes, step)
    requires from < to < from + bytes
    ensures WalkedUp(Marked(n), from, to, bytes, step) != Copied(Marked(n), to, from, bytes)
  {
    hide Copied, WalkedUp;
    var m, d := Marked(n), to - from;
    Apart(from, to, step);
    StepsLeft(bytes, d, step);
    UpSplits(m, from, to, d, bytes - d, step);
    UpSafe(m, from, to, d, step);
    var first := Copied(m, to, from, d);
    CopiedLength(m, to, from, d);
    CopiedAt(m, to, from, d, to);
    UpSteps(first, to, to + d, bytes - d, step);
    var second := Copied(first, to + d, to, step);
    CopiedAt(first, to + d, to, step, to + d);
    UpFrames(second, to + step, to + d + step, bytes - d - step, step, to + d);
    CopiedLength(m, to, from, bytes);
    CopiedAt(m, to, from, bytes, to + d);
    assert WalkedUp(m, from, to, bytes, step)[to + d] == from;
  }

  lemma {:induction false} DownSpoils(n: nat, from: nat, to: nat, bytes: nat, step: nat)
    requires IsMensura(step) && StepsFit(n, from, bytes, step) && StepsFit(n, to, bytes, step)
    requires to < from < to + bytes
    ensures WalkedDown(Marked(n), from, to, bytes, step) != Copied(Marked(n), to, from, bytes)
  {
    hide Copied, WalkedDown;
    var m, d := Marked(n), from - to;
    Apart(to, from, step);
    StepsLeft(bytes, d, step);
    var b := bytes - d;
    var at := to + b - step;
    DownSplits(m, from, to, d, b, step);
    DownSafe(m, from + b, to + b, d, step);
    var first := Copied(m, to + b, from + b, d);
    CopiedLength(m, to + b, from + b, d);
    DownSteps(first, from, to, b, step);
    CopiedAt(m, to + b, from + b, d, from + b - step);
    var second := Copied(first, at, from + b - step, step);
    CopiedAt(first, at, from + b - step, step, at);
    DownFrames(second, from, to, b - step, step, at);
    CopiedLength(m, to, from, bytes);
    CopiedAt(m, to, from, bytes, at);
    assert WalkedDown(m, from, to, bytes, step)[at] == from + b - step + d;
  }

  /** The direction settled for a transfer of whole steps is exactly what its two spans call for: it is neither where
      both walks carry every memory's bytes, and otherwise the one walk that does. */
  lemma {:induction false} DirectionExact(pool: nat, from: nat, to: nat, bytes: nat, step: nat)
    requires IsMensura(step) && StepsFit(pool, from, bytes, step) && StepsFit(pool, to, bytes, step)
    ensures DirectioFor(from, to, bytes) != Deorsum <==>
      forall m: seq<int> :: |m| == pool ==> WalkedUp(m, from, to, bytes, step) == Copied(m, to, from, bytes)
    ensures DirectioFor(from, to, bytes) != Sursum <==>
      forall m: seq<int> :: |m| == pool ==> WalkedDown(m, from, to, bytes, step) == Copied(m, to, from, bytes)
  {
    hide Copied;
    if DirectioFor(from, to, bytes) == Deorsum {
      UpSpoils(pool, from, to, bytes, step);
    } else {
      forall m: seq<int> | |m| == pool ensures WalkedUp(m, from, to, bytes, step) == Copied(m, to, from, bytes) {
        UpSafe(m, from, to, bytes, step);
      }
    }
    if DirectioFor(from, to, bytes) == Sursum {
      DownSpoils(pool, from, to, bytes, step);
    } else {
      forall m: seq<int> | |m| == pool ensures WalkedDown(m, from, to, bytes, step) == Copied(m, to, from, bytes) {
        DownSafe(m, from, to, bytes, step);
      }
    }
  }
}
