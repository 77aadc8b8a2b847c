/** Words as lanes: a machine word is the bytes it was loaded from, in memory order, and a mask one bit a lane. */
module CellularumLanes {
  import opened WordArithmetic

  type Word = seq<bv8>
  type Mask = seq<bool>

  // ---- bytes ------------------------------------------------------------------------------------------------

  predicate Letter(b: bv8) {
    0x61 <= b | 0x20 <= 0x7A
  }

  /** A byte in lower case where it is a capital. */
  function Fold(b: bv8): bv8 {
    if 0x41 <= b <= 0x5A then b | 0x20 else b
  }

  /** Whether two bytes differ, as the lane difference reads it: with case folded, the case bit counts for nothing
      where the left byte is a letter. */
  predicate Differs(ci: bool, a: bv8, b: bv8) {
    if ci && Letter(a) then (a ^ b) & 0xDF != 0 else a ^ b != 0
  }

  /** Two bytes differ with case folded exactly where their lower cases do. */
  lemma {:induction false} DiffersFolded(a: bv8, b: bv8)
    ensures Differs(true, a, b) <==> Fold(a) != Fold(b)
    ensures Differs(false, a, b) <==> a != b
  {
  }

  // ---- lanes ------------------------------------------------------------------------------------------------

  function HasZero(w: Word): Mask {
    seq(|w|, i requires 0 <= i < |w| => w[i] == 0)
  }

  function DiffLanes(ci: bool, a: Word, b: Word): Mask
    requires |a| == |b|
  {
    seq(|a|, i requires 0 <= i < |a| => Differs(ci, a[i], b[i]))
  }

  function And(a: Mask, b: Mask): Mask
    requires |a| == |b|
  {
    seq(|a|, i requires 0 <= i < |a| => a[i] && b[i])
  }

  predicate Any(m: Mask) {
    exists i :: 0 <= i < |m| && m[i]
  }

  /** The first lane set, or the lanes there are where none is. */
  function First(m: Mask): (k: nat)
    ensures k <= |m| && (k < |m| ==> m[k]) && forall j :: 0 <= j < k ==> !m[j]
    ensures k < |m| <==> Any(m)
  {
    if m == [] then 0 else if m[0] then 0 else
      assert forall j :: 0 < j < |m| ==> m[j] == m[1..][j - 1];
      1 + First(m[1..])
  }

  function LanesBelow(w: nat, n: nat): Mask {
    seq(w, i requires 0 <= i < w => i < n)
  }

  /** The lanes before the first set one, every lane where none is set. */
  function Before(m: Mask): Mask {
    seq(|m|, i requires 0 <= i < |m| => i < First(m))
  }

  /** A mask without its first lane set. */
  function DropFirst(m: Mask): Mask {
    if First(m) < |m| then m[First(m) := false] else m
  }

  /** A word's lanes shifted down by one, with a new last lane. */
  function WordNext(current: Word, next: bv8): Word
    requires |current| >= 1
  {
    current[1..] + [next]
  }

  function RoundUp(n: nat, w: nat): nat
    requires w >= 1
  {
    if n % w == 0 then n else n - n % w + w
  }

  /** Lanes of a word read at an offset, those within a count: the terminators, and the differences from another. */
  function TermAt(a: seq<bv8>, at: nat, w: nat, n: nat): Mask
    requires at + w <= |a|
  {
    And(HasZero(a[at..at + w]), LanesBelow(w, n))
  }

  function DiffAt(ci: bool, a: seq<bv8>, b: seq<bv8>, at: nat, w: nat, n: nat): Mask
    requires at + w <= |a| && at + w <= |b|
  {
    And(DiffLanes(ci, a[at..at + w], b[at..at + w]), LanesBelow(w, n))
  }

  lemma {:induction false} LanesAt(ci: bool, a: seq<bv8>, b: seq<bv8>, at: nat, w: nat, n: nat)
    requires n <= w && at + w <= |a| && at + w <= |b|
    ensures |TermAt(a, at, w, n)| == |DiffAt(ci, a, b, at, w, n)| == w
    ensures forall i :: 0 <= i < w ==> (TermAt(a, at, w, n)[i] <==> i < n && a[at + i] == 0)
    ensures forall i :: 0 <= i < w ==> (DiffAt(ci, a, b, at, w, n)[i] <==> i < n && Differs(ci, a[at + i], b[at + i]))
    ensures n == w ==> TermAt(a, at, w, n) == HasZero(a[at..at + w])
    ensures n == w ==> DiffAt(ci, a, b, at, w, n) == DiffLanes(ci, a[at..at + w], b[at..at + w])
  {
    hide Differs;
  }
}
