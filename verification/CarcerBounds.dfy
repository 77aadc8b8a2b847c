/** The two boundaries of a cellblock as the halves of one machine word, and the one fetch-add a take moves them by. */
module CarcerBounds {
  import opened WordArithmetic

  /** A cellblock's sizes, all in one unit: the whole extent, the overhead of a cell, the
      greatest want a bump takes, and how far one half of the word counts. The word counts to `half * half`. */
  datatype Config = Config(size: nat, header: nat, wantMost: nat, half: nat)

  /** The bound on an extent that leaves each half as much again for what refused bumps add. */
  function BytesMost(c: Config): nat {
    c.half / 2
  }

  /** What the build asserts of the sizes for one bump to stay inside its half. */
  predicate Sound(c: Config) {
    && 1 <= c.header
    && c.size <= BytesMost(c)
    && c.header + c.wantMost < BytesMost(c)
  }

  function Word(c: Config, end: nat, top: nat): nat {
    top * c.half + end
  }

  function EndOf(c: Config, word: nat): nat
    requires c.half > 0
  {
    word % c.half
  }

  function TopOf(c: Config, word: nat): nat
    requires c.half > 0
  {
    word / c.half
  }

  /** The word gives back the two halves it was built of. */
  lemma {:induction false} WordReads(c: Config, end: nat, top: nat)
    requires end < c.half && top < c.half
    ensures EndOf(c, Word(c, end, top)) == end && TopOf(c, Word(c, end, top)) == top
    ensures Word(c, end, top) < c.half * c.half
  {
    DivMod(top, end, c.half);
    assert (top + 1) * c.half <= c.half * c.half;
  }

  lemma {:induction false} WordsApart(c: Config, end: nat, a: nat, b: nat)
    requires end < c.half && a < c.half && b < c.half
    ensures Word(c, end, a) == Word(c, end, b) <==> a == b
  {
    WordReads(c, end, a);
    WordReads(c, end, b);
  }

  /** A fetch-add on the word, which wraps where the word does. */
  function FetchAdd(c: Config, word: nat, moved: nat): nat
    requires c.half > 0
  {
    (word + moved) % (c.half * c.half)
  }

  /** What a bump adds to the word: its need to the low half going up, the negation of its need in the high half
      going down. */
  function Moved(c: Config, down: bool, need: nat): nat
    requires need < c.half
  {
    if !down then need
    else if need == 0 then 0
    else (c.half - need) * c.half
  }

  function SubWrap(c: Config, a: nat, b: nat): nat
    requires a < c.half && b < c.half
  {
    if a >= b then a - b else a + c.half - b
  }

  /** A bump up that stays in its half leaves the other half alone. */
  lemma {:induction false} UpMovesEnd(c: Config, end: nat, top: nat, need: nat)
    requires end + need < c.half && top < c.half
    ensures FetchAdd(c, Word(c, end, top), Moved(c, false, need)) == Word(c, end + need, top)
  {
    WordReads(c, end + need, top);
    Below(Word(c, end + need, top), c.half * c.half);
  }

  /** A bump down borrows out of the word and never out of the low half: the end stands, and the top is the top less
      the need, around its half. */
  lemma {:induction false} DownMovesTop(c: Config, end: nat, top: nat, need: nat)
    requires end < c.half && top < c.half && need < c.half
    ensures FetchAdd(c, Word(c, end, top), Moved(c, true, need)) == Word(c, end, SubWrap(c, top, need))
  {
    var h := c.half;
    var low := SubWrap(c, top, need);
    WordReads(c, end, low);
    if need == 0 {
      Below(Word(c, end, top), h * h);
    } else {
      Distribute(top, h - need, h);
      if top >= need {
        Distribute(top - need, h, h);
        DivMod(1, Word(c, end, low), h * h);
      } else {
        Below(Word(c, end, low), h * h);
      }
    }
  }

  /** The room a bump reads off the old word: `need` on its own side of the other boundary, no wrap below the
      cellblock, and no boundary past the cellblock's size. */
  predicate Fits(c: Config, end: nat, top: nat, down: bool, need: nat) {
    if down then
      top >= need && top - need >= end && top - need <= c.size
    else
      end + need <= top && top <= c.size
  }

  /** One bump, told by the halves: the tier's own boundary moves by the need and the other stands. */
  lemma {:induction false} BumpMoves(c: Config, end: nat, top: nat, down: bool, need: nat)
    requires end + need < c.half && top < c.half
    ensures EndOf(c, Word(c, end, top)) == end && TopOf(c, Word(c, end, top)) == top
    ensures FetchAdd(c, Word(c, end, top), Moved(c, down, need))
         == if down then Word(c, end, SubWrap(c, top, need)) else Word(c, end + need, top)
  {
    WordReads(c, end, top);
    if down {
      DownMovesTop(c, end, top, need);
    } else {
      UpMovesEnd(c, end, top, need);
    }
  }

  /** With the chains at `end` and `start` and so much refused of each tier since the last settle, the room test passes
      a bump if and only if nothing was refused and the gap between the chains holds it. */
  lemma {:induction false} FitsExactly(c: Config, end: nat, start: nat, overEnd: nat, overTop: nat, down: bool,
                                       need: nat)
    requires Sound(c) && end <= start <= c.size && need > 0 && overEnd + overTop + need < BytesMost(c)
    requires overEnd + overTop > 0 ==> end + overEnd > start - overTop
    ensures end + overEnd + need < c.half && start < c.half && overTop + need < c.half
    ensures Fits(c, end + overEnd, SubWrap(c, start, overTop), down, need)
       <==> overEnd == overTop == 0 && end + need <= start
    ensures SubWrap(c, SubWrap(c, start, overTop), need) == SubWrap(c, start, overTop + need)
  {
  }

  /** The boundary word with the chains at `end` and `start` and so much refused of each tier: each boundary
      displaced from its chain by what its tier was refused, the top around its half, and with anything refused
      the two crossed. */
  predicate Displaces(c: Config, word: nat, end: nat, start: nat, overEnd: nat, overTop: nat) {
    && end + overEnd < c.half && start < c.half && overTop < c.half
    && word == Word(c, end + overEnd, SubWrap(c, start, overTop))
    && (overEnd + overTop > 0 ==> end + overEnd > start - overTop)
  }

  lemma {:induction false} DisplacedReads(c: Config, word: nat, end: nat, start: nat, overEnd: nat, overTop: nat)
    requires Displaces(c, word, end, start, overEnd, overTop)
    ensures EndOf(c, word) == end + overEnd && TopOf(c, word) == SubWrap(c, start, overTop)
  {
    WordReads(c, end + overEnd, SubWrap(c, start, overTop));
  }

  /** A bump on a displaced word: it is met if and only if nothing was refused since the last settle and the gap holds
      it, and refused it displaces its own tier by its need more. */
  lemma {:induction false} BumpDisplaces(c: Config, word: nat, end: nat, start: nat, overEnd: nat, overTop: nat,
                                         down: bool, need: nat)
    requires Sound(c) && end <= start <= c.size && need <= c.header + c.wantMost
    requires overEnd + overTop + c.header + c.wantMost < BytesMost(c)
    requires Displaces(c, word, end, start, overEnd, overTop)
    ensures EndOf(c, word) == end + overEnd && need < c.half
    ensures var after := FetchAdd(c, word, Moved(c, down, need));
            var met := need > 0 && Fits(c, EndOf(c, word), TopOf(c, word), down, need);
      && (met <==> need > 0 && overEnd == overTop == 0 && end + need <= start)
      && (met && !down ==> after == Word(c, end + need, start) && EndOf(c, word) == end)
      && (met && down ==> after == Word(c, end, start - need) && TopOf(c, word) == start)
      && (!met ==> Displaces(c, after, end, start, overEnd + (if down then 0 else need),
                             overTop + (if down then need else 0)))
  {
    hide Word, EndOf, TopOf, FetchAdd, Moved;
    BumpMoves(c, end + overEnd, SubWrap(c, start, overTop), down, need);
    if need > 0 {
      FitsExactly(c, end, start, overEnd, overTop, down, need);
    }
  }
}
