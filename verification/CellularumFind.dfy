/** The search for a needle: a sieve over the needle's cheapest bytes with every survivor verified, or a chain of masks
    where the needle is shorter than three, each proved to answer the least start at which the needle stands. */
module CellularumFind {
  import opened WordArithmetic
  import opened CellularumLanes
  import opened CellularumCompare

  /** Two bytes the same, with case folded or not. */
  predicate Same(ci: bool, a: bv8, b: bv8) {
    if ci then Fold(a) == Fold(b) else a == b
  }

  lemma {:induction false} SameIs(ci: bool, a: bv8, b: bv8)
    ensures Same(ci, a, b) <==> !Differs(ci, a, b)
    ensures Same(ci, a, b) <==> Same(ci, b, a)
  {
    DiffersFolded(a, b);
    DiffersFolded(b, a);
  }

  /** The needle's first `n` bytes stand at a start. */
  predicate Matches(ci: bool, hay: seq<bv8>, needle: seq<bv8>, n: nat, s: nat)
    requires n <= |needle|
  {
    s + n <= |hay| && forall j :: 0 <= j < n ==> Same(ci, hay[s + j], needle[j])
  }

  /** The needle stands at a start no terminator precedes. */
  predicate Occurs(ci: bool, hay: seq<bv8>, needle: seq<bv8>, n: nat, s: nat)
    requires n <= |needle|
  {
    Matches(ci, hay, needle, n, s) && forall j :: 0 <= j < s ==> hay[j] != 0
  }

  /** A search's answer: the least start the needle occurs at, or none where it occurs at none. */
  ghost predicate Answers(ci: bool, hay: seq<bv8>, needle: seq<bv8>, n: nat, found: bool, at: nat)
    requires n <= |needle|
  {
    if found then Occurs(ci, hay, needle, n, at) && forall s: nat :: s < at ==> !Occurs(ci, hay, needle, n, s)
    else forall s: nat :: !Occurs(ci, hay, needle, n, s)
  }

  /** What a search knows with every start below an offset behind it: none of them was one, and no terminator either. */
  ghost predicate Past(ci: bool, hay: seq<bv8>, needle: seq<bv8>, n: nat, at: nat)
    requires n <= |needle|
  {
    && at <= |hay|
    && (forall j :: 0 <= j < at ==> hay[j] != 0)
    && forall s: nat :: s < at ==> !Occurs(ci, hay, needle, n, s)
  }

  /** A needle with no terminator in it. */
  ghost predicate ZeroFree(needle: seq<bv8>, n: nat)
    requires n <= |needle|
  {
    forall j :: 0 <= j < n ==> needle[j] != 0
  }

  lemma {:induction false} PastNone(ci: bool, hay: seq<bv8>, needle: seq<bv8>, n: nat)
    requires n <= |needle|
    ensures Past(ci, hay, needle, n, 0)
  {
  }

  /** A start that is neither a match nor a terminator is put behind. */
  lemma {:induction false} PastOne(ci: bool, hay: seq<bv8>, needle: seq<bv8>, n: nat, at: nat)
    requires n <= |needle| && Past(ci, hay, needle, n, at) && at < |hay|
    requires hay[at] != 0 && !Matches(ci, hay, needle, n, at)
    ensures Past(ci, hay, needle, n, at + 1)
  {
  }

  /** A match with every start below it behind is the answer. */
  lemma {:induction false} FoundAt(ci: bool, hay: seq<bv8>, needle: seq<bv8>, n: nat, at: nat)
    requires n <= |needle| && Past(ci, hay, needle, n, at) && Matches(ci, hay, needle, n, at)
    ensures Answers(ci, hay, needle, n, true, at)
  {
  }

  /** Two bytes that agree end together. */
  lemma {:induction false} SameEnds(ci: bool, a: bv8, b: bv8)
    requires Same(ci, a, b)
    ensures a == 0 <==> b == 0
  {
  }

  /** A terminator with every start below it behind ends the search: a needle with no terminator in it stands at none
      past one. */
  lemma {:induction false} EndedAt(ci: bool, hay: seq<bv8>, needle: seq<bv8>, n: nat, at: nat)
    requires 1 <= n <= |needle| && ZeroFree(needle, n) && Past(ci, hay, needle, n, at)
    requires at < |hay| && hay[at] == 0
    ensures Answers(ci, hay, needle, n, false, 0)
  {
    hide Same;
    forall s: nat ensures !Occurs(ci, hay, needle, n, s) {
      if s == at && Matches(ci, hay, needle, n, s) {
        SameEnds(ci, hay[s], needle[0]);
      }
    }
  }

  /** With no room left for the needle there is no start left. */
  lemma {:induction false} RanOut(ci: bool, hay: seq<bv8>, needle: seq<bv8>, n: nat, at: nat)
    requires n <= |needle| && Past(ci, hay, needle, n, at) && at + n > |hay|
    ensures Answers(ci, hay, needle, n, false, 0)
  {
  }

  // ---- one start at a time ----------------------------------------------------------------------------------

  /** The whole needle compared at a start, a byte at a time. */
  method MatchedAt(ci: bool, hay: seq<bv8>, start: nat, needle: seq<bv8>, n: nat) returns (matched: bool)
    requires n <= |needle| && start + n <= |hay| && ZeroFree(needle, n)
    ensures matched == Matches(ci, hay, needle, n, start)
  {
    hide Same, Differs;
    var m := 0;
    while m < n
      invariant 0 <= m <= n && forall j :: 0 <= j < m ==> Same(ci, hay[start + j], needle[j])
    {
      var here, want := hay[start + m], needle[m];
      SameIs(ci, here, want);
      SameIs(ci, want, here);
      if here == 0 {
        if Same(ci, here, want) { SameEnds(ci, here, want); }
        return false;
      }
      if StepByte(ci, false, want, here) == No {
        return false;
      }
      m := m + 1;
    }
    return true;
  }

  /** The starts the words could not reach, one at a time. */
  method FindBytes(ci: bool, hay: seq<bv8>, needle: seq<bv8>, n: nat, from: nat) returns (found: bool, at: nat)
    requires 1 <= n <= |needle| && n <= |hay| && ZeroFree(needle, n) && Past(ci, hay, needle, n, from)
    ensures Answers(ci, hay, needle, n, found, at)
  {
    hide Past, Matches, Answers, ZeroFree;
    var start := from;
    var starts := |hay| - n + 1;
    PastFits(ci, hay, needle, n, from);
    while start < starts
      invariant start <= |hay| && Past(ci, hay, needle, n, start)
      decreases starts - start
    {
      if hay[start] == 0 {
        EndedAt(ci, hay, needle, n, start);
        return false, 0;
      }
      var matched := MatchedAt(ci, hay, start, needle, n);
      if matched {
        FoundAt(ci, hay, needle, n, start);
        return true, start;
      }
      PastOne(ci, hay, needle, n, start);
      start := start + 1;
    }
    RanOut(ci, hay, needle, n, start);
    return false, 0;
  }

  lemma {:induction false} PastFits(ci: bool, hay: seq<bv8>, needle: seq<bv8>, n: nat, at: nat)
    requires n <= |needle| && Past(ci, hay, needle, n, at)
    ensures at <= |hay|
  {
  }

  // ---- the sieve --------------------------------------------------------------------------------------------

  /** Needle bytes one word holds. */
  function Take(n: nat, w: nat): nat {
    if n > w then w else n
  }

  /** The needle's first word, folded where case is, the lanes past the needle left out. */
  function NeedleWord(ci: bool, needle: seq<bv8>, n: nat, w: nat): Word
    requires n <= |needle| && RoundUpFits(needle, n, w)
  {
    seq(w, i requires 0 <= i < w => if i < Take(n, w) then (if ci then Fold(needle[i]) else needle[i]) else 0)
  }

  /** The needle is readable to a whole word past its bytes. */
  predicate RoundUpFits(needle: seq<bv8>, n: nat, w: nat) {
    w >= 1 && RoundUp(n, w) <= |needle|
  }

  lemma {:induction false} RoundUpTakes(n: nat, w: nat)
    requires IsWidth(w) && n >= 1
    ensures n <= RoundUp(n, w) && w <= RoundUp(n, w) && 1 <= Take(n, w) <= n
    ensures n > w ==> RoundUp(n, w) == w + RoundUp(n - w, w)
  {
    if n >= w {
      ModAdds(n - w, 1, w);
    }
  }

  /** Whether a word carries a byte of the block the capitals lie in. */
  predicate AnyUpper(word: Word) {
    exists i :: 0 <= i < |word| && word[i] & 0x60 == 0x40
  }

  /** The candidate's first word against the needle's: a plain difference where there is no case to fold. */
  function WordDiffers(ci: bool, candidate: Word, nword: Word, take: nat): Mask
    requires |candidate| == |nword|
  {
    And(DiffLanes(ci && AnyUpper(candidate), candidate, nword), LanesBelow(|candidate|, take))
  }

  /** A byte outside the capitals' block is its own lower case. */
  lemma {:induction false} LowerStands(b: bv8, c: bv8)
    ensures b & 0x60 != 0x40 ==> (b != Fold(c) <==> Fold(b) != Fold(c))
    ensures Differs(true, b, Fold(c)) <==> Fold(b) != Fold(c)
    ensures Differs(false, b, c) <==> b != c
  {
  }

  lemma {:induction false} WordVerifies(ci: bool, hay: seq<bv8>, start: nat, needle: seq<bv8>, n: nat, w: nat)
    requires 1 <= n <= |needle| && RoundUpFits(needle, n, w) && start + w <= |hay|
    ensures |NeedleWord(ci, needle, n, w)| == w
    ensures !Any(WordDiffers(ci, hay[start..start + w], NeedleWord(ci, needle, n, w), Take(n, w)))
       <==> forall j :: 0 <= j < Take(n, w) ==> Same(ci, hay[start + j], needle[j])
  {
    hide Fold, Differs;
    var candidate, nword := hay[start..start + w], NeedleWord(ci, needle, n, w);
    var lanes := WordDiffers(ci, candidate, nword, Take(n, w));
    forall j | 0 <= j < Take(n, w) ensures lanes[j] <==> !Same(ci, hay[start + j], needle[j]) {
      LowerStands(candidate[j], needle[j]);
      DiffersFolded(candidate[j], nword[j]);
    }
    if forall j :: 0 <= j < Take(n, w) ==> Same(ci, hay[start + j], needle[j]) {
      assert forall j :: 0 <= j < w ==> !lanes[j];
    }
  }

  /** A start the sieve kept verified in full: the first word, and what is left of the needle. */
  method SieveVerify(ci: bool, hay: seq<bv8>, start: nat, needle: seq<bv8>, n: nat, nword: Word, w: nat)
    returns (matched: bool)
    requires IsWidth(w) && 1 <= n <= |needle| && RoundUpFits(needle, n, w)
    requires nword == NeedleWord(ci, needle, n, w) && start + RoundUp(n, w) <= |hay| && start + w <= |hay|
    ensures matched == Matches(ci, hay, needle, n, start)
  {
    hide WordDiffers, Same, Differs, NeedleWord, Any;
    RoundUpTakes(n, w);
    WordVerifies(ci, hay, start, needle, n, w);
    var take := Take(n, w);
    if First(WordDiffers(ci, hay[start..start + w], nword, take)) < |WordDiffers(ci, hay[start..start + w], nword,
        take)| {
      return false;
    }
    if take == n {
      return true;
    }
    var src, other := hay[start + take..], needle[take..];
    var agreed := Diff(ci, src, other, n - take, w);
    DiffIsLeast(ci, src, other, 0, n - take);
    RestMatches(ci, hay, start, needle, n, take);
    return agreed == n - take;
  }

  /** The needle stands where its first bytes do and the rest of it differs nowhere. */
  lemma {:induction false} RestMatches(ci: bool, hay: seq<bv8>, start: nat, needle: seq<bv8>, n: nat, take: nat)
    requires take <= n <= |needle| && start + n <= |hay|
    requires forall j :: 0 <= j < take ==> Same(ci, hay[start + j], needle[j])
    ensures DiffFrom(ci, hay[start + take..], needle[take..], 0, n - take) == n - take
       <==> Matches(ci, hay, needle, n, start)
  {
    hide Same, Differs;
    var src, other := hay[start + take..], needle[take..];
    DiffIsLeast(ci, src, other, 0, n - take);
    forall j | 0 <= j < n - take
      ensures Differs(ci, src[j], other[j]) <==> !Same(ci, hay[start + (take + j)], needle[take + j])
    {
      SameIs(ci, src[j], other[j]);
    }
    if Matches(ci, hay, needle, n, start) {
      forall j | 0 <= j < n - take ensures !Differs(ci, src[j], other[j]) {
        assert Same(ci, hay[start + (take + j)], needle[take + j]);
      }
    } else if DiffFrom(ci, src, other, 0, n - take) == n - take {
      forall j | 0 <= j < n ensures Same(ci, hay[start + j], needle[j]) {
        if j >= take {
          assert !Differs(ci, src[j - take], other[j - take]);
        }
      }
    }
  }

  /** Lanes of the haystack word at an offset that hold one needle byte, each lane a start read so far past it. */
  function SieveHit(ci: bool, hay: seq<bv8>, at: nat, row: nat, b: bv8, w: nat): Mask
    requires at + row + w <= |hay|
  {
    seq(w, i requires 0 <= i < w => !Differs(ci, hay[at + row..at + row + w][i], b))
  }

  /** The sieve's rows: offsets into the needle's first word, whatever cost chose them. */
  predicate RowsFit(rows: seq<nat>, take: nat) {
    |rows| >= 1 && forall r :: 0 <= r < |rows| ==> rows[r] < take
  }

  /** A start survives where every row holds its needle byte. */
  ghost predicate Survives(ci: bool, hay: seq<bv8>, at: nat, needle: seq<bv8>, rows: seq<nat>, k: nat, i: nat)
    requires k <= |rows| && forall r :: 0 <= r < |rows| ==> rows[r] < |needle|
  {
    forall r :: 0 <= r < k ==> at + i + rows[r] < |hay| && Same(ci, hay[at + i + rows[r]], needle[rows[r]])
  }

  /** The starts of a word the rows keep. */
  method Sieved(ci: bool, hay: seq<bv8>, at: nat, needle: seq<bv8>, rows: seq<nat>, w: nat) returns (survivors: Mask)
    requires RowsFit(rows, |needle|) && forall r :: 0 <= r < |rows| ==> at + rows[r] + w <= |hay|
    ensures |survivors| == w && forall i :: 0 <= i < w ==>
        (survivors[i] <==> Survives(ci, hay, at, needle, rows, |rows|, i))
  {
    hide Same, Differs;
    survivors := SieveHit(ci, hay, at, rows[0], needle[rows[0]], w);
    forall i | 0 <= i < w ensures survivors[i] <==> Survives(ci, hay, at, needle, rows, 1, i) {
      SameIs(ci, hay[at + rows[0] + i], needle[rows[0]]);
      assert at + i + rows[0] == at + rows[0] + i;
    }
    var row := 1;
    while row < |rows|
      invariant 1 <= row <= |rows| && |survivors| == w
      invariant forall i :: 0 <= i < w ==> (survivors[i] <==> Survives(ci, hay, at, needle, rows, row, i))
    {
      var hit := SieveHit(ci, hay, at, rows[row], needle[rows[row]], w);
      var both := And(survivors, hit);
      forall i | 0 <= i < w ensures both[i] <==> Survives(ci, hay, at, needle, rows, row + 1, i) {
        SameIs(ci, hay[at + rows[row] + i], needle[rows[row]]);
        assert at + i + rows[row] == at + rows[row] + i;
      }
      survivors := both;
      row := row + 1;
    }
  }

  /** Starts that are neither matches nor terminators are put behind together. */
  lemma {:induction false} PastMany(ci: bool, hay: seq<bv8>, needle: seq<bv8>, n: nat, at: nat, k: nat)
    requires n <= |needle| && Past(ci, hay, needle, n, at) && at + k <= |hay|
    requires forall s: nat :: at <= s < at + k ==> hay[s] != 0
    requires forall s: nat :: at <= s < at + k ==> !Matches(ci, hay, needle, n, s)
    ensures Past(ci, hay, needle, n, at + k)
  {
    hide Matches;
  }

  /** A start the rows do not keep is no match: its rows' bytes are among the needle's. */
  lemma {:induction false} MatchSurvives(ci: bool, hay: seq<bv8>, at: nat, needle: seq<bv8>, n: nat, rows: seq<nat>,
                                         i: nat)
    requires n <= |needle| && RowsFit(rows, n) && Matches(ci, hay, needle, n, at + i)
    ensures Survives(ci, hay, at, needle, rows, |rows|, i)
  {
    hide Same;
    forall r | 0 <= r < |rows|
      ensures at + i + rows[r] < |hay| && Same(ci, hay[at + i + rows[r]], needle[rows[r]])
    {
    }
  }

  lemma {:induction false} DropsFirst(m: Mask)
    requires First(m) < |m|
    ensures |DropFirst(m)| == |m| && First(DropFirst(m)) > First(m)
    ensures forall i :: 0 <= i < |m| ==> (DropFirst(m)[i] <==> m[i] && i != First(m))
  {
  }

  /** What the survivors of a word still to verify leave settled: every other start before its end is no match. */
  ghost predicate Verifying(ci: bool, hay: seq<bv8>, needle: seq<bv8>, n: nat, at: nat, end: nat, survivors: Mask)
    requires n <= |needle|
  {
    && end <= |survivors| && at + end <= |hay|
    && (forall i :: 0 <= i < |survivors| && survivors[i] ==> i < end)
    && (forall s: nat :: at <= s < at + end ==> hay[s] != 0)
    && (forall s: nat :: at <= s < at + end && !survivors[s - at] ==> !Matches(ci, hay, needle, n, s))
  }

  lemma {:induction false} VerifiedOut(ci: bool, hay: seq<bv8>, needle: seq<bv8>, n: nat, at: nat, end: nat,
                                       survivors: Mask)
    requires n <= |needle| && Past(ci, hay, needle, n, at) && Verifying(ci, hay, needle, n, at, end, survivors)
    ensures var k := if First(survivors) < |survivors| then First(survivors) else end;
      at + k <= |hay| && Past(ci, hay, needle, n, at + k)
  {
    hide Matches, Past;
    var k := if First(survivors) < |survivors| then First(survivors) else end;
    forall s: nat | at <= s < at + k ensures !Matches(ci, hay, needle, n, s) {
      assert !survivors[s - at];
    }
    PastMany(ci, hay, needle, n, at, k);
  }

  lemma {:induction false} DropVerified(ci: bool, hay: seq<bv8>, needle: seq<bv8>, n: nat, at: nat, end: nat,
                                        survivors: Mask)
    requires n <= |needle| && Verifying(ci, hay, needle, n, at, end, survivors) && First(survivors) < |survivors|
    requires !Matches(ci, hay, needle, n, at + First(survivors))
    ensures Verifying(ci, hay, needle, n, at, end, DropFirst(survivors))
  {
    hide Matches;
    DropsFirst(survivors);
  }

  /** The survivors verified one after another, from the first. */
  method Verified(ci: bool, hay: seq<bv8>, needle: seq<bv8>, n: nat, nword: Word, at: nat, end: nat, kept: Mask, w: nat)
    returns (found: bool, start: nat)
    requires IsWidth(w) && 1 <= n <= |needle| && RoundUpFits(needle, n, w) && nword == NeedleWord(ci, needle, n, w)
    requires |kept| == w && at + w - 1 + RoundUp(n, w) <= |hay|
    requires Past(ci, hay, needle, n, at) && Verifying(ci, hay, needle, n, at, end, kept)
    ensures found ==> Answers(ci, hay, needle, n, true, start)
    ensures !found ==> Past(ci, hay, needle, n, at + end)
  {
    hide Past, Answers, Matches, NeedleWord, DropFirst, Any;
    RoundUpTakes(n, w);
    var survivors := kept;
    while First(survivors) < w
      invariant |survivors| == w && Verifying(ci, hay, needle, n, at, end, survivors)
      decreases w - First(survivors)
    {
      var i := First(survivors);
      start := at + i;
      VerifiedOut(ci, hay, needle, n, at, end, survivors);
      var matched := SieveVerify(ci, hay, start, needle, n, nword, w);
      if matched {
        FoundAt(ci, hay, needle, n, start);
        return true, start;
      }
      DropsFirst(survivors);
      DropVerified(ci, hay, needle, n, at, end, survivors);
      survivors := DropFirst(survivors);
    }
    VerifiedOut(ci, hay, needle, n, at, end, survivors);
    return false, 0;
  }

  /** Where the first terminator of a word lies. */
  lemma {:induction false} EndsAt(hay: seq<bv8>, at: nat, w: nat)
    requires at + w <= |hay|
    ensures var end := First(HasZero(hay[at..at + w]));
      && |HasZero(hay[at..at + w])| == w && end <= w && (end < w ==> hay[at + end] == 0)
      && forall s: nat :: at <= s < at + end ==> hay[s] != 0
  {
    var ends := HasZero(hay[at..at + w]);
    forall s: nat | at <= s < at + First(ends) ensures hay[s] != 0 {
      assert !ends[s - at];
    }
  }

  /** One word of the search settled, or all its starts put behind. */
  method SieveWord(ci: bool, hay: seq<bv8>, at: nat, needle: seq<bv8>, n: nat, nword: Word, rows: seq<nat>, w: nat)
    returns (settled: bool, found: bool, start: nat)
    requires IsWidth(w) && 1 <= n <= |needle| && ZeroFree(needle, n) && RoundUpFits(needle, n, w)
    requires nword == NeedleWord(ci, needle, n, w) && RowsFit(rows, Take(n, w))
    requires at + w - 1 + RoundUp(n, w) <= |hay| && forall r :: 0 <= r < |rows| ==> at + rows[r] + w <= |hay|
    requires Past(ci, hay, needle, n, at)
    ensures settled ==> Answers(ci, hay, needle, n, found, start)
    ensures !settled ==> at + w <= |hay| && Past(ci, hay, needle, n, at + w)
  {
    hide Past, Answers, Matches, NeedleWord, ZeroFree, Same;
    RoundUpTakes(n, w);
    var ends := HasZero(hay[at..at + w]);
    var end := First(ends);
    var survivors := Sieved(ci, hay, at, needle, rows, w);
    var kept := And(survivors, Before(ends));
    EndsAt(hay, at, w);
    SieveKeeps(ci, hay, at, needle, n, rows, survivors, kept, end, w);
    found, start := Verified(ci, hay, needle, n, nword, at, end, kept, w);
    settled := found || end != w;
    if !found && end != w {
      EndedAt(ci, hay, needle, n, at + end);
      start := 0;
    }
  }

  lemma {:induction false} SieveKeeps(ci: bool, hay: seq<bv8>, at: nat, needle: seq<bv8>, n: nat, rows: seq<nat>,
                                      survivors: Mask, kept: Mask, end: nat, w: nat)
    requires 1 <= n <= |needle| && RowsFit(rows, n) && at + w <= |hay| && |survivors| == |kept| == w
    requires forall i :: 0 <= i < w ==> (survivors[i] <==> Survives(ci, hay, at, needle, rows, |rows|, i))
    requires forall i :: 0 <= i < w ==> (kept[i] <==> survivors[i] && i < end)
    requires end <= w && forall s: nat :: at <= s < at + end ==> hay[s] != 0
    ensures Verifying(ci, hay, needle, n, at, end, kept)
  {
    hide Same, Survives, Matches;
    forall s: nat | at <= s < at + end && !kept[s - at] ensures !Matches(ci, hay, needle, n, s) {
      assert !Survives(ci, hay, at, needle, rows, |rows|, s - at);
      if Matches(ci, hay, needle, n, at + (s - at)) {
        MatchSurvives(ci, hay, at, needle, n, rows, s - at);
      }
    }
  }

  // ---- the search -------------------------------------------------------------------------------------------

  function MaxRow(rows: seq<nat>): nat
    requires |rows| >= 1
    ensures forall r :: 0 <= r < |rows| ==> rows[r] <= MaxRow(rows)
    ensures MaxRow(rows) in rows
  {
    if |rows| == 1 then rows[0]
    else
      var rest := MaxRow(rows[..|rows| - 1]);
      if rows[|rows| - 1] > rest then rows[|rows| - 1] else rest
  }

  /** How far past a word's offset the search reads while it settles the starts in it. */
  function Reach(rows: seq<nat>, n: nat, w: nat): nat
    requires |rows| >= 1 && IsWidth(w)
  {
    var tail := if n > Take(n, w) then RoundUp(n - Take(n, w), w) else 0;
    var verify := (w - 1) + Take(n, w) + tail;
    if MaxRow(rows) + w > verify then MaxRow(rows) + w else verify
  }

  /** It is the farthest of what any row reads and what a verify of the word's last start reads. */
  lemma {:induction false} ReachIs(rows: seq<nat>, n: nat, w: nat)
    requires IsWidth(w) && n >= 1 && |rows| >= 1
    ensures var reach, verify := Reach(rows, n, w), w - 1 + if n > w then RoundUp(n, w) else n;
      && verify <= reach && (forall r :: 0 <= r < |rows| ==> rows[r] + w <= reach)
      && (reach == verify || exists r :: 0 <= r < |rows| && reach == rows[r] + w)
  {
    RoundUpTakes(n, w);
    var r :| 0 <= r < |rows| && rows[r] == MaxRow(rows);
  }

  /** Of the words whose every start is safe, each word's reads stay inside the haystack. */
  lemma {:induction false} WordInside(cap: nat, rows: seq<nat>, n: nat, w: nat, safe: nat, at: nat)
    requires IsWidth(w) && n >= 1 && RowsFit(rows, Take(n, w))
    requires safe == (if cap >= Reach(rows, n, w) then cap - Reach(rows, n, w) + 1 else 0) && at + w <= safe
    ensures at + w - 1 + RoundUp(n, w) <= cap && forall r :: 0 <= r < |rows| ==> at + rows[r] + w <= cap
  {
    RoundUpTakes(n, w);
  }

  /** The search by the sieve: the words whose starts are all safe, and the rest one start at a time. */
  method FindSieve(ci: bool, hay: seq<bv8>, needle: seq<bv8>, n: nat, rows: seq<nat>, w: nat)
    returns (found: bool, at: nat)
    requires IsWidth(w) && 1 <= n <= |needle| && n <= |hay| && ZeroFree(needle, n) && RoundUpFits(needle, n, w)
    requires RowsFit(rows, Take(n, w))
    ensures Answers(ci, hay, needle, n, found, at)
  {
    hide Past, Answers, Occurs, ZeroFree, NeedleWord, Reach, RoundUpFits;
    var nword := NeedleWord(ci, needle, n, w);
    var reach := Reach(rows, n, w);
    var safe := if |hay| >= reach then |hay| - reach + 1 else 0;
    var left := safe / w;
    var walked: nat := 0;
    PastNone(ci, hay, needle, n);
    WordsBelow(safe, w);
    while left > 0
      invariant left >= 0 && walked + left * w <= safe && Past(ci, hay, needle, n, walked)
      decreases left
    {
      OneLess(left, w);
      WordInside(|hay|, rows, n, w, safe, walked);
      var settled, start;
      settled, found, start := SieveWord(ci, hay, walked, needle, n, nword, rows, w);
      if settled {
        return found, start;
      }
      walked, left := walked + w, left - 1;
    }
    found, at := FindBytes(ci, hay, needle, n, walked);
  }

  lemma {:induction false} WordsBelow(safe: nat, w: nat)
    requires w >= 1
    ensures safe / w >= 0 && safe / w * w <= safe
  {
  }

  lemma {:induction false} OneLess(left: nat, w: nat)
    requires left >= 1
    ensures left * w == (left - 1) * w + w && (left - 1) * w >= 0
  {
  }

  // ---- needles of one or two bytes --------------------------------------------------------------------------

  /** The lanes whose byte is the needle's first and whose next lane is its second, if it has one. */
  function ChainLanes(hay: seq<bv8>, at: nat, needle: seq<bv8>, n: nat, w: nat, next: Word): Mask
    requires 1 <= n <= 2 && n <= |needle| && at + w <= |hay| && |next| == w
  {
    seq(w, i requires 0 <= i < w => hay[at..at + w][i] == needle[0] && (n == 1 || next[i] == needle[1]))
  }

  /** The word one byte along, loaded where the hardware loads any address and derived from the word in hand where it
      does not, is the same word. */
  lemma {:induction false} NextIsLoad(hay: seq<bv8>, at: nat, w: nat)
    requires w >= 1 && at + w < |hay|
    ensures WordNext(hay[at..at + w], hay[at + w]) == hay[at + 1..at + 1 + w]
  {
  }

  lemma {:induction false} ChainIs(hay: seq<bv8>, at: nat, needle: seq<bv8>, n: nat, w: nat, next: Word)
    requires 1 <= n <= 2 && n <= |needle| && at + w + n - 1 <= |hay| && |next| == w
    requires n == 2 ==> next == hay[at + 1..at + 1 + w]
    ensures |ChainLanes(hay, at, needle, n, w, next)| == w
    ensures forall s: nat :: at <= s < at + w ==>
      (ChainLanes(hay, at, needle, n, w, next)[s - at] <==> Matches(false, hay, needle, n, s))
  {
    forall s: nat | at <= s < at + w
      ensures ChainLanes(hay, at, needle, n, w, next)[s - at] <==> Matches(false, hay, needle, n, s)
    {
      if n == 2 {
        assert next[s - at] == hay[s + 1];
        assert Matches(false, hay, needle, n, s)
            <==> Same(false, hay[s + 0], needle[0]) && Same(false, hay[s + 1], needle[1]);
      } else {
        assert Matches(false, hay, needle, n, s) <==> Same(false, hay[s + 0], needle[0]);
      }
    }
  }

  /** One word of the chain: its first start before a terminator that the needle stands at, if any. */
  method ChainWord(hay: seq<bv8>, at: nat, needle: seq<bv8>, n: nat, fastUnaligned: bool, w: nat)
    returns (settled: bool, found: bool, start: nat)
    requires w >= 1 && 1 <= n <= 2 && n <= |needle| && ZeroFree(needle, n) && at + w + n - 1 <= |hay|
    requires Past(false, hay, needle, n, at)
    ensures settled ==> Answers(false, hay, needle, n, found, start)
    ensures !settled ==> Past(false, hay, needle, n, at + w)
  {
    hide Past, Answers, Matches, ZeroFree, ChainLanes, And, Before, HasZero, WordNext;
    var loaded := hay[at..at + w];
    var next := loaded;
    if n == 2 {
      NextIsLoad(hay, at, w);
      next := if fastUnaligned then hay[at + 1..at + 1 + w] else WordNext(loaded, hay[at + w]);
    }
    var end := HasZero(loaded);
    EndsAt(hay, at, w);
    ChainIs(hay, at, needle, n, w, next);
    var lanes := ChainLanes(hay, at, needle, n, w, next);
    BeforeAt(end);
    var startsHere := And(lanes, Before(end));
    var k := First(startsHere);
    ChainPast(hay, at, needle, n, w, lanes, Before(end), First(end));
    settled, found, start := k < w || First(end) < w, k < w, 0;
    if k < w {
      start := at + k;
      FoundAt(false, hay, needle, n, start);
    } else if First(end) < w {
      EndedAt(false, hay, needle, n, at + First(end));
    }
  }

  lemma {:induction false} BeforeAt(m: Mask)
    ensures |Before(m)| == |m| && forall i :: 0 <= i < |m| ==> (Before(m)[i] <==> i < First(m))
  {
  }

  lemma {:induction false} ChainPast(hay: seq<bv8>, at: nat, needle: seq<bv8>, n: nat, w: nat, lanes: Mask,
                                     before: Mask,
                                     end: nat)
    requires n <= |needle| && at + w <= |hay| && |lanes| == |before| == w && end <= w
    requires Past(false, hay, needle, n, at)
    requires forall s: nat :: at <= s < at + end ==> hay[s] != 0
    requires forall s: nat :: at <= s < at + w ==> (lanes[s - at] <==> Matches(false, hay, needle, n, s))
    requires forall i :: 0 <= i < w ==> (before[i] <==> i < end)
    ensures var k := First(And(lanes, before));
      if k < w then Past(false, hay, needle, n, at + k) && Matches(false, hay, needle, n, at + k)
      else Past(false, hay, needle, n, at + end)
  {
    hide Past, Matches;
    var both := And(lanes, before);
    var k := First(both);
    var m := if k < w then k else end;
    forall s: nat | at <= s < at + m ensures !Matches(false, hay, needle, n, s) {
      assert !both[s - at];
    }
    PastMany(false, hay, needle, n, at, m);
    if k < w {
      assert both[k] && lanes[(at + k) - at];
    }
  }

  /** The whole search by the chain, from any alignment. */
  method FindShort(hay: seq<bv8>, needle: seq<bv8>, n: nat, past: nat, fastUnaligned: bool, w: nat)
    returns (found: bool, at: nat)
    requires IsWidth(w) && past < w && 1 <= n <= 2 && n <= |needle| && n <= |hay| && ZeroFree(needle, n)
    ensures Answers(false, hay, needle, n, found, at)
  {
    hide Past, Answers, Matches, ZeroFree;
    var starts := |hay| - n + 1;
    var span := w + (n - 1);
    var safe := if |hay| >= span then |hay| - span + 1 else 0;
    var reach := if safe > starts then starts else safe;
    var lead := HeadBytes(past, reach, w);
    var walked: nat := 0;
    PastNone(false, hay, needle, n);
    while walked < lead
      invariant walked <= lead && Past(false, hay, needle, n, walked)
      decreases lead - walked
    {
      if hay[walked] == 0 {
        EndedAt(false, hay, needle, n, walked);
        return false, 0;
      }
      ShortHit(hay, needle, n, walked);
      if hay[walked] == needle[0] && (n == 1 || hay[walked + 1] == needle[1]) {
        FoundAt(false, hay, needle, n, walked);
        return true, walked;
      }
      PastOne(false, hay, needle, n, walked);
      walked := walked + 1;
    }
    var left := (reach - lead) / w;
    WordsBelow(reach - lead, w);
    while left > 0
      invariant left >= 0 && walked + left * w <= reach && Past(false, hay, needle, n, walked)
      decreases left
    {
      OneLess(left, w);
      var settled, start;
      settled, found, start := ChainWord(hay, walked, needle, n, fastUnaligned, w);
      if settled {
        return found, start;
      }
      walked, left := walked + w, left - 1;
    }
    found, at := FindBytes(false, hay, needle, n, walked);
  }

  lemma {:induction false} ShortHit(hay: seq<bv8>, needle: seq<bv8>, n: nat, s: nat)
    requires 1 <= n <= 2 && n <= |needle| && s + n <= |hay|
    ensures Matches(false, hay, needle, n, s) <==> hay[s] == needle[0] && (n == 1 || hay[s + 1] == needle[1])
  {
    if n == 2 {
      assert Matches(false, hay, needle, n, s)
          <==> Same(false, hay[s + 0], needle[0]) && Same(false, hay[s + 1], needle[1]);
    } else {
      assert Matches(false, hay, needle, n, s) <==> Same(false, hay[s + 0], needle[0]);
    }
  }

  /** The first place a needle stands in a haystack with no terminator before it, whatever rows the sieve is given and
      whichever way the search goes about it. A haystack is exactly the bytes its bound allows, so that no read passes
      it; a needle is readable to a whole word. */
  method Find(ci: bool, hay: seq<bv8>, needle: seq<bv8>, n: nat, rows: seq<nat>, chainMost: nat, past: nat,
              fastUnaligned: bool, w: nat)
    returns (found: bool, at: nat)
    requires IsWidth(w) && past < w && n <= |needle| && ZeroFree(needle, n) && RoundUpFits(needle, n, w)
    requires n >= 1 ==> RowsFit(rows, Take(n, w))
    ensures Answers(ci, hay, needle, n, found, at)
  {
    hide Past, Answers, ZeroFree, RoundUpFits;
    if n == 0 {
      PastNone(ci, hay, needle, n);
      FoundAt(ci, hay, needle, n, 0);
      return true, 0;
    }
    if n > |hay| {
      PastNone(ci, hay, needle, n);
      RanOut(ci, hay, needle, n, 0);
      return false, 0;
    }
    if n <= 2 && !ci && |hay| <= chainMost {
      found, at := FindShort(hay, needle, n, past, fastUnaligned, w);
      return;
    }
    found, at := FindSieve(ci, hay, needle, n, rows, w);
  }

  // ---- the rows a cost chooses ------------------------------------------------------------------------------

  /** One row chosen: the first of the cheapest offsets not yet taken. */
  method PickRow(ci: bool, needle: seq<bv8>, limit: nat, cost: bv8 -> nat, taken: seq<nat>) returns (best: nat)
    requires 1 <= limit <= |needle|
    ensures best < limit && Cheapest(ci, needle, limit, cost, taken, best)
  {
    hide CostAt;
    best := 0;
    var bestCost := 255;
    var offset := 0;
    while offset < limit
      invariant 0 <= offset <= limit && best < limit && bestCost <= 255
      invariant forall o: nat :: o < offset && o !in taken ==> CostAt(ci, needle, cost, o) >= bestCost
      invariant bestCost == 255 ==> best == 0
      invariant bestCost < 255 ==> best !in taken && CostAt(ci, needle, cost, best) == bestCost
      invariant bestCost < 255 ==> forall o: nat :: o < best && o !in taken ==> CostAt(ci, needle, cost, o) > bestCost
    {
      var here := CostAt(ci, needle, cost, offset);
      if offset !in taken && here < bestCost {
        best, bestCost := offset, here;
      }
      offset := offset + 1;
    }
  }

  /** The rows the sieve tests: of the needle's first word, each the first of the cheapest not yet taken. A cost of 255
      is none a row is chosen for. */
  method PickRows(ci: bool, needle: seq<bv8>, n: nat, cost: bv8 -> nat, most: nat, w: nat) returns (rows: seq<nat>)
    requires w >= 1 && 1 <= n <= |needle| && most >= 1
    ensures RowsFit(rows, Take(n, w)) && |rows| == (if most < Take(n, w) then most else Take(n, w))
    ensures forall r :: 0 <= r < |rows| ==> Cheapest(ci, needle, Take(n, w), cost, rows[..r], rows[r])
  {
    hide Cheapest;
    var limit := Take(n, w);
    var want := if limit > most then most else limit;
    rows := [];
    while |rows| < want
      invariant |rows| <= want && (forall r :: 0 <= r < |rows| ==> rows[r] < limit)
      invariant forall r :: 0 <= r < |rows| ==> Cheapest(ci, needle, limit, cost, rows[..r], rows[r])
      decreases want - |rows|
    {
      var best := PickRow(ci, needle, limit, cost, rows);
      assert forall r :: 0 <= r <= |rows| ==> (rows + [best])[..r] == rows[..r];
      assert rows[..|rows|] == rows;
      rows := rows + [best];
    }
  }

  /** A needle byte's cost, folded where the search folds. */
  function CostAt(ci: bool, needle: seq<bv8>, cost: bv8 -> nat, offset: nat): nat
    requires offset < |needle|
  {
    cost(if ci && 0x41 <= needle[offset] <= 0x5A then needle[offset] | 0x20 else needle[offset])
  }

  /** With case folded it is the lower case's cost, which every byte that folds to it shares. */
  lemma {:induction false} CostFolds(ci: bool, needle: seq<bv8>, cost: bv8 -> nat, offset: nat)
    requires offset < |needle|
    ensures CostAt(ci, needle, cost, offset) == cost(if ci then Fold(needle[offset]) else needle[offset])
  {
  }

  /** The first of the cheapest offsets not taken, and the first of all where every other costs 255. */
  ghost predicate Cheapest(ci: bool, needle: seq<bv8>, limit: nat, cost: bv8 -> nat, taken: seq<nat>, row: nat)
    requires limit <= |needle|
  {
    if exists o: nat :: o < limit && o !in taken && CostAt(ci, needle, cost, o) < 255 then
      && row < limit && row !in taken
      && (forall o: nat :: o < limit && o !in taken ==> CostAt(ci, needle, cost, row) <= CostAt(ci, needle, cost, o))
      && (forall o: nat :: o < row && o !in taken ==> CostAt(ci, needle, cost, row) < CostAt(ci, needle, cost, o))
    else row == 0
  }

  lemma {:induction false} RoundUpGrows(a: nat, b: nat, w: nat)
    requires IsWidth(w) && a <= b
    ensures RoundUp(a, w) <= RoundUp(b, w)
  {
    if w == 2 {
      assert a == 2 * (a / 2) + a % 2 && b == 2 * (b / 2) + b % 2;
    } else if w == 4 {
      assert a == 4 * (a / 4) + a % 4 && b == 4 * (b / 4) + b % 4;
    } else {
      assert a == 8 * (a / 8) + a % 8 && b == 8 * (b / 8) + b % 8;
    }
  }

  /** The search as its entry makes it: the needle measured where its length is not given, and the rows chosen by
      cost. */
  method FindCore(ci: bool, hay: seq<bv8>, needle: seq<bv8>, needleLen: nat, otherCap: nat, cost: bv8 -> nat, most: nat,
                  chainMost: nat, past: nat, needlePast: nat, fastUnaligned: bool, w: nat)
    returns (found: bool, at: nat)
    requires IsWidth(w) && past < w && needlePast < w && most >= 1
    requires RoundUpFits(needle, needleLen, w) && needleLen <= |needle| && ZeroFree(needle, needleLen)
    requires needleLen == 0 ==> (
      var lead := HeadBytes(needlePast, otherCap, w);
      otherCap <= |needle| && RoundUp(otherCap, w) <= |needle| && lead + RoundUp(otherCap - lead, w) <= |needle|)
    ensures Answers(ci, hay, needle, if needleLen != 0 then needleLen else ZeroFrom(needle, 0, otherCap), found, at)
  {
    hide Answers, Occurs, RowsFit;
    var nlen := needleLen;
    if needleLen == 0 {
      nlen := Len(needle, otherCap, needlePast, w);
    }
    if needleLen == 0 {
      RoundUpGrows(nlen, otherCap, w);
    }
    var rows := [];
    if nlen != 0 {
      rows := PickRows(ci, needle, nlen, cost, most, w);
    }
    found, at := Find(ci, hay, needle, nlen, rows, chainMost, past, fastUnaligned, w);
  }
}
