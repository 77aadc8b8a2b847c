/** Walks over two strings a word at a time, told of the same walks a byte at a time. */
module CellularumCompare {
  import opened WordArithmetic
  import opened CellularumLanes

  datatype Step = Go | Yes | No

  /** One byte pair compared, and whether the walk continues. */
  function StepByte(ci: bool, endWins: bool, left: bv8, right: bv8): Step {
    if left == 0 then
      if !Differs(ci, left, right) then Yes else if endWins then Yes else No
    else if Differs(ci, left, right) then No
    else Go
  }

  /** The byte walk: the first pair that settles it, and at the bound whatever a tie is worth. */
  function AgreeFrom(ci: bool, endWins: bool, a: seq<bv8>, b: seq<bv8>, i: nat, cap: nat): bool
    requires i <= cap <= |a| && cap <= |b|
    decreases cap - i
  {
    if i == cap then endWins
    else match StepByte(ci, endWins, a[i], b[i])
      case Yes => true
      case No => false
      case Go => AgreeFrom(ci, endWins, a, b, i + 1, cap)
  }

  /** A place that settles the walk: the left string ends at it, or the two differ. */
  predicate Settles(ci: bool, a: seq<bv8>, b: seq<bv8>, k: nat)
    requires k < |a| && k < |b|
  {
    a[k] == 0 || Differs(ci, a[k], b[k])
  }

  /** The first place from `i` on that settles it, the bound where none does. */
  predicate FirstSettled(ci: bool, a: seq<bv8>, b: seq<bv8>, i: nat, k: nat, cap: nat)
    requires cap <= |a| && cap <= |b|
  {
    i <= k <= cap && (k < cap ==> Settles(ci, a, b, k)) && forall j :: i <= j < k ==> !Settles(ci, a, b, j)
  }

  /** What two strings agree by: at the first place that settles it the left one ends, and either a tie counts or the
      right one ends with it; and where none does before the bound, whether a tie counts. */
  lemma {:induction false} AgreeIs(ci: bool, endWins: bool, a: seq<bv8>, b: seq<bv8>, i: nat, k: nat, cap: nat)
    requires i <= cap <= |a| && cap <= |b| && FirstSettled(ci, a, b, i, k, cap)
    ensures AgreeFrom(ci, endWins, a, b, i, cap)
         == if k == cap then endWins else a[k] == 0 && (endWins || !Differs(ci, a[k], b[k]))
    decreases k - i
  {
    hide Differs;
    if i < k {
      assert !Settles(ci, a, b, i);
      AgreeIs(ci, endWins, a, b, i + 1, k, cap);
    }
  }

  /** A word's verdict: true where its first zero precedes its first difference, or ties with it and ties count. */
  function AgreeLanes(term: Mask, diff: Mask, endWins: bool): bool {
    if endWins then First(term) <= First(diff) else First(term) < First(diff)
  }

  /** Pairs that neither end nor differ are walked past. */
  lemma {:induction false} AgreeSkips(ci: bool, endWins: bool, a: seq<bv8>, b: seq<bv8>, i: nat, n: nat, cap: nat)
    requires i + n <= cap <= |a| && cap <= |b|
    requires forall j :: i <= j < i + n ==> a[j] != 0 && !Differs(ci, a[j], b[j])
    ensures AgreeFrom(ci, endWins, a, b, i, cap) == AgreeFrom(ci, endWins, a, b, i + n, cap)
    decreases n
  {
    if n > 0 {
      AgreeSkips(ci, endWins, a, b, i + 1, n - 1, cap);
    }
  }

  /** A word's lanes, those within the bound, settle the walk where one ends or differs, and are walked past where none
      does. */
  lemma {:induction false} AgreeWord(ci: bool, endWins: bool, a: seq<bv8>, b: seq<bv8>, at: nat, w: nat, n: nat,
                                     cap: nat)
    requires 1 <= n <= w && at + n <= cap <= |a| && cap <= |b| && at + w <= |a| && at + w <= |b|
    ensures var term, diff := TermAt(a, at, w, n), DiffAt(ci, a, b, at, w, n);
      && (Any(term) || Any(diff) ==> AgreeFrom(ci, endWins, a, b, at, cap) == AgreeLanes(term, diff, endWins))
      && (!Any(term) && !Any(diff) ==>
            AgreeFrom(ci, endWins, a, b, at, cap) == AgreeFrom(ci, endWins, a, b, at + n, cap))
  {
    hide Differs, TermAt, DiffAt;
    LanesAt(ci, a, b, at, w, n);
    var term, diff := TermAt(a, at, w, n), DiffAt(ci, a, b, at, w, n);
    var e, d := First(term), First(diff);
    var k := if e < d then e else d;
    var skip := if k < n then k else n;
    forall j | at <= j < at + skip ensures a[j] != 0 && !Differs(ci, a[j], b[j]) {
      assert !term[j - at] && !diff[j - at];
    }
    AgreeSkips(ci, endWins, a, b, at, skip, cap);
    if Any(term) || Any(diff) {
      assert k < n && (term[k] <==> a[at + k] == 0) && (diff[k] <==> Differs(ci, a[at + k], b[at + k]));
    }
  }

  /** A word that carries a terminator and no difference ends both strings, whatever a tie is worth. */
  lemma {:induction false} EndsTogether(term: Mask, diff: Mask, endWins: bool)
    requires Any(term) && !Any(diff) && |term| == |diff|
    ensures AgreeLanes(term, diff, endWins)
  {
  }

  /** One run of whole words, up to the short word or the first word that settles the walk. */
  method AgreeRun(ci: bool, src: seq<bv8>, other: seq<bv8>, from: nat, full: nat, ghost cap: nat, endWins: bool,
                  level: bool, w: nat)
    returns (settled: bool, agrees: bool)
    requires w >= 1 && from <= full <= cap <= |src| && cap <= |other| && (full - from) % w == 0
    ensures settled ==> agrees == AgreeFrom(ci, endWins, src, other, from, cap)
    ensures !settled ==>
      AgreeFrom(ci, endWins, src, other, from, cap) == AgreeFrom(ci, endWins, src, other, full, cap)
  {
    hide AgreeFrom, AgreeLanes, TermAt, DiffAt, HasZero, DiffLanes;
    settled, agrees := false, false;
    var at := from;
    ghost var left := (full - from) / w;
    while at != full && !settled
      invariant from <= at <= full && full - at == left * w && left >= 0
      invariant settled ==> agrees == AgreeFrom(ci, endWins, src, other, from, cap)
      invariant !settled ==>
        AgreeFrom(ci, endWins, src, other, from, cap) == AgreeFrom(ci, endWins, src, other, at, cap)
      decreases left, !settled
    {
      WordFits(left, w);
      var srcWord, otherWord := src[at..at + w], other[at..at + w];
      var term, diff := HasZero(srcWord), DiffLanes(ci, srcWord, otherWord);
      LanesAt(ci, src, other, at, w, w);
      AgreeWord(ci, endWins, src, other, at, w, w, cap);
      if level && Any(term) && !Any(diff) {
        EndsTogether(term, diff, endWins);
        settled, agrees := true, true;
      } else if Any(term) || Any(diff) {
        settled, agrees := true, AgreeLanes(term, diff, endWins);
      } else {
        at, left := at + w, left - 1;
      }
    }
  }

  lemma {:induction false} WordFits(left: int, w: nat)
    requires left * w > 0 && w >= 1
    ensures left >= 1 && left * w >= w && (left - 1) * w == left * w - w
  {
    if left >= 1 {
      Times(left, w);
    } else if left <= -1 {
      Times(-left, w);
    }
  }

  /** The byte walk's answer reached by words, with `level` telling that both sides are aligned. */
  method Agree(ci: bool, src: seq<bv8>, other: seq<bv8>, cap: nat, endWins: bool, level: bool, w: nat)
    returns (agrees: bool)
    requires IsWidth(w) && RoundUp(cap, w) <= |src| && RoundUp(cap, w) <= |other|
    ensures agrees == AgreeFrom(ci, endWins, src, other, 0, cap)
    ensures forall k: nat :: FirstSettled(ci, src, other, 0, k, cap) ==>
        agrees == if k == cap then endWins else src[k] == 0 && (endWins || !Differs(ci, src[k], other[k]))
  {
    hide AgreeFrom, AgreeLanes, TermAt, DiffAt, Settles, Differs;
    forall k: nat | FirstSettled(ci, src, other, 0, k, cap)
      ensures k <= cap && AgreeFrom(ci, endWins, src, other, 0, cap)
           == if k == cap then endWins else src[k] == 0 && (endWins || !Differs(ci, src[k], other[k]))
    {
      AgreeIs(ci, endWins, src, other, 0, k, cap);
    }
    var rest := cap % w;
    var full := cap - rest;
    var settled;
    settled, agrees := AgreeRun(ci, src, other, 0, full, cap, endWins, level, w);
    if settled { return; }
    if rest != 0 {
      var term, diff := TermAt(src, full, w, rest), DiffAt(ci, src, other, full, w, rest);
      AgreeWord(ci, endWins, src, other, full, w, rest, cap);
      if Any(term) || Any(diff) {
        return AgreeLanes(term, diff, endWins);
      }
    }
    AgreeAtCap(ci, endWins, src, other, cap);
    return endWins;
  }

  lemma {:induction false} AgreeAtCap(ci: bool, endWins: bool, a: seq<bv8>, b: seq<bv8>, cap: nat)
    requires cap <= |a| && cap <= |b|
    ensures AgreeFrom(ci, endWins, a, b, cap, cap) == endWins
  {
  }

  // ---- one word's step --------------------------------------------------------------------------------------

  /** One word pair compared, and whether the walk continues. */
  function StepWord(ci: bool, endWins: bool, left: Word, right: Word): Step
    requires |left| == |right|
  {
    var term, diff := HasZero(left), DiffLanes(ci, left, right);
    if First(term) == |left| && First(diff) == |left| then Go
    else if AgreeLanes(term, diff, endWins) then Yes
    else No
  }

  function StepBytes(ci: bool, endWins: bool, left: Word, right: Word, i: nat): Step
    requires i <= |left| == |right|
    decreases |left| - i
  {
    if i == |left| then Go
    else match StepByte(ci, endWins, left[i], right[i])
      case Go => StepBytes(ci, endWins, left, right, i + 1)
      case settled => settled
  }

  /** A word's step is its bytes' steps, one after another. */
  lemma {:induction false} StepWordIsBytes(ci: bool, endWins: bool, left: Word, right: Word, i: nat)
    requires i <= |left| == |right|
    requires forall j :: 0 <= j < i ==> left[j] != 0 && !Differs(ci, left[j], right[j])
    ensures StepBytes(ci, endWins, left, right, i) == StepWord(ci, endWins, left, right)
    decreases |left| - i
  {
    hide Differs;
    var term, diff := HasZero(left), DiffLanes(ci, left, right);
    assert First(term) >= i && First(diff) >= i;
    if i < |left| {
      assert (term[i] <==> left[i] == 0) && (diff[i] <==> Differs(ci, left[i], right[i]));
      if StepByte(ci, endWins, left[i], right[i]) == Go {
        StepWordIsBytes(ci, endWins, left, right, i + 1);
      }
    }
  }

  // ---- the first difference and the terminator --------------------------------------------------------------

  /** The first byte two strings differ at, the bound where they do not: a terminator ends nothing. */
  function DiffFrom(ci: bool, a: seq<bv8>, b: seq<bv8>, i: nat, cap: nat): nat
    requires i <= cap <= |a| && cap <= |b|
    decreases cap - i
  {
    if i == cap then cap else if Differs(ci, a[i], b[i]) then i else DiffFrom(ci, a, b, i + 1, cap)
  }

  lemma {:induction false} DiffSkips(ci: bool, a: seq<bv8>, b: seq<bv8>, i: nat, n: nat, cap: nat)
    requires i + n <= cap <= |a| && cap <= |b|
    requires forall j :: i <= j < i + n ==> !Differs(ci, a[j], b[j])
    ensures DiffFrom(ci, a, b, i, cap) == DiffFrom(ci, a, b, i + n, cap)
    decreases n
  {
    if n > 0 {
      DiffSkips(ci, a, b, i + 1, n - 1, cap);
    }
  }

  /** It is the least place the two differ at. */
  lemma {:induction false} DiffIsLeast(ci: bool, a: seq<bv8>, b: seq<bv8>, i: nat, cap: nat)
    requires i <= cap <= |a| && cap <= |b|
    ensures i <= DiffFrom(ci, a, b, i, cap) <= cap
    ensures forall j :: i <= j < DiffFrom(ci, a, b, i, cap) ==> !Differs(ci, a[j], b[j])
    ensures DiffFrom(ci, a, b, i, cap) < cap ==>
        Differs(ci, a[DiffFrom(ci, a, b, i, cap)], b[DiffFrom(ci, a, b, i, cap)])
    decreases cap - i
  {
    hide Differs;
    if i < cap && !Differs(ci, a[i], b[i]) {
      DiffIsLeast(ci, a, b, i + 1, cap);
    }
  }

  lemma {:induction false} DiffWord(ci: bool, a: seq<bv8>, b: seq<bv8>, at: nat, w: nat, n: nat, cap: nat)
    requires 1 <= n <= w && at + n <= cap <= |a| && cap <= |b| && at + w <= |a| && at + w <= |b|
    ensures var diff := DiffAt(ci, a, b, at, w, n);
      DiffFrom(ci, a, b, at, cap) == if First(diff) < w then at + First(diff) else DiffFrom(ci, a, b, at + n, cap)
    ensures |DiffAt(ci, a, b, at, w, n)| == w
  {
    hide Differs, TermAt, DiffAt;
    LanesAt(ci, a, b, at, w, n);
    var diff := DiffAt(ci, a, b, at, w, n);
    var k := First(diff);
    var skip := if k < n then k else n;
    forall j | at <= j < at + skip ensures !Differs(ci, a[j], b[j]) {
      assert !diff[j - at];
    }
    DiffSkips(ci, a, b, at, skip, cap);
    if k < w {
      assert k < n && Differs(ci, a[at + k], b[at + k]);
    }
  }

  /** The first difference: whole words while they agree, and a masked short word at the end. */
  method Diff(ci: bool, src: seq<bv8>, other: seq<bv8>, cap: nat, w: nat) returns (at: nat)
    requires IsWidth(w) && RoundUp(cap, w) <= |src| && RoundUp(cap, w) <= |other|
    ensures at == DiffFrom(ci, src, other, 0, cap)
    ensures at <= cap && (forall j :: 0 <= j < at ==> !Differs(ci, src[j], other[j]))
    ensures at < cap ==> Differs(ci, src[at], other[at])
  {
    hide DiffFrom, DiffAt, DiffLanes, Differs;
    DiffIsLeast(ci, src, other, 0, cap);
    var rest := cap % w;
    var full := cap - rest;
    at := 0;
    ghost var left := full / w;
    WordsOf(cap, w);
    while at != full
      invariant 0 <= at <= full && full - at == left * w && left >= 0
      invariant DiffFrom(ci, src, other, 0, cap) == DiffFrom(ci, src, other, at, cap)
      decreases left
    {
      WordFits(left, w);
      LanesAt(ci, src, other, at, w, w);
      DiffWord(ci, src, other, at, w, w, cap);
      var lanes := DiffLanes(ci, src[at..at + w], other[at..at + w]);
      if First(lanes) < w {
        return at + First(lanes);
      }
      at, left := at + w, left - 1;
    }
    if rest != 0 {
      var lanes := DiffAt(ci, src, other, at, w, rest);
      DiffWord(ci, src, other, at, w, rest, cap);
      if First(lanes) < w {
        return at + First(lanes);
      }
    }
    DiffAtCap(ci, src, other, cap);
    return cap;
  }

  lemma {:induction false} DiffAtCap(ci: bool, a: seq<bv8>, b: seq<bv8>, cap: nat)
    requires cap <= |a| && cap <= |b|
    ensures DiffFrom(ci, a, b, cap, cap) == cap
  {
  }

  lemma {:induction false} WordsOf(cap: nat, w: nat)
    requires w >= 1
    ensures cap - cap % w == cap / w * w && (cap - cap % w) / w == cap / w && cap / w >= 0
  {
    DivMod(cap / w, 0, w);
  }

  /** The first zero byte, the bound where there is none. */
  function ZeroFrom(a: seq<bv8>, i: nat, cap: nat): (k: nat)
    requires i <= cap <= |a|
    ensures i <= k <= cap && (k < cap ==> a[k] == 0) && forall j :: i <= j < k ==> a[j] != 0
    decreases cap - i
  {
    if i == cap then cap else if a[i] == 0 then i else ZeroFrom(a, i + 1, cap)
  }

  lemma {:induction false} ZeroWord(a: seq<bv8>, at: nat, w: nat, n: nat, cap: nat)
    requires 1 <= n <= w && at + n <= cap <= |a| && at + w <= |a|
    ensures |TermAt(a, at, w, n)| == w
    ensures var term := TermAt(a, at, w, n);
      ZeroFrom(a, at, cap) == if First(term) < w then at + First(term) else ZeroFrom(a, at + n, cap)
  {
    hide TermAt;
    LanesAt(false, a, a, at, w, n);
    var term := TermAt(a, at, w, n);
    var k, z := First(term), ZeroFrom(a, at, cap);
    if z < at + n {
      assert term[z - at];
    } else {
      ZeroSkips(a, at, n, cap);
    }
    if k < w {
      assert k < n && a[at + k] == 0;
    }
  }

  lemma {:induction false} ZeroSkips(a: seq<bv8>, i: nat, n: nat, cap: nat)
    requires i + n <= cap <= |a| && forall j :: i <= j < i + n ==> a[j] != 0
    ensures ZeroFrom(a, i, cap) == ZeroFrom(a, i + n, cap)
    decreases n
  {
    if n > 0 {
      ZeroSkips(a, i + 1, n - 1, cap);
    }
  }

  /** How many bytes lie before the next word boundary, `past` being the address's remainder, and no more than there
      are. */
  function HeadBytes(past: nat, cap: nat, w: nat): nat
    requires past < w
  {
    var need := if past == 0 then 0 else w - past;
    if need > cap then cap else need
  }

  /** They are the fewest that bring an address to a word boundary, where there are as many. */
  lemma {:induction false} HeadAligns(past: nat, cap: nat, w: nat, fewer: nat)
    requires past < w
    ensures HeadBytes(past, cap, w) <= cap && HeadBytes(past, cap, w) < w
    ensures (past + HeadBytes(past, cap, w)) % w == 0 || HeadBytes(past, cap, w) == cap
    ensures fewer < HeadBytes(past, cap, w) ==> (past + fewer) % w != 0
  {
    if fewer < HeadBytes(past, cap, w) {
      Below(past + fewer, w);
    }
  }

  /** The byte definition of a length reached in four ways of walking, from any alignment. */
  method Len(src: seq<bv8>, cap: nat, past: nat, w: nat) returns (at: nat)
    requires IsWidth(w) && past < w
    requires cap <= |src| && HeadBytes(past, cap, w) + RoundUp(cap - HeadBytes(past, cap, w), w) <= |src|
    ensures at == ZeroFrom(src, 0, cap)
  {
    hide TermAt, HasZero, ZeroFrom;
    var lead := HeadBytes(past, cap, w);
    var rest := (cap - lead) % w;
    var full := cap - rest;
    at := 0;
    while at != lead
      invariant 0 <= at <= lead && ZeroFrom(src, 0, cap) == ZeroFrom(src, at, cap)
      decreases lead - at
    {
      ZeroByte(src, at, cap);
      if src[at] == 0 {
        return;
      }
      at := at + 1;
    }
    var found;
    found, at := LenWords(src, lead, full, cap, w);
    if found { return; }
    if rest != 0 {
      var term := TermAt(src, at, w, rest);
      ZeroWord(src, at, w, rest, cap);
      if First(term) < w {
        return at + First(term);
      }
    }
    ZeroAtCap(src, cap);
    return cap;
  }

  lemma {:induction false} ZeroByte(a: seq<bv8>, at: nat, cap: nat)
    requires at < cap <= |a|
    ensures ZeroFrom(a, at, cap) == if a[at] == 0 then at else ZeroFrom(a, at + 1, cap)
  {
  }

  lemma {:induction false} ZeroAtCap(a: seq<bv8>, cap: nat)
    requires cap <= |a|
    ensures ZeroFrom(a, cap, cap) == cap
  {
  }

  /** A word with no zero lane is walked past; one with a zero lane names it. */
  lemma {:induction false} ZeroWhole(a: seq<bv8>, at: nat, w: nat, cap: nat)
    requires w >= 1 && at + w <= cap <= |a|
    ensures |HasZero(a[at..at + w])| == w
    ensures ZeroFrom(a, at, cap)
         == if First(HasZero(a[at..at + w])) < w then at + First(HasZero(a[at..at + w])) else ZeroFrom(a, at + w, cap)
  {
    hide TermAt, HasZero, ZeroFrom;
    LanesAt(false, a, a, at, w, w);
    ZeroWord(a, at, w, w, cap);
  }

  /** Two words a turn while two remain. */
  method LenPairs(src: seq<bv8>, from: nat, full: nat, ghost cap: nat, w: nat, ghost words: nat)
    returns (found: bool, at: nat, ghost left: nat)
    requires w >= 1 && from <= full <= cap <= |src| && full - from == words * w
    ensures found ==> at == ZeroFrom(src, from, cap)
    ensures !found ==> from <= at <= full && full - at == left * w && ZeroFrom(src, from, cap) == ZeroFrom(src, at, cap)
  {
    hide HasZero, ZeroFrom;
    found, at, left := false, from, words;
    while full - at >= 2 * w
      invariant from <= at <= full && full - at == left * w
      invariant ZeroFrom(src, from, cap) == ZeroFrom(src, at, cap)
      decreases left
    {
      WordFits(left, w);
      WordFits(left - 1, w);
      ZeroWhole(src, at, w, cap);
      ZeroWhole(src, at + w, w, cap);
      var first, second := HasZero(src[at..at + w]), HasZero(src[at + w..at + w + w]);
      if First(first) < w {
        return true, at + First(first), left;
      }
      if First(second) < w {
        return true, at + w + First(second), left;
      }
      at, left := at + 2 * w, left - 2;
    }
  }

  /** The whole words of a length walk. */
  method LenWords(src: seq<bv8>, from: nat, full: nat, ghost cap: nat, w: nat) returns (found: bool, at: nat)
    requires w >= 1 && from <= full <= cap <= |src| && (full - from) % w == 0
    ensures found ==> at == ZeroFrom(src, from, cap)
    ensures !found ==> at == full && ZeroFrom(src, from, cap) == ZeroFrom(src, full, cap)
  {
    hide HasZero, ZeroFrom;
    ghost var left: int;
    WordsOf(full - from, w);
    found, at, left := LenPairs(src, from, full, cap, w, (full - from) / w);
    while at != full && !found
      invariant found ==> at == ZeroFrom(src, from, cap)
      invariant !found ==>
          from <= at <= full && full - at == left * w && ZeroFrom(src, from, cap) == ZeroFrom(src, at, cap)
      invariant left >= 0
      decreases left, !found
    {
      WordFits(left, w);
      ZeroWhole(src, at, w, cap);
      var lanes := HasZero(src[at..at + w]);
      if First(lanes) < w {
        found, at := true, at + First(lanes);
      } else {
        at, left := at + w, left - 1;
      }
    }
  }
}
