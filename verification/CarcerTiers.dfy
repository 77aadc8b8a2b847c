/** The two tiers of a cellblock over one memory, what they are counted at, and what each kind of step does to both. */
module CarcerTiers {
  import opened CarcerCells

  /** Every busy cell counts to a listed owner and no free cell counts to any. */
  predicate Footed(cells: seq<Cell>, owners: nat) {
    forall c :: c in cells ==>
      if c.Busy? then !IsComplete(c.owner) && 1 <= PlaceOf(c.owner) <= owners else IsDone(c.owner)
  }

  /** The walk keeps every busy cell's owner word and leaves a free cell's as none. */
  lemma {:induction false} FootedWalk(cells: seq<Cell>, owners: nat)
    requires Footed(cells, owners)
    ensures Footed(Merged(cells), owners)
    decreases |cells|
  {
    if cells != [] {
      FootedWalk(cells[..|cells| - 1], owners);
    }
  }

  /** The two tiers tile their ends of a memory exactly, do not cross, and carry owner words the table lists. */
  ghost predicate Tilings(m: seq<int>, up: seq<Cell>, down: seq<Cell>, owners: nat) {
    && Span(up) + Span(down) <= |m|
    && Lays(m, 0, up)
    && Lays(m, |m| - Span(down), down)
    && Footed(up, owners)
    && Footed(down, owners)
  }

  lemma {:induction false} TilingsReads(m: seq<int>, up: seq<Cell>, down: seq<Cell>, owners: nat)
    requires Tilings(m, up, down, owners)
    ensures Span(up) + Span(down) <= |m|
    ensures Lays(m, 0, up) && Lays(m, |m| - Span(down), down)
    ensures Footed(up, owners) && Footed(down, owners)
  {
  }

  /** A cellblock's totals and its owners' counts: the payloads of the busy cells, less what moves laid uncounted, and
      for each owner on top of what its count holds beyond this cellblock. */
  ghost predicate Ledger(table: seq<int>, inUse: int, tierUse: int, up: seq<Cell>, down: seq<Cell>,
                         uncounted: int, beyond: seq<int>)
  {
    && inUse == Held(up) + Held(down) - uncounted
    && tierUse == Held(up) - uncounted
    && |beyond| == |table|
    && forall place {:trigger table[place - 1]} :: 1 <= place <= |table| ==>
         table[place - 1] == Owned(up, place) + Owned(down, place) + beyond[place - 1]
  }

  lemma {:induction false} LedgerReads(table: seq<int>, inUse: int, tierUse: int, up: seq<Cell>, down: seq<Cell>,
                                       uncounted: int, beyond: seq<int>)
    requires Ledger(table, inUse, tierUse, up, down, uncounted, beyond)
    ensures |beyond| == |table|
  {
  }

  /** The persistent tier as its walk leaves it, with the temporary tier out of the walk's reach. */
  lemma {:induction false} TilingsWalked(m: seq<int>, m': seq<int>, up: seq<Cell>, down: seq<Cell>, owners: nat)
    requires Tilings(m, up, down, owners) && |m'| == |m|
    requires Lays(m', 0, Merged(up)) && Span(Merged(up)) <= Span(up)
    requires forall j :: Span(up) <= j < |m| ==> m'[j] == m[j]
    ensures Tilings(m', Merged(up), down, owners)
  {
    hide Lays, Span;
    LaysFrame(m, m', |m| - Span(down), down);
    FootedWalk(up, owners);
  }

  /** A cell laid in the gap, at the persistent end or under the temporary top, extends the tier it was taken for
      and leaves both tilings whole. */
  lemma {:induction false} TilingsTakes(m: seq<int>, m': seq<int>, off: nat, c: Cell, up: seq<Cell>, down: seq<Cell>,
                                        owners: nat)
    requires Tilings(m, up, down, owners)
    requires Span(up) <= off && off + Extent(c) + Span(down) <= |m|
    requires c.Busy? && c.size >= 1 && !IsComplete(c.owner) && 1 <= PlaceOf(c.owner) <= owners
    requires m' == m[off + 1 + c.size := c.owner][off := Header(c.size, true)]
    requires c.payload == m'[off + 1..off + 1 + c.size]
    ensures off == Span(up) ==> Tilings(m', up + [c], down, owners)
    ensures off + Extent(c) + Span(down) == |m| ==> Tilings(m', up, [c] + down, owners)
    ensures Span(up + [c]) == Span(up) + Extent(c) && Span([c] + down) == Span(down) + Extent(c)
  {
    hide Lays, Span;
    LaysFrame(m, m', 0, up);
    LaysFrame(m, m', |m| - Span(down), down);
    LaysOne(m', off, c);
    LaysConcat(m', 0, up, [c]);
    SpanConcat(up, [c]);
    SpanOne(c);
    LaysHead(m', off, c, down);
  }

  /** A take counts its payload to its owner, to the cellblock, and to the persistent tier where it lies there. */
  lemma {:induction false} LedgerTakes(table: seq<int>, inUse: int, tierUse: int, up: seq<Cell>, down: seq<Cell>,
                                       uncounted: int, beyond: seq<int>, c: Cell)
    requires Ledger(table, inUse, tierUse, up, down, uncounted, beyond)
    requires c.Busy? && 1 <= PlaceOf(c.owner) <= |table|
    ensures var after := table[PlaceOf(c.owner) - 1 := table[PlaceOf(c.owner) - 1] + c.size];
      && Ledger(after, inUse + c.size, tierUse + c.size, up + [c], down, uncounted, beyond)
      && Ledger(after, inUse + c.size, tierUse, up, [c] + down, uncounted, beyond)
  {
    hide Held, Owned, PlaceOf;
    HeldConcat(up, [c]);
    HeldConcat([c], down);
    CountsOne(c, 0);
    forall place | 1 <= place <= |table|
      ensures Owned(up + [c], place) == Owned(up, place) + Owned([c], place)
      ensures Owned([c] + down, place) == Owned(down, place) + Owned([c], place)
      ensures Owned([c], place) == if PlaceOf(c.owner) == place then c.size else 0
    {
      OwnedConcat(up, [c], place);
      OwnedConcat([c], down, place);
      CountsOne(c, place);
    }
  }

  /** The two words the rest of a split is laid with, nothing where the run does not split. */
  function RestLaid(m: seq<int>, at: nat, size: nat, want: nat): seq<int>
    requires want <= size && at + size + HDR <= |m|
  {
    if Kept(size, want) == size then m
    else m[at + HDR + want + 1 + (size - want - HDR) := 0][at + HDR + want := Header(size - want - HDR, false)]
  }

  /** A busy cell's two words laid. */
  function CellLaid(m: seq<int>, at: nat, size: nat, owner: int): seq<int>
    requires at + size + HDR <= |m|
  {
    m[at + 1 + size := owner][at := Header(size, true)]
  }

  /** A free run's grains laid as a take's cell and its rest: the words of both, and nothing outside the run. */
  ghost predicate RunLaid(m: seq<int>, m': seq<int>, at: nat, size: nat, want: nat, owner: int) {
    && 1 <= want <= size && at + size + HDR <= |m| == |m'|
    && var kept := Kept(size, want);
    && m'[at] == Header(kept, true) && m'[at + 1 + kept] == owner
    && (kept != size ==> m'[at + HDR + want] == Header(size - want - HDR, false) && m'[at + 1 + size] == 0)
    && (forall j :: 0 <= j < at ==> m'[j] == m[j])
    && (forall j :: at + size + HDR <= j < |m| ==> m'[j] == m[j])
  }

  lemma {:induction false} RunLaidOver(m: seq<int>, at: nat, size: nat, want: nat, owner: int)
    requires 1 <= want <= size && at + size + HDR <= |m|
    ensures RunLaid(m, CellLaid(RestLaid(m, at, size, want), at, Kept(size, want), owner), at, size, want, owner)
  {
  }

  lemma {:induction false} RunTaken(m: seq<int>, m': seq<int>, at: nat, size: nat, want: nat, owner: int)
    requires RunLaid(m, m', at, size, want, owner)
    ensures Lays(m', at, Taken(size, want, owner, m'[at + 1..at + 1 + Kept(size, want)]))
  {
    hide Lays;
    var kept := Kept(size, want);
    var c := Busy(kept, owner, m'[at + 1..at + 1 + kept]);
    LaysOne(m', at, c);
    SpanOne(c);
    if kept != size {
      LaysOne(m', at + HDR + want, Free(size - want - HDR, 0));
      LaysConcat(m', at, [c], [Free(size - want - HDR, 0)]);
    } else {
      assert [c] + [] == [c];
    }
  }

  lemma {:induction false} FootedReplaced(cells: seq<Cell>, k: nat, laid: seq<Cell>, owners: nat)
    requires Footed(cells, owners) && k < |cells| && Footed(laid, owners)
    ensures Footed(cells[..k] + laid + cells[k + 1..], owners)
  {
  }

  /** A free cell of the persistent tier taken: the tier is the cells before it, what the take made of it, and the
      cells behind it. */
  lemma {:induction false} TilingsRunTaken(m: seq<int>, m': seq<int>, up: seq<Cell>, down: seq<Cell>, owners: nat,
                                           k: nat, want: nat, owner: int)
    requires Tilings(m, up, down, owners) && k < |up| && up[k].Free? && 1 <= want <= up[k].size
    requires !IsComplete(owner) && 1 <= PlaceOf(owner) <= owners
    requires RunLaid(m, m', Span(up[..k]), up[k].size, want, owner)
    ensures var at := Span(up[..k]);
            var laid := Taken(up[k].size, want, owner, m'[at + 1..at + 1 + Kept(up[k].size, want)]);
            Tilings(m', up[..k] + laid + up[k + 1..], down, owners) && Span(up[..k] + laid + up[k + 1..]) == Span(up)
  {
    hide Lays, Span;
    var at, size := Span(up[..k]), up[k].size;
    var laid := Taken(size, want, owner, m'[at + 1..at + 1 + Kept(size, want)]);
    LaysAt(m, 0, up, k);
    RunTaken(m, m', at, size, want, owner);
    TakenSpans(size, want, owner, m'[at + 1..at + 1 + Kept(size, want)]);
    LaysReplaced(m, m', 0, up, k, laid);
    LaysFrame(m, m', |m| - Span(down), down);
    assert IsDone(0);
    FootedReplaced(up, k, laid, owners);
  }

  lemma {:induction false} LedgerRunTaken(table: seq<int>, inUse: int, tierUse: int, up: seq<Cell>, down: seq<Cell>,
                                          uncounted: int, beyond: seq<int>, k: nat, want: nat, owner: int,
                                          payload: seq<int>)
    requires Ledger(table, inUse, tierUse, up, down, uncounted, beyond)
    requires k < |up| && up[k].Free? && 1 <= want <= up[k].size && 1 <= PlaceOf(owner) <= |table|
    ensures var kept := Kept(up[k].size, want);
      Ledger(table[PlaceOf(owner) - 1 := table[PlaceOf(owner) - 1] + kept], inUse + kept, tierUse + kept,
             up[..k] + Taken(up[k].size, want, owner, payload) + up[k + 1..], down, uncounted, beyond)
  {
    hide Held, Owned, PlaceOf;
    var laid := Taken(up[k].size, want, owner, payload);
    ReplaceCounts(up, k, laid, PlaceOf(owner));
    forall place | 1 <= place <= |table|
      ensures Owned(up[..k] + laid + up[k + 1..], place)
           == Owned(up, place) + if PlaceOf(owner) == place then Kept(up[k].size, want) else 0
    {
      ReplaceCounts(up, k, laid, place);
      TakenCounts(up[k].size, want, owner, payload, place);
      CountsOne(up[k], place);
    }
    TakenCounts(up[k].size, want, owner, payload, 0);
    CountsOne(up[k], 0);
  }

  lemma {:induction false} TakenCounts(size: nat, want: nat, owner: int, payload: seq<int>, place: nat)
    requires want <= size
    ensures Held(Taken(size, want, owner, payload)) == Kept(size, want)
    ensures Owned(Taken(size, want, owner, payload), place) == if PlaceOf(owner) == place then Kept(size, want) else 0
  {
    var laid := Taken(size, want, owner, payload);
    CountsOne(laid[0], place);
    if |laid| > 1 {
      CountsOne(laid[1], place);
      HeldConcat([laid[0]], [laid[1]]);
      OwnedConcat([laid[0]], [laid[1]], place);
      assert laid == [laid[0]] + [laid[1]];
    }
  }

  /** Replacing a cell moves the counts by the difference of what is laid and the cell. */
  lemma {:induction false} ReplaceCounts(cells: seq<Cell>, k: nat, laid: seq<Cell>, place: nat)
    requires k < |cells|
    ensures Held(cells[..k] + laid + cells[k + 1..]) == Held(cells) - Held([cells[k]]) + Held(laid)
    ensures Owned(cells[..k] + laid + cells[k + 1..], place)
         == Owned(cells, place) - Owned([cells[k]], place) + Owned(laid, place)
  {
    assert cells == cells[..k] + [cells[k]] + cells[k + 1..];
    CountsReplaced(cells[..k], cells[k + 1..], [cells[k]], place);
    CountsReplaced(cells[..k], cells[k + 1..], laid, place);
  }

  /** The walk and the trim return free grains alone: tilings and counts stand. */
  lemma {:induction false} TilingsTopDropped(m: seq<int>, up: seq<Cell>, down: seq<Cell>, owners: nat)
    requires Tilings(m, up, down, owners)
    ensures Tilings(m, up, DropFree(down), owners)
  {
    hide Lays, Span;
    var n := |down| - |DropFree(down)|;
    DropFreeIsSuffix(down);
    LaysSplit(m, |m| - Span(down), down, n);
    SpanSplit(down, n);
  }

  lemma {:induction false} LedgerReturned(table: seq<int>, inUse: int, tierUse: int, up: seq<Cell>, down: seq<Cell>,
                                          uncounted: int, beyond: seq<int>)
    ensures var balanced := Ledger(table, inUse, tierUse, up, down, uncounted, beyond);
      && (Ledger(table, inUse, tierUse, Merged(up), down, uncounted, beyond) <==> balanced)
      && (Ledger(table, inUse, tierUse, up, DropFree(down), uncounted, beyond) <==> balanced)
  {
    hide Held, Owned, Merged, DropFree;
    WalkedCounts(up, 0);
    DropFreeCounts(down, 0);
    forall place | 1 <= place <= |table|
      ensures Owned(Merged(up), place) == Owned(up, place) && Owned(DropFree(down), place) == Owned(down, place)
    {
      WalkedCounts(up, place);
      DropFreeCounts(down, place);
    }
  }

  /** What the walk up from the temporary top knows with `i` free cells behind it. */
  ghost predicate Trimming(m: seq<int>, down: seq<Cell>, i: nat, at: nat, more: bool, permit: bool) {
    && i <= |down| && Span(down) <= |m| && Lays(m, |m| - Span(down), down)
    && at == |m| - Span(down[i..])
    && (if permit then DropFree(down[i..]) == DropFree(down) else i == 0)
    && (if more then permit && i < |down| else permit ==> i == |down| || down[i].Busy?)
  }

  lemma {:induction false} TrimStarts(m: seq<int>, down: seq<Cell>, permit: bool)
    requires Span(down) <= |m| && Lays(m, |m| - Span(down), down)
    ensures Trimming(m, down, 0, |m| - Span(down), permit && |m| - Span(down) < |m|, permit)
  {
    assert down[0..] == down;
  }

  lemma {:induction false} TrimReads(m: seq<int>, down: seq<Cell>, i: nat, at: nat, permit: bool)
    requires Trimming(m, down, i, at, true, permit)
    ensures i < |down| && at + Extent(down[i]) <= |m|
    ensures SizeOf(m[at]) == down[i].size && (StateOf(m[at]) == 0 <==> down[i].Free?)
    ensures if down[i].Free?
      then Trimming(m, down, i + 1, at + Extent(down[i]), at + Extent(down[i]) < |m|, permit)
      else Trimming(m, down, i, at, false, permit)
  {
    hide Lays;
    SpanSplit(down, i);
    LaysSplit(m, |m| - Span(down), down, i);
    HeaderReads(down[i].size, down[i].Busy?);
    assert down[i..][1..] == down[i + 1..];
  }

  lemma {:induction false} TrimEnds(m: seq<int>, down: seq<Cell>, i: nat, at: nat, permit: bool)
    requires Trimming(m, down, i, at, false, permit)
    ensures at == |m| - Span(if permit then DropFree(down) else down)
    ensures Span(if permit then DropFree(down) else down) <= Span(down)
  {
    assert down[0..] == down;
    DropFreeIsSuffix(down);
  }

  // ---- one cell named by its tier and its place there -------------------------------------------------------

  function Tier(up: seq<Cell>, down: seq<Cell>, low: bool): seq<Cell> {
    if low then up else down
  }

  /** Offset of the cell at an index of a tier, in a cellblock of `size` grains. */
  function OffOf(size: nat, up: seq<Cell>, down: seq<Cell>, low: bool, k: nat): int
    requires k <= |Tier(up, down, low)|
  {
    (if low then 0 else size - Span(down)) + Span(Tier(up, down, low)[..k])
  }

  /** A tier with one cell replaced. */
  function With(cells: seq<Cell>, k: nat, c: Cell): seq<Cell>
    requires k < |cells|
  {
    cells[..k] + [c] + cells[k + 1..]
  }

  /** A tier with one cell freed, its owner word complete. */
  function Freed(cells: seq<Cell>, k: nat): seq<Cell>
    requires k < |cells|
  {
    With(cells, k, Free(cells[k].size, Completed(cells[k].owner)))
  }

  /** A tier's cell lies inside its tier, and memory holds its words there. */
  lemma {:induction false} TilingsCell(m: seq<int>, up: seq<Cell>, down: seq<Cell>, owners: nat, low: bool, k: nat)
    requires Tilings(m, up, down, owners) && k < |Tier(up, down, low)|
    ensures var c, off := Tier(up, down, low)[k], OffOf(|m|, up, down, low, k);
      && 0 <= off && off + Extent(c) <= |m| && Holds(m, off, c)
      && (if low then off + Extent(c) <= Span(up) else off >= |m| - Span(down) >= Span(up))
      && (low ==> (off + Extent(c) == Span(up) <==> k == |up| - 1))
      && (!low ==> (off == |m| - Span(down) <==> k == 0))
      && SizeOf(m[off]) == c.size && StateOf(m[off]) == (if c.Busy? then 1 else 0)
      && (if c.Busy? then !IsComplete(c.owner) && 1 <= PlaceOf(c.owner) <= owners else IsDone(c.owner))
  {
    hide Lays, Span, IsComplete, PlaceOf;
    LaysAt(m, if low then 0 else |m| - Span(down), Tier(up, down, low), k);
    SpanNone(Tier(up, down, low), k);
    SpanNone(Tier(up, down, low), k + 1);
  }

  lemma {:induction false} SpanNone(cells: seq<Cell>, k: nat)
    requires k <= |cells|
    ensures Span(cells[..k]) == 0 <==> k == 0
    ensures Span(cells[k..]) == 0 <==> k == |cells|
  {
    if k > 0 {
      assert cells[..k] != [];
    }
    if k < |cells| {
      assert cells[k..] != [];
    }
  }

  /** A cell's words written over by another cell's of the same grains. */
  lemma {:induction false} TilingsReplaced(m: seq<int>, m': seq<int>, up: seq<Cell>, down: seq<Cell>, owners: nat,
                                           low: bool, k: nat, c: Cell)
    requires Tilings(m, up, down, owners) && k < |Tier(up, down, low)| && |m'| == |m|
    requires c.size == Tier(up, down, low)[k].size && Footed([c], owners)
    requires OffOf(|m|, up, down, low, k) >= 0 && Holds(m', OffOf(|m|, up, down, low, k), c)
    requires forall j :: 0 <= j < OffOf(|m|, up, down, low, k) ==> m'[j] == m[j]
    requires forall j :: OffOf(|m|, up, down, low, k) + Extent(c) <= j < |m| ==> m'[j] == m[j]
    ensures Tilings(m', if low then With(up, k, c) else up, if low then down else With(down, k, c), owners)
    ensures Span(With(Tier(up, down, low), k, c)) == Span(Tier(up, down, low))
  {
    hide Lays, Span;
    var tier := Tier(up, down, low);
    TilingsCell(m, up, down, owners, low, k);
    LaysOne(m', OffOf(|m|, up, down, low, k), c);
    SpanOne(c);
    LaysReplaced(m, m', if low then 0 else |m| - Span(down), tier, k, [c]);
    FootedReplaced(tier, k, [c], owners);
    if low {
      LaysFrame(m, m', |m| - Span(down), down);
    } else {
      LaysFrame(m, m', 0, up);
    }
  }

  /** A busy cell given back: counted off its owner, its cellblock, and its tier. */
  lemma {:induction false} LedgerFreed(table: seq<int>, inUse: int, tierUse: int, up: seq<Cell>, down: seq<Cell>,
                                       uncounted: int, beyond: seq<int>, low: bool, k: nat, owner: int, tierAfter: int)
    requires Ledger(table, inUse, tierUse, up, down, uncounted, beyond)
    requires k < |Tier(up, down, low)| && Tier(up, down, low)[k].Busy?
    requires 1 <= PlaceOf(Tier(up, down, low)[k].owner) <= |table|
    ensures var c := Tier(up, down, low)[k];
            var free := Free(c.size, owner);
            var place := PlaceOf(c.owner);
      tierAfter == tierUse - (if low then c.size else 0) <==>
      Ledger(table[place - 1 := table[place - 1] - c.size], inUse - c.size, tierAfter,
             if low then With(up, k, free) else up, if low then down else With(down, k, free), uncounted, beyond)
  {
    hide Held, Owned, PlaceOf;
    var c := Tier(up, down, low)[k];
    var free := Free(c.size, owner);
    var tier := Tier(up, down, low);
    ReplaceCounts(tier, k, [free], 0);
    CountsOne(free, 0);
    CountsOne(c, 0);
    forall place | 1 <= place <= |table|
      ensures Owned(With(tier, k, free), place) == Owned(tier, place) - if PlaceOf(c.owner) == place then c.size else 0
    {
      ReplaceCounts(tier, k, [free], place);
      CountsOne(free, place);
      CountsOne(c, place);
    }
  }

  /** The words of a cell given back: its payload zeroed where asked, its owner word complete, its header free. */
  function GivenWords(m: seq<int>, off: nat, size: nat, zeroing: bool): seq<int>
    requires off + size + HDR <= |m|
  {
    Zeroes(m, off + 1, if zeroing then size else 0)
      [off + 1 + size := Completed(m[off + 1 + size])][off := Header(size, false)]
  }

  /** A payload reads zero after where that was asked and as it did where it was not, its header free, its owner word
      complete, and every word outside the cell as it did. */
  predicate Wipes(m: seq<int>, m': seq<int>, payload: nat, size: nat, zeroing: bool) {
    && |m'| == |m| && 1 <= payload && payload + size < |m|
    && (forall j :: payload <= j < payload + size ==> m'[j] == if zeroing then 0 else m[j])
    && (forall j :: 0 <= j < |m| && (j < payload - 1 || payload + size < j) ==> m'[j] == m[j])
    && SizeOf(m'[payload - 1]) == size && StateOf(m'[payload - 1]) == 0
    && IsComplete(m'[payload + size]) && PlaceOf(m'[payload + size]) == PlaceOf(m[payload + size])
  }

  /** What a give's stores leave of the cell's words. */
  lemma {:induction false} GivenWipes(m: seq<int>, off: nat, size: nat, zeroing: bool)
    requires off + size + HDR <= |m| && !IsComplete(m[off + 1 + size])
    ensures Wipes(m, GivenWords(m, off, size, zeroing), off + 1, size, zeroing)
  {
    hide Header, SizeOf, StateOf, IsComplete, PlaceOf, Completed;
    HeaderReads(size, false);
    CompletedReads(m[off + 1 + size]);
  }

  /** A memory with a run of words zeroed. */
  function Zeroes(m: seq<int>, at: nat, n: nat): seq<int>
    requires at + n <= |m|
  {
    seq(|m|, j requires 0 <= j < |m| => if at <= j < at + n then 0 else m[j])
  }

  lemma {:induction false} ZeroesIs(m: seq<int>, m': seq<int>, at: nat, n: nat)
    requires at + n <= |m| == |m'|
    requires forall j :: at <= j < at + n ==> m'[j] == 0
    requires forall j :: 0 <= j < |m| && !(at <= j < at + n) ==> m'[j] == m[j]
    ensures m' == Zeroes(m, at, n)
  {
  }

  lemma {:induction false} TilingsGiven(m: seq<int>, up: seq<Cell>, down: seq<Cell>, owners: nat, low: bool, k: nat,
                                        zeroing: bool)
    requires Tilings(m, up, down, owners) && k < |Tier(up, down, low)|
    ensures var c, off := Tier(up, down, low)[k], OffOf(|m|, up, down, low, k);
            var free := Free(c.size, Completed(c.owner));
      && 0 <= off && off + c.size + HDR <= |m|
      && Tilings(GivenWords(m, off, c.size, zeroing), if low then With(up, k, free) else up,
                 if low then down else With(down, k, free), owners)
      && Span(With(Tier(up, down, low), k, free)) == Span(Tier(up, down, low))
  {
    hide Lays, Span, Tilings;
    TilingsCell(m, up, down, owners, low, k);
    var c, off := Tier(up, down, low)[k], OffOf(|m|, up, down, low, k);
    CompletedReads(c.owner);
    TilingsReplaced(m, GivenWords(m, off, c.size, zeroing), up, down, owners, low, k, Free(c.size, Completed(c.owner)));
  }

  // ---- a tier's newest cell grown ---------------------------------------------------------------------------

  /** A tier shorter by the cells at its boundary is still tiled. */
  lemma {:induction false} TilingsShorter(m: seq<int>, up: seq<Cell>, down: seq<Cell>, owners: nat, i: nat, j: nat)
    requires Tilings(m, up, down, owners) && i <= |up| && j <= |down|
    ensures Tilings(m, up[..i], down[j..], owners)
    ensures Span(up[..i]) <= Span(up) && Span(down[j..]) <= Span(down)
  {
    hide Lays, Span;
    LaysSplit(m, 0, up, i);
    SpanSplit(up, i);
    LaysSplit(m, |m| - Span(down), down, j);
    SpanSplit(down, j);
  }

  /** What is written between the tiers changes neither. */
  lemma {:induction false} TilingsGap(m: seq<int>, m': seq<int>, up: seq<Cell>, down: seq<Cell>, owners: nat)
    requires Tilings(m, up, down, owners) && |m'| == |m|
    requires forall j :: 0 <= j < |m| && (j < Span(up) || |m| - Span(down) <= j) ==> m'[j] == m[j]
    ensures Tilings(m', up, down, owners)
  {
    hide Lays, Span;
    LaysFrame(m, m', 0, up);
    LaysFrame(m, m', |m| - Span(down), down);
  }

  /** Memory after the newest cell of a tier grew by `extra` grains: the payload moved down for a temporary cell, the
      grains added zeroed where asked, the two words written. */
  function GrownWords(m: seq<int>, off: nat, size: nat, extra: nat, owner: int, low: bool, zeroing: bool): seq<int>
    requires off + size + HDR + (if low then extra else 0) <= |m| && (!low ==> extra <= off)
  {
    var at := if low then off else off - extra;
    seq(|m|, j requires 0 <= j < |m| =>
      if j == at then Header(size + extra, true)
      else if at < j <= at + size then m[j - at + off]
      else if j == at + 1 + size + extra then owner
      else if zeroing && at + size < j <= at + size + extra then 0
      else m[j])
  }

  /** A memory with words carried to a lower offset. */
  function Carried(m: seq<int>, dst: nat, src: nat, n: nat): seq<int>
    requires dst <= src && src + n <= |m|
  {
    seq(|m|, j requires 0 <= j < |m| => if dst <= j < dst + n then m[j - dst + src] else m[j])
  }

  lemma {:induction false} CarriedIs(m: seq<int>, m': seq<int>, dst: nat, src: nat, n: nat)
    requires dst <= src && src + n <= |m| == |m'|
    requires forall j :: dst <= j < dst + n ==> m'[j] == m[j - dst + src]
    requires forall j :: 0 <= j < |m| && !(dst <= j < dst + n) ==> m'[j] == m[j]
    ensures m' == Carried(m, dst, src, n)
  {
  }

  lemma {:induction false} CarriedAt(m: seq<int>, dst: nat, src: nat, n: nat, j: nat)
    requires dst <= src && src + n <= |m| && j < |m|
    ensures |Carried(m, dst, src, n)| == |m|
    ensures Carried(m, dst, src, n)[j] == if dst <= j < dst + n then m[j - dst + src] else m[j]
  {
  }

  lemma {:induction false} ZeroesAt(m: seq<int>, at: nat, n: nat, j: nat)
    requires at + n <= |m| && j < |m|
    ensures |Zeroes(m, at, n)| == |m|
    ensures Zeroes(m, at, n)[j] == if at <= j < at + n then 0 else m[j]
  {
  }

  lemma {:induction false} GrownAt(m: seq<int>, off: nat, size: nat, extra: nat, owner: int, low: bool, zeroing: bool,
                                   j: nat)
    requires off + size + HDR + (if low then extra else 0) <= |m| && (!low ==> extra <= off) && j < |m|
    ensures var at := if low then off else off - extra;
            var m' := GrownWords(m, off, size, extra, owner, low, zeroing);
      && |m'| == |m|
      && m'[j] == if j == at then Header(size + extra, true)
                  else if at < j <= at + size then m[j - at + off]
                  else if j == at + 1 + size + extra then owner
                  else if zeroing && at + size < j <= at + size + extra then 0
                  else m[j]
  {
  }

  /** Memory after the stores of a growth, in the order they are made. */
  function GrownInSteps(m: seq<int>, off: nat, size: nat, extra: nat, owner: int, low: bool, zeroing: bool): seq<int>
    requires off + size + HDR + (if low then extra else 0) <= |m| && (!low ==> extra <= off)
  {
    var at := if low then off else off - extra;
    var footed := if low then m[off + 1 + size + extra := owner] else m;
    var headed := footed[at := Header(size + extra, true)];
    Zeroes(Carried(headed, at + 1, off + 1, if low then 0 else size), at + 1 + size, if zeroing then extra else 0)
  }

  lemma {:induction false} GrownStepsAt(m: seq<int>, off: nat, size: nat, extra: nat, owner: int, low: bool,
                                        zeroing: bool, j: nat)
    requires off + size + HDR + (if low then extra else 0) <= |m|
        && (!low ==> extra <= off && m[off + 1 + size] == owner)
    requires j < |m|
    ensures |GrownInSteps(m, off, size, extra, owner, low, zeroing)| == |m|
    ensures GrownInSteps(m, off, size, extra, owner, low, zeroing)[j]
         == GrownWords(m, off, size, extra, owner, low, zeroing)[j]
  {
    hide Zeroes, Carried, GrownWords, Header;
    var at := if low then off else off - extra;
    var footed := if low then m[off + 1 + size + extra := owner] else m;
    var headed := footed[at := Header(size + extra, true)];
    var carried := Carried(headed, at + 1, off + 1, if low then 0 else size);
    CarriedAt(headed, at + 1, off + 1, if low then 0 else size, j);
    ZeroesAt(carried, at + 1 + size, if zeroing then extra else 0, j);
    GrownAt(m, off, size, extra, owner, low, zeroing, j);
  }

  /** The stores of a growth, one after another, make the memory it leaves. */
  lemma {:induction false} GrownSteps(m: seq<int>, off: nat, size: nat, extra: nat, owner: int, low: bool,
                                      zeroing: bool)
    requires off + size + HDR + (if low then extra else 0) <= |m|
        && (!low ==> extra <= off && m[off + 1 + size] == owner)
    ensures GrownInSteps(m, off, size, extra, owner, low, zeroing)
        == GrownWords(m, off, size, extra, owner, low, zeroing)
  {
    hide GrownInSteps, GrownWords;
    GrownStepsAt(m, off, size, extra, owner, low, zeroing, off);
    GrownAt(m, off, size, extra, owner, low, zeroing, off);
    forall j | 0 <= j < |m|
      ensures GrownInSteps(m, off, size, extra, owner, low, zeroing)[j]
           == GrownWords(m, off, size, extra, owner, low, zeroing)[j]
    {
      GrownStepsAt(m, off, size, extra, owner, low, zeroing, j);
    }
  }

  /** The cell a growth leaves: the old payload first, and the grains added behind it. */
  function GrownCell(m: seq<int>, c: Cell, off: nat, extra: nat, owner: int, low: bool, zeroing: bool): Cell
    requires c.Busy? && off + c.size + HDR + (if low then extra else 0) <= |m| && (!low ==> extra <= off)
  {
    var at := if low then off else off - extra;
    Busy(c.size + extra, owner, GrownWords(m, off, c.size, extra, owner, low, zeroing)[at + 1..at + 1 + c.size + extra])
  }

  /** A growth keeps the payload the cell had, at the cell's lower end, and zeroes what it adds where asked. */
  lemma {:induction false} GrownKeeps(m: seq<int>, c: Cell, off: nat, extra: nat, owner: int, low: bool, zeroing: bool)
    requires c.Busy? && off + c.size + HDR + (if low then extra else 0) <= |m| && (!low ==> extra <= off)
    requires Holds(m, off, c)
    ensures var grown := GrownCell(m, c, off, extra, owner, low, zeroing);
      && |grown.payload| == grown.size && grown.payload[..c.size] == c.payload
      && (zeroing ==> forall j :: c.size <= j < grown.size ==> grown.payload[j] == 0)
  {
    hide GrownWords, Header;
    var at := if low then off else off - extra;
    var grown := GrownCell(m, c, off, extra, owner, low, zeroing);
    GrownAt(m, off, c.size, extra, owner, low, zeroing, at);
    forall j | 0 <= j < c.size + extra
      ensures j < c.size ==> grown.payload[j] == c.payload[j]
      ensures j >= c.size && zeroing ==> grown.payload[j] == 0
    {
      GrownAt(m, off, c.size, extra, owner, low, zeroing, at + 1 + j);
    }
  }

  /** Apart from its two words, a grown cell is memory as it stood outside the cell. */
  lemma {:induction false} GrownReads(m: seq<int>, off: nat, size: nat, extra: nat, owner: int, low: bool,
                                      zeroing: bool) returns (bare: seq<int>)
    requires off + size + HDR + (if low then extra else 0) <= |m| && (!low ==> extra <= off)
    ensures var at := if low then off else off - extra;
      && |bare| == |m|
      && GrownWords(m, off, size, extra, owner, low, zeroing)
           == bare[at + 1 + size + extra := owner][at := Header(size + extra, true)]
      && forall j :: 0 <= j < |m| && (j < at || at + size + extra + HDR <= j) ==> bare[j] == m[j]
  {
    bare := GrownWords(m, off, size, extra, owner, low, zeroing);
  }

  /** A tier around its newest cell, the last upward and the first downward. */
  lemma {:induction false} NewestSplits(up: seq<Cell>, down: seq<Cell>, low: bool, k: nat, c: Cell)
    requires k < |Tier(up, down, low)| && if low then k == |up| - 1 else k == 0
    ensures low ==> With(up, k, c) == up[..k] + [c] && Span(up) == Span(up[..k]) + Extent(up[k])
    ensures !low ==> With(down, k, c) == [c] + down[1..] && Span(down) == Extent(down[0]) + Span(down[1..])
  {
    if low {
      SpanSplit(up, k);
      assert up[..k + 1] == up;
    } else {
      SpanSplit(down, 0);
      assert down[0..] == down;
    }
  }

  lemma {:induction false} TilingsGrown(m: seq<int>, up: seq<Cell>, down: seq<Cell>, owners: nat, low: bool, k: nat,
                                        extra: nat, owner: int, zeroing: bool)
    requires Tilings(m, up, down, owners) && k < |Tier(up, down, low)| && Tier(up, down, low)[k].Busy?
    requires if low then k == |up| - 1 else k == 0
    requires Span(up) + Span(down) + extra <= |m|
    requires !IsComplete(owner) && 1 <= PlaceOf(owner) <= owners
    ensures var c, off := Tier(up, down, low)[k], OffOf(|m|, up, down, low, k);
      && 0 <= off && off + c.size + HDR + (if low then extra else 0) <= |m| && (!low ==> extra <= off)
      && var grown := GrownCell(m, c, off, extra, owner, low, zeroing);
      && Tilings(GrownWords(m, off, c.size, extra, owner, low, zeroing),
                 if low then With(up, k, grown) else up, if low then down else With(down, k, grown), owners)
      && Span(With(Tier(up, down, low), k, grown)) == Span(Tier(up, down, low)) + extra
  {
    hide Lays, Span, Tilings, IsComplete, PlaceOf, Footed, GrownWords, Header, With;
    TilingsReads(m, up, down, owners);
    TilingsCell(m, up, down, owners, low, k);
    var c, off := Tier(up, down, low)[k], OffOf(|m|, up, down, low, k);
    NewestRoom(up, down, |m|, low, k, extra);
    var grown := GrownCell(m, c, off, extra, owner, low, zeroing);
    NewestSplits(up, down, low, k, grown);
    var bare := GrownReads(m, off, c.size, extra, owner, low, zeroing);
    var words := GrownWords(m, off, c.size, extra, owner, low, zeroing);
    if low {
      assert down[0..] == down;
      TilingsShorter(m, up, down, owners, k, 0);
      TilingsGap(m, bare, up[..k], down, owners);
      TilingsTakes(bare, words, off, grown, up[..k], down, owners);
    } else {
      assert up[..|up|] == up;
      TilingsShorter(m, up, down, owners, |up|, 1);
      TilingsGap(m, bare, up, down[1..], owners);
      TilingsTakes(bare, words, off - extra, grown, up, down[1..], owners);
    }
  }

  /** Where a tier's newest cell stands, and the room the gap leaves it. */
  lemma {:induction false} NewestRoom(up: seq<Cell>, down: seq<Cell>, size: nat, low: bool, k: nat, extra: nat)
    requires Span(up) + Span(down) + extra <= size && k < |Tier(up, down, low)| && if low then k == |up| - 1 else k == 0
    ensures var c, off := Tier(up, down, low)[k], OffOf(size, up, down, low, k);
      && 0 <= off && off + Extent(c) + (if low then extra else 0) <= size && (!low ==> extra <= off)
      && (if low then off + Extent(c) == Span(up) else off == size - Span(down))
  {
    hide Span;
    NewestSplits(up, down, low, k, Tier(up, down, low)[k]);
    SpanNone(down, 0);
  }

  /** A growth counts the grains it adds, and those alone. */
  lemma {:induction false} LedgerGrown(table: seq<int>, inUse: int, tierUse: int, up: seq<Cell>, down: seq<Cell>,
                                       uncounted: int, beyond: seq<int>, low: bool, k: nat, grown: Cell)
    requires Ledger(table, inUse, tierUse, up, down, uncounted, beyond)
    requires k < |Tier(up, down, low)| && Tier(up, down, low)[k].Busy? && grown.Busy?
    requires PlaceOf(grown.owner) == PlaceOf(Tier(up, down, low)[k].owner) && 1 <= PlaceOf(grown.owner) <= |table|
    ensures var extra := grown.size - Tier(up, down, low)[k].size;
            var place := PlaceOf(grown.owner);
      Ledger(table[place - 1 := table[place - 1] + extra], inUse + extra, tierUse + (if low then extra else 0),
             if low then With(up, k, grown) else up, if low then down else With(down, k, grown), uncounted, beyond)
  {
    hide Held, Owned, PlaceOf;
    var c, tier := Tier(up, down, low)[k], Tier(up, down, low);
    ReplaceCounts(tier, k, [grown], 0);
    CountsOne(grown, 0);
    CountsOne(c, 0);
    forall place | 1 <= place <= |table|
      ensures Owned(With(tier, k, grown), place)
           == Owned(tier, place) + if PlaceOf(c.owner) == place then grown.size - c.size else 0
    {
      ReplaceCounts(tier, k, [grown], place);
      CountsOne(grown, place);
      CountsOne(c, place);
    }
  }

  // ---- the temporary tier rewound ---------------------------------------------------------------------------

  /** The lowest temporary cell dropped: its owner word may be written, what is above it stands. */
  lemma {:induction false} TilingsDropped(m: seq<int>, m': seq<int>, up: seq<Cell>, down: seq<Cell>, owners: nat)
    requires Tilings(m, up, down, owners) && down != [] && |m'| == |m|
    requires forall j :: 0 <= j < |m| && (j < Span(up) || |m| - Span(down) + Extent(down[0]) <= j) ==> m'[j] == m[j]
    ensures Tilings(m', up, down[1..], owners)
    ensures Span(down) == Extent(down[0]) + Span(down[1..])
  {
    hide Lays, Span, Tilings;
    TilingsShorter(m, up, down, owners, |up|, 1);
    assert up[..|up|] == up && down[0..] == down;
    SpanSplit(down, 0);
    TilingsGap(m, m', up, down[1..], owners);
  }

  /** A dropped cell counted off where its owner word still names an owner, and not where it names none. */
  lemma {:induction false} LedgerDropped(table: seq<int>, inUse: int, tierUse: int, up: seq<Cell>, down: seq<Cell>,
                                         uncounted: int, beyond: seq<int>)
    requires Ledger(table, inUse, tierUse, up, down, uncounted, beyond) && down != []
    requires down[0].Busy? ==> 1 <= PlaceOf(down[0].owner) <= |table|
    ensures var c := down[0];
      if c.Busy? then
        Ledger(table[PlaceOf(c.owner) - 1 := table[PlaceOf(c.owner) - 1] - c.size], inUse - c.size, tierUse, up,
               down[1..], uncounted, beyond)
      else Ledger(table, inUse, tierUse, up, down[1..], uncounted, beyond)
  {
    hide PlaceOf;
  }

  /** Of two suffixes of a tier the longer spans the more, and they span the same only where they are the same. */
  lemma {:induction false} SuffixSpans(cells: seq<Cell>, i: nat, j: nat)
    requires i <= j <= |cells|
    ensures Span(cells[i..]) >= Span(cells[j..])
    ensures Span(cells[i..]) == Span(cells[j..]) <==> i == j
  {
    SpanSplit(cells, i);
    SpanSplit(cells, j);
    SpanMonotone(cells, i, j);
  }

  lemma {:induction false} ZeroedBetween(m: seq<int>, at: nat, n: nat)
    requires at + n <= |m|
    ensures |Zeroes(m, at, n)| == |m|
    ensures forall j :: at <= j < at + n ==> Zeroes(m, at, n)[j] == 0
    ensures forall j :: 0 <= j < |m| && !(at <= j < at + n) ==> Zeroes(m, at, n)[j] == m[j]
  {
  }

  /** A busy cell with the payload a memory holds of it. */
  function HeldCell(m: seq<int>, off: nat, c: Cell): Cell
    requires off + Extent(c) <= |m|
  {
    Busy(c.size, c.owner, m[off + 1..off + 1 + c.size])
  }

  lemma {:induction false} HeldIs(m: seq<int>, off: nat, c: Cell)
    requires off + Extent(c) <= |m|
    ensures var held := HeldCell(m, off, c); held.Busy? && held.size == c.size && held.owner == c.owner
  {
  }

  /** A word stored in a payload changes that payload and nothing else. */
  lemma {:induction false} TilingsStored(m: seq<int>, up: seq<Cell>, down: seq<Cell>, owners: nat, low: bool, k: nat,
                                         at: nat, word: int)
    requires Tilings(m, up, down, owners) && k < |Tier(up, down, low)| && Tier(up, down, low)[k].Busy?
    requires OffOf(|m|, up, down, low, k) < at <= OffOf(|m|, up, down, low, k) + Tier(up, down, low)[k].size
    ensures var c, off := Tier(up, down, low)[k], OffOf(|m|, up, down, low, k);
      && 0 <= off && off + Extent(c) <= |m| && at < |m| && 1 <= PlaceOf(c.owner) <= owners
      && var held := HeldCell(m[at := word], off, c);
      && Tilings(m[at := word], if low then With(up, k, held) else up,
                 if low then down else With(down, k, held), owners)
      && Span(With(Tier(up, down, low), k, held)) == Span(Tier(up, down, low))
  {
    hide Lays, Span, Tilings, PlaceOf, IsComplete;
    TilingsCell(m, up, down, owners, low, k);
    var c, off := Tier(up, down, low)[k], OffOf(|m|, up, down, low, k);
    TilingsReplaced(m, m[at := word], up, down, owners, low, k, HeldCell(m[at := word], off, c));
  }

  lemma {:induction false} LedgerStored(table: seq<int>, inUse: int, tierUse: int, up: seq<Cell>, down: seq<Cell>,
                                        uncounted: int, beyond: seq<int>, low: bool, k: nat, held: Cell)
    requires Ledger(table, inUse, tierUse, up, down, uncounted, beyond)
    requires k < |Tier(up, down, low)| && Tier(up, down, low)[k].Busy? && held.Busy?
    requires held.size == Tier(up, down, low)[k].size && held.owner == Tier(up, down, low)[k].owner
    requires 1 <= PlaceOf(held.owner) <= |table|
    ensures Ledger(table, inUse, tierUse, if low then With(up, k, held) else up,
                   if low then down else With(down, k, held), uncounted, beyond)
  {
    hide Ledger, PlaceOf;
    LedgerGrown(table, inUse, tierUse, up, down, uncounted, beyond, low, k, held);
    assert table[PlaceOf(held.owner) - 1 := table[PlaceOf(held.owner) - 1]] == table;
  }

  // ---- the cells alive in a cellblock -----------------------------------------------------------------------

  /** The busy cells of both tiers with the offsets they stand at, from the lowest up. */
  ghost function Alive(up: seq<Cell>, down: seq<Cell>, size: nat): seq<(nat, Cell)>
    requires Span(down) <= size
  {
    Busies(up, 0) + Busies(down, size - Span(down))
  }

  /** One cell more is alive, at the place its offset gives it, and every other is as it was. */
  ghost predicate Gains(before: seq<(nat, Cell)>, after: seq<(nat, Cell)>, x: (nat, Cell)) {
    exists i: nat :: i <= |before| && after == before[..i] + [x] + before[i..]
  }

  lemma {:induction false} GainsBetween(a: seq<(nat, Cell)>, b: seq<(nat, Cell)>, x: (nat, Cell))
    ensures Gains(a + b, a + [x] + b, x)
  {
    assert (a + b)[..|a|] == a && (a + b)[|a|..] == b;
  }

  lemma {:induction false} BusiesParts(a: seq<Cell>, laid: seq<Cell>, b: seq<Cell>, at: nat)
    ensures Busies(a + laid + b, at)
        == Busies(a, at) + Busies(laid, at + Span(a)) + Busies(b, at + Span(a) + Span(laid))
  {
    hide Busies, Span;
    BusiesConcat(a + laid, b, at);
    BusiesConcat(a, laid, at);
    SpanConcat(a, laid);
  }

  /** The busy cells around one cell, whatever is laid over its grains. */
  lemma {:induction false} BusiesAround(cells: seq<Cell>, k: nat, laid: seq<Cell>, at: nat)
    returns (a: seq<(nat, Cell)>, b: seq<(nat, Cell)>)
    requires k < |cells| && Span(laid) == Extent(cells[k])
    ensures Busies(cells, at) == a + Busies([cells[k]], at + Span(cells[..k])) + b
    ensures Busies(cells[..k] + laid + cells[k + 1..], at) == a + Busies(laid, at + Span(cells[..k])) + b
  {
    hide Busies, Span;
    assert cells == cells[..k] + [cells[k]] + cells[k + 1..];
    a, b := Busies(cells[..k], at), Busies(cells[k + 1..], at + Span(cells[..k]) + Extent(cells[k]));
    BusiesParts(cells[..k], [cells[k]], cells[k + 1..], at);
    BusiesParts(cells[..k], laid, cells[k + 1..], at);
    SpanOne(cells[k]);
  }

  /** The walk and the trim disturb no busy cell. */
  lemma {:induction false} AliveReturned(up: seq<Cell>, down: seq<Cell>, size: nat)
    requires Span(down) <= size && AllPositive(up)
    ensures Span(DropFree(down)) <= size
    ensures Alive(Merged(up), down, size) == Alive(up, down, size)
    ensures Alive(up, DropFree(down), size) == Alive(up, down, size)
  {
    hide Merged, Busies, Span, DropFree, AllPositive;
    WalkedBusies(up, 0);
    DropFreeBusies(down, size - Span(down));
  }

  lemma {:induction false} ReturnedSpans(up: seq<Cell>, down: seq<Cell>)
    requires AllPositive(up)
    ensures Span(Merged(up)) <= Span(up) && Span(DropFree(down)) <= Span(down)
  {
    WalkedSpan(up);
    DropFreeIsSuffix(down);
  }

  lemma {:induction false} DropFreeBusies(cells: seq<Cell>, at: nat)
    ensures Span(DropFree(cells)) <= Span(cells)
    ensures Busies(DropFree(cells), at + Span(cells) - Span(DropFree(cells))) == Busies(cells, at)
    decreases |cells|
  {
    DropFreeIsSuffix(cells);
    if cells != [] && cells[0].Free? {
      DropFreeBusies(cells[1..], at + Extent(cells[0]));
    }
  }

  lemma {:induction false} TakenBusies(size: nat, want: nat, owner: int, payload: seq<int>, at: nat)
    requires 1 <= want <= size
    ensures Busies(Taken(size, want, owner, payload), at) == [(at, Busy(Kept(size, want), owner, payload))]
  {
    var laid := Taken(size, want, owner, payload);
    if |laid| > 1 {
      assert laid[1..] == [laid[1]];
      BusiesOne(laid[1], at + Extent(laid[0]));
    }
  }

  /** A take out of a run makes its cell alive and disturbs no other. */
  lemma {:induction false} AliveRunTaken(up: seq<Cell>, down: seq<Cell>, size: nat, k: nat, want: nat, owner: int,
                                         payload: seq<int>)
    requires Span(down) <= size && k < |up| && up[k].Free? && 1 <= want <= up[k].size
    ensures Gains(Alive(up, down, size),
                  Alive(up[..k] + Taken(up[k].size, want, owner, payload) + up[k + 1..], down, size),
                  (Span(up[..k]), Busy(Kept(up[k].size, want), owner, payload)))
  {
    hide Span, Busies, Taken;
    var laid, at := Taken(up[k].size, want, owner, payload), Span(up[..k]);
    TakenSpans(up[k].size, want, owner, payload);
    var a, b := BusiesAround(up, k, laid, 0);
    BusiesOne(up[k], at);
    TakenBusies(up[k].size, want, owner, payload, at);
    var above := Busies(down, size - Span(down));
    var x := (at, Busy(Kept(up[k].size, want), owner, payload));
    assert a + [] + b + above == a + (b + above);
    assert a + [x] + b + above == a + [x] + (b + above);
    GainsBetween(a, b + above, x);
  }

  /** A take out of the gap makes its cell alive and disturbs no other. */
  lemma {:induction false} AliveAppended(up: seq<Cell>, down: seq<Cell>, size: nat, c: Cell)
    requires c.Busy? && Span(down) + Extent(c) <= size
    ensures Gains(Alive(up, down, size), Alive(up + [c], down, size), (Span(up), c))
    ensures Span([c] + down) == Extent(c) + Span(down)
    ensures Gains(Alive(up, down, size), Alive(up, [c] + down, size), (size - Span(down) - Extent(c), c))
  {
    hide Span, Busies;
    BusiesConcat(up, [c], 0);
    BusiesOne(c, Span(up));
    SpanConcat([c], down);
    SpanOne(c);
    BusiesConcat([c], down, size - Span(down) - Extent(c));
    BusiesOne(c, size - Span(down) - Extent(c));
    var a, b := Busies(up, 0), Busies(down, size - Span(down));
    GainsBetween(a, b, (Span(up), c));
    GainsBetween(a, b, (size - Span(down) - Extent(c), c));
    assert a + ([(size - Span(down) - Extent(c), c)] + b) == a + [(size - Span(down) - Extent(c), c)] + b;
  }

  /** A give ends its own cell's life and disturbs no other. */
  lemma {:induction false} AliveFreed(up: seq<Cell>, down: seq<Cell>, size: nat, low: bool, k: nat)
    requires Span(down) <= size && k < |Tier(up, down, low)| && Tier(up, down, low)[k].Busy?
    ensures OffOf(size, up, down, low, k) >= 0
    ensures Span(if low then down else Freed(down, k)) == Span(down)
    ensures Gains(Alive(if low then Freed(up, k) else up, if low then down else Freed(down, k), size),
                  Alive(up, down, size), (OffOf(size, up, down, low, k), Tier(up, down, low)[k]))
  {
    hide Span, Completed, Busies;
    var cells := Tier(up, down, low);
    var free := Free(cells[k].size, Completed(cells[k].owner));
    SpanOne(free);
    WithSpans(cells, k, free);
    var a, b := BusiesAround(cells, k, [free], if low then 0 else size - Span(down));
    var at := OffOf(size, up, down, low, k);
    BusiesOne(free, at);
    BusiesOne(cells[k], at);
    var x := (at, cells[k]);
    var below, above := Busies(up, 0), Busies(down, size - Span(down));
    if low {
      GainsBetween(a, b + above, x);
      assert a + [] + b + above == a + (b + above) && a + [x] + b + above == a + [x] + (b + above);
    } else {
      GainsBetween(below + a, b, x);
      assert below + (a + [] + b) == below + a + b && below + (a + [x] + b) == below + a + [x] + b;
    }
  }

  lemma {:induction false} WithSpans(cells: seq<Cell>, k: nat, c: Cell)
    requires k < |cells|
    ensures Span(With(cells, k, c)) == Span(cells) - Extent(cells[k]) + Extent(c)
  {
    hide Span;
    SpanSplit(cells, k);
    SpanSplit(cells, k + 1);
    SpanOne(c);
    SpanConcat(cells[..k], [c]);
    SpanConcat(cells[..k] + [c], cells[k + 1..]);
  }

  /** A rewind ends the lives of the cells it drops and disturbs no other. */
  lemma {:induction false} AliveRewound(up: seq<Cell>, down: seq<Cell>, size: nat, j: nat)
    requires Span(down) <= size && j <= |down|
    ensures Span(down[j..]) <= Span(down)
    ensures Alive(up, down, size)
        == Busies(up, 0) + Busies(down[..j], size - Span(down)) + Busies(down[j..], size - Span(down[j..]))
  {
    hide Span, Busies;
    SpanSplit(down, j);
    BusiesConcat(down[..j], down[j..], size - Span(down));
    assert down == down[..j] + down[j..];
  }

  /** Two cells alive never share a grain, and memory holds each cell's words where it stands. */
  lemma {:induction false} AliveApart(m: seq<int>, up: seq<Cell>, down: seq<Cell>, owners: nat, i: nat, j: nat)
    requires Tilings(m, up, down, owners) && Span(down) <= |m|
    requires i < j < |Alive(up, down, |m|)|
    ensures var a, b := Alive(up, down, |m|)[i], Alive(up, down, |m|)[j];
      a.0 + Extent(a.1) <= b.0 && Holds(m, a.0, a.1) && Holds(m, b.0, b.1)
  {
    hide Busies, Lays, Holds;
    var n := |Busies(up, 0)|;
    TilingsReads(m, up, down, owners);
    BusyPlaces(m, up, 0);
    BusyPlaces(m, down, |m| - Span(down));
  }

  lemma {:induction false} BusyPlaces(m: seq<int>, cells: seq<Cell>, at: nat)
    requires Lays(m, at, cells)
    ensures forall i :: 0 <= i < |Busies(cells, at)| ==>
      var a := Busies(cells, at)[i]; at <= a.0 && a.0 + Extent(a.1) <= at + Span(cells) && Holds(m, a.0, a.1)
    ensures forall i, j :: 0 <= i < j < |Busies(cells, at)| ==>
      Busies(cells, at)[i].0 + Extent(Busies(cells, at)[i].1) <= Busies(cells, at)[j].0
    decreases |cells|
  {
    if cells != [] {
      BusyPlaces(m, cells[1..], at + Extent(cells[0]));
      var tail := Busies(cells[1..], at + Extent(cells[0]));
      assert Busies(cells, at) == (if cells[0].Busy? then [(at, cells[0])] else []) + tail;
    }
  }

  // ---- conservation -----------------------------------------------------------------------------------------

  function Sum(counts: seq<int>): int {
    if counts == [] then 0 else Sum(counts[..|counts| - 1]) + counts[|counts| - 1]
  }

  /** Payload grains of the busy cells that name one of the first `n` places. */
  function OwnedByFirst(cells: seq<Cell>, n: nat): nat {
    if n == 0 then 0 else OwnedByFirst(cells, n - 1) + Owned(cells, n)
  }

  lemma {:induction false} OwnedByFirstConcat(a: seq<Cell>, b: seq<Cell>, n: nat)
    ensures OwnedByFirst(a + b, n) == OwnedByFirst(a, n) + OwnedByFirst(b, n)
  {
    if n > 0 {
      OwnedByFirstConcat(a, b, n - 1);
      OwnedConcat(a, b, n);
    }
  }

  lemma {:induction false} OwnedByFirstOne(c: Cell, n: nat)
    ensures OwnedByFirst([c], n) == if c.Busy? && 1 <= PlaceOf(c.owner) <= n then c.size else 0
    ensures OwnedByFirst([], n) == 0
  {
    hide PlaceOf;
    if n > 0 {
      OwnedByFirstOne(c, n - 1);
      CountsOne(c, n);
    }
  }

  /** Every busy payload is owned by one listed owner and no other. */
  lemma {:induction false} HeldIsOwned(cells: seq<Cell>, owners: nat)
    requires Footed(cells, owners)
    ensures OwnedByFirst(cells, owners) == Held(cells)
  {
    hide PlaceOf, IsComplete;
    if cells == [] {
      OwnedByFirstOne(Free(0, 0), owners);
    } else {
      HeldIsOwned(cells[1..], owners);
      OwnedByFirstOne(cells[0], owners);
      OwnedByFirstConcat([cells[0]], cells[1..], owners);
      assert cells == [cells[0]] + cells[1..];
    }
  }

  /** The cellblock's total, the payloads of its busy cells, and its owners' counts of it are one amount, but for what
      moves laid uncounted. */
  lemma {:induction false} LedgerBalances(table: seq<int>, inUse: int, tierUse: int, up: seq<Cell>, down: seq<Cell>,
                                          uncounted: int, beyond: seq<int>)
    requires Ledger(table, inUse, tierUse, up, down, uncounted, beyond)
    requires Footed(up, |table|) && Footed(down, |table|)
    ensures inUse + uncounted == Held(up) + Held(down) == Sum(table) - Sum(beyond)
    ensures tierUse + uncounted == Held(up)
  {
    HeldIsOwned(up, |table|);
    HeldIsOwned(down, |table|);
    LedgerSums(table, up, down, beyond, |table|);
    assert table[..|table|] == table && beyond[..|table|] == beyond;
  }

  lemma {:induction false} LedgerSums(table: seq<int>, up: seq<Cell>, down: seq<Cell>, beyond: seq<int>, n: nat)
    requires |beyond| == |table| && n <= |table|
    requires forall place {:trigger table[place - 1]} :: 1 <= place <= |table| ==>
      table[place - 1] == Owned(up, place) + Owned(down, place) + beyond[place - 1]
    ensures Sum(table[..n]) == OwnedByFirst(up, n) + OwnedByFirst(down, n) + Sum(beyond[..n])
  {
    if n > 0 {
      LedgerSums(table, up, down, beyond, n - 1);
      assert table[..n][..n - 1] == table[..n - 1] && beyond[..n][..n - 1] == beyond[..n - 1];
      assert table[n - 1] == Owned(up, n) + Owned(down, n) + beyond[n - 1];
    }
  }
}
