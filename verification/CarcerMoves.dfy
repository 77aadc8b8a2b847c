/** What one move of a cell down into a free run below it does to a persistent tier. */
module CarcerMoves {
  import opened CarcerCells
  import opened CarcerTiers

  // ---- a tier walked already is walked to itself -----------------------------------------------------------

  lemma {:induction false} WalkedPrefix(cells: seq<Cell>, i: nat)
    requires NoAdjacentFree(cells) && AllPositive(cells) && i <= |cells|
    requires forall c :: c in cells && c.Free? ==> c.owner == 0
    ensures Walked(cells[..i])
         == if i > 0 && cells[i - 1].Free? then Walk(cells[..i - 1], cells[i - 1].size) else Walk(cells[..i], 0)
  {
    if i > 0 {
      WalkedPrefix(cells, i - 1);
      WalkedStep(cells, i - 1);
      assert i > 1 ==> cells[i - 2].Busy? || cells[i - 1].Busy?;
      assert cells[..i] == cells[..i - 1] + [cells[i - 1]];
      if i > 1 && cells[i - 2].Free? {
        assert cells[i - 2] == Free(cells[i - 2].size, 0);
        assert cells[..i - 1] == cells[..i - 2] + [cells[i - 2]];
      }
    }
  }

  /** The walk of a tier the walk has left changes nothing of it. */
  lemma {:induction false} MergedTwice(cells: seq<Cell>)
    requires AllPositive(cells)
    ensures Merged(Merged(cells)) == Merged(cells)
  {
    var m := Merged(cells);
    WalkedShape(cells);
    WalkedPrefix(m, |m|);
    assert m[..|m|] == m;
  }

  /** A tier whose every cell went back is walked to nothing. */
  lemma {:induction false} AllFreeMerged(cells: seq<Cell>)
    requires forall c :: c in cells ==> c.Free?
    ensures Merged(cells) == []
    decreases |cells|
  {
    if cells != [] {
      AllFreeMerged(cells[..|cells| - 1]);
    }
  }

  // ---- the tier a move leaves -------------------------------------------------------------------------------

  ghost predicate CanMove(up: seq<Cell>, k: nat, j: nat) {
    k < j < |up| && up[k].Free? && up[j].Busy? && 1 <= up[j].size <= up[k].size
  }

  function RunLaidTier(up: seq<Cell>, k: nat, want: nat, owner: int, payload: seq<int>): seq<Cell>
    requires k < |up| && want <= up[k].size
  {
    up[..k] + Taken(up[k].size, want, owner, payload) + up[k + 1..]
  }

  /** The place of a cell behind a run a take was laid in. */
  function Behind(up: seq<Cell>, k: nat, j: nat, want: nat): nat
    requires k < j < |up| && want <= up[k].size
  {
    if Kept(up[k].size, want) == up[k].size then j else j + 1
  }

  /** The run taken for the cell and the cell freed behind it; a cell that stood last is cut off the tier. */
  function MovedTier(up: seq<Cell>, k: nat, j: nat, payload: seq<int>): seq<Cell>
    requires CanMove(up, k, j)
  {
    var laid := RunLaidTier(up, k, up[j].size, up[j].owner, payload);
    var at := Behind(up, k, j, up[j].size);
    if j == |up| - 1 then laid[..at] else With(laid, at, Free(up[j].size, 0))
  }

  lemma {:induction false} BehindStands(up: seq<Cell>, k: nat, j: nat, want: nat, owner: int, payload: seq<int>)
    requires k < j < |up| && 1 <= want <= up[k].size
    ensures var laid, at := RunLaidTier(up, k, want, owner, payload), Behind(up, k, j, want);
      && at < |laid| && laid[at] == up[j] && Span(laid[..at]) == Span(up[..j]) && Span(laid) == Span(up)
      && (at == |laid| - 1 <==> j == |up| - 1)
  {
    hide Span;
    var cells := Taken(up[k].size, want, owner, payload);
    var laid, at := RunLaidTier(up, k, want, owner, payload), Behind(up, k, j, want);
    TakenSpans(up[k].size, want, owner, payload);
    assert laid[..at] == up[..k] + cells + up[k + 1..j];
    assert up[..j] == up[..k] + [up[k]] + up[k + 1..j];
    assert up == up[..k] + [up[k]] + up[k + 1..];
    SpanOne(up[k]);
    SpanThree(up[..k], cells, up[k + 1..j]);
    SpanThree(up[..k], [up[k]], up[k + 1..j]);
    SpanThree(up[..k], cells, up[k + 1..]);
    SpanThree(up[..k], [up[k]], up[k + 1..]);
  }

  lemma {:induction false} BehindRest(up: seq<Cell>, k: nat, j: nat, want: nat, owner: int, payload: seq<int>)
    requires k < j < |up| && 1 <= want <= up[k].size
    ensures var laid, at := RunLaidTier(up, k, want, owner, payload), Behind(up, k, j, want);
      at < |laid| && laid[at + 1..] == up[j + 1..]
  {
    var cells := Taken(up[k].size, want, owner, payload);
    var laid, at := RunLaidTier(up, k, want, owner, payload), Behind(up, k, j, want);
    assert up[k + 1..] == up[k + 1..j] + [up[j]] + up[j + 1..];
    assert laid == (up[..k] + cells + up[k + 1..j] + [up[j]]) + up[j + 1..];
  }

  lemma {:induction false} SpanThree(a: seq<Cell>, b: seq<Cell>, c: seq<Cell>)
    ensures Span(a + b + c) == Span(a) + Span(b) + Span(c)
  {
    SpanConcat(a + b, c);
    SpanConcat(a, b);
  }

  /** Memory as a move leaves it where its cell was: a free cell's two words, any payload, and all else untouched. */
  ghost predicate LeftBehind(m: seq<int>, m': seq<int>, off: nat, size: nat) {
    && off + size + HDR <= |m| == |m'|
    && m'[off] == Header(size, false) && m'[off + 1 + size] == 0
    && (forall j :: 0 <= j < off ==> m'[j] == m[j])
    && (forall j :: off + size + HDR <= j < |m| ==> m'[j] == m[j])
  }

  lemma {:induction false} RunLaidFits(m: seq<int>, m': seq<int>, at: nat, size: nat, want: nat, owner: int)
    requires RunLaid(m, m', at, size, want, owner)
    ensures at + size + HDR <= |m| == |m'| && want <= Kept(size, want) <= size
  {
  }

  /** The rest of a split is laid inside the run, and the cell's own grains are left as they were. */
  lemma {:induction false} RestReads(m: seq<int>, at: nat, size: nat, want: nat)
    requires 1 <= want <= size && at + size + HDR <= |m|
    ensures var rest := RestLaid(m, at, size, want);
      && |rest| == |m|
      && (Kept(size, want) != size ==>
          rest[at + HDR + want] == Header(size - want - HDR, false) && rest[at + 1 + size] == 0)
      && (forall j :: 0 <= j <= at + want ==> rest[j] == m[j])
      && (forall j :: at + size + HDR <= j < |m| ==> rest[j] == m[j])
  {
  }

  /** The run with its rest laid and the payload copied into it. */
  ghost function Filled(m: seq<int>, off: nat, size: nat, at: nat, runSize: nat): (filled: seq<int>)
    requires 1 <= size <= runSize && at + runSize + HDR <= off && off + size + HDR <= |m|
  {
    RestReads(m, at, runSize, size);
    Carried(RestLaid(m, at, runSize, size), at + 1, off + 1, size)
  }

  lemma {:induction false} FilledIs(m: seq<int>, off: nat, size: nat, at: nat, runSize: nat)
    requires 1 <= size <= runSize && at + runSize + HDR <= off && off + size + HDR <= |m|
    ensures |RestLaid(m, at, runSize, size)| == |m|
    ensures Filled(m, off, size, at, runSize) == Carried(RestLaid(m, at, runSize, size), at + 1, off + 1, size)
  {
    RestReads(m, at, runSize, size);
  }

  lemma {:induction false} FilledReads(m: seq<int>, off: nat, size: nat, at: nat, runSize: nat)
    requires 1 <= size <= runSize && at + runSize + HDR <= off && off + size + HDR <= |m|
    ensures var filled := Filled(m, off, size, at, runSize);
      && |filled| == |m|
      && (Kept(runSize, size) != runSize ==>
            filled[at + HDR + size] == Header(runSize - size - HDR, false) && filled[at + 1 + runSize] == 0)
      && (forall j :: at < j <= at + size ==> filled[j] == m[j - at + off])
      && (forall j :: 0 <= j <= at ==> filled[j] == m[j])
      && (forall j :: at + runSize + HDR <= j < |m| ==> filled[j] == m[j])
  {
    hide RestLaid, Header, Carried, Filled;
    RestReads(m, at, runSize, size);
    FilledIs(m, off, size, at, runSize);
    var rest := RestLaid(m, at, runSize, size);
    CarriedAt(rest, at + 1, off + 1, size, at);
    var filled := Filled(m, off, size, at, runSize);
    forall j | 0 <= j < |m|
      ensures at < j <= at + size ==> filled[j] == m[j - at + off]
      ensures !(at < j <= at + size) ==> filled[j] == rest[j]
    {
      CarriedAt(rest, at + 1, off + 1, size, j);
    }
  }

  /** The stores of a move's copy, in the order they are made, lay the run. */
  lemma {:induction false} MoveLaid(m: seq<int>, laid: seq<int>, off: nat, size: nat, at: nat, runSize: nat)
    requires 1 <= size <= runSize && at + runSize + HDR <= off && off + size + HDR <= |m|
    requires |Filled(m, off, size, at, runSize)| == |m|
    requires var kept := Kept(runSize, size);
      laid == Filled(m, off, size, at, runSize)[at + 1 + kept := m[off + 1 + size]][at := Header(kept, true)]
    ensures RunLaid(m, laid, at, runSize, size, m[off + 1 + size])
    ensures laid[at + 1..at + 1 + size] == m[off + 1..off + 1 + size]
  {
    hide Filled;
    FilledReads(m, off, size, at, runSize);
  }

  lemma {:induction false} LeavesBehind(m: seq<int>, m': seq<int>, off: nat, size: nat, n: nat)
    requires off + size + HDR <= |m| && (n == 0 || n == size) && |Zeroes(m, off + 1, n)| == |m|
    requires m' == Zeroes(m, off + 1, n)[off + 1 + size := 0][off := Header(size, false)]
    ensures LeftBehind(m, m', off, size)
    ensures n == size ==> forall j :: off < j <= off + size ==> m'[j] == 0
  {
    hide Zeroes;
    ZeroedBetween(m, off + 1, n);
  }

  lemma {:induction false} LeavesBelow(m: seq<int>, m': seq<int>, off: nat, size: nat, a: nat, b: nat)
    requires LeftBehind(m, m', off, size) && a <= b <= off
    ensures |m'| == |m| && m'[a..b] == m[a..b]
  {
  }

  /** A move keeps both tiers tiled. */
  lemma {:induction false} TilingsMoved(m: seq<int>, m': seq<int>, m'': seq<int>, up: seq<Cell>, down: seq<Cell>,
                                        owners: nat, k: nat, j: nat)
    requires Tilings(m, up, down, owners) && CanMove(up, k, j)
    requires RunLaid(m, m', Span(up[..k]), up[k].size, up[j].size, up[j].owner)
    requires LeftBehind(m', m'', Span(up[..j]), up[j].size)
    ensures var at := Span(up[..k]);
            var moved := MovedTier(up, k, j, m'[at + 1..at + 1 + Kept(up[k].size, up[j].size)]);
      Tilings(m'', moved, down, owners)
      && Span(moved) == (if j == |up| - 1 then Span(up[..j]) else Span(up))
  {
    hide Span, Lays, Tilings, RunLaid;
    RunLaidFits(m, m', Span(up[..k]), up[k].size, up[j].size, up[j].owner);
    var at, off := Span(up[..k]), Span(up[..j]);
    var c := up[j];
    TilingsCell(m, up, down, owners, true, j);
    var words := m'[at + 1..at + 1 + Kept(up[k].size, c.size)];
    var laid, behind := RunLaidTier(up, k, c.size, c.owner, words), Behind(up, k, j, c.size);
    TilingsRunTaken(m, m', up, down, owners, k, c.size, c.owner);
    BehindStands(up, k, j, c.size, c.owner, words);
    assert IsDone(0);
    TilingsReplaced(m', m'', laid, down, owners, true, behind, Free(c.size, 0));
    var freed := With(laid, behind, Free(c.size, 0));
    TilingsShorter(m'', freed, down, owners, behind, 0);
    assert freed[..behind] == laid[..behind] && down[0..] == down;
  }

  /** The counts stand while the cell may hold more than it did: the difference is what a move leaves uncounted. */
  lemma {:induction false} LedgerMoved(table: seq<int>, inUse: int, tierUse: int, up: seq<Cell>, down: seq<Cell>,
                                       uncounted: int, beyond: seq<int>, k: nat, j: nat, payload: seq<int>)
    requires Ledger(table, inUse, tierUse, up, down, uncounted, beyond) && CanMove(up, k, j)
    requires 1 <= PlaceOf(up[j].owner) <= |table|
    ensures var drift := Kept(up[k].size, up[j].size) - up[j].size;
            var place := PlaceOf(up[j].owner);
      && 0 <= drift <= HDR
      && Ledger(table, inUse, tierUse, MovedTier(up, k, j, payload), down, uncounted + drift,
                beyond[place - 1 := beyond[place - 1] - drift])
  {
    hide Held, Owned, PlaceOf;
    var c := up[j];
    TakenSpans(up[k].size, c.size, c.owner, payload);
    MovedCounts(up, k, j, payload, 0);
    forall place: nat | 1 <= place <= |table|
      ensures Owned(MovedTier(up, k, j, payload), place)
           == Owned(up, place) + if PlaceOf(c.owner) == place then Kept(up[k].size, c.size) - c.size else 0
    {
      MovedCounts(up, k, j, payload, place);
    }
  }

  /** Conservation through a move: the counts equal the busy payloads as before it if and only if the run it fills is
      the cell's own size or splits. */
  lemma {:induction false} MoveConserves(table: seq<int>, inUse: int, tierUse: int, up: seq<Cell>, down: seq<Cell>,
                                         uncounted: int, beyond: seq<int>, k: nat, j: nat, payload: seq<int>)
    requires Ledger(table, inUse, tierUse, up, down, uncounted, beyond) && CanMove(up, k, j)
    ensures inUse == Held(MovedTier(up, k, j, payload)) + Held(down) - uncounted
       <==> up[k].size == up[j].size || up[k].size > up[j].size + HDR
  {
    hide Held, Owned;
    MovedCounts(up, k, j, payload, 0);
  }

  /** A cell of two grains moved into a run of three leaves a grain counted by none. */
  lemma {:induction false} MoveDrifts()
    ensures var up := [Free(3, 0), Busy(2, OwnerWord(1, 0), [7, 7])];
      && CanMove(up, 0, 1)
      && Held(MovedTier(up, 0, 1, [7, 7, 0])) == 3 && Held(up) == 2
  {
    var up := [Free(3, 0), Busy(2, OwnerWord(1, 0), [7, 7])];
    MovedCounts(up, 0, 1, [7, 7, 0], 0);
    assert up[1..] == [up[1]] && up[1..][1..] == [];
  }

  lemma {:induction false} MovedCounts(up: seq<Cell>, k: nat, j: nat, payload: seq<int>, place: nat)
    requires CanMove(up, k, j)
    ensures Held(MovedTier(up, k, j, payload)) == Held(up) + Kept(up[k].size, up[j].size) - up[j].size
    ensures Owned(MovedTier(up, k, j, payload), place)
         == Owned(up, place) + if PlaceOf(up[j].owner) == place then Kept(up[k].size, up[j].size) - up[j].size else 0
  {
    hide Held, Owned, PlaceOf, Span;
    var c := up[j];
    var laid, at := RunLaidTier(up, k, c.size, c.owner, payload), Behind(up, k, j, c.size);
    var free := Free(c.size, 0);
    BehindStands(up, k, j, c.size, c.owner, payload);
    ReplaceCounts(up, k, Taken(up[k].size, c.size, c.owner, payload), place);
    TakenCounts(up[k].size, c.size, c.owner, payload, place);
    CountsOne(up[k], place);
    CountsOne(c, place);
    CountsOne(free, place);
    ReplaceCounts(laid, at, [free], place);
    if j == |up| - 1 {
      assert With(laid, at, free) == laid[..at] + [free];
      HeldConcat(laid[..at], [free]);
      OwnedConcat(laid[..at], [free], place);
    }
  }

  /** A move carries one busy cell to a lower offset and disturbs no other. */
  lemma {:induction false} BusiesMoved(up: seq<Cell>, k: nat, j: nat, payload: seq<int>)
    returns (others: seq<(nat, Cell)>)
    requires CanMove(up, k, j)
    ensures Gains(others, Busies(up, 0), (Span(up[..j]), up[j]))
    ensures Gains(others, Busies(MovedTier(up, k, j, payload), 0),
                  (Span(up[..k]), Busy(Kept(up[k].size, up[j].size), up[j].owner, payload)))
    ensures Span(up[..k]) + up[k].size + HDR <= Span(up[..j])
  {
    hide Busies, Span, Gains;
    var c := up[j];
    var free := Free(c.size, 0);
    var cells, at := Taken(up[k].size, c.size, c.owner, payload), Behind(up, k, j, c.size);
    var a, mid, b := Busies(up[..k], 0), Busies(up[k + 1..j], Span(up[..k + 1])),
        Busies(up[j + 1..], Span(up[..j + 1]));
    var x, y := (Span(up[..j]), c), (Span(up[..k]), Busy(Kept(up[k].size, c.size), c.owner, payload));
    others := a + mid + b;
    GainsBetween(a + mid, b, x);
    GainsBetween(a, mid + b, y);
    assert a + (mid + b) == others && a + [y] + (mid + b) == a + [y] + mid + b;
    BusiesBefore(up, k, j);
    BusiesMovedTier(up, k, j, payload);
    SpanSplit(up, k);
    SpanMonotone(up, k + 1, j);
  }

  lemma {:induction false} BusiesBefore(up: seq<Cell>, k: nat, j: nat)
    requires CanMove(up, k, j)
    ensures Busies(up, 0) == Busies(up[..k], 0) + Busies(up[k + 1..j], Span(up[..k + 1]))
                           + [(Span(up[..j]), up[j])] + Busies(up[j + 1..], Span(up[..j + 1]))
  {
    hide Busies, Span;
    assert up == (up[..k] + [up[k]] + up[k + 1..j]) + [up[j]] + up[j + 1..];
    assert up[..j] == up[..k] + [up[k]] + up[k + 1..j];
    SpanSplit(up, k);
    SpanSplit(up, j);
    SpanOne(up[k]);
    SpanOne(up[j]);
    BusiesParts(up[..j], [up[j]], up[j + 1..], 0);
    BusiesParts(up[..k], [up[k]], up[k + 1..j], 0);
    BusiesOne(up[k], Span(up[..k]));
    BusiesOne(up[j], Span(up[..j]));
  }

  lemma {:induction false} BusiesMovedTier(up: seq<Cell>, k: nat, j: nat, payload: seq<int>)
    requires CanMove(up, k, j)
    ensures Busies(MovedTier(up, k, j, payload), 0)
         == Busies(up[..k], 0) + [(Span(up[..k]), Busy(Kept(up[k].size, up[j].size), up[j].owner, payload))]
          + Busies(up[k + 1..j], Span(up[..k + 1])) + Busies(up[j + 1..], Span(up[..j + 1]))
  {
    hide Busies, Span;
    var c := up[j];
    var free := Free(c.size, 0);
    var cells, at := Taken(up[k].size, c.size, c.owner, payload), Behind(up, k, j, c.size);
    var laid := RunLaidTier(up, k, c.size, c.owner, payload);
    BehindStands(up, k, j, c.size, c.owner, payload);
    TakenSpans(up[k].size, c.size, c.owner, payload);
    TakenBusies(up[k].size, c.size, c.owner, payload, Span(up[..k]));
    SpanSplit(up, k);
    SpanSplit(up, j);
    assert laid[..at] == up[..k] + cells + up[k + 1..j];
    BusiesParts(up[..k], cells, up[k + 1..j], 0);
    if j == |up| - 1 {
      assert up[j + 1..] == [];
      BusiesNone(Span(up[..j + 1]));
    } else {
      SpanOne(free);
      BusiesParts(laid[..at], [free], laid[at + 1..], 0);
      BusiesOne(free, Span(laid[..at]));
      BehindRest(up, k, j, c.size, c.owner, payload);
    }
  }

  /** Where the run and the cell of a move stand, and what memory holds of the cell. */
  lemma {:induction false} MovePlaces(m: seq<int>, up: seq<Cell>, down: seq<Cell>, owners: nat, k: nat, j: nat)
    requires Tilings(m, up, down, owners) && CanMove(up, k, j)
    ensures var at, off, c := Span(up[..k]), Span(up[..j]), up[j];
      && at + up[k].size + HDR <= off && off + c.size + HDR <= Span(up) <= |m|
      && (off + c.size + HDR == Span(up) <==> j == |up| - 1)
      && m[off + 1 + c.size] == c.owner && m[off + 1..off + 1 + c.size] == c.payload
      && 1 <= PlaceOf(c.owner) <= owners
  {
    hide Span, Lays, Tilings, PlaceOf, IsComplete;
    TilingsCell(m, up, down, owners, true, j);
    TilingsReads(m, up, down, owners);
    SpanSplit(up, k);
    SpanMonotone(up, k + 1, j);
  }

  /** A move keeps both tiers tiled, and the counts up to what it leaves uncounted. */
  lemma {:induction false} MoveKeeps(m: seq<int>, laid: seq<int>, m': seq<int>, up: seq<Cell>, down: seq<Cell>, k: nat,
                                     j: nat, table: seq<int>, inUse: int, tierUse: int, uncounted: int,
                                     beyond: seq<int>)
    requires Tilings(m, up, down, |table|) && Ledger(table, inUse, tierUse, up, down, uncounted, beyond)
    requires CanMove(up, k, j)
    requires RunLaid(m, laid, Span(up[..k]), up[k].size, up[j].size, up[j].owner)
    requires laid[Span(up[..k]) + 1..Span(up[..k]) + 1 + up[j].size] == up[j].payload
    requires LeftBehind(laid, m', Span(up[..j]), up[j].size)
    ensures var at, kept, place := Span(up[..k]), Kept(up[k].size, up[j].size), PlaceOf(up[j].owner);
            var drift := kept - up[j].size;
      && at + 1 + kept <= |m'| && 0 <= drift <= HDR && 1 <= place <= |table| == |beyond|
      && m'[at + 1..at + 1 + up[j].size] == up[j].payload
      && var moved := MovedTier(up, k, j, m'[at + 1..at + 1 + kept]);
      && Tilings(m', moved, down, |table|)
      && Span(moved) == (if j == |up| - 1 then Span(up[..j]) else Span(up))
      && Ledger(table, inUse, tierUse, moved, down, uncounted + drift, beyond[place - 1 := beyond[place - 1] - drift])
  {
    hide Span, Lays, Tilings, Ledger, RunLaid, LeftBehind, PlaceOf, IsComplete, MovedTier;
    var at, off, size, kept := Span(up[..k]), Span(up[..j]), up[j].size, Kept(up[k].size, up[j].size);
    MovePlaces(m, up, down, |table|, k, j);
    LedgerReads(table, inUse, tierUse, up, down, uncounted, beyond);
    RunLaidFits(m, laid, at, up[k].size, size, up[j].owner);
    TilingsMoved(m, laid, m', up, down, |table|, k, j);
    LeavesBelow(laid, m', off, size, at + 1, at + 1 + kept);
    LeavesBelow(laid, m', off, size, at + 1, at + 1 + size);
    LedgerMoved(table, inUse, tierUse, up, down, uncounted, beyond, k, j, m'[at + 1..at + 1 + kept]);
  }

  // ---- what a search that found nothing rules out -----------------------------------------------------------

  /** A want no run holds is not held where the want is larger or the run must lie lower. */
  lemma {:induction false} NoneFitsMore(cells: seq<Cell>, want: nat, below: nat, more: nat, lower: nat)
    requires NoneFits(cells, want, below) && want <= more && lower <= below
    ensures NoneFits(cells, more, lower)
  {
    forall i: nat ensures !FitsAt(cells, i, more, lower) {
      assert !FitsAt(cells, i, want, below);
    }
  }

  // ---- slots ------------------------------------------------------------------------------------------------

  /** A busy cell whose payload a slot names. */
  ghost predicate Standing(busies: seq<(nat, Cell)>, payload: int) {
    exists x :: x in busies && x.0 + 1 == payload
  }

  /** Busy cells stand at offsets of their own. */
  ghost predicate Apart(busies: seq<(nat, Cell)>) {
    forall x, y :: x in busies && y in busies && x.0 == y.0 ==> x == y
  }

  lemma {:induction false} BusiesApart(m: seq<int>, cells: seq<Cell>)
    requires Lays(m, 0, cells)
    ensures Apart(Busies(cells, 0))
  {
    BusyPlaces(m, cells, 0);
    var busies := Busies(cells, 0);
    forall x, y | x in busies && y in busies && x.0 == y.0 ensures x == y {
      var i: nat :| i < |busies| && busies[i] == x;
      var j: nat :| j < |busies| && busies[j] == y;
    }
  }

  /** The same cell after a move: its owner's, and carrying the payload it had. */
  ghost predicate SameCell(before: Cell, after: Cell) {
    && before.Busy? && after.Busy? && after.owner == before.owner
    && before.size <= after.size <= before.size + HDR
    && before.size <= |after.payload| && after.payload[..before.size] == before.payload
  }

  lemma {:induction false} GainsIn(others: seq<(nat, Cell)>, all: seq<(nat, Cell)>, x: (nat, Cell), y: (nat, Cell))
    requires Gains(others, all, x)
    ensures y in all <==> y in others || y == x
  {
    var i: nat :| i <= |others| && all == others[..i] + [x] + others[i..];
    assert others == others[..i] + others[i..];
  }

  /** Every cell the slots named before is named after by the same slot, where it stands now. */
  ghost predicate SlotsFollow(before: seq<(nat, Cell)>, after: seq<(nat, Cell)>, slots: seq<int>, slots': seq<int>) {
    && |slots'| == |slots|
    && forall p :: 0 <= p < |slots| ==>
         if slots[p] == 0 then slots'[p] == 0
         else forall x :: x in before && x.0 + 1 == slots[p] ==>
           exists y :: y in after && y.0 + 1 == slots'[p] && y.0 <= x.0 && SameCell(x.1, y.1)
  }

  /** A cell carried down, and its slot with it: every slot follows its own cell. */
  lemma {:induction false} SlotsFollowMove(others: seq<(nat, Cell)>, before: seq<(nat, Cell)>, after: seq<(nat, Cell)>,
                                           x: (nat, Cell), y: (nat, Cell), slots: seq<int>, p: nat)
    requires Gains(others, before, x) && Gains(others, after, y) && Apart(before)
    requires SameCell(x.1, y.1) && y.0 <= x.0
    requires forall z :: z in before ==> SameCell(z.1, z.1)
    requires p < |slots| && slots[p] == x.0 + 1 && forall q :: 0 <= q < |slots| && q != p ==> slots[q] != x.0 + 1
    ensures SlotsFollow(before, after, slots, slots[p := y.0 + 1])
  {
    hide Gains, SameCell;
    forall z ensures z in before <==> z in others || z == x
             ensures z in after <==> z in others || z == y
    {
      GainsIn(others, before, x, z);
      GainsIn(others, after, y, z);
    }
  }

  /** No busy cell stands where a free one does. */
  lemma {:induction false} FreeNotBusy(m: seq<int>, up: seq<Cell>, k: nat, x: (nat, Cell))
    requires Lays(m, 0, up) && k < |up| && up[k].Free? && x in Busies(up, 0)
    ensures x.0 != Span(up[..k])
  {
    hide Busies, Span, Lays, Holds;
    LaysSplit(m, 0, up, k);
    LaysSplit(m, 0, up, k + 1);
    SpanSplit(up, k);
    assert up == up[..k] + [up[k]] + up[k + 1..];
    SpanOne(up[k]);
    BusiesParts(up[..k], [up[k]], up[k + 1..], 0);
    BusiesOne(up[k], Span(up[..k]));
    BusyPlaces(m, up[..k], 0);
    BusyPlaces(m, up[k + 1..], Span(up[..k + 1]));
  }

  /** The index of a busy cell of a tier, and what stands there. */
  lemma {:induction false} BusyIndex(cells: seq<Cell>, at: nat, x: (nat, Cell)) returns (j: nat)
    requires x in Busies(cells, at)
    ensures j < |cells| && cells[j] == x.1 && cells[j].Busy? && x.0 == at + Span(cells[..j])
    decreases |cells|
  {
    var tail := Busies(cells[1..], at + Extent(cells[0]));
    if cells[0].Busy? && x == (at, cells[0]) {
      j := 0;
    } else {
      assert x in tail;
      var i := BusyIndex(cells[1..], at + Extent(cells[0]), x);
      j := i + 1;
      assert cells[..j] == [cells[0]] + cells[1..][..i];
      SpanConcat([cells[0]], cells[1..][..i]);
      SpanOne(cells[0]);
    }
  }

  /** The first run that holds a cell and ends at or below it is a run the cell can move into. */
  lemma {:induction false} FoundMoves(up: seq<Cell>, k: nat, j: nat)
    requires j < |up| && up[j].Busy? && up[j].size >= 1 && FirstFit(up, k, up[j].size, Span(up[..j]))
    ensures CanMove(up, k, j)
  {
    if k >= j {
      SpanMonotone(up, j, k + 1);
    }
  }

  lemma {:induction false} AllSame(m: seq<int>, cells: seq<Cell>)
    requires Lays(m, 0, cells)
    ensures forall z :: z in Busies(cells, 0) ==> SameCell(z.1, z.1)
  {
    hide Lays;
    BusyPlaces(m, cells, 0);
    var busies := Busies(cells, 0);
    forall z | z in busies ensures SameCell(z.1, z.1) {
      var j := BusyIndex(cells, 0, z);
      var i: nat :| i < |busies| && busies[i] == z;
      assert Holds(m, z.0, z.1);
      assert z.1.payload == m[z.0 + 1..z.0 + 1 + z.1.size];
    }
  }

  /** What a move that goes ahead does to the slots, told by the tier before it and after it. */
  lemma {:induction false} MoveFollowed(m: seq<int>, up: seq<Cell>, k: nat, j: nat, payload: seq<int>, slots: seq<int>,
                                        p: nat)
    requires Lays(m, 0, up) && CanMove(up, k, j)
    requires |payload| == Kept(up[k].size, up[j].size) && payload[..up[j].size] == up[j].payload
    requires p < |slots| && slots[p] == Span(up[..j]) + 1
    requires forall q :: 0 <= q < |slots| && q != p ==> slots[q] != slots[p]
    ensures var at := Span(up[..k]);
      && SlotsFollow(Busies(up, 0), Busies(MovedTier(up, k, j, payload), 0), slots, slots[p := at + 1])
      && Standing(Busies(MovedTier(up, k, j, payload), 0), at + 1) && at + 1 < slots[p]
      && (forall q :: 0 <= q < |slots| && slots[q] != 0 && q != p && Standing(Busies(up, 0), slots[q]) ==>
            Standing(Busies(MovedTier(up, k, j, payload), 0), slots[q]) && slots[q] != at + 1)
  {
    hide Busies, Gains, Lays, Span, MovedTier, SlotsFollow;
    var others := BusiesMoved(up, k, j, payload);
    var before, after := Busies(up, 0), Busies(MovedTier(up, k, j, payload), 0);
    var x, y := (Span(up[..j]), up[j]), (Span(up[..k]), Busy(Kept(up[k].size, up[j].size), up[j].owner, payload));
    BusiesApart(m, up);
    AllSame(m, up);
    GainsIn(others, before, x, x);
    GainsIn(others, after, y, y);
    TakenSpans(up[k].size, up[j].size, up[j].owner, payload);
    SlotsFollowMove(others, before, after, x, y, slots, p);
    forall q | 0 <= q < |slots| && slots[q] != 0 && q != p && Standing(before, slots[q])
      ensures Standing(after, slots[q]) && slots[q] != Span(up[..k]) + 1
    {
      var z :| z in before && z.0 + 1 == slots[q];
      GainsIn(others, before, x, z);
      GainsIn(others, after, y, z);
      FreeNotBusy(m, up, k, z);
    }
  }
}
