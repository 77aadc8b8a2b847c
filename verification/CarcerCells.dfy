/** A cellblock's cells: how a run of memory words is tiled by them, and what the writer's walks make of the tiling.

    Offsets and sizes count grains, the unit every cell's offset and payload is a whole number of. A cell is a
    header word, its payload, and an owner word behind the payload. The cells of a tier are a sequence here, and
    `Lays` says that memory holds that sequence back to back from an offset. Every walk of locus_carcerum.c is given
    as a function on the sequence, and its properties are proved about that function. */
module CarcerCells {

  /** The overhead of a cell: one word before its payload and one behind it. */
  const HDR: nat := 2

  // ---- the two words of a cell ------------------------------------------------------------------------------

  function Header(size: nat, busy: bool): int {
    4 * size + if busy then 1 else 0
  }

  function SizeOf(word: int): int {
    word / 4
  }

  function StateOf(word: int): int {
    word % 4
  }

  /** The completion bit of an owner word, and one place in its place field, on a 64-bit word with 8 place bits. */
  const COMPLETE: int := 0x0080_0000_0000_0000
  const PLACE: int := 0x0100_0000_0000_0000
  const STAMPS: int := 0x0010_0000_0000_0000

  /** An owner word fresh from a take: a place, the completion bit and the signals clear, and part of a stamp. */
  function OwnerWord(place: nat, stamp: nat): int {
    place * PLACE + stamp % STAMPS
  }

  function PlaceOf(word: int): int {
    word / PLACE
  }

  predicate IsComplete(word: int) {
    word / COMPLETE % 2 == 1
  }

  /** A fetch-or of the completion bit. */
  function Completed(word: int): int {
    if IsComplete(word) then word else word + COMPLETE
  }

  lemma {:induction false} OwnerWordReads(place: nat, stamp: nat)
    ensures PlaceOf(OwnerWord(place, stamp)) == place
    ensures !IsComplete(OwnerWord(place, stamp))
    ensures IsComplete(Completed(OwnerWord(place, stamp)))
  {
    var low := stamp % STAMPS;
    assert OwnerWord(place, stamp) == (2 * place) * COMPLETE + low;
    assert OwnerWord(place, stamp) / COMPLETE == 2 * place;
    assert Completed(OwnerWord(place, stamp)) / COMPLETE == 2 * place + 1;
  }

  /** The completion bit is set once and moves no other field. */
  lemma {:induction false} CompletedReads(word: int)
    ensures PlaceOf(Completed(word)) == PlaceOf(word)
    ensures IsComplete(Completed(word)) && Completed(Completed(word)) == Completed(word)
  {
    var q, r := word / COMPLETE, word % COMPLETE;
    assert word == q * COMPLETE + r;
    assert (word + COMPLETE) / COMPLETE == q + 1;
    assert PLACE == 2 * COMPLETE;
    assert word / PLACE == q / 2;
    assert (word + COMPLETE) / PLACE == (q + 1) / 2;
  }

  /** An owner word no give, growth or rewind may count off again: complete, or naming no owner. */
  predicate IsDone(word: int) {
    IsComplete(word) || PlaceOf(word) == 0
  }

  /** How many of `n` claims on one owner word count its cell off: each sets the completion bit with one fetch-or, and
      one that found the bit clear on a word naming an owner counts. */
  function ClaimsCounted(word: int, n: nat): nat
    decreases n
  {
    if n == 0 then 0
    else (if !IsComplete(word) && PlaceOf(word) != 0 then 1 else 0) + ClaimsCounted(Completed(word), n - 1)
  }

  /** Gives and rewinds that reach one cell count it off exactly once between them, in whatever order they come. */
  lemma {:induction false} ClaimsCountOnce(word: int, n: nat)
    requires n >= 1
    ensures ClaimsCounted(word, n) == if IsDone(word) then 0 else 1
    decreases n
  {
    hide IsComplete, PlaceOf, Completed;
    CompletedReads(word);
    if n > 1 {
      ClaimsCountOnce(Completed(word), n - 1);
    }
  }

  /** The payload a cell carries for a request, in grains: the bytes rounded up to whole grains, one grain for a
      request of nothing. */
  function WantOf(bytes: nat, grain: nat): nat
    requires grain >= 1
  {
    ((if bytes != 0 then bytes else grain) + (grain - 1)) / grain
  }

  /** The least positive count of grains that holds the request. */
  lemma {:induction false} WantHolds(bytes: nat, grain: nat)
    requires grain >= 1
    ensures WantOf(bytes, grain) >= 1 && WantOf(bytes, grain) * grain >= bytes
    ensures WantOf(bytes, grain) > 1 ==> (WantOf(bytes, grain) - 1) * grain < bytes
  {
    var asked := (if bytes != 0 then bytes else grain) + (grain - 1);
    var q, r := asked / grain, asked % grain;
    assert asked == q * grain + r;
    assert (q - 1) * grain == q * grain - grain;
    assert asked / grain >= 1;
  }

  // ---- cells and tilings ------------------------------------------------------------------------------------

  datatype Cell =
    | Free(size: nat, owner: int)
    | Busy(size: nat, owner: int, payload: seq<int>)

  function Extent(c: Cell): nat {
    c.size + HDR
  }

  /** Grains a sequence of cells spans. */
  function Span(cells: seq<Cell>): nat {
    if cells == [] then 0 else Extent(cells[0]) + Span(cells[1..])
  }

  /** Memory holds one cell at an offset: header, payload, owner word, the payload positive. */
  predicate Holds(m: seq<int>, at: nat, c: Cell) {
    && c.size >= 1
    && at + Extent(c) <= |m|
    && m[at] == Header(c.size, c.Busy?)
    && m[at + 1 + c.size] == c.owner
    && (c.Busy? ==> m[at + 1..at + 1 + c.size] == c.payload)
  }

  /** Memory is tiled exactly by the cells from an offset on. */
  predicate Lays(m: seq<int>, at: nat, cells: seq<Cell>)
    decreases |cells|
  {
    cells == [] || (Holds(m, at, cells[0]) && Lays(m, at + Extent(cells[0]), cells[1..]))
  }

  lemma {:induction false} SpanConcat(a: seq<Cell>, b: seq<Cell>)
    ensures Span(a + b) == Span(a) + Span(b)
  {
    if a == [] {
      assert a + b == b;
    } else {
      SpanConcat(a[1..], b);
      assert (a + b)[1..] == a[1..] + b;
    }
  }

  lemma {:induction false} SpanOne(c: Cell)
    ensures Span([c]) == Extent(c)
  {
    assert [c][1..] == [];
  }

  lemma {:induction false} SpanSplit(cells: seq<Cell>, i: nat)
    requires i <= |cells|
    ensures Span(cells) == Span(cells[..i]) + Span(cells[i..])
    ensures i < |cells| ==> Span(cells[..i + 1]) == Span(cells[..i]) + Extent(cells[i])
    ensures i < |cells| ==> Span(cells[i..]) == Extent(cells[i]) + Span(cells[i + 1..])
  {
    assert cells == cells[..i] + cells[i..];
    SpanConcat(cells[..i], cells[i..]);
    if i < |cells| {
      assert cells[..i + 1] == cells[..i] + [cells[i]];
      SpanConcat(cells[..i], [cells[i]]);
      SpanOne(cells[i]);
      assert cells[i..][1..] == cells[i + 1..];
    }
  }

  lemma {:induction false} SpanMonotone(cells: seq<Cell>, i: nat, j: nat)
    requires i <= j <= |cells|
    ensures Span(cells[..i]) <= Span(cells[..j])
    ensures Span(cells[..i]) + HDR * (j - i) <= Span(cells[..j])
    decreases j - i
  {
    if i < j {
      SpanSplit(cells, i);
      SpanMonotone(cells, i + 1, j);
    }
  }

  lemma {:induction false} LaysConcat(m: seq<int>, at: nat, a: seq<Cell>, b: seq<Cell>)
    ensures Lays(m, at, a + b) <==> Lays(m, at, a) && Lays(m, at + Span(a), b)
    decreases |a|
  {
    if a == [] {
      assert a + b == b;
    } else {
      assert (a + b)[1..] == a[1..] + b;
      LaysConcat(m, at + Extent(a[0]), a[1..], b);
    }
  }

  lemma {:induction false} LaysSplit(m: seq<int>, at: nat, cells: seq<Cell>, i: nat)
    requires i <= |cells|
    ensures Lays(m, at, cells) <==> Lays(m, at, cells[..i]) && Lays(m, at + Span(cells[..i]), cells[i..])
    ensures Lays(m, at, cells) && i < |cells| ==> Holds(m, at + Span(cells[..i]), cells[i])
  {
    assert cells == cells[..i] + cells[i..];
    LaysConcat(m, at, cells[..i], cells[i..]);
  }

  lemma {:induction false} LaysFits(m: seq<int>, at: nat, cells: seq<Cell>)
    requires Lays(m, at, cells) && at <= |m|
    ensures at + Span(cells) <= |m|
    decreases |cells|
  {
    if cells != [] {
      LaysFits(m, at + Extent(cells[0]), cells[1..]);
    }
  }

  lemma {:induction false} LaysHead(m: seq<int>, at: nat, c: Cell, rest: seq<Cell>)
    ensures Lays(m, at, [c] + rest) <==> Holds(m, at, c) && Lays(m, at + Extent(c), rest)
    ensures Span([c] + rest) == Extent(c) + Span(rest)
  {
    assert ([c] + rest)[1..] == rest;
  }

  lemma {:induction false} LaysOne(m: seq<int>, at: nat, c: Cell)
    requires Holds(m, at, c)
    ensures Lays(m, at, [c])
  {
    assert [c][1..] == [];
  }

  /** A tiling depends on the words it covers and on no other. */
  lemma {:induction false} LaysFrame(m: seq<int>, m': seq<int>, at: nat, cells: seq<Cell>)
    requires Lays(m, at, cells) && at + Span(cells) <= |m| && at + Span(cells) <= |m'|
    requires forall k :: at <= k < at + Span(cells) ==> m'[k] == m[k]
    ensures Lays(m', at, cells)
    decreases |cells|
  {
    if cells != [] {
      var c := cells[0];
      assert m'[at + 1..at + 1 + c.size] == m[at + 1..at + 1 + c.size];
      LaysFrame(m, m', at + Extent(c), cells[1..]);
    }
  }

  /** A tiling of the same words is the same sequence of cells, whatever order it was reached in: the walk from a
      tier's first offset reads headers alone and ends exactly on the tier's boundary. */
  lemma {:induction false} LaysUnique(m: seq<int>, at: nat, a: seq<Cell>, b: seq<Cell>)
    requires Lays(m, at, a) && Lays(m, at, b) && Span(a) == Span(b)
    ensures a == b
    decreases |a|
  {
    if a != [] && b != [] {
      assert a[0].size == b[0].size;
      assert a[0] == b[0];
      LaysUnique(m, at + Extent(a[0]), a[1..], b[1..]);
      assert a == [a[0]] + a[1..] && b == [b[0]] + b[1..];
    }
  }

  lemma {:induction false} HeaderReads(size: nat, busy: bool)
    ensures SizeOf(Header(size, busy)) == size
    ensures StateOf(Header(size, busy)) == if busy then 1 else 0
  {
  }

  // ---- the walk of the persistent tier ----------------------------------------------------------------------

  /** What the walk of the persistent tier has made of the cells behind it: the cells it settled, and the payload
      of the free run still open at its feet, 0 for none. */
  datatype Walk = Walk(settled: seq<Cell>, run: nat)

  /** The cells one busy cell closes the open run with: the run laid as one free cell, or nothing. */
  function Closed(run: nat): seq<Cell> {
    if run == 0 then [] else [Free(run, 0)]
  }

  /** One step of the walk: a free cell joins the open run, a busy cell closes it. */
  function Step(w: Walk, c: Cell): Walk {
    match c
    case Free(size, _) => Walk(w.settled, if w.run == 0 then size else w.run + HDR + size)
    case Busy(_, _, _) => Walk(w.settled + Closed(w.run) + [c], 0)
  }

  function Walked(cells: seq<Cell>): Walk {
    if cells == [] then Walk([], 0) else Step(Walked(cells[..|cells| - 1]), cells[|cells| - 1])
  }

  /** The tier as the walk leaves it: free cells run together, and none left last. */
  function Merged(cells: seq<Cell>): seq<Cell> {
    Walked(cells).settled
  }

  lemma {:induction false} WalkedStep(cells: seq<Cell>, i: nat)
    requires i < |cells|
    ensures Walked(cells[..i + 1]) == Step(Walked(cells[..i]), cells[i])
  {
    assert cells[..i + 1][..i] == cells[..i];
  }

  /** The busy cells with the offsets they stand at. */
  function Busies(cells: seq<Cell>, at: nat): seq<(nat, Cell)> {
    if cells == [] then []
    else (if cells[0].Busy? then [(at, cells[0])] else []) + Busies(cells[1..], at + Extent(cells[0]))
  }

  lemma {:induction false} BusiesConcat(a: seq<Cell>, b: seq<Cell>, at: nat)
    ensures Busies(a + b, at) == Busies(a, at) + Busies(b, at + Span(a))
    decreases |a|
  {
    if a == [] {
      assert a + b == b;
    } else {
      assert (a + b)[1..] == a[1..] + b;
      BusiesConcat(a[1..], b, at + Extent(a[0]));
    }
  }

  lemma {:induction false} BusiesOne(c: Cell, at: nat)
    ensures Busies([c], at) == if c.Busy? then [(at, c)] else []
  {
    assert [c][1..] == [];
  }

  predicate NoAdjacentFree(cells: seq<Cell>) {
    forall i :: 0 <= i < |cells| - 1 ==> cells[i].Busy? || cells[i + 1].Busy?
  }

  predicate EndsBusy(cells: seq<Cell>) {
    cells == [] || cells[|cells| - 1].Busy?
  }

  predicate AllPositive(cells: seq<Cell>) {
    forall c :: c in cells ==> c.size >= 1
  }

  /** Grains of an open run. */
  function RunSpan(run: nat): nat {
    if run == 0 then 0 else run + HDR
  }

  /** The walk leaves no two free cells side by side and a busy cell last. */
  lemma {:induction false} WalkedShape(cells: seq<Cell>)
    requires AllPositive(cells)
    ensures NoAdjacentFree(Merged(cells)) && EndsBusy(Merged(cells)) && AllPositive(Merged(cells))
    ensures forall c :: c in Merged(cells) && c.Free? ==> c.owner == 0
    decreases |cells|
  {
    if cells != [] {
      WalkedShape(cells[..|cells| - 1]);
    }
  }

  /** The grains walked are the grains settled and the grains of the trailing run. */
  lemma {:induction false} WalkedSpan(cells: seq<Cell>)
    requires AllPositive(cells)
    ensures Span(Merged(cells)) + RunSpan(Walked(cells).run) == Span(cells)
    decreases |cells|
  {
    if cells != [] {
      var front, c := cells[..|cells| - 1], cells[|cells| - 1];
      WalkedSpan(front);
      SpanSplit(cells, |cells| - 1);
      assert cells[..|cells|] == cells;
      if c.Busy? {
        SettledRun(Walked(front), c, 0);
      }
    }
  }

  lemma {:induction false} PositiveFront(cells: seq<Cell>)
    requires AllPositive(cells)
    ensures cells != [] ==> AllPositive(cells[..|cells| - 1]) && cells[|cells| - 1].size >= 1
  {
  }

  lemma {:induction false} BusiesNone(at: nat)
    ensures Busies([], at) == []
  {
  }

  /** Every busy cell stays at its offset, with its payload and its owner word. */
  lemma {:induction false} WalkedBusies(cells: seq<Cell>, at: nat)
    requires AllPositive(cells)
    ensures Busies(Merged(cells), at) == Busies(cells, at)
    decreases |cells|
  {
    hide Busies, Span, AllPositive;
    PositiveFront(cells);
    if cells == [] {
      BusiesNone(at);
    } else {
      var front, c := cells[..|cells| - 1], cells[|cells| - 1];
      assert cells == front + [c];
      WalkedBusies(front, at);
      WalkedSpan(front);
      BusiesConcat(front, [c], at);
      BusiesOne(c, at + Span(front));
      if c.Busy? {
        SettledRun(Walked(front), c, at);
      }
    }
  }

  /** Closing a run under a busy cell keeps the busy cells and adds exactly the grains of the run and the cell. */
  lemma {:induction false} SettledRun(w: Walk, c: Cell, at: nat)
    requires c.Busy?
    ensures Span(w.settled + Closed(w.run) + [c]) == Span(w.settled) + RunSpan(w.run) + Extent(c)
    ensures Busies(w.settled + Closed(w.run) + [c], at)
         == Busies(w.settled, at) + [(at + Span(w.settled) + RunSpan(w.run), c)]
  {
    SpanConcat(w.settled, Closed(w.run));
    SpanConcat(w.settled + Closed(w.run), [c]);
    SpanOne(c);
    BusiesConcat(w.settled, Closed(w.run), at);
    BusiesConcat(w.settled + Closed(w.run), [c], at);
    BusiesOne(c, at + Span(w.settled + Closed(w.run)));
    if w.run != 0 {
      SpanOne(Free(w.run, 0));
      BusiesOne(Free(w.run, 0), at + Span(w.settled));
    }
  }

  // ---- first fit ---------------------------------------------------------------------------------------------

  /** A free cell that holds a payload of `want` and ends at or below an offset. */
  predicate FitsAt(cells: seq<Cell>, i: nat, want: nat, below: nat) {
    && i < |cells|
    && cells[i].Free?
    && cells[i].size >= want
    && Span(cells[..i + 1]) <= below
  }

  ghost predicate NoneFits(cells: seq<Cell>, want: nat, below: nat) {
    forall i: nat :: !FitsAt(cells, i, want, below)
  }

  ghost predicate FirstFit(cells: seq<Cell>, k: nat, want: nat, below: nat) {
    && FitsAt(cells, k, want, below)
    && forall i: nat :: i < k ==> !FitsAt(cells, i, want, below)
  }

  /** The run found is a free cell of the tier that holds the want. */
  lemma {:induction false} FoundFits(cells: seq<Cell>, want: nat, below: nat, k: nat)
    requires FirstFit(cells, k, want, below)
    ensures k < |cells| && cells[k].Free? && cells[k].size >= want
    ensures Span(cells[..k]) + cells[k].size + HDR <= below
  {
    SpanSplit(cells, k);
  }

  lemma {:induction false} FoundIsSome(cells: seq<Cell>, want: nat, below: nat, k: nat)
    requires FirstFit(cells, k, want, below)
    ensures !NoneFits(cells, want, below)
  {
  }

  /** Settling a run under a busy cell adds one candidate at most, the run itself. */
  lemma {:induction false} FitsAfterStep(w: Walk, c: Cell, want: nat, below: nat)
    requires c.Busy?
    ensures forall i: nat :: i < |w.settled| ==>
        (FitsAt(Step(w, c).settled, i, want, below) <==> FitsAt(w.settled, i, want, below))
    ensures FitsAt(Step(w, c).settled, |w.settled|, want, below)
       <==> w.run != 0 && w.run >= want && Span(w.settled) + RunSpan(w.run) <= below
    ensures forall i: nat :: i > |w.settled| ==> !FitsAt(Step(w, c).settled, i, want, below)
    ensures forall i: nat :: i <= |w.settled| ==> Step(w, c).settled[..i] == w.settled[..i]
  {
    var next := Step(w, c).settled;
    forall i: nat | i < |w.settled| ensures FitsAt(next, i, want, below) <==> FitsAt(w.settled, i, want, below) {
      assert next[..i + 1] == w.settled[..i + 1];
    }
    assert next[..|w.settled|] == w.settled;
    if w.run != 0 {
      assert next[..|w.settled| + 1] == w.settled + [Free(w.run, 0)];
      SpanConcat(w.settled, [Free(w.run, 0)]);
      SpanOne(Free(w.run, 0));
    }
  }

  /** The walk's search through one busy cell: what was found stays found, and where nothing was the run just settled
      is found where it holds the want. */
  lemma {:induction false} SearchAfterStep(w: Walk, c: Cell, want: nat, below: nat)
    requires c.Busy?
    ensures var next := Step(w, c).settled;
      && (forall k: nat :: FirstFit(w.settled, k, want, below) ==>
            FirstFit(next, k, want, below) && next[k] == w.settled[k] && next[..k] == w.settled[..k])
      && (NoneFits(w.settled, want, below) ==>
            if w.run != 0 && w.run >= want && Span(w.settled) + RunSpan(w.run) <= below
            then FirstFit(next, |w.settled|, want, below) && next[|w.settled|].size == w.run
              && next[..|w.settled|] == w.settled
            else NoneFits(next, want, below))
  {
    FitsAfterStep(w, c, want, below);
    assert w.settled[..|w.settled|] == w.settled;
  }

  /** A busy cell reached: the two stores that lay the run behind it keep every settled cell, lay the run as one
      free cell, and touch nothing from the busy cell on. */
  lemma {:induction false} LaysAfterStep(m: seq<int>, m': seq<int>, w: Walk, c: Cell, rest: seq<Cell>)
    requires c.Busy? && Lays(m, 0, w.settled)
    requires Lays(m, Span(w.settled) + RunSpan(w.run), [c] + rest)
    requires Span(w.settled) + RunSpan(w.run) <= |m| && |m'| == |m|
    requires forall j :: 0 <= j < Span(w.settled) ==> m'[j] == m[j]
    requires forall j :: Span(w.settled) + RunSpan(w.run) <= j < |m| ==> m'[j] == m[j]
    requires w.run != 0 ==> m'[Span(w.settled)] == Header(w.run, false) && m'[Span(w.settled) + w.run + 1] == 0
    ensures Lays(m', 0, w.settled + Closed(w.run) + [c])
    ensures Lays(m', Span(w.settled) + RunSpan(w.run) + Extent(c), rest)
  {
    hide Lays, Span;
    var off := Span(w.settled) + RunSpan(w.run);
    LaysFits(m, off, [c] + rest);
    LaysFrame(m, m', 0, w.settled);
    LaysFrame(m, m', off, [c] + rest);
    LaysConcat(m', off, [c], rest);
    SpanOne(c);
    LaysClosed(m', w);
    SpanConcat(w.settled, Closed(w.run));
    LaysConcat(m', 0, w.settled + Closed(w.run), [c]);
  }

  /** The settled cells and the run laid behind them. */
  lemma {:induction false} LaysClosed(m: seq<int>, w: Walk)
    requires Lays(m, 0, w.settled) && Span(w.settled) + RunSpan(w.run) <= |m|
    requires w.run != 0 ==> m[Span(w.settled)] == Header(w.run, false) && m[Span(w.settled) + w.run + 1] == 0
    ensures Lays(m, 0, w.settled + Closed(w.run))
    ensures Span(Closed(w.run)) == RunSpan(w.run)
  {
    if w.run != 0 {
      LaysOne(m, Span(w.settled), Free(w.run, 0));
      SpanOne(Free(w.run, 0));
    }
    LaysConcat(m, 0, w.settled, Closed(w.run));
  }

  /** What the walk knows with `i` cells behind it: its place, the cells it settled and the run it has open as
      memory holds them, the cells ahead untouched, and the first settled free cell that holds the want. */
  ghost predicate Sweeping(m: seq<int>, cells: seq<Cell>, i: nat, off: nat, runAt: nat, run: nat,
                           want: nat, below: nat, found: bool, k: nat, at: nat, size: nat)
  {
    && i <= |cells| && off == Span(cells[..i]) <= |m|
    && Lays(m, off, cells[i..])
    && var w := Walked(cells[..i]);
    && Lays(m, 0, w.settled) && run == w.run
    && off == Span(w.settled) + RunSpan(run)
    && (run != 0 ==> runAt == Span(w.settled))
    && Searched(w.settled, want, below, found, k, at, size)
  }

  ghost predicate Searched(cells: seq<Cell>, want: nat, below: nat, found: bool, k: nat, at: nat, size: nat) {
    if found then FirstFit(cells, k, want, below) && at == Span(cells[..k]) && size == cells[k].size
    else NoneFits(cells, want, below) && at == 0 && size == 0
  }

  lemma {:induction false} SweepStarts(m: seq<int>, cells: seq<Cell>, want: nat, below: nat)
    requires Lays(m, 0, cells)
    ensures Sweeping(m, cells, 0, 0, 0, 0, want, below, false, 0, 0, 0)
  {
    assert cells[0..] == cells && cells[..0] == [];
  }

  /** The header the walk reads is the next cell's own. */
  lemma {:induction false} SweepReads(m: seq<int>, cells: seq<Cell>, i: nat, off: nat, runAt: nat, run: nat,
                                      want: nat, below: nat, found: bool, k: nat, at: nat, size: nat)
    requires Sweeping(m, cells, i, off, runAt, run, want, below, found, k, at, size) && off < Span(cells)
    ensures i < |cells| && Holds(m, off, cells[i]) && off + Extent(cells[i]) <= Span(cells)
    ensures SizeOf(m[off]) == cells[i].size && StateOf(m[off]) == if cells[i].Busy? then 1 else 0
    ensures run != 0 ==> runAt + run + HDR == off
  {
    assert cells[..|cells|] == cells;
    var c, rest := cells[i], cells[i + 1..];
    assert cells[i..] == [c] + rest;
    LaysHead(m, off, c, rest);
    HeaderReads(c.size, c.Busy?);
    SpanSplit(cells, i);
    SpanMonotone(cells, i + 1, |cells|);
  }

  lemma {:induction false} SweepPassesFree(m: seq<int>, cells: seq<Cell>, i: nat, off: nat, runAt: nat, run: nat,
                                           want: nat, below: nat, found: bool, k: nat, at: nat, size: nat)
    requires Sweeping(m, cells, i, off, runAt, run, want, below, found, k, at, size)
    requires i < |cells| && cells[i].Free? && Holds(m, off, cells[i])
    ensures Sweeping(m, cells, i + 1, off + Extent(cells[i]), if run == 0 then off else runAt,
                     (if run == 0 then 0 else run + HDR) + cells[i].size, want, below, found, k, at, size)
  {
    hide FirstFit, NoneFits;
    var c, rest := cells[i], cells[i + 1..];
    assert cells[i..] == [c] + rest;
    LaysHead(m, off, c, rest);
    WalkedStep(cells, i);
    SpanSplit(cells, i);
  }

  lemma {:induction false} SweepPassesBusy(m: seq<int>, m': seq<int>, cells: seq<Cell>, i: nat, off: nat, runAt: nat,
                                           run: nat, want: nat, below: nat, found: bool, k: nat, at: nat, size: nat)
    requires Sweeping(m, cells, i, off, runAt, run, want, below, found, k, at, size)
    requires i < |cells| && cells[i].Busy? && Holds(m, off, cells[i])
    requires m' == if run == 0 then m else m[runAt + 1 + run := 0][runAt := Header(run, false)]
    ensures var takes := run != 0 && !found && run >= want && off <= below;
      Sweeping(m', cells, i + 1, off + Extent(cells[i]), runAt, 0, want, below, found || takes,
               if takes then |Walked(cells[..i]).settled| else k,
               if takes then runAt else at, if takes then run else size)
  {
    hide FirstFit, NoneFits, Lays, Span, Walked;
    var c, rest, w := cells[i], cells[i + 1..], Walked(cells[..i]);
    assert cells[i..] == [c] + rest;
    LaysHead(m, off, c, rest);
    WalkedStep(cells, i);
    SpanSplit(cells, i);
    SearchAfterStep(w, c, want, below);
    SearchIn(w.settled, want, below, found, k);
    LaysAfterStep(m, m', w, c, rest);
    SettledRun(w, c, 0);
  }

  lemma {:induction false} SearchIn(cells: seq<Cell>, want: nat, below: nat, found: bool, k: nat)
    ensures FirstFit(cells, k, want, below) ==> k < |cells|
  {
  }

  /** The walk over: the settled cells are the tier merged, and the trailing run is what it lacks. */
  lemma {:induction false} SweepEnds(m: seq<int>, cells: seq<Cell>, i: nat, off: nat, runAt: nat, run: nat,
                                     want: nat, below: nat, found: bool, k: nat, at: nat, size: nat)
    requires Sweeping(m, cells, i, off, runAt, run, want, below, found, k, at, size) && off >= Span(cells)
    ensures Lays(m, 0, Merged(cells)) && Searched(Merged(cells), want, below, found, k, at, size)
    ensures Span(Merged(cells)) == if run != 0 then runAt else Span(cells)
    ensures Span(Merged(cells)) <= Span(cells)
  {
    assert cells[..|cells|] == cells;
    SpanMonotone(cells, i, |cells|);
    assert i == |cells|;
  }

  lemma {:induction false} LaysPositive(m: seq<int>, at: nat, cells: seq<Cell>)
    requires Lays(m, at, cells)
    ensures AllPositive(cells)
    decreases |cells|
  {
    if cells != [] {
      LaysPositive(m, at + Extent(cells[0]), cells[1..]);
    }
  }

  // ---- one cell put in place of another ---------------------------------------------------------------------

  /** A cell's grains laid over by cells of the same grains, and no word outside them changed. */
  lemma {:induction false} LaysReplaced(m: seq<int>, m': seq<int>, at: nat, cells: seq<Cell>, k: nat, laid: seq<Cell>)
    requires Lays(m, at, cells) && k < |cells| && Span(laid) == Extent(cells[k])
    requires at + Span(cells) <= |m| && |m'| == |m|
    requires Lays(m', at + Span(cells[..k]), laid)
    requires forall j :: at <= j < at + Span(cells[..k]) ==> m'[j] == m[j]
    requires forall j :: at + Span(cells[..k]) + Extent(cells[k]) <= j < at + Span(cells) ==> m'[j] == m[j]
    ensures Lays(m', at, cells[..k] + laid + cells[k + 1..])
    ensures Span(cells[..k] + laid + cells[k + 1..]) == Span(cells)
  {
    hide Lays, Span;
    var mid := at + Span(cells[..k]);
    LaysSplit(m, at, cells, k);
    LaysSplit(m, at, cells, k + 1);
    SpanSplit(cells, k);
    SpanSplit(cells, k + 1);
    LaysFrame(m, m', at, cells[..k]);
    LaysFrame(m, m', mid + Extent(cells[k]), cells[k + 1..]);
    LaysConcat(m', at, cells[..k], laid);
    SpanConcat(cells[..k], laid);
    LaysConcat(m', at, cells[..k] + laid, cells[k + 1..]);
    SpanConcat(cells[..k] + laid, cells[k + 1..]);
  }

  /** The cell at an index, read off memory at its offset. */
  lemma {:induction false} LaysAt(m: seq<int>, at: nat, cells: seq<Cell>, k: nat)
    requires Lays(m, at, cells) && k < |cells| && at + Span(cells) <= |m|
    ensures Holds(m, at + Span(cells[..k]), cells[k])
    ensures Span(cells[..k]) + Extent(cells[k]) + Span(cells[k + 1..]) == Span(cells)
    ensures SizeOf(m[at + Span(cells[..k])]) == cells[k].size
    ensures StateOf(m[at + Span(cells[..k])]) == if cells[k].Busy? then 1 else 0
  {
    hide Lays, Span;
    LaysSplit(m, at, cells, k);
    SpanSplit(cells, k);
    HeaderReads(cells[k].size, cells[k].Busy?);
  }

  // ---- the ends of the tiers --------------------------------------------------------------------------------

  /** The temporary tier with the free cells at its top returned to the gap. */
  function DropFree(cells: seq<Cell>): seq<Cell> {
    if cells != [] && cells[0].Free? then DropFree(cells[1..]) else cells
  }

  /** What is dropped is free, and what is left starts busy. */
  lemma {:induction false} DropFreeIsSuffix(cells: seq<Cell>)
    ensures DropFree(cells) == [] || DropFree(cells)[0].Busy?
    ensures |DropFree(cells)| <= |cells| && DropFree(cells) == cells[|cells| - |DropFree(cells)|..]
    ensures forall i :: 0 <= i < |cells| - |DropFree(cells)| ==> cells[i].Free?
    ensures Span(DropFree(cells)) <= Span(cells)
    decreases |cells|
  {
    if cells != [] && cells[0].Free? {
      DropFreeIsSuffix(cells[1..]);
    }
  }

  /** The payload a take keeps of a free cell: what it wants, or everything where the remainder could not be a cell. */
  function Kept(size: nat, want: nat): nat {
    if size >= want + HDR + 1 then want else size
  }

  function Taken(size: nat, want: nat, owner: int, payload: seq<int>): seq<Cell>
    requires want <= size
  {
    [Busy(Kept(size, want), owner, payload)] + if Kept(size, want) == size then [] else [Free(size - want - HDR, 0)]
  }

  /** A split loses no grain, answers at least what was asked, and strands at most two grains on the taker. */
  lemma {:induction false} TakenSpans(size: nat, want: nat, owner: int, payload: seq<int>)
    requires 1 <= want <= size
    ensures Span(Taken(size, want, owner, payload)) == size + HDR
    ensures want <= Kept(size, want) <= want + HDR
    ensures AllPositive(Taken(size, want, owner, payload))
  {
    SpanOne(Busy(Kept(size, want), owner, payload));
    if Kept(size, want) != size {
      SpanOne(Free(size - want - HDR, 0));
    }
    SpanConcat([Busy(Kept(size, want), owner, payload)], Taken(size, want, owner, payload)[1..]);
  }

  // ---- what the cells are counted at ------------------------------------------------------------------------

  /** Payload grains of the busy cells. */
  function Held(cells: seq<Cell>): nat {
    if cells == [] then 0 else (if cells[0].Busy? then cells[0].size else 0) + Held(cells[1..])
  }

  /** Payload grains of the busy cells whose owner word names a place. */
  function Owned(cells: seq<Cell>, place: nat): nat {
    if cells == [] then 0
    else (if cells[0].Busy? && PlaceOf(cells[0].owner) == place then cells[0].size else 0) + Owned(cells[1..], place)
  }

  lemma {:induction false} HeldConcat(a: seq<Cell>, b: seq<Cell>)
    ensures Held(a + b) == Held(a) + Held(b)
    decreases |a|
  {
    if a == [] {
      assert a + b == b;
    } else {
      assert (a + b)[1..] == a[1..] + b;
      HeldConcat(a[1..], b);
    }
  }

  lemma {:induction false} OwnedConcat(a: seq<Cell>, b: seq<Cell>, place: nat)
    ensures Owned(a + b, place) == Owned(a, place) + Owned(b, place)
    decreases |a|
  {
    if a == [] {
      assert a + b == b;
    } else {
      assert (a + b)[1..] == a[1..] + b;
      OwnedConcat(a[1..], b, place);
    }
  }

  lemma {:induction false} CountsOne(c: Cell, place: nat)
    ensures Held([c]) == if c.Busy? then c.size else 0
    ensures Owned([c], place) == if c.Busy? && PlaceOf(c.owner) == place then c.size else 0
  {
    assert [c][1..] == [];
  }

  /** One cell put in place of others changes the counts by those cells alone. */
  lemma {:induction false} CountsReplaced(a: seq<Cell>, b: seq<Cell>, laid: seq<Cell>, place: nat)
    ensures Held(a + laid + b) == Held(a) + Held(laid) + Held(b)
    ensures Owned(a + laid + b, place) == Owned(a, place) + Owned(laid, place) + Owned(b, place)
  {
    HeldConcat(a, laid);
    HeldConcat(a + laid, b);
    OwnedConcat(a, laid, place);
    OwnedConcat(a + laid, b, place);
  }

  /** Free cells count for nothing: the walk and the trim keep every count. */
  lemma {:induction false} WalkedCounts(cells: seq<Cell>, place: nat)
    ensures Held(Merged(cells)) == Held(cells) && Owned(Merged(cells), place) == Owned(cells, place)
    decreases |cells|
  {
    if cells != [] {
      var front, c := cells[..|cells| - 1], cells[|cells| - 1];
      WalkedCounts(front, place);
      assert cells == front + [c];
      HeldConcat(front, [c]);
      OwnedConcat(front, [c], place);
      CountsOne(c, place);
      if c.Busy? {
        var w := Walked(front);
        HeldConcat(w.settled, Closed(w.run));
        OwnedConcat(w.settled, Closed(w.run), place);
        HeldConcat(w.settled + Closed(w.run), [c]);
        OwnedConcat(w.settled + Closed(w.run), [c], place);
        if w.run != 0 { CountsOne(Free(w.run, 0), place); }
      }
    }
  }

  lemma {:induction false} DropFreeCounts(cells: seq<Cell>, place: nat)
    ensures Held(DropFree(cells)) == Held(cells) && Owned(DropFree(cells), place) == Owned(cells, place)
    decreases |cells|
  {
    if cells != [] && cells[0].Free? {
      DropFreeCounts(cells[1..], place);
    }
  }
}
