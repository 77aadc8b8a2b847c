/** The mover: the cells the slots name carried down into the free runs below them, one a call. */
module CarcerMover {
  import opened CarcerBounds
  import opened CarcerCells
  import opened CarcerTiers
  import opened CarcerMoves
  import opened CarcerHeap

  /** The offsets the slots name, added up. */
  function Offsets(slots: seq<int>): int {
    if slots == [] then 0 else slots[0] + Offsets(slots[1..])
  }

  /** One slot lowered lowers the sum. */
  lemma {:induction false} OffsetsAt(slots: seq<int>, p: nat, v: int)
    requires p < |slots|
    ensures Offsets(slots[p := v]) == Offsets(slots) - slots[p] + v
  {
    if p == 0 {
      assert slots[0 := v][1..] == slots[1..];
    } else {
      OffsetsAt(slots[1..], p - 1, v);
      assert slots[p := v][1..] == slots[1..][p - 1 := v];
    }
  }

  /** Of the cells the slots name below an offset, none smaller than a size. */
  ghost predicate NoneSmaller(slots: seq<int>, sizes: seq<int>, below: int, refused: int) {
    |sizes| == |slots| && forall p :: 0 <= p < |slots| ==> slots[p] == 0 || slots[p] >= below || sizes[p] >= refused
  }

  /** What a search that has tried the cells from the highest down knows: every cell it tried or passed over has no
      run below it that holds it. A cell passed over is at least as large as one refused above it. */
  ghost predicate Refused(slots: seq<int>, sizes: seq<int>, up: seq<Cell>, below: int, refused: int, total: int) {
    && |sizes| == |slots|
    && (forall p :: 0 <= p < |slots| && slots[p] >= below ==>
        slots[p] >= 1 && sizes[p] >= 0 && NoneFits(up, sizes[p], slots[p] - 1))
    && 0 <= refused && below <= total
    && ((refused == total && below == total) || (below >= 1 && NoneFits(up, refused, below - 1)))
  }

  lemma {:induction false} RefusedStarts(slots: seq<int>, sizes: seq<int>, up: seq<Cell>, total: int)
    requires |sizes| == |slots| && total >= 1
    requires forall p :: 0 <= p < |slots| && slots[p] != 0 ==> 1 <= slots[p] < total
    ensures Refused(slots, sizes, up, total, total, total)
  {
  }

  /** Every cell above the next highest is ruled out, those tried and those passed over. */
  lemma {:induction false} RefusedAbove(slots: seq<int>, sizes: seq<int>, up: seq<Cell>, below: int, refused: int,
                                        total: int, q: nat)
    requires Refused(slots, sizes, up, below, refused, total)
    requires q < |slots| && 1 <= slots[q] < below
    requires forall p :: 0 <= p < |slots| && slots[p] != 0 ==> 1 <= slots[p] && 0 <= sizes[p] < total
    requires forall p :: 0 <= p < |slots| && slots[q] < slots[p] < below ==> sizes[p] >= refused
    ensures forall p :: 0 <= p < |slots| && slots[p] > slots[q] ==>
      slots[p] >= 1 && sizes[p] >= 0 && NoneFits(up, sizes[p], slots[p] - 1)
  {
    hide NoneFits;
    forall p | 0 <= p < |slots| && slots[p] > slots[q]
      ensures slots[p] >= 1 && sizes[p] >= 0 && NoneFits(up, sizes[p], slots[p] - 1)
    {
      if slots[p] < below {
        NoneFitsMore(up, refused, below - 1, sizes[p], slots[p] - 1);
      }
    }
  }

  /** The next highest cell refused too: the search knows as much from there down. */
  lemma {:induction false} RefusedNext(slots: seq<int>, sizes: seq<int>, up: seq<Cell>, below: int, refused: int,
                                       total: int, q: nat)
    requires Refused(slots, sizes, up, below, refused, total)
    requires q < |slots| && 1 <= slots[q] < below && 0 <= sizes[q] < refused
    requires forall p :: 0 <= p < |slots| && slots[p] != 0 ==> 1 <= slots[p] && 0 <= sizes[p] < total
    requires forall p :: 0 <= p < |slots| && slots[q] < slots[p] < below ==> sizes[p] >= refused
    requires forall p :: 0 <= p < |slots| && slots[p] == slots[q] ==> p == q
    requires NoneFits(up, sizes[q], slots[q] - 1)
    ensures Refused(slots, sizes, up, slots[q], sizes[q], total)
  {
    hide NoneFits;
    RefusedAbove(slots, sizes, up, below, refused, total, q);
  }

  /** One slot's cell carried into the first run below it that holds it, and no run below holds any named cell above
      it. */
  ghost predicate HighestMoved(up: seq<Cell>, slots: seq<int>, slots': seq<int>, sizes: seq<int>, place: nat, k: nat) {
    && place < |slots| == |sizes|
    && slots[place] >= 1 && sizes[place] >= 0 && FirstFit(up, k, sizes[place], slots[place] - 1)
    && k < |up| && slots' == slots[place := Span(up[..k]) + 1]
    && forall p :: 0 <= p < |slots| && slots[p] > slots[place] ==>
         sizes[p] >= 0 && NoneFits(up, sizes[p], slots[p] - 1)
  }

  /** No cell left to try: none the slots name has a run below it that holds it. */
  lemma {:induction false} RefusedAll(slots: seq<int>, sizes: seq<int>, up: seq<Cell>, below: int, refused: int,
                                      total: int, p: nat)
    requires Refused(slots, sizes, up, below, refused, total) && NoneSmaller(slots, sizes, below, refused)
    requires p < |slots| && slots[p] != 0 && 1 <= slots[p] < total && 0 <= sizes[p] < total
    ensures NoneFits(up, sizes[p], slots[p] - 1)
  {
    hide NoneFits;
    if slots[p] < below {
      NoneFitsMore(up, refused, below - 1, sizes[p], slots[p] - 1);
    }
  }

  /** Payload sizes of the cells the slots name, 0 for a slot that names none. */
  ghost predicate Sized(busies: seq<(nat, Cell)>, slots: seq<int>, sizes: seq<int>) {
    && |sizes| == |slots|
    && forall p :: 0 <= p < |slots| && slots[p] != 0 ==>
         exists x :: x in busies && x.0 + 1 == slots[p] && x.1.size == sizes[p]
  }

  class CarcerMovable {
    const series: SeriesCellularum
    /** A slot's word: the payload offset of the cell it names, 0 for none. */
    const slot: array<int>
    /** Whether the bytes of a cell moved or given back are zeroed. */
    const wipes: bool
    /** One past the highest slot ever named. */
    var named: nat

    /** A table with no slot named. */
    constructor (series: SeriesCellularum, slot: array<int>, wipes: bool)
      requires slot != series.base && slot != series.table && series.base.Length >= 1
      requires forall p :: 0 <= p < slot.Length ==> slot[p] == 0
      ensures this.series == series && this.slot == slot && Slots() && named == 0
    {
      this.series, this.slot, this.wipes, this.named := series, slot, wipes, 0;
    }

    /** The busy cells of the persistent tier, where slots name their cells. */
    ghost function Seats(): seq<(nat, Cell)>
      reads series
    {
      Busies(series.persistent, 0)
    }

    /** Every slot that names a cell names a busy cell of the persistent tier, and no two name one. */
    ghost predicate Slots()
      reads this, slot, series
    {
      && slot != series.base && slot != series.table && named <= slot.Length && series.base.Length >= 1
      && (forall p :: named <= p < slot.Length ==> slot[p] == 0)
      && (forall p :: 0 <= p < named && slot[p] != 0 ==> slot[p] >= 1 && Standing(Seats(), slot[p]))
      && (forall p, q :: 0 <= p < q < named && slot[p] != 0 ==> slot[p] != slot[q])
    }

    /** The payload size of the cell a slot names, off its header. */
    function SizeAt(payload: int): int
      reads series.base
    {
      if 1 <= payload <= series.base.Length then SizeOf(series.base[payload - 1]) else 0
    }

    /** The cell a slot names stands in the tier, and its header gives its size. */
    lemma {:induction false} SlotReads(p: nat) returns (j: nat)
      requires series.Tiled() && Slots() && p < named && slot[p] != 0
      ensures j < |series.persistent| && series.persistent[j].Busy?
      ensures slot[p] == Span(series.persistent[..j]) + 1
      ensures slot[p] + series.persistent[j].size < series.base.Length
      ensures SizeAt(slot[p]) == series.persistent[j].size >= 1
      ensures (slot[p] - 1, series.persistent[j]) in Seats()
    {
      hide Busies, Span, Tilings;
      var x :| x in Seats() && x.0 + 1 == slot[p];
      j := BusyIndex(series.persistent, 0, x);
      TilingsCell(series.base[..], series.persistent, series.temporary, series.table.Length, true, j);
    }

    /** Of the slots whose cells lie under `below` and are smaller than `refused`, the one with the greatest offset. */
    method SlotHighest(below: int, refused: int) returns (place: nat, payload: int)
      requires Slots()
      ensures payload == 0 ==> forall p :: 0 <= p < named ==>
          slot[p] == 0 || slot[p] >= below || SizeAt(slot[p]) >= refused
      ensures payload != 0 ==>
        place < named && payload == slot[place] && 1 <= payload < below && SizeAt(payload) < refused
      ensures payload != 0 ==>
        forall p :: 0 <= p < named && payload < slot[p] < below ==> SizeAt(slot[p]) >= refused
    {
      place, payload := 0, 0;
      var p: nat := 0;
      while p < named
        invariant p <= named
        invariant payload == 0 ==> forall q :: 0 <= q < p ==>
            slot[q] == 0 || slot[q] >= below || SizeAt(slot[q]) >= refused
        invariant payload != 0 ==>
          place < p && payload == slot[place] && 1 <= payload < below && SizeAt(payload) < refused
        invariant payload >= 0 && forall q :: 0 <= q < p && payload < slot[q] < below ==> SizeAt(slot[q]) >= refused
      {
        var at := slot[p];
        if at != 0 && at > payload && at < below && SizeAt(at) < refused {
          place, payload := p, at;
        }
        p := p + 1;
      }
    }

    /** The payload a moved cell left behind reads zero, in a table that wipes. */
    ghost predicate Wiped(payload: int, size: int)
      reads series.base
    {
      wipes ==> (
        && 1 <= payload && payload + size <= series.base.Length
        && forall p :: payload <= p < payload + size ==> series.base[p] == 0)
    }

    /** One cell carried down into the run found for it, and its slot with it. */
    method Lowered(place: nat, off: nat, size: nat, at: nat, runSize: nat, ghost k: nat, ghost j: nat)
      requires series.Tiled() && series.Counted() && Slots() && place < named && slot[place] == off + 1
      requires CanMove(series.persistent, k, j)
      requires off == Span(series.persistent[..j]) && size == series.persistent[j].size
      requires at == Span(series.persistent[..k]) && runSize == series.persistent[k].size
      modifies series`persistent, series`uncounted, series`beyond, series.base, slot
      ensures series.Tiled() && series.Counted() && Slots()
      ensures SlotsFollow(old(Seats()), Seats(), old(slot[..]), slot[..])
      ensures slot[..] == old(slot[..])[place := at + 1] && at < off
      ensures Wiped(off + 1, size)
      ensures Span(series.persistent)
           == if off + size + HDR == old(Span(series.persistent)) then off else old(Span(series.persistent))
    {
      hide Busies, Span, Lays, Tilings, Ledger, Merged, MovedTier, SlotsFollow, CanMove;
      ghost var m, up := series.base[..], series.persistent;
      TilingsReads(m, up, series.temporary, series.table.Length);
      series.Relocated(off, size, at, runSize, wipes, k, j);
      ghost var words := series.base[at + 1..at + 1 + Kept(runSize, size)];
      assert words[..size] == series.base[at + 1..at + 1 + size];
      MoveFollowed(m, up, k, j, words, slot[..], place);
      slot[place] := at + 1;
    }

    /** One cell tried: the tier merged and trimmed, and the cell carried down into the first run below it that holds
        it, its slot with it, where there is one. */
    method Tried(place: nat, payload: int) returns (found: bool, ghost k: nat)
      requires series.Valid() && series.Counted() && Slots() && place < named && slot[place] == payload != 0
      modifies series`bounds, series`persistent, series`uncounted, series`beyond, series.base, slot
      ensures series.Valid() && series.Counted() && Slots()
      ensures !found ==> (
        && series.persistent == Merged(old(series.persistent)) && slot[..] == old(slot[..])
        && old(SizeAt(payload)) >= 0 && NoneFits(series.persistent, old(SizeAt(payload)), payload - 1))
      ensures found ==> (
        && SlotsFollow(old(Seats()), Seats(), old(slot[..]), slot[..])
        && old(SizeAt(payload)) >= 0 && k < |Merged(old(series.persistent))|
        && FirstFit(Merged(old(series.persistent)), k, old(SizeAt(payload)), payload - 1)
        && slot[..] == old(slot[..])[place := Span(Merged(old(series.persistent))[..k]) + 1]
            && 1 <= slot[place] < payload && Wiped(payload, old(SizeAt(payload))))
    {
      hide Busies, Span, Lays, Tilings, Ledger, Word, TopOf, EndOf, Merged, FirstFit, NoneFits, SlotsFollow, CanMove;
      ghost var up := series.persistent;
      ghost var i := SlotReads(place);
      var off: nat := payload - 1;
      var size: nat := SizeAt(payload);
      TilingsReads(series.base[..], up, series.temporary, series.table.Length);
      LaysPositive(series.base[..], 0, up);
      WalkedBusies(up, 0);
      LedgerReturned(series.table[..], series.inUse, series.persistentInUse, up, series.temporary, series.uncounted,
                     series.beyond);
      WordReads(series.cfg, Span(up), series.Start());
      var at: nat, runSize: nat, end: nat;
      found, at, runSize, end, k := series.Swept(size, off, true);
      TilingsReads(series.base[..], series.persistent, series.temporary, series.table.Length);
      ghost var j := BusyIndex(series.persistent, 0, (off, up[i]));
      var atEnd := found && off + HDR + size == end;
      series.bounds := Word(series.cfg, if atEnd then off else end, TopOf(series.cfg, series.bounds));
      if found {
        FoundMoves(series.persistent, k, j);
        FoundFits(series.persistent, size, off, k);
        Lowered(place, off, size, at, runSize, k, j);
      }
    }

    /** The payload sizes of the cells the slots name, off their headers. */
    ghost function Sizes(): seq<int>
      reads slot, series.base
    {
      seq(slot.Length, p requires 0 <= p < slot.Length reads series.base, slot => SizeAt(slot[p]))
    }

    lemma {:induction false} SizesTaken()
      requires series.Tiled() && Slots()
      ensures Sized(Seats(), slot[..], Sizes())
    {
      forall p | 0 <= p < slot.Length && slot[p] != 0
        ensures exists x :: x in Seats() && x.0 + 1 == slot[p] && x.1.size == Sizes()[p]
      {
        var j := SlotReads(p);
        assert (slot[p] - 1, series.persistent[j]) in Seats();
      }
    }

    /** What the headers say of the named cells' sizes, as long as the same cells are busy. */
    lemma {:induction false} SizesRead(sizes: seq<int>)
      requires series.Tiled() && Slots() && Sized(Seats(), slot[..], sizes)
      ensures |sizes| == slot.Length
      ensures forall p :: 0 <= p < named && slot[p] != 0 ==>
        SizeAt(slot[p]) == sizes[p] && 1 <= slot[p] < series.base.Length && 0 <= sizes[p] < series.base.Length
    {
      TilingsReads(series.base[..], series.persistent, series.temporary, series.table.Length);
      BusiesApart(series.base[..], series.persistent);
      forall p | 0 <= p < named && slot[p] != 0
        ensures SizeAt(slot[p]) == sizes[p] && 1 <= slot[p] < series.base.Length && 0 <= sizes[p] < series.base.Length
      {
        var j := SlotReads(p);
        var x :| x in Seats() && x.0 + 1 == slot[p] && x.1.size == sizes[p];
        assert x == (slot[p] - 1 as nat, series.persistent[j]);
      }
    }

    /** What a search that has moved nothing yet has left as it was, and what it has ruled out. */
    ghost predicate Searching(up: seq<Cell>, slots: seq<int>, sizes: seq<int>, below: int, refused: int, stands: bool)
      reads series, slot
    {
      && (series.persistent == up || series.persistent == Merged(up))
      && slot[..] == slots && Seats() == Busies(up, 0) && Sized(Seats(), slots, sizes)
      && Refused(slots, sizes, Merged(up), below, refused, series.base.Length)
      && (!stands ==> NoneSmaller(slots, sizes, below, refused))
    }

    /** One turn of the search: the highest cell still to try tried, or none left to try. */
    method TriedNext(below: int, refused: int, ghost up: seq<Cell>, ghost slots: seq<int>, ghost sizes: seq<int>)
      returns (stands: bool, moved: bool, lower: int, smaller: int, ghost place: nat, ghost k: nat)
      requires series.Valid() && series.Counted() && Slots() && Searching(up, slots, sizes, below, refused, true)
      requires Merged(Merged(up)) == Merged(up) && Busies(Merged(up), 0) == Busies(up, 0)
      modifies series`bounds, series`persistent, series`uncounted, series`beyond, series.base, slot
      ensures series.Valid() && series.Counted() && Slots()
      ensures moved ==> SlotsFollow(Busies(up, 0), Seats(), slots, slot[..]) && Offsets(slot[..]) < Offsets(slots)
      ensures moved ==> HighestMoved(Merged(up), slots, slot[..], sizes, place, k) && Wiped(slots[place], sizes[place])
      ensures !moved ==> Searching(up, slots, sizes, lower, smaller, stands)
      ensures stands ==> 0 <= lower < below
    {
      hide Busies, Span, Lays, Tilings, Ledger, Word, Merged, NoneFits, SlotsFollow, Sized, Refused, Offsets, FirstFit;
      SizesRead(sizes);
      var at, payload := SlotHighest(below, refused);
      place, k := at, 0;
      stands, moved, lower, smaller := payload != 0, false, below, refused;
      if stands {
        RefusedAbove(slots, sizes, Merged(up), below, refused, series.base.Length, place);
        moved, k := Tried(at, payload);
        lower := payload;
        if moved {
          OffsetsAt(slots, place, slot[place]);
        } else {
          smaller := SizeAt(payload);
          SizesRead(sizes);
          RefusedNext(slots, sizes, Merged(up), below, refused, series.base.Length, place);
        }
      }
    }

    /** A move: the highest named cell that a run below it holds carried down, the cells tried from the highest down
        and a cell at least as large as one refused passed over. It answers whether a cell moved: a cell that did
        lowers the sum of the slots' offsets, and where none did no cell the slots name has a run below it that holds
        it. */
    method Move() returns (moved: bool, ghost place: nat, ghost k: nat)
      requires series.Displaced() && series.Counted() && Slots()
      modifies series`bounds, series`overEnd, series`overTop, series`persistent, series`uncounted, series`beyond
      modifies series.base, slot
      ensures series.Valid() && series.Counted() && Slots()
      ensures moved ==> SlotsFollow(old(Seats()), Seats(), old(slot[..]), slot[..])
      ensures moved ==> Offsets(slot[..]) < Offsets(old(slot[..]))
      ensures moved ==>
        HighestMoved(Merged(old(series.persistent)), old(slot[..]), slot[..], old(Sizes()), place, k)
        && Wiped(old(slot[..])[place], old(Sizes())[place])
      ensures !moved ==> slot[..] == old(slot[..]) && Seats() == old(Seats())
      ensures !moved ==> forall p :: 0 <= p < named && slot[p] != 0 ==>
        SizeAt(slot[p]) >= 0 && NoneFits(Merged(old(series.persistent)), SizeAt(slot[p]), slot[p] - 1)
    {
      hide Busies, Span, Lays, Tilings, Ledger, Word, Merged, NoneFits, SlotsFollow, Sized, Refused, Offsets;
      series.Settle();
      ghost var up, slots := series.persistent, slot[..];
      TilingsReads(series.base[..], up, series.temporary, series.table.Length);
      LaysPositive(series.base[..], 0, up);
      WalkedBusies(up, 0);
      MergedTwice(up);
      SizesTaken();
      ghost var sizes := Sizes();
      SizesRead(sizes);
      var below, refused := series.base.Length, series.base.Length;
      RefusedStarts(slots, sizes, Merged(up), below);
      moved, place, k := false, 0, 0;
      var stands := true;
      while stands && !moved
        invariant series.Valid() && series.Counted() && Slots()
        invariant moved ==> SlotsFollow(Busies(up, 0), Seats(), slots, slot[..]) && Offsets(slot[..]) < Offsets(slots)
        invariant moved ==>
          HighestMoved(Merged(up), slots, slot[..], sizes, place, k) && Wiped(slots[place], sizes[place])
        invariant !moved ==> Searching(up, slots, sizes, below, refused, stands)
        decreases stands && !moved, below
      {
        stands, moved, below, refused, place, k := TriedNext(below, refused, up, slots, sizes);
      }
      if !moved {
        SearchEnds(up, slots, sizes, below, refused);
      }
    }

    /** A search over with nothing moved: no cell the slots name has a run below it that holds it. */
    lemma {:induction false} SearchEnds(up: seq<Cell>, slots: seq<int>, sizes: seq<int>, below: int, refused: int)
      requires series.Tiled() && Slots() && Searching(up, slots, sizes, below, refused, false)
      ensures forall p :: 0 <= p < named && slot[p] != 0 ==>
        SizeAt(slot[p]) >= 0 && NoneFits(Merged(up), SizeAt(slot[p]), slot[p] - 1)
    {
      hide Busies, Merged, NoneFits, Refused;
      SizesRead(sizes);
      forall p | 0 <= p < named && slot[p] != 0
        ensures SizeAt(slot[p]) >= 0 && NoneFits(Merged(up), SizeAt(slot[p]), slot[p] - 1)
      {
        RefusedAll(slots, sizes, Merged(up), below, refused, series.base.Length, p);
      }
    }
  }
}
