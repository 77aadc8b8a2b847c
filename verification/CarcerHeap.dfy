/** A cellblock with no pass under way: the boundaries, the cells behind them and what they are counted at, and the
    entries and writers that move them. Offsets and sizes count grains. */
module CarcerHeap {
  import opened CarcerBounds
  import opened WordArithmetic
  import opened CarcerCells
  import opened CarcerTiers
  import opened CarcerMarks
  import opened CarcerMoves

  /** The want no run holds, which a walk that only merges and trims is given. */
  const SIZE_MAX: nat := 0xFFFF_FFFF_FFFF_FFFF

  class SeriesCellularum {
    const cfg: Config
    /** Bytes in a grain. */
    const grain: nat
    const base: array<int>
    /** The owners' counts: the payload grains of the cells each owner has now. */
    const table: array<int>
    var bounds: nat
    var overEnd: nat
    var overTop: nat
    var inUse: int
    var persistentInUse: int

    /** The cells of the two tiers, from the base up and from the lowest temporary cell up. */
    ghost var persistent: seq<Cell>
    ghost var temporary: seq<Cell>
    /** Payload grains a move laid and did not count, and what each owner's count holds beyond this cellblock. */
    ghost var uncounted: int
    ghost var beyond: seq<int>

    /** A cellblock with no cell: the boundaries at its two ends, and nothing counted to it. */
    constructor (cfg: Config, grain: nat, base: array<int>, table: array<int>)
      requires base != table && grain >= 1 && cfg.size == base.Length && cfg.header == HDR && Sound(cfg)
      requires cfg.half < SIZE_MAX
      ensures this.cfg == cfg && this.grain == grain && this.base == base && this.table == table
      ensures Valid() && Counted() && persistent == [] && temporary == []
      ensures uncounted == 0 && beyond == table[..]
    {
      this.cfg, this.grain, this.base, this.table := cfg, grain, base, table;
      bounds, overEnd, overTop := Word(cfg, 0, base.Length), 0, 0;
      inUse, persistentInUse := 0, 0;
      persistent, temporary, uncounted, beyond := [], [], 0, table[..];
    }

    /** Where the temporary tier begins in memory. */
    ghost function Start(): nat
      reads this
      requires Span(temporary) <= base.Length
    {
      base.Length - Span(temporary)
    }

    /** The two tiers tile their ends of memory exactly and do not cross. */
    ghost predicate Tiled()
      reads this, base
    {
      && base != table && grain >= 1
      && cfg.size == base.Length && cfg.header == HDR && Sound(cfg) && cfg.half < SIZE_MAX
      && Tilings(base[..], persistent, temporary, table.Length)
    }

    /** At rest: both boundaries stand at their chains, with nothing overrun. */
    ghost predicate Valid()
      reads this, base
    {
      && Tiled()
      && bounds == Word(cfg, Span(persistent), Start())
      && overEnd == 0 && overTop == 0
    }

    /** After refused bumps: each boundary displaced from its chain by its overrun, the top around its half, and with
        anything overrun the boundaries crossed. */
    ghost predicate Displaced()
      reads this, base
    {
      && Tiled()
      && Displaces(cfg, bounds, Span(persistent), Start(), overEnd, overTop)
    }

    /** What refused bumps have added since the last settle leaves room in both halves for one bump more. */
    ghost predicate Headroom()
      reads this
    {
      overEnd + overTop + HDR + cfg.wantMost < BytesMost(cfg)
    }

    /** A mark of the temporary tier, as it reads. */
    method Mark() returns (mark: nat)
      requires Displaced()
      ensures mark == SubWrap(cfg, Start(), overTop)
      ensures mark == Start() <==> overTop == 0
    {
      hide Lays, Span, Word, EndOf, TopOf, Tilings;
      TilingsReads(base[..], persistent, temporary, table.Length);
      WordReads(cfg, Span(persistent) + overEnd, SubWrap(cfg, Start(), overTop));
      mark := TopOf(cfg, bounds);
    }

    /** At rest is displaced by nothing. */
    lemma {:induction false} AtRest()
      ensures Valid() <==> Displaced() && overEnd == 0 && overTop == 0
    {
      hide Tilings, Word;
      if Tiled() {
        TilingsReads(base[..], persistent, temporary, table.Length);
      }
    }

    /** The cellblock's totals and its owners' counts are the payloads of the busy cells. */
    ghost predicate Counted()
      reads this, table
    {
      Ledger(table[..], inUse, persistentInUse, persistent, temporary, uncounted, beyond)
    }

    /** A cell's two words laid, the owner word first, and its payload counted. */
    method Laid(off: nat, size: nat, place: nat, stamp: nat, up: bool)
      requires base != table && off + size + HDR <= base.Length && 1 <= place <= table.Length
      modifies base, table, `inUse, `persistentInUse
      ensures base[..] == old(base[..])[off + 1 + size := OwnerWord(place, stamp)][off := Header(size, true)]
      ensures inUse == old(inUse) + size
      ensures persistentInUse == old(persistentInUse) + if up then size else 0
      ensures table[..] == old(table[..])[place - 1 := old(table[place - 1]) + size]
    {
      base[off + 1 + size] := OwnerWord(place, stamp);
      base[off] := Header(size, true);
      CountedTo(place, size, up);
    }

    /** From any displacement back to rest. */
    method Settle()
      requires Displaced()
      modifies `bounds, `overEnd, `overTop
      ensures Valid()
    {
      hide Lays, Span, Word, EndOf, TopOf, Tilings;
      TilingsReads(base[..], persistent, temporary, table.Length);
      WordReads(cfg, Span(persistent) + overEnd, SubWrap(cfg, Start(), overTop));
      var end := EndOf(cfg, bounds);
      var top := TopOf(cfg, bounds);
      if SubWrap(cfg, Start(), overTop) + overTop >= cfg.half {
        DivMod(1, Start(), cfg.half);
      } else {
        Below(Start(), cfg.half);
      }
      bounds := Word(cfg, end - overEnd, (top + overTop) % cfg.half);
      overEnd := 0;
      overTop := 0;
    }

    /** The persistent tier merged in place, and the first of its free cells that fits `want` under `below`, if any. */
    method Swept(want: nat, below: nat, permit: bool)
      returns (found: bool, at: nat, size: nat, endAfter: nat, ghost k: nat)
      requires Valid()
      modifies base, `persistent
      ensures Tiled()
      ensures persistent == if permit then Merged(old(persistent)) else old(persistent)
      ensures endAfter == Span(persistent) <= old(Span(persistent))
      ensures permit ==> Searched(persistent, want, below, found, k, at, size)
      ensures !permit ==> !found && base[..] == old(base[..])
      ensures base[old(Span(persistent))..] == old(base[Span(persistent)..])
    {
      hide Lays, Span, Walked, Sweeping, Searched, Word, Tilings;
      TilingsReads(base[..], persistent, temporary, table.Length);
      WordReads(cfg, Span(persistent), Start());
      ghost var cells := persistent;
      var end := EndOf(cfg, bounds);
      var walked := if permit then end else 0;
      var off: nat, runAt: nat, runSize: nat := 0, 0, 0;
      found, at, size, k := false, 0, 0, 0;
      ghost var i: nat := 0;
      SweepStarts(base[..], cells, want, below);
      while off < walked
        invariant Sweeping(base[..], cells, i, off, runAt, runSize, want, below, found, k, at, size)
        invariant persistent == cells && i <= |cells| && off <= end
        invariant !permit ==> base[..] == old(base[..]) && !found && runSize == 0
        invariant forall j :: end <= j < base.Length ==> base[j] == old(base[j])
        decreases |cells| - i
      {
        SweepReads(base[..], cells, i, off, runAt, runSize, want, below, found, k, at, size);
        ghost var m, w := base[..], Walked(cells[..i]);
        var word := base[off];
        var cellSize := SizeOf(word);
        if StateOf(word) == 0 {
          SweepPassesFree(m, cells, i, off, runAt, runSize, want, below, found, k, at, size);
          runAt := if runSize == 0 then off else runAt;
          runSize := (if runSize == 0 then 0 else runSize + HDR) + cellSize;
        } else {
          SweepPassesBusy(m, if runSize == 0 then m else m[runAt + 1 + runSize := 0][runAt := Header(runSize, false)],
                          cells, i, off, runAt, runSize, want, below, found, k, at, size);
          if runSize != 0 {
            if !found && runSize >= want && off <= below {
              found, at, size, k := true, runAt, runSize, |w.settled|;
            }
            base[runAt + 1 + runSize] := 0;
            base[runAt] := Header(runSize, false);
            assert base[..] == m[runAt + 1 + runSize := 0][runAt := Header(runSize, false)];
          }
          runSize := 0;
        }
        off := off + HDR + cellSize;
        i := i + 1;
      }
      endAfter := if runSize != 0 then runAt else end;
      if permit {
        SweepEnds(base[..], cells, i, off, runAt, runSize, want, below, found, k, at, size);
        persistent := Merged(cells);
        TilingsWalked(old(base[..]), base[..], cells, temporary, table.Length);
      }
    }

    /** One busy cell more at a tier's gap, over the words memory held there. */
    ghost predicate Appended(up: seq<Cell>, down: seq<Cell>, size: nat, owner: int, payload: nat, goesDown: bool)
      reads this, base
    {
      && 1 <= payload && payload + size < base.Length
      && var c := Busy(size, owner, base[payload..payload + size]);
      if goesDown then
        persistent == up && temporary == [c] + down && payload + size + 1 + Span(down) == base.Length
      else
        persistent == up + [c] && temporary == down && payload == Span(up) + 1
    }

    /** The grains a take asks of its boundary: none where it is not permitted, asks for more than a bump may, or finds
        the end past the most a cellblock holds. */
    ghost function Need(want: nat, down: bool, permit: bool): nat
      reads this
    {
      if permit && want <= cfg.wantMost && (down || EndOver() <= BytesMost(cfg)) then HDR + want else 0
    }

    ghost function EndOver(): nat
      reads this
    {
      Span(persistent) + overEnd
    }

    /** Whether the gap meets a bump: nothing refused since the last settle, and the room for it. */
    ghost predicate Meets(need: nat)
      reads this
    {
      need > 0 && overEnd == overTop == 0 && Span(persistent) + Span(temporary) + need <= base.Length
    }

    /** The fetch-add of a take: it moves its own boundary, and what the gap does not meet of it is overrun. */
    method Moves(want: nat, down: bool, permit: bool) returns (taken: bool, off: nat)
      requires Displaced() && Headroom() && want >= 1
      modifies `bounds, `overEnd, `overTop
      ensures taken <==> old(Meets(Need(want, down, permit)))
      ensures taken ==> overEnd == 0 && overTop == 0
      ensures taken && !down ==> off == Span(persistent) && bounds == Word(cfg, off + HDR + want, Start())
      ensures taken && down ==> off + HDR + want == Start() && bounds == Word(cfg, Span(persistent), off)
      ensures !taken ==> (
        && Displaced()
        && overEnd == old(overEnd) + (if down then 0 else old(Need(want, down, permit)))
        && overTop == old(overTop) + (if down then old(Need(want, down, permit)) else 0))
    {
      hide Lays, Span, Word, EndOf, TopOf, FetchAdd, Moved, Tilings, CarcerBounds.Fits, Displaces;
      TilingsReads(base[..], persistent, temporary, table.Length);
      ghost var asked := Need(want, down, permit);
      ghost var met := Meets(asked);
      BumpDisplaces(cfg, bounds, Span(persistent), Start(), overEnd, overTop, down, 0);
      var ahead := bounds;
      var within := want <= cfg.wantMost && (down || EndOf(cfg, ahead) <= BytesMost(cfg));
      var allowed := permit && within;
      var need := if allowed then HDR + want else 0;
      assert need == asked;
      BumpDisplaces(cfg, bounds, Span(persistent), Start(), overEnd, overTop, down, need);
      var word := bounds;
      bounds := FetchAdd(cfg, word, Moved(cfg, down, need));
      var endWas, topWas := EndOf(cfg, word), TopOf(cfg, word);
      taken := allowed && CarcerBounds.Fits(cfg, endWas, topWas, down, need);
      assert taken == met;
      off := if taken && down then topWas - need else endWas;
      overEnd := overEnd + if taken || down then 0 else need;
      overTop := overTop + if taken || !down then 0 else need;
    }

    /** A cell laid in the gap, at the persistent end or under the temporary top, and counted. */
    method LaidInGap(off: nat, want: nat, place: nat, stamp: nat, down: bool) returns (payload: nat)
      requires Tiled() && Counted() && want >= 1 && 1 <= place <= table.Length
      requires Span(persistent) + Span(temporary) + HDR + want <= base.Length
      requires off == if down then base.Length - Span(temporary) - HDR - want else Span(persistent)
      modifies base, table, `inUse, `persistentInUse, `persistent, `temporary
      ensures Tiled() && Counted()
      ensures Appended(old(persistent), old(temporary), want, OwnerWord(place, stamp), payload, down)
      ensures payload == off + 1
      ensures base[..] == old(base[..])[off + 1 + want := OwnerWord(place, stamp)][off := Header(want, true)]
      ensures Span(persistent) == old(Span(persistent)) + if down then 0 else HDR + want
      ensures Span(temporary) == old(Span(temporary)) + if down then HDR + want else 0
    {
      hide Span, OwnerWord, Tilings, Ledger;
      ghost var m := base[..];
      Laid(off, want, place, stamp, !down);
      payload := off + 1;
      ghost var c := Busy(want, OwnerWord(place, stamp), base[payload..payload + want]);
      OwnerWordReads(place, stamp);
      TilingsTakes(m, base[..], off, c, persistent, temporary, table.Length);
      LedgerTakes(old(table[..]), old(inUse), old(persistentInUse), persistent, temporary, uncounted, beyond, c);
      persistent, temporary := if down then persistent else persistent + [c],
                               if down then [c] + temporary else temporary;
    }

    /** A take out of the gap: its cell's two words laid there and nothing else written, or the boundary displaced by
        what it asked for. */
    method Bumped(want: nat, place: nat, stamp: nat, down: bool, permit: bool) returns (payload: nat)
      requires Displaced() && Headroom() && Counted() && want >= 1 && 1 <= place <= table.Length
      modifies base, table, `bounds, `overEnd, `overTop, `inUse, `persistentInUse, `persistent, `temporary
      ensures payload != 0 <==> old(Meets(Need(want, down, permit)))
      ensures payload != 0 ==> (
        && Valid() && Appended(old(persistent), old(temporary), want, OwnerWord(place, stamp), payload, down)
        && base[..] == old(base[..])[payload + want := OwnerWord(place, stamp)][payload - 1 := Header(want, true)])
      ensures payload == 0 ==> (
        && Displaced()
        && overEnd == old(overEnd) + (if down then 0 else old(Need(want, down, permit)))
        && overTop == old(overTop) + (if down then old(Need(want, down, permit)) else 0)
        && Unchanged(old(base[..]), old(table[..]), old(inUse), old(persistentInUse), old(persistent), old(temporary)))
      ensures Counted()
    {
      hide Span, Word, OwnerWord, Tilings, Ledger, Appended;
      TilingsReads(base[..], persistent, temporary, table.Length);
      var taken, off := Moves(want, down, permit);
      payload := 0;
      if taken {
        payload := LaidInGap(off, want, place, stamp, down);
      }
    }

    /** Where the temporary tier would begin without the free cells it begins with. */
    method TopWalked(permit: bool) returns (at: nat)
      requires Tiled() && bounds < cfg.half * cfg.half && TopOf(cfg, bounds) == Start()
      ensures at == base.Length - Span(if permit then DropFree(temporary) else temporary)
      ensures Span(if permit then DropFree(temporary) else temporary) <= Span(temporary)
    {
      hide Lays, Span, TopOf, Tilings, DropFree, Trimming;
      TilingsReads(base[..], persistent, temporary, table.Length);
      TrimStarts(base[..], temporary, permit);
      at := TopOf(cfg, bounds);
      var more := permit && at < base.Length;
      ghost var i: nat := 0;
      while more
        invariant Trimming(base[..], temporary, i, at, more, permit)
        decreases |temporary| - i, more
      {
        TrimReads(base[..], temporary, i, at, permit);
        var word := base[at];
        var free := StateOf(word) == 0;
        if free {
          at := at + HDR + SizeOf(word);
          i := i + 1;
        }
        more := free && at < base.Length;
      }
      TrimEnds(base[..], temporary, i, at, permit);
    }

    /** A free cell of the persistent tier taken over: its rest laid free where the run splits, then the cell. */
    method LaidInRun(at: nat, size: nat, want: nat, place: nat, stamp: nat, ghost k: nat) returns (payload: nat)
      requires Tiled() && Counted() && want >= 1 && 1 <= place <= table.Length
      requires k < |persistent| && persistent[k].Free? && persistent[k].size == size >= want
      requires at == Span(persistent[..k]) && at + size + HDR <= base.Length
      modifies base, table, `inUse, `persistentInUse, `persistent
      ensures Tiled() && Counted()
      ensures payload == at + 1 && payload + Kept(size, want) < base.Length
      ensures persistent == old(persistent)[..k]
        + Taken(size, want, OwnerWord(place, stamp), base[payload..payload + Kept(size, want)])
            + old(persistent)[k + 1..]
      ensures Span(persistent) == old(Span(persistent))
    {
      hide Span, OwnerWord, Tilings, Ledger;
      ghost var m := base[..];
      var kept := Kept(size, want);
      if kept != size {
        base[at + HDR + want + 1 + (size - want - HDR)] := 0;
        base[at + HDR + want] := Header(size - want - HDR, false);
      }
      assert base[..] == RestLaid(m, at, size, want);
      Laid(at, kept, place, stamp, true);
      payload := at + 1;
      RunLaidOver(m, at, size, want, OwnerWord(place, stamp));
      ghost var owner, words := OwnerWord(place, stamp), base[payload..payload + kept];
      OwnerWordReads(place, stamp);
      TilingsRunTaken(m, base[..], persistent, temporary, table.Length, k, want, owner);
      LedgerRunTaken(old(table[..]), old(inUse), old(persistentInUse), persistent, temporary, uncounted, beyond,
                     k, want, owner, words);
      persistent := persistent[..k] + Taken(size, want, owner, words) + persistent[k + 1..];
    }

    /** The writer's first three steps, the cellblock closed: the boundaries settled, the persistent tier walked where
        it is the one asked about, the temporary top walked where that is. The boundaries are stored by the caller. */
    method Cleared(want: nat, up: bool)
      returns (found: bool, at: nat, size: nat, end: nat, top: nat, ghost k: nat)
      requires Displaced()
      modifies base, `bounds, `overEnd, `overTop, `persistent, `temporary
      ensures Tiled() && (Counted() <==> old(Counted())) && overEnd == 0 && overTop == 0
      ensures persistent == if up then Merged(old(persistent)) else old(persistent)
      ensures temporary == if up then old(temporary) else DropFree(old(temporary))
      ensures end == Span(persistent) && top == Start()
      ensures if up then Searched(persistent, want, base.Length, found, k, at, size) else !found
    {
      hide Lays, Span, Walked, Merged, DropFree, Searched, Word, EndOf, TopOf, Tilings, Ledger;
      Settle();
      TilingsReads(base[..], persistent, temporary, table.Length);
      WordReads(cfg, Span(persistent), Start());
      LedgerReturned(table[..], inUse, persistentInUse, persistent, temporary, uncounted, beyond);
      found, at, size, end, k := Swept(want, base.Length, up);
      top := TopWalked(!up);
      TilingsTopDropped(base[..], persistent, temporary, table.Length);
      temporary := if up then temporary else DropFree(temporary);
    }

    /** Where a take the gap refused went: the first free run of the merged tier that holds it, the gap the trimmed
        boundaries left, or nowhere. */
    ghost predicate Placed(up: seq<Cell>, down: seq<Cell>, want: nat, owner: int, payload: nat, goesDown: bool,
                           inRun: bool, k: nat)
      reads this, base
      requires want >= 1
    {
      if inRun then
        && !goesDown && FirstFit(up, k, want, base.Length)
        && payload == Span(up[..k]) + 1 && payload + Kept(up[k].size, want) < base.Length
        && persistent == up[..k]
             + Taken(up[k].size, want, owner, base[payload..payload + Kept(up[k].size, want)]) + up[k + 1..]
        && temporary == down
      else if payload != 0 then
        (!goesDown ==> NoneFits(up, want, base.Length)) && Appended(up, down, want, owner, payload, goesDown)
      else
        && (!goesDown ==> NoneFits(up, want, base.Length))
        && Span(up) + Span(down) + HDR + want > base.Length
        && persistent == up && temporary == down
    }

    /** The writer's answer to a take: the tier cleared, and a cell in its first run that fits, in the gap, or none. */
    method Spilled(want: nat, place: nat, stamp: nat, down: bool)
      returns (payload: nat, ghost inRun: bool, ghost k: nat)
      requires Displaced() && Counted() && want >= 1 && 1 <= place <= table.Length
      modifies base, table, `bounds, `overEnd, `overTop, `inUse, `persistentInUse, `persistent, `temporary
      ensures Valid() && Counted()
      ensures Placed(if down then old(persistent) else Merged(old(persistent)),
                     if down then DropFree(old(temporary)) else old(temporary),
                     want, OwnerWord(place, stamp), payload, down, inRun, k)
    {
      hide Lays, Span, Merged, DropFree, FirstFit, NoneFits, Word, OwnerWord, Tilings, Ledger, Appended;
      var found, at, size, end, top;
      found, at, size, end, top, k := Cleared(want, !down);
      TilingsReads(base[..], persistent, temporary, table.Length);
      inRun := found;
      var need := HDR + want;
      var room := !found && top >= end && top - end >= need;
      bounds := Word(cfg, if room && !down then end + need else end, if room && down then top - need else top);
      payload := 0;
      if found {
        FoundFits(persistent, want, base.Length, k);
        payload := LaidInRun(at, size, want, place, stamp, k);
      } else if room {
        payload := LaidInGap(if down then top - need else end, want, place, stamp, down);
      }
    }

    /** A tier's boundary trimmed, the closed bit this context's own: the persistent tier merged and its end drawn
        down, or the temporary top drawn up. */
    method TrimmedHeld(up: bool)
      requires Displaced()
      modifies base, `bounds, `overEnd, `overTop, `persistent, `temporary
      ensures Valid() && (Counted() <==> old(Counted()))
      ensures persistent == if up then Merged(old(persistent)) else old(persistent)
      ensures temporary == if up then old(temporary) else DropFree(old(temporary))
    {
      hide Lays, Span, Merged, DropFree, Searched, Word, Tilings, Ledger;
      ghost var k;
      var found, at, size, end, top;
      found, at, size, end, top, k := Cleared(SIZE_MAX, up);
      bounds := Word(cfg, end, top);
    }

    /** Words zeroed one at a time. */
    method ZeroBuf(at: nat, n: nat)
      requires at + n <= base.Length
      modifies base
      ensures base[..] == Zeroes(old(base[..]), at, n)
    {
      var i: nat := 0;
      while i < n
        invariant i <= n
        invariant forall j :: at <= j < at + i ==> base[j] == 0
        invariant forall j :: 0 <= j < base.Length && !(at <= j < at + i) ==> base[j] == old(base[j])
      {
        base[at + i] := 0;
        i := i + 1;
      }
      ZeroesIs(old(base[..]), base[..], at, n);
    }

    /** One claim on a cell's owner word: it takes the size off every account if it is the word's first. */
    method FootClaimed(off: nat, size: nat, low: bool, permit: bool)
      requires base != table && off + size + HDR <= base.Length
      modifies base, table, `inUse, `persistentInUse
      ensures var was := old(base[off + 1 + size]);
              var first := permit && !IsComplete(was) && PlaceOf(was) != 0;
        && base[..] == (if permit then old(base[..])[off + 1 + size := Completed(was)] else old(base[..]))
        && inUse == old(inUse) - (if first then size else 0)
        && persistentInUse == old(persistentInUse) - (if first && low then size else 0)
        && table[..] == (if first && 1 <= PlaceOf(was) <= table.Length
                         then old(table[..])[PlaceOf(was) - 1 := old(table[PlaceOf(was) - 1]) - size]
                         else old(table[..]))
    {
      hide IsComplete, PlaceOf, Completed;
      var was := base[off + 1 + size];
      if permit {
        base[off + 1 + size] := Completed(was);
      }
      var place := PlaceOf(was);
      if permit && !IsComplete(was) && place != 0 {
        if 1 <= place <= table.Length {
          table[place - 1] := table[place - 1] - size;
        }
        inUse := inUse - size;
        if low {
          persistentInUse := persistentInUse - size;
        }
      }
    }

    /** The cell a prisoner names: the payload's address is the cell's. An address of no cell is no caller's. */
    ghost predicate Names(prisoner: nat, low: bool, k: nat)
      reads this
      requires Span(temporary) <= base.Length
    {
      && k < |Tier(persistent, temporary, low)|
      && prisoner == OffOf(base.Length, persistent, temporary, low, k) + 1
    }

    /** A prisoner and an owner given, and the cell still counted to that owner. */
    ghost predicate Counts(prisoner: nat, place: nat, low: bool, k: nat)
      reads this
    {
      && prisoner != 0 && place != 0
      && var tier := Tier(persistent, temporary, low);
      k < |tier| && tier[k].Busy? && PlaceOf(tier[k].owner) == place
    }

    /** One cell freed in its tier and its words freed in memory, and no other. */
    ghost predicate GaveBack(m: seq<int>, up: seq<Cell>, down: seq<Cell>, low: bool, k: nat, prisoner: nat,
                             zeroing: bool)
      reads this, base
    {
      && k < |Tier(up, down, low)|
      && var c := Tier(up, down, low)[k];
      && 1 <= prisoner && prisoner + c.size < |m|
      && base[..] == GivenWords(m, prisoner - 1, c.size, zeroing) && Wipes(m, base[..], prisoner, c.size, zeroing)
      && persistent == (if low then Freed(up, k) else up)
      && temporary == (if low then down else Freed(down, k))
    }

    /** Whether the boundary word reads a cell as its tier's newest: the end behind it, or the top at it. */
    ghost predicate AtBoundary(prisoner: nat)
      reads this, base
    {
      && 1 <= prisoner <= base.Length && cfg.half > 0
      && if prisoner - 1 < EndOf(cfg, bounds) then prisoner - 1 + HDR + SizeOf(base[prisoner - 1]) == EndOf(cfg, bounds)
         else prisoner - 1 == TopOf(cfg, bounds)
    }

    /** A give: the cell read, its payload zeroed where asked, its owner word claimed, and its header set free, where
        the owner named is the one the cell counts to. It runs in no pass, so the boundaries may stand displaced, and
        the tier it reads off the end is the cell's own unless a refused bump's overrun reaches it. */
    method Given(prisoner: nat, place: nat, zeroing: bool, ghost low: bool, ghost k: nat)
      returns (back: bool, boundary: bool, lowRead: bool)
      requires Displaced() && Counted() && place <= table.Length
      requires prisoner != 0 && place != 0 ==> Names(prisoner, low, k)
      modifies base, table, `inUse, `persistentInUse, `persistent, `temporary
      ensures Displaced()
      ensures back <==> old(Counts(prisoner, place, low, k))
      ensures back ==> GaveBack(old(base[..]), old(persistent), old(temporary), low, k, prisoner, zeroing)
      ensures !back ==> (
        && base[..] == old(base[..]) && table[..] == old(table[..]) && inUse == old(inUse)
        && persistentInUse == old(persistentInUse) && persistent == old(persistent) && temporary == old(temporary))
      ensures Counted() <==> (back && !low ==> prisoner - 1 >= EndOf(cfg, old(bounds)))
      ensures back ==> (lowRead <==> prisoner - 1 < EndOf(cfg, old(bounds)))
      ensures back ==> (boundary <==> old(AtBoundary(prisoner)))
      ensures back && overEnd == 0 && overTop == 0 ==>
        lowRead == low && (boundary <==> if low then k == |persistent| - 1 else k == 0)
    {
      hide Lays, Span, Word, EndOf, TopOf, Tilings, Ledger, PlaceOf, IsComplete, Completed, GivenWords, Footed, Held,
          Owned, Wipes;
      back, boundary, lowRead := false, false, false;
      if prisoner == 0 || place == 0 { return; }
      ghost var m, c := base[..], Tier(persistent, temporary, low)[k];
      TilingsCell(m, persistent, temporary, table.Length, low, k);
      TilingsGiven(m, persistent, temporary, table.Length, low, k, zeroing);
      WordReads(cfg, Span(persistent) + overEnd, SubWrap(cfg, Start(), overTop));
      var off: nat := prisoner - 1;
      var size := SizeOf(base[off]);
      var named := base[off + 1 + size];
      back := !IsComplete(named) && PlaceOf(named) == place;
      var end, top := EndOf(cfg, bounds), TopOf(cfg, bounds);
      lowRead := off < end;
      boundary := if lowRead then off + HDR + size == end else off == top;
      if back {
        ghost var tierAfter := persistentInUse - if lowRead then c.size else 0;
        LedgerFreed(table[..], inUse, persistentInUse, persistent, temporary, uncounted, beyond, low, k,
                    Completed(c.owner), tierAfter);
        GivenBack(off, size, zeroing, lowRead);
        GivenWipes(m, off, size, zeroing);
        persistent, temporary := if low then Freed(persistent, k) else persistent,
                                 if low then temporary else Freed(temporary, k);
      }
    }

    /** The stores of a give that goes ahead. */
    method GivenBack(off: nat, size: nat, zeroing: bool, low: bool)
      requires base != table && off + size + HDR <= base.Length && size >= 1
      requires !IsComplete(base[off + 1 + size]) && 1 <= PlaceOf(base[off + 1 + size]) <= table.Length
      modifies base, table, `inUse, `persistentInUse
      ensures base[..] == GivenWords(old(base[..]), off, size, zeroing)
      ensures inUse == old(inUse) - size
      ensures persistentInUse == old(persistentInUse) - if low then size else 0
      ensures var place := PlaceOf(old(base[off + 1 + size]));
        table[..] == old(table[..])[place - 1 := old(table[place - 1]) - size]
    {
      hide PlaceOf, IsComplete, Completed;
      ZeroBuf(off + 1, if zeroing then size else 0);
      FootClaimed(off, size, low, true);
      base[off] := Header(size, false);
    }

    /** A give and, where the cell read as standing at a boundary and no other writer holds the closed bit, the trim of
        the tier it read as its own. */
    method Released(prisoner: nat, place: nat, zeroing: bool, held: bool, ghost low: bool, ghost k: nat)
      returns (back: bool, ghost turns: seq<Turn>)
      requires Displaced() && Counted() && place <= table.Length
      requires prisoner != 0 && place != 0 ==> Names(prisoner, low, k)
      modifies base, table, `bounds, `overEnd, `overTop, `inUse, `persistentInUse, `persistent, `temporary
      ensures Displaced() && (old(Valid()) ==> Valid() && Counted())
      ensures Counted() <==> (back && !low ==> prisoner - 1 >= EndOf(cfg, old(bounds)))
      ensures back <==> old(Counts(prisoner, place, low, k))
      ensures !back ==> (
        && turns == [] && Unwritten(old(bounds), old(overEnd), old(overTop))
        && Unchanged(old(base[..]), old(table[..]), old(inUse), old(persistentInUse), old(persistent), old(temporary)))
      ensures back ==> (
        && old(k < |Tier(persistent, temporary, low)|)
        && var up := old(if low then Freed(persistent, k) else persistent);
        && var down := old(if low then temporary else Freed(temporary, k));
        && var lowRead := prisoner - 1 < EndOf(cfg, old(bounds));
        && turns == (if low then [] else [Give(k)])
                  + (if !held && old(AtBoundary(prisoner)) && !lowRead then [Trim] else [])
        && if !held && old(AtBoundary(prisoner)) then
             && Valid()
             && persistent == (if lowRead then Merged(up) else up)
             && temporary == (if lowRead then down else DropFree(down))
           else
             && Unwritten(old(bounds), old(overEnd), old(overTop))
             && persistent == up && temporary == down)
      ensures back && old(Valid()) ==>
        (old(AtBoundary(prisoner)) <==> if low then k == |old(persistent)| - 1 else k == 0)
      ensures FitAll(old(temporary), base.Length, turns)
      ensures temporary == AfterAll(old(temporary), base.Length, turns)
    {
      hide Lays, Span, Word, Tilings, Ledger, PlaceOf, IsComplete, Completed, GivenWords, Merged, DropFree, EndOf,
          TopOf;
      ghost var size := base.Length;
      var boundary, lowRead;
      AtRest();
      back, boundary, lowRead := Given(prisoner, place, zeroing, low, k);
      turns := [];
      if back {
        turns := (if low then [] else [Give(k)]) + (if boundary && !held && !lowRead then [Trim] else []);
        TurnsOfGive(old(temporary), size, k, !low, boundary && !held && !lowRead);
        if boundary && !held {
          TrimmedHeld(lowRead);
        }
      }
      AtRest();
    }

    /** Neither the boundaries nor what is overrun changed. */
    ghost predicate Unwritten(word: nat, endWas: nat, topWas: nat)
      reads this
    {
      bounds == word && overEnd == endWas && overTop == topWas
    }

    /** Nothing of the cellblock changed, the boundaries apart. */
    ghost predicate Unchanged(m: seq<int>, counts: seq<int>, use: int, tierUse: int, up: seq<Cell>, down: seq<Cell>)
      reads this, base, table
    {
      && base[..] == m && table[..] == counts && inUse == use && persistentInUse == tierUse
      && persistent == up && temporary == down
    }

    /** Payload words carried to a lower offset, from the lowest up. */
    method MovedDown(dst: nat, src: nat, n: nat)
      requires dst <= src && src + n <= base.Length
      modifies base
      ensures base[..] == Carried(old(base[..]), dst, src, n)
    {
      var i: nat := 0;
      while i < n
        invariant i <= n
        invariant forall j :: dst <= j < dst + i ==> base[j] == old(base[j - dst + src])
        invariant forall j :: 0 <= j < base.Length && !(dst <= j < dst + i) ==> base[j] == old(base[j])
      {
        base[dst + i] := base[src + i];
        i := i + 1;
      }
      CarriedIs(old(base[..]), base[..], dst, src, n);
    }

    /** The stores of a growth that goes ahead. */
    method GrownStored(off: nat, size: nat, extra: nat, low: bool, owner: int, zeroing: bool)
      requires off + size + HDR + (if low then extra else 0) <= base.Length && (!low ==> extra <= off)
      requires !low ==> base[off + 1 + size] == owner
      requires extra >= 1
      modifies base
      ensures base[..] == GrownWords(old(base[..]), off, size, extra, owner, low, zeroing)
    {
      hide GrownWords, Zeroes, Carried;
      GrownSteps(base[..], off, size, extra, owner, low, zeroing);
      var at := if low then off else off - extra;
      if low {
        base[off + 1 + size + extra] := owner;
      }
      base[at] := Header(size + extra, true);
      MovedDown(at + 1, off + 1, if low then 0 else size);
      ZeroBuf(at + 1 + size, if zeroing then extra else 0);
    }

    /** Payload grains counted to an owner, to the cellblock and to the persistent tier. */
    method CountedTo(place: nat, n: nat, low: bool)
      requires 1 <= place <= table.Length
      modifies table, `inUse, `persistentInUse
      ensures inUse == old(inUse) + n
      ensures persistentInUse == old(persistentInUse) + if low then n else 0
      ensures table[..] == old(table[..])[place - 1 := old(table[place - 1]) + n]
    {
      table[place - 1] := table[place - 1] + n;
      inUse := inUse + n;
      if low {
        persistentInUse := persistentInUse + n;
      }
    }

    /** One cell grown in its tier, its payload kept at its lower end, and no other cell touched. */
    ghost predicate GrewTo(m: seq<int>, up: seq<Cell>, down: seq<Cell>, low: bool, k: nat, extra: nat, owner: int,
                           zeroing: bool, cell: nat)
      reads this, base
    {
      && k < |Tier(up, down, low)| && Tier(up, down, low)[k].Busy? && Span(down) <= |m| == base.Length
      && var c, off := Tier(up, down, low)[k], OffOf(|m|, up, down, low, k);
      && 0 <= off && off + c.size + HDR + (if low then extra else 0) <= |m| && (!low ==> extra <= off)
      && var grown := GrownCell(m, c, off, extra, owner, low, zeroing);
      && persistent == (if low then With(up, k, grown) else up)
      && temporary == (if low then down else With(down, k, grown))
      && cell == (if low then off else off - extra) + 1
    }

    /** The stores and the count of a growth that goes ahead. */
    method GrownTo(off: nat, size: nat, extra: nat, up: bool, place: nat, stamp: nat, zeroing: bool, ghost k: nat)
      requires Tiled() && Counted() && 1 <= place <= table.Length && extra >= 1
      requires k < |Tier(persistent, temporary, up)| && if up then k == |persistent| - 1 else k == 0
      requires off == OffOf(base.Length, persistent, temporary, up, k)
      requires var c := Tier(persistent, temporary, up)[k]; c.Busy? && c.size == size && PlaceOf(c.owner) == place
      requires Span(persistent) + Span(temporary) + extra <= base.Length
      modifies base, table, `inUse, `persistentInUse, `persistent, `temporary
      ensures Tiled() && Counted()
      ensures var c := old(Tier(persistent, temporary, up)[k]);
        GrewTo(old(base[..]), old(persistent), old(temporary), up, k, extra,
               if up then OwnerWord(place, stamp) else c.owner, zeroing, if up then off + 1 else off - extra + 1)
      ensures Span(persistent) == old(Span(persistent)) + if up then extra else 0
      ensures Span(temporary) == old(Span(temporary)) + if up then 0 else extra
    {
      hide Lays, Span, Tilings, Ledger, PlaceOf, IsComplete, OwnerWord, GrownWords;
      ghost var m, c := base[..], Tier(persistent, temporary, up)[k];
      TilingsCell(m, persistent, temporary, table.Length, up, k);
      var owner := if up then OwnerWord(place, stamp) else base[off + 1 + size];
      OwnerWordReads(place, stamp);
      TilingsGrown(m, persistent, temporary, table.Length, up, k, extra, owner, zeroing);
      ghost var grown := GrownCell(m, c, off, extra, owner, up, zeroing);
      LedgerGrown(table[..], inUse, persistentInUse, persistent, temporary, uncounted, beyond, up, k, grown);
      GrownStored(off, size, extra, up, owner, zeroing);
      CountedTo(place, extra, up);
      persistent, temporary := if up then With(persistent, k, grown) else persistent,
                               if up then temporary else With(temporary, k, grown);
    }

    /** A growth in place: the newest cell of its tier, where the gap holds the grains it adds. */
    method Grown(prisoner: nat, bytes: nat, place: nat, stamp: nat, zeroing: bool, ghost low: bool, ghost k: nat)
      returns (cell: nat)
      requires Displaced() && Counted() && place <= table.Length
      requires prisoner != 0 && place != 0 ==> Names(prisoner, low, k)
      modifies base, table, `bounds, `overEnd, `overTop, `inUse, `persistentInUse, `persistent, `temporary
      ensures Valid() && Counted()
      ensures var goes := old(Counts(prisoner, place, low, k));
              var c := old(if k < |Tier(persistent, temporary, low)| then Tier(persistent, temporary, low)[k]
                           else Free(0, 0));
              var want := WantOf(bytes, grain);
              var newest := if low then k == |old(persistent)| - 1 else k == 0;
              var moving := goes && want > c.size && newest
                && old(Span(persistent) + Span(temporary)) + want - c.size <= base.Length;
        && (moving ==> GrewTo(old(base[..]), old(persistent), old(temporary), low, k, want - c.size,
                              if low then OwnerWord(place, stamp) else c.owner, zeroing, cell))
        && (!moving ==> (
              && cell == (if goes && want <= c.size then prisoner else 0)
              && Unchanged(old(base[..]), old(table[..]), old(inUse), old(persistentInUse), old(persistent),
                           old(temporary))))
    {
      hide Lays, Span, Word, EndOf, TopOf, Tilings, Ledger, PlaceOf, IsComplete, OwnerWord, GrewTo, WantOf, Footed,
           Displaces;
      Settle();
      cell := 0;
      if prisoner == 0 || place == 0 { return; }
      ghost var m, c := base[..], Tier(persistent, temporary, low)[k];
      TilingsReads(m, persistent, temporary, table.Length);
      TilingsCell(m, persistent, temporary, table.Length, low, k);
      WordReads(cfg, Span(persistent), Start());
      var off: nat := prisoner - 1;
      var size: nat := SizeOf(base[off]);
      var named := base[off + 1 + size];
      var goes := !IsComplete(named) && PlaceOf(named) == place;
      var want := WantOf(bytes, grain);
      var grows := goes && want > size;
      var extra := if grows then want - size else 0;
      var end, top := EndOf(cfg, bounds), TopOf(cfg, bounds);
      var up := off < end;
      var newest := if up then end == off + HDR + size else top == off;
      var room := top >= end && top - end >= extra;
      var moving := grows && newest && room;
      var moved := if moving && !up then extra else 0;
      bounds := Word(cfg, if moving && up then end + extra else end, top - moved);
      cell := if moving || (goes && !grows) then off - moved + 1 else 0;
      if moving {
        GrownTo(off, size, extra, up, place, stamp, zeroing, k);
      }
    }

    /** One cell of a rewind: counted off through its owner word where that still names an owner, and dropped. */
    method Dropped(off: nat, ghost rest: seq<Cell>) returns (next: nat)
      requires base != table && rest != [] && off == base.Length - Span(rest)
      requires Tilings(base[..], persistent, rest, table.Length)
      requires Ledger(table[..], inUse, persistentInUse, persistent, rest, uncounted, beyond)
      modifies base, table, `inUse, `persistentInUse
      ensures Tilings(base[..], persistent, rest[1..], table.Length)
      ensures Ledger(table[..], inUse, persistentInUse, persistent, rest[1..], uncounted, beyond)
      ensures next == base.Length - Span(rest[1..]) && off < next
      ensures forall j :: 0 <= j < base.Length && j != next - 1 ==> base[j] == old(base[j])
      ensures persistentInUse == old(persistentInUse)
    {
      hide Lays, Span, Tilings, Ledger, PlaceOf, IsComplete, Completed;
      ghost var m := base[..];
      TilingsCell(m, persistent, rest, table.Length, false, 0);
      SpanNone(rest, 0);
      LedgerDropped(table[..], inUse, persistentInUse, persistent, rest, uncounted, beyond);
      var size: nat := SizeOf(base[off]);
      FootClaimed(off, size, false, true);
      TilingsDropped(m, base[..], persistent, rest, table.Length);
      next := off + HDR + size;
    }

    /** The walk of a rewind: every cell that starts below the mark counted off, whether it ends below the mark
        or not. */
    method CountedOff(top: nat, to: nat)
      requires Tiled() && Counted() && top == Start() && top <= to <= base.Length
      modifies base, table, `inUse, `persistentInUse, `temporary
      ensures Tiled() && Counted() && to <= Start()
      ensures temporary == old(temporary)[Under(old(temporary), top, to)..]
      ensures forall p :: 0 <= p < base.Length && !(top <= p < to) && p != Start() - 1 ==> base[p] == old(base[p])
      ensures top == to ==>
        Unchanged(old(base[..]), old(table[..]), old(inUse), old(persistentInUse), persistent, old(temporary))
    {
      hide Lays, Span, Tilings, Ledger, Under;
      ghost var m, cells := base[..], temporary;
      assert cells[0..] == cells;
      var off: nat := top;
      ghost var i: nat := 0;
      while off < to
        invariant i <= |cells| && temporary == cells[i..] && off == base.Length - Span(temporary)
        invariant i + Under(temporary, off, to) == Under(cells, top, to)
        invariant Tiled() && Counted() && top <= off && (i > 0 ==> top < off && top < to)
        invariant forall p :: 0 <= p < base.Length && !(top <= p < to) && p != off - 1 ==> base[p] == m[p]
        invariant i == 0 ==>
            off == top && Unchanged(m, old(table[..]), old(inUse), old(persistentInUse), persistent, cells)
        decreases |cells| - i
      {
        SpanNone(cells, i);
        UnderStep(temporary, base.Length, to);
        off := Dropped(off, cells[i..]);
        assert cells[i..][1..] == cells[i + 1..];
        i := i + 1;
        temporary := cells[i..];
      }
      UnderNone(temporary, off, to);
    }

    /** The cells below a mark counted off and their grains zeroed where asked. */
    method Dismissed(top: nat, to: nat, zeroing: bool)
      requires Tiled() && Counted() && top == Start() && top <= to <= base.Length
      modifies base, table, `inUse, `persistentInUse, `temporary
      ensures Tiled() && Counted() && to <= Start()
      ensures temporary == old(temporary)[Under(old(temporary), top, to)..]
      ensures zeroing ==> forall p :: top <= p < to ==> base[p] == 0
      ensures forall p :: 0 <= p < base.Length && !(top <= p < to) && p != Start() - 1 ==> base[p] == old(base[p])
      ensures top == to ==>
        Unchanged(old(base[..]), old(table[..]), old(inUse), old(persistentInUse), persistent, old(temporary))
    {
      hide Lays, Span, Tilings, Ledger, Zeroes, Under;
      TilingsReads(base[..], persistent, temporary, table.Length);
      CountedOff(top, to);
      ghost var walked := base[..];
      TilingsReads(walked, persistent, temporary, table.Length);
      ZeroBuf(top, if zeroing then to - top else 0);
      ZeroedBetween(walked, top, if zeroing then to - top else 0);
      TilingsGap(walked, base[..], persistent, temporary, table.Length);
    }

    /** With the top stored at a mark, the cellblock rests if and only if its temporary tier starts there. */
    lemma {:induction false} RestsAt(cells: seq<Cell>, mark: nat)
      requires Tiled() && overEnd == overTop == 0 && bounds == Word(cfg, Span(persistent), mark)
      requires TopFor(cells, base.Length) <= mark <= base.Length && temporary == After(cells, base.Length, Rewind(mark))
      ensures Valid() <==> Edge(cells, base.Length, mark)
    {
      hide Lays, Span, Word, Tilings, Under, Edge;
      TilingsReads(base[..], persistent, temporary, table.Length);
      EdgeIs(cells, base.Length, mark);
      WordsApart(cfg, Span(persistent), mark, Start());
    }

    /** The rewind of a cellblock settled. */
    method RewoundHeld(mark: nat, zeroing: bool)
      requires Valid() && Counted()
      modifies base, table, `bounds, `inUse, `persistentInUse, `temporary
      ensures Tiled() && Counted() && overEnd == 0 && overTop == 0
      ensures old(mark <= Start() || mark > base.Length) ==>
        Valid() && Unchanged(old(base[..]), old(table[..]), old(inUse), old(persistentInUse), persistent,
            old(temporary))
      ensures old(Start() < mark <= base.Length) ==> (
        && temporary == After(old(temporary), base.Length, Rewind(mark))
        && mark <= Start() && bounds == Word(cfg, Span(persistent), mark)
        && (Valid() <==> Edge(old(temporary), base.Length, mark))
        && (zeroing ==> forall i :: old(Start()) <= i < mark ==> base[i] == 0)
        && forall i :: 0 <= i < base.Length && !(old(Start()) <= i < mark) && i != Start() - 1 ==>
            base[i] == old(base[i]))
    {
      hide Lays, Span, Word, EndOf, TopOf, Tilings, Ledger, Zeroes, Under, Edge, Displaces;
      TilingsReads(base[..], persistent, temporary, table.Length);
      WordReads(cfg, Span(persistent), Start());
      ghost var cells := temporary;
      var end, top := EndOf(cfg, bounds), TopOf(cfg, bounds);
      var to := if mark <= base.Length && mark > top then mark else top;
      Dismissed(top, to, zeroing);
      TilingsReads(base[..], persistent, temporary, table.Length);
      bounds := Word(cfg, end, to);
      if top < mark <= base.Length {
        RestsAt(cells, mark);
      }
    }

    /** A rewind of the temporary tier to a mark. One at or below the top, or past the cellblock, is none it handed out
        and changes nothing. Any other drops every cell that starts below it, each counted off once, and puts the top
        at it, which is where the tier then starts if and only if the mark lay on the edge of a cell. */
    method Rewound(mark: nat, zeroing: bool)
      requires Displaced() && Counted()
      modifies base, table, `bounds, `overEnd, `overTop, `inUse, `persistentInUse, `temporary
      ensures Tiled() && Counted() && overEnd == 0 && overTop == 0
      ensures old(mark <= Start() || mark > base.Length) ==>
        Valid() && Unchanged(old(base[..]), old(table[..]), old(inUse), old(persistentInUse), persistent,
            old(temporary))
      ensures old(Start() < mark <= base.Length) ==> (
        && temporary == After(old(temporary), base.Length, Rewind(mark))
        && mark <= Start() && bounds == Word(cfg, Span(persistent), mark)
        && (Valid() <==> Edge(old(temporary), base.Length, mark))
        && (zeroing ==> forall i :: old(Start()) <= i < mark ==> base[i] == 0)
        && forall i :: 0 <= i < base.Length && !(old(Start()) <= i < mark) && i != Start() - 1 ==>
            base[i] == old(base[i]))
    {
      hide Lays, Span, Word, Tilings, Ledger, Edge, Displaces;
      Settle();
      RewoundHeld(mark, zeroing);
    }

    /** One cell of a tier as it was but for its payload, which is what memory holds there. */
    ghost predicate Refilled(up: seq<Cell>, down: seq<Cell>, low: bool, k: nat)
      reads this, base
    {
      && k < |Tier(up, down, low)| && Span(down) <= base.Length
      && var c, off := Tier(up, down, low)[k], OffOf(base.Length, up, down, low, k);
      && 0 <= off && off + Extent(c) <= base.Length
      && persistent == (if low then With(up, k, HeldCell(base[..], off, c)) else up)
      && temporary == (if low then down else With(down, k, HeldCell(base[..], off, c)))
    }

    /** One word of a payload stored, as the cell's holder may at any time. */
    method Stored(at: nat, word: int, ghost low: bool, ghost k: nat)
      requires Displaced() && Counted() && Span(temporary) <= base.Length && Holding(at, low, k)
      modifies base, `persistent, `temporary
      ensures Displaced() && Counted()
      ensures at < base.Length && base[..] == old(base[..])[at := word]
      ensures Refilled(old(persistent), old(temporary), low, k)
    {
      hide Lays, Span, Word, Tilings, Ledger, Displaces, PlaceOf, IsComplete, HeldCell, Valid;
      ghost var m := base[..];
      TilingsReads(m, persistent, temporary, table.Length);
      TilingsStored(m, persistent, temporary, table.Length, low, k, at, word);
      ghost var c, off := Tier(persistent, temporary, low)[k], OffOf(base.Length, persistent, temporary, low, k);
      base[at] := word;
      assert base[..] == m[at := word];
      ghost var held := HeldCell(base[..], off, c);
      HeldIs(base[..], off, c);
      LedgerStored(table[..], inUse, persistentInUse, persistent, temporary, uncounted, beyond, low, k, held);
      persistent, temporary := if low then With(persistent, k, held) else persistent,
                               if low then temporary else With(temporary, k, held);
    }

    /** An offset in the payload of a busy cell of a tier. */
    ghost predicate Holding(at: nat, low: bool, k: nat)
      reads this
    {
      && k < |Tier(persistent, temporary, low)| && Tier(persistent, temporary, low)[k].Busy?
      && var off := OffOf(base.Length, persistent, temporary, low, k);
      off < at <= off + Tier(persistent, temporary, low)[k].size
    }

    /** A growth that went ahead, told of the temporary tier. */
    lemma {:induction false} GrewTurns(m: seq<int>, up: seq<Cell>, down: seq<Cell>, low: bool, k: nat, extra: nat,
                                       owner: int, zeroing: bool, cell: nat)
      requires GrewTo(m, up, down, low, k, extra, owner, zeroing, cell) && extra >= 1 && (!low ==> k == 0)
      ensures low ==> temporary == down
      ensures !low ==> (
        && temporary != [] && FitAll(down, base.Length, [Grow(temporary[0])])
        && temporary == AfterAll(down, base.Length, [Grow(temporary[0])]))
    {
      hide GrownWords, Span;
      if !low {
        var grown := GrownCell(m, down[0], OffOf(|m|, up, down, low, 0), extra, owner, low, zeroing);
        assert With(down, 0, grown)[0] == grown;
        TurnsOfGrowth(down, base.Length, grown);
      }
    }

    /** The busy cells of the cellblock with their offsets. */
    ghost function Living(): seq<(nat, Cell)>
      reads this
      requires Span(temporary) <= base.Length
    {
      Alive(persistent, temporary, base.Length)
    }

    /** The cell at a payload, as its header, its owner word and memory's words give it. */
    ghost function CellAt(payload: nat, owner: int): Cell
      reads base
      requires 1 <= payload <= base.Length
    {
      var size := SizeOf(base[payload - 1]);
      if size >= 0 && payload + size <= base.Length then Busy(size, owner, base[payload..payload + size])
      else Free(0, 0)
    }

    /** The cell appended is alive, and every cell alive before is alive and unchanged. */
    lemma {:induction false} AppendedLives(up: seq<Cell>, down: seq<Cell>, want: nat, owner: int, payload: nat,
                                           goesDown: bool)
      requires Tiled() && want >= 1 && Appended(up, down, want, owner, payload, goesDown)
      requires Span(up) + Span(down) + HDR + want <= base.Length
      ensures payload <= base.Length
      ensures Gains(Alive(up, down, base.Length), Living(), (payload - 1, CellAt(payload, owner)))
    {
      hide Lays, Span, Tilings, Gains, Alive;
      var c := Busy(want, owner, base[payload..payload + want]);
      AliveAppended(up, down, base.Length, c);
      TilingsReads(base[..], persistent, temporary, table.Length);
      LaysConcat(base[..], 0, up, [c]);
      LaysHead(base[..], payload - 1, c, []);
      LaysHead(base[..], payload - 1, c, down);
      assert [c] + [] == [c];
      HeaderReads(want, true);
    }

    /** A take the gap refused made its own cell alive where it was placed, and disturbed no other. */
    lemma {:induction false} PlacedLives(up: seq<Cell>, down: seq<Cell>, want: nat, owner: int, payload: nat,
                                         goesDown: bool, inRun: bool, k: nat)
      requires Tiled() && want >= 1 && Placed(up, down, want, owner, payload, goesDown, inRun, k)
      requires Span(up) + Span(down) <= base.Length
      ensures payload <= base.Length
      ensures payload != 0 ==> Gains(Alive(up, down, base.Length), Living(), (payload - 1, CellAt(payload, owner)))
      ensures payload == 0 ==> Living() == Alive(up, down, base.Length)
      ensures payload == 0 <==> (
        (!goesDown ==> NoneFits(up, want, base.Length)) && Span(up) + Span(down) + HDR + want > base.Length)
    {
      hide Lays, Span, Tilings, Gains, Alive, NoneFits, FirstFit;
      TilingsReads(base[..], persistent, temporary, table.Length);
      if inRun {
        FoundFits(up, want, base.Length, k);
        FoundIsSome(up, want, base.Length, k);
        var size := up[k].size;
        var laid := Taken(size, want, owner, base[payload..payload + Kept(size, want)]);
        AliveRunTaken(up, down, base.Length, k, want, owner, base[payload..payload + Kept(size, want)]);
        LaysConcat(base[..], 0, up[..k] + laid, up[k + 1..]);
        LaysConcat(base[..], 0, up[..k], laid);
        LaysHead(base[..], payload - 1, laid[0], laid[1..]);
        assert [laid[0]] + laid[1..] == laid;
        HeaderReads(Kept(size, want), true);
      } else if payload != 0 {
        AppendedFits(up, down, want, owner, payload, goesDown);
        AppendedLives(up, down, want, owner, payload, goesDown);
      }
    }

    lemma {:induction false} AppendedFits(up: seq<Cell>, down: seq<Cell>, want: nat, owner: int, payload: nat,
                                          goesDown: bool)
      requires Tiled() && Appended(up, down, want, owner, payload, goesDown)
      ensures Span(up) + Span(down) + HDR + want <= base.Length
    {
      hide Lays, Span;
      var c := Busy(want, owner, base[payload..payload + want]);
      SpanConcat(up, [c]);
      SpanConcat([c], down);
      SpanOne(c);
    }

    /** A take as both tiers make it: an owner the table does not list is refused, a take the gap meets is bumped, and
        any other goes to the writer's path, whatever was refused before it. */
    method Take(bytes: nat, place: nat, stamp: nat, down: bool)
      returns (payload: nat, ghost inRun: bool, ghost k: nat, ghost turns: seq<Turn>)
      requires Displaced() && Headroom() && Counted()
      modifies base, table, `bounds, `overEnd, `overTop, `inUse, `persistentInUse, `persistent, `temporary
      ensures Displaced() && Counted() && (1 <= place <= table.Length ==> Valid())
      ensures var want, listed := WantOf(bytes, grain), 1 <= place <= table.Length;
              var up', down' := if down then old(persistent) else Merged(old(persistent)),
                                if down then DropFree(old(temporary)) else old(temporary);
              var bumps := want <= cfg.wantMost && old(overEnd == overTop == 0
                && Span(persistent) + Span(temporary) + HDR + want <= base.Length);
        && (!listed ==> (
              && payload == 0 && Unwritten(old(bounds), old(overEnd), old(overTop))
              && Unchanged(old(base[..]), old(table[..]), old(inUse), old(persistentInUse), old(persistent),
                           old(temporary))))
        && (listed && bumps ==> (
              && payload != 0 && Appended(old(persistent), old(temporary), want, OwnerWord(place, stamp), payload, down)
              && base[..]
                   == old(base[..])[payload + want := OwnerWord(place, stamp)][payload - 1 := Header(want, true)]))
        && (listed && !bumps ==>
              want >= 1 && Placed(up', down', want, OwnerWord(place, stamp), payload, down, inRun, k))
        && (listed && down && payload != 0 ==> temporary != [])
        && turns == TakeTurns(temporary, listed && down && !bumps, listed && down && payload != 0)
      ensures FitAll(old(temporary), base.Length, turns)
      ensures temporary == AfterAll(old(temporary), base.Length, turns)
      ensures payload == 0 ==> Living() == old(Living())
      ensures payload != 0 ==> (
        && payload <= base.Length
        && Gains(old(Living()), Living(), (payload - 1, CellAt(payload, OwnerWord(place, stamp)))))
    {
      hide Lays, Span, Merged, DropFree, Word, OwnerWord, Tilings, Ledger, Appended, Placed, WantOf, Gains, Alive,
           CellAt, Displaces;
      ghost var up, low := persistent, temporary;
      TilingsReads(base[..], up, low, table.Length);
      LaysPositive(base[..], 0, up);
      AliveReturned(up, low, base.Length);
      ReturnedSpans(up, low);
      payload, inRun, k := 0, false, 0;
      var want := WantOf(bytes, grain);
      WantHolds(bytes, grain);
      ghost var bumped := false;
      if 1 <= place <= table.Length {
        payload := Bumped(want, place, stamp, down, true);
        bumped := payload != 0;
        if payload == 0 {
          payload, inRun, k := Spilled(want, place, stamp, down);
          PlacedLives(if down then up else Merged(up), if down then DropFree(low) else low, want,
                      OwnerWord(place, stamp), payload, down, inRun, k);
        } else {
          AppendedLives(up, low, want, OwnerWord(place, stamp), payload, down);
        }
      }
      ghost var trims := 1 <= place <= table.Length && down && !bumped;
      TookTurns(up, if bumped then low else if down then DropFree(low) else low, want, OwnerWord(place, stamp), payload,
                down, bumped, inRun, k);
      turns := TakeTurns(temporary, trims, 1 <= place <= table.Length && down && payload != 0);
      TurnsOfTake(low, temporary, base.Length, trims, 1 <= place <= table.Length && down && payload != 0);
      AtRest();
    }

    /** What a take left of the temporary tier, wherever it landed. */
    lemma {:induction false} TookTurns(up: seq<Cell>, low: seq<Cell>, want: nat, owner: int, payload: nat, down: bool,
                                       bumped: bool, inRun: bool, k: nat)
      ensures bumped && Appended(up, low, want, owner, payload, down) ==>
        if down then temporary != [] && temporary[1..] == low else temporary == low
      ensures !bumped && want >= 1 ==> (
        Placed(if down then up else Merged(up), low, want, owner, payload, down, inRun, k) ==>
        if down && payload != 0 then temporary != [] && temporary[1..] == low else temporary == low)
    {
    }

    /** The words of a move: the run split, the payload copied, the copy's owner word carried over and its header
        laid, and the cell left behind set free. */
    method MoveStored(off: nat, size: nat, at: nat, runSize: nat, wipes: bool) returns (ghost laid: seq<int>)
      requires 1 <= size <= runSize && at + runSize + HDR <= off && off + size + HDR <= base.Length
      modifies base
      ensures RunLaid(old(base[..]), laid, at, runSize, size, old(base[off + 1 + size]))
      ensures laid[at + 1..at + 1 + size] == old(base[off + 1..off + 1 + size])
      ensures LeftBehind(laid, base[..], off, size)
      ensures wipes ==> forall p :: off < p <= off + size ==> base[p] == 0
    {
      hide Zeroes, Carried, RunLaid, LeftBehind, Filled, Header;
      ghost var m := base[..];
      var kept := Kept(runSize, size);
      if kept != runSize {
        base[at + HDR + size + 1 + (runSize - size - HDR)] := 0;
        base[at + HDR + size] := Header(runSize - size - HDR, false);
      }
      assert base[..] == RestLaid(m, at, runSize, size);
      MovedDown(at + 1, off + 1, size);
      FilledReads(m, off, size, at, runSize);
      FilledIs(m, off, size, at, runSize);
      base[at + 1 + kept] := base[off + 1 + size];
      base[at] := Header(kept, true);
      laid := base[..];
      MoveLaid(m, laid, off, size, at, runSize);
      ZeroBuf(off + 1, if wipes then size else 0);
      ZeroedBetween(laid, off + 1, if wipes then size else 0);
      base[off + 1 + size] := 0;
      base[off] := Header(size, false);
      LeavesBehind(laid, base[..], off, size, if wipes then size else 0);
    }

    /** One cell moved down into a free run below it, where it carries its payload and its owner word; what the run
        strands on it is counted by none. */
    method Relocated(off: nat, size: nat, at: nat, runSize: nat, wipes: bool, ghost k: nat, ghost j: nat)
      requires Tiled() && Counted() && CanMove(persistent, k, j)
      requires off == Span(persistent[..j]) && size == persistent[j].size
      requires at == Span(persistent[..k]) && runSize == persistent[k].size
      modifies base, `persistent, `uncounted, `beyond
      ensures Tiled() && Counted()
      ensures var kept := Kept(runSize, size);
        && at + 1 + kept <= base.Length && size <= kept <= size + HDR
        && persistent == MovedTier(old(persistent), k, j, base[at + 1..at + 1 + kept])
        && base[at + 1..at + 1 + size] == old(persistent)[j].payload
      ensures Span(persistent) == if off + size + HDR == old(Span(persistent)) then off else old(Span(persistent))
      ensures at < off
      ensures uncounted == old(uncounted) + Kept(runSize, size) - size
      ensures wipes ==> off + size < base.Length && forall p :: off < p <= off + size ==> base[p] == 0
    {
      hide Lays, Span, Tilings, Ledger, RunLaid, LeftBehind, PlaceOf, MovedTier;
      ghost var m, up, kept := base[..], persistent, Kept(runSize, size);
      MovePlaces(m, up, temporary, table.Length, k, j);
      ghost var laid := MoveStored(off, size, at, runSize, wipes);
      MoveKeeps(m, laid, base[..], up, temporary, k, j, table[..], inUse, persistentInUse, uncounted, beyond);
      ghost var place := PlaceOf(up[j].owner);
      persistent := MovedTier(up, k, j, base[at + 1..at + 1 + kept]);
      uncounted := uncounted + kept - size;
      beyond := beyond[place - 1 := beyond[place - 1] - (kept - size)];
    }
  }
}
