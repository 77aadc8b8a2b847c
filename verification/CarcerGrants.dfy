/** The cells granted out of a cellblock's gap while passes are under way, and how far memory holds their words. A cell
    is granted by the bump that moves the boundary over it; its owner word and then its header are stored after. */
module CarcerGrants {
  import opened CarcerCells
  import opened CarcerTiers

  datatype Option<T> = None | Some(value: T)

  /** Which of a cell's two words are stored. */
  datatype Words = Bare | Based | Whole

  /** A cell granted: its grains, the context that took it, the words stored of it, and what they say. */
  datatype Grant = Grant(extent: nat, taker: nat, words: Words, busy: bool, owner: int)

  function Extents(grants: seq<Grant>): nat {
    if grants == [] then 0 else grants[0].extent + Extents(grants[1..])
  }

  predicate AllWhole(grants: seq<Grant>) {
    forall g :: g in grants ==> g.words == Whole
  }

  /** Memory holds the words stored of each cell, back to back from an offset. */
  predicate Stands(m: seq<int>, at: nat, grants: seq<Grant>)
    decreases |grants|
  {
    grants == [] || (
      && var g := grants[0];
      && g.extent >= HDR + 1 && at + g.extent <= |m|
      && (g.words != Bare ==> m[at + g.extent - 1] == g.owner)
      && (g.words == Whole ==> m[at] == Header(g.extent - HDR, g.busy))
      && Stands(m, at + g.extent, grants[1..]))
  }

  /** Each owner word stored is one a cell of its state may carry. */
  predicate Listed(grants: seq<Grant>, owners: nat) {
    forall g :: g in grants && g.words != Bare ==>
      if g.busy then !IsComplete(g.owner) && 1 <= PlaceOf(g.owner) <= owners else IsDone(g.owner)
  }

  /** The grant at an offset, in grants back to back from another. */
  function GrantAt(grants: seq<Grant>, at: nat, off: int): Option<Grant>
    decreases |grants|
  {
    if grants == [] then None
    else if off == at then Some(grants[0])
    else GrantAt(grants[1..], at + grants[0].extent, off)
  }

  function Replaced(grants: seq<Grant>, at: nat, off: int, g: Grant): (after: seq<Grant>)
    ensures |after| == |grants|
    decreases |grants|
  {
    if grants == [] then []
    else if off == at then [g] + grants[1..]
    else [grants[0]] + Replaced(grants[1..], at + grants[0].extent, off, g)
  }

  /** An offset in the payload of a busy cell whose words are both stored. */
  predicate InPayload(grants: seq<Grant>, at: nat, off: int)
    decreases |grants|
  {
    grants != [] && (
      || (grants[0].words == Whole && grants[0].busy && at < off < at + grants[0].extent - 1)
      || InPayload(grants[1..], at + grants[0].extent, off))
  }

  lemma {:induction false} ExtentsConcat(a: seq<Grant>, b: seq<Grant>)
    ensures Extents(a + b) == Extents(a) + Extents(b)
  {
    if a == [] {
      assert a + b == b;
    } else {
      assert (a + b)[1..] == a[1..] + b;
      ExtentsConcat(a[1..], b);
    }
  }

  lemma {:induction false} ExtentsOne(g: Grant)
    ensures Extents([g]) == g.extent
  {
    assert [g][1..] == [];
  }

  lemma {:induction false} StandsConcat(m: seq<int>, at: nat, a: seq<Grant>, b: seq<Grant>)
    ensures Stands(m, at, a + b) <==> Stands(m, at, a) && Stands(m, at + Extents(a), b)
    decreases |a|
  {
    if a == [] {
      assert a + b == b;
    } else {
      assert (a + b)[1..] == a[1..] + b;
      StandsConcat(m, at + a[0].extent, a[1..], b);
    }
  }

  /** Where a grant found at an offset lies. */
  lemma {:induction false} GrantLies(m: seq<int>, grants: seq<Grant>, at: nat, off: int)
    requires Stands(m, at, grants) && GrantAt(grants, at, off).Some?
    ensures var g := GrantAt(grants, at, off).value;
      at <= off && off + g.extent <= at + Extents(grants) && g.extent >= HDR + 1 && at + Extents(grants) <= |m|
          && g in grants
    decreases |grants|
  {
    StandsFits(m, at, grants);
    if off != at {
      GrantLies(m, grants[1..], at + grants[0].extent, off);
    }
  }

  lemma {:induction false} StandsFits(m: seq<int>, at: nat, grants: seq<Grant>)
    requires Stands(m, at, grants)
    ensures grants != [] ==> at + Extents(grants) <= |m|
    decreases |grants|
  {
    if grants != [] {
      StandsFits(m, at + grants[0].extent, grants[1..]);
    }
  }

  /** Words outside the cells may change. */
  lemma {:induction false} StandsFrame(m: seq<int>, m': seq<int>, at: nat, grants: seq<Grant>)
    requires Stands(m, at, grants) && |m'| == |m|
    requires forall j :: at <= j < at + Extents(grants) && j < |m| ==> m'[j] == m[j]
    ensures Stands(m', at, grants)
    decreases |grants|
  {
    if grants != [] {
      StandsFits(m, at, grants);
      StandsFrame(m, m', at + grants[0].extent, grants[1..]);
    }
  }

  /** A payload is its holder's: a word stored there moves no cell's words. */
  lemma {:induction false} StandsPayload(m: seq<int>, at: nat, grants: seq<Grant>, off: int, word: int)
    requires Stands(m, at, grants) && InPayload(grants, at, off)
    ensures at <= off < at + Extents(grants) <= |m| && Stands(m[off := word], at, grants)
    decreases |grants|
  {
    StandsFits(m, at, grants);
    if !(at < off < at + grants[0].extent - 1) {
      StandsPayload(m, at + grants[0].extent, grants[1..], off, word);
    } else {
      StandsFrame(m, m[off := word], at + grants[0].extent, grants[1..]);
    }
  }

  /** An offset between the two words of the busy cell at another, both of them stored. */
  predicate InCell(grants: seq<Grant>, at: nat, cell: nat, off: int) {
    && GrantAt(grants, at, cell).Some?
    && var g := GrantAt(grants, at, cell).value;
    g.words == Whole && g.busy && cell < off < cell + g.extent - 1
  }

  lemma {:induction false} PayloadHas(m: seq<int>, at: nat, grants: seq<Grant>, off: int) returns (cell: nat)
    requires Stands(m, at, grants) && InPayload(grants, at, off)
    ensures InCell(grants, at, cell, off)
    decreases |grants|
  {
    if InPayload(grants[1..], at + grants[0].extent, off) {
      cell := PayloadHas(m, at + grants[0].extent, grants[1..], off);
      GrantLies(m, grants[1..], at + grants[0].extent, cell);
    } else {
      cell := at;
    }
  }

  lemma {:induction false} CellHas(at: nat, grants: seq<Grant>, cell: nat, off: int)
    requires InCell(grants, at, cell, off)
    ensures InPayload(grants, at, off)
    decreases |grants|
  {
    if cell != at {
      CellHas(at + grants[0].extent, grants[1..], cell, off);
    }
  }

  /** What a holder may store in is exactly the payloads: the words between the two of a busy cell with both stored. */
  lemma {:induction false} PayloadIs(m: seq<int>, at: nat, grants: seq<Grant>, off: int)
    requires Stands(m, at, grants)
    ensures InPayload(grants, at, off) <==> exists cell: nat :: InCell(grants, at, cell, off)
  {
    hide InPayload, InCell;
    if InPayload(grants, at, off) {
      var cell := PayloadHas(m, at, grants, off);
    }
    forall cell: nat | InCell(grants, at, cell, off) ensures InPayload(grants, at, off) {
      CellHas(at, grants, cell, off);
    }
  }

  lemma {:induction false} ReplacedExtents(grants: seq<Grant>, at: nat, off: int, g: Grant)
    requires GrantAt(grants, at, off).Some? ==> GrantAt(grants, at, off).value.extent == g.extent
    ensures Extents(Replaced(grants, at, off, g)) == Extents(grants)
    decreases |grants|
  {
    if grants != [] && off != at {
      ReplacedExtents(grants[1..], at + grants[0].extent, off, g);
    }
  }

  /** The cell at an offset replaced is the one found there, and every other is as it was. */
  lemma {:induction false} ReplacedAt(grants: seq<Grant>, at: nat, off: int, g: Grant, other: int)
    requires GrantAt(grants, at, off).Some? && GrantAt(grants, at, off).value.extent == g.extent
    ensures GrantAt(Replaced(grants, at, off, g), at, off) == Some(g)
    ensures other != off ==> GrantAt(Replaced(grants, at, off, g), at, other) == GrantAt(grants, at, other)
    decreases |grants|
  {
    if off != at {
      ReplacedAt(grants[1..], at + grants[0].extent, off, g, other);
    }
  }

  lemma {:induction false} ReplacedListed(grants: seq<Grant>, at: nat, off: int, g: Grant, owners: nat)
    requires Listed(grants, owners) && Listed([g], owners)
    ensures Listed(Replaced(grants, at, off, g), owners)
    decreases |grants|
  {
    assert g.words != Bare ==> g in [g];
    if grants != [] {
      ReplacedListed(grants[1..], at + grants[0].extent, off, g, owners);
    }
  }

  /** One of a cell's words stored: the cell further on, and every cell's words as they were. */
  lemma {:induction false} StandsStored(m: seq<int>, at: nat, grants: seq<Grant>, off: nat, g: Grant, word: int)
    requires Stands(m, at, grants) && GrantAt(grants, at, off).Some? && off + g.extent <= |m| && g.extent >= HDR + 1
    requires var was := GrantAt(grants, at, off).value;
      && g.extent == was.extent
      && ((was.words == Bare && g.words == Based && g.owner == word)
          || (was.words == Based && g.words == Whole && g.owner == was.owner && word == Header(g.extent - HDR, g.busy)))
    ensures var place := if g.words == Based then off + g.extent - 1 else off;
      Stands(m[place := word], at, Replaced(grants, at, off, g))
    decreases |grants|
  {
    var place := if g.words == Based then off + g.extent - 1 else off;
    var m' := m[place := word];
    GrantLies(m, grants, at, off);
    if off == at {
      StandsFrame(m, m', at + g.extent, grants[1..]);
      assert ([g] + grants[1..])[1..] == grants[1..];
    } else {
      GrantLies(m, grants[1..], at + grants[0].extent, off);
      StandsStored(m, at + grants[0].extent, grants[1..], off, g, word);
      var rest := Replaced(grants[1..], at + grants[0].extent, off, g);
      assert ([grants[0]] + rest)[1..] == rest;
    }
  }

  // ---- grants at either end ---------------------------------------------------------------------------------

  lemma {:induction false} GrantLast(m: seq<int>, grants: seq<Grant>, at: nat, g: Grant, off: int)
    requires Stands(m, at, grants)
    ensures GrantAt(grants + [g], at, at + Extents(grants)) == Some(g)
    ensures GrantAt(grants, at, off).Some? ==> GrantAt(grants + [g], at, off) == GrantAt(grants, at, off)
    decreases |grants|
  {
    if grants == [] {
      assert [] + [g] == [g];
    } else {
      assert (grants + [g])[1..] == grants[1..] + [g];
      GrantLast(m, grants[1..], at + grants[0].extent, g, off);
    }
  }

  lemma {:induction false} GrantFirst(m: seq<int>, grants: seq<Grant>, at: nat, g: Grant, off: int)
    requires Stands(m, at, grants) && g.extent >= 1 && g.extent <= at
    ensures GrantAt([g] + grants, at - g.extent, at - g.extent) == Some(g)
    ensures GrantAt(grants, at, off).Some? ==> GrantAt([g] + grants, at - g.extent, off) == GrantAt(grants, at, off)
  {
    assert ([g] + grants)[1..] == grants;
    if GrantAt(grants, at, off).Some? {
      GrantLies(m, grants, at, off);
    }
  }

  // ---- grants whole are cells -------------------------------------------------------------------------------

  function CellOf(m: seq<int>, at: nat, g: Grant): Cell
    requires g.extent >= HDR + 1 && at + g.extent <= |m|
  {
    if g.busy then Busy(g.extent - HDR, g.owner, m[at + 1..at + g.extent - 1]) else Free(g.extent - HDR, g.owner)
  }

  function Cells(m: seq<int>, at: nat, grants: seq<Grant>): seq<Cell>
    requires Stands(m, at, grants)
    decreases |grants|
  {
    if grants == [] then [] else [CellOf(m, at, grants[0])] + Cells(m, at + grants[0].extent, grants[1..])
  }

  /** Cells whose words are all stored tile the grains they were granted. */
  lemma {:induction false} WholeLays(m: seq<int>, at: nat, grants: seq<Grant>, owners: nat)
    requires Stands(m, at, grants) && AllWhole(grants) && Listed(grants, owners)
    ensures Lays(m, at, Cells(m, at, grants)) && Span(Cells(m, at, grants)) == Extents(grants)
    ensures Footed(Cells(m, at, grants), owners)
    decreases |grants|
  {
    if grants != [] {
      var c, rest := CellOf(m, at, grants[0]), Cells(m, at + grants[0].extent, grants[1..]);
      assert grants[0] in grants;
      WholeLays(m, at + grants[0].extent, grants[1..], owners);
      LaysHead(m, at, c, rest);
    }
  }

  function GrantsOf(cells: seq<Cell>): (grants: seq<Grant>)
    ensures |grants| == |cells| && AllWhole(grants)
  {
    seq(|cells|, i requires 0 <= i < |cells| => Grant(Extent(cells[i]), 0, Whole, cells[i].Busy?, cells[i].owner))
  }

  /** And cells memory is tiled by are grants it holds whole. */
  lemma {:induction false} LaysStand(m: seq<int>, at: nat, cells: seq<Cell>, owners: nat)
    requires Lays(m, at, cells) && Footed(cells, owners)
    ensures Stands(m, at, GrantsOf(cells)) && Extents(GrantsOf(cells)) == Span(cells) && Listed(GrantsOf(cells), owners)
    ensures Cells(m, at, GrantsOf(cells)) == cells
    decreases |cells|
  {
    if cells != [] {
      LaysStand(m, at + Extent(cells[0]), cells[1..], owners);
      assert GrantsOf(cells)[1..] == GrantsOf(cells[1..]);
      forall g | g in GrantsOf(cells) ensures Listed([g], owners) {
        var i: nat :| i < |cells| && GrantsOf(cells)[i] == g;
        assert cells[i] in cells;
      }
      forall g | g in GrantsOf(cells) && g.words != Bare
        ensures if g.busy then !IsComplete(g.owner) && 1 <= PlaceOf(g.owner) <= owners else IsDone(g.owner)
      {
        assert g in [g];
      }
    }
  }
}
