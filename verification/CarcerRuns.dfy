/** Short runs of one cellblock's entries that end where the entries' promises do not hold. */
module CarcerRuns {
  import opened CarcerBounds
  import opened CarcerCells
  import opened CarcerTiers
  import opened CarcerMarks
  import opened CarcerHeap

  /** A cellblock of 100 grains with one owner, its half of a word reaching 1000. */
  method Emptied() returns (series: SeriesCellularum)
    ensures fresh(series) && fresh(series.base) && fresh(series.table)
    ensures series.cfg == Config(100, HDR, 120, 1000) && series.grain == 1
    ensures series.base.Length == 100 && series.table.Length == 1
    ensures series.Valid() && series.Counted() && series.persistent == [] && series.temporary == []
  {
    var base := new int[100](_ => 0);
    var table := new int[1](_ => 0);
    series := new SeriesCellularum(Config(100, HDR, 120, 1000), 1, base, table);
  }

  /** Where the one cell of a temporary tier stands. */
  lemma {:induction false} OneStands(down: seq<Cell>)
    requires |down| == 1
    ensures Span(down) == Extent(down[0]) && Span([]) == 0 && OffOf(100, [], down, false, 0) == 100 - Extent(down[0])
    ensures DropFree(Freed(down, 0)) == []
  {
    SpanOne(down[0]);
    assert down == [down[0]] && down[..0] == [];
    assert Freed(down, 0)[1..] == [];
  }

  /** A take of a few grains at the top of an empty cellblock. */
  method TakenDown(series: SeriesCellularum, want: nat) returns (payload: nat)
    requires series.Valid() && series.Counted() && series.persistent == [] && series.temporary == []
    requires series.cfg == Config(100, HDR, 120, 1000) && series.grain == 1
    requires series.base.Length == 100 && series.table.Length == 1 && 1 <= want <= 90
    modifies series, series.base, series.table
    ensures series.Valid() && series.Displaced() && series.Counted() && series.persistent == []
    ensures series.overEnd == series.overTop == 0
    ensures payload == 100 - want - 1 && |series.temporary| == 1
    ensures series.temporary[0].Busy? && series.temporary[0].size == want
    ensures PlaceOf(series.temporary[0].owner) == 1
  {
    hide Lays, OwnerWord, Tilings, Ledger, Gains;
    ghost var inRun, k, turns;
    series.AtRest();
    assert WantOf(want, 1) == want;
    OwnerWordReads(1, 0);
    payload, inRun, k, turns := series.Take(want, 1, 0, true);
    series.AtRest();
  }

  /** A mark read at rest, its cell given back and a larger one taken: the mark lies inside that cell. */
  method Outlived() returns (series: SeriesCellularum, mark: nat)
    ensures fresh(series) && fresh(series.base) && fresh(series.table)
    ensures series.cfg == Config(100, HDR, 120, 1000) && series.base.Length == 100 && series.base != series.table
    ensures series.Displaced() && series.Counted() && series.persistent == [] && |series.temporary| == 1
    ensures series.temporary[0].Busy? && series.temporary[0].size == 10 && mark == 96
  {
    hide Lays, Tilings, Ledger, Word, EndOf, TopOf, Displaces, Freed, PlaceOf;
    series := Emptied();
    var first := TakenDown(series, 2);
    OneStands(series.temporary);
    mark := series.Mark();
    ghost var turns;
    var back;
    back, turns := series.Released(first, 1, false, false, false, 0);
    var second := TakenDown(series, 10);
  }

  /** The rewind to that mark counts the cell off and puts the top inside it, and with the cell's holder having stored a
      zero there no cells tile what the top claims. */
  method StaleMark() returns (series: SeriesCellularum, mark: nat)
    ensures fresh(series) && series.cfg.half > 0
    ensures mark == 96 && TopOf(series.cfg, series.bounds) == mark && mark < series.base.Length
    ensures forall cells :: Lays(series.base[..], mark, cells) ==> cells == []
    ensures !series.Valid()
  {
    hide Lays, Tilings, Ledger, Edge, Word, EndOf, TopOf, Displaces, PlaceOf;
    series, mark := Outlived();
    OneStands(series.temporary);
    series.Stored(96, 0, false, 0);
    OneStands(series.temporary);
    EdgeIs(series.temporary, 100, 96);
    assert series.temporary[1..] == [] && Under(series.temporary, 88, 96) == 1;
    series.Rewound(96, false);
    WordReads(series.cfg, 0, 96);
    forall cells | Lays(series.base[..], mark, cells) ensures cells == [] {
      NoHeader(series.base[..], mark, cells);
    }
  }

  /** A mark read at rest and the cell that stands at it grown: the cell grows down past the mark, and the rewind to it
      leaves the block off rest. */
  method GrownMark() returns (series: SeriesCellularum, mark: nat)
    ensures fresh(series) && mark == 96 && !series.Valid()
  {
    hide Lays, Tilings, Ledger, Edge, Word, EndOf, TopOf, Displaces, PlaceOf, GrownWords;
    series := Emptied();
    var first := TakenDown(series, 2);
    OneStands(series.temporary);
    mark := series.Mark();
    var cell := series.Grown(first, 10, 1, 0, false, false, 0);
    assert WantOf(10, 1) == 10;
    OneStands(series.temporary);
    EdgeIs(series.temporary, 100, 96);
    assert series.temporary[1..] == [] && Under(series.temporary, 88, 96) == 1;
    series.AtRest();
    series.Rewound(96, false);
  }

  /** A take refused and not settled since leaves the end past a temporary cell, and that cell's give counts it off the
      persistent tier. */
  method MisreadTier() returns (series: SeriesCellularum, back: bool)
    ensures fresh(series) && back && !series.Counted()
  {
    hide Lays, Tilings, Ledger, Word, EndOf, TopOf, Displaces, Freed, PlaceOf, GivenWords;
    series := Emptied();
    var payload := TakenDown(series, 2);
    var refused := series.Bumped(99, 1, 0, false, true);
    OneStands(series.temporary);
    DisplacedReads(series.cfg, series.bounds, 0, 96, 101, 0);
    var boundary, lowRead;
    back, boundary, lowRead := series.Given(payload, 1, false, false, 0);
  }
}
