/** The walk of the persistent tier with gives between its steps. A give takes no pass and waits for no writer, so its
    stores land wherever the walk stands: the payload wiped, the owner word completed, the header set free. */
module CarcerSweeps {
  import opened CarcerCells
  import opened CarcerTiers

  /** Memory, the cells the walk has settled, the payload of the free run open behind it, and the cells ahead. */
  datatype Sweep = Sweep(m: seq<int>, settled: seq<Cell>, run: nat, ahead: seq<Cell>)

  function Off(w: Sweep): nat {
    Span(w.settled) + RunSpan(w.run)
  }

  /** A give's stores are to a cell behind the walk or ahead of it, by its place there. */
  datatype Step =
    | Pass
    | Wipe(behind: bool, k: nat, at: nat)
    | Complete(behind: bool, k: nat)
    | SetFree(behind: bool, k: nat)

  function Side(w: Sweep, behind: bool): seq<Cell> {
    if behind then w.settled else w.ahead
  }

  /** Offset of a cell. */
  function At(w: Sweep, behind: bool, k: nat): nat
    requires k <= |Side(w, behind)|
  {
    (if behind then 0 else Off(w)) + Span(Side(w, behind)[..k])
  }

  predicate GivesTo(w: Sweep, behind: bool, k: nat) {
    k < |Side(w, behind)| && Side(w, behind)[k].Busy?
  }

  predicate Enabled(w: Sweep, step: Step) {
    if step == Pass then w.ahead != [] && Off(w) <= |w.m|
    else
      && GivesTo(w, step.behind, step.k)
      && var c, off := Side(w, step.behind)[step.k], At(w, step.behind, step.k);
      off + Extent(c) <= |w.m| && (step.Wipe? ==> off < step.at <= off + c.size)
  }

  /** Memory after a give's store to a cell at an offset. */
  function Stored(m: seq<int>, off: nat, c: Cell, step: Step): (after: seq<int>)
    requires off + Extent(c) <= |m| && (step.Wipe? ==> off < step.at <= off + c.size)
    ensures |after| == |m|
  {
    match step
    case Wipe(_, _, at) => m[at := 0]
    case Complete(_, _) => m[off + 1 + c.size := Completed(c.owner)]
    case SetFree(_, _) => m[off := Header(c.size, false)]
    case Pass => m
  }

  /** The cell after it. */
  function StoredCell(m: seq<int>, off: nat, c: Cell, step: Step): (after: Cell)
    requires c.Busy? && off + Extent(c) <= |m|
    ensures after.size == c.size
  {
    match step
    case Wipe(_, _, at) => Busy(c.size, c.owner, m[off + 1..off + 1 + c.size])
    case Complete(_, _) => Busy(c.size, Completed(c.owner), c.payload)
    case SetFree(_, _) => Free(c.size, c.owner)
    case Pass => c
  }

  /** A sweep with one cell as a give's store leaves it. */
  function Given(w: Sweep, behind: bool, k: nat, m: seq<int>, c: Cell): Sweep
    requires k < |Side(w, behind)|
  {
    Sweep(m, if behind then With(w.settled, k, c) else w.settled, w.run,
          if behind then w.ahead else With(w.ahead, k, c))
  }

  /** One step of the walk or of a give: one cell's header read and what it calls for, or one store. */
  function Do(w: Sweep, step: Step): Sweep
    requires Enabled(w, step)
  {
    if step == Pass then
      var c, at := w.ahead[0], Span(w.settled);
      var next := CarcerCells.Step(Walk(w.settled, w.run), c);
      Sweep(if c.Free? || w.run == 0 then w.m else w.m[at + 1 + w.run := 0][at := Header(w.run, false)],
            next.settled, next.run, w.ahead[1..])
    else
      var c, off := Side(w, step.behind)[step.k], At(w, step.behind, step.k);
      var m := Stored(w.m, off, c, step);
      Given(w, step.behind, step.k, m, StoredCell(m, off, c, step))
  }

  /** Memory is tiled by what the walk settled, and from where it stands by what is ahead. */
  ghost predicate Tiled(w: Sweep) {
    && Lays(w.m, 0, w.settled) && Lays(w.m, Off(w), w.ahead)
    && Off(w) + Span(w.ahead) <= |w.m|
  }

  /** The busy cells behind the walk and ahead of it. */
  function Live(w: Sweep): seq<(nat, Cell)> {
    Busies(w.settled, 0) + Busies(w.ahead, Off(w))
  }

  // ---- the walk's own step ----------------------------------------------------------------------------------

  /** A cell passed: nothing busy is moved or changed, and both tilings stand. */
  lemma {:induction false} PassKeeps(w: Sweep)
    requires Tiled(w) && Enabled(w, Pass)
    ensures Tiled(Do(w, Pass)) && Live(Do(w, Pass)) == Live(w)
    ensures |Do(w, Pass).m| == |w.m| && Off(Do(w, Pass)) + Span(Do(w, Pass).ahead) == Off(w) + Span(w.ahead)
  {
    hide Lays, Span, Busies;
    var c, rest := w.ahead[0], w.ahead[1..];
    assert w.ahead == [c] + rest;
    LaysHead(w.m, Off(w), c, rest);
    BusiesConcat([c], rest, Off(w));
    BusiesOne(c, Off(w));
    SpanOne(c);
    LaysPositive(w.m, Off(w), w.ahead);
    if c.Busy? {
      var walk := Walk(w.settled, w.run);
      LaysAfterStep(w.m, Do(w, Pass).m, walk, c, rest);
      SettledRun(walk, c, 0);
    }
  }

  // ---- a give's stores --------------------------------------------------------------------------------------

  /** A cell whose words are stored over, its size as it was, leaves both tilings whole. */
  lemma {:induction false} GivenTiles(w: Sweep, behind: bool, k: nat, m: seq<int>, c: Cell)
    requires Tiled(w) && GivesTo(w, behind, k) && |m| == |w.m|
    requires c.size == Side(w, behind)[k].size && Holds(m, At(w, behind, k), c)
    requires forall j :: 0 <= j < |m| && !(At(w, behind, k) <= j < At(w, behind, k) + Extent(c)) ==> m[j] == w.m[j]
    ensures Tiled(Given(w, behind, k, m, c)) && Off(Given(w, behind, k, m, c)) == Off(w)
  {
    hide Lays, Span, Holds;
    var side, base := Side(w, behind), if behind then 0 else Off(w);
    SideFits(w, behind);
    LaysAt(w.m, base, side, k);
    SpanOne(c);
    LaysOne(m, At(w, behind, k), c);
    LaysReplaced(w.m, m, base, side, k, [c]);
    LaysFrame(w.m, m, if behind then Off(w) else 0, Side(w, !behind));
  }

  /** And every other live cell as it was. */
  lemma {:induction false} GivenLives(w: Sweep, behind: bool, k: nat, m: seq<int>, c: Cell)
    requires GivesTo(w, behind, k) && c.size == Side(w, behind)[k].size && Off(Given(w, behind, k, m, c)) == Off(w)
    ensures exists a, b ::
      && Live(w) == a + [(At(w, behind, k), Side(w, behind)[k])] + b
      && Live(Given(w, behind, k, m, c)) == a + (if c.Busy? then [(At(w, behind, k), c)] else []) + b
  {
    hide Span, Busies;
    var side, base := Side(w, behind), if behind then 0 else Off(w);
    SpanOne(c);
    var a, b := BusiesAround(side, k, [c], base);
    BusiesOne(side[k], At(w, behind, k));
    BusiesOne(c, At(w, behind, k));
    var x, y := [(At(w, behind, k), side[k])], if c.Busy? then [(At(w, behind, k), c)] else [];
    if behind {
      var above := Busies(w.ahead, Off(w));
      assert a + x + b + above == a + x + (b + above) && a + y + b + above == a + y + (b + above);
    } else {
      var below := Busies(w.settled, 0);
      assert below + (a + x + b) == (below + a) + x + b && below + (a + y + b) == (below + a) + y + b;
    }
  }

  lemma {:induction false} SideFits(w: Sweep, behind: bool)
    requires Tiled(w)
    ensures Span(w.settled) <= Off(w) <= |w.m| && (if behind then 0 else Off(w)) + Span(Side(w, behind)) <= |w.m|
  {
  }

  /** Offset and size of a live cell: what a give or the walk leaves of it while it lives. */
  ghost predicate Stood(before: seq<(nat, Cell)>, after: seq<(nat, Cell)>) {
    forall y :: y in after ==> exists x :: x in before && x.0 == y.0 && x.1.size == y.1.size
  }

  /** Offset of the cell a give stores to. */
  function Touches(w: Sweep, step: Step): int
    requires Enabled(w, step)
  {
    if step == Pass then -1 else At(w, step.behind, step.k)
  }

  lemma {:induction false} InParts(all: seq<(nat, Cell)>, a: seq<(nat, Cell)>, mid: seq<(nat, Cell)>,
                                   b: seq<(nat, Cell)>,
                                   x: (nat, Cell))
    requires all == a + mid + b
    ensures x in all <==> x in a || x in mid || x in b
  {
  }

  /** What any step keeps: both tilings, every live cell it does not store to, and no cell that was not live before. */
  lemma {:induction false} StepKeeps(w: Sweep, step: Step)
    requires Tiled(w) && Enabled(w, step)
    ensures Tiled(Do(w, step)) && Stood(Live(w), Live(Do(w, step)))
    ensures forall x :: x in Live(w) && x.0 != Touches(w, step) ==> x in Live(Do(w, step))
    ensures |Do(w, step).m| == |w.m|
  {
    hide Live, Tiled, Lays, Span, Holds, Stored, StoredCell;
    var w' := Do(w, step);
    if step == Pass {
      PassKeeps(w);
    } else {
      var behind, k := step.behind, step.k;
      var c, off := Side(w, behind)[k], At(w, behind, k);
      SideHolds(w, behind, k);
      var m := Stored(w.m, off, c, step);
      var after := StoredCell(m, off, c, step);
      StoredHolds(w.m, off, c, step);
      GivenTiles(w, behind, k, m, after);
      GivenLives(w, behind, k, m, after);
      var a, b :| Live(w) == a + [(off, c)] + b && Live(w') == a + (if after.Busy? then [(off, after)] else []) + b;
      forall x ensures x in Live(w) <==> x in a || x == (off, c) || x in b
               ensures x in Live(w') <==> x in a || (after.Busy? && x == (off, after)) || x in b
      {
        InParts(Live(w), a, [(off, c)], b, x);
        InParts(Live(w'), a, if after.Busy? then [(off, after)] else [], b, x);
      }
    }
  }

  lemma {:induction false} SideHolds(w: Sweep, behind: bool, k: nat)
    requires Tiled(w) && k < |Side(w, behind)|
    ensures Holds(w.m, At(w, behind, k), Side(w, behind)[k])
  {
    hide Lays, Span, Holds;
    SideFits(w, behind);
    LaysAt(w.m, if behind then 0 else Off(w), Side(w, behind), k);
  }

  /** A give's store leaves memory holding its cell, a word further given, and writes nothing else. */
  lemma {:induction false} StoredHolds(m: seq<int>, off: nat, c: Cell, step: Step)
    requires Holds(m, off, c) && c.Busy? && step != Pass && (step.Wipe? ==> off < step.at <= off + c.size)
    ensures off + Extent(c) <= |m|
    ensures var m' := Stored(m, off, c, step);
      && |m'| == |m| && Holds(m', off, StoredCell(m', off, c, step))
      && forall j :: 0 <= j < |m| && !(off <= j < off + Extent(c)) ==> m'[j] == m[j]
  {
    hide Completed;
    if step.Complete? {
      assert Stored(m, off, c, step)[off + 1..off + 1 + c.size] == m[off + 1..off + 1 + c.size];
    }
  }

  /** A payload's first words wiped one store at a time. */
  function WipedThrough(m: seq<int>, off: nat, c: Cell, n: nat): (after: seq<int>)
    requires off + Extent(c) <= |m| && n <= c.size
    ensures |after| == |m|
  {
    if n == 0 then m else Stored(WipedThrough(m, off, c, n - 1), off, c, Wipe(true, 0, off + n))
  }

  lemma {:induction false} WipesZero(m: seq<int>, off: nat, c: Cell, n: nat)
    requires off + Extent(c) <= |m| && n <= c.size
    ensures WipedThrough(m, off, c, n) == Zeroes(m, off + 1, n)
  {
    if n > 0 {
      WipesZero(m, off, c, n - 1);
    }
  }

  /** A give's stores, one after another, are the give the cellblock's entry makes. */
  lemma {:induction false} StoresGive(m: seq<int>, off: nat, c: Cell, zeroing: bool)
    requires off + Extent(c) <= |m| && m[off + 1 + c.size] == c.owner
    ensures var wiped := WipedThrough(m, off, c, if zeroing then c.size else 0);
      Stored(Stored(wiped, off, c, Complete(true, 0)), off, c, SetFree(true, 0)) == GivenWords(m, off, c.size, zeroing)
  {
    hide Completed, Header;
    WipesZero(m, off, c, if zeroing then c.size else 0);
  }

  /** Wherever the walk stands, each of them may land: on every word of the payload, and on the cell's own two. */
  lemma {:induction false} StoresRun(w: Sweep, behind: bool, k: nat, at: nat)
    requires Tiled(w) && GivesTo(w, behind, k)
    ensures var off := At(w, behind, k);
      Enabled(w, Wipe(behind, k, at)) <==> off + 1 <= at < off + 1 + Side(w, behind)[k].size
    ensures Enabled(w, Complete(behind, k)) && Enabled(w, SetFree(behind, k))
  {
    hide Lays, Span;
    SideHolds(w, behind, k);
  }

  // ---- every interleaving -----------------------------------------------------------------------------------

  ghost predicate Runs(states: seq<Sweep>, steps: seq<Step>) {
    && |states| == |steps| + 1
    && forall n :: 0 <= n < |steps| ==> Enabled(states[n], steps[n]) && states[n + 1] == Do(states[n], steps[n])
  }

  /** However gives land between the steps of a walk, memory stays tiled behind it and ahead of it, and every cell no
      give stored to lives on unmoved and unchanged. */
  lemma {:induction false} RunKeeps(states: seq<Sweep>, steps: seq<Step>, n: nat, x: (nat, Cell))
    requires Runs(states, steps) && Tiled(states[0]) && n < |states| && x in Live(states[0])
    ensures Tiled(states[n])
    ensures (forall i :: 0 <= i < n ==> Enabled(states[i], steps[i]) && Touches(states[i], steps[i]) != x.0) ==>
      x in Live(states[n])
  {
    hide Tiled, Live, Do, Enabled, Touches;
    if n > 0 {
      RunKeeps(states, steps, n - 1, x);
      StepKeeps(states[n - 1], steps[n - 1]);
    }
  }

  /** And no cell lives after that did not live before, at its own place and size. */
  lemma {:induction false} NoneBorn(states: seq<Sweep>, steps: seq<Step>, n: nat)
    requires Runs(states, steps) && Tiled(states[0]) && n < |states|
    ensures Tiled(states[n]) && Stood(Live(states[0]), Live(states[n]))
  {
    hide Tiled, Live, Do, Enabled;
    if n > 0 {
      NoneBorn(states, steps, n - 1);
      StepKeeps(states[n - 1], steps[n - 1]);
      forall y | y in Live(states[n])
        ensures exists x :: x in Live(states[0]) && x.0 == y.0 && x.1.size == y.1.size
      {
        var z :| z in Live(states[n - 1]) && z.0 == y.0 && z.1.size == y.1.size;
        var x :| x in Live(states[0]) && x.0 == z.0 && x.1.size == z.1.size;
      }
    }
  }

  /** A walk that has reached the end leaves the tier tiled exactly by what it settled, its trailing run in the gap. */
  lemma {:induction false} WalkEnds(states: seq<Sweep>, steps: seq<Step>, n: nat)
    requires Runs(states, steps) && Tiled(states[0]) && n < |states| && states[n].ahead == []
    ensures Lays(states[n].m, 0, states[n].settled) && Span(states[n].settled) <= |states[n].m|
    ensures Live(states[n]) == Busies(states[n].settled, 0)
  {
    hide Lays, Span, Live;
    NoneBorn(states, steps, n);
    Nothing(states[n]);
  }

  lemma {:induction false} Nothing(w: Sweep)
    requires w.ahead == []
    ensures Live(w) == Busies(w.settled, 0)
  {
    BusiesNone(Off(w));
  }
}
