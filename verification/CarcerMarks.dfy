/** Marks of the temporary tier: a mark is the tier's top as it stood when it was read, and a rewind takes it for a
    cell's edge. What each entry does to the tier is a sequence of turns here, and whether a mark still lies on an edge
    after them is told exactly. */
module CarcerMarks {
  import opened CarcerCells
  import opened CarcerTiers

  /** Offset of a tier's lowest cell, in a cellblock of `size` grains. */
  function TopFor(down: seq<Cell>, size: nat): int {
    size - Span(down)
  }

  /** A mark on the edge of a cell of the tier. */
  ghost predicate Edge(down: seq<Cell>, size: nat, mark: int) {
    exists j: nat :: j <= |down| && mark == TopFor(down[j..], size)
  }

  /** Cells that start below a mark, the first of them at an offset. */
  function Under(down: seq<Cell>, at: int, mark: int): (n: nat)
    ensures n <= |down|
  {
    if down == [] || at >= mark then 0 else 1 + Under(down[1..], at + Extent(down[0]), mark)
  }

  /** They are the cells up to the mark: the next starts at it or past it. */
  lemma {:induction false} UnderEnds(down: seq<Cell>, size: nat, mark: int, i: nat)
    requires i <= |down| && mark <= size
    ensures var n := Under(down[i..], TopFor(down[i..], size), mark);
      i + n <= |down| && mark <= TopFor(down[i + n..], size)
    decreases |down| - i
  {
    if i < |down| && TopFor(down[i..], size) < mark {
      SpanSplit(down, i);
      assert down[i..][1..] == down[i + 1..];
      UnderEnds(down, size, mark, i + 1);
    }
  }

  /** And each of them starts below it. */
  lemma {:induction false} UnderBelow(down: seq<Cell>, size: nat, mark: int, i: nat, j: nat)
    requires i <= |down| && i <= j < i + Under(down[i..], TopFor(down[i..], size), mark)
    ensures j < |down| && TopFor(down[j..], size) < mark
    decreases |down| - i
  {
    if i < j {
      SpanSplit(down, i);
      assert down[i..][1..] == down[i + 1..];
      UnderBelow(down, size, mark, i + 1, j);
    }
  }

  lemma {:induction false} UnderStep(down: seq<Cell>, size: nat, mark: int)
    requires down != []
    ensures Under(down, TopFor(down, size), mark)
         == if TopFor(down, size) >= mark then 0 else 1 + Under(down[1..], TopFor(down[1..], size), mark)
  {
    SpanSplit(down, 0);
    assert down[0..] == down;
  }

  lemma {:induction false} UnderNone(down: seq<Cell>, at: int, mark: int)
    requires at >= mark
    ensures Under(down, at, mark) == 0
  {
  }

  /** A mark lies on an edge if and only if the first cell not below it starts at it. */
  lemma {:induction false} EdgeIs(down: seq<Cell>, size: nat, mark: int)
    requires TopFor(down, size) <= mark <= size
    ensures var n := Under(down, TopFor(down, size), mark);
      Edge(down, size, mark) <==> mark == TopFor(down[n..], size)
  {
    assert down[0..] == down;
    UnderEnds(down, size, mark, 0);
    var n := Under(down, TopFor(down, size), mark);
    if Edge(down, size, mark) {
      var j: nat :| j <= |down| && mark == TopFor(down[j..], size);
      if n <= j {
        SuffixSpans(down, n, j);
      } else {
        UnderBelow(down, size, mark, 0, j);
      }
    }
  }

  // ---- what an entry does to the tier -----------------------------------------------------------------------

  datatype Turn =
    | Trim
    | Lay(cell: Cell)
    | Give(k: nat)
    | Grow(cell: Cell)
    | Store(k: nat, cell: Cell)
    | Rewind(mark: int)

  predicate Fits(down: seq<Cell>, size: nat, t: Turn) {
    match t
    case Trim => true
    case Lay(c) => true
    case Give(k) => k < |down|
    case Grow(c) => down != [] && c.size > down[0].size
    case Store(k, c) => k < |down| && c.size == down[k].size
    case Rewind(mark) => mark <= size
  }

  function After(down: seq<Cell>, size: nat, t: Turn): seq<Cell>
    requires Fits(down, size, t)
  {
    match t
    case Trim => DropFree(down)
    case Lay(c) => [c] + down
    case Give(k) => Freed(down, k)
    case Grow(c) => With(down, 0, c)
    case Store(k, c) => With(down, k, c)
    case Rewind(mark) => down[Under(down, TopFor(down, size), mark)..]
  }

  /** The turn leaves a mark on an edge alone: it does not raise the top past the mark, and does not grow the cell that
      stands at it. */
  predicate Spares(down: seq<Cell>, size: nat, t: Turn, mark: int)
    requires Fits(down, size, t)
  {
    TopFor(After(down, size, t), size) <= mark && !(t.Grow? && mark == TopFor(down, size))
  }

  lemma {:induction false} SuffixEdge(down: seq<Cell>, size: nat, n: nat, mark: int)
    requires n <= |down| && Edge(down, size, mark)
    ensures Edge(down[n..], size, mark) <==> TopFor(down[n..], size) <= mark
  {
    hide Span;
    var j: nat :| j <= |down| && mark == TopFor(down[j..], size);
    if j >= n {
      assert down[n..][j - n..] == down[j..];
      SuffixSpans(down, n, j);
    } else {
      SuffixSpans(down, j, n);
      assert TopFor(down[n..], size) > mark;
      forall i: nat | i <= |down[n..]| ensures mark != TopFor(down[n..][i..], size) {
        assert down[n..][i..] == down[n + i..];
        SuffixSpans(down, n, n + i);
      }
    }
  }

  /** A cell replaced by one as long moves no edge. */
  lemma {:induction false} SameEdge(down: seq<Cell>, size: nat, k: nat, c: Cell, mark: int)
    requires k < |down| && c.size == down[k].size && Edge(down, size, mark)
    ensures Edge(With(down, k, c), size, mark) && Span(With(down, k, c)) == Span(down)
  {
    hide Span;
    var j: nat :| j <= |down| && mark == TopFor(down[j..], size);
    var after := With(down, k, c);
    WithSpans(down, k, c);
    if j <= k {
      assert after[j..] == With(down[j..], k - j, c);
      assert down[j..][k - j] == down[k];
      WithSpans(down[j..], k - j, c);
    } else {
      assert after[j..] == down[j..];
    }
    assert mark == TopFor(after[j..], size);
  }

  /** A mark on an edge is still on one after a turn if and only if the turn spares it. */
  lemma {:induction false} TurnKeeps(down: seq<Cell>, size: nat, t: Turn, mark: int)
    requires Fits(down, size, t) && Edge(down, size, mark)
    ensures Edge(After(down, size, t), size, mark) <==> Spares(down, size, t, mark)
  {
    hide Span, Edge, Completed;
    var after := After(down, size, t);
    EdgeUp(down, size, mark);
    match t {
      case Trim =>
        DropFreeIsSuffix(down);
        SuffixEdge(down, size, |down| - |after|, mark);
      case Rewind(m) =>
        SuffixEdge(down, size, Under(down, TopFor(down, size), m), mark);
      case Lay(c) => LayEdge(down, size, c, mark);
      case Grow(c) => GrowEdge(down, size, c, mark);
      case Give(k) => SameEdge(down, size, k, Free(down[k].size, Completed(down[k].owner)), mark);
      case Store(k, c) => SameEdge(down, size, k, c, mark);
    }
  }

  lemma {:induction false} EdgeUp(down: seq<Cell>, size: nat, mark: int)
    requires Edge(down, size, mark)
    ensures TopFor(down, size) <= mark
  {
    var j: nat :| j <= |down| && mark == TopFor(down[j..], size);
    assert down[0..] == down;
    SuffixSpans(down, 0, j);
  }

  lemma {:induction false} LayEdge(down: seq<Cell>, size: nat, c: Cell, mark: int)
    requires Edge(down, size, mark)
    ensures Edge([c] + down, size, mark) && TopFor([c] + down, size) <= mark
  {
    hide Span;
    var j: nat :| j <= |down| && mark == TopFor(down[j..], size);
    assert ([c] + down)[j + 1..] == down[j..];
    assert Edge([c] + down, size, mark);
    EdgeUp([c] + down, size, mark);
  }

  lemma {:induction false} GrowEdge(down: seq<Cell>, size: nat, c: Cell, mark: int)
    requires down != [] && c.size > down[0].size && Edge(down, size, mark)
    ensures TopFor(With(down, 0, c), size) <= mark
    ensures Edge(With(down, 0, c), size, mark) <==> mark != TopFor(down, size)
  {
    hide Span;
    var after := With(down, 0, c);
    WithSpans(down, 0, c);
    EdgeUp(down, size, mark);
    forall j: nat | 1 <= j <= |down| ensures after[j..] == down[j..] && TopFor(down[j..], size) > TopFor(down, size) {
      assert down[0..] == down;
      SuffixSpans(down, 0, j);
    }
    assert after[0..] == after;
    if mark != TopFor(down, size) {
      var j: nat :| j <= |down| && mark == TopFor(down[j..], size);
      assert down[0..] == down;
      assert mark == TopFor(after[j..], size);
    }
  }

  // ---- every sequence of turns ------------------------------------------------------------------------------

  predicate FitAll(down: seq<Cell>, size: nat, ts: seq<Turn>)
    decreases |ts|
  {
    ts == [] || (Fits(down, size, ts[0]) && FitAll(After(down, size, ts[0]), size, ts[1..]))
  }

  function AfterAll(down: seq<Cell>, size: nat, ts: seq<Turn>): seq<Cell>
    requires FitAll(down, size, ts)
    decreases |ts|
  {
    if ts == [] then down else AfterAll(After(down, size, ts[0]), size, ts[1..])
  }

  /** No turn of the sequence raises the top past the mark or grows the cell at it. */
  predicate SparesAll(down: seq<Cell>, size: nat, ts: seq<Turn>, mark: int)
    requires FitAll(down, size, ts)
    decreases |ts|
  {
    ts == [] || (Spares(down, size, ts[0], mark) && SparesAll(After(down, size, ts[0]), size, ts[1..], mark))
  }

  /** A mark on an edge after every turn of a sequence. */
  ghost predicate EdgeThrough(down: seq<Cell>, size: nat, ts: seq<Turn>, mark: int)
    requires FitAll(down, size, ts)
    decreases |ts|
  {
    Edge(down, size, mark) && (ts == [] || EdgeThrough(After(down, size, ts[0]), size, ts[1..], mark))
  }

  lemma {:induction false} ThroughExactly(down: seq<Cell>, size: nat, ts: seq<Turn>, mark: int)
    requires FitAll(down, size, ts) && Edge(down, size, mark)
    ensures EdgeThrough(down, size, ts, mark) <==> SparesAll(down, size, ts, mark)
    ensures SparesAll(down, size, ts, mark) ==> Edge(AfterAll(down, size, ts), size, mark)
    decreases |ts|
  {
    hide Edge, After, Fits, Spares;
    if ts != [] {
      TurnKeeps(down, size, ts[0], mark);
      if Spares(down, size, ts[0], mark) {
        ThroughExactly(After(down, size, ts[0]), size, ts[1..], mark);
      }
    }
  }

  /** A mark read at rest stays on a cell's edge through every entry since if and only if none of their turns raised the
      top past it or grew the cell that stood at it. */
  lemma {:induction false} MarkStands(down: seq<Cell>, size: nat, ts: seq<Turn>)
    requires FitAll(down, size, ts)
    ensures var mark := TopFor(down, size);
      && (EdgeThrough(down, size, ts, mark) <==> SparesAll(down, size, ts, mark))
      && (SparesAll(down, size, ts, mark) ==> Edge(AfterAll(down, size, ts), size, mark))
  {
    hide Span;
    assert down[0..] == down;
    assert Edge(down, size, TopFor(down, size));
    ThroughExactly(down, size, ts, TopFor(down, size));
  }

  /** Turns of two entries one after the other are the turns of both. */
  lemma {:induction false} TurnsJoin(down: seq<Cell>, size: nat, a: seq<Turn>, b: seq<Turn>, mark: int)
    requires FitAll(down, size, a) && FitAll(AfterAll(down, size, a), size, b)
    ensures FitAll(down, size, a + b)
    ensures AfterAll(down, size, a + b) == AfterAll(AfterAll(down, size, a), size, b)
    ensures SparesAll(down, size, a + b, mark)
       <==> SparesAll(down, size, a, mark) && SparesAll(AfterAll(down, size, a), size, b, mark)
    decreases |a|
  {
    hide After, Fits, Spares;
    if a == [] {
      assert a + b == b;
    } else {
      assert (a + b)[0] == a[0] && (a + b)[1..] == a[1..] + b;
      TurnsJoin(After(down, size, a[0]), size, a[1..], b, mark);
    }
  }

  /** The turns of a give: the cell freed where it lies in this tier, and the tier trimmed where it was at the top. */
  lemma {:induction false} TurnsOfGive(down: seq<Cell>, size: nat, k: nat, here: bool, trims: bool)
    requires here ==> k < |down|
    ensures var turns := (if here then [Give(k)] else []) + (if trims then [Trim] else []);
            var freed := if here then Freed(down, k) else down;
      && FitAll(down, size, turns)
      && AfterAll(down, size, turns) == if trims then DropFree(freed) else freed
  {
    var turns := (if here then [Give(k)] else []) + (if trims then [Trim] else []);
    if here {
      assert turns[1..] == if trims then [Trim] else [];
    }
    assert [Trim][1..] == [];
  }

  /** The turns of a take: the tier trimmed where the gap refused it, and its cell laid where it landed there. */
  function TakeTurns(down': seq<Cell>, trims: bool, lays: bool): seq<Turn>
    requires lays ==> down' != []
  {
    (if trims then [Trim] else []) + (if lays then [Lay(down'[0])] else [])
  }

  lemma {:induction false} TurnsOfTake(down: seq<Cell>, down': seq<Cell>, size: nat, trims: bool, lays: bool)
    requires lays ==> down' != []
    requires (if lays then down'[1..] else down') == if trims then DropFree(down) else down
    ensures FitAll(down, size, TakeTurns(down', trims, lays))
    ensures AfterAll(down, size, TakeTurns(down', trims, lays)) == down'
  {
    var turns := TakeTurns(down', trims, lays);
    var last := if lays then [Lay(down'[0])] else [];
    var clear := if trims then DropFree(down) else down;
    if lays {
      assert [down'[0]] + down'[1..] == down' && last[1..] == [];
    }
    assert FitAll(clear, size, last) && AfterAll(clear, size, last) == down';
    if trims {
      assert turns == [Trim] + last && turns[1..] == last;
    } else {
      assert turns == last;
    }
  }

  /** A growth is one turn of the tier whose newest cell it grows. */
  lemma {:induction false} TurnsOfGrowth(down: seq<Cell>, size: nat, c: Cell)
    requires down != [] && c.size > down[0].size
    ensures FitAll(down, size, [Grow(c)]) && AfterAll(down, size, [Grow(c)]) == With(down, 0, c)
  {
    assert [Grow(c)][1..] == [];
  }

  /** A word that is no cell's header tiles nothing from there on. */
  lemma {:induction false} NoHeader(m: seq<int>, at: nat, cells: seq<Cell>)
    requires at < |m| && m[at] == 0 && Lays(m, at, cells)
    ensures cells == []
  {
  }
}
