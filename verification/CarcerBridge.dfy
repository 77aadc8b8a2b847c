/** The protocol and the block behind it joined: a drained writer is handed the block its methods start from, and what
    they leave is what the protocol's writer leaves. */
module CarcerBridge {
  import opened CarcerBounds
  import opened CarcerCells
  import opened CarcerTiers
  import opened CarcerGrants
  import opened CarcerHeap
  import opened CarcerPasses

  /** A block over the words of a state of the protocol. */
  ghost predicate Over(series: SeriesCellularum, c: Config, s: State)
    reads series, series.base
  {
    && series.cfg == c && series.base != series.table && series.grain >= 1
    && c.size == series.base.Length && c.half < SIZE_MAX && series.table.Length == s.owners
    && series.base[..] == s.mem
    && series.bounds == s.word && series.overEnd == s.overEnd && series.overTop == s.overTop
  }

  /** In every run, a writer whose drain is over stands before a block its methods may start on: both tiers tile its
      memory as they were granted and laid, and its boundaries are displaced by its overruns. */
  lemma {:induction false} HandsOver(series: SeriesCellularum, c: Config, k: nat, states: seq<State>, who: seq<nat>,
                                     acts: seq<Action>, n: nat, i: nat)
    requires Bounded(c, k) && Runs(c, k, states, who, acts) && n < |states|
    requires i < |states[n].ctx| && states[n].ctx[i].pc.Draining? && states[n].ctx[i].pc.waiting == {}
    requires Over(series, c, states[n])
    ensures Worded(c, states[n])
    ensures series.persistent == UpCells(c, states[n]) && series.temporary == DownCells(c, states[n]) ==>
        series.Displaced()
  {
    hide Worded, Tilings, Displaces, Span, Runs, Extents;
    DrainedDisplaced(c, k, states, who, acts, n, i);
  }

  /** And a block at rest is what the writer may leave: the protocol goes on from its words. */
  lemma {:induction false} HandsBack(series: SeriesCellularum, c: Config, k: nat, s: State, i: nat)
    requires Inv(c, k, s) && i < |s.ctx| && s.ctx[i].pc.Alone?
    requires series.cfg == c && series.table.Length == s.owners && series.Valid()
    ensures var act := Write(series.base[..], series.persistent, series.temporary);
      && Enabled(c, s, i, act)
      && var s' := Do(c, s, i, act);
      && Inv(c, k, s') && Over(series, c, s')
      && UpCells(c, s') == series.persistent && DownCells(c, s') == series.temporary
  {
    hide Balanced, Worded, Tilings, Word, Span, Extents, GrantsOf, Cells;
    var act := Write(series.base[..], series.persistent, series.temporary);
    TilingsReads(series.base[..], series.persistent, series.temporary, s.owners);
    StepKeeps(c, k, s, i, act);
    AloneOwes(c, s, i);
    LaysStand(series.base[..], 0, series.persistent, s.owners);
    LaysStand(series.base[..], series.Start(), series.temporary, s.owners);
  }

  lemma {:induction false} AloneOwes(c: Config, s: State, i: nat)
    requires Balanced(c, s) && Excluding(s) && i < |s.ctx| && s.ctx[i].pc.Alone?
    ensures s.overEnd == 0 && s.overTop == 0
  {
    assert Writes(s.ctx[i]);
  }
}
