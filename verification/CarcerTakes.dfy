/** One take by bumps, from the pass it enters to the cell it lays: what it asked for at its enter is what it is granted
    and what its words read, in every interleaving. */
module CarcerTakes {
  import opened CarcerBounds
  import opened CarcerCells
  import opened CarcerGrants
  import opened CarcerPasses
  import opened CarcerTiers

  // ---- a pass told by its own steps -------------------------------------------------------------------------

  /** The steps of a pass a take is told by. */
  datatype Kind = Enters | ReadsClosed | ReadsAhead | Bumps | LaysOwner | Otherwise

  function KindOf(act: Action): Kind {
    match act
    case Enter(_, _, _, _) => Enters
    case ReadClosed => ReadsClosed
    case ReadAhead => ReadsAhead
    case Bump => Bumps
    case LayOwner(_) => LaysOwner
    case _ => Otherwise
  }

  /** A context's latest step of a kind before the n-th of the run, below zero where it took none. */
  function Latest(who: seq<nat>, acts: seq<Action>, i: nat, n: nat, kind: Kind): (m: int)
    requires n <= |who| == |acts|
    ensures -1 <= m < n && (m >= 0 ==> who[m] == i && KindOf(acts[m]) == kind)
    ensures forall j :: m < j < n && who[j] == i ==> KindOf(acts[j]) != kind
  {
    if n == 0 then -1
    else if who[n - 1] == i && KindOf(acts[n - 1]) == kind then n - 1
    else Latest(who, acts, i, n - 1, kind)
  }

  /** Whether a pass entered at `e` that read the closed bit at `r` is permitted: its lane claimed, the bit clear. */
  predicate PermittedBy(states: seq<State>, acts: seq<Action>, e: int, r: int)
    requires 0 <= e < |acts| && 0 <= r < |states|
  {
    acts[e].Enter? && acts[e].got && !states[r].closed
  }

  /** What a pass bumps by: a cell of the want it entered with, where it is permitted and both the want and the end read
      ahead are within their bounds, else nothing. */
  function NeedBy(c: Config, states: seq<State>, acts: seq<Action>, e: int, r: int, a: int): nat
    requires c.half > 0 && 0 <= e < |acts| && acts[e].Enter? && 0 <= r < |states| && 0 <= a < |states|
  {
    if PermittedBy(states, acts, e, r) && acts[e].want <= c.wantMost
       && (acts[e].down || EndOf(c, states[a].word) <= BytesMost(c))
    then c.header + acts[e].want else 0
  }

  /** A pass not yet past its bump, told by its own steps before. */
  ghost predicate ToldReady(c: Config, states: seq<State>, who: seq<nat>, acts: seq<Action>, i: nat, n: nat, x: Context)
    requires c.half > 0 && n < |states| == |who| + 1 == |acts| + 1
  {
    var e, r, a, b :=
      Latest(who, acts, i, n, Enters), Latest(who, acts, i, n, ReadsClosed), Latest(who, acts, i, n, ReadsAhead),
      Latest(who, acts, i, n, Bumps);
    match x.pc
    case Entered(want, down, place) => e >= 0 && r < e && a < e && b < e && acts[e] == Enter(x.lane, want, down, place)
    case Admitted(permit, want, down, place) =>
      0 <= e < r && a < e && b < e && acts[e] == Enter(acts[e].got, want, down, place)
      && permit == PermittedBy(states, acts, e, r)
    case Ready(permit, need, down, place) =>
      0 <= e < r < a && acts[e] == Enter(acts[e].got, acts[e].want, down, place)
      && permit == PermittedBy(states, acts, e, r) && need == NeedBy(c, states, acts, e, r, a)
    case _ => true
  }

  /** A pass past its bump: what it was granted or refused there it still has. */
  ghost predicate ToldBumped(c: Config, states: seq<State>, who: seq<nat>, acts: seq<Action>, i: nat, n: nat,
                             x: Context)
    requires n < |states| == |who| + 1 == |acts| + 1
  {
    var e, b, l := Latest(who, acts, i, n, Enters), Latest(who, acts, i, n, Bumps), Latest(who, acts, i, n, LaysOwner);
    match x.pc
    case Bumped(_, _, _, _, _, _) => 0 <= e < b && BumpedAs(states, b, i, x.pc)
    case Recorded(permit, need, taken, down, place, off) =>
      0 <= e < b && BumpedAs(states, b, i, Pc.Bumped(permit, need, taken, down, place, off))
    case Laying(permit, need, taken, down, place, off, owner) =>
      0 <= e < b < l && BumpedAs(states, b, i, Pc.Bumped(permit, need, taken, down, place, off))
      && acts[l].LayOwner? && owner == OwnerWord(place, acts[l].stamp)
    case Done(permit, taken) =>
      && 0 <= e && (b < e ==> taken)
      && (b > e ==> b < |states| - 1 && i < |states[b + 1].ctx| && states[b + 1].ctx[i].pc.Bumped?
                    && states[b + 1].ctx[i].pc.permit == permit && states[b + 1].ctx[i].pc.taken == taken)
    case _ => true
  }

  /** Where a context stood right after its bump. */
  predicate BumpedAs(states: seq<State>, b: int, i: nat, pc: Pc) {
    0 <= b < |states| - 1 && i < |states[b + 1].ctx| && states[b + 1].ctx[i].pc == pc
  }

  /** Another context's step leaves a pass where it is. */
  lemma {:induction false} OtherStands(c: Config, s: State, j: nat, act: Action, i: nat)
    requires Enabled(c, s, j, act) && c.half > 0 && c.header + c.wantMost < c.half && i < |s.ctx|
    requires s.ctx[j].pc.Ready? ==> s.ctx[j].pc.need < c.half
    requires i != j || act.Hold?
    ensures |Do(c, s, j, act).ctx| == |s.ctx| && Do(c, s, j, act).ctx[i].lane == s.ctx[i].lane
    ensures Do(c, s, j, act).ctx[i].pc == s.ctx[i].pc || Do(c, s, j, act).ctx[i].pc.Draining?
  {
    hide EndOf, TopOf, FetchAdd, Moved, InPayload, CarcerBounds.Fits, Replaced, Tilings, Extents, SettledWord;
  }

  /** A context's own step in a pass, as it moves the pass on. */
  predicate MovesOn(c: Config, s: State, act: Action, x: Context, y: Context)
    requires c.half > 0
  {
    match y.pc
    case Entered(_, _, _) => act.Enter? && y.lane == act.got && y.pc == Entered(act.want, act.down, act.place)
    case Admitted(_, _, _, _) =>
      act.ReadClosed? && x.pc.Entered? && y.pc == Admitted(x.lane && !s.closed, x.pc.want, x.pc.down, x.pc.place)
    case Ready(_, _, _, _) =>
      act.ReadAhead? && x.pc.Admitted? && (
        var within := x.pc.want <= c.wantMost && (x.pc.down || EndOf(c, s.word) <= BytesMost(c));
        var need := if x.pc.permit && within then c.header + x.pc.want else 0;
        y.pc == Ready(x.pc.permit, need, x.pc.down, x.pc.place))
    case Bumped(_, _, _, _, _, _) => act.Bump? && x.pc.Ready?
    case Recorded(_, _, _, _, _, _) =>
      act.Record? && x.pc.Bumped?
      && y.pc == Recorded(x.pc.permit, x.pc.need, x.pc.taken, x.pc.down, x.pc.place, x.pc.off)
    case Laying(_, _, _, _, _, _, _) =>
      act.LayOwner? && x.pc.Recorded?
      && y.pc == Laying(x.pc.permit, x.pc.need, x.pc.taken, x.pc.down, x.pc.place, x.pc.off,
                        OwnerWord(x.pc.place, act.stamp))
    case Done(_, _) =>
      || (act.LayHeader? && x.pc.Laying? && y.pc == Done(x.pc.permit, x.pc.taken))
      || (act.Read? && x.pc.Admitted? && y.pc == Done(x.pc.permit, true))
    case _ => true
  }

  lemma {:induction false} OwnMovesOn(c: Config, s: State, i: nat, act: Action)
    requires Enabled(c, s, i, act) && c.half > 0 && c.header + c.wantMost < c.half && !act.Hold?
    requires s.ctx[i].pc.Ready? ==> s.ctx[i].pc.need < c.half
    ensures |Do(c, s, i, act).ctx| == |s.ctx| && MovesOn(c, s, act, s.ctx[i], Do(c, s, i, act).ctx[i])
  {
    hide EndOf, TopOf, FetchAdd, Moved, InPayload, CarcerBounds.Fits, Replaced, Tilings, Extents, SettledWord,
         OwnerWord;
  }

  /** Steps that are another context's, or none of a pass's, leave what a pass is told by. */
  lemma {:induction false} LatestStands(who: seq<nat>, acts: seq<Action>, i: nat, n: nat, kind: Kind)
    requires n < |who| == |acts| && !(who[n] == i && KindOf(acts[n]) == kind)
    ensures Latest(who, acts, i, n + 1, kind) == Latest(who, acts, i, n, kind)
  {
  }

  lemma {:induction false} LatestIs(who: seq<nat>, acts: seq<Action>, i: nat, n: nat, kind: Kind)
    requires n < |who| == |acts| && who[n] == i && KindOf(acts[n]) == kind
    ensures Latest(who, acts, i, n + 1, kind) == n
  {
  }

  lemma {:induction false} ReadyStands(c: Config, states: seq<State>, who: seq<nat>, acts: seq<Action>, i: nat, n: nat,
                                       x: Context, y: Context)
    requires c.half > 0 && n + 1 < |states| == |who| + 1 == |acts| + 1
    requires who[n] != i || KindOf(acts[n]) == Otherwise
    requires y.pc == x.pc && y.lane == x.lane && ToldReady(c, states, who, acts, i, n, x)
    ensures ToldReady(c, states, who, acts, i, n + 1, y)
  {
    hide Latest, NeedBy, PermittedBy, KindOf;
    LatestStands(who, acts, i, n, Enters);
    LatestStands(who, acts, i, n, ReadsClosed);
    LatestStands(who, acts, i, n, ReadsAhead);
    LatestStands(who, acts, i, n, Bumps);
  }

  lemma {:induction false} BumpedStands(c: Config, states: seq<State>, who: seq<nat>, acts: seq<Action>, i: nat, n: nat,
                                        x: Context, y: Context)
    requires n + 1 < |states| == |who| + 1 == |acts| + 1
    requires who[n] != i || KindOf(acts[n]) == Otherwise
    requires y.pc == x.pc && ToldBumped(c, states, who, acts, i, n, x)
    ensures ToldBumped(c, states, who, acts, i, n + 1, y)
  {
    hide Latest, BumpedAs, OwnerWord, KindOf;
    LatestStands(who, acts, i, n, Enters);
    LatestStands(who, acts, i, n, Bumps);
    LatestStands(who, acts, i, n, LaysOwner);
  }

  lemma {:induction false} ReadyTold(c: Config, states: seq<State>, who: seq<nat>, acts: seq<Action>, i: nat, n: nat,
                                     x: Context, y: Context)
    requires c.half > 0 && n + 1 < |states| == |who| + 1 == |acts| + 1 && who[n] == i
    requires MovesOn(c, states[n], acts[n], x, y)
    requires ToldReady(c, states, who, acts, i, n, x)
    ensures ToldReady(c, states, who, acts, i, n + 1, y)
  {
    hide Latest, EndOf;
    if acts[n].Enter? {
      LatestIs(who, acts, i, n, Enters);
    } else {
      LatestStands(who, acts, i, n, Enters);
    }
    if acts[n].ReadClosed? {
      LatestIs(who, acts, i, n, ReadsClosed);
    } else {
      LatestStands(who, acts, i, n, ReadsClosed);
    }
    if acts[n].ReadAhead? {
      LatestIs(who, acts, i, n, ReadsAhead);
    } else {
      LatestStands(who, acts, i, n, ReadsAhead);
    }
    if !acts[n].Bump? {
      LatestStands(who, acts, i, n, Bumps);
    }
  }

  lemma {:induction false} BumpTold(c: Config, states: seq<State>, who: seq<nat>, acts: seq<Action>, i: nat, n: nat,
                                   x: Context, y: Context)
    requires c.half > 0 && n + 1 < |states| == |who| + 1 == |acts| + 1 && who[n] == i
    requires MovesOn(c, states[n], acts[n], x, y) && i < |states[n + 1].ctx| && states[n + 1].ctx[i] == y
    requires ToldReady(c, states, who, acts, i, n, x) && ToldBumped(c, states, who, acts, i, n, x) && y.pc.Bumped?
    ensures ToldBumped(c, states, who, acts, i, n + 1, y)
  {
    hide Latest, EndOf, NeedBy, PermittedBy, OwnerWord;
    LatestIs(who, acts, i, n, Bumps);
    LatestStands(who, acts, i, n, Enters);
  }

  lemma {:induction false} RecordTold(c: Config, states: seq<State>, who: seq<nat>, acts: seq<Action>, i: nat, n: nat,
                                     x: Context, y: Context)
    requires c.half > 0 && n + 1 < |states| == |who| + 1 == |acts| + 1 && who[n] == i
    requires MovesOn(c, states[n], acts[n], x, y) && i < |states[n + 1].ctx| && states[n + 1].ctx[i] == y
    requires ToldReady(c, states, who, acts, i, n, x) && ToldBumped(c, states, who, acts, i, n, x) && y.pc.Recorded?
    ensures ToldBumped(c, states, who, acts, i, n + 1, y)
  {
    hide Latest, EndOf, NeedBy, PermittedBy, OwnerWord;
    LatestStands(who, acts, i, n, Enters);
    LatestStands(who, acts, i, n, Bumps);
  }

  lemma {:induction false} LayTold(c: Config, states: seq<State>, who: seq<nat>, acts: seq<Action>, i: nat, n: nat,
                                  x: Context, y: Context)
    requires c.half > 0 && n + 1 < |states| == |who| + 1 == |acts| + 1 && who[n] == i
    requires MovesOn(c, states[n], acts[n], x, y) && i < |states[n + 1].ctx| && states[n + 1].ctx[i] == y
    requires ToldReady(c, states, who, acts, i, n, x) && ToldBumped(c, states, who, acts, i, n, x) && y.pc.Laying?
    ensures ToldBumped(c, states, who, acts, i, n + 1, y)
  {
    hide Latest, EndOf, NeedBy, PermittedBy, OwnerWord;
    LatestIs(who, acts, i, n, LaysOwner);
    LatestStands(who, acts, i, n, Enters);
    LatestStands(who, acts, i, n, Bumps);
  }

  lemma {:induction false} DoneTold(c: Config, states: seq<State>, who: seq<nat>, acts: seq<Action>, i: nat, n: nat,
                                   x: Context, y: Context)
    requires c.half > 0 && n + 1 < |states| == |who| + 1 == |acts| + 1 && who[n] == i
    requires MovesOn(c, states[n], acts[n], x, y) && i < |states[n + 1].ctx| && states[n + 1].ctx[i] == y
    requires ToldReady(c, states, who, acts, i, n, x) && ToldBumped(c, states, who, acts, i, n, x) && y.pc.Done?
    ensures ToldBumped(c, states, who, acts, i, n + 1, y)
  {
    hide Latest, EndOf, NeedBy, PermittedBy, OwnerWord;
    LatestStands(who, acts, i, n, Enters);
    LatestStands(who, acts, i, n, Bumps);
  }

  lemma {:induction false} BumpedTold(c: Config, states: seq<State>, who: seq<nat>, acts: seq<Action>, i: nat, n: nat,
                                      x: Context, y: Context)
    requires c.half > 0 && n + 1 < |states| == |who| + 1 == |acts| + 1 && who[n] == i
    requires MovesOn(c, states[n], acts[n], x, y) && i < |states[n + 1].ctx| && states[n + 1].ctx[i] == y
    requires ToldReady(c, states, who, acts, i, n, x) && ToldBumped(c, states, who, acts, i, n, x)
    ensures ToldBumped(c, states, who, acts, i, n + 1, y)
  {
    hide MovesOn, ToldReady;
    match y.pc {
      case Bumped(_, _, _, _, _, _) => BumpTold(c, states, who, acts, i, n, x, y);
      case Recorded(_, _, _, _, _, _) => RecordTold(c, states, who, acts, i, n, x, y);
      case Laying(_, _, _, _, _, _, _) => LayTold(c, states, who, acts, i, n, x, y);
      case Done(_, _) => DoneTold(c, states, who, acts, i, n, x, y);
      case _ =>
    }
  }

  /** In every run every pass is told by its own steps. */
  lemma {:induction false} PassTold(c: Config, k: nat, states: seq<State>, who: seq<nat>, acts: seq<Action>, n: nat,
                                    i: nat)
    requires Bounded(c, k) && Runs(c, k, states, who, acts) && n < |states| && i < k
    ensures |states[n].ctx| == k
    ensures ToldReady(c, states, who, acts, i, n, states[n].ctx[i])
    ensures ToldBumped(c, states, who, acts, i, n, states[n].ctx[i])
    decreases n
  {
    hide Inv, Do, Enabled, ToldReady, ToldBumped, MovesOn;
    RunKeeps(c, k, states, who, acts, n);
    SizedBy(c, k, states[n]);
    if n == 0 {
      StartTold(c, k, states, who, acts, i);
    } else {
      PassTold(c, k, states, who, acts, n - 1, i);
      var s, j, act := states[n - 1], who[n - 1], acts[n - 1];
      assert Stepped(c, s, j, act, states[n]);
      if j != i || act.Hold? {
        OtherStands(c, s, j, act, i);
        if states[n].ctx[i].pc.Draining? {
          DrainingTold(c, states, who, acts, i, n, states[n].ctx[i]);
        } else {
          ReadyStands(c, states, who, acts, i, n - 1, s.ctx[i], states[n].ctx[i]);
          BumpedStands(c, states, who, acts, i, n - 1, s.ctx[i], states[n].ctx[i]);
        }
      } else {
        OwnMovesOn(c, s, i, act);
        ReadyTold(c, states, who, acts, i, n - 1, s.ctx[i], states[n].ctx[i]);
        BumpedTold(c, states, who, acts, i, n - 1, s.ctx[i], states[n].ctx[i]);
      }
    }
  }

  lemma {:induction false} StartTold(c: Config, k: nat, states: seq<State>, who: seq<nat>, acts: seq<Action>, i: nat)
    requires Runs(c, k, states, who, acts) && i < k
    ensures |states[0].ctx| == k
    ensures ToldReady(c, states, who, acts, i, 0, states[0].ctx[i])
    ensures ToldBumped(c, states, who, acts, i, 0, states[0].ctx[i])
  {
  }

  lemma {:induction false} DrainingTold(c: Config, states: seq<State>, who: seq<nat>, acts: seq<Action>, i: nat, n: nat,
                                        x: Context)
    requires c.half > 0 && n < |states| == |who| + 1 == |acts| + 1 && x.pc.Draining?
    ensures ToldReady(c, states, who, acts, i, n, x) && ToldBumped(c, states, who, acts, i, n, x)
  {
  }

  lemma {:induction false} SizedBy(c: Config, k: nat, s: State)
    requires Inv(c, k, s)
    ensures |s.ctx| == k
  {
  }

  // ---- what is owed, told by the bumps refused --------------------------------------------------------------

  /** The m-th step is a bump refused what it asked for. */
  predicate RefusedAt(states: seq<State>, who: seq<nat>, acts: seq<Action>, m: nat) {
    && m < |who| && |states| == |who| + 1 == |acts| + 1 && acts[m].Bump? && who[m] < |states[m + 1].ctx|
    && var pc := states[m + 1].ctx[who[m]].pc;
       pc.Bumped? && !pc.taken && pc.need > 0
  }

  /** A bump was refused before the n-th step, and no writer has settled since. */
  ghost predicate RefusedSince(states: seq<State>, who: seq<nat>, acts: seq<Action>, n: nat)
    requires n <= |acts|
  {
    exists m: nat :: m < n && RefusedAt(states, who, acts, m) && NoneSettled(acts, m, n)
  }

  predicate NoneSettled(acts: seq<Action>, m: nat, n: nat)
    requires n <= |acts|
  {
    forall j :: m < j < n ==> !acts[j].Settle?
  }

  /** Whether anything is owed. */
  predicate Owing(s: State) {
    Total(s.ctx, OwesEnd) + Total(s.ctx, OwesTop) > 0
  }

  lemma {:induction false} RefusedStands(states: seq<State>, who: seq<nat>, acts: seq<Action>, n: nat)
    requires n < |acts|
    ensures RefusedSince(states, who, acts, n + 1)
       <==> RefusedAt(states, who, acts, n) || (!acts[n].Settle? && RefusedSince(states, who, acts, n))
  {
    hide RefusedAt;
    if RefusedAt(states, who, acts, n) {
      assert NoneSettled(acts, n, n + 1);
    }
    if !acts[n].Settle? && RefusedSince(states, who, acts, n) {
      var m: nat :| m < n && RefusedAt(states, who, acts, m) && NoneSettled(acts, m, n);
      assert NoneSettled(acts, m, n + 1);
    }
    if RefusedSince(states, who, acts, n + 1) {
      var m: nat :| m < n + 1 && RefusedAt(states, who, acts, m) && NoneSettled(acts, m, n + 1);
      if m < n {
        assert NoneSettled(acts, m, n);
      }
    }
  }

  /** What a step that is no bump makes of what is owed. */
  lemma {:induction false} OwingStands(c: Config, k: nat, s: State, i: nat, act: Action)
    requires Inv(c, k, s) && Enabled(c, s, i, act) && !act.Bump?
    ensures s.ctx[i].pc.Ready? ==> s.ctx[i].pc.need < c.half
    ensures Owing(Do(c, s, i, act)) <==> Owing(s) && !act.Settle?
  {
    hide Total, Extents, Worded, EndOf, TopOf, Do, Balanced;
    assert Sane(c, s.ctx[i]);
    var s' := Do(c, s, i, act);
    if act.Settle? {
      SettleClears(c, s, i);
    } else if act.Write? {
      WriteLeaves(c, s, i, act);
    } else {
      StepFrames(c, s, i, act);
      TotalSame(s.ctx, s'.ctx, OwesEnd);
      TotalSame(s.ctx, s'.ctx, OwesTop);
    }
  }

  lemma {:induction false} SettleClears(c: Config, s: State, i: nat)
    requires Enabled(c, s, i, Settle) && c.half > 0 && c.header + c.wantMost < c.half
    ensures !Owing(Do(c, s, i, Settle))
  {
    hide EndOf, TopOf, Word;
    TotalZero(Do(c, s, i, Settle).ctx, OwesEnd);
    TotalZero(Do(c, s, i, Settle).ctx, OwesTop);
  }

  lemma {:induction false} WriteLeaves(c: Config, s: State, i: nat, act: Action)
    requires Enabled(c, s, i, act) && act.Write? && c.half > 0 && c.header + c.wantMost < c.half
    ensures Do(c, s, i, act).ctx == s.ctx
  {
    hide Tilings, Word, Span, GrantsOf;
  }

  /** What a bump makes of what is owed: its own need more, where it is refused. */
  lemma {:induction false} BumpOwes(c: Config, k: nat, s: State, i: nat)
    requires Inv(c, k, s) && Enabled(c, s, i, Bump)
    ensures s.ctx[i].pc.need < c.half
    ensures var pc := DoBump(c, s, i).ctx[i].pc;
      Owing(DoBump(c, s, i)) <==> Owing(s) || (!pc.taken && pc.need > 0)
  {
    hide Total, Extents, Worded, EndOf, TopOf, Balanced, CarcerBounds.Fits, FetchAdd, Moved;
    assert Sane(c, s.ctx[i]);
    BumpTotals(c, s, i);
    assert forall j :: 0 <= j < |s.ctx| ==> Sane(c, s.ctx[j]);
    TotalMost(c, s.ctx);
  }

  /** In every run something is owed exactly where a bump was refused and no writer has settled since. */
  lemma {:induction false} OwingTold(c: Config, k: nat, states: seq<State>, who: seq<nat>, acts: seq<Action>, n: nat)
    requires Bounded(c, k) && Runs(c, k, states, who, acts) && n < |states|
    ensures Owing(states[n]) <==> RefusedSince(states, who, acts, n)
  {
    hide Inv, Do, Enabled, Owing, Total, RefusedSince;
    if n == 0 {
      StartOwes(c, k, states, who, acts);
    } else {
      OwingTold(c, k, states, who, acts, n - 1);
      RunKeeps(c, k, states, who, acts, n - 1);
      var s, i, act := states[n - 1], who[n - 1], acts[n - 1];
      assert Stepped(c, s, i, act, states[n]);
      RefusedStands(states, who, acts, n - 1);
      if act.Bump? {
        BumpOwes(c, k, s, i);
        BumpIs(c, s, i);
        assert states[n] == DoBump(c, s, i) && states[n - 1 + 1] == states[n];
        assert RefusedAt(states, who, acts, n - 1) <==> !states[n].ctx[i].pc.taken && states[n].ctx[i].pc.need > 0;
      } else {
        OwingStands(c, k, s, i, act);
      }
    }
  }

  lemma {:induction false} BumpIs(c: Config, s: State, i: nat)
    requires Enabled(c, s, i, Bump) && c.half > 0 && c.header + c.wantMost < c.half && s.ctx[i].pc.need < c.half
    ensures i < |s.ctx| && s.ctx[i].pc.Ready?
    ensures Do(c, s, i, Bump) == DoBump(c, s, i) && |DoBump(c, s, i).ctx| == |s.ctx|
    ensures DoBump(c, s, i).ctx[i].pc.Bumped?
  {
    hide CarcerBounds.Fits, FetchAdd, Moved, EndOf, TopOf;
  }

  lemma {:induction false} StartOwes(c: Config, k: nat, states: seq<State>, who: seq<nat>, acts: seq<Action>)
    requires Runs(c, k, states, who, acts)
    ensures !Owing(states[0]) && !RefusedSince(states, who, acts, 0)
  {
    TotalZero(states[0].ctx, OwesEnd);
    TotalZero(states[0].ctx, OwesTop);
  }

  // ---- what a take can rely on ------------------------------------------------------------------------------

  /** The room test passes where nothing is owed and the gap holds the need, and nowhere else. */
  lemma {:induction false} BumpMet(c: Config, k: nat, s: State, i: nat)
    requires Inv(c, k, s) && Enabled(c, s, i, Bump)
    ensures s.ctx[i].pc.need < c.half
    ensures var need := s.ctx[i].pc.need;
      DoBump(c, s, i).ctx[i].pc.taken <==> need > 0 && !Owing(s) && End(s) + need <= Top(c, s)
  {
    hide Total, Extents, EndOf, TopOf, FetchAdd, Moved, Worded, Excluding;
    assert Sane(c, s.ctx[i]);
    if s.ctx[i].pc.need > 0 {
      BumpReads(c, k, s, i);
      if CarcerBounds.Fits(c, EndOf(c, s.word), TopOf(c, s.word), s.ctx[i].pc.down, s.ctx[i].pc.need) {
        OwedRefuses(c, k, s, i);
      }
    }
  }

  /** In every run, a bump is granted if and only if its pass entered with a lane and then read the closed bit clear,
      asked for no more than a bump may, found the end inside the block's bound where it takes upward, no bump was
      refused since the last settle, and the gap holds the cell asked for. Granted, its tier, the one it entered for,
      gains at the gap one cell of exactly the want it entered with, and nothing else of either tier changes; refused,
      neither does. */
  lemma {:induction false} TakeGranted(c: Config, k: nat, states: seq<State>, who: seq<nat>, acts: seq<Action>, n: nat)
    requires Bounded(c, k) && Runs(c, k, states, who, acts) && n < |who| && acts[n].Bump?
    ensures var i := who[n];
      var e, r, a :=
        Latest(who, acts, i, n, Enters), Latest(who, acts, i, n, ReadsClosed), Latest(who, acts, i, n, ReadsAhead);
      && 0 <= e < r < a && acts[e].Enter? && i < |states[n + 1].ctx| && states[n + 1].ctx[i].pc.Bumped?
      && var want, down, s, s' := acts[e].want, acts[e].down, states[n], states[n + 1];
      var g := Grant(HDR + want, i, Bare, true, 0);
      && s'.ctx[i].pc.down == down && s'.ctx[i].pc.place == acts[e].place
      && var asks := acts[e].got && !states[r].closed && want <= c.wantMost
                  && (down || EndOf(c, states[a].word) <= BytesMost(c));
      && s'.ctx[i].pc.need == (if asks then HDR + want else 0)
      && (s'.ctx[i].pc.taken <==>
            && asks && !RefusedSince(states, who, acts, n)
            && End(s) + HDR + want <= Top(c, s))
      && s'.up == (if s'.ctx[i].pc.taken && !down then s.up + [g] else s.up)
      && s'.down == (if s'.ctx[i].pc.taken && down then [g] + s.down else s.down)
  {
    hide Inv, Owing, Total, RefusedSince, Extents, Latest, EndOf, TopOf, FetchAdd, Moved, CarcerBounds.Fits;
    var s, i := states[n], who[n];
    assert Stepped(c, s, i, acts[n], states[n + 1]);
    RunKeeps(c, k, states, who, acts, n);
    SizedBy(c, k, s);
    PassTold(c, k, states, who, acts, n, i);
    OwingTold(c, k, states, who, acts, n);
    BumpMet(c, k, s, i);
  }

  lemma {:induction false} LatestBefore(who: seq<nat>, acts: seq<Action>, i: nat, b: nat, n: nat, kind: Kind)
    requires n <= |who| == |acts| && Latest(who, acts, i, n, kind) < b <= n
    ensures Latest(who, acts, i, b, kind) == Latest(who, acts, i, n, kind)
    decreases n
  {
    if b < n {
      LatestBefore(who, acts, i, b, n - 1, kind);
    }
  }

  /** What a take lays is what its bump was granted, and what that was of what it entered with. */
  lemma {:induction false} LaidTold(c: Config, k: nat, states: seq<State>, who: seq<nat>, acts: seq<Action>, n: nat)
    requires Bounded(c, k) && Runs(c, k, states, who, acts) && n < |who| && acts[n].LayHeader?
    ensures var i := who[n];
      var e, b := Latest(who, acts, i, n, Enters), Latest(who, acts, i, n, Bumps);
      var l := Latest(who, acts, i, n, LaysOwner);
      && 0 <= e < b < l && acts[e].Enter? && acts[l].LayOwner? && i < |states[b + 1].ctx| && i < |states[n].ctx|
      && states[b + 1].ctx[i].pc.Bumped?
      && var p, q := states[n].ctx[i].pc, states[b + 1].ctx[i].pc;
      && p == Laying(q.permit, q.need, q.taken, acts[e].down, acts[e].place, q.off,
                     OwnerWord(acts[e].place, acts[l].stamp))
      && q.down == acts[e].down && (q.taken ==> q.need == HDR + acts[e].want)
  {
    hide Inv, Do, Latest, RefusedSince, NeedBy, OwnerWord, EndOf, Extents;
    var s, i := states[n], who[n];
    assert Stepped(c, s, i, acts[n], states[n + 1]);
    RunKeeps(c, k, states, who, acts, n);
    SizedBy(c, k, s);
    PassTold(c, k, states, who, acts, n, i);
    var e, b := Latest(who, acts, i, n, Enters), Latest(who, acts, i, n, Bumps);
    LatestBefore(who, acts, i, b, n, Enters);
    TakeGranted(c, k, states, who, acts, b);
  }

  /** The header store of a cell granted: its two words stand. */
  lemma {:induction false} HeaderLaid(c: Config, k: nat, s: State, i: nat)
    requires Inv(c, k, s) && Enabled(c, s, i, LayHeader) && s.ctx[i].pc.taken
    ensures c.half > 0 && c.header + c.wantMost < c.half
    ensures var p, s' := s.ctx[i].pc, Do(c, s, i, LayHeader);
      && HDR < p.need && p.off + p.need <= |s'.mem|
      && s'.mem[p.off] == Header(p.need - HDR, true) && s'.mem[p.off + p.need - 1] == p.owner
      && GrantAt(TierOf(s', p.down), BaseOf(c, s', p.down), p.off)
           == Some(Grant(p.need, i, Whole, true, p.owner))
  {
    hide Extents, Listed, CarcerPasses.Owned, IsComplete, PlaceOf, Balanced, Excluding;
    var p, s' := s.ctx[i].pc, Do(c, s, i, LayHeader);
    var g := Grant(p.need, i, Whole, true, p.owner);
    TaskLies(c, s, i);
    LaidWords(c, s, i, LayHeader);
    ReplacedAt(TierOf(s, p.down), BaseOf(c, s, p.down), p.off, g, p.off);
    GrantStored(s'.mem, TierOf(s', p.down), BaseOf(c, s', p.down), p.off);
  }

  /** Memory holds the words of a grant found at an offset. */
  lemma {:induction false} GrantStored(m: seq<int>, grants: seq<Grant>, at: nat, off: nat)
    requires Stands(m, at, grants) && GrantAt(grants, at, off).Some? && GrantAt(grants, at, off).value.words == Whole
    ensures var g := GrantAt(grants, at, off).value;
      && g.extent >= HDR + 1 && off + g.extent <= |m|
      && m[off] == Header(g.extent - HDR, g.busy) && m[off + g.extent - 1] == g.owner
    decreases |grants|
  {
    if off != at {
      GrantStored(m, grants[1..], at + grants[0].extent, off);
    }
  }

  /** In every run, a take whose bump was granted lays, by its header store, exactly the cell it asked for at its enter:
      in its own tier where the bump put it, its header reading the want, its owner word naming the place it entered
      with. */
  lemma {:induction false} TakeLaid(c: Config, k: nat, states: seq<State>, who: seq<nat>, acts: seq<Action>, n: nat)
    requires Bounded(c, k) && Runs(c, k, states, who, acts) && n < |who| && acts[n].LayHeader?
    ensures var i := who[n];
      var e, b := Latest(who, acts, i, n, Enters), Latest(who, acts, i, n, Bumps);
      var l := Latest(who, acts, i, n, LaysOwner);
      && 0 <= e < b < l && acts[e].Enter? && acts[l].LayOwner? && i < |states[b + 1].ctx|
      && states[b + 1].ctx[i].pc.Bumped?
      && var at, s' := states[b + 1].ctx[i].pc.off, states[n + 1];
      var want, owner := acts[e].want, OwnerWord(acts[e].place, acts[l].stamp);
      states[b + 1].ctx[i].pc.taken ==>
        && at + HDR + want <= |s'.mem|
        && s'.mem[at] == Header(want, true) && SizeOf(s'.mem[at]) == want && s'.mem[at + HDR + want - 1] == owner
        && !IsComplete(owner) && PlaceOf(owner) == acts[e].place
        && GrantAt(TierOf(s', acts[e].down), BaseOf(c, s', acts[e].down), at)
             == Some(Grant(HDR + want, i, Whole, true, owner))
  {
    hide Inv, Do, Enabled, Latest, Worded, GrantAt, Extents, OwnerWord, Header, IsComplete, PlaceOf;
    LaidTold(c, k, states, who, acts, n);
    var s, i := states[n], who[n];
    var e, b, l := Latest(who, acts, i, n, Enters), Latest(who, acts, i, n, Bumps), Latest(who, acts, i, n, LaysOwner);
    if states[b + 1].ctx[i].pc.taken {
      RunKeeps(c, k, states, who, acts, n);
      assert Stepped(c, s, i, acts[n], states[n + 1]);
      HeaderLaid(c, k, s, i);
      HeaderReads(acts[e].want, true);
      OwnerWordReads(acts[e].place, acts[l].stamp);
    }
  }

  /** In every run, a context that leaves a pass lets its lane go, and waits for the closed bit if and only if the pass
      was permitted and its bump was refused. */
  lemma {:induction false} TakeLeaves(c: Config, k: nat, states: seq<State>, who: seq<nat>, acts: seq<Action>, n: nat)
    requires Bounded(c, k) && Runs(c, k, states, who, acts) && n < |who| && acts[n].Leave?
    ensures var i := who[n];
      var e, b := Latest(who, acts, i, n, Enters), Latest(who, acts, i, n, Bumps);
      && 0 <= e && acts[e].Enter? && i < |states[n + 1].ctx| && !states[n + 1].ctx[i].lane
      && (b > e ==>
            && var r := Latest(who, acts, i, b, ReadsClosed);
            && e < r && i < |states[b + 1].ctx| && states[b + 1].ctx[i].pc.Bumped?
            && states[n + 1].ctx[i].pc
                 == if acts[e].got && !states[r].closed && !states[b + 1].ctx[i].pc.taken then Wants else Idle)
      && (b < e ==> states[n + 1].ctx[i].pc == Idle)
  {
    hide Inv, Do, Latest, RefusedSince, NeedBy, OwnerWord, EndOf, Extents;
    var s, i := states[n], who[n];
    assert Stepped(c, s, i, acts[n], states[n + 1]);
    RunKeeps(c, k, states, who, acts, n);
    SizedBy(c, k, s);
    PassTold(c, k, states, who, acts, n, i);
    LeftAs(c, k, s, i);
    var e, b := Latest(who, acts, i, n, Enters), Latest(who, acts, i, n, Bumps);
    if b > e {
      LatestBefore(who, acts, i, b, n, Enters);
      assert Stepped(c, states[b], i, acts[b], states[b + 1]);
      RunKeeps(c, k, states, who, acts, b);
      SizedBy(c, k, states[b]);
      PassTold(c, k, states, who, acts, b, i);
      BumpIs(c, states[b], i);
      BumpKeeps(c, states[b], i);
    }
  }

  lemma {:induction false} BumpKeeps(c: Config, s: State, i: nat)
    requires Enabled(c, s, i, Bump) && c.half > 0 && s.ctx[i].pc.need < c.half
    ensures var pc := DoBump(c, s, i).ctx[i].pc;
      pc.Bumped? && pc.permit == s.ctx[i].pc.permit
  {
    hide CarcerBounds.Fits, FetchAdd, Moved, EndOf, TopOf;
  }

  lemma {:induction false} LeftAs(c: Config, k: nat, s: State, i: nat)
    requires Inv(c, k, s) && Enabled(c, s, i, Leave)
    ensures c.half > 0 && c.header + c.wantMost < c.half && s.ctx[i].pc.Done?
    ensures var s' := Do(c, s, i, Leave);
      && |s'.ctx| == |s.ctx| && !s'.ctx[i].lane
      && s'.ctx[i].pc == if s.ctx[i].pc.permit && !s.ctx[i].pc.taken then Wants else Idle
  {
    hide Balanced, Worded, EndOf, TopOf;
    assert s.holder >= 0 ==> Writes(s.ctx[s.holder]);
  }
}
