/** Passes and writers over one cellblock: every interleaving of K contexts that bump the boundaries, record what was
    refused, lay the cells they were granted, close the cellblock, drain its passes, settle it and work alone.

    A step of one context is one atomic operation of locus_carcerum.c, and the memory the cells lie in is part of the
    state. Beside the machine words the state carries what the proof is about: the cells each tier has been granted, and
    what each context was refused since the last settle. */
module CarcerPasses {
  import opened CarcerBounds
  import opened CarcerCells
  import opened CarcerGrants
  import opened CarcerTiers
  import opened WordArithmetic

  datatype Pc =
    | Idle
      // a pass: badged in, the closed bit read, the word read ahead, the boundary bumped, the overrun recorded, the
      // owner word stored and then the header, done
    | Entered(want: nat, down: bool, place: nat)
    | Admitted(permit: bool, want: nat, down: bool, place: nat)
    | Ready(permit: bool, need: nat, down: bool, place: nat)
    | Bumped(permit: bool, need: nat, taken: bool, down: bool, place: nat, off: nat)
    | Recorded(permit: bool, need: nat, taken: bool, down: bool, place: nat, off: nat)
    | Laying(permit: bool, need: nat, taken: bool, down: bool, place: nat, off: nat, owner: int)
    | Done(permit: bool, taken: bool)
      // a writer: waiting for the bit, holding it, draining, settling, alone
    | Wants
    | Shut
    | Draining(waiting: set<nat>)
    | SettledBounds
    | SettledEnd
    | Alone

  /** One context: whether it holds a lane, where it stands, and what it was refused since the last settle. */
  datatype Context = Context(lane: bool, pc: Pc, owesEnd: nat, owesTop: nat)

  datatype State = State(word: nat, overEnd: nat, overTop: nat, closed: bool, holder: int, ctx: seq<Context>,
                         mem: seq<int>, owners: nat, up: seq<Grant>, down: seq<Grant>)

  /** Where the persistent chain ends and where the temporary chain starts. */
  function End(s: State): nat {
    Extents(s.up)
  }

  function Top(c: Config, s: State): int {
    c.size - Extents(s.down)
  }

  function Total(ctx: seq<Context>, f: Context -> int): int {
    if ctx == [] then 0 else f(ctx[0]) + Total(ctx[1..], f)
  }

  function OwesEnd(x: Context): int {
    x.owesEnd
  }

  function OwesTop(x: Context): int {
    x.owesTop
  }

  /** What a context was refused and has not recorded yet. */
  function PendingEnd(x: Context): int {
    if x.pc.Bumped? && !x.pc.taken && !x.pc.down then x.pc.need else 0
  }

  function PendingTop(x: Context): int {
    if x.pc.Bumped? && !x.pc.taken && x.pc.down then x.pc.need else 0
  }

  // ---- the steps --------------------------------------------------------------------------------------------

  datatype Action =
    | Enter(got: bool, want: nat, down: bool, place: nat)
    | ReadClosed
    | ReadAhead
    | Bump
    | Record
    | LayOwner(stamp: nat)
    | LayHeader
    | Read
    | Leave
    | Want
    | Trim
    | Close
    | Drain
    | Settle
    | ZeroEnd
    | ZeroTop
    | Write(mem: seq<int>, laidUp: seq<Cell>, laidDown: seq<Cell>)
    | Open
    | Hold(at: nat, word: int)

  ghost predicate Enabled(c: Config, s: State, i: nat, act: Action) {
    && i < |s.ctx|
    && var x := s.ctx[i];
    match act
    case Enter(_, want, _, place) => x.pc.Idle? && want >= 1 && 1 <= place <= s.owners
    case ReadClosed => x.pc.Entered?
    case ReadAhead => x.pc.Admitted?
    case Bump => x.pc.Ready?
    case Record => x.pc.Bumped?
    case LayOwner(_) => x.pc.Recorded?
    case LayHeader => x.pc.Laying?
    case Read => x.pc.Admitted?
    case Leave => x.pc.Done?
    case Want => x.pc.Idle?
    case Trim => x.pc.Idle?
    case Close => x.pc.Wants?
    case Drain => x.pc.Shut?
    case Settle => x.pc.Draining? && x.pc.waiting == {}
    case ZeroEnd => x.pc.SettledBounds?
    case ZeroTop => x.pc.SettledEnd?
    case Write(m, up, down) => x.pc.Alone? && |m| == c.size && Tilings(m, up, down, s.owners)
    case Open => x.pc.Alone?
    // a cell's holder, in whatever context and whenever
    case Hold(at, _) =>
      InPayload(s.up, 0, at) || (Top(c, s) >= 0 && InPayload(s.down, Top(c, s), at))
  }

  function Goes(s: State, i: nat, pc: Pc): State
    requires i < |s.ctx|
  {
    s.(ctx := s.ctx[i := s.ctx[i].(pc := pc)])
  }

  /** The word a settle stores: each boundary less its overrun, each in its half. */
  function SettledWord(c: Config, s: State): nat
    requires c.half > 0
  {
    Word(c, (EndOf(c, s.word) - s.overEnd) % c.half, (TopOf(c, s.word) + s.overTop) % c.half)
  }

  function Lanes(s: State): set<nat> {
    set j: nat | j < |s.ctx| && s.ctx[j].lane
  }

  /** A context that let its lane go, in no drain's way any more. */
  function Gone(x: Context, i: nat): Context {
    if x.pc.Draining? then x.(pc := Draining(x.pc.waiting - {i})) else x
  }

  /** The tier a pass takes from, and the offset its grants begin at. */
  function TierOf(s: State, down: bool): seq<Grant> {
    if down then s.down else s.up
  }

  function BaseOf(c: Config, s: State, down: bool): nat {
    if down && Top(c, s) >= 0 then Top(c, s) else 0
  }

  /** A state with one word of a granted cell stored and the cell told further on. */
  function WordStored(c: Config, s: State, down: bool, off: nat, g: Grant, at: nat, word: int): State
    requires at < |s.mem|
  {
    var after := Replaced(TierOf(s, down), BaseOf(c, s, down), off, g);
    s.(mem := s.mem[at := word], up := if down then s.up else after, down := if down then after else s.down)
  }

  /** One context's step. */
  ghost function Do(c: Config, s: State, i: nat, act: Action): State
    requires Enabled(c, s, i, act) && c.half > 0 && c.header + c.wantMost < c.half
    requires s.ctx[i].pc.Ready? ==> s.ctx[i].pc.need < c.half
  {
    var x := s.ctx[i];
    match act
    case Enter(got, want, down, place) => s.(ctx := s.ctx[i := x.(lane := got, pc := Entered(want, down, place))])
    case ReadClosed => Goes(s, i, Admitted(x.lane && !s.closed, x.pc.want, x.pc.down, x.pc.place))
    case ReadAhead =>
      var within := x.pc.want <= c.wantMost && (x.pc.down || EndOf(c, s.word) <= BytesMost(c));
      Goes(s, i, Ready(x.pc.permit, if x.pc.permit && within then c.header + x.pc.want else 0, x.pc.down, x.pc.place))
    case Bump => DoBump(c, s, i)
    case Record =>
      var kept := if x.pc.taken then 0 else x.pc.need;
      Goes(s, i, Recorded(x.pc.permit, x.pc.need, x.pc.taken, x.pc.down, x.pc.place, x.pc.off))
        .(overEnd := s.overEnd + (if x.pc.down then 0 else kept),
          overTop := s.overTop + (if x.pc.down then kept else 0))
    case LayOwner(stamp) => DoLayOwner(c, s, i, stamp)
    case LayHeader => DoLayHeader(c, s, i)
    case Read => Goes(s, i, Done(x.pc.permit, true))
    case Leave =>
      var left := s.ctx[i := x.(lane := false, pc := if x.pc.permit && !x.pc.taken then Wants else Idle)];
      s.(ctx := if 0 <= s.holder < |left| then left[s.holder := Gone(left[s.holder], i)] else left)
    case Want => Goes(s, i, Wants)
    case Trim => if s.closed then s else Goes(s, i, Shut).(closed := true, holder := i)
    case Close => if s.closed then s else Goes(s, i, Shut).(closed := true, holder := i)
    case Drain => Goes(s, i, Draining(Lanes(s)))
    case Settle =>
      s.(word := SettledWord(c, s),
         ctx := seq(|s.ctx|, j requires 0 <= j < |s.ctx| =>
                  Context(s.ctx[j].lane, if j == i then SettledBounds else s.ctx[j].pc, 0, 0)))
    case ZeroEnd => Goes(s, i, SettledEnd).(overEnd := 0)
    case ZeroTop => Goes(s, i, Alone).(overTop := 0)
    case Write(m, up, down) =>
      s.(word := Word(c, Span(up), c.size - Span(down)), mem := m, up := GrantsOf(up), down := GrantsOf(down))
    case Open => Goes(s, i, Idle).(closed := false, holder := -1)
    case Hold(at, word) => s.(mem := if at < |s.mem| then s.mem[at := word] else s.mem)
  }

  /** The one fetch-add: the boundary moved, the room read off the old word, and the cell granted or refused. */
  function DoBump(c: Config, s: State, i: nat): State
    requires i < |s.ctx| && s.ctx[i].pc.Ready? && c.half > 0 && s.ctx[i].pc.need < c.half
  {
    var x := s.ctx[i];
    var down, need := x.pc.down, x.pc.need;
    var taken := need > 0 && CarcerBounds.Fits(c, EndOf(c, s.word), TopOf(c, s.word), down, need);
    var owes := if taken then 0 else need;
    var off := if !down then EndOf(c, s.word) else if taken then TopOf(c, s.word) - need else 0;
    var g := Grant(need, i, Bare, true, 0);
    s.(word := FetchAdd(c, s.word, Moved(c, down, need)),
       ctx := s.ctx[i := Context(x.lane, Bumped(x.pc.permit, need, taken, down, x.pc.place, off),
                                 x.owesEnd + (if down then 0 else owes), x.owesTop + (if down then owes else 0))],
       up := if taken && !down then s.up + [g] else s.up,
       down := if taken && down then [g] + s.down else s.down)
  }

  /** The owner word stored behind the payload, and on the sink where nothing was granted. */
  function DoLayOwner(c: Config, s: State, i: nat, stamp: nat): State
    requires i < |s.ctx| && s.ctx[i].pc.Recorded?
  {
    var p := s.ctx[i].pc;
    var owner := OwnerWord(p.place, stamp);
    var at := p.off + p.need - 1;
    var stored := if p.taken && 0 <= at < |s.mem|
                  then WordStored(c, s, p.down, p.off, Grant(p.need, i, Based, true, owner), at, owner) else s;
    Goes(stored, i, Laying(p.permit, p.need, p.taken, p.down, p.place, p.off, owner))
  }

  /** The header stored, after which the cell is its taker's. */
  function DoLayHeader(c: Config, s: State, i: nat): State
    requires i < |s.ctx| && s.ctx[i].pc.Laying?
  {
    var p := s.ctx[i].pc;
    var g := Grant(p.need, i, Whole, true, p.owner);
    var stored := if p.taken && p.need >= HDR && p.off < |s.mem|
                  then WordStored(c, s, p.down, p.off, g, p.off, Header(p.need - HDR, true)) else s;
    Goes(stored, i, Done(p.permit, p.taken))
  }

  function Init(c: Config, k: nat, mem: seq<int>, owners: nat): State
    requires c.half > 0
  {
    State(Word(c, 0, c.size), 0, 0, false, -1, seq(k, _ => Context(false, Idle, 0, 0)), mem, owners, [], [])
  }

  // ---- what every step keeps --------------------------------------------------------------------------------

  /** The most a bump may need. */
  function NeedMost(c: Config): nat {
    c.header + c.wantMost
  }

  /** The sizes for which every context may be refused once between two settles and no boundary leaves its half. */
  ghost predicate Bounded(c: Config, k: nat) {
    Sound(c) && c.header == HDR && k * NeedMost(c) < BytesMost(c)
  }

  /** A pass the cellblock permits: its lane claimed before the closed bit was read clear. */
  predicate Permitted(x: Context) {
    (x.pc.Admitted? || x.pc.Ready? || x.pc.Bumped? || x.pc.Recorded? || x.pc.Laying? || x.pc.Done?) && x.pc.permit
  }

  predicate InPass(x: Context) {
    || x.pc.Entered? || x.pc.Admitted? || x.pc.Ready? || x.pc.Bumped? || x.pc.Recorded? || x.pc.Laying? || x.pc.Done?
  }

  predicate Writes(x: Context) {
    x.pc.Shut? || x.pc.Draining? || x.pc.SettledBounds? || x.pc.SettledEnd? || x.pc.Alone?
  }

  /** Past the drain: no pass is permitted, and the boundaries are being settled or are settled. */
  predicate DrainedAt(pc: Pc) {
    pc.SettledBounds? || pc.SettledEnd? || pc.Alone?
  }

  /** A context refused and not settled since: its bump is recorded or about to be, or it waits to write. */
  predicate MayOwe(x: Context) {
    match x.pc
    case Bumped(permit, _, taken, _, _, _) => permit && !taken
    case Recorded(permit, _, taken, _, _, _) => permit && !taken
    case Laying(permit, _, taken, _, _, _, _) => permit && !taken
    case Done(permit, taken) => permit && !taken
    case _ => x.pc.Wants? || x.pc.Shut? || x.pc.Draining?
  }

  /** What one context's own state keeps, whatever the others do. */
  predicate Sane(c: Config, x: Context) {
    && (x.lane ==> InPass(x))
    && (Permitted(x) ==> x.lane)
    && (x.owesEnd + x.owesTop > 0 ==> MayOwe(x))
    && x.owesEnd + x.owesTop <= NeedMost(c)
    && match x.pc
       case Ready(permit, need, _, _) => need <= NeedMost(c) && (need > 0 ==> permit)
       case Bumped(permit, need, taken, down, _, _) =>
         && need <= NeedMost(c) && (need > 0 ==> permit)
         && (taken ==> need > 0 && x.owesEnd == x.owesTop == 0)
         && (!taken ==> x.owesEnd == (if down then 0 else need) && x.owesTop == (if down then need else 0))
       case Recorded(permit, _, taken, _, _, _) => taken ==> permit
       case Laying(permit, _, taken, _, _, _, _) => taken ==> permit
       case _ => true
  }

  /** Where the context that holds the closed bit stands, `Idle` where none holds it. */
  function Writer(s: State): Pc {
    if 0 <= s.holder < |s.ctx| then s.ctx[s.holder].pc else Idle
  }

  /** The closed bit is held by the one context that writes, and a drained writer excludes every permitted pass. */
  ghost predicate Excluding(s: State) {
    && -1 <= s.holder < |s.ctx| && (s.closed <==> s.holder >= 0)
    && (forall i :: 0 <= i < |s.ctx| ==> (Writes(s.ctx[i]) <==> i == s.holder))
    && (forall j :: 0 <= j < |s.ctx| && Permitted(s.ctx[j]) ==>
          !DrainedAt(Writer(s)) && (Writer(s).Draining? ==> j in Writer(s).waiting))
    && (Writer(s).Draining? ==> forall j :: j in Writer(s).waiting ==> j < |s.ctx| && s.ctx[j].lane)
  }

  /** The boundary word and the overrun words, told by the chains and what the contexts were refused. */
  ghost predicate Balanced(c: Config, s: State) {
    var owed, owedTop := Total(s.ctx, OwesEnd), Total(s.ctx, OwesTop);
    && Extents(s.up) + Extents(s.down) <= c.size
    && s.word < c.half * c.half
    && EndOf(c, s.word) == End(s) + owed
    && TopOf(c, s.word) == (Top(c, s) - owedTop) % c.half
    && (owed + owedTop > 0 ==> End(s) + owed > Top(c, s) - owedTop)
    && (if DrainedAt(Writer(s)) then
          && owed == owedTop == 0
          && (!Writer(s).SettledBounds? ==> s.overEnd == 0) && (Writer(s).Alone? ==> s.overTop == 0)
        else
          && s.overEnd + Total(s.ctx, PendingEnd) == owed
          && s.overTop + Total(s.ctx, PendingTop) == owedTop)
  }

  /** What a context has been granted and not yet laid: where, in which tier, and whether its owner word is stored. */
  datatype Task = Task(need: nat, down: bool, off: nat, place: nat, based: bool, owner: int)

  function TaskOf(x: Context): Option<Task> {
    match x.pc
    case Bumped(_, need, true, down, place, off) => Some(Task(need, down, off, place, false, 0))
    case Recorded(_, need, true, down, place, off) => Some(Task(need, down, off, place, false, 0))
    case Laying(_, need, true, down, place, off, owner) => Some(Task(need, down, off, place, true, owner))
    case _ => None
  }

  /** What a pass asks for on its way to a bump: a listed owner's cell, of a payload that is not nothing. */
  predicate Asked(x: Context, owners: nat) {
    match x.pc
    case Entered(want, _, place) => want >= 1 && 1 <= place <= owners
    case Admitted(_, want, _, place) => want >= 1 && 1 <= place <= owners
    case Ready(_, need, _, place) => (need > 0 ==> need >= HDR + 1) && 1 <= place <= owners
    case Bumped(_, need, _, _, place, _) => (need > 0 ==> need >= HDR + 1) && 1 <= place <= owners
    case Recorded(_, need, _, _, place, _) => 1 <= place <= owners
    case Laying(_, need, _, _, place, _, owner) => !IsComplete(owner) && 1 <= PlaceOf(owner) <= owners
    case _ => true
  }

  /** A cell not whole yet is its taker's to lay, at the offset it has. */
  ghost predicate Owned(ctx: seq<Context>, at: nat, grants: seq<Grant>, down: bool)
    decreases |grants|
  {
    grants == [] || (
      && var g := grants[0];
      && (g.words != Whole ==>
            && g.taker < |ctx| && TaskOf(ctx[g.taker]).Some?
            && TaskOf(ctx[g.taker]).value.off == at && TaskOf(ctx[g.taker]).value.down == down)
      && Owned(ctx, at + g.extent, grants[1..], down))
  }

  /** What a context has to lay is granted to it where it says, with as much laid as it says. */
  ghost predicate Granted(c: Config, s: State, i: nat)
    requires i < |s.ctx|
  {
    TaskOf(s.ctx[i]).Some? ==>
      var t := TaskOf(s.ctx[i]).value;
      GrantAt(TierOf(s, t.down), BaseOf(c, s, t.down), t.off)
        == Some(Grant(t.need, i, if t.based then Based else Bare, true, t.owner))
  }

  /** Memory holds of each cell granted the words its taker has stored, and every taker's cell is its own. */
  ghost predicate Worded(c: Config, s: State) {
    && |s.mem| == c.size && Extents(s.up) + Extents(s.down) <= c.size
    && Stands(s.mem, 0, s.up) && Stands(s.mem, BaseOf(c, s, true), s.down)
    && Listed(s.up, s.owners) && Listed(s.down, s.owners)
    && Owned(s.ctx, 0, s.up, false) && Owned(s.ctx, BaseOf(c, s, true), s.down, true)
    && forall i :: 0 <= i < |s.ctx| ==> Asked(s.ctx[i], s.owners) && Granted(c, s, i)
  }

  ghost predicate Inv(c: Config, k: nat, s: State) {
    && Bounded(c, k) && |s.ctx| == k
    && (forall i :: 0 <= i < |s.ctx| ==> Sane(c, s.ctx[i]))
    && Excluding(s)
    && Balanced(c, s)
    && Worded(c, s)
  }

  // ---- sums over the contexts -------------------------------------------------------------------------------

  lemma {:induction false} TotalUpdate(ctx: seq<Context>, i: nat, x: Context, f: Context -> int)
    requires i < |ctx|
    ensures Total(ctx[i := x], f) == Total(ctx, f) - f(ctx[i]) + f(x)
  {
    if i == 0 {
      assert ctx[0 := x][1..] == ctx[1..];
    } else {
      TotalUpdate(ctx[1..], i - 1, x, f);
      assert ctx[i := x][1..] == ctx[1..][i - 1 := x];
    }
  }

  lemma {:induction false} TotalSame(a: seq<Context>, b: seq<Context>, f: Context -> int)
    requires |a| == |b| && forall i :: 0 <= i < |a| ==> f(a[i]) == f(b[i])
    ensures Total(a, f) == Total(b, f)
  {
    if a != [] {
      assert f(a[0]) == f(b[0]);
      TotalSame(a[1..], b[1..], f);
    }
  }

  lemma {:induction false} TotalZero(ctx: seq<Context>, f: Context -> int)
    requires forall i :: 0 <= i < |ctx| ==> f(ctx[i]) == 0
    ensures Total(ctx, f) == 0
  {
    if ctx != [] {
      TotalZero(ctx[1..], f);
    }
  }

  /** Contexts that each owe at most one bump owe together at most one each. */
  lemma {:induction false} TotalMost(c: Config, ctx: seq<Context>)
    requires forall i :: 0 <= i < |ctx| ==> ctx[i].owesEnd + ctx[i].owesTop <= NeedMost(c)
    ensures 0 <= Total(ctx, OwesEnd) && 0 <= Total(ctx, OwesTop)
    ensures Total(ctx, OwesEnd) + Total(ctx, OwesTop) <= |ctx| * NeedMost(c)
  {
    if ctx != [] {
      TotalMost(c, ctx[1..]);
      Distribute(|ctx| - 1, 1, NeedMost(c));
    }
  }

  /** One of them owing nothing leaves room for one bump more. */
  lemma {:induction false} TotalLeaves(c: Config, ctx: seq<Context>, i: nat)
    requires i < |ctx| && ctx[i].owesEnd == ctx[i].owesTop == 0
    requires forall j :: 0 <= j < |ctx| ==> ctx[j].owesEnd + ctx[j].owesTop <= NeedMost(c)
    ensures 0 <= Total(ctx, OwesEnd) && 0 <= Total(ctx, OwesTop)
    ensures Total(ctx, OwesEnd) + Total(ctx, OwesTop) + NeedMost(c) <= |ctx| * NeedMost(c)
  {
    var full := ctx[i := Context(false, Idle, NeedMost(c), 0)];
    TotalMost(c, ctx);
    TotalMost(c, full);
    TotalUpdate(ctx, i, full[i], OwesEnd);
    TotalUpdate(ctx, i, full[i], OwesTop);
  }

  // ---- the steps of a pass that move no boundary ------------------------------------------------------------

  /** A step that changes one context's place and none of the words keeps the balance. */
  lemma {:induction false} MovesNothing(c: Config, s: State, s': State, i: nat, x: Context)
    requires Balanced(c, s) && i < |s.ctx| && s'.ctx == s.ctx[i := x]
    requires s'.word == s.word && s'.overEnd == s.overEnd && s'.overTop == s.overTop
    requires Extents(s'.up) == Extents(s.up) && Extents(s'.down) == Extents(s.down)
    requires x.owesEnd == s.ctx[i].owesEnd && x.owesTop == s.ctx[i].owesTop
    requires PendingEnd(x) == PendingEnd(s.ctx[i]) && PendingTop(x) == PendingTop(s.ctx[i])
    requires Writer(s') == Writer(s) || (!DrainedAt(Writer(s)) && !DrainedAt(Writer(s')))
    ensures Balanced(c, s')
  {
    hide Total, Extents;
    TotalUpdate(s.ctx, i, x, OwesEnd);
    TotalUpdate(s.ctx, i, x, OwesTop);
    TotalUpdate(s.ctx, i, x, PendingEnd);
    TotalUpdate(s.ctx, i, x, PendingTop);
  }

  /** A context outside the writers' places may go on in its pass, and be permitted where no writer holds the bit. */
  lemma {:induction false} PassExcludes(s: State, s': State, i: nat, x: Context)
    requires Excluding(s) && i < |s.ctx| && s'.ctx == s.ctx[i := x] && s'.closed == s.closed && s'.holder == s.holder
    requires !Writes(x) && !Writes(s.ctx[i])
    requires s.ctx[i].lane ==> x.lane
    requires Permitted(x) ==> Permitted(s.ctx[i]) || !s.closed
    ensures Excluding(s') && Writer(s') == Writer(s)
  {
  }

  lemma {:induction false} OwnedStill(ctx: seq<Context>, ctx': seq<Context>, at: nat, grants: seq<Grant>, down: bool)
    requires Owned(ctx, at, grants, down) && |ctx'| == |ctx|
    requires forall j :: 0 <= j < |ctx| ==> TaskOf(ctx'[j]) == TaskOf(ctx[j])
    ensures Owned(ctx', at, grants, down)
    decreases |grants|
  {
    if grants != [] {
      OwnedStill(ctx, ctx', at + grants[0].extent, grants[1..], down);
    }
  }

  /** Contexts that go on with what they have to lay as it was leave the words as they are. */
  lemma {:induction false} WordedStill(c: Config, s: State, s': State)
    requires Worded(c, s) && |s'.ctx| == |s.ctx|
    requires s'.mem == s.mem && s'.owners == s.owners && s'.up == s.up && s'.down == s.down
    requires forall j :: 0 <= j < |s.ctx| ==> TaskOf(s'.ctx[j]) == TaskOf(s.ctx[j]) && Asked(s'.ctx[j], s.owners)
    ensures Worded(c, s')
  {
    hide Stands, Listed, Owned, TaskOf, Asked, GrantAt, Extents;
    OwnedStill(s.ctx, s'.ctx, 0, s.up, false);
    OwnedStill(s.ctx, s'.ctx, BaseOf(c, s, true), s.down, true);
    forall i | 0 <= i < |s'.ctx| ensures Asked(s'.ctx[i], s'.owners) && Granted(c, s', i) {
      assert Granted(c, s, i) && BaseOf(c, s', true) == BaseOf(c, s, true)
          && BaseOf(c, s', false) == BaseOf(c, s, false);
    }
  }

  lemma {:induction false} WordedAsked(c: Config, s: State, i: nat)
    requires Worded(c, s) && i < |s.ctx|
    ensures Asked(s.ctx[i], s.owners)
  {
  }

  /** The same of one context that goes on. */
  lemma {:induction false} WordedGoes(c: Config, s: State, s': State, i: nat, x: Context)
    requires Worded(c, s) && i < |s.ctx| && s'.ctx == s.ctx[i := x]
    requires s'.mem == s.mem && s'.owners == s.owners && s'.up == s.up && s'.down == s.down
    requires TaskOf(x) == TaskOf(s.ctx[i]) && Asked(x, s.owners)
    ensures Worded(c, s')
  {
    hide Worded, TaskOf, Asked;
    forall j | 0 <= j < |s.ctx| ensures TaskOf(s'.ctx[j]) == TaskOf(s.ctx[j]) && Asked(s'.ctx[j], s.owners) {
      WordedAsked(c, s, j);
    }
    WordedStill(c, s, s');
  }

  lemma {:induction false} SaneStill(c: Config, s: State, s': State, i: nat, x: Context)
    requires forall j :: 0 <= j < |s.ctx| ==> Sane(c, s.ctx[j])
    requires i < |s.ctx| && s'.ctx == s.ctx[i := x] && Sane(c, x)
    ensures forall j :: 0 <= j < |s'.ctx| ==> Sane(c, s'.ctx[j])
  {
  }

  lemma {:induction false} PassSteps(c: Config, k: nat, s: State, i: nat, act: Action)
    requires Inv(c, k, s) && Enabled(c, s, i, act)
    requires act.Enter? || act.ReadClosed? || act.ReadAhead? || act.Read? || act.Want?
    ensures Inv(c, k, Do(c, s, i, act))
  {
    hide Balanced, Excluding, Worded, Total, Extents, EndOf;
    var s' := Do(c, s, i, act);
    var x := s'.ctx[i];
    assert Sane(c, s.ctx[i]);
    PassExcludes(s, s', i, x);
    MovesNothing(c, s, s', i, x);
    WordedAsked(c, s, i);
    WordedGoes(c, s, s', i, x);
    SaneStill(c, s, s', i, x);
  }

  // ---- the overrun recorded, the words laid, the lane let go ------------------------------------------------

  lemma {:induction false} RecordStep(c: Config, k: nat, s: State, i: nat)
    requires Inv(c, k, s) && Enabled(c, s, i, Record)
    ensures Inv(c, k, Do(c, s, i, Record))
  {
    hide Excluding, Worded, Total, Extents, EndOf, TopOf;
    var s' := Do(c, s, i, Record);
    var x := s'.ctx[i];
    assert Sane(c, s.ctx[i]);
    PassExcludes(s, s', i, x);
    if DrainedAt(Writer(s)) {
      DrainedOwesNothing(c, s, i);
    }
    TotalUpdate(s.ctx, i, x, OwesEnd);
    TotalUpdate(s.ctx, i, x, OwesTop);
    TotalUpdate(s.ctx, i, x, PendingEnd);
    TotalUpdate(s.ctx, i, x, PendingTop);
    SaneStill(c, s, s', i, x);
    WordedAsked(c, s, i);
    WordedGoes(c, s, s', i, x);
  }

  /** With a drained writer at work a pass under way is not permitted, and moves nothing. */
  lemma {:induction false} DrainedOwesNothing(c: Config, s: State, i: nat)
    requires Excluding(s) && i < |s.ctx| && Sane(c, s.ctx[i]) && DrainedAt(Writer(s)) && InPass(s.ctx[i])
    ensures !Permitted(s.ctx[i])
    ensures s.ctx[i].pc.Ready? || s.ctx[i].pc.Bumped? ==> s.ctx[i].pc.need == 0
  {
  }

  /** A context that changes what it has to lay, in the other tier or before an offset, leaves the rest owned. */
  lemma {:induction false} OwnedElse(ctx: seq<Context>, ctx': seq<Context>, i: nat, at: nat, grants: seq<Grant>,
                                     down: bool)
    requires Owned(ctx, at, grants, down) && i < |ctx| == |ctx'| && ctx' == ctx[i := ctx'[i]]
    requires TaskOf(ctx[i]).Some? ==> TaskOf(ctx[i]).value.down != down || TaskOf(ctx[i]).value.off < at
    ensures Owned(ctx', at, grants, down)
    decreases |grants|
  {
    if grants != [] {
      OwnedElse(ctx, ctx', i, at + grants[0].extent, grants[1..], down);
    }
  }

  lemma {:induction false} OwnedConcat(ctx: seq<Context>, at: nat, a: seq<Grant>, b: seq<Grant>, down: bool)
    ensures Owned(ctx, at, a + b, down) <==> Owned(ctx, at, a, down) && Owned(ctx, at + Extents(a), b, down)
    decreases |a|
  {
    if a == [] {
      assert a + b == b;
    } else {
      assert (a + b)[1..] == a[1..] + b;
      OwnedConcat(ctx, at + a[0].extent, a[1..], b, down);
    }
  }

  /** A taker's cell gone further on is its own still, and no other cell not whole is its. */
  lemma {:induction false} OwnedReplaced(ctx: seq<Context>, ctx': seq<Context>, i: nat, at: nat, grants: seq<Grant>,
                                         down: bool, off: nat, g: Grant)
    requires Owned(ctx, at, grants, down) && i < |ctx| == |ctx'| && ctx' == ctx[i := ctx'[i]]
    requires TaskOf(ctx[i]).Some? && TaskOf(ctx[i]).value.off == off && TaskOf(ctx[i]).value.down == down
    requires GrantAt(grants, at, off).Some? && GrantAt(grants, at, off).value.extent == g.extent >= 1 && off >= at
    requires g.words != Whole ==> (
      && g.taker == i && TaskOf(ctx'[i]).Some? && TaskOf(ctx'[i]).value.off == off
          && TaskOf(ctx'[i]).value.down == down)
    ensures Owned(ctx', at, Replaced(grants, at, off, g), down)
    decreases |grants|
  {
    if off == at {
      OwnedElse(ctx, ctx', i, at + g.extent, grants[1..], down);
      assert ([g] + grants[1..])[1..] == grants[1..];
    } else {
      var rest := Replaced(grants[1..], at + grants[0].extent, off, g);
      assert ([grants[0]] + rest)[1..] == rest;
      if off < at + grants[0].extent {
        GrantNone(grants[1..], at + grants[0].extent, off);
      } else {
        OwnedReplaced(ctx, ctx', i, at + grants[0].extent, grants[1..], down, off, g);
      }
    }
  }

  lemma {:induction false} GrantNone(grants: seq<Grant>, at: nat, off: nat)
    requires off < at
    ensures GrantAt(grants, at, off) == None
    decreases |grants|
  {
    if grants != [] {
      GrantNone(grants[1..], at + grants[0].extent, off);
    }
  }

  /** A taker's next word of its cell: the owner word of a cell with none, or the header of one that has it. */
  predicate NextWord(t: Task, i: nat, g: Grant, x: Context, owners: nat, at: int, word: int) {
    && g.extent == t.need && g.taker == i && g.busy
    && if !t.based then
         && g.words == Based && g.owner == word && at == t.off + t.need - 1
         && !IsComplete(word) && 1 <= PlaceOf(word) <= owners
         && TaskOf(x) == Some(t.(based := true, owner := word))
       else
         && g.words == Whole && g.owner == t.owner && at == t.off && t.need >= HDR && word == Header(t.need - HDR, true)
         && TaskOf(x) == None
  }

  lemma {:induction false} OneListed(g: Grant, owners: nat)
    requires g.busy && !IsComplete(g.owner) && 1 <= PlaceOf(g.owner) <= owners
    ensures Listed([g], owners)
  {
  }

  /** Where a taker's cell lies: in its own tier, and so apart from the other. */
  lemma {:induction false} TaskLies(c: Config, s: State, i: nat)
    requires Worded(c, s) && i < |s.ctx| && TaskOf(s.ctx[i]).Some?
    ensures var t := TaskOf(s.ctx[i]).value;
            var tier, base := TierOf(s, t.down), BaseOf(c, s, t.down);
      && GrantAt(tier, base, t.off) == Some(Grant(t.need, i, if t.based then Based else Bare, true, t.owner))
      && base <= t.off && t.off + t.need <= base + Extents(tier) <= |s.mem| && t.need >= HDR + 1
      && Extents(s.up) <= BaseOf(c, s, true) && Stands(s.mem, base, tier)
  {
    hide Stands, Listed, Owned, GrantAt, Extents;
    assert Granted(c, s, i);
    var t := TaskOf(s.ctx[i]).value;
    GrantLies(s.mem, TierOf(s, t.down), BaseOf(c, s, t.down), t.off);
  }

  /** A taker's next word stored keeps every cell's words and every taker's cell. */
  lemma {:induction false} WordStoredKeeps(c: Config, s: State, i: nat, x: Context, g: Grant, at: nat, word: int)
    requires Worded(c, s) && i < |s.ctx| && TaskOf(s.ctx[i]).Some? && Asked(x, s.owners)
    requires NextWord(TaskOf(s.ctx[i]).value, i, g, x, s.owners, at, word)
    requires !IsComplete(g.owner) && 1 <= PlaceOf(g.owner) <= s.owners
    ensures at < |s.mem|
    ensures var t := TaskOf(s.ctx[i]).value;
            var s' := WordStored(c, s, t.down, t.off, g, at, word).(ctx := s.ctx[i := x]);
      && Worded(c, s') && Extents(s'.up) == Extents(s.up) && Extents(s'.down) == Extents(s.down)
  {
    hide Stands, Listed, Owned, GrantAt, Extents, IsComplete, PlaceOf, Replaced, Asked, TaskOf;
    var t := TaskOf(s.ctx[i]).value;
    TaskLies(c, s, i);
    var tier, base := TierOf(s, t.down), BaseOf(c, s, t.down);
    var s' := WordStored(c, s, t.down, t.off, g, at, word).(ctx := s.ctx[i := x]);
    ReplacedExtents(tier, base, t.off, g);
    StandsStored(s.mem, base, tier, t.off, g, word);
    StandsFrame(s.mem, s'.mem, BaseOf(c, s, !t.down), TierOf(s, !t.down));
    OneListed(g, s.owners);
    ReplacedListed(tier, base, t.off, g, s.owners);
    OwnedReplaced(s.ctx, s'.ctx, i, base, tier, t.down, t.off, g);
    OwnedElse(s.ctx, s'.ctx, i, BaseOf(c, s, !t.down), TierOf(s, !t.down), !t.down);
    forall j | 0 <= j < |s.ctx| ensures Asked(s'.ctx[j], s.owners) && Granted(c, s', j) {
      assert Granted(c, s, j) && Asked(s.ctx[j], s.owners);
      ReplacedAt(tier, base, t.off, g, if TaskOf(s.ctx[j]).Some? then TaskOf(s.ctx[j]).value.off else 0);
    }
  }

  lemma {:induction false} LayStep(c: Config, k: nat, s: State, i: nat, act: Action)
    requires Inv(c, k, s) && Enabled(c, s, i, act) && (act.LayOwner? || act.LayHeader?)
    ensures Inv(c, k, Do(c, s, i, act))
  {
    hide Balanced, Excluding, Worded, Total, Extents, EndOf, TopOf, IsComplete, PlaceOf, OwnerWord, Replaced;
    var s' := Do(c, s, i, act);
    var x := s'.ctx[i];
    assert Sane(c, s.ctx[i]);
    LaidWords(c, s, i, act);
    PassExcludes(s, s', i, x);
    MovesNothing(c, s, s', i, x);
    SaneStill(c, s, s', i, x);
  }

  /** What laying does to the words, and that it moves no boundary. */
  lemma {:induction false} LaidWords(c: Config, s: State, i: nat, act: Action)
    requires Worded(c, s) && Enabled(c, s, i, act) && (act.LayOwner? || act.LayHeader?) && c.half > 0
    requires c.header + c.wantMost < c.half
    ensures var s' := Do(c, s, i, act);
      && Worded(c, s') && |s'.ctx| == |s.ctx| && s'.ctx == s.ctx[i := s.ctx[i].(pc := s'.ctx[i].pc)]
      && Extents(s'.up) == Extents(s.up) && Extents(s'.down) == Extents(s.down)
      && s'.word == s.word && s'.overEnd == s.overEnd && s'.overTop == s.overTop
      && s'.closed == s.closed && s'.holder == s.holder
  {
    hide Worded, Extents, IsComplete, PlaceOf, OwnerWord;
    var s' := Do(c, s, i, act);
    var x := s'.ctx[i];
    var p := s.ctx[i].pc;
    WordedAsked(c, s, i);
    if act.LayOwner? {
      OwnerWordReads(p.place, act.stamp);
    }
    if p.taken {
      TaskLies(c, s, i);
      if act.LayOwner? {
        var owner := OwnerWord(p.place, act.stamp);
        WordStoredKeeps(c, s, i, x, Grant(p.need, i, Based, true, owner), p.off + p.need - 1, owner);
      } else {
        WordStoredKeeps(c, s, i, x, Grant(p.need, i, Whole, true, p.owner), p.off, Header(p.need - HDR, true));
      }
    } else {
      WordedGoes(c, s, s', i, x);
    }
  }

  lemma {:induction false} LeaveStep(c: Config, k: nat, s: State, i: nat)
    requires Inv(c, k, s) && Enabled(c, s, i, Leave)
    ensures Inv(c, k, Do(c, s, i, Leave))
  {
    hide Balanced, Excluding, Worded, Total, Extents, EndOf, TopOf;
    var s' := Do(c, s, i, Leave);
    var x := s.ctx[i].(lane := false, pc := if s.ctx[i].pc.permit && !s.ctx[i].pc.taken then Wants else Idle);
    var left := s.(ctx := s.ctx[i := x]);
    assert Sane(c, s.ctx[i]);
    LeaveExcludes(s, left, s', i, x);
    WordedGoes(c, s, left, i, x);
    SaneStill(c, s, left, i, x);
    MovesNothing(c, s, left, i, x);
    if s.holder >= 0 {
      var y := Gone(left.ctx[s.holder], i);
      WordedGoes(c, left, s', s.holder, y);
      SaneStill(c, left, s', s.holder, y);
      MovesNothing(c, left, s', s.holder, y);
    }
  }

  /** A lane let go is taken off the drain that waits for it. */
  lemma {:induction false} LeaveExcludes(s: State, left: State, s': State, i: nat, x: Context)
    requires Excluding(s) && i < |s.ctx| && s.ctx[i].pc.Done? && (x.pc.Wants? || x.pc.Idle?)
    requires left == s.(ctx := s.ctx[i := x])
    requires s' == left.(ctx := if 0 <= s.holder < |left.ctx| then left.ctx[s.holder := Gone(left.ctx[s.holder], i)]
        else left.ctx)
    ensures Excluding(s') && Writer(left) == Writer(s) && -1 <= s.holder < |s.ctx|
    ensures s.holder >= 0 ==> Writes(left.ctx[s.holder])
    ensures DrainedAt(Writer(s')) <==> DrainedAt(Writer(s))
    ensures DrainedAt(Writer(s)) ==> Writer(s') == Writer(s)
  {
    if s.holder >= 0 {
      assert Writes(s.ctx[s.holder]) && s.holder != i;
    }
  }

  // ---- a writer's steps -------------------------------------------------------------------------------------

  /** The closed bit taken, or found taken: one fetch-or either way. */
  lemma {:induction false} CloseStep(c: Config, k: nat, s: State, i: nat, act: Action)
    requires Inv(c, k, s) && Enabled(c, s, i, act) && (act.Close? || act.Trim?)
    ensures Inv(c, k, Do(c, s, i, act))
  {
    hide Balanced, Worded, Total, Extents, EndOf, TopOf;
    var s' := Do(c, s, i, act);
    if !s.closed {
      assert Sane(c, s.ctx[i]);
      MovesNothing(c, s, s', i, s'.ctx[i]);
      WordedGoes(c, s, s', i, s'.ctx[i]);
      SaneStill(c, s, s', i, s'.ctx[i]);
    }
  }

  /** The drain begun: it waits for every lane claimed by then, and a permitted pass holds one. */
  lemma {:induction false} DrainStep(c: Config, k: nat, s: State, i: nat)
    requires Inv(c, k, s) && Enabled(c, s, i, Drain)
    ensures Inv(c, k, Do(c, s, i, Drain))
  {
    hide Balanced, Worded, Total, Extents, EndOf, TopOf;
    var s' := Do(c, s, i, Drain);
    assert i == s.holder by { assert Writes(s.ctx[i]); }
    assert Sane(c, s.ctx[i]);
    MovesNothing(c, s, s', i, s'.ctx[i]);
    WordedGoes(c, s, s', i, s'.ctx[i]);
    SaneStill(c, s, s', i, s'.ctx[i]);
    forall j | 0 <= j < |s'.ctx| && Permitted(s'.ctx[j]) ensures j in Writer(s').waiting {
      assert Sane(c, s.ctx[j]);
    }
  }

  /** With every lane claimed before the drain let go, no pass is permitted. */
  lemma {:induction false} DrainedNone(c: Config, s: State)
    requires Excluding(s) && forall j :: 0 <= j < |s.ctx| ==> Sane(c, s.ctx[j])
    requires DrainedAt(Writer(s)) || (Writer(s).Draining? && Writer(s).waiting == {})
    ensures forall j :: 0 <= j < |s.ctx| ==> !Permitted(s.ctx[j])
    ensures forall j :: 0 <= j < |s.ctx| ==> PendingEnd(s.ctx[j]) == 0 && PendingTop(s.ctx[j]) == 0
  {
  }

  /** The settle puts each boundary at its chain. */
  lemma {:induction false} SettleStep(c: Config, k: nat, s: State, i: nat)
    requires Inv(c, k, s) && Enabled(c, s, i, Settle)
    ensures Inv(c, k, Do(c, s, i, Settle))
    ensures Do(c, s, i, Settle).word == Word(c, End(s), Top(c, s))
  {
    hide Total, Extents, EndOf, TopOf, Word, Worded;
    var s' := Do(c, s, i, Settle);
    assert i == s.holder by { assert Writes(s.ctx[i]); }
    DrainedNone(c, s);
    SettleBalances(c, k, s);
    TotalZero(s'.ctx, OwesEnd);
    TotalZero(s'.ctx, OwesTop);
    WordReads(c, End(s), Top(c, s));
    Below(Top(c, s), c.half);
    forall j | 0 <= j < |s.ctx| ensures TaskOf(s'.ctx[j]) == TaskOf(s.ctx[j]) && Asked(s'.ctx[j], s.owners) {
      WordedAsked(c, s, j);
    }
    WordedStill(c, s, s');
  }

  lemma {:induction false} SettleBalances(c: Config, k: nat, s: State)
    requires Inv(c, k, s)
    requires Writer(s).Draining? && forall j :: 0 <= j < |s.ctx| ==>
        PendingEnd(s.ctx[j]) == 0 && PendingTop(s.ctx[j]) == 0
    ensures End(s) < c.half && 0 <= Top(c, s) < c.half
    ensures SettledWord(c, s) == Word(c, End(s), Top(c, s))
  {
    hide Total, Extents, EndOf, TopOf, Word;
    TotalZero(s.ctx, PendingEnd);
    TotalZero(s.ctx, PendingTop);
    assert forall j :: 0 <= j < |s.ctx| ==> Sane(c, s.ctx[j]);
    TotalMost(c, s.ctx);
    var e, t := End(s), Top(c, s);
    var r := Total(s.ctx, OwesTop);
    Below(e, c.half);
    assert (t - r) % c.half + r == t || (t - r) % c.half + r == t + c.half by { ModOnce(t, r, c.half); }
    Below(t, c.half);
    if (t - r) % c.half + r == t + c.half {
      DivMod(1, t, c.half);
    }
  }

  /** A remainder a wrap of less than one half away. */
  lemma {:induction false} ModOnce(t: int, r: int, h: int)
    requires 0 <= t < h && 0 <= r < h
    ensures (t - r) % h == if t >= r then t - r else t - r + h
  {
    if t >= r {
      Below(t - r, h);
    } else {
      DivMod(0, t - r + h, h);
      assert (t - r) % h == (t - r + h) % h;
    }
  }

  /** A drained writer's own steps keep the balance. */
  lemma {:induction false} AloneBalances(c: Config, s: State, s': State, i: nat)
    requires Balanced(c, s) && i < |s.ctx| && s.holder == i && DrainedAt(s.ctx[i].pc)
    requires forall j :: 0 <= j < |s.ctx| ==> PendingEnd(s.ctx[j]) == 0 && PendingTop(s.ctx[j]) == 0
    requires |s'.ctx| == |s.ctx| && s'.ctx == s.ctx[i := s.ctx[i].(pc := s'.ctx[i].pc)]
    requires s'.word == s.word && s'.up == s.up && s'.down == s.down
    requires s'.overEnd == s.overEnd || s'.overEnd == 0
    requires s'.overTop == s.overTop || s'.overTop == 0
    requires match s'.ctx[i].pc
      case Idle => s.ctx[i].pc.Alone? && s'.holder == -1
      case SettledEnd => s'.holder == i && s'.overEnd == 0
      case Alone => s'.holder == i && s.ctx[i].pc.SettledEnd? && s'.overTop == 0
      case _ => false
    ensures Balanced(c, s')
  {
    hide Total, Extents, EndOf, TopOf;
    var x := s'.ctx[i];
    TotalZero(s.ctx, PendingEnd);
    TotalZero(s.ctx, PendingTop);
    TotalUpdate(s.ctx, i, x, OwesEnd);
    TotalUpdate(s.ctx, i, x, OwesTop);
    TotalUpdate(s.ctx, i, x, PendingEnd);
    TotalUpdate(s.ctx, i, x, PendingTop);
  }

  /** The persistent overrun zeroed. */
  lemma {:induction false} ZeroEndStep(c: Config, k: nat, s: State, i: nat)
    requires Inv(c, k, s) && Enabled(c, s, i, ZeroEnd)
    ensures Inv(c, k, Do(c, s, i, ZeroEnd))
  {
    hide Total, Extents, EndOf, TopOf, Word, Balanced, Worded;
    var s' := Do(c, s, i, ZeroEnd);
    var x := s'.ctx[i];
    assert i == s.holder by { assert Writes(s.ctx[i]); }
    assert Sane(c, s.ctx[i]);
    DrainedNone(c, s);
    AloneBalances(c, s, s', i);
    WordedGoes(c, s, s', i, x);
    SaneStill(c, s, s', i, x);
  }

  /** The temporary overrun zeroed: the writer is alone. */
  lemma {:induction false} ZeroTopStep(c: Config, k: nat, s: State, i: nat)
    requires Inv(c, k, s) && Enabled(c, s, i, ZeroTop)
    ensures Inv(c, k, Do(c, s, i, ZeroTop))
  {
    hide Total, Extents, EndOf, TopOf, Word, Balanced, Worded;
    var s' := Do(c, s, i, ZeroTop);
    var x := s'.ctx[i];
    assert i == s.holder by { assert Writes(s.ctx[i]); }
    assert Sane(c, s.ctx[i]);
    DrainedNone(c, s);
    AloneBalances(c, s, s', i);
    WordedGoes(c, s, s', i, x);
    SaneStill(c, s, s', i, x);
  }

  /** The cellblock opened again. */
  lemma {:induction false} OpenStep(c: Config, k: nat, s: State, i: nat)
    requires Inv(c, k, s) && Enabled(c, s, i, Open)
    ensures Inv(c, k, Do(c, s, i, Open))
  {
    hide Total, Extents, EndOf, TopOf, Word, Balanced, Worded;
    var s' := Do(c, s, i, Open);
    var x := s'.ctx[i];
    assert i == s.holder by { assert Writes(s.ctx[i]); }
    assert Sane(c, s.ctx[i]);
    DrainedNone(c, s);
    AloneBalances(c, s, s', i);
    WordedGoes(c, s, s', i, x);
    SaneStill(c, s, s', i, x);
  }

  lemma {:induction false} OwnedWhole(ctx: seq<Context>, at: nat, grants: seq<Grant>, down: bool)
    requires AllWhole(grants)
    ensures Owned(ctx, at, grants, down)
    decreases |grants|
  {
    if grants != [] {
      assert grants[0] in grants;
      OwnedWhole(ctx, at + grants[0].extent, grants[1..], down);
    }
  }

  /** A context that may not move a boundary has nothing to lay. */
  lemma {:induction false} NoTask(c: Config, x: Context)
    requires Sane(c, x) && !Permitted(x)
    ensures TaskOf(x) == None
  {
  }

  /** What a writer does alone: it leaves memory tiled by both chains, and the boundaries at them. */
  lemma {:induction false} WriteStep(c: Config, k: nat, s: State, i: nat, act: Action)
    requires Inv(c, k, s) && Enabled(c, s, i, act) && act.Write?
    ensures Inv(c, k, Do(c, s, i, act))
  {
    hide Total, Extents, EndOf, TopOf, Word, Worded, Tilings, Span;
    var s' := Do(c, s, i, act);
    assert i == s.holder by { assert Writes(s.ctx[i]); }
    WroteWords(c, s, i, act);
    WordReads(c, Span(act.laidUp), c.size - Span(act.laidDown));
    Below(c.size - Span(act.laidDown), c.half);
  }

  lemma {:induction false} WroteWords(c: Config, s: State, i: nat, act: Action)
    requires Excluding(s) && (forall j :: 0 <= j < |s.ctx| ==> Sane(c, s.ctx[j])) && Worded(c, s)
    requires Enabled(c, s, i, act) && act.Write? && c.half > 0 && c.header + c.wantMost < c.half
    ensures var s' := Do(c, s, i, act);
      && Worded(c, s') && Extents(s'.up) == Span(act.laidUp) && Extents(s'.down) == Span(act.laidDown)
      && Span(act.laidUp) + Span(act.laidDown) <= c.size
  {
    hide Extents, Span, Stands, Lays, Footed, Listed, Owned, TaskOf, Asked, GrantsOf;
    var s' := Do(c, s, i, act);
    assert Writes(s.ctx[i]) && s.holder == i;
    DrainedNone(c, s);
    LaysStand(act.mem, 0, act.laidUp, s.owners);
    LaysStand(act.mem, c.size - Span(act.laidDown), act.laidDown, s.owners);
    OwnedWhole(s'.ctx, 0, s'.up, false);
    OwnedWhole(s'.ctx, BaseOf(c, s', true), s'.down, true);
    forall j | 0 <= j < |s'.ctx| ensures Asked(s'.ctx[j], s'.owners) && Granted(c, s', j) {
      assert Asked(s.ctx[j], s.owners);
      NoTask(c, s.ctx[j]);
    }
  }

  /** A holder stores in its own cell's payload. */
  lemma {:induction false} HoldStep(c: Config, k: nat, s: State, i: nat, act: Action)
    requires Inv(c, k, s) && Enabled(c, s, i, act) && act.Hold?
    requires s.ctx[i].pc.Ready? ==> s.ctx[i].pc.need < c.half
    ensures Inv(c, k, Do(c, s, i, act))
  {
    hide Total, Extents, EndOf, TopOf, Word, Worded, InPayload;
    HeldWords(c, s, if act.at < |s.mem| then s.mem[act.at := act.word] else s.mem, act.at, act.word);
  }

  lemma {:induction false} HeldWords(c: Config, s: State, m: seq<int>, at: nat, word: int)
    requires Worded(c, s) && (InPayload(s.up, 0, at) || (Top(c, s) >= 0 && InPayload(s.down, Top(c, s), at)))
    requires m == if at < |s.mem| then s.mem[at := word] else s.mem
    ensures Worded(c, s.(mem := m))
  {
    hide Extents, Stands, Listed, Owned, TaskOf, Asked, InPayload, GrantAt;
    if InPayload(s.up, 0, at) {
      StandsPayload(s.mem, 0, s.up, at, word);
      StandsFrame(s.mem, m, BaseOf(c, s, true), s.down);
    } else {
      StandsPayload(s.mem, Top(c, s), s.down, at, word);
      StandsFrame(s.mem, m, 0, s.up);
    }
    forall j | 0 <= j < |s.ctx| ensures Asked(s.ctx[j], s.owners) && Granted(c, s.(mem := m), j) {
      assert Granted(c, s, j);
    }
  }

  // ---- the bump ---------------------------------------------------------------------------------------------

  /** What a bump that may be granted reads: the owed amounts leave room for it in either half, and with anything owed
      neither tier has room. */
  lemma {:induction false} BumpReads(c: Config, k: nat, s: State, i: nat)
    requires Inv(c, k, s) && Enabled(c, s, i, Bump) && s.ctx[i].pc.need > 0
    ensures var need := s.ctx[i].pc.need;
            var e, t := EndOf(c, s.word), TopOf(c, s.word);
            var owed, owedTop := Total(s.ctx, OwesEnd), Total(s.ctx, OwesTop);
      && need <= NeedMost(c) && owed >= 0 && owedTop >= 0
      && e + need < c.half && t < c.half
      && owed + owedTop + need < BytesMost(c)
      && s.word == Word(c, e, t) && e == End(s) + owed
      && t == (if Top(c, s) >= owedTop then Top(c, s) - owedTop else Top(c, s) - owedTop + c.half)
      && s.ctx[i].owesEnd == s.ctx[i].owesTop == 0 && Permitted(s.ctx[i]) && !DrainedAt(Writer(s))
  {
    hide Total, Extents;
    assert Sane(c, s.ctx[i]);
    TotalLeaves(c, s.ctx, i) by { assert forall j :: 0 <= j < |s.ctx| ==> Sane(c, s.ctx[j]); }
    ModOnce(Top(c, s), Total(s.ctx, OwesTop), c.half);
    WordSplits(c, s.word);
  }

  lemma {:induction false} WordSplits(c: Config, word: nat)
    requires c.half > 0 && word < c.half * c.half
    ensures word == Word(c, EndOf(c, word), TopOf(c, word)) && EndOf(c, word) < c.half && TopOf(c, word) < c.half
  {
    var q, r := word / c.half, word % c.half;
    assert word == q * c.half + r;
    if q >= c.half {
      Distribute(q - c.half, c.half, c.half);
      TimesNonNegative(q - c.half, c.half);
    }
  }

  /** With anything owed no bump of either tier is granted. */
  lemma {:induction false} OwedRefuses(c: Config, k: nat, s: State, i: nat)
    requires Inv(c, k, s) && Enabled(c, s, i, Bump) && s.ctx[i].pc.need > 0
    requires CarcerBounds.Fits(c, EndOf(c, s.word), TopOf(c, s.word), s.ctx[i].pc.down, s.ctx[i].pc.need)
    ensures Total(s.ctx, OwesEnd) == Total(s.ctx, OwesTop) == 0
    ensures End(s) + s.ctx[i].pc.need <= Top(c, s)
  {
    hide Total, Extents, EndOf, TopOf;
    BumpReads(c, k, s, i);
  }

  lemma {:induction false} BumpStep(c: Config, k: nat, s: State, i: nat)
    requires Inv(c, k, s) && Enabled(c, s, i, Bump)
    ensures Inv(c, k, Do(c, s, i, Bump))
  {
    hide Excluding, Balanced, Worded, Total, Extents, EndOf, TopOf;
    var s' := Do(c, s, i, Bump);
    var x := s'.ctx[i];
    assert Sane(c, s.ctx[i]);
    PassExcludes(s, s', i, x);
    BumpBalances(c, k, s, i);
    SaneStill(c, s, s', i, x);
    WordedAsked(c, s, i);
    if x.pc.taken {
      BumpedAt(c, k, s, i);
      if x.pc.down {
        GrantedDown(c, s, s', i, x);
      } else {
        GrantedUp(c, s, s', i, x);
      }
    } else {
      WordedGoes(c, s, s', i, x);
    }
  }

  /** A bump granted covers the grains next to its tier's chain. */
  lemma {:induction false} BumpedAt(c: Config, k: nat, s: State, i: nat)
    requires Inv(c, k, s) && Enabled(c, s, i, Bump) && s.ctx[i].pc.need < c.half
    requires DoBump(c, s, i).ctx[i].pc.taken
    ensures var x := DoBump(c, s, i).ctx[i].pc;
      && End(s) + x.need <= Top(c, s)
      && x.off == if x.down then Top(c, s) - x.need else End(s)
  {
    hide Total, Extents, EndOf, TopOf, Worded;
    BumpReads(c, k, s, i);
    OwedRefuses(c, k, s, i);
  }

  /** A cell granted at the end of the upward chain, none of its words stored. */
  lemma {:induction false} GrantedUp(c: Config, s: State, s': State, i: nat, x: Context)
    requires Worded(c, s) && i < |s.ctx| && s'.ctx == s.ctx[i := x] && TaskOf(s.ctx[i]) == None
    requires x.pc.Bumped? && x.pc.taken && !x.pc.down && x.pc.off == End(s) && x.pc.need >= HDR + 1
    requires End(s) + x.pc.need <= Top(c, s) && Asked(x, s.owners)
    requires s'.mem == s.mem && s'.owners == s.owners && s'.down == s.down
    requires s'.up == s.up + [Grant(x.pc.need, i, Bare, true, 0)]
    ensures Worded(c, s')
  {
    hide Stands, Listed, Owned, GrantAt, Extents, Asked;
    var g := Grant(x.pc.need, i, Bare, true, 0);
    ExtentsConcat(s.up, [g]);
    ExtentsOne(g);
    OneStands(s.mem, End(s), g);
    StandsConcat(s.mem, 0, s.up, [g]);
    OwnedElse(s.ctx, s'.ctx, i, 0, s.up, false);
    OwnedElse(s.ctx, s'.ctx, i, BaseOf(c, s, true), s.down, true);
    OneOwned(s'.ctx, End(s), g, false);
    OwnedConcat(s'.ctx, 0, s.up, [g], false);
    BareListed(s.up, [g], s.owners);
    forall j | 0 <= j < |s'.ctx| ensures Asked(s'.ctx[j], s'.owners) && Granted(c, s', j) {
      assert Granted(c, s, j) && Asked(s.ctx[j], s.owners);
      GrantLast(s.mem, s.up, 0, g, if TaskOf(s.ctx[j]).Some? then TaskOf(s.ctx[j]).value.off else 0);
    }
  }

  /** A cell granted at the top of the downward chain, none of its words stored. */
  lemma {:induction false} GrantedDown(c: Config, s: State, s': State, i: nat, x: Context)
    requires Worded(c, s) && i < |s.ctx| && s'.ctx == s.ctx[i := x] && TaskOf(s.ctx[i]) == None
    requires x.pc.Bumped? && x.pc.taken && x.pc.down && x.pc.off == Top(c, s) - x.pc.need && x.pc.need >= HDR + 1
    requires End(s) + x.pc.need <= Top(c, s) && Asked(x, s.owners)
    requires s'.mem == s.mem && s'.owners == s.owners && s'.up == s.up
    requires s'.down == [Grant(x.pc.need, i, Bare, true, 0)] + s.down
    ensures Worded(c, s')
  {
    hide Stands, Listed, Owned, GrantAt, Extents, Asked;
    var g := Grant(x.pc.need, i, Bare, true, 0);
    ExtentsConcat([g], s.down);
    ExtentsOne(g);
    OneStands(s.mem, x.pc.off, g);
    StandsConcat(s.mem, x.pc.off, [g], s.down);
    OwnedElse(s.ctx, s'.ctx, i, 0, s.up, false);
    OwnedElse(s.ctx, s'.ctx, i, BaseOf(c, s, true), s.down, true);
    OneOwned(s'.ctx, x.pc.off, g, true);
    OwnedConcat(s'.ctx, x.pc.off, [g], s.down, true);
    BareListed([g], s.down, s.owners);
    forall j | 0 <= j < |s'.ctx| ensures Asked(s'.ctx[j], s'.owners) && Granted(c, s', j) {
      assert Granted(c, s, j) && Asked(s.ctx[j], s.owners);
      GrantFirst(s.mem, s.down, Top(c, s), g, if TaskOf(s.ctx[j]).Some? then TaskOf(s.ctx[j]).value.off else 0);
    }
  }

  lemma {:induction false} OneStands(m: seq<int>, at: nat, g: Grant)
    requires g.words == Bare && g.extent >= HDR + 1 && at + g.extent <= |m|
    ensures Stands(m, at, [g])
  {
    assert [g][1..] == [];
  }

  lemma {:induction false} OneOwned(ctx: seq<Context>, at: nat, g: Grant, down: bool)
    requires g.taker < |ctx| && TaskOf(ctx[g.taker]).Some?
    requires TaskOf(ctx[g.taker]).value.off == at && TaskOf(ctx[g.taker]).value.down == down
    ensures Owned(ctx, at, [g], down)
  {
    assert [g][1..] == [];
  }

  lemma {:induction false} BareListed(a: seq<Grant>, b: seq<Grant>, owners: nat)
    requires (Listed(a, owners) || forall g :: g in a ==> g.words == Bare)
    requires (Listed(b, owners) || forall g :: g in b ==> g.words == Bare)
    ensures Listed(a + b, owners)
  {
  }

  /** The chains after a bump: one cell longer where it is granted. */
  lemma {:induction false} BumpExtents(c: Config, s: State, i: nat)
    requires Enabled(c, s, i, Bump) && c.half > 0 && s.ctx[i].pc.need < c.half
    ensures var s' := DoBump(c, s, i);
            var x := s'.ctx[i];
            var need := s.ctx[i].pc.need;
      && Extents(s'.up) == Extents(s.up) + (if x.pc.taken && !x.pc.down then need else 0)
      && Extents(s'.down) == Extents(s.down) + (if x.pc.taken && x.pc.down then need else 0)
  {
    var g := Grant(s.ctx[i].pc.need, i, Bare, true, 0);
    ExtentsConcat(s.up, [g]);
    ExtentsConcat([g], s.down);
    ExtentsOne(g);
  }

  /** The word after a bump, told by its halves. */
  lemma {:induction false} BumpWord(c: Config, k: nat, s: State, i: nat)
    requires Inv(c, k, s) && Enabled(c, s, i, Bump) && s.ctx[i].pc.need > 0
    ensures var need, down := s.ctx[i].pc.need, s.ctx[i].pc.down;
            var word := FetchAdd(c, s.word, Moved(c, down, need));
            var owedTop := Total(s.ctx, OwesTop);
      && word < c.half * c.half
      && EndOf(c, word) == EndOf(c, s.word) + (if down then 0 else need)
      && TopOf(c, word) == (Top(c, s) - owedTop - (if down then need else 0)) % c.half
  {
    hide Total, Extents, EndOf, TopOf, Excluding, Worded, Word, FetchAdd, Moved, Inv;
    BumpReads(c, k, s, i);
    var need, down := s.ctx[i].pc.need, s.ctx[i].pc.down;
    var e, t := EndOf(c, s.word), TopOf(c, s.word);
    SizesSmall(c, k, s);
    BumpMoves(c, e, t, down, need);
    WordReads(c, if down then e else e + need, if down then SubWrap(c, t, need) else t);
    ModOnce(Top(c, s), Total(s.ctx, OwesTop) + (if down then need else 0), c.half);
  }

  lemma {:induction false} SizesSmall(c: Config, k: nat, s: State)
    requires Inv(c, k, s)
    ensures 0 <= Top(c, s) <= c.size <= BytesMost(c) <= c.half / 2 && Extents(s.up) + Extents(s.down) <= c.size
    ensures NeedMost(c) < BytesMost(c)
  {
  }

  /** The sums after a bump: its need is owed and pending on its own side where it is refused. */
  lemma {:induction false} BumpTotals(c: Config, s: State, i: nat)
    requires Enabled(c, s, i, Bump) && c.half > 0 && s.ctx[i].pc.need < c.half
    ensures var s' := DoBump(c, s, i);
            var x := s'.ctx[i];
            var owes := if x.pc.taken then 0 else s.ctx[i].pc.need;
      && Total(s'.ctx, OwesEnd) == Total(s.ctx, OwesEnd) + (if x.pc.down then 0 else owes)
      && Total(s'.ctx, OwesTop) == Total(s.ctx, OwesTop) + (if x.pc.down then owes else 0)
      && Total(s'.ctx, PendingEnd) == Total(s.ctx, PendingEnd) + (if x.pc.down then 0 else owes)
      && Total(s'.ctx, PendingTop) == Total(s.ctx, PendingTop) + (if x.pc.down then owes else 0)
  {
    hide Total, FetchAdd, Moved, CarcerBounds.Fits, EndOf, TopOf;
    var x := DoBump(c, s, i).ctx[i];
    TotalUpdate(s.ctx, i, x, OwesEnd);
    TotalUpdate(s.ctx, i, x, OwesTop);
    TotalUpdate(s.ctx, i, x, PendingEnd);
    TotalUpdate(s.ctx, i, x, PendingTop);
  }

  lemma {:induction false} BumpBalances(c: Config, k: nat, s: State, i: nat)
    requires Inv(c, k, s) && Enabled(c, s, i, Bump)
    ensures Balanced(c, Do(c, s, i, Bump))
  {
    hide Total, Extents, EndOf, TopOf, Excluding, Worded, Word, FetchAdd, Moved;
    var s' := Do(c, s, i, Bump);
    assert Sane(c, s.ctx[i]);
    BumpTotals(c, s, i);
    BumpExtents(c, s, i);
    BumpWriter(c, k, s, i);
    if s.ctx[i].pc.need == 0 {
      NothingMoved(c, s.word, s.ctx[i].pc.down);
    } else {
      BumpReads(c, k, s, i);
      BumpWord(c, k, s, i);
      if s'.ctx[i].pc.taken {
        OwedRefuses(c, k, s, i);
      }
    }
  }

  lemma {:induction false} BumpWriter(c: Config, k: nat, s: State, i: nat)
    requires Inv(c, k, s) && Enabled(c, s, i, Bump)
    ensures Writer(Do(c, s, i, Bump)) == Writer(s)
  {
    hide Balanced, Worded;
    assert Writes(s.ctx[i]) <==> i == s.holder;
  }

  lemma {:induction false} NothingMoved(c: Config, word: nat, down: bool)
    requires c.half > 0 && word < c.half * c.half
    ensures FetchAdd(c, word, Moved(c, down, 0)) == word
  {
    Below(word, c.half * c.half);
  }

  // ---- every run --------------------------------------------------------------------------------------------

  lemma {:induction false} StepKeeps(c: Config, k: nat, s: State, i: nat, act: Action)
    requires Inv(c, k, s) && Enabled(c, s, i, act)
    ensures s.ctx[i].pc.Ready? ==> s.ctx[i].pc.need < c.half
    ensures Inv(c, k, Do(c, s, i, act))
  {
    hide Excluding, Balanced, Worded;
    assert Sane(c, s.ctx[i]);
    match act {
      case Enter(_, _, _, _) => PassSteps(c, k, s, i, act);
      case ReadClosed => PassSteps(c, k, s, i, act);
      case ReadAhead => PassSteps(c, k, s, i, act);
      case Read => PassSteps(c, k, s, i, act);
      case Want => PassSteps(c, k, s, i, act);
      case Bump => BumpStep(c, k, s, i);
      case Record => RecordStep(c, k, s, i);
      case LayOwner(_) => LayStep(c, k, s, i, act);
      case LayHeader => LayStep(c, k, s, i, act);
      case Leave => LeaveStep(c, k, s, i);
      case Trim => CloseStep(c, k, s, i, act);
      case Close => CloseStep(c, k, s, i, act);
      case Drain => DrainStep(c, k, s, i);
      case Settle => SettleStep(c, k, s, i);
      case ZeroEnd => ZeroEndStep(c, k, s, i);
      case ZeroTop => ZeroTopStep(c, k, s, i);
      case Write(_, _, _) => WriteStep(c, k, s, i, act);
      case Open => OpenStep(c, k, s, i);
      case Hold(_, _) => HoldStep(c, k, s, i, act);
    }
  }

  lemma {:induction false} InitKeeps(c: Config, k: nat, mem: seq<int>, owners: nat)
    requires Bounded(c, k) && |mem| == c.size
    ensures Inv(c, k, Init(c, k, mem, owners))
  {
    var s := Init(c, k, mem, owners);
    TotalZero(s.ctx, OwesEnd);
    TotalZero(s.ctx, OwesTop);
    TotalZero(s.ctx, PendingEnd);
    TotalZero(s.ctx, PendingTop);
    WordReads(c, 0, c.size);
    Below(c.size, c.half);
  }

  ghost predicate Stepped(c: Config, s: State, i: nat, act: Action, s': State) {
    && Enabled(c, s, i, act) && c.half > 0 && c.header + c.wantMost < c.half
    && (s.ctx[i].pc.Ready? ==> s.ctx[i].pc.need < c.half)
    && s' == Do(c, s, i, act)
  }

  /** A run: an interleaving of the contexts' steps from an empty cellblock. */
  ghost predicate Runs(c: Config, k: nat, states: seq<State>, who: seq<nat>, acts: seq<Action>) {
    && c.half > 0
    && |states| == |who| + 1 == |acts| + 1
    && |states[0].mem| == c.size && states[0] == Init(c, k, states[0].mem, states[0].owners)
    && forall n :: 0 <= n < |who| ==> Stepped(c, states[n], who[n], acts[n], states[n + 1])
  }

  /** Every state of every run keeps what the steps keep. */
  lemma {:induction false} RunKeeps(c: Config, k: nat, states: seq<State>, who: seq<nat>, acts: seq<Action>, n: nat)
    requires Bounded(c, k) && Runs(c, k, states, who, acts) && n < |states|
    ensures Inv(c, k, states[n])
  {
    hide Inv, Do, Enabled;
    if n == 0 {
      InitKeeps(c, k, states[0].mem, states[0].owners);
    } else {
      RunKeeps(c, k, states, who, acts, n - 1);
      assert Stepped(c, states[n - 1], who[n - 1], acts[n - 1], states[n]);
      StepKeeps(c, k, states[n - 1], who[n - 1], acts[n - 1]);
    }
  }

  // ---- what a run can be relied on for ----------------------------------------------------------------------

  /** Writers exclude one another, no permitted pass overlaps a drained writer's section, and no context drains, or
      waits for the bit, while it holds a lane. */
  lemma {:induction false} WritersExclude(c: Config, k: nat, states: seq<State>, who: seq<nat>, acts: seq<Action>,
                                          n: nat, i: nat, j: nat)
    requires Bounded(c, k) && Runs(c, k, states, who, acts) && n < |states| && i < k && j < k
    ensures |states[n].ctx| == k
    ensures Writes(states[n].ctx[i]) && Writes(states[n].ctx[j]) ==> i == j
    ensures DrainedAt(states[n].ctx[i].pc) ==> !Permitted(states[n].ctx[j])
    ensures Writes(states[n].ctx[i]) || states[n].ctx[i].pc.Wants? ==> !states[n].ctx[i].lane
  {
    hide Balanced, Worded;
    RunKeeps(c, k, states, who, acts, n);
    assert Sane(c, states[n].ctx[i]);
  }

  lemma {:induction false} WholeWhenDrained(c: Config, ctx: seq<Context>, at: nat, grants: seq<Grant>, down: bool)
    requires Owned(ctx, at, grants, down)
    requires forall j :: 0 <= j < |ctx| ==> Sane(c, ctx[j]) && !Permitted(ctx[j])
    ensures AllWhole(grants)
    decreases |grants|
  {
    if grants != [] {
      if grants[0].words != Whole {
        NoTask(c, ctx[grants[0].taker]);
      }
      WholeWhenDrained(c, ctx, at + grants[0].extent, grants[1..], down);
      assert forall g :: g in grants ==> g == grants[0] || g in grants[1..];
    }
  }

  /** The two chains as memory holds them. */
  ghost function UpCells(c: Config, s: State): seq<Cell>
    requires Worded(c, s)
  {
    Cells(s.mem, 0, s.up)
  }

  ghost function DownCells(c: Config, s: State): seq<Cell>
    requires Worded(c, s)
  {
    Cells(s.mem, BaseOf(c, s, true), s.down)
  }

  /** With no pass permitted, both chains' words are all stored: memory is tiled by them. */
  lemma {:induction false} DrainedTiled(c: Config, s: State)
    requires Worded(c, s) && forall j :: 0 <= j < |s.ctx| ==> Sane(c, s.ctx[j]) && !Permitted(s.ctx[j])
    ensures Tilings(s.mem, UpCells(c, s), DownCells(c, s), s.owners)
    ensures Span(UpCells(c, s)) == End(s) && Span(DownCells(c, s)) == c.size - Top(c, s)
  {
    hide Lays, Span, Extents, Stands, Owned, Listed, Footed, Cells;
    WholeWhenDrained(c, s.ctx, 0, s.up, false);
    WholeWhenDrained(c, s.ctx, BaseOf(c, s, true), s.down, true);
    WholeLays(s.mem, 0, s.up, s.owners);
    WholeLays(s.mem, BaseOf(c, s, true), s.down, s.owners);
  }

  /** A writer alone finds what the walks need: both boundaries at their chains, nothing overrun, and memory tiled by
      both chains. */
  lemma {:induction false} AloneRests(c: Config, k: nat, states: seq<State>, who: seq<nat>, acts: seq<Action>, n: nat,
                                      i: nat)
    requires Bounded(c, k) && Runs(c, k, states, who, acts) && n < |states|
    requires i < |states[n].ctx| && states[n].ctx[i].pc.Alone?
    ensures var s := states[n];
      && 0 <= Top(c, s) && s.word == Word(c, End(s), Top(c, s)) && End(s) <= Top(c, s)
      && s.overEnd == 0 && s.overTop == 0
      && Worded(c, s) && Tilings(s.mem, UpCells(c, s), DownCells(c, s), s.owners)
  {
    hide Total, Extents, EndOf, TopOf, Word, Worded, Tilings;
    RunKeeps(c, k, states, who, acts, n);
    var s := states[n];
    assert Writes(s.ctx[i]);
    DrainedNone(c, s);
    WordSplits(c, s.word);
    Below(Top(c, s), c.half);
    assert forall j :: 0 <= j < |s.ctx| ==> Sane(c, s.ctx[j]);
    DrainedTiled(c, s);
  }

  /** A writer whose drain is over finds the block as its first step takes it: each boundary displaced from its chain by
      exactly its overrun, in its own half, and memory tiled by both chains. */
  lemma {:induction false} DrainedDisplaced(c: Config, k: nat, states: seq<State>, who: seq<nat>, acts: seq<Action>,
                                            n: nat, i: nat)
    requires Bounded(c, k) && Runs(c, k, states, who, acts) && n < |states|
    requires i < |states[n].ctx| && states[n].ctx[i].pc.Draining? && states[n].ctx[i].pc.waiting == {}
    ensures var s := states[n];
      && 0 <= Top(c, s) && End(s) <= Top(c, s) && Displaces(c, s.word, End(s), Top(c, s), s.overEnd, s.overTop)
      && Worded(c, s) && Tilings(s.mem, UpCells(c, s), DownCells(c, s), s.owners)
      && Span(UpCells(c, s)) == End(s) && Span(DownCells(c, s)) == c.size - Top(c, s)
  {
    hide Total, Extents, EndOf, TopOf, Word, Worded, Tilings, Span;
    RunKeeps(c, k, states, who, acts, n);
    var s := states[n];
    assert Writes(s.ctx[i]);
    DrainedNone(c, s);
    TotalZero(s.ctx, PendingEnd);
    TotalZero(s.ctx, PendingTop);
    assert forall j :: 0 <= j < |s.ctx| ==> Sane(c, s.ctx[j]);
    TotalMost(c, s.ctx);
    SizesSmall(c, k, s);
    ModOnce(Top(c, s), s.overTop, c.half);
    WordSplits(c, s.word);
    DrainedTiled(c, s);
  }

  /** A bump granted is granted the gap's own grains: from the persistent end up or from the temporary start down, as
      the old word gives them, and over no cell of either chain. */
  lemma {:induction false} GrantApart(c: Config, k: nat, states: seq<State>, who: seq<nat>, acts: seq<Action>, n: nat)
    requires Bounded(c, k) && Runs(c, k, states, who, acts) && n < |who| && acts[n].Bump?
    requires who[n] < |states[n].ctx| && states[n].ctx[who[n]].pc.Ready?
    requires who[n] < |states[n + 1].ctx| && states[n + 1].ctx[who[n]].pc.Bumped? && states[n + 1].ctx[who[n]].pc.taken
    ensures var s, x := states[n], states[n].ctx[who[n]];
            var off := if x.pc.down then TopOf(c, s.word) - x.pc.need else EndOf(c, s.word);
      && End(s) <= off && off + x.pc.need <= Top(c, s)
      && (if x.pc.down then off + x.pc.need == Top(c, s) == Top(c, states[n + 1]) + x.pc.need
          else off == End(s) == End(states[n + 1]) - x.pc.need)
  {
    hide Total, Extents, EndOf, TopOf, Word, FetchAdd, Moved;
    RunKeeps(c, k, states, who, acts, n);
    assert Stepped(c, states[n], who[n], acts[n], states[n + 1]);
    OwedRefuses(c, k, states[n], who[n]);
    BumpReads(c, k, states[n], who[n]);
    BumpExtents(c, states[n], who[n]);
  }

  /** After a refused bump every bump of either tier is refused, whoever makes it, until a writer settles. */
  lemma {:induction false} RefusedUntilSettled(c: Config, k: nat, states: seq<State>, who: seq<nat>, acts: seq<Action>,
                                               n: nat)
    requires Bounded(c, k) && Runs(c, k, states, who, acts) && n < |who|
    requires Total(states[n].ctx, OwesEnd) + Total(states[n].ctx, OwesTop) > 0 && !acts[n].Settle?
    ensures Total(states[n + 1].ctx, OwesEnd) + Total(states[n + 1].ctx, OwesTop) > 0
    ensures End(states[n + 1]) == End(states[n]) && Top(c, states[n + 1]) == Top(c, states[n])
  {
    hide Total, Extents, Inv, Do, Enabled;
    RunKeeps(c, k, states, who, acts, n);
    assert Stepped(c, states[n], who[n], acts[n], states[n + 1]);
    if acts[n].Bump? {
      OwedBump(c, k, states[n], who[n]);
    } else {
      OwedStands(c, k, states[n], who[n], acts[n]);
    }
  }

  lemma {:induction false} OwedBump(c: Config, k: nat, s: State, i: nat)
    requires Inv(c, k, s) && Enabled(c, s, i, Bump) && Total(s.ctx, OwesEnd) + Total(s.ctx, OwesTop) > 0
    ensures s.ctx[i].pc.need < c.half
    ensures var s' := Do(c, s, i, Bump);
      && Total(s'.ctx, OwesEnd) + Total(s'.ctx, OwesTop) > 0
      && End(s') == End(s) && Top(c, s') == Top(c, s)
  {
    hide Total, Extents, Balanced, Excluding, Owned, EndOf, TopOf, FetchAdd, Moved;
    assert Sane(c, s.ctx[i]);
    var s' := DoBump(c, s, i);
    TotalUpdate(s.ctx, i, s'.ctx[i], OwesEnd);
    TotalUpdate(s.ctx, i, s'.ctx[i], OwesTop);
    BumpExtents(c, s, i);
    if s'.ctx[i].pc.taken {
      OwedRefuses(c, k, s, i);
    }
  }

  /** What a step that is neither a bump, a settle nor a writer's work leaves of what is owed and of the chains. */
  lemma {:induction false} StepFrames(c: Config, s: State, i: nat, act: Action)
    requires Worded(c, s) && Enabled(c, s, i, act) && !act.Bump? && !act.Settle? && !act.Write? && c.half > 0
    requires c.header + c.wantMost < c.half && (s.ctx[i].pc.Ready? ==> s.ctx[i].pc.need < c.half)
    ensures var s' := Do(c, s, i, act);
      && |s'.ctx| == |s.ctx|
      && (forall j :: 0 <= j < |s.ctx| ==>
          s'.ctx[j].owesEnd == s.ctx[j].owesEnd && s'.ctx[j].owesTop == s.ctx[j].owesTop)
      && Extents(s'.up) == Extents(s.up) && Extents(s'.down) == Extents(s.down)
  {
    hide Worded, Extents, EndOf, TopOf, FetchAdd, Moved, InPayload;
    if act.LayOwner? || act.LayHeader? {
      LaidWords(c, s, i, act);
    }
  }

  lemma {:induction false} OwedStands(c: Config, k: nat, s: State, i: nat, act: Action)
    requires Inv(c, k, s) && Enabled(c, s, i, act) && Total(s.ctx, OwesEnd) + Total(s.ctx, OwesTop) > 0
    requires !act.Bump? && !act.Settle?
    ensures s.ctx[i].pc.Ready? ==> s.ctx[i].pc.need < c.half
    ensures var s' := Do(c, s, i, act);
      && Total(s'.ctx, OwesEnd) == Total(s.ctx, OwesEnd) && Total(s'.ctx, OwesTop) == Total(s.ctx, OwesTop)
      && End(s') == End(s) && Top(c, s') == Top(c, s)
  {
    hide Total, Extents, Worded, EndOf, TopOf, Do;
    assert Sane(c, s.ctx[i]);
    assert Writes(s.ctx[i]) ==> s.holder == i;
    StepFrames(c, s, i, act);
    TotalSame(s.ctx, Do(c, s, i, act).ctx, OwesEnd);
    TotalSame(s.ctx, Do(c, s, i, act).ctx, OwesTop);
  }

  /** A pass that is not permitted moves neither boundary, records nothing and stores no cell's word. */
  lemma {:induction false} UnpermittedMovesNothing(c: Config, k: nat, states: seq<State>, who: seq<nat>,
                                                   acts: seq<Action>, n: nat)
    requires Bounded(c, k) && Runs(c, k, states, who, acts) && n < |who| && who[n] < |states[n].ctx|
    requires InPass(states[n].ctx[who[n]]) && !Permitted(states[n].ctx[who[n]])
    ensures states[n + 1].word == states[n].word
    ensures states[n + 1].overEnd == states[n].overEnd && states[n + 1].overTop == states[n].overTop
    ensures states[n + 1].mem == states[n].mem || acts[n].Hold?
    ensures End(states[n + 1]) == End(states[n]) && Top(c, states[n + 1]) == Top(c, states[n])
  {
    hide Total, Extents, EndOf, TopOf, FetchAdd, Moved, Worded, InPayload;
    RunKeeps(c, k, states, who, acts, n);
    var s, i := states[n], who[n];
    assert Stepped(c, s, i, acts[n], states[n + 1]);
    assert Sane(c, s.ctx[i]);
    if acts[n].Bump? {
      NothingMoved(c, s.word, s.ctx[i].pc.down);
    }
    if acts[n].LayOwner? || acts[n].LayHeader? {
      LaidWords(c, s, i, acts[n]);
    }
  }

  // ---- a drain ends -----------------------------------------------------------------------------------------

  /** Steps a context has to its leave. */
  function StepsLeft(x: Context): nat {
    match x.pc
    case Entered(_, _, _) => 7
    case Admitted(_, _, _, _) => 6
    case Ready(_, _, _, _) => 5
    case Bumped(_, _, _, _, _, _) => 4
    case Recorded(_, _, _, _, _, _) => 3
    case Laying(_, _, _, _, _, _, _) => 2
    case Done(_, _) => 1
    case _ => 0
  }

  /** The next step of a pass, which nothing keeps it from taking. */
  function NextStep(x: Context): Action
    requires InPass(x)
  {
    match x.pc
    case Entered(_, _, _) => ReadClosed
    case Admitted(_, _, _, _) => ReadAhead
    case Ready(_, _, _, _) => Bump
    case Bumped(_, _, _, _, _, _) => Record
    case Recorded(_, _, _, _, _, _) => LayOwner(0)
    case Laying(_, _, _, _, _, _, _) => LayHeader
    case _ => Leave
  }

  /** One context's step as another sees it, and as it moves the context itself nearer its leave. */
  lemma {:induction false} StepsFall(c: Config, s: State, i: nat, act: Action, j: nat)
    requires Enabled(c, s, i, act) && c.half > 0 && c.header + c.wantMost < c.half && j < |s.ctx| && j != s.holder
    requires s.ctx[i].pc.Ready? ==> s.ctx[i].pc.need < c.half
    ensures |Do(c, s, i, act).ctx| == |s.ctx|
    ensures i != j ==> Do(c, s, i, act).ctx[j].pc == s.ctx[j].pc
    ensures i == j && InPass(s.ctx[j]) && !act.Hold? ==> StepsLeft(Do(c, s, i, act).ctx[j]) < StepsLeft(s.ctx[j])
    ensures i == j && act.Hold? ==> Do(c, s, i, act).ctx[j].pc == s.ctx[j].pc
  {
    hide EndOf, TopOf, FetchAdd, Moved, InPayload, CarcerBounds.Fits, Replaced, Tilings, Extents, SettledWord;
  }

  /** A context a drain waits for is in a pass, may always take its next step, and is one step nearer its leave for
      each it takes, whatever the others do: a drain waits on no context that waits on it. */
  lemma {:induction false} DrainEnds(c: Config, k: nat, s: State, j: nat, i: nat, act: Action)
    requires Inv(c, k, s) && Writer(s).Draining? && j in Writer(s).waiting
    requires Enabled(c, s, i, act)
    ensures j < |s.ctx| && InPass(s.ctx[j]) && Enabled(c, s, j, NextStep(s.ctx[j]))
    ensures s.ctx[i].pc.Ready? ==> s.ctx[i].pc.need < c.half
    ensures |Do(c, s, i, act).ctx| == |s.ctx|
    ensures StepsLeft(Do(c, s, i, act).ctx[j]) <= StepsLeft(s.ctx[j]) - if i == j && !act.Hold? then 1 else 0
    ensures i == j && act.Leave? ==> Writer(Do(c, s, i, act)).Draining? && j !in Writer(Do(c, s, i, act)).waiting
  {
    hide Total, Extents, EndOf, TopOf, Balanced, Worded, Do;
    assert Sane(c, s.ctx[j]) && Sane(c, s.ctx[i]);
    assert Writes(s.ctx[s.holder]);
    assert s.holder != j;
    StepsFall(c, s, i, act, j);
    if i == j && act.Leave? {
      LeaveFrees(c, s, j);
    }
  }

  lemma {:induction false} LeaveFrees(c: Config, s: State, j: nat)
    requires Enabled(c, s, j, Leave) && Writer(s).Draining? && s.holder != j && c.half > 0
    requires c.header + c.wantMost < c.half
    ensures Writer(Do(c, s, j, Leave)).Draining? && j !in Writer(Do(c, s, j, Leave)).waiting
  {
  }
}
