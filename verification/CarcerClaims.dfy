/** Slot claims and releases that race: each reads a claim word, takes its bit with one fetch-or, and names its slot; a
    release unnames its slot and then clears its bit. A step of one context is one atomic operation. */
module CarcerClaims {

  datatype Pc =
    | Idle
    | Looked(p: nat, payload: int)
    | Won(p: nat, payload: int)
    | Leaving(p: nat)

  /** The slots' words and their claim bits. */
  datatype State = State(slots: seq<int>, bits: seq<bool>, ctx: seq<Pc>)

  datatype Action =
    | Look(p: nat, payload: int)
    | FetchOr
    | Name
    | Unname(p: nat)
    | FetchAnd

  /** A claim looks at a bit that is clear as it reads the word; a release unnames a slot that names a cell, which its
      give took once. */
  predicate Enabled(s: State, i: nat, act: Action) {
    && i < |s.ctx|
    && match act
       case Look(p, payload) => s.ctx[i].Idle? && p < |s.bits| && !s.bits[p] && payload != 0
       case FetchOr => s.ctx[i].Looked?
       case Name => s.ctx[i].Won?
       case Unname(p) => s.ctx[i].Idle? && p < |s.slots| && s.slots[p] != 0
       case FetchAnd => s.ctx[i].Leaving?
  }

  function Do(s: State, i: nat, act: Action): State
    requires Enabled(s, i, act) && |s.slots| == |s.bits|
  {
    var x := s.ctx[i];
    match act
    case Look(p, payload) => s.(ctx := s.ctx[i := Looked(p, payload)])
    case FetchOr =>
      if x.p >= |s.bits| || s.bits[x.p] then s.(ctx := s.ctx[i := Idle])
      else s.(bits := s.bits[x.p := true], ctx := s.ctx[i := Won(x.p, x.payload)])
    case Name => s.(slots := if x.p < |s.slots| then s.slots[x.p := x.payload] else s.slots, ctx := s.ctx[i := Idle])
    case Unname(p) => s.(slots := s.slots[p := 0], ctx := s.ctx[i := Leaving(p)])
    case FetchAnd => s.(bits := if x.p < |s.bits| then s.bits[x.p := false] else s.bits, ctx := s.ctx[i := Idle])
  }

  /** A context between a bit's set or clear and its slot's word. */
  predicate Between(x: Pc, p: nat) {
    (x.Won? || x.Leaving?) && x.p == p
  }

  ghost predicate Sized(s: State) {
    && |s.slots| == |s.bits|
    && forall i :: 0 <= i < |s.ctx| ==>
         && ((s.ctx[i].Won? || s.ctx[i].Leaving?) ==> s.ctx[i].p < |s.slots|)
         && ((s.ctx[i].Won? || s.ctx[i].Looked?) ==> s.ctx[i].payload != 0)
  }

  /** A slot that names a cell has its bit set, and one a context is between has its bit set and names none. */
  ghost predicate Marked(s: State)
    requires Sized(s)
  {
    && (forall p :: 0 <= p < |s.slots| && s.slots[p] != 0 ==> s.bits[p])
    && forall i :: 0 <= i < |s.ctx| && (s.ctx[i].Won? || s.ctx[i].Leaving?) ==>
         s.bits[s.ctx[i].p] && s.slots[s.ctx[i].p] == 0
  }

  ghost predicate Held(s: State)
    requires Sized(s)
  {
    forall p :: 0 <= p < |s.slots| && s.bits[p] && s.slots[p] == 0 ==>
      exists i :: 0 <= i < |s.ctx| && Between(s.ctx[i], p)
  }

  ghost predicate Apart(s: State) {
    forall i, j :: 0 <= i < j < |s.ctx| && (s.ctx[i].Won? || s.ctx[i].Leaving?) ==> !Between(s.ctx[j], s.ctx[i].p)
  }

  /** A bit is set while its slot names a cell or one context is between the two, never both, and never two contexts. */
  ghost predicate Inv(s: State) {
    Sized(s) && Marked(s) && Held(s) && Apart(s)
  }

  lemma {:induction false} MarkedStays(s: State, i: nat, act: Action)
    requires Inv(s) && Enabled(s, i, act)
    ensures Sized(Do(s, i, act)) && Marked(Do(s, i, act))
  {
    hide Held;
  }

  lemma {:induction false} ApartStays(s: State, i: nat, act: Action)
    requires Inv(s) && Enabled(s, i, act)
    ensures Apart(Do(s, i, act))
  {
    hide Held;
  }

  /** After a step every bit set without a slot named has its context. */
  lemma {:induction false} BitsHeld(s: State, i: nat, act: Action, p: nat)
    requires Inv(s) && Enabled(s, i, act) && p < |Do(s, i, act).slots| == |Do(s, i, act).bits|
    requires Do(s, i, act).bits[p] && Do(s, i, act).slots[p] == 0
    ensures exists j :: 0 <= j < |Do(s, i, act).ctx| && Between(Do(s, i, act).ctx[j], p)
  {
    var s' := Do(s, i, act);
    if s.bits[p] && s.slots[p] == 0 {
      var j :| 0 <= j < |s.ctx| && Between(s.ctx[j], p);
      if j != i {
        assert Between(s'.ctx[j], p);
      }
    } else {
      assert Between(s'.ctx[i], p);
    }
  }

  lemma {:induction false} StepKeeps(s: State, i: nat, act: Action)
    requires Inv(s) && Enabled(s, i, act)
    ensures Inv(Do(s, i, act))
  {
    hide Do, Enabled, Apart;
    var s' := Do(s, i, act);
    MarkedStays(s, i, act);
    ApartStays(s, i, act);
    forall p | 0 <= p < |s'.slots| && s'.bits[p] && s'.slots[p] == 0
      ensures exists j :: 0 <= j < |s'.ctx| && Between(s'.ctx[j], p)
    {
      BitsHeld(s, i, act, p);
    }
  }

  /** A run from a table with no slot named. */
  ghost predicate Runs(k: nat, cells: nat, states: seq<State>, who: seq<nat>, acts: seq<Action>) {
    && |states| == |who| + 1 == |acts| + 1
    && states[0] == State(seq(cells, _ => 0), seq(cells, _ => false), seq(k, _ => Idle))
    && forall n :: 0 <= n < |who| ==>
         |states[n].slots| == |states[n].bits| && Enabled(states[n], who[n], acts[n])
         && states[n + 1] == Do(states[n], who[n], acts[n])
  }

  lemma {:induction false} RunKeeps(k: nat, cells: nat, states: seq<State>, who: seq<nat>, acts: seq<Action>, n: nat)
    requires Runs(k, cells, states, who, acts) && n < |states|
    ensures Inv(states[n])
  {
    hide Inv, Do;
    if n == 0 {
      Starts(k, cells);
    } else {
      RunKeeps(k, cells, states, who, acts, n - 1);
      StepKeeps(states[n - 1], who[n - 1], acts[n - 1]);
    }
  }

  lemma {:induction false} Starts(k: nat, cells: nat)
    ensures Inv(State(seq(cells, _ => 0), seq(cells, _ => false), seq(k, _ => Idle)))
  {
  }

  /** Of two claims that read the same bit clear, the one whose fetch-or finds it set changes nothing. The other names a
      slot that names no cell and that no other context is naming or leaving. */
  lemma {:induction false} ClaimsApart(k: nat, cells: nat, states: seq<State>, who: seq<nat>, acts: seq<Action>, n: nat)
    requires Runs(k, cells, states, who, acts) && n < |who| && acts[n].FetchOr?
    ensures var s, s', i := states[n], states[n + 1], who[n];
      && i < |s.ctx| == |s'.ctx| && s.ctx[i].Looked? && |s.slots| == |s.bits|
      && (s'.ctx[i].Won? <==> s.ctx[i].p < |s.bits| && !s.bits[s.ctx[i].p])
      && (!s'.ctx[i].Won? ==> s'.ctx[i].Idle? && s'.slots == s.slots && s'.bits == s.bits)
      && (s'.ctx[i].Won? ==> (
            && s'.ctx[i].p < |s'.slots| && s'.slots[s'.ctx[i].p] == 0
            && forall j :: 0 <= j < |s'.ctx| && j != i ==> !Between(s'.ctx[j], s'.ctx[i].p)))
  {
    RunKeeps(k, cells, states, who, acts, n);
    RunKeeps(k, cells, states, who, acts, n + 1);
  }

  /** A slot named stays named for one cell until its own release: no claim renames it. */
  lemma {:induction false} NamedStands(k: nat, cells: nat, states: seq<State>, who: seq<nat>, acts: seq<Action>, n: nat,
                                       p: nat)
    requires Runs(k, cells, states, who, acts) && n < |who| && p < |states[n].slots| && states[n].slots[p] != 0
    requires acts[n] != Unname(p)
    ensures p < |states[n + 1].slots| && states[n + 1].slots[p] == states[n].slots[p]
  {
    RunKeeps(k, cells, states, who, acts, n);
  }

  /** A claim or a release under way by a context keeps the slot and the cell it set out with. */
  lemma {:induction false} WayHolds(k: nat, cells: nat, states: seq<State>, who: seq<nat>, acts: seq<Action>, m: nat,
                                    n: nat)
    requires Runs(k, cells, states, who, acts) && m < n < |states| && (acts[m].Look? || acts[m].Unname?)
    requires forall j :: m < j <= n ==> UnderWay(states[j], who[m])
    ensures UnderWay(states[n], who[m]) && |states[n].slots| == |states[m].slots|
    ensures var x := states[n].ctx[who[m]];
      && x.p == acts[m].p && (x.Leaving? <==> acts[m].Unname?)
      && (acts[m].Look? ==> x.payload == acts[m].payload)
    decreases n
  {
    var s, i, act := states[n - 1], who[n - 1], acts[n - 1];
    assert Enabled(s, i, act) && states[n] == Do(s, i, act) && UnderWay(states[n], who[m]);
    if n > m + 1 {
      WayHolds(k, cells, states, who, acts, m, n - 1);
    }
  }

  predicate UnderWay(s: State, i: nat) {
    i < |s.ctx| && !s.ctx[i].Idle?
  }

  /** A claim that wins its bit leaves the slot it looked at naming the very cell it came with. */
  lemma {:induction false} NameCarries(k: nat, cells: nat, states: seq<State>, who: seq<nat>, acts: seq<Action>, m: nat,
                                       t: nat)
    requires Runs(k, cells, states, who, acts) && m < t < |who| && who[t] == who[m]
    requires acts[m].Look? && acts[t].Name?
    requires forall j :: m < j <= t ==> UnderWay(states[j], who[m])
    ensures acts[m].p < |states[t].slots| && states[t].slots[acts[m].p] == 0
    ensures states[t + 1].slots == states[t].slots[acts[m].p := acts[m].payload] && states[t + 1].bits == states[t].bits
    ensures |states[t + 1].bits| == |states[t].slots| && states[t + 1].bits[acts[m].p]
  {
    hide Held, Apart;
    WayHolds(k, cells, states, who, acts, m, t);
    RunKeeps(k, cells, states, who, acts, t);
    assert Enabled(states[t], who[t], acts[t]) && states[t + 1] == Do(states[t], who[t], acts[t]);
  }

  /** A release leaves its own slot naming none and its own bit clear, and no other bit changed. */
  lemma {:induction false} ReleaseClears(k: nat, cells: nat, states: seq<State>, who: seq<nat>, acts: seq<Action>,
                                         m: nat, t: nat)
    requires Runs(k, cells, states, who, acts) && m < t < |who| && who[t] == who[m]
    requires acts[m].Unname? && acts[t].FetchAnd?
    requires forall j :: m < j <= t ==> UnderWay(states[j], who[m])
    ensures acts[m].p < |states[t].slots| == |states[t].bits|
    ensures states[t + 1].slots == states[t].slots && states[t + 1].slots[acts[m].p] == 0
    ensures states[t + 1].bits == states[t].bits[acts[m].p := false]
  {
    hide Held, Apart;
    WayHolds(k, cells, states, who, acts, m, t);
    RunKeeps(k, cells, states, who, acts, t);
    assert Enabled(states[t], who[t], acts[t]) && states[t + 1] == Do(states[t], who[t], acts[t]);
  }

  /** With no other context in its way, a claim of a slot whose bit is clear looks at it, wins it and names it. */
  lemma {:induction false} ClaimAlone(s: State, i: nat, p: nat, payload: int)
    requires Inv(s) && i < |s.ctx| && s.ctx[i].Idle? && p < |s.bits| && !s.bits[p] && payload != 0
    ensures Enabled(s, i, Look(p, payload))
    ensures var looked := Do(s, i, Look(p, payload));
      && Enabled(looked, i, FetchOr)
      && var won := Do(looked, i, FetchOr);
      && |won.slots| == |won.bits| && Enabled(won, i, Name)
      && var named := Do(won, i, Name);
      && named.slots == s.slots[p := payload] && named.bits == s.bits[p := true] && named.ctx == s.ctx
  {
    hide Held, Apart;
  }

  /** And so a release of a slot that names a cell. */
  lemma {:induction false} ReleaseAlone(s: State, i: nat, p: nat)
    requires Inv(s) && i < |s.ctx| && s.ctx[i].Idle? && p < |s.slots| && s.slots[p] != 0
    ensures Enabled(s, i, Unname(p))
    ensures var leaving := Do(s, i, Unname(p));
      && |leaving.slots| == |leaving.bits| && Enabled(leaving, i, FetchAnd)
      && var left := Do(leaving, i, FetchAnd);
      && left.slots == s.slots[p := 0] && left.bits == s.bits[p := false] && left.ctx == s.ctx
  {
    hide Held, Apart;
  }
}
