/** No context of the protocol is ever stuck: each may go on, or waits on one that may, and each step it takes brings it
    nearer its end. */
module CarcerProgress {
  import opened CarcerBounds
  import opened CarcerCells
  import opened CarcerGrants
  import opened CarcerPasses
  import opened CarcerTiers

  /** How many steps of its own a context has at most to its end. */
  function Left(x: Context): nat {
    match x.pc
    case Idle => 0
    case Wants => 6
    case Shut => 5
    case Draining(_) => 4
    case SettledBounds => 3
    case SettledEnd => 2
    case Alone => 1
    case _ => StepsLeft(x) + 6
  }

  /** A context another keeps from its next step: the closed bit is taken, or the lanes a drain waits for are held. */
  predicate Waits(s: State, i: nat) {
    i < |s.ctx| && ((s.ctx[i].pc.Wants? && s.closed) || (s.ctx[i].pc.Draining? && s.ctx[i].pc.waiting != {}))
  }

  /** The next step of a context: of an idle one, the wait for the closed bit. */
  function NextOf(x: Context): Action {
    match x.pc
    case Idle => Want
    case Wants => Close
    case Shut => Drain
    case Draining(_) => Settle
    case SettledBounds => ZeroEnd
    case SettledEnd => ZeroTop
    case Alone => Open
    case _ => NextStep(x)
  }

  lemma {:induction false} OwnNext(c: Config, s: State, i: nat)
    requires i < |s.ctx| && !s.ctx[i].pc.Idle? && !Waits(s, i) && c.half > 0 && c.header + c.wantMost < c.half
    requires s.ctx[i].pc.Ready? ==> s.ctx[i].pc.need < c.half
    requires InPass(s.ctx[i]) ==> i != s.holder
    ensures Enabled(c, s, i, NextOf(s.ctx[i]))
    ensures |Do(c, s, i, NextOf(s.ctx[i])).ctx| == |s.ctx|
    ensures Left(Do(c, s, i, NextOf(s.ctx[i])).ctx[i]) < Left(s.ctx[i])
  {
    hide EndOf, TopOf, FetchAdd, Moved, CarcerBounds.Fits, Replaced, Tilings, Extents, SettledWord, OwnerWord;
  }

  /** A step leaves what every other context has left to do. */
  lemma {:induction false} OthersStay(c: Config, s: State, i: nat, act: Action, j: nat)
    requires Enabled(c, s, i, act) && c.half > 0 && c.header + c.wantMost < c.half && j < |s.ctx| && j != i
    requires s.ctx[i].pc.Ready? ==> s.ctx[i].pc.need < c.half
    ensures |Do(c, s, i, act).ctx| == |s.ctx|
    ensures Left(Do(c, s, i, act).ctx[j]) == Left(s.ctx[j])
  {
    hide EndOf, TopOf, FetchAdd, Moved, CarcerBounds.Fits, Replaced, Tilings, Extents, SettledWord, OwnerWord,
         InPayload;
  }

  /** In every run, a context that has begun something and waits on none may take its next step. It brings it nearer its
      end, and puts no other context off. */
  lemma {:induction false} ContextGoes(c: Config, k: nat, states: seq<State>, who: seq<nat>, acts: seq<Action>, n: nat,
                                       i: nat)
    requires Bounded(c, k) && Runs(c, k, states, who, acts) && n < |states| && i < k
    ensures |states[n].ctx| == k
    ensures !states[n].ctx[i].pc.Idle? && !Waits(states[n], i) ==>
      exists s' :: Stepped(c, states[n], i, NextOf(states[n].ctx[i]), s') && |s'.ctx| == k
        && Left(s'.ctx[i]) < Left(states[n].ctx[i])
        && forall j :: 0 <= j < k && j != i ==> Left(s'.ctx[j]) == Left(states[n].ctx[j])
  {
    hide Balanced, Worded, Do, Left, Enabled, Waits, NextOf;
    RunKeeps(c, k, states, who, acts, n);
    var s := states[n];
    if !s.ctx[i].pc.Idle? && !Waits(s, i) {
      assert Sane(c, s.ctx[i]);
      assert s.holder >= 0 ==> Writes(s.ctx[s.holder]);
      OwnNext(c, s, i);
      var s' := Do(c, s, i, NextOf(s.ctx[i]));
      forall j | 0 <= j < k && j != i ensures |s'.ctx| == k && Left(s'.ctx[j]) == Left(s.ctx[j]) {
        OthersStay(c, s, i, NextOf(s.ctx[i]), j);
      }
      assert Stepped(c, s, i, NextOf(s.ctx[i]), s');
    }
  }

  /** In every run, where any context has begun something, one of those that have waits on none: a context that waits
      for the bit waits on its holder, a holder only on the passes it drains, and a pass on none. */
  lemma {:induction false} SomeoneGoes(c: Config, k: nat, states: seq<State>, who: seq<nat>, acts: seq<Action>, n: nat,
                                       i: nat)
    requires Bounded(c, k) && Runs(c, k, states, who, acts) && n < |states| && i < k
    ensures |states[n].ctx| == k
    ensures !states[n].ctx[i].pc.Idle? ==> exists j: nat :: j < k && !states[n].ctx[j].pc.Idle? && !Waits(states[n], j)
  {
    hide Balanced, Worded;
    RunKeeps(c, k, states, who, acts, n);
    var s := states[n];
    if !s.ctx[i].pc.Idle? && Waits(s, i) {
      var h: nat := s.holder;
      assert Writes(s.ctx[h]);
      if s.ctx[h].pc.Draining? && s.ctx[h].pc.waiting != {} {
        var j :| j in s.ctx[h].pc.waiting;
        assert Sane(c, s.ctx[j]) && !Waits(s, j);
      } else {
        assert !Waits(s, h);
      }
    }
  }

  /** In every run, an idle context may begin: a pass, with or without a lane and with what it asks for as it asks it, a
      wait for the closed bit, or a trim, which takes the bit exactly where it is clear. */
  lemma {:induction false} Begins(c: Config, k: nat, states: seq<State>, who: seq<nat>, acts: seq<Action>, n: nat,
                                  i: nat, got: bool, want: nat, down: bool, place: nat)
    requires Bounded(c, k) && Runs(c, k, states, who, acts) && n < |states| && i < k
    ensures |states[n].ctx| == k
    ensures states[n].ctx[i].pc.Idle? ==>
      && (want >= 1 && 1 <= place <= states[n].owners ==> exists s' ::
            Stepped(c, states[n], i, Enter(got, want, down, place), s') && |s'.ctx| == k
            && s'.ctx[i].lane == got && s'.ctx[i].pc == Entered(want, down, place))
      && (exists s' :: Stepped(c, states[n], i, Want, s') && |s'.ctx| == k && s'.ctx[i].pc.Wants?)
      && (exists s' :: Stepped(c, states[n], i, Trim, s') && |s'.ctx| == k
            && (if states[n].closed then s' == states[n] else s'.closed && s'.holder == i && s'.ctx[i].pc.Shut?))
  {
    hide Balanced, Worded;
    RunKeeps(c, k, states, who, acts, n);
    var s := states[n];
    if s.ctx[i].pc.Idle? {
      if want >= 1 && 1 <= place <= s.owners {
        assert Stepped(c, s, i, Enter(got, want, down, place), Do(c, s, i, Enter(got, want, down, place)));
      }
      assert Stepped(c, s, i, Want, Do(c, s, i, Want));
      assert Stepped(c, s, i, Trim, Do(c, s, i, Trim));
    }
  }

  /** In every run, a holder's store stands in memory, and nothing else of the state changes. */
  lemma {:induction false} HoldStands(c: Config, k: nat, states: seq<State>, who: seq<nat>, acts: seq<Action>, n: nat)
    requires Bounded(c, k) && Runs(c, k, states, who, acts) && n < |who| && acts[n].Hold?
    ensures acts[n].at < |states[n].mem|
    ensures states[n + 1] == states[n].(mem := states[n].mem[acts[n].at := acts[n].word])
  {
    hide Balanced, CarcerPasses.Owned, Listed, GrantAt, InPayload;
    RunKeeps(c, k, states, who, acts, n);
    var s, act := states[n], acts[n];
    assert Stepped(c, s, who[n], act, states[n + 1]);
    if InPayload(s.up, 0, act.at) {
      StandsPayload(s.mem, 0, s.up, act.at, act.word);
    } else {
      StandsPayload(s.mem, Top(c, s), s.down, act.at, act.word);
    }
  }
}
