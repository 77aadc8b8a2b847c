/** The poll one step at a time: the lock taken, each channel asked how far it got, the short circuit, each channel
    walked, and the two flags put down, with the interrupt raising and a nested poll calling between any two steps. */
module PraetPoll {
  import opened PraetFields
  import opened PraetOrdo

  /** Where a poll stands, with the state it began on and what the port has answered so far. */
  datatype Pc =
    | Resting
    | Asking(from: Ordo, reached: seq<nat>, moved: bool)
    | Walking(from: Ordo, reached: seq<nat>, next: nat)
    | Lowered(from: Ordo, reached: seq<nat>)
    | Skipped(from: Ordo, reached: seq<nat>)

  datatype Service = Service(o: Ordo, pc: Pc)

  datatype Step =
    | Enter(act: Action)
    | Lock
    | Ask(reached: nat)
    | Test
    | Walk
    | Lower
    | Unlock
    | Interrupt
    | Nested(answers: seq<nat>)

  /** The entries run between polls. Inside one only the interrupt runs, and a poll nested in it. */
  predicate Enabled(s: Service, step: Step) {
    match step
    case Enter(act) => s.pc.Resting? && !act.DoPoll?
    case Lock => s.pc.Resting?
    case Ask(_) => s.pc.Asking? && |s.pc.reached| < |s.o.ch|
    case Test => s.pc.Asking? && |s.pc.reached| == |s.o.ch|
    case Walk => s.pc.Walking? && s.pc.next < |s.o.ch|
    case Lower => s.pc.Walking? && s.pc.next == |s.o.ch|
    case Unlock => s.pc.Lowered? || s.pc.Skipped?
    case Interrupt => true
    case Nested(answers) => !s.pc.Resting? && |answers| == |s.o.ch|
  }

  ghost function Do(k: Knobs, s: Service, step: Step): Service
    requires Sane(k) && Enabled(s, step)
  {
    match step
    case Enter(act) => Service(PraetOrdo.Do(k, s.o, act), Resting)
    case Lock => Service(s.o.(locked := true), Asking(s.o, [], false))
    case Ask(reached) =>
      var c := |s.pc.reached|;
      Service(With(s.o, c, Progressed(k, s.o, s.o.ch[c], reached)),
              Asking(s.pc.from, s.pc.reached + [reached], s.pc.moved || Moves(s.o.ch[c], reached)))
    case Test =>
      Service(s.o, if !s.o.raised && !s.pc.moved then Skipped(s.pc.from, s.pc.reached)
                   else Walking(s.pc.from, s.pc.reached, 0))
    case Walk => Service(With(s.o, s.pc.next, Walked(s.o, s.o.ch[s.pc.next])), s.pc.(next := s.pc.next + 1))
    case Lower => Service(s.o.(raised := false), Lowered(s.pc.from, s.pc.reached))
    case Unlock => Service(s.o.(locked := false), Resting)
    case Interrupt => Service(s.o.(raised := true), s.pc)
    case Nested(answers) => Service(Poll(k, s.o, answers), s.pc)
  }

  /** Two contexts with one clock, one settle deadline and as many channels. */
  predicate Alike(a: Ordo, b: Ordo) {
    a.elapsed == b.elapsed && a.settleDeadline == b.settleDeadline && |a.ch| == |b.ch|
  }

  /** Every channel stands as a walk would leave it. */
  ghost predicate Still(o: Ordo) {
    forall c :: 0 <= c < |o.ch| ==> Walked(o, o.ch[c]) == o.ch[c]
  }

  /** One channel asked and then walked. */
  function Served(k: Knobs, from: Ordo, x: Channel, reached: nat): Channel
    requires Sane(k)
  {
    Walked(from, Progressed(k, from, x, reached))
  }

  /** A poll done with its channels: each asked and then walked, whether it walked them or skipped. */
  ghost predicate AllServed(k: Knobs, from: Ordo, reached: seq<nat>, o: Ordo)
    requires Sane(k)
  {
    && |reached| == |from.ch| == |o.ch|
    && forall c :: 0 <= c < |o.ch| ==> o.ch[c] == Served(k, from, from.ch[c], reached[c])
  }

  /** What a poll under way has done to its channels. */
  ghost predicate Serving(k: Knobs, o: Ordo, pc: Pc)
    requires Sane(k)
  {
    match pc
    case Resting => true
    case Asking(from, reached, moved) =>
      && |reached| <= |o.ch| == |from.ch|
      && (forall c :: 0 <= c < |reached| ==> o.ch[c] == Progressed(k, from, from.ch[c], reached[c]))
      && (forall c :: |reached| <= c < |o.ch| ==> o.ch[c] == from.ch[c])
      && (moved <==> exists c :: 0 <= c < |reached| && Moves(from.ch[c], reached[c]))
    case Walking(from, reached, next) =>
      && |reached| == |o.ch| == |from.ch| && next <= |o.ch|
      && (forall c :: 0 <= c < next ==> o.ch[c] == Served(k, from, from.ch[c], reached[c]))
      && (forall c :: next <= c < |o.ch| ==> o.ch[c] == Progressed(k, from, from.ch[c], reached[c]))
    case Lowered(from, reached) => AllServed(k, from, reached, o)
    case Skipped(from, reached) => AllServed(k, from, reached, o)
  }

  ghost predicate Inv(k: Knobs, s: Service) {
    && Sane(k) && s.o.elapsed < k.words
    && (forall c :: 0 <= c < |s.o.ch| ==> Kept(s.o.ch[c]))
    && (s.o.locked <==> !s.pc.Resting?)
    && (s.pc.Resting? && !s.o.raised ==> Still(s.o))
    && (!s.pc.Resting? ==> Alike(s.pc.from, s.o) && !s.pc.from.locked && (!s.pc.from.raised ==> Still(s.pc.from)))
    && (s.pc.Asking? && s.pc.from.raised ==> s.o.raised)
    && Serving(k, s.o, s.pc)
  }

  // ---- what every step keeps --------------------------------------------------------------------------------

  lemma {:induction false} AlikeWalks(a: Ordo, b: Ordo, x: Channel)
    requires Alike(a, b)
    ensures Walked(a, x) == Walked(b, x)
  {
  }

  lemma {:induction false} AlikeProgresses(k: Knobs, a: Ordo, b: Ordo, x: Channel, reached: nat)
    requires Sane(k) && Alike(a, b)
    ensures Progressed(k, a, x, reached) == Progressed(k, b, x, reached)
  {
    ProgressedIgnores(k, a, b, x, reached);
  }

  /** Channels served stand as a walk would leave them. */
  lemma {:induction false} ServedStill(k: Knobs, from: Ordo, reached: seq<nat>, o: Ordo)
    requires Sane(k) && AllServed(k, from, reached, o) && Alike(from, o)
    ensures Still(o)
  {
    hide Walked, Progressed;
    forall c | 0 <= c < |o.ch| ensures Walked(o, o.ch[c]) == o.ch[c] {
      WalkedTwice(from, Progressed(k, from, from.ch[c], reached[c]));
      AlikeWalks(from, o, o.ch[c]);
    }
  }

  /** Channels that were still and did not move are served by being left alone. */
  lemma {:induction false} StillServed(k: Knobs, from: Ordo, reached: seq<nat>)
    requires Sane(k) && Still(from) && |reached| == |from.ch|
    requires forall c :: 0 <= c < |from.ch| ==> !Moves(from.ch[c], reached[c])
    ensures AllServed(k, from, reached, from)
    ensures forall c :: 0 <= c < |from.ch| ==> Progressed(k, from, from.ch[c], reached[c]) == from.ch[c]
  {
    hide Walked, Moves;
  }

  lemma {:induction false} AskKeeps(k: Knobs, s: Service, reached: nat)
    requires Inv(k, s) && Enabled(s, Ask(reached))
    ensures Inv(k, Do(k, s, Ask(reached)))
  {
    hide Walked, Moves, Progressed, Kept;
    var c := |s.pc.reached|;
    AlikeProgresses(k, s.o, s.pc.from, s.o.ch[c], reached);
    ProgressKeeps(k, s.o, s.o.ch[c], reached);
  }

  lemma {:induction false} TestKeeps(k: Knobs, s: Service)
    requires Inv(k, s) && Enabled(s, Test)
    ensures Inv(k, Do(k, s, Test))
  {
    hide Walked, Progressed, Kept, Moves;
    if !s.o.raised && !s.pc.moved {
      StillServed(k, s.pc.from, s.pc.reached);
    }
  }

  lemma {:induction false} WalkKeeps(k: Knobs, s: Service)
    requires Inv(k, s) && Enabled(s, Walk)
    ensures Inv(k, Do(k, s, Walk))
  {
    hide Walked, Moves, Progressed, Kept;
    AlikeWalks(s.pc.from, s.o, s.o.ch[s.pc.next]);
    WalkedKeeps(s.o, s.o.ch[s.pc.next]);
  }

  lemma {:induction false} UnlockKeeps(k: Knobs, s: Service)
    requires Inv(k, s) && Enabled(s, Unlock)
    ensures Inv(k, Do(k, s, Unlock))
  {
    hide Walked, Moves, Progressed, Kept;
    var s' := Do(k, s, Unlock);
    ServedStill(k, s.pc.from, s.pc.reached, s.o);
    forall c | 0 <= c < |s'.o.ch| ensures Walked(s'.o, s'.o.ch[c]) == s'.o.ch[c] {
      AlikeWalks(s.o, s'.o, s.o.ch[c]);
    }
  }

  /** Between polls the two machines' invariants are one. */
  lemma {:induction false} RestingIs(k: Knobs, s: Service)
    requires Sane(k) && s.pc.Resting?
    ensures Inv(k, s) <==> PraetOrdo.Inv(k, s.o)
  {
    hide Walked, Kept;
    WalkedAt(s.o);
    if Still(s.o) {
      assert WalkAll(s.o).ch == s.o.ch;
    }
  }

  lemma {:induction false} StepKeeps(k: Knobs, s: Service, step: Step)
    requires Inv(k, s) && Enabled(s, step)
    ensures Inv(k, Do(k, s, step))
  {
    hide Walked, Moves, Progressed, Kept, PraetOrdo.Inv, PraetOrdo.Do;
    match step {
      case Enter(act) =>
        RestingIs(k, s);
        PraetOrdo.StepKeeps(k, s.o, act);
        RestingIs(k, Do(k, s, step));
      case Lock =>
      case Ask(reached) => AskKeeps(k, s, reached);
      case Test => TestKeeps(k, s);
      case Walk => WalkKeeps(k, s);
      case Lower =>
      case Unlock => UnlockKeeps(k, s);
      case Interrupt =>
      case Nested(_) =>
    }
  }

  ghost predicate Runs(k: Knobs, channels: nat, states: seq<Service>, steps: seq<Step>) {
    && Sane(k) && |states| == |steps| + 1 && states[0] == Service(Reset(channels), Resting)
    && forall n :: 0 <= n < |steps| ==> Enabled(states[n], steps[n]) && states[n + 1] == Do(k, states[n], steps[n])
  }

  lemma {:induction false} RunKeeps(k: Knobs, channels: nat, states: seq<Service>, steps: seq<Step>, n: nat)
    requires Runs(k, channels, states, steps) && n < |states|
    ensures Inv(k, states[n])
  {
    hide Inv, Do, PraetOrdo.Inv;
    if n == 0 {
      ResetKeeps(k, channels);
      RestingIs(k, states[0]);
    } else {
      RunKeeps(k, channels, states, steps, n - 1);
      StepKeeps(k, states[n - 1], steps[n - 1]);
    }
  }

  // ---- what a run can be relied on for ----------------------------------------------------------------------

  /** A poll nested in another finds the lock out and declines, wherever the outer one stands. */
  lemma {:induction false} NestedDeclines(k: Knobs, channels: nat, states: seq<Service>, steps: seq<Step>, n: nat)
    requires Runs(k, channels, states, steps) && n < |steps| && steps[n].Nested?
    ensures states[n + 1] == states[n]
  {
    RunKeeps(k, channels, states, steps, n);
  }

  /** However many raises and nested polls land inside it, a poll done with its channels has left them as the poll in
      one step would have, whether it walked or skipped, and a walk after it would change none: a raise put down with
      the flag loses nothing. */
  lemma {:induction false} NothingLost(k: Knobs, channels: nat, states: seq<Service>, steps: seq<Step>, n: nat)
    requires Runs(k, channels, states, steps) && n < |states| && (states[n].pc.Lowered? || states[n].pc.Skipped?)
    ensures |states[n].pc.reached| == |states[n].pc.from.ch|
    ensures states[n].o.ch == Poll(k, states[n].pc.from, states[n].pc.reached).ch
    ensures Still(states[n].o)
  {
    hide Walked, Moves, Progressed, Kept;
    RunKeeps(k, channels, states, steps, n);
    var from, reached, o := states[n].pc.from, states[n].pc.reached, states[n].o;
    ServedStill(k, from, reached, o);
    if !Walks(from, reached) {
      StillServed(k, from, reached);
      assert forall c :: 0 <= c < |o.ch| ==> o.ch[c] == from.ch[c];
    } else {
      var asked := ProgressAll(k, from, reached);
      WalkedAt(asked);
      forall c | 0 <= c < |o.ch| ensures o.ch[c] == WalkAll(asked).ch[c] {
        AlikeWalks(asked, from, asked.ch[c]);
      }
    }
  }

  /** What the port answered, in the order it was asked. */
  function Answers(steps: seq<Step>): (answers: seq<nat>)
    ensures |answers| <= |steps|
  {
    if steps == [] then []
    else
      var last := steps[|steps| - 1];
      Answers(steps[..|steps| - 1]) + if last.Ask? then [last.reached] else []
  }

  /** A poll under way began on the state its lock was taken in, and has what the port answered since. */
  lemma {:induction false} PollHolds(k: Knobs, channels: nat, states: seq<Service>, steps: seq<Step>, m: nat, n: nat)
    requires Runs(k, channels, states, steps) && m < n < |states| && steps[m].Lock?
    requires forall i :: m < i <= n ==> !states[i].pc.Resting?
    ensures !states[n].pc.Resting?
    ensures states[n].pc.from == states[m].o && states[n].pc.reached == Answers(steps[m + 1..n])
    decreases n
  {
    hide Walked, Moves, Progressed, PraetOrdo.Do, Poll;
    if n > m + 1 {
      PollHolds(k, channels, states, steps, m, n - 1);
      assert steps[m + 1..n][..n - 1 - (m + 1)] == steps[m + 1..n - 1];
    }
  }

  /** Every poll that is done with its channels, whatever raises and nested polls landed inside it, has made of each
      what its fields as the lock was taken, the clock and the port's answers tell. */
  lemma {:induction false} FinishedTold(k: Knobs, channels: nat, states: seq<Service>, steps: seq<Step>, m: nat, n: nat)
    requires Runs(k, channels, states, steps) && m < n < |states| && steps[m].Lock?
    requires forall i :: m < i <= n ==> !states[i].pc.Resting?
    requires states[n].pc.Lowered? || states[n].pc.Skipped?
    ensures var from, o, answers := states[m].o, states[n].o, Answers(steps[m + 1..n]);
      && |answers| == |from.ch| == |o.ch|
      && forall c :: 0 <= c < |o.ch| ==>
           PollMakes(k, from.elapsed, from.settleDeadline, from.ch[c], answers[c], o.ch[c])
  {
    hide Walked, Moves, Progressed, Kept, PollMakes, Answers;
    RunKeeps(k, channels, states, steps, n);
    PollHolds(k, channels, states, steps, m, n);
    var from, o, answers := states[m].o, states[n].o, Answers(steps[m + 1..n]);
    forall c | 0 <= c < |o.ch|
      ensures |answers| == |from.ch| == |o.ch|
      ensures PollMakes(k, from.elapsed, from.settleDeadline, from.ch[c], answers[c], o.ch[c])
    {
      ServedMakes(k, from, from.ch[c], answers[c]);
    }
  }

  /** A poll done with its channels leaves the flag down, whether it walked or skipped, unless the interrupt raised it
      meanwhile. */
  lemma {:induction false} FlagDown(k: Knobs, channels: nat, states: seq<Service>, steps: seq<Step>, m: nat, n: nat)
    requires Runs(k, channels, states, steps) && m < n < |states| && steps[m].Lock?
    requires forall i :: m < i <= n ==> !states[i].pc.Resting?
    requires forall i :: m <= i < n ==> !steps[i].Interrupt?
    requires states[n].pc.Lowered? || states[n].pc.Skipped?
    ensures !states[n].o.raised
    decreases n
  {
    hide Walked, Moves, Progressed, PraetOrdo.Do;
    RunKeeps(k, channels, states, steps, n - 1);
    if states[n - 1].pc.Lowered? || states[n - 1].pc.Skipped? {
      FlagDown(k, channels, states, steps, m, n - 1);
    }
  }

  /** A poll under way finds the flag up if it was as the lock was taken or the interrupt raised it since. */
  lemma {:induction false} FlagTold(k: Knobs, channels: nat, states: seq<Service>, steps: seq<Step>, m: nat, n: nat)
    requires Runs(k, channels, states, steps) && m < n < |states| && steps[m].Lock?
    requires forall i :: m < i <= n ==> states[i].pc.Asking?
    ensures states[n].o.raised <==> states[m].o.raised || exists i :: m < i < n && steps[i].Interrupt?
    decreases n
  {
    hide Walked, Moves, Progressed, PraetOrdo.Do;
    RunKeeps(k, channels, states, steps, n - 1);
    if n > m + 1 {
      FlagTold(k, channels, states, steps, m, n - 1);
    }
  }

  /** A poll skips its walk if and only if the flag was down as its lock was taken, no interrupt has raised it since,
      and no channel under a transfer is answered past its position. */
  lemma {:induction false} SkipsExactly(k: Knobs, channels: nat, states: seq<Service>, steps: seq<Step>, m: nat, n: nat)
    requires Runs(k, channels, states, steps) && m < n < |steps| && steps[m].Lock? && steps[n].Test?
    requires forall i :: m < i <= n ==> states[i].pc.Asking?
    ensures |states[m].o.ch| == |Answers(steps[m + 1..n])|
    ensures states[n + 1].pc.Skipped? || states[n + 1].pc.Walking?
    ensures states[n + 1].pc.Skipped? <==>
      && !states[m].o.raised && (forall i :: m < i < n ==> !steps[i].Interrupt?)
      && forall c :: 0 <= c < |states[m].o.ch| ==>
           states[m].o.ch[c].flags.core != Busy || Answers(steps[m + 1..n])[c] <= states[m].o.ch[c].position
  {
    hide Walked, Progressed, PraetOrdo.Do, Answers, Kept;
    RunKeeps(k, channels, states, steps, n);
    PollHolds(k, channels, states, steps, m, n);
    FlagTold(k, channels, states, steps, m, n);
    assert Enabled(states[n], steps[n]) && states[n + 1] == Do(k, states[n], steps[n]);
  }

  // ---- a poll ends ------------------------------------------------------------------------------------------

  /** Steps a poll under way has left of its own. */
  function StepsLeft(s: Service): int {
    match s.pc
    case Resting => 0
    case Asking(_, reached, _) => 2 * |s.o.ch| - |reached| + 3
    case Walking(_, _, next) => |s.o.ch| - next + 2
    case Lowered(_, _) => 1
    case Skipped(_, _) => 1
  }

  /** A poll under way may always take its next step, whatever the port answers, and each brings it nearer its end; a
      raise and a nested poll may land before any of them and put it off by none. Between polls every entry may run. */
  lemma {:induction false} PollEnds(k: Knobs, s: Service, reached: nat, answers: seq<nat>, act: Action)
    requires Inv(k, s) && |answers| == |s.o.ch| && !act.DoPoll?
    ensures Enabled(s, Interrupt) && StepsLeft(Do(k, s, Interrupt)) == StepsLeft(s) >= 0
    ensures s.pc.Resting? <==> StepsLeft(s) == 0
    ensures s.pc.Resting? ==> Enabled(s, Enter(act)) && Enabled(s, Lock)
    ensures !s.pc.Resting? ==> Enabled(s, Nested(answers)) && StepsLeft(Do(k, s, Nested(answers))) == StepsLeft(s)
    ensures !s.pc.Resting? ==> exists step ::
      step in [Ask(reached), Test, Walk, Lower, Unlock] && Enabled(s, step) && StepsLeft(Do(k, s, step)) < StepsLeft(s)
  {
    hide Walked, Moves, Progressed, Kept, PraetOrdo.Do;
    match s.pc {
      case Resting =>
      case Asking(_, asked, _) =>
        var step := if |asked| < |s.o.ch| then Ask(reached) else Test;
        assert Enabled(s, step) && StepsLeft(Do(k, s, step)) < StepsLeft(s);
      case Walking(_, _, next) =>
        var step := if next < |s.o.ch| then Walk else Lower;
        assert Enabled(s, step) && StepsLeft(Do(k, s, step)) < StepsLeft(s);
      case _ =>
        assert Enabled(s, Unlock) && StepsLeft(Do(k, s, Unlock)) < StepsLeft(s);
    }
  }

  /** In every state between polls the short circuit is sound, whatever landed inside the polls before it: with the flag
      down a walk would change no channel. */
  lemma {:induction false} ShortCircuitSound(k: Knobs, channels: nat, states: seq<Service>, steps: seq<Step>, n: nat)
    requires Runs(k, channels, states, steps) && n < |states| && states[n].pc.Resting? && !states[n].o.raised
    ensures WalkAll(states[n].o) == states[n].o
  {
    RunKeeps(k, channels, states, steps, n);
    RestingIs(k, states[n]);
  }
}
