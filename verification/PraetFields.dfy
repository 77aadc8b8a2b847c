/** What each entry of the schedule leaves in a channel's fields, in every run: an attach to a detach, a submit to its
    verdict, and what a poll makes of each channel. */
module PraetFields {
  import opened PraetOrdo

  /** A channel with nothing left of what it was attached over or carried. */
  predicate Bare(x: Channel) {
    && x.flags.core == Separatus && !x.flags.claimed && !x.flags.settling && !x.flags.separans && !x.flags.error
    && !x.flags.stalled && !x.flags.abandoned && !x.flags.scrubbed && !x.flags.measured && x.flags.region == 0
    && x.keepalive == 0 && x.bound == 0 && x.boundBytes == 0 && x.start == 0 && x.length == 0 && x.position == 0
    && x.crc == 0
  }

  /** A transfer's verdicts. */
  predicate Verdictless(f: Flags) {
    !f.error && !f.stalled && !f.abandoned && !f.scrubbed && !f.measured
  }

  // ---- one channel over a poll ------------------------------------------------------------------------------

  /** What a poll makes of a channel the port says got so far. Progress is taken first: it moves the position on, up to
      the length, opens the window again and lifts a stall. Then a channel asked to detach with no transfer under it is
      laid bare, and any other ends its settle at the settle deadline and reads stalled at its own. */
  predicate PollMakes(k: Knobs, elapsed: nat, settleDeadline: nat, x: Channel, reached: nat, y: Channel)
    requires Sane(k)
  {
    var busy := x.flags.core == Busy;
    var moved := busy && reached > x.position;
    if x.flags.core == Separatus then y == x
    else if x.flags.separans && !busy then Bare(y)
    else
      && y.flags.core == x.flags.core && y.flags.claimed == x.flags.claimed && y.flags.separans == x.flags.separans
      && y.flags.error == x.flags.error && y.flags.abandoned == x.flags.abandoned
      && y.flags.scrubbed == x.flags.scrubbed && y.flags.measured == x.flags.measured
      && y.flags.region == x.flags.region
      && (y.flags.settling <==> x.flags.settling && elapsed < settleDeadline)
      && (y.flags.stalled <==> (x.flags.stalled && !moved) || (busy && elapsed >= y.keepalive))
      && y.keepalive == (if moved then (elapsed + k.keepalive) % k.words else x.keepalive)
      && y.position == (if !moved then x.position else if reached < x.length then reached else x.length)
      && y.bound == x.bound && y.boundBytes == x.boundBytes && y.start == x.start && y.length == x.length
      && y.crc == x.crc
  }

  /** Progress taken, on the fields. */
  lemma {:induction false} ProgressMakes(k: Knobs, o: Ordo, x: Channel, reached: nat)
    requires Sane(k)
    ensures var y := Progressed(k, o, x, reached);
      y == if x.flags.core == Busy && reached > x.position
           then x.(flags := x.flags.(stalled := false), keepalive := (o.elapsed + k.keepalive) % k.words,
                   position := if reached < x.length then reached else x.length)
           else x
  {
  }

  /** One channel's turn of the walk, on the fields. */
  lemma {:induction false} TurnMakes(elapsed: nat, settleDeadline: nat, x: Channel)
    ensures var f := x.flags;
      WalkedBy(elapsed, settleDeadline, x)
        == if f.core == Separatus then x
           else if f.separans && f.core != Busy then IDLE
           else x.(flags := f.(settling := f.settling && elapsed < settleDeadline,
                               stalled := f.stalled || (f.core == Busy && elapsed >= x.keepalive)))
  {
  }

  lemma {:induction false} ServedMakes(k: Knobs, o: Ordo, x: Channel, reached: nat)
    requires Sane(k)
    ensures PollMakes(k, o.elapsed, o.settleDeadline, x, reached, Walked(o, Progressed(k, o, x, reached)))
  {
    hide Progressed, WalkedBy;
    ProgressMakes(k, o, x, reached);
    TurnMakes(o.elapsed, o.settleDeadline, Progressed(k, o, x, reached));
  }

  /** Every poll of every run, whether it walks or skips, makes of every channel what its fields, the clock and the
      port's answer tell, and leaves the flag down. */
  lemma {:induction false} PollTold(k: Knobs, channels: nat, states: seq<Ordo>, acts: seq<Action>, n: nat,
                                    reached: seq<nat>)
    requires Runs(k, channels, states, acts) && n < |acts| && acts[n] == DoPoll(reached) && |reached| == channels
    ensures var o, o' := states[n], states[n + 1];
      && |o.ch| == |o'.ch| == channels && o'.elapsed == o.elapsed && o'.settleDeadline == o.settleDeadline
      && !o'.raised && !o'.locked
      && forall c :: 0 <= c < channels ==>
           PollMakes(k, o.elapsed, o.settleDeadline, o.ch[c], reached[c], o'.ch[c])
  {
    hide Walked, Progressed, Moves, PollMakes;
    RunKeeps(k, channels, states, acts, n);
    var o, o' := states[n], states[n + 1];
    var asked := ProgressAll(k, o, reached);
    WalkedAt(o);
    WalkedAt(asked);
    ProgressAllAt(k, o, reached);
    forall c | 0 <= c < channels
      ensures |o'.ch| == channels && PollMakes(k, o.elapsed, o.settleDeadline, o.ch[c], reached[c], o'.ch[c])
    {
      ServedMakes(k, o, o.ch[c], reached[c]);
      WalkedIgnores(o, asked, asked.ch[c]);
    }
  }

  /** A detach of a channel with no transfer under it is finished by the very next poll, and the channel may be
      attached again. */
  lemma {:induction false} DetachFinishes(k: Knobs, channels: nat, states: seq<Ordo>, acts: seq<Action>, n: nat,
                                          reached: seq<nat>, c: nat)
    requires Runs(k, channels, states, acts) && n + 1 < |acts| && c < channels && |reached| == channels
    requires acts[n] == DoDetach(c) && acts[n + 1] == DoPoll(reached)
    requires |states[n].ch| == channels ==> states[n].ch[c].flags.core in {Adnexus, Ok}
    ensures |states[n + 2].ch| == channels && Bare(states[n + 2].ch[c]) && TakesAttach(states[n + 2], c)
  {
    hide PraetOrdo.Do, Bare;
    RunKeeps(k, channels, states, acts, n);
    DetachTold(k, channels, states, acts, n, c);
    PollTold(k, channels, states, acts, n + 1, reached);
    BareIs(states[n + 2].ch[c]);
  }

  lemma {:induction false} BareIs(x: Channel)
    ensures Bare(x) <==> x == IDLE
    ensures Bare(x) ==> x.flags.core == Separatus
  {
  }

  // ---- one entry --------------------------------------------------------------------------------------------

  /** One channel changed and the flag raised: nothing else of the context moved. */
  ghost predicate OneChanged(o: Ordo, o': Ordo, c: nat, y: Channel) {
    c < |o.ch| && o' == o.(ch := o.ch[c := y], raised := true)
  }

  /** An attach takes a detached channel and no other. The settle deadline is the later of what it was and a settle from
      now, and the channel settles until it. */
  lemma {:induction false} AttachTold(k: Knobs, channels: nat, states: seq<Ordo>, acts: seq<Action>, n: nat, c: nat,
                                      bound: int, bytes: nat, region: nat)
    requires Runs(k, channels, states, acts) && n < |acts| && acts[n] == DoAttach(c, bound, bytes, region)
    ensures var o, o' := states[n], states[n + 1];
      var settles := (o.elapsed + k.settle) % k.words;
      && |o.ch| == channels
      && (c >= channels || o.ch[c].flags.core != Separatus ==> o' == o)
      && (c < channels && o.ch[c].flags.core == Separatus ==>
            && o'.settleDeadline == (if settles > o.settleDeadline then settles else o.settleDeadline)
            && OneChanged(o.(settleDeadline := o'.settleDeadline), o', c,
                 o.ch[c].(bound := bound, boundBytes := bytes,
                          flags := Flags(Adnexus, true, o.elapsed < o'.settleDeadline, false, false, false, false,
                                         false, false, region % 256))))
  {
    hide Inv;
    RunKeeps(k, channels, states, acts, n);
  }

  /** A detach of an attached channel is asked for and no more. */
  lemma {:induction false} DetachTold(k: Knobs, channels: nat, states: seq<Ordo>, acts: seq<Action>, n: nat, c: nat)
    requires Runs(k, channels, states, acts) && n < |acts| && acts[n] == DoDetach(c)
    ensures var o, o' := states[n], states[n + 1];
      && |o.ch| == channels
      && (c >= channels || o.ch[c].flags.core == Separatus ==> o' == o)
      && (c < channels && o.ch[c].flags.core != Separatus ==>
            OneChanged(o, o', c, o.ch[c].(flags := o.ch[c].flags.(separans := true))))
  {
    hide Inv;
    RunKeeps(k, channels, states, acts, n);
  }

  /** A submit is taken by a channel attached or done, settled and not leaving. The transfer starts so far into the
      channel's region, of the length given, with nothing moved, no verdict and a window opened now. */
  lemma {:induction false} SubmitTold(k: Knobs, channels: nat, states: seq<Ordo>, acts: seq<Action>, n: nat, c: nat,
                                      offset: nat, length: nat)
    requires Runs(k, channels, states, acts) && n < |acts| && acts[n] == DoSubmit(c, offset, length)
    ensures var o, o' := states[n], states[n + 1];
      |o.ch| == channels &&
      var taken :=
        c < channels && o.ch[c].flags.core in {Adnexus, Ok} && !o.ch[c].flags.settling && !o.ch[c].flags.separans;
      && (!taken ==> o' == o)
      && (taken ==>
            OneChanged(o, o', c,
              o.ch[c].(flags := Flags(Busy, true, false, false, false, false, false, false, false,
                                      o.ch[c].flags.region),
                       keepalive := (o.elapsed + k.keepalive) % k.words,
                       start := o.ch[c].bound + offset, length := length, position := 0)))
  {
    hide Walked, WalkAll;
    RunKeeps(k, channels, states, acts, n);
    if c < channels {
      assert Kept(states[n].ch[c]);
    }
  }

  /** A kick of a busy channel opens its window again, lifts a stall, and moves its position on and never back, up to
      its length. */
  lemma {:induction false} KickTold(k: Knobs, channels: nat, states: seq<Ordo>, acts: seq<Action>, n: nat, c: nat,
                                    position: nat)
    requires Runs(k, channels, states, acts) && n < |acts| && acts[n] == DoKick(c, position)
    ensures var o, o' := states[n], states[n + 1];
      && |o.ch| == channels
      && (c >= channels || o.ch[c].flags.core != Busy ==> o' == o)
      && (c < channels && o.ch[c].flags.core == Busy ==>
            var x := o.ch[c];
            var capped := if position < x.length then position else x.length;
            OneChanged(o, o', c,
              x.(flags := x.flags.(stalled := false), keepalive := (o.elapsed + k.keepalive) % k.words,
                 position := if capped > x.position then capped else x.position)))
  {
    hide Walked, WalkAll;
    RunKeeps(k, channels, states, acts, n);
    if c < channels {
      assert Kept(states[n].ch[c]);
    }
  }

  /** A completion ends a busy transfer: done, an error exactly where it failed, at its length exactly where it did not
      stop short of it, and no other verdict. */
  lemma {:induction false} CompleteTold(k: Knobs, channels: nat, states: seq<Ordo>, acts: seq<Action>, n: nat, c: nat,
                                        failed: bool)
    requires Runs(k, channels, states, acts) && n < |acts| && acts[n] == DoComplete(c, failed)
    ensures var o, o' := states[n], states[n + 1];
      && |o.ch| == channels
      && (c >= channels || o.ch[c].flags.core != Busy ==> o' == o)
      && (c < channels && o.ch[c].flags.core == Busy ==>
            var x := o.ch[c];
            OneChanged(o, o', c,
              x.(flags := Flags(Ok, true, x.flags.settling, x.flags.separans, failed, false, false, false, false,
                                x.flags.region),
                 keepalive := 0, position := if failed then x.position else x.length)))
  {
    hide Walked, WalkAll;
    RunKeeps(k, channels, states, acts, n);
    if c < channels {
      assert Kept(states[n].ch[c]);
      BusyClean(k, channels, states, acts, n, c);
    }
  }

  /** A stalled transfer resolved leaves its channel attached and what it carried where it stood: scrubbed exactly where
      that was asked and abandoned exactly where it was not, and its boundary word measured exactly where measuring is
      on and it stopped inside one. */
  lemma {:induction false} ResolveTold(k: Knobs, channels: nat, states: seq<Ordo>, acts: seq<Action>, n: nat, c: nat,
                                       scrub: bool, crcOn: bool, crc: int)
    requires Runs(k, channels, states, acts) && n < |acts| && acts[n] == DoResolve(c, scrub, crcOn, crc)
    ensures var o, o' := states[n], states[n + 1];
      && |o.ch| == channels
      && (c >= channels || !o.ch[c].flags.stalled ==> o' == o)
      && (c < channels && o.ch[c].flags.stalled ==>
            var x := o.ch[c];
            var inside := crcOn && x.position % k.wordBytes != 0;
            OneChanged(o, o', c,
              x.(flags := Flags(Adnexus, true, x.flags.settling, x.flags.separans, false, false, !scrub, scrub, inside,
                                x.flags.region),
                 keepalive := 0, crc := if inside then crc else x.crc)))
  {
    hide Walked, WalkAll;
    RunKeeps(k, channels, states, acts, n);
    if c < channels {
      assert Kept(states[n].ch[c]);
      BusyClean(k, channels, states, acts, n, c);
    }
  }

  /** Time and the interrupt move no channel and raise the flag; a reset lays every channel bare and puts both clocks
      and both flags down. */
  lemma {:induction false} ClockTold(k: Knobs, channels: nat, states: seq<Ordo>, acts: seq<Action>, n: nat)
    requires Runs(k, channels, states, acts) && n < |acts|
    ensures acts[n].DoAdvance? ==>
        states[n + 1] == states[n].(elapsed := (states[n].elapsed + acts[n].micros) % k.words, raised := true)
    ensures acts[n].DoRaise? ==> states[n + 1] == states[n].(raised := true)
    ensures acts[n].DoReset? ==>
      var o := states[n + 1];
      && |o.ch| == channels && (forall c :: 0 <= c < channels ==> Bare(o.ch[c]))
      && o.settleDeadline == o.elapsed == 0 && !o.raised && !o.locked
  {
    hide Inv;
    RunKeeps(k, channels, states, acts, n);
  }

  // ---- one transfer, from its attach and its submit on ------------------------------------------------------

  /** A transfer under way carries no verdict of the one before it. */
  lemma {:induction false} BusyClean(k: Knobs, channels: nat, states: seq<Ordo>, acts: seq<Action>, n: nat, c: nat)
    requires Runs(k, channels, states, acts) && n < |states| && c < channels
    ensures |states[n].ch| == channels
    ensures states[n].ch[c].flags.core == Busy ==> Verdictless(states[n].ch[c].flags.(stalled := false))
  {
    hide Inv, PraetOrdo.Do;
    RunKeeps(k, channels, states, acts, n);
    if n > 0 {
      BusyClean(k, channels, states, acts, n - 1, c);
      StepClean(k, states[n - 1], acts[n - 1], c);
    }
  }

  lemma {:induction false} StepClean(k: Knobs, o: Ordo, act: Action, c: nat)
    requires Sane(k) && c < |o.ch|
    requires o.ch[c].flags.core == Busy ==> Verdictless(o.ch[c].flags.(stalled := false))
    ensures |PraetOrdo.Do(k, o, act).ch| == |o.ch|
    ensures PraetOrdo.Do(k, o, act).ch[c].flags.core == Busy ==>
      Verdictless(PraetOrdo.Do(k, o, act).ch[c].flags.(stalled := false))
  {
    hide Later, Walks, ProgressAll, WalkAll, Progressed, Walked, Poll;
    if act.DoPoll? && |act.reached| == |o.ch| {
      PollAt(k, o, act.reached, c);
      PollClean(k, o, act.reached, c);
    }
  }

  lemma {:induction false} PollClean(k: Knobs, o: Ordo, reached: seq<nat>, c: nat)
    requires Sane(k) && c < |o.ch| && |reached| == |o.ch|
    requires o.ch[c].flags.core == Busy ==> Verdictless(o.ch[c].flags.(stalled := false))
    ensures var y := Walked(ProgressAll(k, o, reached), Progressed(k, o, o.ch[c], reached[c]));
      y.flags.core == Busy ==> Verdictless(y.flags.(stalled := false))
  {
    hide Later;
  }

  /** What a channel was attached over stands as long as it is not detached. */
  lemma {:induction false} AttachedTold(k: Knobs, channels: nat, states: seq<Ordo>, acts: seq<Action>, a: nat, n: nat,
                                        c: nat)
    requires Runs(k, channels, states, acts) && a < n < |states| && c < channels
    requires acts[a].DoAttach? && acts[a].c == c && TakesAttach(states[a], c)
    requires forall i :: a < i <= n ==> TransferAt(states[i], c, {Adnexus, Busy, Ok})
    ensures |states[n].ch| == channels
    ensures var x := states[n].ch[c];
      x.bound == acts[a].bound && x.boundBytes == acts[a].bytes && x.flags.region == acts[a].region % 256
          && x.flags.claimed
    decreases n
  {
    hide Inv, PraetOrdo.Do;
    RunKeeps(k, channels, states, acts, n);
    if n == a + 1 {
      AttachTold(k, channels, states, acts, a, c, acts[a].bound, acts[a].bytes, acts[a].region);
    } else {
      AttachedTold(k, channels, states, acts, a, n - 1, c);
      assert TransferAt(states[n], c, {Adnexus, Busy, Ok}) && TransferAt(states[n - 1], c, {Adnexus, Busy, Ok});
      ClockTold(k, channels, states, acts, n - 1);
      if !acts[n - 1].DoReset? {
        TransitionsFollow(k, channels, states, acts, n - 1, c);
        ChannelsClaimed(k, channels, states, acts, n, c);
      }
    }
  }

  predicate TransferAt(o: Ordo, c: nat, cores: set<Core>) {
    c < |o.ch| && o.ch[c].flags.core in cores
  }

  lemma {:induction false} ChannelsClaimed(k: Knobs, channels: nat, states: seq<Ordo>, acts: seq<Action>, n: nat,
                                           c: nat)
    requires Runs(k, channels, states, acts) && n < |states| && c < channels
    ensures |states[n].ch| == channels && (states[n].ch[c].flags.claimed <==> states[n].ch[c].flags.core != Separatus)
  {
    RunKeeps(k, channels, states, acts, n);
    assert Kept(states[n].ch[c]);
  }

  /** A transfer under way runs from where the submit that began it put it, in the region the attach before it stated,
      over the submit's own length, however the clock, the port, the interrupt and refused submits have come between,
      and its position is within it. */
  lemma {:induction false} TransferTold(k: Knobs, channels: nat, states: seq<Ordo>, acts: seq<Action>, a: nat, m: nat,
                                        n: nat, c: nat)
    requires Runs(k, channels, states, acts) && a < m < n < |states| && c < channels
    requires acts[a].DoAttach? && acts[a].c == c && TakesAttach(states[a], c)
    requires acts[m].DoSubmit? && acts[m].c == c && TakesSubmit(states[m], c)
    requires forall i :: a < i <= n ==> TransferAt(states[i], c, {Adnexus, Busy, Ok})
    requires forall i :: m < i <= n ==> TransferAt(states[i], c, {Busy})
    ensures |states[n].ch| == channels
    ensures var x := states[n].ch[c];
      x.start == acts[a].bound + acts[m].offset && x.length == acts[m].length && x.position <= x.length
    decreases n
  {
    hide Inv, PraetOrdo.Do;
    RunKeeps(k, channels, states, acts, n);
    ChannelsKept(k, channels, states, acts, n, c);
    if n == m + 1 {
      AttachedTold(k, channels, states, acts, a, m, c);
      SubmitTold(k, channels, states, acts, m, c, acts[m].offset, acts[m].length);
    } else {
      TransferTold(k, channels, states, acts, a, m, n - 1, c);
      assert TransferAt(states[n], c, {Busy}) && TransferAt(states[n - 1], c, {Busy});
      ClockTold(k, channels, states, acts, n - 1);
      if acts[n - 1].DoSubmit? {
        SubmitTold(k, channels, states, acts, n - 1, acts[n - 1].c, acts[n - 1].offset, acts[n - 1].length);
      }
      if !acts[n - 1].DoReset? {
        TransitionsFollow(k, channels, states, acts, n - 1, c);
      }
    }
  }
}
