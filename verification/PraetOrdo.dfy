/** The DMA schedule: one flag word a channel, a watchdog that never ends a transfer, a detach that waits for one, and a
    poll that skips its walk where nothing can have changed.

    A flag word is its core, its statuses and its region descriptor, which the map keeps apart. Time is microseconds in
    a machine word and wraps with it. */
module PraetOrdo {
  import opened WordArithmetic

  datatype Core = Separatus | Adnexus | Busy | Ok

  datatype Flags = Flags(core: Core, claimed: bool, settling: bool, separans: bool, error: bool, stalled: bool,
                         abandoned: bool, scrubbed: bool, measured: bool, region: nat)

  const DETACHED: Flags := Flags(Separatus, false, false, false, false, false, false, false, false, 0)

  const REGIONS: nat := 256

  /** One channel: its flag word, its watchdog's deadline, the pool it was attached over, and the transfer it
      carries. */
  datatype Channel = Channel(flags: Flags, keepalive: nat, bound: int, boundBytes: nat, start: int, length: nat,
                             position: nat, crc: int)

  const IDLE: Channel := Channel(DETACHED, 0, 0, 0, 0, 0, 0, 0)

  /** A build's knobs: the reach of a machine word and its bytes, the settle and the keepalive windows. */
  datatype Knobs = Knobs(words: nat, wordBytes: nat, settle: nat, keepalive: nat)

  predicate Sane(k: Knobs) {
    k.words >= 1 && k.wordBytes >= 1
  }

  datatype Ordo = Ordo(ch: seq<Channel>, settleDeadline: nat, elapsed: nat, raised: bool, locked: bool)

  // ---- the entries, as functions of the state ---------------------------------------------------------------

  function With(o: Ordo, c: nat, x: Channel): Ordo
    requires c < |o.ch|
  {
    o.(ch := o.ch[c := x])
  }

  function Later(k: Knobs, o: Ordo, micros: nat): nat
    requires Sane(k)
  {
    (o.elapsed + micros) % k.words
  }

  predicate TakesAttach(o: Ordo, c: nat) {
    c < |o.ch| && o.ch[c].flags.core == Separatus
  }

  function Attach(k: Knobs, o: Ordo, c: nat, bound: int, bytes: nat, region: nat): Ordo
    requires Sane(k)
  {
    if !TakesAttach(o, c) then o
    else
      var deadline := Later(k, o, k.settle);
      var settleDeadline := if deadline > o.settleDeadline then deadline else o.settleDeadline;
      var flags := DETACHED.(core := Adnexus, claimed := true, settling := o.elapsed < settleDeadline,
                             region := region % REGIONS);
      With(o, c, o.ch[c].(flags := flags, bound := bound, boundBytes := bytes))
        .(settleDeadline := settleDeadline, raised := true)
  }

  function Detach(o: Ordo, c: nat): Ordo {
    if c >= |o.ch| || o.ch[c].flags.core == Separatus then o
    else With(o, c, o.ch[c].(flags := o.ch[c].flags.(separans := true))).(raised := true)
  }

  predicate TakesSubmit(o: Ordo, c: nat) {
    && c < |o.ch|
    && var f := o.ch[c].flags;
    (f.core == Adnexus || f.core == Ok) && !f.settling && !f.separans
  }

  /** The flag word with the last transfer's verdicts taken off. */
  function Cleared(f: Flags): Flags {
    f.(error := false, stalled := false, abandoned := false, scrubbed := false, measured := false)
  }

  function Submit(k: Knobs, o: Ordo, c: nat, offset: nat, length: nat): Ordo
    requires Sane(k)
  {
    if !TakesSubmit(o, c) then o
    else
      var x := o.ch[c];
      With(o, c, x.(flags := Cleared(x.flags).(core := Busy), keepalive := Later(k, o, k.keepalive),
                    start := x.bound + offset, length := length, position := 0)).(raised := true)
  }

  /** A channel that moved: its position advanced and held at its length, its window pushed out, its stall off. */
  function Moved(k: Knobs, o: Ordo, x: Channel, position: nat): Channel
    requires Sane(k)
  {
    x.(flags := x.flags.(stalled := false), keepalive := Later(k, o, k.keepalive),
       position := if position <= x.position then x.position else if position > x.length then x.length else position)
  }

  function Kick(k: Knobs, o: Ordo, c: nat, position: nat): Ordo
    requires Sane(k)
  {
    if c >= |o.ch| || o.ch[c].flags.core != Busy then o
    else With(o, c, Moved(k, o, o.ch[c], position)).(raised := true)
  }

  function Complete(o: Ordo, c: nat, failed: bool): Ordo {
    if c >= |o.ch| || o.ch[c].flags.core != Busy then o
    else
      var x := o.ch[c];
      var flags := x.flags.(core := Ok, stalled := false, error := x.flags.error || failed);
      With(o, c, x.(flags := flags, keepalive := 0, position := if failed then x.position
          else x.length)).(raised := true)
  }

  /** A stalled transfer backed out. `crc` is what the boundary word measures where the context asks for it. */
  function Resolve(k: Knobs, o: Ordo, c: nat, scrub: bool, crcOn: bool, crc: int): Ordo
    requires Sane(k)
  {
    if c >= |o.ch| || !o.ch[c].flags.stalled then o
    else
      var x := o.ch[c];
      var measures := crcOn && x.position % k.wordBytes != 0;
      var f := x.flags.(core := Adnexus, stalled := false);
      var flags := f.(scrubbed := f.scrubbed || scrub, abandoned := f.abandoned || !scrub,
                      measured := f.measured || measures);
      With(o, c, x.(flags := flags, keepalive := 0, crc := if measures then crc else x.crc)).(raised := true)
  }

  function Advance(k: Knobs, o: Ordo, micros: nat): Ordo
    requires Sane(k)
  {
    o.(elapsed := Later(k, o, micros), raised := true)
  }

  /** One channel asked how far it got. */
  predicate Moves(x: Channel, reached: nat) {
    x.flags.core == Busy && reached > x.position
  }

  function Progressed(k: Knobs, o: Ordo, x: Channel, reached: nat): Channel
    requires Sane(k)
  {
    if Moves(x, reached) then Moved(k, o, x, reached) else x
  }

  /** One channel walked: its settle ended, its watchdog read, its detach finished where no transfer is under it. */
  function Walked(o: Ordo, x: Channel): Channel {
    WalkedBy(o.elapsed, o.settleDeadline, x)
  }

  function WalkedBy(elapsed: nat, settleDeadline: nat, x: Channel): Channel {
    if x.flags.core == Separatus then x
    else
      var f := x.flags;
      var f1 := if f.settling && elapsed >= settleDeadline then f.(settling := false) else f;
      var f2 := if f1.core == Busy && elapsed >= x.keepalive then f1.(stalled := true) else f1;
      if f2.separans && f2.core != Busy then IDLE else x.(flags := f2)
  }

  /** Whether a poll walks: the flag is up, or the port reports movement. */
  ghost predicate Walks(o: Ordo, reached: seq<nat>)
    requires |reached| == |o.ch|
  {
    o.raised || exists c :: 0 <= c < |o.ch| && Moves(o.ch[c], reached[c])
  }

  function ProgressAll(k: Knobs, o: Ordo, reached: seq<nat>): Ordo
    requires Sane(k) && |reached| == |o.ch|
  {
    o.(ch := seq(|o.ch|, c requires 0 <= c < |o.ch| => Progressed(k, o, o.ch[c], reached[c])))
  }

  function WalkAll(o: Ordo): Ordo {
    o.(ch := seq(|o.ch|, c requires 0 <= c < |o.ch| => Walked(o, o.ch[c])))
  }

  ghost function Poll(k: Knobs, o: Ordo, reached: seq<nat>): Ordo
    requires Sane(k) && |reached| == |o.ch|
  {
    if o.locked then o
    else if !Walks(o, reached) then o
    else WalkAll(ProgressAll(k, o, reached)).(raised := false)
  }

  function Reset(channels: nat): Ordo {
    Ordo(seq(channels, _ => IDLE), 0, 0, false, false)
  }

  /** Bytes of a channel's destination a backout has to cover. */
  function Extent(k: Knobs, x: Channel): int
    requires Sane(k)
  {
    var remainder := x.position % k.wordBytes;
    if remainder == 0 then x.position
    else if k.wordBytes - remainder >= x.length - x.position then x.length
    else x.position + (k.wordBytes - remainder)
  }

  // ---- every run --------------------------------------------------------------------------------------------

  datatype Action =
    | DoAttach(c: nat, bound: int, bytes: nat, region: nat)
    | DoDetach(c: nat)
    | DoSubmit(c: nat, offset: nat, length: nat)
    | DoKick(c: nat, position: nat)
    | DoComplete(c: nat, failed: bool)
    | DoResolve(c: nat, scrub: bool, crcOn: bool, crc: int)
    | DoAdvance(micros: nat)
    | DoRaise
    | DoPoll(reached: seq<nat>)
    | DoReset

  ghost function Do(k: Knobs, o: Ordo, act: Action): Ordo
    requires Sane(k)
  {
    match act
    case DoAttach(c, bound, bytes, region) => Attach(k, o, c, bound, bytes, region)
    case DoDetach(c) => Detach(o, c)
    case DoSubmit(c, offset, length) => Submit(k, o, c, offset, length)
    case DoKick(c, position) => Kick(k, o, c, position)
    case DoComplete(c, failed) => Complete(o, c, failed)
    case DoResolve(c, scrub, crcOn, crc) => Resolve(k, o, c, scrub, crcOn, crc)
    case DoAdvance(micros) => Advance(k, o, micros)
    case DoRaise => o.(raised := true)
    case DoPoll(reached) => if |reached| == |o.ch| then Poll(k, o, reached) else o
    case DoReset => Reset(|o.ch|)
  }

  /** A channel in any reachable state: detached it is laid bare, stalled it is busy, attached it holds its vector, and
      it never stands past its transfer's end. */
  predicate Kept(x: Channel) {
    && (x.flags.core == Separatus ==> x.flags == DETACHED)
    && (x.flags.stalled ==> x.flags.core == Busy)
    && (x.flags.claimed <==> x.flags.core != Separatus)
    && x.position <= x.length
    && x.flags.region < REGIONS
  }

  ghost predicate Inv(k: Knobs, o: Ordo) {
    && (forall c :: 0 <= c < |o.ch| ==> Kept(o.ch[c]))
    && !o.locked
    && o.elapsed < k.words
    && (!o.raised ==> WalkAll(o) == o)
  }

  /** A walk after a walk changes nothing. */
  lemma {:induction false} WalkTwice(o: Ordo)
    ensures WalkAll(WalkAll(o)) == WalkAll(o)
  {
    forall c | 0 <= c < |o.ch| ensures Walked(o, Walked(o, o.ch[c])) == Walked(o, o.ch[c]) {
      WalkedTwice(o, o.ch[c]);
    }
  }

  lemma {:induction false} WalkedTwice(o: Ordo, x: Channel)
    ensures Walked(o, Walked(o, x)) == Walked(o, x)
  {
  }

  lemma {:induction false} LaterUnder(k: Knobs, o: Ordo, micros: nat)
    requires Sane(k)
    ensures Later(k, o, micros) < k.words
  {
  }

  lemma {:induction false} EntryKeeps(k: Knobs, o: Ordo, act: Action)
    requires Sane(k) && Inv(k, o) && !act.DoPoll? && !act.DoReset?
    ensures Inv(k, Do(k, o, act))
  {
    hide Walked, WalkAll, Later;
    if act.DoSubmit? && act.c < |o.ch| {
      assert Kept(o.ch[act.c]);
    }
    if act.DoAdvance? {
      LaterUnder(k, o, act.micros);
    }
  }

  lemma {:induction false} PollKeeps(k: Knobs, o: Ordo, reached: seq<nat>)
    requires Sane(k) && Inv(k, o) && |reached| == |o.ch|
    ensures Inv(k, Poll(k, o, reached))
  {
    hide WalkAll;
    if Walks(o, reached) {
      var asked := ProgressAll(k, o, reached);
      forall c | 0 <= c < |o.ch| ensures Kept(Walked(asked, asked.ch[c])) {
        ProgressKeeps(k, o, o.ch[c], reached[c]);
        WalkedKeeps(asked, asked.ch[c]);
      }
      WalkTwice(asked);
      WalkedAt(asked);
      WalkIgnores(WalkAll(asked));
    }
  }

  /** The walk reads neither of the two flags. */
  lemma {:induction false} WalkIgnores(o: Ordo)
    ensures WalkAll(o.(raised := false)) == WalkAll(o).(raised := false)
  {
  }

  lemma {:induction false} WalkedAt(o: Ordo)
    ensures |WalkAll(o).ch| == |o.ch| && WalkAll(o).locked == o.locked && WalkAll(o).elapsed == o.elapsed
    ensures forall c :: 0 <= c < |o.ch| ==> WalkAll(o).ch[c] == Walked(o, o.ch[c])
  {
  }

  lemma {:induction false} ProgressKeeps(k: Knobs, o: Ordo, x: Channel, reached: nat)
    requires Sane(k) && Kept(x)
    ensures Kept(Progressed(k, o, x, reached))
  {
  }

  lemma {:induction false} WalkedKeeps(o: Ordo, x: Channel)
    requires Kept(x)
    ensures Kept(Walked(o, x))
  {
  }

  lemma {:induction false} ResetKeeps(k: Knobs, channels: nat)
    requires Sane(k)
    ensures Inv(k, Reset(channels))
  {
  }

  lemma {:induction false} StepKeeps(k: Knobs, o: Ordo, act: Action)
    requires Sane(k) && Inv(k, o)
    ensures Inv(k, Do(k, o, act))
  {
    hide Inv, Poll, Reset;
    match act {
      case DoPoll(reached) =>
        if |reached| == |o.ch| {
          PollKeeps(k, o, reached);
        }
      case DoReset => ResetKeeps(k, |o.ch|);
      case _ => EntryKeeps(k, o, act);
    }
  }

  ghost predicate Runs(k: Knobs, channels: nat, states: seq<Ordo>, acts: seq<Action>) {
    && Sane(k) && |states| == |acts| + 1 && states[0] == Reset(channels)
    && forall n :: 0 <= n < |acts| ==> states[n + 1] == Do(k, states[n], acts[n])
  }

  lemma {:induction false} RunKeeps(k: Knobs, channels: nat, states: seq<Ordo>, acts: seq<Action>, n: nat)
    requires Runs(k, channels, states, acts) && n < |states|
    ensures Inv(k, states[n]) && |states[n].ch| == channels
  {
    hide Inv, Do, Reset;
    if n == 0 {
      ResetKeeps(k, channels);
      ResetHas(channels);
    } else {
      RunKeeps(k, channels, states, acts, n - 1);
      StepKeeps(k, states[n - 1], acts[n - 1]);
      ChannelsStand(k, states[n - 1], acts[n - 1]);
    }
  }

  lemma {:induction false} ResetHas(channels: nat)
    ensures |Reset(channels).ch| == channels
  {
  }

  lemma {:induction false} ChannelsStand(k: Knobs, o: Ordo, act: Action)
    requires Sane(k)
    ensures |Do(k, o, act).ch| == |o.ch|
  {
  }

  // ---- what a run can be relied on for ----------------------------------------------------------------------

  /** The poll's short circuit is sound: where it skips, the walk it skipped would change no channel, and asking the
      port changed none. */
  lemma {:induction false} ShortCircuitSound(k: Knobs, channels: nat, states: seq<Ordo>, acts: seq<Action>, n: nat,
                                             reached: seq<nat>)
    requires Runs(k, channels, states, acts) && n < |states| && |reached| == channels
    ensures !states[n].locked && |states[n].ch| == channels
    ensures !Walks(states[n], reached) ==> WalkAll(ProgressAll(k, states[n], reached)) == states[n]
  {
    RunKeeps(k, channels, states, acts, n);
    if !Walks(states[n], reached) {
      assert ProgressAll(k, states[n], reached) == states[n];
    }
  }

  /** In every reachable state a stalled channel is busy, a detached one is laid bare, and no position passes its
      transfer's length. */
  lemma {:induction false} ChannelsKept(k: Knobs, channels: nat, states: seq<Ordo>, acts: seq<Action>, n: nat, c: nat)
    requires Runs(k, channels, states, acts) && n < |states| && c < channels
    ensures |states[n].ch| == channels
    ensures states[n].ch[c].flags.stalled ==> states[n].ch[c].flags.core == Busy
    ensures states[n].ch[c].flags.core == Separatus ==> states[n].ch[c].flags == DETACHED
    ensures states[n].ch[c].position <= states[n].ch[c].length
  {
    RunKeeps(k, channels, states, acts, n);
    assert Kept(states[n].ch[c]);
  }

  /** What a poll makes of one channel. */
  lemma {:induction false} PollAt(k: Knobs, o: Ordo, reached: seq<nat>, c: nat)
    requires Sane(k) && |reached| == |o.ch| && c < |o.ch|
    ensures |Poll(k, o, reached).ch| == |o.ch|
    ensures Poll(k, o, reached).ch[c] == o.ch[c]
         || Poll(k, o, reached).ch[c] == Walked(ProgressAll(k, o, reached), Progressed(k, o, o.ch[c], reached[c]))
  {
    hide Walked, Progressed, Walks;
  }

  /** What changed of a channel over one step, and what may have changed it. */
  ghost predicate Follows(x: Channel, y: Channel, act: Action, c: nat) {
    && (x.flags.core == Busy && y.flags.core != Busy ==>
          (act.DoComplete? && act.c == c) || (act.DoResolve? && act.c == c && x.flags.stalled))
    && (x.flags.core != Separatus && y.flags.core == Separatus ==>
          act.DoPoll? && x.flags.separans && x.flags.core != Busy)
    && (x.flags.core != Separatus && y.flags.core != Separatus ==>
          && y.flags.region == x.flags.region && y.bound == x.bound && y.boundBytes == x.boundBytes
          && (x.flags.separans ==> y.flags.separans)
          && (!(act.DoSubmit? && act.c == c) ==>
              x.position <= y.position && y.length == x.length && y.start == x.start))
  }

  lemma {:induction false} AttachFollows(k: Knobs, o: Ordo, act: Action, c: nat)
    requires Sane(k) && c < |o.ch| && Kept(o.ch[c])
    requires act.DoAttach? || act.DoDetach?
    ensures |Do(k, o, act).ch| == |o.ch| && Follows(o.ch[c], Do(k, o, act).ch[c], act, c)
  {
    hide Later, WalkAll, Walked, Poll;
  }

  lemma {:induction false} SubmitFollows(k: Knobs, o: Ordo, act: Action, c: nat)
    requires Sane(k) && c < |o.ch| && Kept(o.ch[c])
    requires act.DoSubmit? || act.DoAdvance? || act.DoRaise?
    ensures |Do(k, o, act).ch| == |o.ch| && Follows(o.ch[c], Do(k, o, act).ch[c], act, c)
  {
    hide Later, WalkAll, Walked, Poll;
  }

  lemma {:induction false} KickFollows(k: Knobs, o: Ordo, act: Action, c: nat)
    requires Sane(k) && c < |o.ch| && Kept(o.ch[c])
    requires act.DoKick?
    ensures |Do(k, o, act).ch| == |o.ch| && Follows(o.ch[c], Do(k, o, act).ch[c], act, c)
  {
    hide Later, WalkAll, Walked, Poll;
  }

  lemma {:induction false} CompleteFollows(k: Knobs, o: Ordo, act: Action, c: nat)
    requires Sane(k) && c < |o.ch| && Kept(o.ch[c])
    requires act.DoComplete?
    ensures |Do(k, o, act).ch| == |o.ch| && Follows(o.ch[c], Do(k, o, act).ch[c], act, c)
  {
    hide Later, WalkAll, Walked, Poll;
  }

  lemma {:induction false} ResolveFollows(k: Knobs, o: Ordo, act: Action, c: nat)
    requires Sane(k) && c < |o.ch| && Kept(o.ch[c])
    requires act.DoResolve?
    ensures |Do(k, o, act).ch| == |o.ch| && Follows(o.ch[c], Do(k, o, act).ch[c], act, c)
  {
    hide Later, WalkAll, Walked, Poll;
  }

  lemma {:induction false} EntryFollows(k: Knobs, o: Ordo, act: Action, c: nat)
    requires Sane(k) && Inv(k, o) && c < |o.ch| && !act.DoReset? && !act.DoPoll?
    ensures |Do(k, o, act).ch| == |o.ch| && Follows(o.ch[c], Do(k, o, act).ch[c], act, c)
  {
    hide Do, Follows, Kept, WalkAll;
    if act.DoAttach? || act.DoDetach? {
      AttachFollows(k, o, act, c);
    } else if act.DoKick? {
      KickFollows(k, o, act, c);
    } else if act.DoComplete? {
      CompleteFollows(k, o, act, c);
    } else if act.DoResolve? {
      ResolveFollows(k, o, act, c);
    } else {
      SubmitFollows(k, o, act, c);
    }
  }

  /** Asking the port of a channel moves its position on and ends no transfer. */
  lemma {:induction false} ProgressOf(k: Knobs, o: Ordo, x: Channel, reached: nat)
    requires Sane(k) && x.position <= x.length
    ensures var y := Progressed(k, o, x, reached);
      && y.flags.core == x.flags.core && y.flags.separans == x.flags.separans && y.flags.region == x.flags.region
      && y.bound == x.bound && y.boundBytes == x.boundBytes && y.length == x.length && y.start == x.start
      && x.position <= y.position <= y.length
  {
    hide Later;
  }

  /** Walking a channel ends no transfer, and lays it bare only where a detach was asked for and none is under it. */
  lemma {:induction false} WalkOf(o: Ordo, x: Channel)
    ensures var y := Walked(o, x);
      || (y == IDLE && x.flags.separans && x.flags.core != Busy && x.flags.core != Separatus)
      || (&& y.flags.core == x.flags.core && y.flags.separans == x.flags.separans && y.flags.region == x.flags.region
          && y.bound == x.bound && y.boundBytes == x.boundBytes && y.length == x.length && y.start == x.start
          && y.position == x.position)
  {
  }

  lemma {:induction false} PollFollows(k: Knobs, o: Ordo, reached: seq<nat>, c: nat)
    requires Sane(k) && Inv(k, o) && c < |o.ch|
    ensures |Do(k, o, DoPoll(reached)).ch| == |o.ch|
    ensures Follows(o.ch[c], Do(k, o, DoPoll(reached)).ch[c], DoPoll(reached), c)
  {
    hide Later, WalkAll, Poll, ProgressAll, Walked, Progressed;
    assert Kept(o.ch[c]);
    if |reached| == |o.ch| {
      PollAt(k, o, reached, c);
      ProgressOf(k, o, o.ch[c], reached[c]);
      WalkOf(ProgressAll(k, o, reached), Progressed(k, o, o.ch[c], reached[c]));
    }
  }

  /** Over any step of any reachable state but a reset: only a completion, or a stall resolved, ends a transfer, and
      no timer, detach or poll does; a detach is finished by a poll alone, where one was asked for and no transfer is
      under the channel; what a channel was attached over stands until then; and within a transfer its position never
      falls. */
  lemma {:induction false} TransitionsFollow(k: Knobs, channels: nat, states: seq<Ordo>, acts: seq<Action>, n: nat,
                                             c: nat)
    requires Runs(k, channels, states, acts) && n < |acts| && c < channels && !acts[n].DoReset?
    ensures |states[n].ch| == |states[n + 1].ch| == channels
    ensures Follows(states[n].ch[c], states[n + 1].ch[c], acts[n], c)
  {
    hide Inv, Do, Follows;
    RunKeeps(k, channels, states, acts, n);
    if acts[n].DoPoll? {
      PollFollows(k, states[n], acts[n].reached, c);
    } else {
      EntryFollows(k, states[n], acts[n], c);
    }
  }

  // ---- timers and extents -----------------------------------------------------------------------------------

  /** Whether a window opened now runs past the word the clock wraps at. */
  predicate WindowPasses(k: Knobs, o: Ordo) {
    o.elapsed + k.keepalive >= k.words
  }

  lemma {:induction false} WindowEnds(k: Knobs, o: Ordo)
    requires Sane(k) && o.elapsed < k.words && k.keepalive < k.words
    ensures Later(k, o, k.keepalive) <= o.elapsed <==> k.keepalive == 0 || WindowPasses(k, o)
  {
    if WindowPasses(k, o) {
      ModIs(o.elapsed + k.keepalive, 1, o.elapsed + k.keepalive - k.words, k.words);
    } else {
      Below(o.elapsed + k.keepalive, k.words);
    }
  }

  /** In any state a run reaches, a channel just submitted and a busy channel just kicked are each read stalled by a
      walk at that same instant if and only if the window runs past the word: only there does the deadline land behind
      the clock. */
  lemma {:induction false} StallsAtOnce(k: Knobs, channels: nat, states: seq<Ordo>, acts: seq<Action>, n: nat, c: nat,
                                        offset: nat, length: nat, position: nat)
    requires Runs(k, channels, states, acts) && n < |states| && 0 < k.keepalive < k.words && c < channels
    ensures |states[n].ch| == channels
    ensures TakesSubmit(states[n], c) ==>
      var o := Submit(k, states[n], c, offset, length);
      |o.ch| == channels && (Walked(o, o.ch[c]).flags.stalled <==> WindowPasses(k, states[n]))
    ensures states[n].ch[c].flags.core == Busy ==>
      var o := Kick(k, states[n], c, position);
      |o.ch| == channels && (Walked(o, o.ch[c]).flags.stalled <==> WindowPasses(k, states[n]))
  {
    hide Later;
    RunKeeps(k, channels, states, acts, n);
    WindowEnds(k, states[n]);
  }

  /** With a 16-bit clock and a window of 1000, a transfer submitted at 65000 is stalled before any time has passed. */
  lemma {:induction false} StalledUnmoved()
    ensures var k := Knobs(0x10000, 2, 0, 1000);
            var o := Do(k, Do(k, Reset(1), DoAdvance(65000)), DoAttach(0, 0, 8, 0));
            var sent := Do(k, o, DoSubmit(0, 0, 8));
            var polled := Do(k, sent, DoPoll([0]));
      && |sent.ch| == |polled.ch| == 1 && sent.ch[0].flags.core == Busy
      && polled.elapsed == sent.elapsed && polled.ch[0].flags.stalled
  {
    var k := Knobs(0x10000, 2, 0, 1000);
    var o := Do(k, Do(k, Reset(1), DoAdvance(65000)), DoAttach(0, 0, 8, 0));
    assert o.elapsed == 65000 && o.ch[0].flags.core == Adnexus && !o.ch[0].flags.settling;
    var sent := Do(k, o, DoSubmit(0, 0, 8));
    assert sent.ch[0].keepalive == 464 && sent.raised;
    assert Progressed(k, sent, sent.ch[0], 0) == sent.ch[0];
    var asked := ProgressAll(k, sent, [0]);
    assert asked.ch[0] == sent.ch[0] && asked.elapsed == 65000;
    assert Do(k, sent, DoPoll([0])) == WalkAll(asked).(raised := false);
  }

  /** A count rounded up to whole words. */
  function RoundedUp(n: nat, word: nat): nat
    requires word >= 1
  {
    (n + word - 1) / word * word
  }

  /** The least count of whole words that covers `n`. */
  lemma {:induction false} RoundedUpIs(n: nat, word: nat)
    requires word >= 1
    ensures n <= RoundedUp(n, word) < n + word && RoundedUp(n, word) % word == 0
    ensures RoundedUp(n, word) == if n % word == 0 then n else n + (word - n % word)
  {
    var q, r := n / word, n % word;
    assert n == q * word + r;
    Distribute(q, 1, word);
    if r == 0 {
      ModIs(n + word - 1, q, word - 1, word);
      ModIs(n, q, 0, word);
    } else {
      ModIs(n + word - 1, q + 1, r - 1, word);
      ModIs((q + 1) * word, q + 1, 0, word);
    }
  }

  /** The bytes a backout covers are the lesser of the transfer's length and its position rounded up to whole words, and
      the sum that rounds is taken only where it stays inside the length. */
  lemma {:induction false} ExtentCovers(k: Knobs, x: Channel)
    requires Sane(k) && x.position <= x.length
    ensures var rounded := RoundedUp(x.position, k.wordBytes);
      Extent(k, x) == if rounded < x.length then rounded else x.length
  {
    hide RoundedUp;
    RoundedUpIs(x.position, k.wordBytes);
  }

  // ---- the schedule context ---------------------------------------------------------------------------------

  /** One context: its channels, its two deadlines' clock, the flag that something happened, and the reader's lock. */
  class Schedule {
    const k: Knobs
    const ch: array<Channel>
    /** Whether the declaration asked for the boundary word to be measured. */
    const crcOn: bool
    var settleDeadline: nat
    var elapsed: nat
    var raised: bool
    var locked: bool

    ghost function Now(): Ordo
      reads this, ch
    {
      Ordo(ch[..], settleDeadline, elapsed, raised, locked)
    }

    constructor (k: Knobs, channels: nat, crcOn: bool)
      requires Sane(k)
      ensures this.k == k && this.crcOn == crcOn && Now() == Reset(channels) && fresh(ch)
    {
      this.k, this.crcOn := k, crcOn;
      ch := new Channel[channels](_ => IDLE);
      settleDeadline, elapsed, raised, locked := 0, 0, false, false;
    }

    method ResetAll()
      modifies this, ch
      ensures Now() == Reset(ch.Length)
    {
      var c := 0;
      while c < ch.Length
        invariant 0 <= c <= ch.Length
        invariant forall j :: 0 <= j < c ==> ch[j] == IDLE
      {
        ch[c] := IDLE;
        c := c + 1;
      }
      settleDeadline, elapsed, raised, locked := 0, 0, false, false;
    }

    method Adnectere(channel: nat, bound: int, bytes: nat, region: nat) returns (ok: bool)
      requires Sane(k)
      modifies this, ch
      ensures Now() == Attach(k, old(Now()), channel, bound, bytes, region) && ok == TakesAttach(old(Now()), channel)
    {
      ok := channel < ch.Length && ch[channel].flags.core == Separatus;
      if ok {
        var deadline := (elapsed + k.settle) % k.words;
        if deadline > settleDeadline {
          settleDeadline := deadline;
        }
        var flags := DETACHED.(core := Adnexus, claimed := true);
        if elapsed < settleDeadline {
          flags := flags.(settling := true);
        }
        ch[channel] := ch[channel].(flags := flags.(region := region % REGIONS), bound := bound, boundBytes := bytes);
        raised := true;
      }
    }

    method Separare(channel: nat)
      modifies this, ch
      ensures Now() == Detach(old(Now()), channel)
    {
      if channel < ch.Length && ch[channel].flags.core != Separatus {
        ch[channel] := ch[channel].(flags := ch[channel].flags.(separans := true));
        raised := true;
      }
    }

    method Relatio(channel: nat, offset: nat, length: nat) returns (ok: bool)
      requires Sane(k)
      modifies this, ch
      ensures Now() == Submit(k, old(Now()), channel, offset, length) && ok == TakesSubmit(old(Now()), channel)
    {
      ok := false;
      if channel < ch.Length {
        var x := ch[channel];
        ok := (x.flags.core == Adnexus || x.flags.core == Ok) && !x.flags.settling && !x.flags.separans;
        if ok {
          ch[channel] := x.(flags := Cleared(x.flags).(core := Busy), keepalive := (elapsed + k.keepalive) % k.words,
                            start := x.bound + offset, length := length, position := 0);
          raised := true;
        }
      }
    }

    method Efficere(channel: nat, position: nat)
      requires Sane(k)
      modifies this, ch
      ensures Now() == Kick(k, old(Now()), channel, position)
    {
      if channel < ch.Length && ch[channel].flags.core == Busy {
        var x := ch[channel];
        x := x.(flags := x.flags.(stalled := false), keepalive := (elapsed + k.keepalive) % k.words);
        if position > x.position {
          x := x.(position := if position > x.length then x.length else position);
        }
        ch[channel] := x;
        raised := true;
      }
    }

    method Completed(channel: nat, failed: bool)
      modifies this, ch
      ensures Now() == Complete(old(Now()), channel, failed)
    {
      if channel < ch.Length && ch[channel].flags.core == Busy {
        var x := ch[channel];
        var flags := x.flags.(core := Ok, stalled := false);
        if failed {
          flags := flags.(error := true);
        } else {
          x := x.(position := x.length);
        }
        ch[channel] := x.(flags := flags, keepalive := 0);
        raised := true;
      }
    }

    /** `crc` is the boundary word's checksum, taken where it is measured. */
    method Resolves(channel: nat, scrub: bool, crc: int) returns (ok: bool)
      requires Sane(k)
      modifies this, ch
      ensures Now() == Resolve(k, old(Now()), channel, scrub, crcOn, crc)
      ensures ok <==> channel < ch.Length && old(ch[channel].flags.stalled)
    {
      ok := channel < ch.Length && ch[channel].flags.stalled;
      if ok {
        var x := ch[channel];
        var flags := x.flags.(core := Adnexus, stalled := false);
        flags := if scrub then flags.(scrubbed := true) else flags.(abandoned := true);
        if crcOn && x.position % k.wordBytes != 0 {
          x := x.(crc := crc);
          flags := flags.(measured := true);
        }
        ch[channel] := x.(flags := flags, keepalive := 0);
        raised := true;
      }
    }

    /** Time gone on, as a run's step: it moves no channel and leaves the flag up, so the next poll walks. */
    method AdvanceBy(micros: nat)
      requires Sane(k)
      modifies this
      ensures Now() == Do(k, old(Now()), DoAdvance(micros))
      ensures old(Inv(k, Now())) ==> Inv(k, Now())
      ensures forall reached: seq<nat> :: |reached| == ch.Length ==> Walks(Now(), reached)
    {
      elapsed := (elapsed + micros) % k.words;
      raised := true;
    }

    /** What an interrupt does, as a run's step: it moves no channel, and the next poll walks. */
    method Raise()
      requires Sane(k)
      modifies this`raised
      ensures Now() == Do(k, old(Now()), DoRaise)
      ensures old(Inv(k, Now())) ==> Inv(k, Now())
      ensures forall reached: seq<nat> :: |reached| == ch.Length ==> Walks(Now(), reached)
    {
      raised := true;
    }

    /** Every running channel asked how far it got. */
    method TakeProgress(reached: seq<nat>) returns (moved: bool)
      requires Sane(k) && |reached| == ch.Length
      modifies ch
      ensures Now() == ProgressAll(k, old(Now()), reached)
      ensures moved <==> exists c :: 0 <= c < ch.Length && Moves(old(ch[c]), reached[c])
    {
      hide Progressed, Moves;
      ghost var o := Now();
      moved := false;
      var c := 0;
      while c < ch.Length
        invariant 0 <= c <= ch.Length
        invariant forall j :: 0 <= j < c ==> ch[j] == Progressed(k, o, o.ch[j], reached[j])
        invariant forall j :: c <= j < ch.Length ==> ch[j] == o.ch[j]
        invariant moved <==> exists j :: 0 <= j < c && Moves(o.ch[j], reached[j])
      {
        ProgressedIgnores(k, Now(), o, ch[c], reached[c]);
        var here := Advanced(c, reached[c]);
        moved := moved || here;
        c := c + 1;
      }
    }

    /** One channel asked how far it got. */
    method Advanced(c: nat, reached: nat) returns (moved: bool)
      requires Sane(k) && c < ch.Length
      modifies ch
      ensures ch[..] == old(ch[..])[c := Progressed(k, old(Now()), old(ch[c]), reached)]
      ensures moved == Moves(old(ch[c]), reached)
    {
      var x := ch[c];
      moved := false;
      if x.flags.core == Busy && reached > x.position {
        ch[c] := x.(position := if reached > x.length then x.length else reached,
                    keepalive := (elapsed + k.keepalive) % k.words, flags := x.flags.(stalled := false));
        moved := true;
      }
    }

    /** One channel walked. */
    method WalkOne(c: nat, settled: bool)
      requires c < ch.Length && settled == (elapsed >= settleDeadline)
      modifies ch
      ensures ch[..] == old(ch[..])[c := Walked(old(Now()), old(ch[c]))]
    {
      var x := ch[c];
      if x.flags.core != Separatus {
        var now := x.flags;
        if now.settling && settled {
          now := now.(settling := false);
        }
        if now.core == Busy && elapsed >= x.keepalive {
          now := now.(stalled := true);
        }
        if now.separans && now.core != Busy {
          x := IDLE;
          now := DETACHED;
        }
        ch[c] := x.(flags := now);
      }
    }

    /** The poll: the port asked first, and every channel walked unless nothing can have changed. */
    method PollNow(reached: seq<nat>)
      requires Sane(k) && |reached| == ch.Length
      modifies this, ch
      ensures Now() == Poll(k, old(Now()), reached)
    {
      hide Walked, Moves, Progressed;
      if locked { return; }
      locked := true;
      ghost var o := old(Now());
      var moved := TakeProgress(reached);
      ProgressAllAt(k, o, reached);
      ProgressIgnores(k, o, reached);
      if !raised && !moved {
        locked := false;
        return;
      }
      ghost var asked := ProgressAll(k, o, reached);
      var settled := elapsed >= settleDeadline;
      var c := 0;
      while c < ch.Length
        modifies ch
        invariant 0 <= c <= ch.Length
        invariant forall j :: 0 <= j < c ==> ch[j] == Walked(asked, asked.ch[j])
        invariant forall j :: c <= j < ch.Length ==> ch[j] == asked.ch[j]
      {
        WalkedIgnores(Now(), asked, ch[c]);
        WalkOne(c, settled);
        c := c + 1;
      }
      raised := false;
      locked := false;
    }
  }

  /** The walk of a channel reads the clock and the settle deadline, and nothing else of the context. */
  lemma {:induction false} WalkedIgnores(a: Ordo, b: Ordo, x: Channel)
    requires a.elapsed == b.elapsed && a.settleDeadline == b.settleDeadline
    ensures Walked(a, x) == Walked(b, x)
  {
  }

  lemma {:induction false} ProgressedIgnores(k: Knobs, a: Ordo, b: Ordo, x: Channel, reached: nat)
    requires Sane(k) && a.elapsed == b.elapsed
    ensures Progressed(k, a, x, reached) == Progressed(k, b, x, reached)
  {
  }

  lemma {:induction false} ProgressAllAt(k: Knobs, o: Ordo, reached: seq<nat>)
    requires Sane(k) && |reached| == |o.ch|
    ensures |ProgressAll(k, o, reached).ch| == |o.ch|
    ensures !Walks(o, reached) ==> ProgressAll(k, o, reached) == o
  {
    if !Walks(o, reached) {
      forall c | 0 <= c < |o.ch| ensures Progressed(k, o, o.ch[c], reached[c]) == o.ch[c] {
        assert !Moves(o.ch[c], reached[c]);
      }
    }
  }

  lemma {:induction false} ProgressIgnores(k: Knobs, o: Ordo, reached: seq<nat>)
    requires Sane(k) && |reached| == |o.ch|
    ensures ProgressAll(k, o.(locked := true), reached) == ProgressAll(k, o, reached).(locked := true)
  {
  }
}
