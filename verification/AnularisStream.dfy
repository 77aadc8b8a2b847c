/** The byte stream of a ring with one producer and one consumer, at every interleaving of their loads, copies and
    stores. The words are the buffer and the two cursors; beside them the state carries every byte a put accepted and
    every byte a read took. */
module AnularisStream {
  import opened WordArithmetic

  datatype Producer =
    | Offers
    | LoadedHead(head: nat, data: seq<int>)
    | Copying(head: nat, data: seq<int>, done: nat)

  datatype Consumer =
    | Asks
    | LoadedTail(tail: nat, want: nat)
    | Taking(tail: nat, bytes: nat, got: seq<int>)

  datatype Ring = Ring(buf: seq<int>, head: nat, tail: nat, producer: Producer, consumer: Consumer,
                       accepted: seq<int>, taken: seq<int>)

  function Capacity(r: Ring): nat {
    |r.buf|
  }

  /** The readable bytes between two cursors, and the writable ones: one byte is withheld. */
  function Used(head: nat, tail: nat, capacity: nat): nat
    requires capacity >= 1
  {
    (head as int - tail) % capacity
  }

  function Vacant(head: nat, tail: nat, capacity: nat): int
    requires capacity >= 1
  {
    capacity - 1 - Used(head, tail, capacity)
  }

  /** A run of bytes stored from an index on, around the ring. */
  function Written(buf: seq<int>, at: nat, bytes: seq<int>): seq<int>
    requires |buf| >= 1
    decreases |bytes|
  {
    if bytes == [] then buf else Written(buf[at % |buf| := bytes[0]], at + 1, bytes[1..])
  }

  function Gotten(buf: seq<int>, at: nat, n: nat): seq<int>
    requires |buf| >= 1
  {
    seq(n, i requires 0 <= i < n => buf[(at + i) % |buf|])
  }

  datatype Action =
    | LoadHead(data: seq<int>)
    | LoadTailAhead
    | CopyIn(n: nat)
    | StoreHead
    | LoadTail(want: nat)
    | LoadHeadAhead
    | CopyOut(n: nat)
    | StoreTail

  predicate Enabled(r: Ring, act: Action) {
    && Capacity(r) >= 1
    && match act
       case LoadHead(_) => r.producer.Offers?
       case LoadTailAhead => r.producer.LoadedHead?
       case CopyIn(n) => r.producer.Copying? && 1 <= n && r.producer.done + n <= |r.producer.data|
       case StoreHead => r.producer.Copying? && r.producer.done == |r.producer.data|
       case LoadTail(_) => r.consumer.Asks?
       case LoadHeadAhead => r.consumer.LoadedTail?
       case CopyOut(n) => r.consumer.Taking? && 1 <= n && |r.consumer.got| + n <= r.consumer.bytes
       case StoreTail => r.consumer.Taking? && |r.consumer.got| == r.consumer.bytes
  }

  /** One atomic step of either side. */
  function Do(r: Ring, act: Action): Ring
    requires Enabled(r, act)
  {
    var capacity := Capacity(r);
    match act
    case LoadHead(data) => r.(producer := LoadedHead(r.head, data))
    case LoadTailAhead =>
      var p := r.producer;
      r.(producer := if |p.data| > Vacant(p.head, r.tail, capacity) then Offers else Copying(p.head, p.data, 0))
    case CopyIn(n) =>
      var p := r.producer;
      r.(buf := Written(r.buf, p.head + p.done, p.data[p.done..p.done + n]),
         producer := Copying(p.head, p.data, p.done + n))
    case StoreHead =>
      var p := r.producer;
      r.(head := (p.head + |p.data|) % capacity, producer := Offers, accepted := r.accepted + p.data)
    case LoadTail(want) => r.(consumer := LoadedTail(r.tail, want))
    case LoadHeadAhead =>
      var q := r.consumer;
      var have := Used(r.head, q.tail, capacity);
      r.(consumer := Taking(q.tail, if have < q.want then have else q.want, []))
    case CopyOut(n) =>
      var q := r.consumer;
      r.(consumer := Taking(q.tail, q.bytes, q.got + Gotten(r.buf, q.tail + |q.got|, n)))
    case StoreTail =>
      var q := r.consumer;
      r.(tail := (q.tail + q.bytes) % capacity, consumer := Asks, taken := r.taken + q.got)
  }

  // ---- what every step keeps --------------------------------------------------------------------------------

  function In(r: Ring): nat {
    |r.accepted|
  }

  function Out(r: Ring): nat {
    |r.taken|
  }

  /** Bytes waiting stand at their places, at most one under the capacity of them, and what was read is what was
      accepted first. */
  ghost predicate Standing(r: Ring) {
    && Capacity(r) >= 1
    && Out(r) <= In(r) <= Out(r) + Capacity(r) - 1
    && r.head == In(r) % Capacity(r) && r.tail == Out(r) % Capacity(r)
    && r.taken == r.accepted[..Out(r)]
    && forall n :: Out(r) <= n < In(r) ==> r.buf[n % Capacity(r)] == r.accepted[n]
  }

  /** A put under way fits the room it read, and what it has copied stands past the head. */
  ghost predicate Putting(r: Ring) {
    match r.producer
    case Offers => true
    case LoadedHead(head, _) => head == r.head
    case Copying(head, data, done) =>
      && Capacity(r) >= 1
      && head == r.head && done <= |data| && In(r) + |data| <= Out(r) + Capacity(r) - 1
      && forall n :: In(r) <= n < In(r) + done ==> r.buf[n % Capacity(r)] == data[n - In(r)]
  }

  /** A read under way has no more bytes to take than wait, and has taken the first of them. */
  ghost predicate Reading(r: Ring) {
    match r.consumer
    case Asks => true
    case LoadedTail(tail, _) => tail == r.tail
    case Taking(tail, bytes, got) =>
      && tail == r.tail && |got| <= bytes && Out(r) + bytes <= In(r)
      && got == r.accepted[Out(r)..Out(r) + |got|]
  }

  ghost predicate Inv(r: Ring) {
    Standing(r) && Putting(r) && Reading(r)
  }

  // ---- indices around the ring ------------------------------------------------------------------------------

  /** Two cursors give back the bytes between them, as long as those are less than a lap. */
  lemma {:induction false} UsedIs(head: nat, tail: nat, total: nat, out: nat, capacity: nat)
    requires capacity >= 1 && out <= total < out + capacity
    requires head == total % capacity && tail == out % capacity
    ensures Used(head, tail, capacity) == total - out
  {
    var a, b := total / capacity, out / capacity;
    assert head as int - tail == (b - a) * capacity + (total - out);
    ModAdds(total - out, b - a, capacity);
    Below(total - out, capacity);
  }

  /** The cursors meet exactly where nothing waits. */
  lemma {:induction false} CursorsMeet(r: Ring)
    requires Standing(r)
    ensures r.head == r.tail <==> In(r) == Out(r)
  {
    if Out(r) < In(r) {
      ModApart(Out(r), In(r), Capacity(r));
    }
  }

  // ---- the steps --------------------------------------------------------------------------------------------

  lemma {:induction false} WrittenLength(buf: seq<int>, at: nat, bytes: seq<int>)
    requires |buf| >= 1
    ensures |Written(buf, at, bytes)| == |buf|
    decreases |bytes|
  {
    if bytes != [] {
      WrittenLength(buf[at % |buf| := bytes[0]], at + 1, bytes[1..]);
    }
  }

  /** A run shorter than a lap stored: its bytes stand at their indices. */
  lemma {:induction false} WrittenAt(buf: seq<int>, at: nat, bytes: seq<int>, n: nat)
    requires |bytes| <= |buf| && |buf| >= 1 && at <= n < at + |bytes|
    ensures |Written(buf, at, bytes)| == |buf|
    ensures Written(buf, at, bytes)[n % |buf|] == bytes[n - at]
    decreases |bytes|
  {
    var next := buf[at % |buf| := bytes[0]];
    WrittenLength(next, at + 1, bytes[1..]);
    if n == at {
      WrittenKeeps(next, at + 1, bytes[1..], at);
    } else {
      WrittenAt(next, at + 1, bytes[1..], n);
    }
  }

  /** A byte whose place is less than a lap from every byte of the run, and not among them, stands. */
  lemma {:induction false} WrittenKeeps(buf: seq<int>, at: nat, bytes: seq<int>, n: nat)
    requires |buf| >= 1 && n < at && at + |bytes| <= n + |buf|
    ensures |Written(buf, at, bytes)| == |buf|
    ensures Written(buf, at, bytes)[n % |buf|] == buf[n % |buf|]
    decreases |bytes|
  {
    if bytes != [] {
      ModApart(n, at, |buf|);
      WrittenKeeps(buf[at % |buf| := bytes[0]], at + 1, bytes[1..], n);
    }
  }

  /** Where a run starts is its index alone. */
  lemma {:induction false} WrittenShifts(buf: seq<int>, a: nat, b: nat, bytes: seq<int>)
    requires |buf| >= 1 && a % |buf| == b % |buf|
    ensures Written(buf, a, bytes) == Written(buf, b, bytes)
    decreases |bytes|
  {
    if bytes != [] {
      ModShifts(a, 1, |buf|);
      ModShifts(b, 1, |buf|);
      WrittenShifts(buf[a % |buf| := bytes[0]], a + 1, b + 1, bytes[1..]);
    }
  }

  lemma {:induction false} CopyInKeeps(r: Ring, n: nat)
    requires Inv(r) && Enabled(r, CopyIn(n))
    ensures Inv(Do(r, CopyIn(n)))
  {
    hide Written, Gotten;
    var p, capacity := r.producer, Capacity(r);
    var at, run := In(r) + p.done, p.data[p.done..p.done + n];
    ModShifts(In(r), p.done, capacity);
    Below(p.head + p.done, p.head + p.done + 1);
    WrittenShifts(r.buf, p.head + p.done, at, run) by {
      ModShifts(In(r), p.done, capacity);
    }
    WrittenLength(r.buf, at, run);
    var buf := Written(r.buf, at, run);
    forall m | Out(r) <= m < In(r) + p.done ensures buf[m % capacity] == r.buf[m % capacity] {
      WrittenKeeps(r.buf, at, run, m);
    }
    forall m | at <= m < at + n ensures buf[m % capacity] == p.data[m - In(r)] {
      WrittenAt(r.buf, at, run, m);
    }
  }

  /** A run read off its indices is the bytes that stand there. */
  lemma {:induction false} GottenIs(buf: seq<int>, from: nat, at: nat, n: nat, bytes: seq<int>)
    requires |buf| >= 1 && from % |buf| == at % |buf| && at + n <= |bytes|
    requires forall m :: at <= m < at + n ==> buf[m % |buf|] == bytes[m]
    ensures Gotten(buf, from, n) == bytes[at..at + n]
  {
    forall i | 0 <= i < n ensures Gotten(buf, from, n)[i] == bytes[at + i] {
      ModShifts(from, i, |buf|);
      ModShifts(at, i, |buf|);
    }
  }

  /** What a read has taken and the run it takes next are the oldest of what waits. */
  lemma {:induction false} GotFurther(r: Ring, n: nat)
    requires Inv(r) && Enabled(r, CopyOut(n))
    ensures var q := r.consumer;
      q.got + Gotten(r.buf, q.tail + |q.got|, n) == r.accepted[Out(r)..Out(r) + |q.got| + n]
  {
    hide Gotten, Putting;
    var q := r.consumer;
    var at := Out(r) + |q.got|;
    ModShifts(Out(r), |q.got|, Capacity(r));
    GottenIs(r.buf, q.tail + |q.got|, at, n, r.accepted);
    assert r.accepted[Out(r)..at] + r.accepted[at..at + n] == r.accepted[Out(r)..at + n];
  }

  lemma {:induction false} CopyOutKeeps(r: Ring, n: nat)
    requires Inv(r) && Enabled(r, CopyOut(n))
    ensures Inv(Do(r, CopyOut(n)))
  {
    hide Gotten, Written, Used;
    GotFurther(r, n);
  }

  lemma {:induction false} StoreHeadKeeps(r: Ring)
    requires Inv(r) && Enabled(r, StoreHead)
    ensures Inv(Do(r, StoreHead))
  {
    var p, capacity := r.producer, Capacity(r);
    ModShifts(In(r), |p.data|, capacity);
    var r' := Do(r, StoreHead);
    assert r'.accepted[..Out(r)] == r.accepted[..Out(r)];
    if r.consumer.Taking? {
      assert r'.accepted[Out(r)..Out(r) + |r.consumer.got|] == r.accepted[Out(r)..Out(r) + |r.consumer.got|];
    }
  }

  lemma {:induction false} StoreTailKeeps(r: Ring)
    requires Inv(r) && Enabled(r, StoreTail)
    ensures Inv(Do(r, StoreTail))
  {
    var q, capacity := r.consumer, Capacity(r);
    ModShifts(Out(r), q.bytes, capacity);
    assert r.accepted[..Out(r)] + r.accepted[Out(r)..Out(r) + q.bytes] == r.accepted[..Out(r) + q.bytes];
  }

  /** What every step of either side keeps. */
  lemma {:induction false} StepKeeps(r: Ring, act: Action)
    requires Inv(r) && Enabled(r, act)
    ensures Inv(Do(r, act))
  {
    match act {
      case LoadHead(_) =>
      case LoadTailAhead => UsedIs(r.head, r.tail, In(r), Out(r), Capacity(r));
      case CopyIn(n) => CopyInKeeps(r, n);
      case StoreHead => StoreHeadKeeps(r);
      case LoadTail(_) =>
      case LoadHeadAhead => UsedIs(r.head, r.tail, In(r), Out(r), Capacity(r));
      case CopyOut(n) => CopyOutKeeps(r, n);
      case StoreTail => StoreTailKeeps(r);
    }
  }

  /** A ring laid down: empty, both sides at rest. */
  function Fresh(buf: seq<int>): Ring {
    Ring(buf, 0, 0, Offers, Asks, [], [])
  }

  ghost predicate Runs(buf: seq<int>, states: seq<Ring>, acts: seq<Action>) {
    && |states| == |acts| + 1 && states[0] == Fresh(buf)
    && forall n :: 0 <= n < |acts| ==> Enabled(states[n], acts[n]) && states[n + 1] == Do(states[n], acts[n])
  }

  lemma {:induction false} RunKeeps(buf: seq<int>, states: seq<Ring>, acts: seq<Action>, n: nat)
    requires |buf| >= 1 && Runs(buf, states, acts) && n < |states|
    ensures Inv(states[n]) && Capacity(states[n]) == |buf|
  {
    hide Do, Enabled, Inv;
    if n == 0 {
      FreshKeeps(buf);
    } else {
      RunKeeps(buf, states, acts, n - 1);
      StepKeeps(states[n - 1], acts[n - 1]);
      LengthStands(states[n - 1], acts[n - 1]);
    }
  }

  lemma {:induction false} FreshKeeps(buf: seq<int>)
    requires |buf| >= 1
    ensures Inv(Fresh(buf))
  {
  }

  lemma {:induction false} LengthStands(r: Ring, act: Action)
    requires Enabled(r, act)
    ensures Capacity(Do(r, act)) == Capacity(r)
  {
    if act.CopyIn? {
      var p := r.producer;
      WrittenLength(r.buf, p.head + p.done, p.data[p.done..p.done + act.n]);
    }
  }

  // ---- what a run can be relied on for ----------------------------------------------------------------------

  /** The bytes read are a prefix of the bytes accepted, in order, with at most one under the capacity waiting. */
  lemma {:induction false} ReadsWhatWasPut(buf: seq<int>, states: seq<Ring>, acts: seq<Action>, n: nat)
    requires |buf| >= 1 && Runs(buf, states, acts) && n < |states|
    ensures states[n].taken <= states[n].accepted
    ensures |states[n].accepted| - |states[n].taken| <= |buf| - 1
  {
    RunKeeps(buf, states, acts, n);
  }

  /** What a put stores and what a read takes never share an index of the buffer. */
  lemma {:induction false} NeverSharesAByte(buf: seq<int>, states: seq<Ring>, acts: seq<Action>, n: nat, i: nat, j: nat)
    requires |buf| >= 1 && Runs(buf, states, acts) && n < |states|
    requires states[n].producer.Copying? && i < |states[n].producer.data|
    requires states[n].consumer.Taking? && j < states[n].consumer.bytes
    ensures (states[n].producer.head + i) % |buf| != (states[n].consumer.tail + j) % |buf|
  {
    RunKeeps(buf, states, acts, n);
    var r := states[n];
    ModShifts(In(r), i, |buf|);
    ModShifts(Out(r), j, |buf|);
    ModApart(Out(r) + j, In(r) + i, |buf|);
  }

  /** A put is refused exactly where its span does not fit the room its loads read: the whole span or none of it. */
  lemma {:induction false} PutRefused(buf: seq<int>, states: seq<Ring>, acts: seq<Action>, n: nat)
    requires |buf| >= 1 && Runs(buf, states, acts) && n < |acts| && acts[n].LoadTailAhead?
    ensures states[n].producer.LoadedHead?
    ensures states[n + 1].producer.Offers?
       <==> |states[n].producer.data| > |buf| - 1 - (|states[n].accepted| - |states[n].taken|)
    ensures states[n + 1].accepted == states[n].accepted && states[n + 1].buf == states[n].buf
  {
    RunKeeps(buf, states, acts, n);
    var r := states[n];
    UsedIs(r.head, r.tail, In(r), Out(r), |buf|);
  }

  // ---- one put and one read, from their first load to their store -------------------------------------------

  /** A read under way keeps what it asked for until it reads the head, and what it is to take until it stores. */
  lemma {:induction false} ReadHolds(buf: seq<int>, states: seq<Ring>, acts: seq<Action>, m: nat, l: nat, n: nat)
    requires |buf| >= 1 && Runs(buf, states, acts) && m < l < |acts| && m < n < |states|
    requires acts[m].LoadTail? && acts[l].LoadHeadAhead?
    requires forall i :: m < i < l ==> !acts[i].LoadHeadAhead?
    requires forall i :: l < i < n ==> !acts[i].StoreTail?
    ensures states[n].taken == states[m].taken
    ensures n <= l ==> states[n].consumer.LoadedTail? && states[n].consumer.want == acts[m].want
    ensures n > l ==> (
      var waits := |states[l].accepted| - |states[m].taken|;
      && states[n].consumer.Taking?
      && states[n].consumer.bytes == if acts[m].want < waits then acts[m].want else waits)
    decreases n
  {
    hide Written, Gotten, Used, Inv;
    assert Enabled(states[n - 1], acts[n - 1]) && states[n] == Do(states[n - 1], acts[n - 1]);
    if n > m + 1 {
      ReadHolds(buf, states, acts, m, l, n - 1);
    }
    if n == l + 1 {
      LoadsUsed(buf, states, acts, l);
    }
  }

  /** What the head read ahead tells a read of: what waits as it reads it. */
  lemma {:induction false} LoadsUsed(buf: seq<int>, states: seq<Ring>, acts: seq<Action>, l: nat)
    requires |buf| >= 1 && Runs(buf, states, acts) && l < |acts| && acts[l].LoadHeadAhead?
    ensures states[l].consumer.LoadedTail? && Capacity(states[l]) == |buf|
    ensures Used(states[l].head, states[l].consumer.tail, |buf|) == |states[l].accepted| - |states[l].taken|
  {
    RunKeeps(buf, states, acts, l);
    var r := states[l];
    assert Enabled(r, acts[l]);
    UsedIs(r.head, r.tail, In(r), Out(r), |buf|);
  }

  /** A read takes the least of what it asked for and what waits as it reads the head, the oldest of it, whatever the
      producer does meanwhile. */
  lemma {:induction false} ReadTakes(buf: seq<int>, states: seq<Ring>, acts: seq<Action>, m: nat, l: nat, t: nat)
    requires |buf| >= 1 && Runs(buf, states, acts) && m < l < t < |acts|
    requires acts[m].LoadTail? && acts[l].LoadHeadAhead? && acts[t].StoreTail?
    requires forall i :: m < i < l ==> !acts[i].LoadHeadAhead?
    requires forall i :: l < i < t ==> !acts[i].StoreTail?
    ensures var waits := |states[l].accepted| - |states[m].taken|;
      var bytes := if acts[m].want < waits then acts[m].want else waits;
      && 0 <= bytes && |states[m].taken| + bytes <= |states[t].accepted|
      && states[t + 1].taken == states[t].accepted[..|states[m].taken| + bytes]
  {
    hide Written, Gotten, Used, Do, Standing, Putting;
    ReadHolds(buf, states, acts, m, l, t);
    RunKeeps(buf, states, acts, t);
    RunKeeps(buf, states, acts, t + 1);
    TakesGot(states[t]);
    assert states[t + 1] == Do(states[t], acts[t]);
    StandingTaken(states[t]);
  }

  lemma {:induction false} TakesGot(r: Ring)
    requires Enabled(r, StoreTail)
    ensures Do(r, StoreTail).taken == r.taken + r.consumer.got
  {
  }

  lemma {:induction false} StandingTaken(r: Ring)
    requires Inv(r) && r.consumer.Taking? && |r.consumer.got| == r.consumer.bytes
    ensures Out(r) + r.consumer.bytes <= In(r)
    ensures r.taken + r.consumer.got == r.accepted[..Out(r) + r.consumer.bytes]
  {
    assert r.accepted[..Out(r)] + r.accepted[Out(r)..Out(r) + r.consumer.bytes]
        == r.accepted[..Out(r) + r.consumer.bytes];
  }

  /** A put under way keeps the span it was given from its first load to its store. */
  lemma {:induction false} PutHolds(buf: seq<int>, states: seq<Ring>, acts: seq<Action>, m: nat, n: nat)
    requires |buf| >= 1 && Runs(buf, states, acts) && m < n < |states| && acts[m].LoadHead?
    requires forall i :: m < i <= n ==> !states[i].producer.Offers?
    ensures !states[n].producer.Offers? && states[n].producer.data == acts[m].data
    ensures states[n].accepted == states[m].accepted
    decreases n
  {
    hide Written, Gotten, Used, Inv;
    assert Enabled(states[n - 1], acts[n - 1]) && states[n] == Do(states[n - 1], acts[n - 1]);
    if n > m + 1 {
      PutHolds(buf, states, acts, m, n - 1);
    }
  }

  /** A put not refused accepts the very bytes it was given, behind all accepted before it, whatever the consumer does
      meanwhile. */
  lemma {:induction false} PutAccepts(buf: seq<int>, states: seq<Ring>, acts: seq<Action>, m: nat, t: nat)
    requires |buf| >= 1 && Runs(buf, states, acts) && m < t < |acts| && acts[m].LoadHead? && acts[t].StoreHead?
    requires forall i :: m < i <= t ==> !states[i].producer.Offers?
    ensures states[t + 1].accepted == states[m].accepted + acts[m].data
  {
    hide Written, Gotten, Used;
    PutHolds(buf, states, acts, m, t);
    assert Enabled(states[t], acts[t]) && states[t + 1] == Do(states[t], acts[t]);
  }

  /** With the consumer wherever it stands, a put of a span that fits goes through: loaded, copied in and stored, it is
      accepted behind what was. */
  lemma {:induction false} PutAlone(r: Ring, data: seq<int>)
    requires Inv(r) && r.producer.Offers? && 1 <= |data| && In(r) + |data| <= Out(r) + Capacity(r) - 1
    ensures Enabled(r, LoadHead(data))
    ensures var loaded := Do(r, LoadHead(data));
      && Enabled(loaded, LoadTailAhead)
      && var taken := Do(loaded, LoadTailAhead);
      && Enabled(taken, CopyIn(|data|))
      && var copied := Do(taken, CopyIn(|data|));
      && Enabled(copied, StoreHead)
      && var stored := Do(copied, StoreHead);
      && Inv(stored) && stored.producer.Offers? && stored.accepted == r.accepted + data
      && stored.taken == r.taken && stored.tail == r.tail && stored.consumer == r.consumer
  {
    hide Written, Gotten, Used, Inv;
    StandsBetween(r);
    var loaded := Do(r, LoadHead(data));
    var taken := Do(loaded, LoadTailAhead);
    StepKeeps(r, LoadHead(data));
    StepKeeps(loaded, LoadTailAhead);
    LengthStands(taken, CopyIn(|data|));
    StepKeeps(taken, CopyIn(|data|));
    StepKeeps(Do(taken, CopyIn(|data|)), StoreHead);
  }

  lemma {:induction false} StandsBetween(r: Ring)
    requires Inv(r)
    ensures Capacity(r) >= 1 && Used(r.head, r.tail, Capacity(r)) == In(r) - Out(r)
  {
    UsedIs(r.head, r.tail, In(r), Out(r), Capacity(r));
  }

  /** And so a read of what waits: loaded, copied out and stored, it takes the oldest of it. */
  lemma {:induction false} ReadAlone(r: Ring, want: nat)
    requires Inv(r) && r.consumer.Asks? && 1 <= want <= In(r) - Out(r)
    ensures Enabled(r, LoadTail(want))
    ensures var loaded := Do(r, LoadTail(want));
      && Enabled(loaded, LoadHeadAhead)
      && var taking := Do(loaded, LoadHeadAhead);
      && Enabled(taking, CopyOut(want))
      && var copied := Do(taking, CopyOut(want));
      && Enabled(copied, StoreTail)
      && var stored := Do(copied, StoreTail);
      && Inv(stored) && stored.consumer.Asks? && stored.taken == r.accepted[..Out(r) + want]
      && stored.accepted == r.accepted && stored.head == r.head && stored.producer == r.producer && stored.buf == r.buf
  {
    hide Written, Used, Inv;
    StandsBetween(r);
    var loaded := Do(r, LoadTail(want));
    var taking := Do(loaded, LoadHeadAhead);
    StepKeeps(r, LoadTail(want));
    StepKeeps(loaded, LoadHeadAhead);
    StepKeeps(taking, CopyOut(want));
    var copied := Do(taking, CopyOut(want));
    StepKeeps(copied, StoreTail);
    StandingTaken(copied);
  }
}
