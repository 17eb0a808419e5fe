/** Bits of a byte, most significant first. */
module BitOrder {
  import opened Arithmetic
  import opened Words

  function Mask(j: nat): int
    requires j < 8
  {
    if j == 0 then 128 else if j == 1 then 64 else if j == 2 then 32 else if j == 3 then 16
    else if j == 4 then 8 else if j == 5 then 4 else if j == 6 then 2 else 1
  }

  predicate BitOf(b: byte, j: nat)
    requires j < 8
  {
    b / Mask(j) % 2 == 1
  }

  lemma ZeroHasNoBits(j: nat)
    requires j < 8
    ensures !BitOf(0, j)
  {}

  /** The bits of a byte from the j-th on. */
  function BitsFrom(b: byte, j: nat): (bits: seq<bool>)
    requires j <= 8
    ensures |bits| == 8 - j
  {
    seq(8 - j, i requires 0 <= i < 8 - j => BitOf(b, j + i))
  }

  lemma FirstBit(b: byte, j: nat)
    requires j < 8
    ensures BitsFrom(b, j) == [BitOf(b, j)] + BitsFrom(b, j + 1)
  {}

  function Bits(bytes: seq<byte>): seq<bool> {
    if bytes == [] then [] else BitsFrom(bytes[0], 0) + Bits(bytes[1..])
  }

  lemma {:induction false} BitsLength(bytes: seq<byte>)
    ensures |Bits(bytes)| == 8 * |bytes|
  {
    if bytes != [] {
      BitsLength(bytes[1..]);
    }
  }

  function Weight(bit: bool, j: nat): nat
    requires j < 8
  {
    if bit then Mask(j) else 0
  }

  function ByteOf(bits: seq<bool>): nat
    requires |bits| == 8
  {
    Weight(bits[0], 0) + Weight(bits[1], 1) + Weight(bits[2], 2) + Weight(bits[3], 3)
    + Weight(bits[4], 4) + Weight(bits[5], 5) + Weight(bits[6], 6) + Weight(bits[7], 7)
  }

  /** The value of the bits before the j-th. */
  function Before(b: byte, j: nat): nat
    requires j <= 8
  {
    if j == 0 then 0 else b / Mask(j - 1) * Mask(j - 1)
  }

  lemma NextBit(b: byte, j: nat)
    requires j < 8
    ensures Before(b, j + 1) == Before(b, j) + Weight(BitOf(b, j), j)
  {
    BitAt(b, Mask(j));
  }

  lemma ByteOfBits(b: byte)
    ensures ByteOf(BitsFrom(b, 0)) == b
  {
    NextBit(b, 0);
    NextBit(b, 1);
    NextBit(b, 2);
    NextBit(b, 3);
    NextBit(b, 4);
    NextBit(b, 5);
    NextBit(b, 6);
    NextBit(b, 7);
    AllBits(b);
  }

  lemma AllBits(b: byte)
    ensures Before(b, 8) == b
  {}

  function BytesOf(bits: seq<bool>): seq<int> {
    if |bits| < 8 then [] else [ByteOf(bits[..8])] + BytesOf(bits[8..])
  }

  lemma {:induction false} BytesOfBits(bytes: seq<byte>)
    ensures BytesOf(Bits(bytes)) == bytes
  {
    if bytes != [] {
      ByteOfBits(bytes[0]);
      BytesOfBits(bytes[1..]);
      assert Bits(bytes)[..8] == BitsFrom(bytes[0], 0) && Bits(bytes)[8..] == Bits(bytes[1..]);
    }
  }

  function Zeros(n: nat): (z: seq<bool>)
    ensures |z| == n && forall i | 0 <= i < n :: !z[i]
  {
    seq(n, i => false)
  }
}

/** The infrared transmitter: a task that loads messages and a timer that sends one bit per tick. */
module IrTransmitter {
  import opened Sequences
  import opened Words
  import opened BitOrder

  const MAX_MESSAGE_LEN: nat := 32

  /** Where the task is: looking at the length, about to stop the timer, or waiting for the queue. */
  datatype Phase = Polling | Stopping | Waiting

  /** The globals shared by the task and the timer callback, the timer, and the task. */
  datatype State = State(message: seq<byte>, txLen: int, byteIndex: nat, bitIndex: nat, running: bool, phase: Phase)

  /** stray is what the callback reads when its index has left the array. */
  datatype Event = Tick(stray: byte) | Poll | Stop | Pop(msg: seq<byte>)

  predicate Shaped(s: State) {
    |s.message| == MAX_MESSAGE_LEN && s.bitIndex < 8
  }

  function Current(s: State, stray: byte): byte {
    if s.byteIndex < |s.message| then s.message[s.byteIndex] else stray
  }

  /** The callback's effect on the globals. */
  function Ticked(s: State): State {
    if s.bitIndex + 1 >= 8 then s.(bitIndex := 0, byteIndex := s.byteIndex + 1, txLen := s.txLen - 1)
    else s.(bitIndex := s.bitIndex + 1)
  }

  function Loaded(msg: seq<byte>): seq<byte>
    requires |msg| <= MAX_MESSAGE_LEN
  {
    msg + seq(MAX_MESSAGE_LEN - |msg|, i => 0)
  }

  predicate Acceptable(e: Event) { e.Pop? ==> |e.msg| <= MAX_MESSAGE_LEN }

  function Step(s: State, e: Event): State
    requires Acceptable(e)
  {
    match e
    case Tick(_) => if s.running then Ticked(s) else s
    case Poll => if s.phase == Polling && s.txLen == 0 then s.(phase := Stopping) else s
    case Stop => if s.phase == Stopping then s.(phase := Waiting, running := false) else s
    case Pop(msg) =>
      if s.phase == Waiting then State(Loaded(msg), |msg|, 0, 0, true, Polling) else s
  }

  /** What an observer has seen: the bits sent, the messages taken and the idle ticks before each. */
  datatype Log = Log(out: seq<bool>, msgs: seq<seq<byte>>, gaps: seq<nat>, idle: nat)

  function Observe(s: State, e: Event, log: Log): Log
    requires Shaped(s)
  {
    match e
    case Tick(stray) =>
      if !s.running then log
      else log.(out := log.out + [BitOf(Current(s, stray), s.bitIndex)],
                idle := if s.txLen > 0 then log.idle else log.idle + 1)
    case Pop(msg) =>
      if s.phase == Waiting then Log(log.out, log.msgs + [msg], log.gaps + [log.idle], 0) else log
    case _ => log
  }

  datatype Point = Point(state: State, log: Log)

  function Next(p: Point, e: Event): Point
    requires Shaped(p.state) && Acceptable(e)
    ensures Shaped(Next(p, e).state)
  {
    Point(Step(p.state, e), Observe(p.state, e, p.log))
  }

  ghost predicate AllAcceptable(events: seq<Event>) { forall e <- events :: Acceptable(e) }

  function Exec(p: Point, events: seq<Event>): Point
    requires Shaped(p.state) && AllAcceptable(events)
    ensures Shaped(Exec(p, events).state)
    decreases |events|
  {
    if events == [] then p
    else
      assert events[0] in events;
      Exec(Next(p, events[0]), events[1..])
  }

  /** No run of eight ticks passes between the end of a message and the moment the timer is stopped. */
  ghost predicate Timely(p: Point, events: seq<Event>)
    requires Shaped(p.state) && AllAcceptable(events)
    decreases |events|
  {
    events == [] ||
    (assert events[0] in events;
     Next(p, events[0]).log.idle < 8 && Timely(Next(p, events[0]), events[1..]))
  }

  ghost predicate Short(events: seq<Event>) { forall e <- events :: e.Pop? ==> |e.msg| < MAX_MESSAGE_LEN }

  /** What is meant to be on the air: every message's bits, behind its gap. */
  function Signal(gaps: seq<nat>, msgs: seq<seq<byte>>): seq<bool>
    requires |gaps| == |msgs|
  {
    if msgs == [] then []
    else
      var n := |msgs| - 1;
      Signal(gaps[..n], msgs[..n]) + Zeros(gaps[n]) + Bits(msgs[n])
  }

  /** The bits of n bytes from byte i on, from bit j of the first of them. */
  function Unsent(message: seq<byte>, i: nat, j: nat, n: nat): (bits: seq<bool>)
    requires i + n <= |message| && j < 8
    decreases n, 8 - j
  {
    if n == 0 then []
    else [BitOf(message[i], j)] + if j == 7 then Unsent(message, i + 1, 0, n - 1) else Unsent(message, i, j + 1, n)
  }

  lemma UnsentNone(message: seq<byte>, i: nat)
    requires i <= |message|
    ensures Unsent(message, i, 0, 0) == []
  {}

  lemma UnsentFirst(message: seq<byte>, i: nat, j: nat, n: nat)
    requires i + n <= |message| && j < 8 && n > 0
    ensures Unsent(message, i, j, n)
         == [BitOf(message[i], j)] + if j == 7 then Unsent(message, i + 1, 0, n - 1) else Unsent(message, i, j + 1, n)
  {}

  lemma {:induction false} UnsentOctet(message: seq<byte>, i: nat, j: nat, n: nat)
    requires i + n <= |message| && j < 8 && n > 0
    ensures Unsent(message, i, j, n) == BitsFrom(message[i], j) + Unsent(message, i + 1, 0, n - 1)
    decreases 8 - j
  {
    hide BitOf;
    var b, after := message[i], Unsent(message, i + 1, 0, n - 1);
    FirstBit(b, j);
    Assoc([BitOf(b, j)], BitsFrom(b, j + 1), after);
    if j < 7 {
      UnsentOctet(message, i, j + 1, n);
    } else {
      assert BitsFrom(b, j + 1) == [];
      Empty(after);
    }
  }

  /** From its first bit on, a message is sent most significant bit first. */
  lemma {:induction false} UnsentMessage(message: seq<byte>, i: nat, msg: seq<byte>)
    requires i + |msg| <= |message| && message[i..i + |msg|] == msg
    ensures Unsent(message, i, 0, |msg|) == Bits(msg)
    decreases |msg|
  {
    hide BitsFrom, Unsent;
    if msg == [] {
      UnsentNone(message, i);
    } else {
      UnsentOctet(message, i, 0, |msg|);
      SliceFirst(message, i, i + |msg|);
      UnsentMessage(message, i + 1, msg[1..]);
    }
  }

  /** The bits of the current message that are still to be sent. */
  function Rest(s: State): seq<bool>
    requires Shaped(s) && s.byteIndex + s.txLen <= MAX_MESSAGE_LEN
  {
    if s.txLen <= 0 then [] else Unsent(s.message, s.byteIndex, s.bitIndex, s.txLen)
  }

  ghost predicate InStep(p: Point) {
    var s, log := p.state, p.log;
    && Shaped(s) && s.txLen >= 0 && s.byteIndex + s.txLen < MAX_MESSAGE_LEN
    && s.message[s.byteIndex + s.txLen] == 0
    && (s.txLen > 0 ==> s.running && s.phase == Polling && log.idle == 0)
    && (s.txLen == 0 ==> log.idle == s.bitIndex)
    && (s.phase == Waiting <==> !s.running)
    && |log.gaps| == |log.msgs| && (forall g <- log.gaps :: g < 8)
    && log.out + Rest(s) == Signal(log.gaps, log.msgs) + Zeros(log.idle)
  }

  /** A tick takes the first of the bits that are left. */
  lemma RestOfTick(s: State)
    requires Shaped(s) && s.txLen > 0 && s.byteIndex + s.txLen < MAX_MESSAGE_LEN
    ensures Rest(s) == [BitOf(s.message[s.byteIndex], s.bitIndex)] + Rest(Ticked(s))
  {
    hide BitOf, Unsent;
    UnsentFirst(s.message, s.byteIndex, s.bitIndex, s.txLen);
    UnsentNone(s.message, s.byteIndex + 1);
  }

  lemma TickSends(p: Point, stray: byte)
    requires InStep(p) && p.state.running && p.state.txLen > 0
    ensures InStep(Next(p, Tick(stray)))
  {
    hide Rest, Signal, BitOf;
    var s := p.state;
    var bit := BitOf(s.message[s.byteIndex], s.bitIndex);
    RestOfTick(s);
    Assoc(p.log.out, [bit], Rest(Ticked(s)));
  }

  lemma TickIdles(p: Point, stray: byte)
    requires InStep(p) && p.state.running && p.state.txLen == 0 && p.log.idle < 7
    ensures InStep(Next(p, Tick(stray)))
  {
    ZeroHasNoBits(p.state.bitIndex);
    assert p.log.out + [] == p.log.out;
    assert Zeros(p.log.idle + 1) == Zeros(p.log.idle) + [false];
    assert p.log.out + [false] == Signal(p.log.gaps, p.log.msgs) + Zeros(p.log.idle + 1);
  }

  lemma PopLoads(p: Point, msg: seq<byte>)
    requires InStep(p) && p.state.phase == Waiting && |msg| < MAX_MESSAGE_LEN
    ensures InStep(Next(p, Pop(msg)))
  {
    hide Unsent, Bits, Signal;
    var log := p.log;
    SignalSnoc(log.gaps, log.msgs, log.idle, msg);
    LoadedRest(msg);
    NoZeros(log.out + Bits(msg));
    Empty(log.out);
  }

  lemma LoadedRest(msg: seq<byte>)
    requires |msg| < MAX_MESSAGE_LEN
    ensures Rest(State(Loaded(msg), |msg|, 0, 0, true, Polling)) == Bits(msg)
    ensures |Loaded(msg)| == MAX_MESSAGE_LEN && Loaded(msg)[|msg|] == 0
  {
    hide Bits;
    assert Loaded(msg)[0..|msg|] == msg;
    UnsentMessage(Loaded(msg), 0, msg);
  }

  lemma NoZeros(s: seq<bool>)
    ensures s + Zeros(0) == s
  {}

  lemma SignalSnoc(gaps: seq<nat>, msgs: seq<seq<byte>>, gap: nat, msg: seq<byte>)
    requires |gaps| == |msgs|
    ensures Signal(gaps + [gap], msgs + [msg]) == Signal(gaps, msgs) + Zeros(gap) + Bits(msg)
  {
    hide Bits;
    Behind(gaps, [gap]);
    Behind(msgs, [msg]);
  }

  lemma NextInStep(p: Point, e: Event)
    requires InStep(p) && (e.Pop? ==> |e.msg| < MAX_MESSAGE_LEN)
    requires Next(p, e).log.idle < 8
    ensures InStep(Next(p, e))
  {
    match e
    case Tick(stray) =>
      if p.state.running {
        if p.state.txLen > 0 {
          TickSends(p, stray);
        } else {
          TickIdles(p, stray);
        }
      }
    case Pop(msg) =>
      if p.state.phase == Waiting {
        PopLoads(p, msg);
      }
    case _ =>
  }

  lemma {:induction false} RunsInStep(p: Point, events: seq<Event>)
    requires InStep(p) && AllAcceptable(events) && Short(events) && Timely(p, events)
    ensures InStep(Exec(p, events))
    decreases |events|
  {
    if events != [] {
      var e := events[0];
      assert e in events;
      NextInStep(p, e);
      RunsInStep(Next(p, e), events[1..]);
    }
  }

  lemma PrefixAcceptable(events: seq<Event>, k: nat)
    requires AllAcceptable(events) && k <= |events|
    ensures AllAcceptable(events[..k])
  {}

  /** The bits are the messages' after the first k events. */
  ghost predicate InStepAfter(p: Point, events: seq<Event>, k: nat)
    requires Shaped(p.state) && AllAcceptable(events) && k <= |events|
  {
    PrefixAcceptable(events, k);
    InStep(Exec(p, events[..k]))
  }

  lemma AfterFirst(p: Point, events: seq<Event>, k: nat)
    requires Shaped(p.state) && AllAcceptable(events) && k < |events|
    ensures Acceptable(events[0]) && AllAcceptable(events[1..])
    ensures InStepAfter(p, events, k + 1) <==> InStepAfter(Next(p, events[0]), events[1..], k)
  {
    assert events[0] in events;
    PrefixAcceptable(events, k + 1);
    assert events[..k + 1][1..] == events[1..][..k] && events[..k + 1][0] == events[0];
  }

  lemma AfterNone(p: Point, events: seq<Event>)
    requires Shaped(p.state) && AllAcceptable(events)
    ensures InStepAfter(p, events, 0) <==> InStep(p)
  {
    assert events[..0] == [];
  }

  /** A run is timely exactly when the bits stay the messages' all along it. */
  lemma {:induction false} TimelyMeansInStep(p: Point, events: seq<Event>)
    requires InStep(p) && AllAcceptable(events) && Short(events)
    ensures Timely(p, events) <==> forall k: nat | k <= |events| :: InStepAfter(p, events, k)
    decreases |events|
  {
    AfterNone(p, events);
    if events != [] {
      var e, rest := events[0], events[1..];
      assert e in events;
      var p' := Next(p, e);
      AfterNone(p', rest);
      forall k: nat | k < |events|
        ensures InStepAfter(p, events, k + 1) <==> InStepAfter(p', rest, k)
      {
        AfterFirst(p, events, k);
      }
      if p'.log.idle < 8 {
        NextInStep(p, e);
        TimelyMeansInStep(p', rest);
        forall k: nat | k <= |events| && forall j: nat | j <= |rest| :: InStepAfter(p', rest, j)
          ensures InStepAfter(p, events, k)
        {
          if k > 0 {
            assert InStepAfter(p', rest, k - 1);
          }
        }
        forall j: nat | j <= |rest| && forall k: nat | k <= |events| :: InStepAfter(p, events, k)
          ensures InStepAfter(p', rest, j)
        {
          assert InStepAfter(p, events, j + 1);
        }
      } else {
        assert !InStepAfter(p, events, 0 + 1);
      }
    }
  }

  /** The start: nothing to send, the timer running, and a message whose first byte is zero. */
  function Initial(message: seq<byte>): Point
  {
    Point(State(message, 0, 0, 0, true, Polling), Log([], [], [], 0))
  }

  /** In every timely interleaving the bits sent, and those still to be sent, are the messages' in their order,
      most significant first, each behind fewer than eight zeros. */
  lemma TimelyRunsEmitMessages(message: seq<byte>, events: seq<Event>)
    requires |message| == MAX_MESSAGE_LEN && message[0] == 0
    requires AllAcceptable(events) && Short(events) && Timely(Initial(message), events)
    ensures
      var p := Exec(Initial(message), events);
      && InStep(p)
      && p.log.out + Rest(p.state) == Signal(p.log.gaps, p.log.msgs) + Zeros(p.log.idle)
      && (forall g <- p.log.gaps :: g < 8) && p.log.idle < 8
  {
    RunsInStep(Initial(message), events);
  }

  // What happens when the task is late.

  function Ticks(n: nat, stray: byte): (events: seq<Event>)
    ensures |events| == n && forall e <- events :: e == Tick(stray)
  {
    seq(n, i => Tick(stray))
  }

  /** The task finds the length at zero if and only if fewer than eight ticks have gone by. */
  lemma {:induction false} SeenInTime(p: Point, n: nat, stray: byte)
    requires Shaped(p.state) && p.state.running && p.state.phase == Polling && p.state.txLen <= 0
    requires p.log.idle == p.state.bitIndex - 8 * p.state.txLen
    ensures
      var q := Exec(p, Ticks(n, stray));
      && (Next(q, Poll).state.phase == Stopping <==> p.log.idle + n < 8)
      && (p.log.idle + n >= 8 ==> q.state.txLen < 0 && q.state.phase == Polling)
    decreases n
  {
    if n > 0 {
      assert Ticks(n, stray)[1..] == Ticks(n - 1, stray);
      SeenInTime(Next(p, Tick(stray)), n - 1, stray);
    }
  }

  /** Once the length is below zero the task never loads another message, whatever happens. */
  lemma {:induction false} LateForever(p: Point, events: seq<Event>)
    requires Shaped(p.state) && AllAcceptable(events)
    requires p.state.phase == Polling && p.state.txLen < 0
    ensures
      var q := Exec(p, events);
      q.log.msgs == p.log.msgs && q.state.phase == Polling && q.state.txLen < 0
    decreases |events|
  {
    if events != [] {
      assert events[0] in events;
      LateForever(Next(p, events[0]), events[1..]);
    }
  }

  // Receiving.

  lemma {:induction false} SignalFirst(gaps: seq<nat>, msgs: seq<seq<byte>>)
    requires |gaps| == |msgs| > 0
    ensures Signal(gaps, msgs) == Zeros(gaps[0]) + Bits(msgs[0]) + Signal(gaps[1..], msgs[1..])
  {
    var n := |msgs| - 1;
    if n > 0 {
      SignalFirst(gaps[..n], msgs[..n]);
      assert gaps[..n][1..] == gaps[1..][..n - 1] && msgs[..n][1..] == msgs[1..][..n - 1];
    }
  }

  function LeadingZeros(bits: seq<bool>): (n: nat)
    ensures n <= |bits|
  {
    if bits == [] || bits[0] then 0 else 1 + LeadingZeros(bits[1..])
  }

  lemma {:induction false} LeadMeans(bits: seq<bool>)
    ensures var n := LeadingZeros(bits); (n < |bits| ==> bits[n]) && forall i | 0 <= i < n :: !bits[i]
  {
    if bits != [] && !bits[0] {
      LeadMeans(bits[1..]);
      forall i | 0 <= i < LeadingZeros(bits)
        ensures !bits[i]
      {
        if i > 0 {
          assert bits[i] == bits[1..][i - 1];
        }
      }
    }
  }

  lemma {:induction false} LeadIs(bits: seq<bool>, z: nat)
    requires z < |bits| && bits[z] && forall i | 0 <= i < z :: !bits[i]
    ensures LeadingZeros(bits) == z
  {
    if z > 0 {
      assert !bits[0];
      LeadIs(bits[1..], z - 1);
    }
  }

  /** A gap, and whatever follows the first set bit, only moves the count. */
  lemma LeadInSignal(g: nat, octets: seq<bool>, rest: seq<bool>)
    requires LeadingZeros(octets) < |octets|
    ensures LeadingZeros(Zeros(g) + (octets + rest)) == g + LeadingZeros(octets)
  {
    LeadMeans(octets);
    LeadIs(Zeros(g) + (octets + rest), g + LeadingZeros(octets));
  }

  /** What a receiver knows of a message beforehand: its bytes, and the zero bits before its first set bit. */
  datatype Shape = Shape(length: nat, lead: nat)

  function ShapeOf(m: seq<byte>): Shape { Shape(|m|, LeadingZeros(Bits(m))) }

  /** A message of nothing but zeros, or of nothing. */
  predicate Silent(shape: Shape) { shape.lead >= 8 * shape.length }

  datatype Got<T> = Nothing | Got(value: T, rest: seq<bool>)

  /** The receiver waits for a set bit, goes back by the zeros that belong to the message, and decodes the message. A
      silent message it has without waiting: its zeros cannot be told from the gap before the next one. */
  function ReceiveOne<T>(decode: seq<bool> -> T, bits: seq<bool>, shape: Shape): Got<T> {
    if Silent(shape) then Got(decode(Zeros(8 * shape.length)), bits)
    else if LeadingZeros(bits) < shape.lead then Nothing
    else
      var from := LeadingZeros(bits) - shape.lead;
      var to := from + 8 * shape.length;
      if to > |bits| then Nothing else Got(decode(bits[from..to]), bits[to..])
  }

  function Receive<T>(decode: seq<bool> -> T, bits: seq<bool>, shapes: seq<Shape>): seq<T>
    decreases |shapes|
  {
    if shapes == [] then []
    else
      match ReceiveOne(decode, bits, shapes[0])
      case Nothing => []
      case Got(value, rest) => [value] + Receive(decode, rest, shapes[1..])
  }

  function Shapes(msgs: seq<seq<byte>>): (l: seq<Shape>)
    ensures |l| == |msgs|
  {
    seq(|msgs|, i requires 0 <= i < |msgs| => ShapeOf(msgs[i]))
  }

  lemma ReceiveNone<T>(decode: seq<bool> -> T, bits: seq<bool>)
    ensures Receive(decode, bits, []) == []
  {}

  lemma ReceiveMore<T>(decode: seq<bool> -> T, bits: seq<bool>, shapes: seq<Shape>, value: T, rest: seq<bool>)
    requires shapes != [] && ReceiveOne(decode, bits, shapes[0]) == Got(value, rest)
    ensures Receive(decode, bits, shapes) == [value] + Receive(decode, rest, shapes[1..])
  {
    hide ReceiveOne;
  }

  lemma ReceiveFirst<T>(decode: seq<bool> -> T, g: nat, octets: seq<bool>, rest: seq<bool>, shape: Shape)
    requires !Silent(shape) && |octets| == 8 * shape.length && shape.lead == LeadingZeros(octets)
    ensures ReceiveOne(decode, Zeros(g) + (octets + rest), shape) == Got(decode(octets), rest)
  {
    hide LeadingZeros;
    LeadInSignal(g, octets, rest);
    MiddleSlice(Zeros(g), octets, rest);
  }

  lemma MessageReceived(g: nat, m: seq<byte>, rest: seq<bool>, shapes: seq<Shape>)
    requires shapes != [] && shapes[0] == ShapeOf(m) && !Silent(ShapeOf(m))
    ensures Receive(BytesOf, Zeros(g) + (Bits(m) + rest), shapes) == [m] + Receive(BytesOf, rest, shapes[1..])
  {
    hide Receive, ReceiveOne, Bits, BytesOf;
    BitsLength(m);
    ReceiveFirst(BytesOf, g, Bits(m), rest, ShapeOf(m));
    BytesOfBits(m);
    ReceiveMore(BytesOf, Zeros(g) + (Bits(m) + rest), shapes, m, rest);
  }

  /** A silent message is its zeros. */
  lemma SilentIsZeros(m: seq<byte>)
    requires Silent(ShapeOf(m))
    ensures Bits(m) == Zeros(8 * |m|)
  {
    hide Bits, LeadingZeros;
    BitsLength(m);
    LeadMeans(Bits(m));
  }

  lemma SilentReceived(m: seq<byte>, bits: seq<bool>, shapes: seq<Shape>)
    requires shapes != [] && shapes[0] == ShapeOf(m) && Silent(ShapeOf(m))
    ensures Receive(BytesOf, bits, shapes) == [m] + Receive(BytesOf, bits, shapes[1..])
  {
    hide Receive, Bits, BytesOf, LeadingZeros;
    SilentIsZeros(m);
    BytesOfBits(m);
    ReceiveMore(BytesOf, bits, shapes, m, bits);
  }

  lemma ZerosJoin(a: nat, b: nat, rest: seq<bool>)
    ensures Zeros(a) + (Zeros(b) + rest) == Zeros(a + b) + rest
  {}

  lemma LaterShapes(msgs: seq<seq<byte>>)
    requires msgs != []
    ensures Shapes(msgs)[1..] == Shapes(msgs[1..])
  {}

  lemma SignalSplits(gaps: seq<nat>, msgs: seq<seq<byte>>, after: seq<bool>)
    requires |gaps| == |msgs| > 0
    ensures Signal(gaps, msgs) + after == Zeros(gaps[0]) + (Bits(msgs[0]) + (Signal(gaps[1..], msgs[1..]) + after))
  {
    SignalFirst(gaps, msgs);
    AssocFour(Zeros(gaps[0]), Bits(msgs[0]), Signal(gaps[1..], msgs[1..]), after);
  }

  /** Messages are received as they were sent behind any number of zeros; silent ones before them leave some. */
  lemma {:induction false} SignalAfterWait(waited: nat, gaps: seq<nat>, msgs: seq<seq<byte>>, after: seq<bool>)
    requires |gaps| == |msgs|
    ensures Receive(BytesOf, Zeros(waited) + (Signal(gaps, msgs) + after), Shapes(msgs)) == msgs
    decreases |msgs|
  {
    hide Receive, Signal, ShapeOf, Silent, Bits;
    if msgs == [] {
      assert Shapes(msgs) == [];
      ReceiveNone(BytesOf, Zeros(waited) + (Signal(gaps, msgs) + after));
    } else {
      var g, m, rest := waited + gaps[0], msgs[0], Signal(gaps[1..], msgs[1..]) + after;
      SignalSplits(gaps, msgs, after);
      ZerosJoin(waited, gaps[0], Bits(m) + rest);
      LaterShapes(msgs);
      if Silent(ShapeOf(m)) {
        // its zeros make the gap before the next message longer
        SilentIsZeros(m);
        ZerosJoin(g, 8 * |m|, rest);
        SilentReceived(m, Zeros(g + 8 * |m|) + rest, Shapes(msgs));
        SignalAfterWait(g + 8 * |m|, gaps[1..], msgs[1..], after);
      } else {
        MessageReceived(g, m, rest, Shapes(msgs));
        SignalAfterWait(0, gaps[1..], msgs[1..], after);
        Empty(rest);
        assert Zeros(0) == [];
      }
    }
  }

  /** Messages are received as they were sent, whatever they are and whatever the gaps. */
  lemma SignalIsReceived(gaps: seq<nat>, msgs: seq<seq<byte>>, after: seq<bool>)
    requires |gaps| == |msgs|
    ensures Receive(BytesOf, Signal(gaps, msgs) + after, Shapes(msgs)) == msgs
  {
    SignalAfterWait(0, gaps, msgs, after);
    assert Zeros(0) == [];
    Empty(Signal(gaps, msgs) + after);
  }

  /** Once everything popped has been sent, a receiver has all of it back. */
  lemma TimelyRunsAreReceived(message: seq<byte>, events: seq<Event>)
    requires |message| == MAX_MESSAGE_LEN && message[0] == 0
    requires AllAcceptable(events) && Short(events) && Timely(Initial(message), events)
    requires Exec(Initial(message), events).state.txLen == 0
    ensures
      var log := Exec(Initial(message), events).log;
      Receive(BytesOf, log.out, Shapes(log.msgs)) == log.msgs
  {
    TimelyRunsEmitMessages(message, events);
    var log := Exec(Initial(message), events).log;
    Empty(log.out);
    SignalIsReceived(log.gaps, log.msgs, Zeros(log.idle));
  }

  // The messages the firmware builds.

  /** The frame of string_with_blink_shift: a header, the text, and the two indices behind it. */
  function BlinkShiftFrame(text: seq<byte>, blink: byte, shift: byte): seq<byte> {
    [5, 0] + text + [0, blink, shift]
  }

  /** The frame of send_string_w_bytes_to_queue. */
  function HeaderTailFrame(header: byte, text: seq<byte>, tail: byte): seq<byte> {
    [header] + text + [tail]
  }

  lemma BitInMessage(m: seq<byte>, i: nat, j: nat)
    requires i < |m| && j < 8
    ensures |Bits(m)| == 8 * |m| && Bits(m)[8 * i + j] == BitOf(m[i], j)
    decreases i
  {
    BitsLength(m);
    if i > 0 {
      BitInMessage(m[1..], i - 1, j);
    }
  }

  /** The zero bits before the first set bit: eight for each zero byte, and those of the first other byte. */
  lemma {:induction false} LeadOfMessage(m: seq<byte>, i: nat, z: nat)
    requires i < |m| && z < 8 && BitOf(m[i], z)
    requires (forall k | 0 <= k < i :: m[k] == 0) && forall j | 0 <= j < z :: !BitOf(m[i], j)
    ensures ShapeOf(m) == Shape(|m|, 8 * i + z)
  {
    BitInMessage(m, i, z);
    forall n | 0 <= n < 8 * i + z
      ensures !Bits(m)[n]
    {
      var k, j := n / 8, n % 8;
      BitInMessage(m, k, j);
      ZeroHasNoBits(j);
    }
    LeadIs(Bits(m), 8 * i + z);
  }

  /** Every frame that starts with the header 5, whatever it carries, has five zeros before its first set bit. */
  lemma HeaderFiveShape(m: seq<byte>)
    requires m != [] && m[0] == 5
    ensures ShapeOf(m) == Shape(|m|, 5)
  {
    LeadOfMessage(m, 0, 5);
  }

  /** A header of zero is followed by a text: with a letter first, nine zeros come before the first set bit. */
  lemma HeaderZeroShape(text: seq<byte>, tail: byte)
    requires text != [] && 0x40 <= text[0] < 0x80
    ensures var m := HeaderTailFrame(0, text, tail); ShapeOf(m) == Shape(|m|, 9)
  {
    LeadOfMessage(HeaderTailFrame(0, text, tail), 1, 1);
  }

  /** A receiver that goes by the header alone: frames with the header 5 need nothing but their lengths. */
  function FiveShapes(msgs: seq<seq<byte>>): seq<Shape> {
    seq(|msgs|, i requires 0 <= i < |msgs| => Shape(|msgs[i]|, 5))
  }

  /** So all frames of string_with_blink_shift come back in every timely run. */
  lemma BlinkShiftFramesAreReceived(message: seq<byte>, events: seq<Event>)
    requires |message| == MAX_MESSAGE_LEN && message[0] == 0
    requires AllAcceptable(events) && Short(events) && Timely(Initial(message), events)
    requires Exec(Initial(message), events).state.txLen == 0
    requires forall i | 0 <= i < |Exec(Initial(message), events).log.msgs| ::
               exists text, blink, shift ::
                 Exec(Initial(message), events).log.msgs[i] == BlinkShiftFrame(text, blink, shift)
    ensures
      var log := Exec(Initial(message), events).log;
      Receive(BytesOf, log.out, FiveShapes(log.msgs)) == log.msgs
  {
    var msgs := Exec(Initial(message), events).log.msgs;
    forall i | 0 <= i < |msgs|
      ensures ShapeOf(msgs[i]) == Shape(|msgs[i]|, 5)
    {
      HeaderFiveShape(msgs[i]);
    }
    assert Shapes(msgs) == FiveShapes(msgs);
    TimelyRunsAreReceived(message, events);
  }

  /** The globals, the timer and the task as the firmware keeps them. */
  class Transmitter {
    const message: array<byte>
    var txLen: int
    var txByteIndex: nat
    var txBitIndex: nat
    var running: bool
    var phase: Phase

    ghost predicate Valid()
      reads this
    {
      message.Length == MAX_MESSAGE_LEN && txBitIndex < 8
    }

    ghost function Value(): (s: State)
      reads this, message
      requires Valid()
      ensures Shaped(s)
    {
      State(message[..], txLen, txByteIndex, txBitIndex, running, phase)
    }

    constructor (first: seq<byte>)
      requires |first| == MAX_MESSAGE_LEN
      ensures Valid() && fresh(message) && Value() == Initial(first).state
    {
      message := new byte[MAX_MESSAGE_LEN](i requires 0 <= i < |first| => first[i]);
      txLen, txByteIndex, txBitIndex, running, phase := 0, 0, 0, true, Polling;
      new;
      assert message[..] == first;
    }

    /** Sends one bit. */
    method TimerCallback(stray: byte) returns (bit: bool)
      requires Valid() && running
      modifies this
      ensures Valid() && Value() == Step(old(Value()), Tick(stray))
      ensures bit == BitOf(Current(old(Value()), stray), old(txBitIndex))
    {
      var currentByte := if txByteIndex < message.Length then message[txByteIndex] else stray;
      bit := BitOf(currentByte, txBitIndex);
      txBitIndex := txBitIndex + 1;
      if txBitIndex >= 8 {
        txBitIndex := 0;
        txByteIndex := txByteIndex + 1;
        txLen := txLen - 1;
      }
    }

    /** The task looks whether everything has been sent. */
    method LookAtLength()
      requires Valid()
      modifies this`phase
      ensures Valid() && Value() == Step(old(Value()), Poll)
    {
      if phase == Polling && txLen == 0 {
        phase := Stopping;
      }
    }

    method StopTimer()
      requires Valid() && phase == Stopping
      modifies this`running, this`phase
      ensures Valid() && Value() == Step(old(Value()), Stop)
    {
      running := false;
      phase := Waiting;
    }

    /** A message from the queue replaces the old one, and the timer starts again. */
    method Load(msg: seq<byte>)
      requires Valid() && phase == Waiting && |msg| <= MAX_MESSAGE_LEN
      modifies this, message
      ensures Valid() && Value() == Step(old(Value()), Pop(msg))
    {
      forall i | 0 <= i < message.Length {
        message[i] := 0;
      }
      txLen, txByteIndex, txBitIndex := |msg|, 0, 0;
      forall i | 0 <= i < |msg| {
        message[i] := msg[i];
      }
      running, phase := true, Polling;
      assert message[..] == Loaded(msg);
    }
  }
}
