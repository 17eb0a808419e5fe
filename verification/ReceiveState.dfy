/** The window a channel grants its peer: what receive_window_adjust does to it, on values. */
module ReceiveWindow {
  import opened Words

  const MINADJUST: nat := 1024
  const EAGAIN: int := -37
  const SOCKET_SEND: int := -7

  /** How one transport send ends. */
  datatype SendOutcome = Sent | WouldBlock | Failed

  /** Whether a WINDOW_ADJUST message has been built and not yet sent. */
  datatype Adjusting = Idle | Created(amount: word)

  /** size is what the code believes the peer may still send; granted is what the WINDOW_ADJUST messages that went
      out have added up to. */
  datatype Window = Window(initial: word, size: word, queued: word, adjust: Adjusting, readJump: bool, granted: nat)

  /** Unsigned 32-bit addition and subtraction. */
  function Plus(a: word, b: word): word { if a + b < WORDS then a + b else a + b - WORDS }

  function Minus(a: word, b: word): word { if a >= b then a - b else a - b + WORDS }

  datatype Adjusted = Adjusted(w: Window, rc: int)

  /** The send at the end of receive_window_adjust. On success the caller's amount is added to the window, whatever
      amount the message that went out carries; on failure the message stays built. */
  function SendAdjust(w: Window, amount: word, o: SendOutcome): Adjusted
    requires w.adjust.Created?
  {
    match o
    case WouldBlock => Adjusted(w, EAGAIN)
    case Failed => Adjusted(w.(queued := amount), SOCKET_SEND)
    case Sent => Adjusted(w.(size := Plus(w.size, amount), adjust := Idle, granted := w.granted + w.adjust.amount), 0)
  }

  function Adjust(w: Window, amount: word, force: bool, o: SendOutcome): Adjusted {
    if w.adjust.Created? then SendAdjust(w, amount, o)
    else if !force && Plus(amount, w.queued) < MINADJUST then Adjusted(w.(queued := Plus(w.queued, amount)), 0)
    else if amount == 0 && w.queued == 0 then Adjusted(w, 0)
    else
      var total := Plus(amount, w.queued);
      SendAdjust(w.(queued := 0, adjust := Created(total)), total, o)
  }

  /** The sum is one of size_t, which on the device is 32 bits wide. */
  predicate NeedsTopUp(w: Window, buflen: nat) {
    w.readJump || w.size < (w.initial / 4 * 3 + buflen) % WORDS
  }

  function TopUp(w: Window, buflen: nat): word {
    var a := (w.initial + buflen - w.size) % WORDS;
    if a < MINADJUST then MINADJUST else a
  }

  /** The window part of a read: widen it first if it has become too narrow, resuming after a blocked attempt. */
  function Widened(w: Window, buflen: nat, o: SendOutcome): Adjusted {
    if NeedsTopUp(w, buflen) then
      var a := Adjust(w.(readJump := true), TopUp(w, buflen), false, o);
      if a.rc != 0 then a else Adjusted(a.w.(readJump := false), 0)
    else Adjusted(w, 0)
  }

  /** The window can hold what this call would add. */
  predicate AdjustFits(w: Window, amount: word) {
    w.size + amount + (if w.adjust.Idle? then w.queued else 0) < WORDS
  }

  predicate ReadFits(w: Window, buflen: nat) {
    NeedsTopUp(w, buflen) ==> AdjustFits(w, TopUp(w, buflen))
  }

  lemma AdjustOnlyWidens(w: Window, amount: word, force: bool, o: SendOutcome)
    requires AdjustFits(w, amount)
    ensures Adjust(w, amount, force, o).w.size >= w.size
  {}

  lemma WidenedOnlyWidens(w: Window, buflen: nat, o: SendOutcome)
    requires ReadFits(w, buflen)
    ensures Widened(w, buflen, o).w.size >= w.size
  {
    if NeedsTopUp(w, buflen) { AdjustOnlyWidens(w.(readJump := true), TopUp(w, buflen), false, o); }
  }

  lemma TopUpValue(w: Window, buflen: nat)
    requires w.initial + buflen < WORDS
    ensures var exact := w.initial + buflen - w.size;
            TopUp(w, buflen) ==
              if exact >= MINADJUST then exact
              else if exact >= 0 || exact + WORDS < MINADJUST then MINADJUST
              else exact + WORDS
  {}

  /** The top-up a read asks for is large enough to be sent at once, never merely queued. */
  lemma TopUpIsSent(w: Window, buflen: nat, o: SendOutcome)
    requires NeedsTopUp(w, buflen) && !w.readJump && w.adjust.Idle?
    requires w.initial + buflen + w.queued + MINADJUST < WORDS
    ensures var total := TopUp(w, buflen) + w.queued;
            MINADJUST <= total < WORDS &&
            Adjust(w.(readJump := true), TopUp(w, buflen), false, o) ==
            SendAdjust(w.(readJump := true, queued := 0, adjust := Created(total)), total, o)
  {
    TopUpValue(w, buflen);
  }

  /** When the window part of a read goes through, there is room for the buffer above three quarters of the initial
      window, also after earlier blocked or failed adjustments. */
  lemma WidenedIsWide(w: Window, buflen: nat, o: SendOutcome)
    requires w.initial + buflen + w.queued + MINADJUST < WORDS
    ensures var a := Widened(w, buflen, o);
            a.rc == 0 ==> a.w.size >= w.initial / 4 * 3 + buflen && a.w.initial == w.initial
  {
    TopUpValue(w, buflen);
  }

  /** A read that was stopped at its window message takes it up again, and a send that now goes through completes it. */
  lemma ResumedReadFinishes(w: Window, buflen: nat)
    requires w.readJump && w.adjust.Created?
    ensures var a := Widened(w, buflen, Sent);
            a.rc == 0 && a.w.adjust.Idle? && !a.w.readJump && a.w.granted == w.granted + w.adjust.amount
    ensures Widened(w, buflen, WouldBlock).rc == -37 && Widened(w, buflen, Failed).rc == -7
  {}

  /** With a send that goes straight through, window plus queued adjustments grows by exactly the amount asked for,
      the peer is granted exactly what is added to the window, and less than MINADJUST stays queued. */
  lemma UnblockedAdjustConserves(w: Window, amount: word, force: bool)
    requires w.adjust.Idle? && AdjustFits(w, amount) && w.queued < MINADJUST
    ensures var w' := Adjust(w, amount, force, Sent).w;
            && w'.size + w'.queued == w.size + w.queued + amount
            && w'.granted - w.granted == w'.size - w.size
            && w'.adjust.Idle? && w'.queued < MINADJUST
  {}

  /** A new request waits while it and what is queued stay below 1024 and it need not go out at once; otherwise one
      message carries both. A message that would block stays built; one whose send fails
      has its amount queued besides. */
  lemma AdjustOutcome(w: Window, amount: word, force: bool, o: SendOutcome)
    requires w.adjust.Idle? && AdjustFits(w, amount)
    ensures var a, total := Adjust(w, amount, force, o), amount + w.queued;
            a == if (!force && total < 1024) || total == 0 then Adjusted(w.(queued := total), 0)
                 else match o
                   case Sent => Adjusted(w.(size := w.size + total, queued := 0, granted := w.granted + total), 0)
                   case WouldBlock => Adjusted(w.(queued := 0, adjust := Created(total)), -37)
                   case Failed => Adjusted(w.(queued := total, adjust := Created(total)), -7)
  {}

  /** In any state, a call adds to the window what the peer is granted, except exactly when it completes an earlier
      blocked or failed message that carries a different amount from the one now passed. */
  lemma AdjustAccounts(w: Window, amount: word, force: bool, o: SendOutcome)
    requires AdjustFits(w, amount)
    ensures var w' := Adjust(w, amount, force, o).w;
            w'.size - w.size == w'.granted - w.granted <==>
            !(w.adjust.Created? && o.Sent? && w.adjust.amount != amount)
  {}

  /** So repeating a blocked call with the same amount is accounted for exactly when nothing was queued before it. */
  lemma RetryAccounts(w: Window, amount: word, force: bool)
    requires w.adjust.Idle? && AdjustFits(w, amount)
    requires (force || amount + w.queued >= MINADJUST) && amount + w.queued > 0
    ensures var w1 := Adjust(w, amount, force, WouldBlock).w;
            var w2 := Adjust(w1, amount, force, Sent).w;
            w2.size - w.size == w2.granted - w.granted <==> w.queued == 0
  {}
}

/** The receiving half of a channel on values: arrivals and reads. */
module ReceiveState {
  import opened Words
  import opened PacketQueue
  import opened ReceiveWindow

  const CHANNEL_EOF: byte := 96
  const CHANNEL_CLOSE: byte := 97

  /** The queue and what the channel keeps about it. */
  datatype Inbox = Inbox(id: word, mode: Mode, packetSize: word, queue: seq<Packet>, readAvail: word,
                         eof: bool, close: bool)

  datatype State = State(inbox: Inbox, window: Window)

  /** A message arriving for this channel, or a packet queued for someone else. */
  datatype Arrival = Incoming(data: seq<byte>) | Foreign(packet: Packet)

  predicate PossibleArrival(id: word, a: Arrival) {
    a.Foreign? ==> WellFormed(a.packet) && !IsDataOf(id, a.packet.data)
  }

  predicate AllPossible(id: word, arrivals: seq<Arrival>) {
    forall a :: a in arrivals ==> PossibleArrival(id, a)
  }

  predicate IsData(id: word, d: seq<byte>) {
    |d| > 0 && (d[0] == CHANNEL_DATA || d[0] == CHANNEL_EXTENDED_DATA) && |d| >= HeaderLength(d[0]) && U32At(d, 1) == id
  }

  /** How much of a data message's payload packet_add keeps: cut to the packet size and then to the window. */
  function Kept(b: Inbox, size: word, n: nat): nat
    requires size > b.readAvail
  {
    var n := if b.packetSize < n then b.packetSize else n;
    if b.readAvail + n > size then size - b.readAvail else n
  }

  /** The packet queued for a data message of this channel, if any. */
  function Accepted(b: Inbox, size: word, d: seq<byte>): seq<Packet> {
    if !IsData(b.id, d) || size <= b.readAvail then [] else
      var head := HeaderLength(d[0]);
      [Packet(d[..head + Kept(b, size, |d| - head)], head)]
  }

  function Added(b: Inbox, size: word, a: Arrival): seq<Packet> {
    match a
    case Incoming(d) => Accepted(b, size, d)
    case Foreign(p) => [p]
  }

  /** The counters and flags after an arrival; the queue apart. */
  function Noted(b: Inbox, size: word, a: Arrival): Inbox {
    match a
    case Foreign(p) => b
    case Incoming(d) =>
      if IsData(b.id, d) then
        if size <= b.readAvail then b
        else b.(eof := false, readAvail := Plus(b.readAvail, Kept(b, size, |d| - HeaderLength(d[0]))))
      else if |d| >= 5 && U32At(d, 1) == b.id && d[0] == CHANNEL_EOF then b.(eof := true)
      else if |d| >= 5 && U32At(d, 1) == b.id && d[0] == CHANNEL_CLOSE then b.(eof := true, close := true)
      else b
  }

  function Arrive(b: Inbox, size: word, a: Arrival): Inbox {
    Noted(b, size, a).(queue := b.queue + Added(b, size, a))
  }

  function ArriveAll(b: Inbox, size: word, arrivals: seq<Arrival>): Inbox
    decreases |arrivals|
  {
    if arrivals == [] then b else ArriveAll(Arrive(b, size, arrivals[0]), size, arrivals[1..])
  }

  /** What the transport does during a read: the outcome of the window message if one is sent, the messages drained,
      and how the draining ends. */
  datatype Env = Env(send: SendOutcome, arrivals: seq<Arrival>, rc: int)

  predicate PossibleEnv(id: word, e: Env) { e.rc <= 0 && AllPossible(id, e.arrivals) }

  datatype ReadResult = ReadResult(s: State, rc: int, bytes: seq<byte>)

  function StreamIn(b: Inbox, stream: int): Filter { Stream(b.id, b.mode, stream) }

  /** The packet part of a read, once the incoming messages have been drained. */
  function Deliver(s: State, stream: int, buflen: nat, rc: int): ReadResult
    requires AllWellFormed(s.inbox.queue)
  {
    var b := s.inbox;
    var t := Take(b.queue, StreamIn(b, stream), buflen);
    if t.bytes == [] then
      ReadResult(s.(inbox := b.(queue := t.queue)), if b.eof || b.close || rc != EAGAIN then 0 else EAGAIN, [])
    else
      var n := |t.bytes| % WORDS;
      ReadResult(State(b.(queue := t.queue, readAvail := Minus(b.readAvail, n)),
                       s.window.(size := Minus(s.window.size, n))),
                 |t.bytes|, t.bytes)
  }

  function Read(s: State, stream: int, buflen: nat, e: Env): ReadResult
    requires AllWellFormed(s.inbox.queue) && PossibleEnv(s.inbox.id, e)
  {
    var w := Widened(s.window, buflen, e.send);
    if w.rc != 0 then ReadResult(s.(window := w.w), w.rc, []) else
      ArrivalsWellFormed(s.inbox, w.w.size, e.arrivals);
      var s1 := State(ArriveAll(s.inbox, w.w.size, e.arrivals), w.w);
      if e.rc < 0 && e.rc != EAGAIN then ReadResult(s1, e.rc, []) else Deliver(s1, stream, buflen, e.rc)
  }

  /** What the caller is told it has: as much of its buffer as the result says, which begins with the bytes copied. */
  function Told(r: ReadResult): seq<byte>
    requires r.rc <= |r.bytes|
  {
    if r.rc > 0 then r.bytes[..r.rc] else []
  }

  lemma DeliverReports(s: State, stream: int, buflen: nat, rc: int)
    requires AllWellFormed(s.inbox.queue)
    ensures var r := Deliver(s, stream, buflen, rc); r.rc <= |r.bytes| && Told(r) == r.bytes
  {}

  /** A read says how many bytes it has put into the buffer, neither more nor fewer. */
  lemma ReadReports(s: State, stream: int, buflen: nat, e: Env)
    requires AllWellFormed(s.inbox.queue) && PossibleEnv(s.inbox.id, e)
    ensures var r := Read(s, stream, buflen, e);
            && r.rc <= |r.bytes| && Told(r) == r.bytes
            && (r.bytes != [] ==> r.rc == |r.bytes|)
            && (r.rc > 0 <==> r.bytes != [])
  {
    hide Deliver, ArriveAll;
    var w := Widened(s.window, buflen, e.send);
    if w.rc == 0 {
      ArrivalsWellFormed(s.inbox, w.w.size, e.arrivals);
      DeliverReports(State(ArriveAll(s.inbox, w.w.size, e.arrivals), w.w), stream, buflen, e.rc);
    }
  }

  lemma DeliverCode(s: State, stream: int, buflen: nat, rc: int)
    requires AllWellFormed(s.inbox.queue)
    ensures var r := Deliver(s, stream, buflen, rc);
            && r.s.inbox.eof == s.inbox.eof && r.s.inbox.close == s.inbox.close
            && (r.bytes == [] ==> (r.rc == EAGAIN <==> rc == EAGAIN && !s.inbox.eof && !s.inbox.close)
                                  && (r.rc == 0 || r.rc == EAGAIN))
  {}

  /** A read that gets as far as the queue and finds nothing says so: EAGAIN exactly when the transport would block and
      the peer has neither ended nor closed the channel, and 0 otherwise. */
  lemma NothingReadCode(s: State, stream: int, buflen: nat, e: Env)
    requires AllWellFormed(s.inbox.queue) && PossibleEnv(s.inbox.id, e)
    requires Widened(s.window, buflen, e.send).rc == 0 && (e.rc == 0 || e.rc == EAGAIN)
    requires Read(s, stream, buflen, e).bytes == []
    ensures var r := Read(s, stream, buflen, e);
            && (r.rc == EAGAIN <==> e.rc == EAGAIN && !r.s.inbox.eof && !r.s.inbox.close)
            && (r.rc == 0 || r.rc == EAGAIN)
  {
    hide Deliver, ArriveAll;
    var w := Widened(s.window, buflen, e.send);
    ArrivalsWellFormed(s.inbox, w.w.size, e.arrivals);
    DeliverCode(State(ArriveAll(s.inbox, w.w.size, e.arrivals), w.w), stream, buflen, e.rc);
  }

  /** Otherwise the code is that of the window message, EAGAIN or a failed send, or that of the transport. */
  lemma StoppedReadCode(s: State, stream: int, buflen: nat, e: Env)
    requires AllWellFormed(s.inbox.queue) && PossibleEnv(s.inbox.id, e)
    requires Widened(s.window, buflen, e.send).rc != 0 || (e.rc < 0 && e.rc != EAGAIN)
    ensures var r, w := Read(s, stream, buflen, e), Widened(s.window, buflen, e.send);
            && r.bytes == []
            && (w.rc != 0 ==> NeedsTopUp(s.window, buflen) && r.s.inbox == s.inbox
                              && (e.send.WouldBlock? ==> r.rc == EAGAIN) && (e.send.Failed? ==> r.rc == SOCKET_SEND)
                              && !e.send.Sent?)
            && (w.rc == 0 ==> r.rc == e.rc)
  {
    hide ArriveAll;
  }

  /** How much of a data message is queued: no more than a packet may hold and the window has room for. */
  lemma AcceptedPart(b: Inbox, size: word, d: seq<byte>)
    requires IsData(b.id, d)
    ensures var head := if d[0] == 94 then 9 else 13;
            var n := Least(Least(|d| - head, b.packetSize), if size <= b.readAvail then 0 else size - b.readAvail);
            Accepted(b, size, d) == if size <= b.readAvail then [] else [Packet(d[..head + n], head)]
  {}

  /** What a message for the channel does to its flags; messages for others and requests leave them alone. */
  lemma ArriveFlags(b: Inbox, size: word, d: seq<byte>)
    ensures var b' := Arrive(b, size, Incoming(d));
            var mine := |d| >= 5 && U32At(d, 1) == b.id;
            && b'.eof == (if mine && (d[0] == 96 || d[0] == 97) then true
                          else if b'.queue != b.queue then false else b.eof)
            && b'.close == (b.close || (mine && d[0] == 97))
  {
    if b.queue + Accepted(b, size, d) != b.queue {
      assert Accepted(b, size, d) != [];
    }
    assert Accepted(b, size, d) != [] ==> |b.queue + Accepted(b, size, d)| > |b.queue|;
  }

  lemma AddedWellFormed(b: Inbox, size: word, a: Arrival)
    requires PossibleArrival(b.id, a)
    ensures |Added(b, size, a)| <= 1
    ensures forall p :: p in Added(b, size, a) ==> WellFormed(p)
    ensures a.Incoming? && IsData(b.id, a.data) && size > b.readAvail ==>
      var p := Added(b, size, a)[0];
      IsDataOf(b.id, p.data) && |Payload(p)| == Kept(b, size, |a.data| - HeaderLength(a.data[0]))
  {
    if a.Incoming? && IsData(b.id, a.data) && size > b.readAvail {
      var p := Added(b, size, a)[0];
      assert p.data[0] == a.data[0] && U32At(p.data, 1) == U32At(a.data, 1);
    }
  }

  lemma {:induction false} ArrivalsWellFormed(b: Inbox, size: word, arrivals: seq<Arrival>)
    requires AllWellFormed(b.queue) && AllPossible(b.id, arrivals)
    ensures var b' := ArriveAll(b, size, arrivals);
            AllWellFormed(b'.queue) && b'.id == b.id && b'.mode == b.mode && b'.packetSize == b.packetSize
    decreases |arrivals|
  {
    if arrivals != [] {
      AddedWellFormed(b, size, arrivals[0]);
      ArrivalsWellFormed(Arrive(b, size, arrivals[0]), size, arrivals[1..]);
    }
  }

  /** A message is queued whole exactly when it respects the packet size and what is left of the window. */
  lemma AcceptedWhole(b: Inbox, size: word, d: seq<byte>)
    requires IsData(b.id, d)
    ensures Accepted(b, size, d) == [Packet(d, HeaderLength(d[0]))] <==>
            var n := |d| - HeaderLength(d[0]);
            n <= b.packetSize && b.readAvail < size && b.readAvail + n <= size
  {
    assert d[..|d|] == d;
    if Accepted(b, size, d) == [Packet(d, HeaderLength(d[0]))] {
      assert |Accepted(b, size, d)[0].data| == |d|;
    }
  }
}

/** What one call keeps: the counters agree with the queue, and no more is buffered than the window allows. */
module ReceiveInvariant {
  import opened Words
  import opened PacketQueue
  import opened ReceiveWindow
  import opened ReceiveState

  ghost predicate Balanced(b: Inbox, size: word) {
    && AllWellFormed(b.queue)
    && b.readAvail == |Pending(b.queue, DataOf(b.id))| <= size
  }

  lemma ArriveKeepsBalanced(b: Inbox, size: word, a: Arrival)
    requires Balanced(b, size) && PossibleArrival(b.id, a)
    ensures Balanced(Arrive(b, size, a), size)
  {
    AddedWellFormed(b, size, a);
    var added := Added(b, size, a);
    if added == [] {
      assert b.queue + added == b.queue;
    } else {
      assert added == [added[0]];
      PendingAppends(b.queue, added[0], DataOf(b.id));
    }
  }

  lemma {:induction false} ArrivalsKeepBalanced(b: Inbox, size: word, arrivals: seq<Arrival>)
    requires Balanced(b, size) && AllPossible(b.id, arrivals)
    ensures Balanced(ArriveAll(b, size, arrivals), size)
    decreases |arrivals|
  {
    if arrivals != [] {
      ArriveKeepsBalanced(b, size, arrivals[0]);
      ArrivalsKeepBalanced(Arrive(b, size, arrivals[0]), size, arrivals[1..]);
    }
  }

  /** What a delivery does to the queue. */
  lemma DeliverQueue(s: State, stream: int, buflen: nat, rc: int)
    requires AllWellFormed(s.inbox.queue)
    ensures var r, t := Deliver(s, stream, buflen, rc), Take(s.inbox.queue, StreamIn(s.inbox, stream), buflen);
            && r.s.inbox.queue == t.queue && r.bytes == t.bytes && AllWellFormed(t.queue)
            && r.s.inbox.id == s.inbox.id && r.s.inbox.mode == s.inbox.mode
            && |r.bytes| <= buflen
  {
    TakeConserves(s.inbox.queue, StreamIn(s.inbox, stream), buflen);
  }

  /** What it does to the counters, when they are large enough. */
  lemma DeliverCounts(s: State, stream: int, buflen: nat, rc: int)
    requires AllWellFormed(s.inbox.queue)
    requires |Deliver(s, stream, buflen, rc).bytes| < WORDS
    ensures var r := Deliver(s, stream, buflen, rc);
            && (s.inbox.readAvail >= |r.bytes| ==> r.s.inbox.readAvail == s.inbox.readAvail - |r.bytes|)
            && (s.window.size >= |r.bytes| ==> r.s.window.size == s.window.size - |r.bytes|)
  {
    assert |Deliver(s, stream, buflen, rc).bytes| % WORDS == |Deliver(s, stream, buflen, rc).bytes|;
  }

  lemma DeliverKeepsBalanced(s: State, stream: int, buflen: nat, rc: int)
    requires Balanced(s.inbox, s.window.size)
    ensures var r := Deliver(s, stream, buflen, rc);
            && Balanced(r.s.inbox, r.s.window.size)
            && r.s.inbox.readAvail == s.inbox.readAvail - |r.bytes|
            && r.s.window.size == s.window.size - |r.bytes|
  {
    var b := s.inbox;
    StreamWithin(b.id, b.mode, stream);
    TakeReducesWider(b.queue, StreamIn(b, stream), DataOf(b.id), buflen);
    DeliverQueue(s, stream, buflen, rc);
    DeliverCounts(s, stream, buflen, rc);
  }

  lemma ReadKeepsBalanced(s: State, stream: int, buflen: nat, e: Env)
    requires Balanced(s.inbox, s.window.size) && PossibleEnv(s.inbox.id, e) && ReadFits(s.window, buflen)
    ensures var r := Read(s, stream, buflen, e); Balanced(r.s.inbox, r.s.window.size)
  {
    var w := Widened(s.window, buflen, e.send);
    WidenedOnlyWidens(s.window, buflen, e.send);
    if w.rc == 0 {
      ArrivalsKeepBalanced(s.inbox, w.w.size, e.arrivals);
      DeliverKeepsBalanced(State(ArriveAll(s.inbox, w.w.size, e.arrivals), w.w), stream, buflen, e.rc);
    }
  }

  /** After every read that delivers data the window is at least three quarters of the initial one. */
  lemma ReadKeepsWindowOpen(s: State, stream: int, buflen: nat, e: Env)
    requires AllWellFormed(s.inbox.queue) && PossibleEnv(s.inbox.id, e)
    requires s.window.initial + buflen + s.window.queued + MINADJUST < WORDS
    ensures var r := Read(s, stream, buflen, e); r.bytes != [] ==> r.s.window.size >= 3 * (s.window.initial / 4)
  {
    var w := Widened(s.window, buflen, e.send);
    WidenedIsWide(s.window, buflen, e.send);
    if w.rc == 0 {
      ArrivalsWellFormed(s.inbox, w.w.size, e.arrivals);
      var s1 := State(ArriveAll(s.inbox, w.w.size, e.arrivals), w.w);
      DeliverQueue(s1, stream, buflen, e.rc);
      DeliverCounts(s1, stream, buflen, e.rc);
    }
  }
}
