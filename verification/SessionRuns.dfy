/** Runs of a whole session: several channels over one packet queue. Whatever any of them does, each sees a run of its
    own, so that what holds of every run of one channel holds of every channel of a session. */
module SessionRuns {
  import opened Sequences
  import opened Words
  import opened PacketQueue
  import opened ReceiveWindow
  import opened ReceiveState
  import opened ReceiveInvariant
  import opened ReceiveRuns

  /** One channel without the queue it shares. */
  datatype Port = Port(id: word, mode: Mode, packetSize: word, readAvail: word, eof: bool, close: bool,
                       window: Window, log: seq<Delivery>)

  datatype SessionState = SessionState(ports: seq<Port>, queue: seq<Packet>, accepted: seq<Packet>)

  function InboxOf(p: Port, queue: seq<Packet>): Inbox {
    Inbox(p.id, p.mode, p.packetSize, queue, p.readAvail, p.eof, p.close)
  }

  /** The session as channel k sees it. */
  function View(s: SessionState, k: nat): History
    requires k < |s.ports|
  {
    History(State(InboxOf(s.ports[k], s.queue), s.ports[k].window), s.accepted, s.ports[k].log)
  }

  function PortOf(h: History): Port {
    var b := h.s.inbox;
    Port(b.id, b.mode, b.packetSize, b.readAvail, b.eof, b.close, h.s.window, h.log)
  }

  /** The session after channel k has changed its view. */
  function Put(s: SessionState, k: nat, h: History): SessionState
    requires k < |s.ports|
  {
    SessionState(s.ports[k := PortOf(h)], h.s.inbox.queue, h.accepted)
  }

  ghost predicate Good(s: SessionState) {
    && (forall i, j | 0 <= i < j < |s.ports| :: s.ports[i].id != s.ports[j].id)
    && AllWellFormed(s.queue)
  }

  ghost predicate SameIds(s: SessionState, s': SessionState) {
    |s'.ports| == |s.ports| && forall k | 0 <= k < |s.ports| :: s'.ports[k].id == s.ports[k].id
  }

  // A message arrives, for whichever channel.

  /** A packet that is queued unseen belongs to none of the channels. */
  ghost predicate PossibleMessage(s: SessionState, a: Arrival) {
    a.Foreign? ==> WellFormed(a.packet) && forall p <- s.ports :: !IsDataOf(p.id, a.packet.data)
  }

  predicate Mine(id: word, a: Arrival) { a.Incoming? && |a.data| >= 5 && U32At(a.data, 1) == id }

  /** The position of the channel with that id, or the number of channels. */
  function Owner(ports: seq<Port>, a: Arrival): (k: nat)
    ensures k <= |ports|
    ensures forall i | 0 <= i < k :: !Mine(ports[i].id, a)
    ensures k < |ports| ==> Mine(ports[k].id, a)
  {
    if ports == [] || Mine(ports[0].id, a) then 0 else 1 + Owner(ports[1..], a)
  }

  /** The packet that is queued for it, if any. */
  function Queued(s: SessionState, a: Arrival): seq<Packet> {
    match a
    case Foreign(p) => [p]
    case Incoming(d) =>
      var k := Owner(s.ports, a);
      if k == |s.ports| then [] else Accepted(InboxOf(s.ports[k], s.queue), s.ports[k].window.size, d)
  }

  function PortNoted(p: Port, a: Arrival): Port {
    var b := Noted(InboxOf(p, []), p.window.size, a);
    p.(readAvail := b.readAvail, eof := b.eof, close := b.close)
  }

  function Receive(s: SessionState, a: Arrival): (s': SessionState)
    ensures SameIds(s, s')
  {
    SessionState(seq(|s.ports|, k requires 0 <= k < |s.ports| => PortNoted(s.ports[k], a)),
            s.queue + Queued(s, a), s.accepted + Queued(s, a))
  }

  /** The same message as channel k sees it: for another channel it is at most a packet of someone else's. */
  function Seen(s: SessionState, k: nat, a: Arrival): seq<Arrival>
    requires k < |s.ports|
  {
    if a.Foreign? || Mine(s.ports[k].id, a) then [a]
    else
      var q := Queued(s, a);
      seq(|q|, i requires 0 <= i < |q| => Foreign(q[i]))
  }

  lemma QueuedIsPossible(s: SessionState, a: Arrival)
    requires Good(s) && PossibleMessage(s, a)
    ensures |Queued(s, a)| <= 1 && Good(Receive(s, a))
    ensures forall k: nat | k < |s.ports| :: AllPossible(s.ports[k].id, Seen(s, k, a))
  {
    var q := Queued(s, a);
    if a.Incoming? {
      var k := Owner(s.ports, a);
      if k < |s.ports| {
        AddedWellFormed(InboxOf(s.ports[k], s.queue), s.ports[k].window.size, a);
      }
    }
  }

  /** What arrivals do to a channel's view. */
  function After(h: History, arrivals: seq<Arrival>): History {
    var size := h.s.window.size;
    History(h.s.(inbox := ArriveAll(h.s.inbox, size, arrivals)),
            h.accepted + AddedAll(h.s.inbox, size, arrivals), h.log)
  }

  lemma AfterNone(h: History)
    ensures After(h, []) == h
  {
    Empty(h.accepted);
  }

  lemma AfterFirst(h: History, a: Arrival, rest: seq<Arrival>)
    ensures var size := h.s.window.size;
            var h' := History(h.s.(inbox := Arrive(h.s.inbox, size, a)), h.accepted + Added(h.s.inbox, size, a), h.log);
            After(h, [a] + rest) == After(h', rest)
  {
    var size := h.s.window.size;
    assert ([a] + rest)[1..] == rest;
    Assoc(h.accepted, Added(h.s.inbox, size, a), AddedAll(Arrive(h.s.inbox, size, a), size, rest));
  }

  lemma {:induction false} AfterConcat(h: History, xs: seq<Arrival>, ys: seq<Arrival>)
    ensures After(h, xs + ys) == After(After(h, xs), ys)
    decreases |xs|
  {
    if xs == [] {
      AfterNone(h);
      Empty(ys);
    } else {
      var a, rest, size := xs[0], xs[1..], h.s.window.size;
      var h' := History(h.s.(inbox := Arrive(h.s.inbox, size, a)), h.accepted + Added(h.s.inbox, size, a), h.log);
      UnconsConcat(xs, ys);
      AfterFirst(h, a, rest + ys);
      AfterFirst(h, a, rest);
      assert xs == [a] + rest;
      AfterConcat(h', rest, ys);
    }
  }

  /** One arrival changes a channel's view as the arrivals it sees do. */
  lemma ReceiveView(s: SessionState, k: nat, a: Arrival)
    requires Good(s) && k < |s.ports| && PossibleMessage(s, a)
    ensures View(Receive(s, a), k) == After(View(s, k), Seen(s, k, a))
  {
    hide After, Queued, U32At, Accepted;
    var h, q := View(s, k), Queued(s, a);
    QueuedIsPossible(s, a);
    if a.Foreign? || Mine(s.ports[k].id, a) {
      OwnerIsIt(s, k, a);
      AfterOne(h, a);
    } else if q == [] {
      AfterNone(h);
      Empty(s.queue);
      Empty(s.accepted);
      assert Seen(s, k, a) == [];
    } else {
      assert q == [q[0]] && Seen(s, k, a) == [Foreign(q[0])];
      AfterOne(h, Foreign(q[0]));
    }
  }

  lemma AfterOne(h: History, a: Arrival)
    ensures var size := h.s.window.size;
            After(h, [a])
            == History(h.s.(inbox := Arrive(h.s.inbox, size, a)), h.accepted + Added(h.s.inbox, size, a), h.log)
  {
    hide After, Arrive, Added;
    AfterFirst(h, a, []);
    Empty([a]);
    AfterNone(History(h.s.(inbox := Arrive(h.s.inbox, h.s.window.size, a)),
                      h.accepted + Added(h.s.inbox, h.s.window.size, a), h.log));
  }

  lemma OwnerIsIt(s: SessionState, k: nat, a: Arrival)
    requires Good(s) && k < |s.ports|
    ensures Mine(s.ports[k].id, a) ==>
              Owner(s.ports, a) == k
              && Queued(s, a) == Accepted(InboxOf(s.ports[k], s.queue), s.ports[k].window.size, a.data)
    ensures a.Foreign? ==> Queued(s, a) == [a.packet]
  {}

  function ReceiveAll(s: SessionState, arrivals: seq<Arrival>): (s': SessionState)
    ensures SameIds(s, s')
    decreases |arrivals|
  {
    if arrivals == [] then s else ReceiveAll(Receive(s, arrivals[0]), arrivals[1..])
  }

  function SeenAll(s: SessionState, k: nat, arrivals: seq<Arrival>): seq<Arrival>
    requires k < |s.ports|
    decreases |arrivals|
  {
    if arrivals == [] then [] else Seen(s, k, arrivals[0]) + SeenAll(Receive(s, arrivals[0]), k, arrivals[1..])
  }

  ghost predicate AllMessages(s: SessionState, arrivals: seq<Arrival>) { forall a <- arrivals :: PossibleMessage(s, a) }

  lemma SameIdsSameMessages(s: SessionState, s': SessionState, arrivals: seq<Arrival>)
    requires SameIds(s, s') && AllMessages(s, arrivals)
    ensures AllMessages(s', arrivals)
  {
    forall a, p | a in arrivals && a.Foreign? && p in s'.ports
      ensures !IsDataOf(p.id, a.packet.data)
    {
      assert PossibleMessage(s, a);
      var k :| 0 <= k < |s'.ports| && s'.ports[k] == p;
      assert s.ports[k] in s.ports;
    }
    assert forall a <- arrivals :: PossibleMessage(s, a);
  }

  lemma {:induction false} ReceiveAllView(s: SessionState, k: nat, arrivals: seq<Arrival>)
    requires Good(s) && k < |s.ports| && AllMessages(s, arrivals)
    ensures Good(ReceiveAll(s, arrivals)) && AllPossible(s.ports[k].id, SeenAll(s, k, arrivals))
    ensures View(ReceiveAll(s, arrivals), k) == After(View(s, k), SeenAll(s, k, arrivals))
    decreases |arrivals|
  {
    if arrivals == [] {
      AfterNone(View(s, k));
    } else {
      var a, rest := arrivals[0], arrivals[1..];
      assert PossibleMessage(s, a);
      QueuedIsPossible(s, a);
      var s' := Receive(s, a);
      SameIdsSameMessages(s, s', rest);
      ReceiveView(s, k, a);
      ReceiveAllView(s', k, rest);
      AfterConcat(View(s, k), Seen(s, k, a), SeenAll(s', k, rest));
    }
  }

  // What the channels do.

  datatype Move =
    | Message(a: Arrival)
    | Adjusts(k: nat, amount: word, force: bool, o: SendOutcome)
    | Reads(k: nat, stream: int, buflen: nat, send: SendOutcome, arrivals: seq<Arrival>, rc: int)

  ghost predicate PossibleMove(s: SessionState, m: Move) {
    match m
    case Message(a) => PossibleMessage(s, a)
    case Adjusts(k, _, _, _) => k < |s.ports|
    case Reads(k, _, _, _, arrivals, rc) => k < |s.ports| && AllMessages(s, arrivals) && rc <= 0
  }

  function Widen(s: SessionState, k: nat, w: Window): SessionState
    requires k < |s.ports|
  {
    s.(ports := s.ports[k := s.ports[k].(window := w)])
  }

  /** The end of a read: nothing after an error of the transport, or what the queue holds. */
  function Finish(s: SessionState, k: nat, stream: int, buflen: nat, rc: int): SessionState
    requires k < |s.ports| && AllWellFormed(s.queue)
  {
    var h := View(s, k);
    var r := if rc < 0 && rc != EAGAIN then ReadResult(h.s, rc, []) else Deliver(h.s, stream, buflen, rc);
    DeliverReports(h.s, stream, buflen, rc);
    Put(s, k, History(r.s, h.accepted, h.log + [Delivery(stream, Told(r))]))
  }

  lemma WidenKeeps(s: SessionState, k: nat, w: Window, arrivals: seq<Arrival>)
    requires Good(s) && k < |s.ports| && AllMessages(s, arrivals)
    ensures Good(Widen(s, k, w)) && SameIds(s, Widen(s, k, w)) && AllMessages(Widen(s, k, w), arrivals)
  {
    SameIdsSameMessages(s, Widen(s, k, w), arrivals);
  }

  ghost function Exec(s: SessionState, m: Move): SessionState
    requires Good(s) && PossibleMove(s, m)
  {
    match m
    case Message(a) => Receive(s, a)
    case Adjusts(k, amount, force, o) => Widen(s, k, Adjust(s.ports[k].window, amount, force, o).w)
    case Reads(k, stream, buflen, send, arrivals, rc) =>
      var w := Widened(s.ports[k].window, buflen, send);
      var s1 := Widen(s, k, w.w);
      WidenKeeps(s, k, w.w, arrivals);
      if w.rc != 0 then
        Put(s1, k, View(s1, k).(log := s.ports[k].log + [Delivery(stream, [])]))
      else
        ReceiveAllView(s1, k, arrivals);
        Finish(ReceiveAll(s1, arrivals), k, stream, buflen, rc)
  }

  function Arrivals(arrivals: seq<Arrival>): (steps: seq<Step>)
    ensures |steps| == |arrivals|
    ensures forall i | 0 <= i < |arrivals| :: steps[i] == Arrives(arrivals[i])
  {
    seq(|arrivals|, i requires 0 <= i < |arrivals| => Arrives(arrivals[i]))
  }

  /** The move as a run of channel k. */
  function SeenMove(s: SessionState, k: nat, m: Move): seq<Step>
    requires k < |s.ports| && (m.Reads? ==> m.k < |s.ports|)
  {
    match m
    case Message(a) => Arrivals(Seen(s, k, a))
    case Adjusts(j, amount, force, o) => if j == k then [AdjustCall(amount, force, o)] else []
    case Reads(j, stream, buflen, send, arrivals, rc) =>
      var w := Widened(s.ports[j].window, buflen, send);
      var seen := SeenAll(Widen(s, j, w.w), k, arrivals);
      if j == k then [ReadCall(stream, buflen, Env(send, if w.rc != 0 then [] else seen, rc))]
      else if w.rc != 0 then []
      else if rc < 0 && rc != EAGAIN then Arrivals(seen)
      else Arrivals(seen) + [OtherRead(s.ports[j].id, s.ports[j].mode, stream, buflen)]
  }

  // Runs of one channel, put together.

  lemma {:induction false} RunConcat(h: History, xs: seq<Step>, ys: seq<Step>)
    requires AllWellFormed(h.s.inbox.queue)
    requires AllStepsPossible(h.s.inbox.id, xs) && AllStepsPossible(h.s.inbox.id, ys)
    ensures AllStepsPossible(h.s.inbox.id, xs + ys)
    ensures var h' := ExecAll(h, xs);
            AllWellFormed(h'.s.inbox.queue) && h'.s.inbox.id == h.s.inbox.id && h'.s.inbox.mode == h.s.inbox.mode
            && ExecAll(h, xs + ys) == ExecAll(h', ys)
    decreases |xs|
  {
    if xs == [] {
      Empty(ys);
    } else {
      ExecKeepsWellFormed(h, xs[0]);
      RunConcat(ReceiveRuns.Exec(h, xs[0]), xs[1..], ys);
      UnconsConcat(xs, ys);
      assert (xs + ys)[1..] == xs[1..] + ys;
    }
  }

  lemma {:induction false} RunOfArrivals(h: History, arrivals: seq<Arrival>)
    requires AllWellFormed(h.s.inbox.queue) && AllPossible(h.s.inbox.id, arrivals)
    ensures AllStepsPossible(h.s.inbox.id, Arrivals(arrivals))
    ensures ExecAll(h, Arrivals(arrivals)) == After(h, arrivals)
    decreases |arrivals|
  {
    if arrivals == [] {
      AfterNone(h);
    } else {
      var a, rest := arrivals[0], arrivals[1..];
      assert Arrivals(arrivals)[0] == Arrives(a) && Arrivals(arrivals)[1..] == Arrivals(rest);
      assert arrivals == [a] + rest;
      assert PossibleArrival(h.s.inbox.id, a);
      ExecKeepsWellFormed(h, Arrives(a));
      RunOfArrivals(ReceiveRuns.Exec(h, Arrives(a)), rest);
      AfterFirst(h, a, rest);
    }
  }

  lemma RunOfOne(h: History, step: Step)
    requires AllWellFormed(h.s.inbox.queue) && Possible(h.s.inbox.id, step)
    ensures AllStepsPossible(h.s.inbox.id, [step]) && ExecAll(h, [step]) == ReceiveRuns.Exec(h, step)
  {
    ExecKeepsWellFormed(h, step);
    assert [step][1..] == [];
    assert ExecAll(ReceiveRuns.Exec(h, step), []) == ReceiveRuns.Exec(h, step);
  }

  // A session's run is a run of each of its channels.

  lemma PutView(s: SessionState, j: nat, h: History, k: nat)
    requires j < |s.ports| && k < |s.ports|
    ensures j == k ==> View(Put(s, j, h), k) == h
    ensures j != k ==>
              var v := View(s, k);
              View(Put(s, j, h), k)
              == v.(s := v.s.(inbox := v.s.inbox.(queue := h.s.inbox.queue)), accepted := h.accepted)
  {}

  /** The end of a read, as the channel itself and as another one sees it. */
  lemma FinishView(s: SessionState, j: nat, stream: int, buflen: nat, rc: int, k: nat)
    requires Good(s) && j < |s.ports| && k < |s.ports| && rc <= 0
    ensures var s' := Finish(s, j, stream, buflen, rc);
            && Good(s') && SameIds(s, s')
            && (j != k ==> View(s', k) ==
                           if rc < 0 && rc != EAGAIN then View(s, k)
                           else ReceiveRuns.Exec(View(s, k), OtherRead(s.ports[j].id, s.ports[j].mode, stream, buflen)))
  {
    var h := View(s, j);
    TakeStaysWellFormed(s.queue, Stream(h.s.inbox.id, h.s.inbox.mode, stream), buflen);
    DeliverQueue(h.s, stream, buflen, rc);
    var r := if rc < 0 && rc != EAGAIN then ReadResult(h.s, rc, []) else Deliver(h.s, stream, buflen, rc);
    DeliverReports(h.s, stream, buflen, rc);
    PutView(s, j, History(r.s, h.accepted, h.log + [Delivery(stream, Told(r))]), k);
  }

  /** A channel sees its own read as the read it is. */
  lemma OwnReadView(s: SessionState, m: Move)
    requires Good(s) && PossibleMove(s, m) && m.Reads?
    ensures Good(Exec(s, m)) && SameIds(s, Exec(s, m))
    ensures var steps := SeenMove(s, m.k, m);
            && AllStepsPossible(s.ports[m.k].id, steps)
            && View(Exec(s, m), m.k) == ExecAll(View(s, m.k), steps)
  {
    var k, stream, buflen, send, arrivals, rc := m.k, m.stream, m.buflen, m.send, m.arrivals, m.rc;
    var w := Widened(s.ports[k].window, buflen, send);
    var s1 := Widen(s, k, w.w);
    var seen := if w.rc != 0 then [] else SeenAll(s1, k, arrivals);
    WidenKeeps(s, k, w.w, arrivals);
    if w.rc == 0 {
      ReceiveAllView(s1, k, arrivals);
      FinishView(ReceiveAll(s1, arrivals), k, stream, buflen, rc, k);
    } else {
      Empty(s.accepted);
    }
    ReadReports(View(s, k).s, stream, buflen, Env(send, seen, rc));
    RunOfOne(View(s, k), ReadCall(stream, buflen, Env(send, seen, rc)));
  }

  /** Another channel's read is, to a channel, some arrivals and a look at the queue. */
  lemma OtherReadView(s: SessionState, m: Move, k: nat)
    requires Good(s) && PossibleMove(s, m) && m.Reads? && k < |s.ports| && k != m.k
    ensures var steps := SeenMove(s, k, m);
            && AllStepsPossible(s.ports[k].id, steps)
            && View(Exec(s, m), k) == ExecAll(View(s, k), steps)
  {
    var j, stream, buflen, arrivals, rc := m.k, m.stream, m.buflen, m.arrivals, m.rc;
    var w := Widened(s.ports[j].window, buflen, m.send);
    var s1 := Widen(s, j, w.w);
    WidenKeeps(s, j, w.w, arrivals);
    assert View(s1, k) == View(s, k);
    if w.rc != 0 {
      PutView(s1, j, View(s1, j).(log := s.ports[j].log + [Delivery(stream, [])]), k);
    } else {
      var s2, seen := ReceiveAll(s1, arrivals), SeenAll(s1, k, arrivals);
      ReceiveAllView(s1, k, arrivals);
      RunOfArrivals(View(s, k), seen);
      FinishView(s2, j, stream, buflen, rc, k);
      if !(rc < 0 && rc != EAGAIN) {
        SameModes(s1, arrivals, j);
        var last := OtherRead(s.ports[j].id, s.ports[j].mode, stream, buflen);
        RunOfOne(View(s2, k), last);
        RunConcat(View(s, k), Arrivals(seen), [last]);
      }
    }
  }

  lemma {:induction false} SameModes(s: SessionState, arrivals: seq<Arrival>, j: nat)
    requires j < |s.ports|
    ensures ReceiveAll(s, arrivals).ports[j].id == s.ports[j].id
    ensures ReceiveAll(s, arrivals).ports[j].mode == s.ports[j].mode
    decreases |arrivals|
  {
    if arrivals != [] {
      SameModes(Receive(s, arrivals[0]), arrivals[1..], j);
    }
  }

  lemma MoveView(s: SessionState, m: Move, k: nat)
    requires Good(s) && PossibleMove(s, m) && k < |s.ports|
    ensures Good(Exec(s, m)) && SameIds(s, Exec(s, m))
    ensures var steps := SeenMove(s, k, m);
            && AllStepsPossible(s.ports[k].id, steps)
            && View(Exec(s, m), k) == ExecAll(View(s, k), steps)
  {
    match m
    case Message(a) =>
      QueuedIsPossible(s, a);
      ReceiveView(s, k, a);
      RunOfArrivals(View(s, k), Seen(s, k, a));
    case Adjusts(j, amount, force, o) =>
      RunOfOne(View(s, k), AdjustCall(amount, force, o));
    case Reads(j, _, _, _, _, _) =>
      OwnReadView(s, m);
      if j != k {
        OtherReadView(s, m, k);
      }
  }

  lemma MoveKeeps(s: SessionState, m: Move)
    requires Good(s) && PossibleMove(s, m)
    ensures Good(Exec(s, m)) && SameIds(s, Exec(s, m))
  {
    match m
    case Message(a) => QueuedIsPossible(s, a);
    case Adjusts(_, _, _, _) =>
    case Reads(_, _, _, _, _, _) => OwnReadView(s, m);
  }

  ghost predicate AllMoves(s: SessionState, moves: seq<Move>)
    requires Good(s)
    decreases |moves|
  {
    moves == [] ||
    (PossibleMove(s, moves[0]) && (MoveKeeps(s, moves[0]); AllMoves(Exec(s, moves[0]), moves[1..])))
  }

  ghost function Run(s: SessionState, moves: seq<Move>): (s': SessionState)
    requires Good(s) && AllMoves(s, moves)
    ensures Good(s') && SameIds(s, s')
    decreases |moves|
  {
    if moves == [] then s
    else
      MoveKeeps(s, moves[0]);
      Run(Exec(s, moves[0]), moves[1..])
  }

  /** The run as channel k sees it. */
  ghost function SeenRun(s: SessionState, k: nat, moves: seq<Move>): seq<Step>
    requires Good(s) && AllMoves(s, moves) && k < |s.ports|
    decreases |moves|
  {
    if moves == [] then []
    else
      MoveKeeps(s, moves[0]);
      SeenMove(s, k, moves[0]) + SeenRun(Exec(s, moves[0]), k, moves[1..])
  }

  /** Every run of a session is, for each of its channels, a run of that channel. */
  lemma {:induction false} RunView(s: SessionState, moves: seq<Move>, k: nat)
    requires Good(s) && AllMoves(s, moves) && k < |s.ports|
    ensures AllStepsPossible(s.ports[k].id, SeenRun(s, k, moves))
    ensures View(Run(s, moves), k) == ExecAll(View(s, k), SeenRun(s, k, moves))
    decreases |moves|
  {
    if moves != [] {
      MoveView(s, moves[0], k);
      RunView(Exec(s, moves[0]), moves[1..], k);
      RunConcat(View(s, k), SeenMove(s, k, moves[0]), SeenRun(Exec(s, moves[0]), k, moves[1..]));
    }
  }

  /** The channel's own reads do not compete for the watched stream; reads of others never do. */
  predicate MoveCompatible(mode: Mode, k: nat, watched: int, m: Move) {
    m.Reads? && m.k == k ==> Compatible(mode, watched, ReadCall(m.stream, m.buflen, Env(m.send, [], 0)))
  }

  lemma {:induction false} SeenCompatible(s: SessionState, moves: seq<Move>, k: nat, mode: Mode, watched: int)
    requires Good(s) && AllMoves(s, moves) && k < |s.ports|
    requires forall m <- moves :: MoveCompatible(mode, k, watched, m)
    ensures forall st <- SeenRun(s, k, moves) :: Compatible(mode, watched, st)
    decreases |moves|
  {
    if moves != [] {
      assert MoveCompatible(mode, k, watched, moves[0]);
      MoveKeeps(s, moves[0]);
      SeenCompatible(Exec(s, moves[0]), moves[1..], k, mode, watched);
    }
  }

  /** In every run of a session the account of every stream of every channel is kept: what its reads returned, followed
      by what is still queued, is what was accepted for it, in order, whatever the other channels do. */
  lemma SessionConserves(s: SessionState, moves: seq<Move>, k: nat, watched: int)
    requires Good(s) && AllMoves(s, moves) && k < |s.ports|
    requires Conserved(View(s, k), watched) && InIntRange(watched)
    requires forall m <- moves :: MoveCompatible(s.ports[k].mode, k, watched, m)
    ensures Conserved(View(Run(s, moves), k), watched)
  {
    RunView(s, moves, k);
    SeenCompatible(s, moves, k, s.ports[k].mode, watched);
    RunsConserve(View(s, k), SeenRun(s, k, moves), watched);
  }

  /** The window counter of channel k does not wrap in the run. */
  ghost predicate CounterFits(s: SessionState, moves: seq<Move>, k: nat)
    requires Good(s) && AllMoves(s, moves) && k < |s.ports|
  {
    RunView(s, moves, k);
    RunFits(View(s, k), SeenRun(s, k, moves))
  }

  /** And every channel's counters stay in step with the queue they share, unless its own window counter wraps. */
  lemma SessionStaysBalanced(s: SessionState, moves: seq<Move>, k: nat)
    requires Good(s) && AllMoves(s, moves) && k < |s.ports|
    requires Balanced(View(s, k).s.inbox, s.ports[k].window.size)
    requires CounterFits(s, moves, k)
    ensures var s' := Run(s, moves); Balanced(View(s', k).s.inbox, s'.ports[k].window.size)
  {
    RunView(s, moves, k);
    RunsStayBalanced(View(s, k), SeenRun(s, k, moves));
  }
}
