/** Whole runs of one channel: any interleaving of arrivals, reads and window adjustments, and of what the reads of
    other channels take from the same queue. */
module ReceiveRuns {
  import opened Sequences
  import opened Words
  import opened PacketQueue
  import opened ReceiveWindow
  import opened ReceiveState
  import opened ReceiveInvariant

  datatype Step =
    | Arrives(a: Arrival)
    | ReadCall(stream: int, buflen: nat, e: Env)
    | AdjustCall(amount: word, force: bool, o: SendOutcome)
    | OtherRead(other: word, mode: Mode, stream: int, n: nat)

  /** What the caller of a read was told it has. */
  datatype Delivery = Delivery(stream: int, bytes: seq<byte>)

  /** A run so far: the state, every packet ever queued as it was queued, and what each read returned. */
  datatype History = History(s: State, accepted: seq<Packet>, log: seq<Delivery>)

  predicate Possible(id: word, step: Step) {
    match step
    case Arrives(a) => PossibleArrival(id, a)
    case ReadCall(_, _, e) => PossibleEnv(id, e)
    case AdjustCall(_, _, _) => true
    case OtherRead(other, _, _, _) => other != id
  }

  function AddedAll(b: Inbox, size: word, arrivals: seq<Arrival>): seq<Packet>
    decreases |arrivals|
  {
    if arrivals == [] then [] else
      Added(b, size, arrivals[0]) + AddedAll(Arrive(b, size, arrivals[0]), size, arrivals[1..])
  }

  function ReadAdds(s: State, buflen: nat, e: Env): seq<Packet> {
    var w := Widened(s.window, buflen, e.send);
    if w.rc != 0 then [] else AddedAll(s.inbox, w.w.size, e.arrivals)
  }

  function Exec(h: History, step: Step): History
    requires AllWellFormed(h.s.inbox.queue) && Possible(h.s.inbox.id, step)
  {
    match step
    case Arrives(a) =>
      var size := h.s.window.size;
      History(h.s.(inbox := Arrive(h.s.inbox, size, a)), h.accepted + Added(h.s.inbox, size, a), h.log)
    case AdjustCall(amount, force, o) =>
      h.(s := h.s.(window := Adjust(h.s.window, amount, force, o).w))
    case ReadCall(stream, buflen, e) =>
      var r := Read(h.s, stream, buflen, e);
      ReadReports(h.s, stream, buflen, e);
      History(r.s, h.accepted + ReadAdds(h.s, buflen, e), h.log + [Delivery(stream, Told(r))])
    case OtherRead(other, mode, stream, n) =>
      h.(s := h.s.(inbox := h.s.inbox.(queue := Take(h.s.inbox.queue, Stream(other, mode, stream), n).queue)))
  }

  lemma ReadKeepsWellFormed(s: State, stream: int, buflen: nat, e: Env)
    requires AllWellFormed(s.inbox.queue) && PossibleEnv(s.inbox.id, e)
    ensures var b := Read(s, stream, buflen, e).s.inbox;
            AllWellFormed(b.queue) && b.id == s.inbox.id && b.mode == s.inbox.mode
  {
    var w := Widened(s.window, buflen, e.send);
    if w.rc == 0 {
      ArrivalsWellFormed(s.inbox, w.w.size, e.arrivals);
      DeliverQueue(State(ArriveAll(s.inbox, w.w.size, e.arrivals), w.w), stream, buflen, e.rc);
    }
  }

  lemma ExecKeepsWellFormed(h: History, step: Step)
    requires AllWellFormed(h.s.inbox.queue) && Possible(h.s.inbox.id, step)
    ensures var b := Exec(h, step).s.inbox;
            AllWellFormed(b.queue) && b.id == h.s.inbox.id && b.mode == h.s.inbox.mode
  {
    match step
    case Arrives(a) => AddedWellFormed(h.s.inbox, h.s.window.size, a);
    case AdjustCall(_, _, _) =>
    case ReadCall(stream, buflen, e) => ReadKeepsWellFormed(h.s, stream, buflen, e);
    case OtherRead(other, mode, stream, n) => TakeStaysWellFormed(h.s.inbox.queue, Stream(other, mode, stream), n);
  }

  ghost predicate AllStepsPossible(id: word, steps: seq<Step>) {
    forall st :: st in steps ==> Possible(id, st)
  }

  function ExecAll(h: History, steps: seq<Step>): History
    requires AllWellFormed(h.s.inbox.queue) && AllStepsPossible(h.s.inbox.id, steps)
    decreases |steps|
  {
    if steps == [] then h else
      ExecKeepsWellFormed(h, steps[0]);
      ExecAll(Exec(h, steps[0]), steps[1..])
  }

  /** All the bytes the reads of one stream have returned, in order. */
  function Delivered(log: seq<Delivery>, stream: int): seq<byte> {
    if log == [] then [] else
      var last := log[|log| - 1];
      Delivered(log[..|log| - 1], stream) + if last.stream == stream then last.bytes else []
  }

  lemma DeliveredSnoc(log: seq<Delivery>, d: Delivery, stream: int)
    ensures Delivered(log + [d], stream) == Delivered(log, stream) + if d.stream == stream then d.bytes else []
  {
    assert (log + [d])[..|log + [d]| - 1] == log;
  }

  /** out is what has been taken of the payloads chosen by f, and the queue holds the rest. */
  ghost predicate Holds(f: Filter, out: seq<byte>, queue: seq<Packet>, accepted: seq<Packet>) {
    AllWellFormed(queue) && AllWellFormed(accepted) && out + Pending(queue, f) == Pending(accepted, f)
  }

  lemma AddedHolds(f: Filter, out: seq<byte>, queue: seq<Packet>, accepted: seq<Packet>, added: seq<Packet>)
    requires Holds(f, out, queue, accepted) && |added| <= 1 && AllWellFormed(added)
    ensures Holds(f, out, queue + added, accepted + added)
  {
    if added == [] {
      assert queue + added == queue && accepted + added == accepted;
    } else {
      assert added == [added[0]];
      PendingAppends(queue, added[0], f);
      PendingAppends(accepted, added[0], f);
      Assoc(out, Pending(queue, f), Share(added[0], f));
    }
  }

  lemma {:induction false} ArrivalsHold(f: Filter, out: seq<byte>, b: Inbox, size: word, arrivals: seq<Arrival>,
                                        accepted: seq<Packet>)
    requires Holds(f, out, b.queue, accepted) && AllPossible(b.id, arrivals)
    ensures Holds(f, out, ArriveAll(b, size, arrivals).queue, accepted + AddedAll(b, size, arrivals))
    decreases |arrivals|
  {
    if arrivals == [] {
      assert accepted + [] == accepted;
    } else {
      var added, b' := Added(b, size, arrivals[0]), Arrive(b, size, arrivals[0]);
      AddedWellFormed(b, size, arrivals[0]);
      AddedHolds(f, out, b.queue, accepted, added);
      ArrivalsHold(f, out, b', size, arrivals[1..], accepted + added);
      Assoc(accepted, added, AddedAll(b', size, arrivals[1..]));
    }
  }

  /** A read of the watched stream moves bytes from the queue to out; a read of one that does not compete moves none. */
  lemma TakeHolds(f: Filter, g: Filter, same: bool, out: seq<byte>, queue: seq<Packet>, accepted: seq<Packet>, n: nat)
    requires Holds(g, out, queue, accepted) && if same then f == g else Disjoint(f, g)
    ensures var t := Take(queue, f, n);
            Holds(g, if same then out + t.bytes else out, t.queue, accepted)
  {
    TakeConserves(queue, f, n);
    var t := Take(queue, f, n);
    if same {
      assert (out + t.bytes) + Pending(t.queue, g) == out + (t.bytes + Pending(t.queue, g));
    } else {
      TakeLeavesOthers(queue, f, g, n);
    }
  }

  /** Bytes returned, followed by bytes still queued, are the payloads accepted, in order. */
  ghost predicate Conserved(h: History, watched: int) {
    Holds(StreamIn(h.s.inbox, watched), Delivered(h.log, watched), h.s.inbox.queue, h.accepted)
  }

  predicate Compatible(mode: Mode, watched: int, step: Step) {
    step.ReadCall? ==>
      InIntRange(step.stream) && (step.stream == watched || (mode == Merge ==> (step.stream == 0) == (watched == 0)))
  }

  lemma ReadConserves(h: History, stream: int, buflen: nat, e: Env, watched: int)
    requires Conserved(h, watched) && PossibleEnv(h.s.inbox.id, e) && InIntRange(watched)
    requires Compatible(h.s.inbox.mode, watched, ReadCall(stream, buflen, e))
    ensures Conserved(Exec(h, ReadCall(stream, buflen, e)), watched)
  {
    var g, out := StreamIn(h.s.inbox, watched), Delivered(h.log, watched);
    var w, r := Widened(h.s.window, buflen, e.send), Read(h.s, stream, buflen, e);
    ReadReports(h.s, stream, buflen, e);
    DeliveredSnoc(h.log, Delivery(stream, r.bytes), watched);
    assert out + [] == out;
    if w.rc != 0 {
      assert h.accepted + [] == h.accepted;
    } else {
      ArrivalsHold(g, out, h.s.inbox, w.w.size, e.arrivals, h.accepted);
      ArrivalsWellFormed(h.s.inbox, w.w.size, e.arrivals);
      var b := ArriveAll(h.s.inbox, w.w.size, e.arrivals);
      StreamsDisjoint(b.id, b.mode, stream, watched);
      TakeHolds(StreamIn(b, stream), g, stream == watched, out, b.queue, h.accepted + ReadAdds(h.s, buflen, e), buflen);
      DeliverQueue(State(b, w.w), stream, buflen, e.rc);
    }
  }

  lemma ExecConserves(h: History, step: Step, watched: int)
    requires Conserved(h, watched) && Possible(h.s.inbox.id, step) && InIntRange(watched)
    requires Compatible(h.s.inbox.mode, watched, step)
    ensures Conserved(Exec(h, step), watched)
  {
    match step
    case Arrives(a) =>
      AddedWellFormed(h.s.inbox, h.s.window.size, a);
      AddedHolds(StreamIn(h.s.inbox, watched), Delivered(h.log, watched), h.s.inbox.queue, h.accepted,
        Added(h.s.inbox, h.s.window.size, a));
    case AdjustCall(_, _, _) =>
    case ReadCall(stream, buflen, e) => ReadConserves(h, stream, buflen, e, watched);
    case OtherRead(other, mode, stream, n) =>
      var f, g := Stream(other, mode, stream), StreamIn(h.s.inbox, watched);
      TakeHolds(f, g, false, Delivered(h.log, watched), h.s.inbox.queue, h.accepted, n);
  }

  /** Over any run whose other reads do not compete for the stream's packets, what the stream's reads returned
      followed by what is still queued is exactly what was accepted for it, in order. */
  lemma {:induction false} RunsConserve(h: History, steps: seq<Step>, watched: int)
    requires Conserved(h, watched) && InIntRange(watched) && AllStepsPossible(h.s.inbox.id, steps)
    requires forall st :: st in steps ==> Compatible(h.s.inbox.mode, watched, st)
    ensures Conserved(ExecAll(h, steps), watched)
    decreases |steps|
  {
    if steps != [] {
      ExecKeepsWellFormed(h, steps[0]);
      ExecConserves(h, steps[0], watched);
      RunsConserve(Exec(h, steps[0]), steps[1..], watched);
    }
  }

  lemma {:induction false} ArriveAllQueue(b: Inbox, size: word, arrivals: seq<Arrival>)
    ensures ArriveAll(b, size, arrivals).queue == b.queue + AddedAll(b, size, arrivals)
    ensures ArriveAll(b, size, arrivals).id == b.id
    decreases |arrivals|
  {
    if arrivals == [] {
      assert b.queue + [] == b.queue;
    } else {
      var b' := Arrive(b, size, arrivals[0]);
      ArriveAllQueue(b', size, arrivals[1..]);
      Assoc(b.queue, Added(b, size, arrivals[0]), AddedAll(b', size, arrivals[1..]));
    }
  }

  /** The packets of everyone else are those that were accepted, unread and in their order. */
  ghost predicate OthersKept(h: History) {
    var f := DataOf(h.s.inbox.id);
    Unchosen(h.s.inbox.queue, f) == Unchosen(h.accepted, f)
  }

  lemma MoreOthers(queue: seq<Packet>, accepted: seq<Packet>, added: seq<Packet>, f: Filter)
    requires Unchosen(queue, f) == Unchosen(accepted, f)
    ensures Unchosen(queue + added, f) == Unchosen(accepted + added, f)
  {
    UnchosenConcat(queue, added, f);
    UnchosenConcat(accepted, added, f);
  }

  lemma ReadKeepsOthers(h: History, stream: int, buflen: nat, e: Env)
    requires OthersKept(h) && AllWellFormed(h.s.inbox.queue) && PossibleEnv(h.s.inbox.id, e)
    ensures OthersKept(Exec(h, ReadCall(stream, buflen, e)))
  {
    var s, w := h.s, Widened(h.s.window, buflen, e.send);
    var f := DataOf(s.inbox.id);
    if w.rc != 0 {
      assert h.accepted + [] == h.accepted;
    } else {
      var b := ArriveAll(s.inbox, w.w.size, e.arrivals);
      ArriveAllQueue(s.inbox, w.w.size, e.arrivals);
      MoreOthers(s.inbox.queue, h.accepted, AddedAll(s.inbox, w.w.size, e.arrivals), f);
      ArrivalsWellFormed(s.inbox, w.w.size, e.arrivals);
      StreamWithin(b.id, b.mode, stream);
      TakeKeepsUnchosen(b.queue, StreamIn(b, stream), f, buflen);
      DeliverQueue(State(b, w.w), stream, buflen, e.rc);
    }
  }

  /** Over any run of the channel's own, packets of other channels keep their contents and their order. */
  lemma {:induction false} RunsKeepOthers(h: History, steps: seq<Step>)
    requires OthersKept(h) && AllWellFormed(h.s.inbox.queue) && AllStepsPossible(h.s.inbox.id, steps)
    requires forall st <- steps :: !st.OtherRead?
    ensures OthersKept(ExecAll(h, steps))
    decreases |steps|
  {
    if steps != [] {
      ExecKeepsWellFormed(h, steps[0]);
      assert steps[0] in steps;
      match steps[0] {
        case Arrives(a) =>
          MoreOthers(h.s.inbox.queue, h.accepted, Added(h.s.inbox, h.s.window.size, a), DataOf(h.s.inbox.id));
        case AdjustCall(_, _, _) =>
        case ReadCall(stream, buflen, e) => ReadKeepsOthers(h, stream, buflen, e);
      }
      RunsKeepOthers(Exec(h, steps[0]), steps[1..]);
    }
  }

  predicate StepFits(s: State, step: Step) {
    match step
    case Arrives(_) => true
    case AdjustCall(amount, _, _) => AdjustFits(s.window, amount)
    case ReadCall(_, buflen, _) => ReadFits(s.window, buflen)
    case OtherRead(_, _, _, _) => true
  }

  /** No step of the run makes the 32-bit window counter wrap. */
  ghost predicate RunFits(h: History, steps: seq<Step>)
    requires AllWellFormed(h.s.inbox.queue) && AllStepsPossible(h.s.inbox.id, steps)
    decreases |steps|
  {
    steps == [] ||
    (StepFits(h.s, steps[0]) && (ExecKeepsWellFormed(h, steps[0]); RunFits(Exec(h, steps[0]), steps[1..])))
  }

  lemma ExecKeepsBalanced(h: History, step: Step)
    requires Balanced(h.s.inbox, h.s.window.size) && Possible(h.s.inbox.id, step) && StepFits(h.s, step)
    ensures var s := Exec(h, step).s; Balanced(s.inbox, s.window.size)
  {
    match step
    case Arrives(a) => ArriveKeepsBalanced(h.s.inbox, h.s.window.size, a);
    case AdjustCall(amount, force, o) => AdjustOnlyWidens(h.s.window, amount, force, o);
    case ReadCall(stream, buflen, e) => ReadKeepsBalanced(h.s, stream, buflen, e);
    case OtherRead(other, mode, stream, n) =>
      TakeLeavesOthers(h.s.inbox.queue, Stream(other, mode, stream), DataOf(h.s.inbox.id), n);
  }

  /** In every such run the counters stay in step with the queue and within the window. */
  lemma {:induction false} RunsStayBalanced(h: History, steps: seq<Step>)
    requires Balanced(h.s.inbox, h.s.window.size) && AllStepsPossible(h.s.inbox.id, steps) && RunFits(h, steps)
    ensures var s := ExecAll(h, steps).s; Balanced(s.inbox, s.window.size)
    decreases |steps|
  {
    if steps != [] {
      ExecKeepsWellFormed(h, steps[0]);
      ExecKeepsBalanced(h, steps[0]);
      RunsStayBalanced(Exec(h, steps[0]), steps[1..]);
    }
  }

  /** With merged data, a read that is not compatible does take bytes the watched stream was waiting for. */
  lemma MergedReadSteals(id: word, watched: int, stream: int) returns (h: History, e: Env)
    requires InIntRange(watched) && InIntRange(stream) && (stream == 0) != (watched == 0)
    ensures h.s.inbox.id == id && h.s.inbox.mode == Merge && PossibleEnv(id, e)
    ensures Conserved(h, watched) && !Conserved(Exec(h, ReadCall(stream, 1, e)), watched)
  {
    hide Read, Take, Pending, StreamOf, U32At, Payload;
    var d := Message(CHANNEL_EXTENDED_DATA, id, FromInt(if stream == 0 then watched else stream));
    var p := Packet(d + [0, 0, 0, 1, 7], 13);
    StolenPacket(id, d, p, watched, stream);
    e := Env(Sent, [], 0);
    h := History(State(Inbox(id, Merge, 1, [p], 1, false, false), Window(0, 1, 0, Idle, false, 0)), [p], []);
    ReadOfOnly(h.s, p, stream);
    ReadReports(h.s, stream, 1, e);
    OnlyPacket(p, Stream(id, Merge, watched));
    DeliveredSnoc([], Delivery(stream, [7]), watched);
    Unbalanced(h, Exec(h, ReadCall(stream, 1, e)), p, watched);
  }

  lemma ReadOfOnly(s: State, p: Packet, stream: int)
    requires WellFormed(p) && s.inbox.queue == [p] && StreamIn(s.inbox, stream)(p.data) && |Payload(p)| == 1
    requires s.window == Window(0, 1, 0, Idle, false, 0)
    ensures AllWellFormed([p])
    ensures var r := Read(s, stream, 1, Env(Sent, [], 0));
            && r.bytes == Payload(p) && r.s.inbox.queue == []
            && r.s.inbox.id == s.inbox.id && r.s.inbox.mode == s.inbox.mode
  {
    OnlyPacket(p, StreamIn(s.inbox, stream));
    assert Widened(s.window, 1, Sent) == Adjusted(s.window, 0);
    assert ArriveAll(s.inbox, s.window.size, []) == s.inbox;
  }

  lemma Unbalanced(h: History, h': History, p: Packet, watched: int)
    requires WellFormed(p) && |Payload(p)| == 1 && StreamIn(h.s.inbox, watched)(p.data)
    requires h.s.inbox.queue == [p] && h.accepted == [p] && Delivered(h.log, watched) == []
    requires h'.s.inbox.queue == [] && h'.accepted == [p] && Delivered(h'.log, watched) == []
    requires StreamIn(h'.s.inbox, watched) == StreamIn(h.s.inbox, watched)
    ensures Conserved(h, watched) && !Conserved(h', watched)
  {
    OnlyPacket(p, StreamIn(h.s.inbox, watched));
    Empty(Payload(p));
  }

  lemma StolenPacket(id: word, d: seq<byte>, p: Packet, watched: int, stream: int)
    requires InIntRange(watched) && InIntRange(stream) && (stream == 0) != (watched == 0)
    requires |d| == 9 && d[0] == CHANNEL_EXTENDED_DATA && U32At(d, 1) == id
    requires U32At(d, 5) == FromInt(if stream == 0 then watched else stream)
    requires p == Packet(d + [0, 0, 0, 1, 7], 13)
    ensures WellFormed(p) && Payload(p) == [7]
    ensures StreamOf(id, Merge, stream, p.data) && StreamOf(id, Merge, watched, p.data)
  {
    assert U32At(p.data, 1) == U32At(d, 1) && U32At(p.data, 5) == U32At(d, 5);
  }

  lemma OnlyPacket(p: Packet, f: Filter)
    requires WellFormed(p) && f(p.data) && |Payload(p)| == 1
    ensures Pending([p], f) == Payload(p) && Take([p], f, 1) == Taken(Payload(p), [])
  {
    var q, have := [p], Payload(p);
    assert q[1..] == [];
    Empty(have);
    assert Take(q[1..], f, 0) == Taken([], []);
  }

  /** Reads of a stream leave every other stream's account alone exactly when the two are compatible. */
  lemma ConservingMeansCompatible(id: word, mode: Mode, watched: int, stream: int)
    requires InIntRange(watched) && InIntRange(stream)
    ensures (forall h: History, buflen: nat, e: Env |
               h.s.inbox.id == id && h.s.inbox.mode == mode && Conserved(h, watched) && PossibleEnv(id, e) ::
               Conserved(Exec(h, ReadCall(stream, buflen, e)), watched))
       <==> Compatible(mode, watched, ReadCall(stream, 0, Env(Sent, [], 0)))
  {
    if Compatible(mode, watched, ReadCall(stream, 0, Env(Sent, [], 0))) {
      forall h: History, buflen: nat, e: Env |
        h.s.inbox.id == id && h.s.inbox.mode == mode && Conserved(h, watched) && PossibleEnv(id, e)
        ensures Conserved(Exec(h, ReadCall(stream, buflen, e)), watched)
      {
        ReadConserves(h, stream, buflen, e, watched);
      }
    } else {
      var h, e := MergedReadSteals(id, watched, stream);
      assert h.s.inbox.mode == mode;
    }
  }
}
