/** Reading a channel empty: what reads of all its streams take out of the queue, and what they can never take. */
module ReceiveDrain {
  import opened Sequences
  import opened Words
  import opened PacketQueue
  import opened ReceiveWindow
  import opened ReceiveState
  import opened ReceiveObservers

  // A read with a buffer for everything.

  function AndNot(g: Filter, f: Filter): Filter { d => g(d) && !f(d) }

  ghost predicate Same(f: Filter, g: Filter) { forall d :: f(d) == g(d) }

  lemma {:induction false} PendingSame(q: seq<Packet>, f: Filter, g: Filter)
    requires AllWellFormed(q) && Same(f, g)
    ensures Pending(q, f) == Pending(q, g)
  {
    if q != [] {
      PendingSame(q[1..], f, g);
    }
  }

  /** Where nothing of f is pending, leaving f out makes no difference. */
  lemma {:induction false} NothingLeftOut(q: seq<Packet>, f: Filter, g: Filter)
    requires AllWellFormed(q) && Pending(q, f) == []
    ensures Pending(q, g) == Pending(q, AndNot(g, f))
  {
    if q != [] {
      var p, rest := q[0], q[1..];
      assert Share(p, f) == [] && Pending(rest, f) == [];
      NothingLeftOut(rest, f, g);
      assert Share(p, g) == Share(p, AndNot(g, f));
    }
  }

  lemma PendingFirst(q: seq<Packet>, f: Filter)
    requires AllWellFormed(q) && q != []
    ensures Pending(q, f) == Share(q[0], f) + Pending(q[1..], f)
  {}

  lemma SharesOf(p: Packet, f: Filter, g: Filter)
    requires WellFormed(p)
    ensures if f(p.data) then Share(p, f) == Payload(p) && Share(p, AndNot(g, f)) == []
            else Share(p, g) == Share(p, AndNot(g, f))
  {}

  /** Once all of f has been taken, what is pending of any g is what was pending of it outside f. */
  lemma {:induction false} TakeAllLeaves(q: seq<Packet>, f: Filter, g: Filter, n: nat)
    requires AllWellFormed(q) && n >= |Pending(q, f)|
    ensures var t := Take(q, f, n); AllWellFormed(t.queue) && Pending(t.queue, g) == Pending(q, AndNot(g, f))
  {
    hide Pending, Payload, Share;
    TakeStaysWellFormed(q, f, n);
    if q == [] || n == 0 {
      NothingLeftOut(q, f, g);
    } else {
      var p, rest := q[0], q[1..];
      PendingFirst(q, f);
      PendingFirst(q, AndNot(g, f));
      SharesOf(p, f, g);
      if !f(p.data) {
        TakeAllLeaves(rest, f, g, n);
        PendingCons(p, Take(rest, f, n).queue, g);
      } else {
        TakeAllLeaves(rest, f, g, n - |Payload(p)|);
        Empty(Pending(rest, AndNot(g, f)));
      }
    }
  }

  // One read after another.

  datatype Emptied = Emptied(count: nat, queue: seq<Packet>)

  /** A read of each stream of the list, each with a buffer that holds all there is for it; how much they return. */
  function Drain(id: word, mode: Mode, q: seq<Packet>, streams: seq<int>): (r: Emptied)
    requires AllWellFormed(q)
    ensures AllWellFormed(r.queue)
    decreases |streams|
  {
    if streams == [] then Emptied(0, q)
    else
      var f := Stream(id, mode, streams[0]);
      var t := Take(q, f, |Pending(q, f)|);
      TakeStaysWellFormed(q, f, |Pending(q, f)|);
      var rest := Drain(id, mode, t.queue, streams[1..]);
      Emptied(|t.bytes| + rest.count, rest.queue)
  }

  /** The data packets that no stream of the list reads. */
  function Leftover(id: word, mode: Mode, streams: seq<int>): Filter {
    d => IsDataOf(id, d) && forall s <- streams :: !StreamOf(id, mode, s, d)
  }

  /** After the reads exactly the bytes of the packets no stream reads are left, and all others have been returned. */
  lemma {:induction false} DrainLeaves(id: word, mode: Mode, q: seq<Packet>, streams: seq<int>)
    requires AllWellFormed(q)
    ensures var r := Drain(id, mode, q, streams);
            && Pending(r.queue, DataOf(id)) == Pending(q, Leftover(id, mode, streams))
            && r.count == |Pending(q, DataOf(id))| - |Pending(q, Leftover(id, mode, streams))|
    decreases |streams|
  {
    if streams == [] {
      PendingSame(q, DataOf(id), Leftover(id, mode, streams));
    } else {
      var f := Stream(id, mode, streams[0]);
      var n := |Pending(q, f)|;
      var t := Take(q, f, n);
      var later := Leftover(id, mode, streams[1..]);
      TakeStaysWellFormed(q, f, n);
      DrainLeaves(id, mode, t.queue, streams[1..]);
      TakeAllLeaves(q, f, later, n);
      LeftoverCons(id, mode, streams);
      PendingSame(q, AndNot(later, f), Leftover(id, mode, streams));
      StreamWithin(id, mode, streams[0]);
      TakeReducesWider(q, f, DataOf(id), n);
    }
  }

  lemma LeftoverCons(id: word, mode: Mode, streams: seq<int>)
    requires streams != []
    ensures Same(AndNot(Leftover(id, mode, streams[1..]), Stream(id, mode, streams[0])), Leftover(id, mode, streams))
  {
    assert streams == [streams[0]] + streams[1..];
  }

  // Which packets some stream reads.

  /** In normal mode an extended packet for stream 0 is queued, and no stream number selects it. */
  predicate Readable(mode: Mode, d: seq<byte>)
    requires |d| >= 9
  {
    d[0] == CHANNEL_DATA || mode == Merge || U32At(d, 5) != 0
  }

  lemma ToIntInRange(u: word)
    ensures InIntRange(ToInt(u)) && (ToInt(u) == 0 <==> u == 0)
  {}

  /** The stream that reads a readable packet. */
  function ReaderOf(mode: Mode, d: seq<byte>): int
    requires |d| >= 9
  {
    if d[0] == CHANNEL_DATA || mode == Merge then 0 else ToInt(U32At(d, 5))
  }

  /** Exactly the readable packets are read by some stream. */
  lemma SomeStreamReads(id: word, mode: Mode, d: seq<byte>)
    requires IsDataOf(id, d) && |d| >= 9
    ensures (exists s: int :: InIntRange(s) && StreamOf(id, mode, s, d)) <==> Readable(mode, d)
    ensures Readable(mode, d) ==> InIntRange(ReaderOf(mode, d)) && StreamOf(id, mode, ReaderOf(mode, d), d)
  {
    ToIntInRange(U32At(d, 5));
    if Readable(mode, d) {
      var s := ReaderOf(mode, d);
      assert InIntRange(s) && StreamOf(id, mode, s, d);
    }
  }

  ghost predicate InRange(streams: seq<int>) { forall s <- streams :: InIntRange(s) }

  /** Every data packet of the channel that still has bytes is readable. */
  ghost predicate AllReadable(id: word, mode: Mode, q: seq<Packet>) {
    forall i | 0 <= i < |q| :: WellFormed(q[i]) && IsDataOf(id, q[i].data) && Payload(q[i]) != [] ==>
      |q[i].data| >= 9 && Readable(mode, q[i].data)
  }

  lemma DataLength(p: Packet, id: word)
    requires WellFormed(p) && IsDataOf(id, p.data)
    ensures |p.data| >= 9
  {}

  /** The streams of the packets in the queue. */
  function Readers(id: word, mode: Mode, q: seq<Packet>): (streams: seq<int>)
    requires AllWellFormed(q)
    ensures InRange(streams)
  {
    if q == [] then []
    else
      var rest := Readers(id, mode, q[1..]);
      if IsDataOf(id, q[0].data) then
        DataLength(q[0], id);
        ToIntInRange(U32At(q[0].data, 5));
        [ReaderOf(mode, q[0].data)] + rest
      else rest
  }

  lemma {:induction false} ReadersRead(id: word, mode: Mode, q: seq<Packet>, streams: seq<int>)
    requires AllWellFormed(q) && AllReadable(id, mode, q)
    requires forall s <- Readers(id, mode, q) :: s in streams
    ensures Pending(q, Leftover(id, mode, streams)) == []
  {
    if q != [] {
      var p, rest := q[0], q[1..];
      assert forall i | 0 <= i < |rest| :: rest[i] == q[i + 1];
      ReadersRead(id, mode, rest, streams);
      if IsDataOf(id, p.data) && Payload(p) != [] {
        DataLength(p, id);
        SomeStreamReads(id, mode, p.data);
        assert ReaderOf(mode, p.data) in streams;
      }
      assert Share(p, Leftover(id, mode, streams)) == [];
    }
  }

  lemma {:induction false} UnreadableStays(id: word, mode: Mode, q: seq<Packet>, streams: seq<int>, i: nat)
    requires AllWellFormed(q) && InRange(streams) && i < |q|
    requires IsDataOf(id, q[i].data) && Payload(q[i]) != [] && |q[i].data| >= 9 && !Readable(mode, q[i].data)
    ensures Pending(q, Leftover(id, mode, streams)) != []
  {
    if i == 0 {
      SomeStreamReads(id, mode, q[0].data);
      assert Leftover(id, mode, streams)(q[0].data);
    } else {
      UnreadableStays(id, mode, q[1..], streams, i - 1);
    }
  }

  /** The reads leave none of the channel's bytes behind, and return as many as read_avail says. */
  ghost predicate Empties(id: word, mode: Mode, q: seq<Packet>, streams: seq<int>)
    requires AllWellFormed(q)
  {
    var r := Drain(id, mode, q, streams);
    Pending(r.queue, DataOf(id)) == [] && r.count == Available(q, id)
  }

  lemma EmptiesMeans(id: word, mode: Mode, q: seq<Packet>, streams: seq<int>)
    requires AllWellFormed(q)
    ensures Empties(id, mode, q, streams) <==> Pending(q, Leftover(id, mode, streams)) == []
  {
    hide Drain, Pending;
    DrainLeaves(id, mode, q, streams);
    AvailableIsPending(q, id);
  }

  /** Reads of all streams empty the channel exactly when each unread packet is readable: only then does read_avail
      equal what they deliver. */
  lemma DrainEmpties(id: word, mode: Mode, q: seq<Packet>)
    requires AllWellFormed(q)
    ensures (exists streams :: InRange(streams) && Empties(id, mode, q, streams)) <==> AllReadable(id, mode, q)
  {
    if AllReadable(id, mode, q) {
      var streams := Readers(id, mode, q);
      ReadersRead(id, mode, q, streams);
      EmptiesMeans(id, mode, q, streams);
    } else {
      forall streams | InRange(streams)
        ensures !Empties(id, mode, q, streams)
      {
        UnreadableIsLeft(id, mode, q, streams);
        EmptiesMeans(id, mode, q, streams);
      }
    }
  }

  lemma UnreadableIsLeft(id: word, mode: Mode, q: seq<Packet>, streams: seq<int>)
    requires AllWellFormed(q) && InRange(streams) && !AllReadable(id, mode, q)
    ensures Pending(q, Leftover(id, mode, streams)) != []
  {
    var i: nat :| i < |q| && WellFormed(q[i]) && IsDataOf(id, q[i].data) && Payload(q[i]) != []
                  && !(|q[i].data| >= 9 && Readable(mode, q[i].data));
    DataLength(q[i], id);
    UnreadableStays(id, mode, q, streams, i);
  }

  /** One byte of extended data for stream 0. */
  lemma StuckMessage(id: word) returns (d: seq<byte>)
    ensures |d| == 14 && d[0] == CHANNEL_EXTENDED_DATA && U32At(d, 1) == id && U32At(d, 5) == 0
  {
    hide U32At;
    var m := Message(CHANNEL_EXTENDED_DATA, id, 0);
    d := m + [0, 0, 0, 1, 7];
    U32InFront(m, [0, 0, 0, 1, 7], 1);
    U32InFront(m, [0, 0, 0, 1, 7], 5);
  }

  lemma U32InFront(a: seq<byte>, b: seq<byte>, i: nat)
    requires i + 4 <= |a|
    ensures U32At(a + b, i) == U32At(a, i)
  {}

  lemma StuckArrives(b: Inbox, size: word, d: seq<byte>)
    requires b.queue == [] && b.packetSize > 0 && b.readAvail < size
    requires |d| == 14 && d[0] == CHANNEL_EXTENDED_DATA && U32At(d, 1) == b.id
    ensures IsData(b.id, d) && Arrive(b, size, Incoming(d)).queue == [Packet(d, 13)]
    ensures var b' := Arrive(b, size, Incoming(d)); b'.id == b.id && b'.mode == b.mode
  {
    assert d[..|d|] == d;
    Empty([Packet(d, 13)]);
  }

  lemma StuckStays(id: word, p: Packet, stream: int, n: nat)
    requires |p.data| == 14 && p.head == 13 && p.data[0] == CHANNEL_EXTENDED_DATA
    requires U32At(p.data, 1) == id && U32At(p.data, 5) == 0 && InIntRange(stream)
    ensures AllWellFormed([p]) && Take([p], Stream(id, Normal, stream), n) == Taken([], [p])
  {
    SomeStreamReads(id, Normal, p.data);
    assert !Stream(id, Normal, stream)(p.data);
    assert [p][1..] == [];
    Empty([p]);
  }

  lemma StuckShows(id: word, p: Packet)
    requires |p.data| == 14 && p.head == 13 && p.data[0] == CHANNEL_EXTENDED_DATA
    requires U32At(p.data, 1) == id && U32At(p.data, 5) == 0
    ensures AllWellFormed([p]) && Available([p], id) == 1 && !AllReadable(id, Normal, [p])
    ensures p in [p] && IsDataOf(id, p.data)
  {
    assert [p][1..] == [];
    assert |Payload(p)| == 1 && [p][0] == p;
  }

  /** A message of extended data for stream 0 that arrives in normal mode: it is queued and counted, it masks the
      peer's EOF, and no read of any stream ever takes it. */
  lemma UnreadableSticks(b: Inbox, size: word) returns (d: seq<byte>)
    requires b.mode == Normal && b.queue == [] && b.packetSize > 0 && b.readAvail < size
    ensures IsData(b.id, d)
    ensures var b' := Arrive(b, size, Incoming(d));
            && AllWellFormed(b'.queue) && !AllReadable(b.id, b.mode, b'.queue)
            && Available(b'.queue, b.id) == 1
            && (forall eof: bool :: !AtEof(b'.(eof := eof)))
            && (forall stream: int, n: nat :: InIntRange(stream) ==>
                  Take(b'.queue, StreamIn(b', stream), n) == Taken([], b'.queue))
  {
    hide Take, Available, Pending, AllReadable, Arrive, IsData, U32At;
    d := StuckMessage(b.id);
    StuckArrives(b, size, d);
    var p := Packet(d, 13);
    StuckShows(b.id, p);
    forall stream: int, n: nat | InIntRange(stream)
      ensures Take([p], Stream(b.id, Normal, stream), n) == Taken([], [p])
    {
      StuckStays(b.id, p, stream, n);
    }
  }
}
