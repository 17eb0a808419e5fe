/** The receiving operations as the C code runs them, on a channel object and its session's packet list. */
module ChannelReceive {
  import opened Sequences
  import opened Words
  import opened PacketQueue
  import opened ReceiveWindow
  import opened ReceiveState
  import opened ReceiveObservers

  class PacketList {
    var packets: seq<Packet>

    constructor ()
      ensures packets == []
    {
      packets := [];
    }
  }

  class Receiver {
    const session: PacketList
    const id: word
    const initial: word
    const packetSize: word
    var mode: Mode
    var readAvail: word
    var eof: bool
    var close: bool
    var windowSize: word
    var adjustQueue: word
    var adjustState: Adjusting
    var readJump: bool
    var granted: nat

    constructor (session: PacketList, id: word, mode: Mode, window: word, packetSize: word)
      ensures this.session == session && this.id == id
      ensures Value() ==
              State(Inbox(id, mode, packetSize, session.packets, 0, false, false),
                    Window(window, window, 0, Idle, false, 0))
    {
      this.session, this.id, this.initial, this.packetSize := session, id, window, packetSize;
      this.mode, readAvail, eof, close := mode, 0, false, false;
      windowSize, adjustQueue, adjustState, readJump, granted := window, 0, Idle, false, 0;
    }

    function InboxValue(): Inbox
      reads this, session
    {
      Inbox(id, mode, packetSize, session.packets, readAvail, eof, close)
    }

    function WindowValue(): Window
      reads this
    {
      Window(initial, windowSize, adjustQueue, adjustState, readJump, granted)
    }

    function Value(): State
      reads this, session
    {
      State(InboxValue(), WindowValue())
    }

    method ReceiveWindowAdjust(adjustment: word, force: bool, o: SendOutcome) returns (rc: int)
      modifies this
      ensures Adjusted(WindowValue(), rc) == Adjust(old(WindowValue()), adjustment, force, o)
      ensures InboxValue() == old(InboxValue())
    {
      var amount := adjustment;
      if adjustState.Idle? {
        if !force && Plus(amount, adjustQueue) < MINADJUST {
          adjustQueue := Plus(adjustQueue, amount);
          return 0;
        }
        if amount == 0 && adjustQueue == 0 {
          return 0;
        }
        amount := Plus(amount, adjustQueue);
        adjustQueue := 0;
        adjustState := Created(amount);
      }
      if o.WouldBlock? {
        return EAGAIN;
      } else if o.Failed? {
        adjustQueue := amount;
        return SOCKET_SEND;
      } else {
        windowSize := Plus(windowSize, amount);
        granted := granted + adjustState.amount;
      }
      adjustState := Idle;
      return 0;
    }

    /** The channel part of packet_add. */
    method PacketAdd(a: Arrival)
      requires PossibleArrival(id, a)
      modifies this, session
      ensures InboxValue() == Arrive(old(InboxValue()), old(windowSize), a)
      ensures WindowValue() == old(WindowValue())
    {
      hide U32At, Plus;
      Empty(session.packets);
      match a {
        case Foreign(p) =>
          session.packets := session.packets + [p];
        case Incoming(data) =>
          if |data| < 5 || U32At(data, 1) != id {
            return;
          }
          var msg := data[0];
          if msg == CHANNEL_DATA || msg == CHANNEL_EXTENDED_DATA {
            var head := HeaderLength(msg);
            var len := |data|;
            if len < head {
              return;
            }
            if packetSize < len - head {
              len := packetSize + head;
            }
            if windowSize <= readAvail {
              return;
            }
            eof := false;
            if readAvail + len - head > windowSize {
              len := windowSize - readAvail + head;
            }
            readAvail := Plus(readAvail, len - head);
            session.packets := session.packets + [Packet(data[..len], head)];
          } else if msg == CHANNEL_EOF {
            eof := true;
          } else if msg == CHANNEL_CLOSE {
            close := true;
            eof := true;
          }
      }
    }

    /** The transport_read loop: everything that has arrived is added. */
    method Drain(arrivals: seq<Arrival>)
      requires AllPossible(id, arrivals)
      modifies this, session
      ensures InboxValue() == ArriveAll(old(InboxValue()), old(windowSize), arrivals)
      ensures WindowValue() == old(WindowValue())
    {
      var i := 0;
      ghost var b0, size := InboxValue(), windowSize;
      while i < |arrivals|
        invariant 0 <= i <= |arrivals|
        invariant ArriveAll(b0, size, arrivals) == ArriveAll(InboxValue(), size, arrivals[i..])
        invariant WindowValue() == old(WindowValue())
      {
        assert arrivals[i] in arrivals;
        assert arrivals[i..][1..] == arrivals[i + 1..];
        PacketAdd(arrivals[i]);
        i := i + 1;
      }
    }

    /** One selected packet: copy what is wanted of it, then advance its head or unlink it. */
    method ReadPacket(i: nat, buf: array<byte>, bytesRead: nat, buflen: nat) returns (want: nat, unlink: bool)
      requires bytesRead < buflen <= buf.Length && i < |session.packets| && WellFormed(session.packets[i])
      modifies session, buf
      ensures var p := old(session.packets)[i];
              && unlink == (buflen - bytesRead >= |Payload(p)|)
              && want == Least(buflen - bytesRead, |Payload(p)|)
              && session.packets == old(session.packets)[..i] +
                   (if unlink then [] else [Packet(p.data, p.head + want)]) + old(session.packets)[i + 1..]
              && buf[..bytesRead + want] == old(buf[..bytesRead]) + Payload(p)[..want]
              && buf[bytesRead + want..] == old(buf[bytesRead + want..])
    {
      var readpkt := session.packets[i];
      want, unlink := buflen - bytesRead, false;
      if want >= |readpkt.data| - readpkt.head {
        want := |readpkt.data| - readpkt.head;
        unlink := true;
      }
      assert readpkt.data[readpkt.head..readpkt.head + want] == Payload(readpkt)[..want];
      Memcpy(buf, bytesRead, readpkt.data[readpkt.head..readpkt.head + want]);
      if unlink {
        session.packets := session.packets[..i] + [] + session.packets[i + 1..];
      } else {
        session.packets :=
          session.packets[..i] + [Packet(readpkt.data, readpkt.head + want)] + session.packets[i + 1..];
      }
    }

    /** One packet of the queue: copied from and advanced or unlinked if the stream chooses it, else passed over. */
    method CopyOne(stream: int, i: nat, buf: array<byte>, filled: nat, buflen: nat,
                   ghost kept: seq<Packet>, ghost rest: seq<Packet>)
      returns (i': nat, bytesRead: nat, ghost kept': seq<Packet>)
      requires filled < buflen <= buf.Length && rest != [] && AllWellFormed(rest)
      requires session.packets == kept + rest && i == |kept|
      modifies session, buf
      ensures session.packets == kept' + rest[1..] && i' == |kept'| && filled <= bytesRead <= buflen
      ensures buf[bytesRead..] == old(buf[..])[bytesRead..]
      ensures var f := Stream(id, mode, stream);
              Onto(old(buf[..filled]), kept, Take(rest, f, buflen - filled))
              == Onto(buf[..bytesRead], kept', Take(rest[1..], f, buflen - bytesRead))
    {
      ghost var f, p, bytes := Stream(id, mode, stream), rest[0], buf[..filled];
      Middle(kept, rest);
      assert session.packets[i] == p && WellFormed(p);
      i', bytesRead, kept' := i, filled, kept;
      if StreamOf(id, mode, stream, session.packets[i].data) {
        OntoTaken(bytes, kept, rest, f, buflen - bytesRead);
        var want, unlink := ReadPacket(i, buf, bytesRead, buflen);
        bytesRead := bytesRead + want;
        if !unlink {
          kept' := kept + [Packet(p.data, p.head + want)];
          i' := i + 1;
        }
      } else {
        OntoKept(bytes, kept, p, Take(rest[1..], f, buflen - bytesRead));
        kept' := kept + [p];
        i' := i + 1;
      }
    }

    /** The copying loop of channel_read. buf receives the bytes; the result is how many. */
    method CopyOut(stream: int, buf: array<byte>, buflen: nat) returns (bytesRead: nat)
      requires buflen <= buf.Length && AllWellFormed(session.packets)
      modifies session, buf
      ensures var t := Take(old(session.packets), Stream(id, mode, stream), buflen);
              && session.packets == t.queue
              && bytesRead == |t.bytes| <= buflen
              && buf[..bytesRead] == t.bytes && buf[bytesRead..] == old(buf[..])[bytesRead..]
    {
      ghost var f, q0, was := Stream(id, mode, stream), session.packets, buf[..];
      ghost var kept, rest := [], q0;
      var i := 0;
      bytesRead := 0;
      assert Onto([], [], Take(q0, f, buflen)) == Take(q0, f, buflen);
      while i < |session.packets| && bytesRead < buflen
        invariant session.packets == kept + rest && i == |kept| && bytesRead <= buflen
        invariant AllWellFormed(rest)
        invariant buf[bytesRead..] == was[bytesRead..]
        invariant Take(q0, f, buflen) == Onto(buf[..bytesRead], kept, Take(rest, f, buflen - bytesRead))
        decreases |rest|
      {
        assert rest != [];
        i, bytesRead, kept := CopyOne(stream, i, buf, bytesRead, buflen, kept, rest);
        rest := rest[1..];
      }
    }

    method Read(stream: int, buf: array<byte>, buflen: nat, e: Env) returns (rc: int)
      requires buflen <= buf.Length && AllWellFormed(session.packets) && PossibleEnv(id, e)
      modifies this, session, buf
      ensures var r := ReceiveState.Read(old(Value()), stream, buflen, e);
              && Value() == r.s && rc == r.rc
              && |r.bytes| <= buflen
              && buf[..|r.bytes|] == r.bytes && buf[|r.bytes|..] == old(buf[..])[|r.bytes|..]
    {
      hide ArriveAll, Deliver, Adjust;
      ghost var s0 := Value();
      if readJump || windowSize < (initial / 4 * 3 + buflen) % WORDS {
        var adjustment: word := (initial + buflen - windowSize) % WORDS;
        if adjustment < MINADJUST {
          adjustment := MINADJUST;
        }
        readJump := true;
        rc := ReceiveWindowAdjust(adjustment, false, e.send);
        if rc != 0 {
          return rc;
        }
        readJump := false;
      }
      assert Adjusted(WindowValue(), 0) == Widened(s0.window, buflen, e.send);
      ArrivalsWellFormed(InboxValue(), windowSize, e.arrivals);
      Drain(e.arrivals);
      if e.rc < 0 && e.rc != EAGAIN {
        return e.rc;
      }
      rc := Finish(stream, buf, buflen, e.rc);
    }

    /** The part of channel_read after the incoming messages have been drained. */
    method Finish(stream: int, buf: array<byte>, buflen: nat, transport: int) returns (rc: int)
      requires buflen <= buf.Length && AllWellFormed(session.packets) && transport <= 0
      modifies this, session, buf
      ensures var r := Deliver(old(Value()), stream, buflen, transport);
              && Value() == r.s && rc == r.rc
              && |r.bytes| <= buflen
              && buf[..|r.bytes|] == r.bytes && buf[|r.bytes|..] == old(buf[..])[|r.bytes|..]
    {
      var bytesRead := CopyOut(stream, buf, buflen);
      if bytesRead == 0 {
        if eof || close {
          return 0;
        } else if transport != EAGAIN {
          return 0;
        }
        return EAGAIN;
      }
      readAvail := Minus(readAvail, bytesRead % WORDS);
      windowSize := Minus(windowSize, bytesRead % WORDS);
      return bytesRead;
    }

    method Eof() returns (r: bool)
      ensures r == AtEof(InboxValue())
    {
      var i := 0;
      while i < |session.packets|
        invariant 0 <= i <= |session.packets|
        invariant forall k :: 0 <= k < i ==> !IsDataOf(id, session.packets[k].data)
      {
        var packet := session.packets[i];
        if |packet.data| >= 1 && (packet.data[0] == CHANNEL_DATA || packet.data[0] == CHANNEL_EXTENDED_DATA)
           && |packet.data| >= 5 && id == U32At(packet.data, 1) {
          return false;
        }
        i := i + 1;
      }
      return eof;
    }

    method PacketDataLen(stream: int) returns (n: nat)
      requires AllWellFormed(session.packets)
      ensures n == FirstLength(session.packets, Stream(id, mode, stream))
    {
      var i := 0;
      while i < |session.packets|
        invariant 0 <= i <= |session.packets|
        invariant FirstLength(session.packets, Stream(id, mode, stream)) ==
                  FirstLength(session.packets[i..], Stream(id, mode, stream))
      {
        if StreamOf(id, mode, stream, session.packets[i].data) {
          assert WellFormed(session.packets[i]);
          return |session.packets[i].data| - session.packets[i].head;
        }
        assert session.packets[i..][1..] == session.packets[i + 1..];
        i := i + 1;
      }
      return 0;
    }

    method WindowReadEx() returns (window: word, available: nat, windowInitial: word)
      requires AllWellFormed(session.packets)
      ensures window == windowSize && windowInitial == initial
      ensures available == Available(session.packets, id)
    {
      var i := 0;
      available := 0;
      while i < |session.packets|
        invariant 0 <= i <= |session.packets|
        invariant Available(session.packets, id) == available + Available(session.packets[i..], id)
      {
        var packet := session.packets[i];
        assert WellFormed(packet);
        if IsDataOf(id, packet.data) {
          available := available + |packet.data| - packet.head;
        }
        assert session.packets[i..][1..] == session.packets[i + 1..];
        i := i + 1;
      }
      return windowSize, available, initial;
    }
  }

  /** A partial result put in front of what is still to come. */
  function Onto(bytes: seq<byte>, kept: seq<Packet>, t: Taken): Taken {
    Taken(bytes + t.bytes, kept + t.queue)
  }

  lemma Middle(kept: seq<Packet>, rest: seq<Packet>)
    requires rest != []
    ensures (kept + rest)[..|kept|] == kept && (kept + rest)[|kept|] == rest[0]
    ensures (kept + rest)[|kept| + 1..] == rest[1..]
    ensures kept + [rest[0]] + rest[1..] == kept + rest
    ensures kept + [] + rest[1..] == kept + rest[1..]
  {}

  /** What taking from one chosen packet adds. */
  lemma OntoTaken(bytes: seq<byte>, kept: seq<Packet>, rest: seq<Packet>, f: Filter, n: nat)
    requires rest != [] && AllWellFormed(rest) && f(rest[0].data) && n > 0
    ensures var p := rest[0];
            var have := Payload(p);
            var want := Least(n, |have|);
            Onto(bytes, kept, Take(rest, f, n)) ==
              if n >= |have| then Onto(bytes + have[..want], kept, Take(rest[1..], f, n - want))
              else Onto(bytes + have[..want], kept + [Packet(p.data, p.head + want)], Take(rest[1..], f, 0))
  {
    var have := Payload(rest[0]);
    if n >= |have| {
      assert have[..|have|] == have;
      Assoc(bytes, have, Take(rest[1..], f, n - |have|).bytes);
    } else {
      assert Take(rest[1..], f, 0) == Taken([], rest[1..]);
      assert kept + ([Packet(rest[0].data, rest[0].head + n)] + rest[1..]) ==
             (kept + [Packet(rest[0].data, rest[0].head + n)]) + rest[1..];
    }
  }

  lemma OntoKept(bytes: seq<byte>, kept: seq<Packet>, p: Packet, t: Taken)
    ensures Onto(bytes, kept, Taken(t.bytes, [p] + t.queue)) == Onto(bytes, kept + [p], t)
  {}

  method Memcpy(buf: array<byte>, off: nat, bytes: seq<byte>)
    requires off + |bytes| <= buf.Length
    modifies buf
    ensures buf[..off + |bytes|] == old(buf[..off]) + bytes
    ensures buf[off + |bytes|..] == old(buf[off + |bytes|..])
  {
    forall k | 0 <= k < |bytes| { buf[off + k] := bytes[k]; }
  }
}
