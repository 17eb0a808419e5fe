/** The functions that look at the queue without changing it, and what they promise about reads. */
module ReceiveObservers {
  import opened Words
  import opened PacketQueue
  import opened ReceiveWindow
  import opened ReceiveState
  import opened ReceiveInvariant

  /** libssh2_channel_eof: a data packet of any stream masks the peer's EOF. */
  ghost predicate AtEof(b: Inbox) {
    b.eof && forall p :: p in b.queue ==> !IsDataOf(b.id, p.data)
  }

  /** packet_data_len: the unread bytes of the first packet a read would take from. */
  function FirstLength(q: seq<Packet>, f: Filter): nat
    requires AllWellFormed(q)
  {
    if q == [] then 0 else if f(q[0].data) then |Payload(q[0])| else FirstLength(q[1..], f)
  }

  lemma {:induction false} NothingPending(q: seq<Packet>, f: Filter)
    requires AllWellFormed(q) && forall p :: p in q ==> !f(p.data)
    ensures Pending(q, f) == []
  {
    if q != [] { NothingPending(q[1..], f); }
  }

  /** A read with nothing new arriving: where it stops before the queue, or what it delivers from the queue. */
  lemma QuietRead(s: State, stream: int, buflen: nat, e: Env)
    requires AllWellFormed(s.inbox.queue) && PossibleEnv(s.inbox.id, e) && e.arrivals == []
    ensures var w := Widened(s.window, buflen, e.send);
            Read(s, stream, buflen, e) ==
            if w.rc != 0 then ReadResult(s.(window := w.w), w.rc, [])
            else if e.rc < 0 && e.rc != EAGAIN then ReadResult(s.(window := w.w), e.rc, [])
            else Deliver(s.(window := w.w), stream, buflen, e.rc)
  {}

  /** The read gets as far as the queue: its window adjustment went through and the transport did not fail. */
  predicate ReachesQueue(s: State, buflen: nat, e: Env) {
    Widened(s.window, buflen, e.send).rc == 0 && (e.rc == 0 || e.rc == EAGAIN)
  }

  /** At EOF a read of any stream delivers nothing, and one that gets as far as the queue says 0, never EAGAIN. */
  lemma EofReadsNothing(s: State, stream: int, buflen: nat, e: Env)
    requires AllWellFormed(s.inbox.queue) && PossibleEnv(s.inbox.id, e) && e.arrivals == [] && AtEof(s.inbox)
    ensures var r := Read(s, stream, buflen, e); r.bytes == [] && (ReachesQueue(s, buflen, e) ==> r.rc == 0)
  {
    QuietRead(s, stream, buflen, e);
    var f := StreamIn(s.inbox, stream);
    StreamWithin(s.inbox.id, s.inbox.mode, stream);
    forall p | p in s.inbox.queue ensures !f(p.data) {
      assert !DataOf(s.inbox.id)(p.data);
    }
    NothingPending(s.inbox.queue, f);
    TakeConserves(s.inbox.queue, f, buflen);
  }

  lemma {:induction false} FirstLengthPending(q: seq<Packet>, f: Filter)
    requires AllWellFormed(q)
    ensures FirstLength(q, f) <= |Pending(q, f)|
  {
    if q != [] && !f(q[0].data) { FirstLengthPending(q[1..], f); }
  }

  /** A positive packet_data_len n makes a read that gets as far as the queue deliver at least min(n, buflen). */
  lemma FirstLengthIsReadable(s: State, stream: int, buflen: nat, e: Env)
    requires AllWellFormed(s.inbox.queue) && PossibleEnv(s.inbox.id, e) && e.arrivals == []
    requires ReachesQueue(s, buflen, e)
    ensures var r, n := Read(s, stream, buflen, e), FirstLength(s.inbox.queue, StreamIn(s.inbox, stream));
            |r.bytes| >= Least(n, buflen) && (Least(n, buflen) > 0 ==> r.rc == |r.bytes|)
  {
    ReadReports(s, stream, buflen, e);
    QuietRead(s, stream, buflen, e);
    FirstLengthPending(s.inbox.queue, StreamIn(s.inbox, stream));
    TakeConserves(s.inbox.queue, StreamIn(s.inbox, stream), buflen);
  }

  /** The read_avail reported by window_read_ex, a sum over the queue. */
  function Available(q: seq<Packet>, id: word): nat
    requires AllWellFormed(q)
  {
    if q == [] then 0
    else
      assert WellFormed(q[0]);
      (if IsDataOf(id, q[0].data) then |q[0].data| - q[0].head else 0) + Available(q[1..], id)
  }

  lemma {:induction false} AvailableIsPending(q: seq<Packet>, id: word)
    requires AllWellFormed(q)
    ensures Available(q, id) == |Pending(q, DataOf(id))|
  {
    if q != [] {
      AvailableIsPending(q[1..], id);
      assert WellFormed(q[0]);
    }
  }

  /** It falls by exactly what each read returns, and in a balanced state it is the channel's own counter. */
  lemma AvailableFalls(s: State, stream: int, buflen: nat, e: Env)
    requires AllWellFormed(s.inbox.queue) && PossibleEnv(s.inbox.id, e) && e.arrivals == []
    ensures var r := Read(s, stream, buflen, e);
            AllWellFormed(r.s.inbox.queue) &&
            Available(r.s.inbox.queue, s.inbox.id) == Available(s.inbox.queue, s.inbox.id) - |r.bytes|
    ensures Balanced(s.inbox, s.window.size) ==> Available(s.inbox.queue, s.inbox.id) == s.inbox.readAvail
  {
    var b, w := s.inbox, Widened(s.window, buflen, e.send);
    QuietRead(s, stream, buflen, e);
    AvailableIsPending(b.queue, b.id);
    StreamWithin(b.id, b.mode, stream);
    TakeReducesWider(b.queue, StreamIn(b, stream), DataOf(b.id), buflen);
    DeliverQueue(s.(window := w.w), stream, buflen, e.rc);
    AvailableIsPending(Read(s, stream, buflen, e).s.inbox.queue, b.id);
  }
}
