/** The session's queue of incoming packets, shared by all channels and their streams. */
module PacketQueue {
  import opened Sequences
  import opened Words

  const CHANNEL_DATA: byte := 94
  const CHANNEL_EXTENDED_DATA: byte := 95

  /** A queued message; the bytes before head have been consumed. */
  datatype Packet = Packet(data: seq<byte>, head: nat)

  datatype Mode = Normal | Merge

  /** A choice of packets by their contents. The queue laws below hold for any choice. */
  type Filter = seq<byte> -> bool

  /** Bytes before the payload: type, channel and length, and for extended data also the stream. */
  function HeaderLength(t: byte): nat { if t == CHANNEL_EXTENDED_DATA then 13 else 9 }

  /** What packet_add guarantees of everything it queues. */
  predicate WellFormed(p: Packet) {
    && 1 <= |p.data| && p.head <= |p.data|
    && (p.data[0] == CHANNEL_DATA || p.data[0] == CHANNEL_EXTENDED_DATA ==> HeaderLength(p.data[0]) <= p.head)
  }

  predicate AllWellFormed(q: seq<Packet>) { forall p :: p in q ==> WellFormed(p) }

  function Payload(p: Packet): seq<byte>
    requires WellFormed(p)
  {
    p.data[p.head..]
  }

  function Share(p: Packet, f: Filter): seq<byte>
    requires WellFormed(p)
  {
    if f(p.data) then Payload(p) else []
  }

  /** The unread bytes of the chosen packets, in queue order. */
  function Pending(q: seq<Packet>, f: Filter): seq<byte>
    requires AllWellFormed(q)
  {
    if q == [] then [] else Share(q[0], f) + Pending(q[1..], f)
  }

  function Unchosen(q: seq<Packet>, f: Filter): seq<Packet> {
    if q == [] then [] else (if f(q[0].data) then [] else [q[0]]) + Unchosen(q[1..], f)
  }

  datatype Taken = Taken(bytes: seq<byte>, queue: seq<Packet>)

  /** What one pass over the queue delivers when at most n bytes are wanted, and what it leaves. */
  function Take(q: seq<Packet>, f: Filter, n: nat): Taken
    requires AllWellFormed(q)
  {
    if q == [] || n == 0 then Taken([], q)
    else if !f(q[0].data) then
      var t := Take(q[1..], f, n);
      Taken(t.bytes, [q[0]] + t.queue)
    else
      var have := Payload(q[0]);
      if n >= |have| then
        var t := Take(q[1..], f, n - |have|);
        Taken(have + t.bytes, t.queue)
      else
        Taken(have[..n], [Packet(q[0].data, q[0].head + n)] + q[1..])
  }

  function Least(a: nat, b: nat): nat { if a < b then a else b }

  lemma PendingCons(p: Packet, q: seq<Packet>, f: Filter)
    requires WellFormed(p) && AllWellFormed(q)
    ensures AllWellFormed([p] + q) && Pending([p] + q, f) == Share(p, f) + Pending(q, f)
  {
    assert ([p] + q)[1..] == q;
  }

  lemma UnchosenCons(p: Packet, q: seq<Packet>, f: Filter)
    ensures Unchosen([p] + q, f) == (if f(p.data) then [] else [p]) + Unchosen(q, f)
  {
    assert ([p] + q)[1..] == q;
  }

  /** Nothing is lost, repeated or reordered, and the read is as long as it can be. */
  lemma {:induction false} TakeConserves(q: seq<Packet>, f: Filter, n: nat)
    requires AllWellFormed(q)
    ensures var t := Take(q, f, n);
            && AllWellFormed(t.queue)
            && t.bytes + Pending(t.queue, f) == Pending(q, f)
            && |t.bytes| == Least(n, |Pending(q, f)|)
  {
    if q != [] && n > 0 {
      var p, rest := q[0], q[1..];
      assert Pending(q, f) == Share(p, f) + Pending(rest, f);
      if !f(p.data) {
        TakeConserves(rest, f, n);
        PendingCons(p, Take(rest, f, n).queue, f);
        assert Share(p, f) + Pending(rest, f) == Pending(rest, f);
      } else {
        var have := Payload(p);
        if n >= |have| {
          var t := Take(rest, f, n - |have|);
          TakeConserves(rest, f, n - |have|);
          Assoc(have, t.bytes, Pending(t.queue, f));
        } else {
          var left := Packet(p.data, p.head + n);
          PendingCons(left, rest, f);
          assert have == have[..n] + Share(left, f);
          Assoc(have[..n], Share(left, f), Pending(rest, f));
        }
      }
    }
  }

  ghost predicate Disjoint(f: Filter, g: Filter) {
    forall d :: f(d) ==> !g(d)
  }

  ghost predicate Within(f: Filter, g: Filter) {
    forall d :: f(d) ==> g(d)
  }

  /** Packets outside a wider choice keep their contents and their order. */
  lemma {:induction false} TakeKeepsUnchosen(q: seq<Packet>, f: Filter, g: Filter, n: nat)
    requires AllWellFormed(q) && Within(f, g)
    ensures Unchosen(Take(q, f, n).queue, g) == Unchosen(q, g)
  {
    if q != [] && n > 0 {
      var p, rest := q[0], q[1..];
      if !f(p.data) {
        TakeKeepsUnchosen(rest, f, g, n);
        UnchosenCons(p, Take(rest, f, n).queue, g);
      } else if n >= |Payload(p)| {
        TakeKeepsUnchosen(rest, f, g, n - |Payload(p)|);
      } else {
        UnchosenCons(Packet(p.data, p.head + n), rest, g);
      }
    }
  }

  lemma {:induction false} UnchosenConcat(a: seq<Packet>, b: seq<Packet>, f: Filter)
    ensures Unchosen(a + b, f) == Unchosen(a, f) + Unchosen(b, f)
  {
    if a == [] {
      Empty(b);
    } else {
      UnchosenConcat(a[1..], b, f);
      UnconsConcat(a, b);
      UnchosenCons(a[0], a[1..] + b, f);
      Assoc(if f(a[0].data) then [] else [a[0]], Unchosen(a[1..], f), Unchosen(b, f));
    }
  }

  lemma TakeStaysWellFormed(q: seq<Packet>, f: Filter, n: nat)
    requires AllWellFormed(q)
    ensures AllWellFormed(Take(q, f, n).queue) && |Take(q, f, n).bytes| == Least(n, |Pending(q, f)|)
  {
    TakeConserves(q, f, n);
  }

  /** Reading one choice of packets leaves the bytes of a disjoint choice as they were. */
  lemma {:induction false} TakeLeavesOthers(q: seq<Packet>, f: Filter, g: Filter, n: nat)
    requires AllWellFormed(q) && Disjoint(f, g)
    ensures var t := Take(q, f, n); AllWellFormed(t.queue) && Pending(t.queue, g) == Pending(q, g)
  {
    TakeStaysWellFormed(q, f, n);
    if q != [] && n > 0 {
      var p, rest := q[0], q[1..];
      assert Pending(q, g) == Share(p, g) + Pending(rest, g);
      if !f(p.data) {
        TakeLeavesOthers(rest, f, g, n);
        PendingCons(p, Take(rest, f, n).queue, g);
      } else {
        assert Share(p, g) + Pending(rest, g) == Pending(rest, g);
        if n >= |Payload(p)| {
          TakeLeavesOthers(rest, f, g, n - |Payload(p)|);
        } else {
          var left := Packet(p.data, p.head + n);
          PendingCons(left, rest, g);
          assert Share(left, g) == Share(p, g);
        }
      }
    }
  }

  /** A read takes from any wider choice exactly as many bytes as it returns. */
  lemma {:induction false} TakeReducesWider(q: seq<Packet>, f: Filter, g: Filter, n: nat)
    requires AllWellFormed(q) && Within(f, g)
    ensures var t := Take(q, f, n); AllWellFormed(t.queue) && |Pending(t.queue, g)| == |Pending(q, g)| - |t.bytes|
  {
    TakeStaysWellFormed(q, f, n);
    if q != [] && n > 0 {
      var p, rest := q[0], q[1..];
      assert Pending(q, g) == Share(p, g) + Pending(rest, g);
      if !f(p.data) {
        TakeReducesWider(rest, f, g, n);
        PendingCons(p, Take(rest, f, n).queue, g);
      } else {
        assert Share(p, g) == Payload(p);
        if n >= |Payload(p)| {
          TakeReducesWider(rest, f, g, n - |Payload(p)|);
        } else {
          var left := Packet(p.data, p.head + n);
          PendingCons(left, rest, g);
          assert Share(left, g) == Payload(p)[n..];
        }
      }
    }
  }

  lemma {:induction false} PendingAppends(q: seq<Packet>, p: Packet, f: Filter)
    requires AllWellFormed(q) && WellFormed(p)
    ensures AllWellFormed(q + [p]) && Pending(q + [p], f) == Pending(q, f) + Share(p, f)
  {
    if q == [] {
      PendingCons(p, q, f);
      assert q + [p] == [p] + q;
    } else {
      var first, rest := q[0], q[1..];
      PendingAppends(rest, p, f);
      PendingCons(first, rest + [p], f);
      Uncons(q, p);
      Assoc(Share(first, f), Pending(rest, f), Share(p, f));
    }
  }

  lemma {:induction false} PendingWithin(q: seq<Packet>, f: Filter, g: Filter)
    requires AllWellFormed(q) && Within(f, g)
    ensures |Pending(q, f)| <= |Pending(q, g)|
  {
    if q != [] { PendingWithin(q[1..], f, g); }
  }

  function U32At(d: seq<byte>, i: nat): word
    requires i + 4 <= |d|
  {
    Pack(d[i], d[i + 1], d[i + 2], d[i + 3])
  }

  /** A C cast of an unsigned 32-bit value to int. */
  function ToInt(u: word): int { if u < 0x8000_0000 then u else u - 0x1_0000_0000 }

  predicate InIntRange(i: int) { -0x8000_0000 <= i < 0x8000_0000 }

  function FromInt(i: int): word
    requires InIntRange(i)
  {
    if i >= 0 then i else i + 0x1_0000_0000
  }

  /** The packets a read of a stream takes from. */
  predicate StreamOf(id: word, mode: Mode, stream: int, d: seq<byte>) {
    && |d| >= 5
    && U32At(d, 1) == id
    && (|| (stream != 0 && d[0] == CHANNEL_EXTENDED_DATA && |d| >= 9 && stream == ToInt(U32At(d, 5)))
        || (stream == 0 && d[0] == CHANNEL_DATA)
        || (stream == 0 && d[0] == CHANNEL_EXTENDED_DATA && mode == Merge))
  }

  function Stream(id: word, mode: Mode, stream: int): Filter { d => StreamOf(id, mode, stream, d) }

  /** Any data packet of the channel, whatever its stream. */
  predicate IsDataOf(id: word, d: seq<byte>) {
    |d| >= 5 && U32At(d, 1) == id && (d[0] == CHANNEL_DATA || d[0] == CHANNEL_EXTENDED_DATA)
  }

  function DataOf(id: word): Filter { d => IsDataOf(id, d) }

  lemma StreamWithin(id: word, mode: Mode, stream: int)
    ensures Within(Stream(id, mode, stream), DataOf(id))
  {}

  /** Two streams of one channel never compete for a packet exactly when they differ and, if extended data is
      merged, neither or both of them are extended streams. */
  lemma StreamsDisjoint(id: word, mode: Mode, a: int, b: int)
    requires InIntRange(a) && InIntRange(b)
    ensures Disjoint(Stream(id, mode, a), Stream(id, mode, b)) <==> a != b && (mode == Merge ==> (a == 0) == (b == 0))
  {
    if a == b || (mode == Merge && (a == 0) != (b == 0)) {
      var stream := if a == 0 then b else a;
      var d := Message(if a == 0 && b == 0 then CHANNEL_DATA else CHANNEL_EXTENDED_DATA, id, FromInt(stream));
      assert ToInt(FromInt(stream)) == stream;
      assert StreamOf(id, mode, a, d) && StreamOf(id, mode, b, d);
      assert Stream(id, mode, a)(d) && Stream(id, mode, b)(d);
    }
  }

  lemma Message(t: byte, id: word, stream: word) returns (d: seq<byte>)
    ensures |d| == 9 && d[0] == t && U32At(d, 1) == id && U32At(d, 5) == stream
  {
    d := [t] + BigEndian(id) + BigEndian(stream);
    PackUnpack(id);
    PackUnpack(stream);
  }
}
