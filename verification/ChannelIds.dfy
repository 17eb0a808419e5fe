/** Channel numbers: allocation, lookup, and the move of an accepted channel between lists. */
module ChannelIds {
  import opened Sequences
  import opened Words
  import opened ReceiveWindow

  class Channel {
    const id: word

    constructor (id: word)
      ensures this.id == id
    {
      this.id := id;
    }
  }

  class Listener {
    const maxSize: nat
    var queue: seq<Channel>
    var queueSize: nat

    constructor (maxSize: nat)
      ensures this.maxSize == maxSize && queue == [] && queueSize == 0
    {
      this.maxSize, queue, queueSize := maxSize, [], 0;
    }

    /** A maximum of zero is no maximum. */
    predicate Full()
      reads this
    {
      maxSize != 0 && maxSize <= queueSize
    }
  }

  /** What becomes of a connection the peer opens. */
  datatype Answer = Linked | Blocked | Lost | Refused

  /** The larger of id and the ids in the list. */
  function Highest(id: word, channels: seq<Channel>): word
    decreases |channels|
  {
    if channels == [] then id else
      Highest(if channels[0].id > id then channels[0].id else id, channels[1..])
  }

  ghost predicate Uses(channels: seq<Channel>, id: word) {
    exists i :: 0 <= i < |channels| && channels[i].id == id
  }

  lemma {:induction false} HighestBounds(id: word, channels: seq<Channel>)
    ensures Highest(id, channels) >= id
    ensures forall i :: 0 <= i < |channels| ==> channels[i].id <= Highest(id, channels)
    ensures Highest(id, channels) == id || Uses(channels, Highest(id, channels))
    decreases |channels|
  {
    if channels != [] {
      var c, rest := channels[0], channels[1..];
      var next := if c.id > id then c.id else id;
      HighestBounds(next, rest);
      forall i | 0 <= i < |channels| ensures channels[i].id <= Highest(id, channels) {
        if i > 0 { assert channels[i] == rest[i - 1]; }
      }
      if Uses(rest, Highest(id, channels)) {
        var i :| 0 <= i < |rest| && rest[i].id == Highest(id, channels);
        assert channels[i + 1].id == Highest(id, channels);
      } else if next == c.id {
        assert channels[0].id == next;
      }
    }
  }

  /** The id handed out is new exactly when every open channel's id is below the counter and the counter's value is
      not waiting in a listener's queue. Once the counter has wrapped past a live id it is handed out again. */
  lemma NextIdFresh(next: word, channels: seq<Channel>, queued: seq<Channel>)
    ensures !Uses(channels + queued, Highest(next, channels)) <==>
            (forall i :: 0 <= i < |channels| ==> channels[i].id < next) && !Uses(queued, next)
  {
    HighestBounds(next, channels);
    var h := Highest(next, channels);
    UsesConcat(channels, queued, h);
    if i :| 0 <= i < |channels| && channels[i].id >= next {
      assert h >= channels[i].id;
      if h == next { assert channels[i].id == h; }
      assert Uses(channels, h);
    }
  }

  lemma UsesConcat(a: seq<Channel>, b: seq<Channel>, id: word)
    ensures Uses(a + b, id) <==> Uses(a, id) || Uses(b, id)
  {
    if Uses(a, id) {
      var i :| 0 <= i < |a| && a[i].id == id;
      assert (a + b)[i].id == id;
    }
    if Uses(b, id) {
      var i :| 0 <= i < |b| && b[i].id == id;
      assert (a + b)[|a| + i].id == id;
    }
  }

  /** The first channel with the id, or null. */
  function Find(channels: seq<Channel>, id: word): Channel? {
    if channels == [] then null else if channels[0].id == id then channels[0] else Find(channels[1..], id)
  }

  ghost predicate Distinct(channels: seq<Channel>) {
    forall i, j :: 0 <= i < j < |channels| ==> channels[i].id != channels[j].id
  }

  lemma {:induction false} FindFinds(channels: seq<Channel>, id: word)
    ensures Find(channels, id) == null <==> !Uses(channels, id)
    ensures Find(channels, id) != null ==> Find(channels, id) in channels && Find(channels, id).id == id
    ensures Distinct(channels) ==>
              forall i :: 0 <= i < |channels| && channels[i].id == id ==> Find(channels, id) == channels[i]
  {
    if channels != [] {
      var rest := channels[1..];
      FindFinds(rest, id);
      if Uses(rest, id) {
        var i :| 0 <= i < |rest| && rest[i].id == id;
        assert channels[i + 1].id == id;
      }
      if Distinct(channels) {
        assert forall i, j :: 0 <= i < j < |rest| ==> rest[i] == channels[i + 1] && rest[j] == channels[j + 1];
        forall i | 0 <= i < |channels| && channels[i].id == id ensures Find(channels, id) == channels[i] {
          if i > 0 { assert rest[i - 1] == channels[i]; }
        }
      }
    }
  }

  lemma {:induction false} FindConcat(a: seq<Channel>, b: seq<Channel>, id: word)
    ensures Find(a + b, id) == if Find(a, id) != null then Find(a, id) else Find(b, id)
  {
    if a == [] {
      assert a + b == b;
    } else {
      assert (a + b)[1..] == a[1..] + b;
      FindConcat(a[1..], b, id);
    }
  }

  lemma UsesPermuted(a: seq<Channel>, b: seq<Channel>, id: word)
    requires multiset(a) == multiset(b) && Uses(a, id)
    ensures Uses(b, id)
  {
    var i :| 0 <= i < |a| && a[i].id == id;
    assert a[i] in multiset(a);
    assert a[i] in b;
  }

  /** Lookup does not depend on the order of distinctly numbered channels. */
  lemma FindPermuted(a: seq<Channel>, b: seq<Channel>, id: word)
    requires Distinct(a) && multiset(a) == multiset(b)
    ensures Find(a, id) == Find(b, id)
  {
    FindFinds(a, id);
    FindFinds(b, id);
    if Uses(b, id) {
      UsesPermuted(b, a, id);
      var c: Channel := Find(b, id);
      assert c in multiset(b);
      assert c in a;
    } else if Uses(a, id) {
      UsesPermuted(a, b, id);
    }
  }

  lemma DistinctPermuted(a: seq<Channel>, b: seq<Channel>)
    requires Distinct(a) && multiset(a) == multiset(b)
    ensures Distinct(b)
  {
    forall i, j | 0 <= i < j < |b| ensures b[i].id != b[j].id {
      if b[i].id == b[j].id {
        var c := b[i];
        FindFinds(a, c.id);
        assert b[i] in multiset(b) && b[j] in multiset(b);
        assert b[i] in a && b[j] in a;
        assert b[i] == b[j];
        assert b == b[..i] + [c] + b[i + 1..j] + [c] + b[j + 1..];
        assert multiset(a)[c] >= 2;
        DistinctOnce(a, c);
      }
    }
  }

  lemma {:induction false} DistinctOnce(a: seq<Channel>, c: Channel)
    requires Distinct(a)
    ensures multiset(a)[c] <= 1
  {
    if a != [] {
      assert a == [a[0]] + a[1..];
      DistinctOnce(a[1..], c);
      forall j | 1 <= j < |a| ensures a[j] != a[0] {}
      assert a[0] !in a[1..];
    }
  }

  function Flatten(queues: seq<seq<Channel>>): seq<Channel> {
    if queues == [] then [] else queues[0] + Flatten(queues[1..])
  }

  /** The pending channels, listener by listener. */
  function Queues(listeners: seq<Listener>): seq<seq<Channel>>
    reads listeners
  {
    seq(|listeners|, i requires 0 <= i < |listeners| reads listeners => listeners[i].queue)
  }

  function Queued(listeners: seq<Listener>): seq<Channel>
    reads listeners
  {
    Flatten(Queues(listeners))
  }

  ghost predicate DistinctListeners(listeners: seq<Listener>) {
    forall i, j :: 0 <= i < j < |listeners| ==> listeners[i] != listeners[j]
  }

  lemma SumAssoc<T>(a: multiset<T>, b: multiset<T>, c: multiset<T>)
    ensures (a + b) + c == a + (b + c)
  {}

  lemma SumCancels<T>(a: multiset<T>, b: multiset<T>, c: multiset<T>)
    requires a + c == b + c
    ensures a == b
  {
    forall x ensures a[x] == b[x] {
      assert (a + c)[x] == (b + c)[x];
    }
  }

  /** Changing one queue changes the whole by as much. */
  lemma {:induction false} FlattenChanges(queues: seq<seq<Channel>>, k: nat, q: seq<Channel>)
    requires k < |queues|
    ensures multiset(Flatten(queues[k := q])) + multiset(queues[k]) == multiset(Flatten(queues)) + multiset(q)
  {
    if k == 0 {
      assert queues[0 := q][1..] == queues[1..];
    } else {
      FlattenChanges(queues[1..], k - 1, q);
      assert queues[k := q][0] == queues[0] && queues[k := q][1..] == queues[1..][k - 1 := q];
      var a, b := Flatten(queues[1..]), Flatten(queues[1..][k - 1 := q]);
      assert multiset(Flatten(queues)) == multiset(queues[0]) + multiset(a);
      assert multiset(Flatten(queues[k := q])) == multiset(queues[0]) + multiset(b);
      SumAssoc(multiset(queues[0]), multiset(b), multiset(queues[k]));
      SumAssoc(multiset(queues[0]), multiset(a), multiset(q));
    }
  }

  /** Live ids are pairwise distinct and below the counter, and so is the id of the channel that is not yet linked. */
  ghost predicate Sound(all: seq<Channel>, next: nat, connecting: Channel?) {
    && Distinct(all)
    && (forall c :: c in all ==> c.id < next)
    && (connecting != null ==> connecting.id < next && Find(all, connecting.id) == null)
  }

  /** The counter's value is new, and handing it out keeps things sound. */
  lemma NextIsNew(all: seq<Channel>, next: word, connecting: Channel?)
    requires Sound(all, next, connecting)
    ensures !Uses(all, next) && Find(all, next) == null && Sound(all, next + 1, connecting)
  {
    FindFinds(all, next);
  }

  lemma BelowNext(all: seq<Channel>, next: nat, connecting: Channel?)
    requires Sound(all, next, connecting)
    ensures (forall c :: c in all ==> c.id < next) && (connecting != null ==> connecting.id < next)
  {}

  /** A channel not yet linked may be forgotten, and one with a new id may be remembered. */
  lemma Connecting(all: seq<Channel>, next: nat, c: Channel)
    ensures Sound(all, next, c) <==> Sound(all, next, null) && c.id < next && Find(all, c.id) == null
  {}

  class Session {
    var channels: seq<Channel>
    var listeners: seq<Listener>
    var nextChannel: word
    var connecting: Channel? // made for a connection and not yet linked: its confirmation has still to be sent

    constructor ()
      ensures Valid() && channels == [] && listeners == [] && nextChannel == 0 && connecting == null
    {
      channels, listeners, nextChannel, connecting := [], [], 0, null;
    }

    function All(): seq<Channel>
      reads this, listeners
    {
      channels + Queued(listeners)
    }

    ghost predicate Valid()
      reads this, listeners
    {
      && DistinctListeners(listeners)
      && Sound(All(), nextChannel, connecting)
      && (forall l :: l in listeners ==> |l.queue| <= l.queueSize)
    }

    method NextId() returns (id: word)
      modifies this`nextChannel
      ensures id == Highest(old(nextChannel), channels)
      ensures nextChannel == (id + 1) % WORDS
    {
      id := nextChannel;
      var i := 0;
      while i < |channels|
        invariant 0 <= i <= |channels|
        invariant Highest(nextChannel, channels) == Highest(id, channels[i..])
      {
        assert channels[i..][1..] == channels[i + 1..];
        if channels[i].id > id {
          id := channels[i].id;
        }
        i := i + 1;
      }
      nextChannel := (id + 1) % WORDS;
    }

    /** The owner of an id: open channels first, then every listener's queue. */
    method Locate(id: word) returns (channel: Channel?)
      ensures channel == Find(All(), id)
    {
      FindConcat(channels, Queued(listeners), id);
      channel := FindIn(channels, id);
      if channel != null {
        return;
      }
      var l := 0;
      ghost var queues := Queues(listeners);
      while l < |listeners|
        invariant 0 <= l <= |listeners|
        invariant Find(Flatten(queues), id) == Find(Flatten(queues[l..]), id)
      {
        assert queues[l..][1..] == queues[l + 1..];
        FindConcat(queues[l], Flatten(queues[l + 1..]), id);
        channel := FindIn(listeners[l].queue, id);
        if channel != null {
          return;
        }
        l := l + 1;
      }
      return null;
    }

    method FindIn(list: seq<Channel>, id: word) returns (channel: Channel?)
      ensures channel == Find(list, id)
    {
      var i := 0;
      while i < |list|
        invariant 0 <= i <= |list|
        invariant Find(list, id) == Find(list[i..], id)
      {
        if list[i].id == id {
          return list[i];
        }
        assert list[i..][1..] == list[i + 1..];
        i := i + 1;
      }
      return null;
    }

    /** A fresh number, while the counter has not run out. */
    method FreshId() returns (id: word)
      requires Valid() && nextChannel < WORDS - 1
      modifies this`nextChannel
      ensures id == old(nextChannel) && nextChannel == id + 1
      ensures Valid() && !Uses(All(), id) && Find(All(), id) == null
    {
      hide Find, Flatten, Highest, Sound;
      ghost var next := nextChannel;
      NextIsNew(All(), next, connecting);
      assert forall c :: c in All() ==> c.id < next by { BelowNext(All(), next, connecting); }
      UsesConcat(channels, Queued(listeners), next);
      assert forall i :: 0 <= i < |channels| ==> channels[i] in All();
      HighestBounds(next, channels);
      id := NextId();
    }

    /** The part of channel_open that makes a channel of our own. */
    method Open() returns (channel: Channel)
      requires Valid() && nextChannel < WORDS - 1
      modifies this
      ensures Valid() && fresh(channel) && listeners == old(listeners) && channels == old(channels) + [channel]
      ensures nextChannel == old(nextChannel) + 1 && connecting == old(connecting)
      ensures channel.id == old(nextChannel) && Find(All(), channel.id) == channel
      ensures forall id: word :: id != channel.id ==> Find(All(), id) == old(Find(All(), id))
    {
      hide Find, Flatten, Sound;
      ghost var before, queued := All(), Queued(listeners);
      BelowNext(before, nextChannel, connecting);
      var id := FreshId();
      channel := new Channel(id);
      channels := channels + [channel];
      assert Queued(listeners) == queued;
      assert multiset(channels + queued) == multiset(before + [channel]);
      AppendedSound(before, channel, All(), nextChannel, connecting);
    }

    /** packet_queue_listener, once it knows which listener, if any, the connection is for. The channel gets its id at
        the first call and is linked when the confirmation has gone out; in between, calls may end with Blocked, and
        anything else may happen to the session. */
    method QueueConnection(l: Listener?, o: SendOutcome) returns (answer: Answer)
      requires Valid() && (l != null ==> l in listeners)
      requires connecting == null ==> nextChannel < WORDS - 1
      modifies this`nextChannel, this`connecting, listeners
      ensures Valid() && channels == old(channels) && listeners == old(listeners)
      ensures answer == Refused <==> l == null || (old(connecting) == null && old(l.Full()))
      ensures answer != Refused ==> answer == match o case Sent => Linked case WouldBlock => Blocked case Failed => Lost
      ensures nextChannel == old(nextChannel) + if answer != Refused && old(connecting) == null then 1 else 0
      ensures connecting != null <==> answer == Blocked
      ensures answer == Blocked ==> if old(connecting) != null then connecting == old(connecting)
                                    else fresh(connecting) && connecting.id == old(nextChannel)
      ensures answer != Linked ==> unchanged(listeners)
      ensures answer == Linked ==> old(l.queue) < l.queue && |l.queue| == |old(l.queue)| + 1
                                   && forall m :: m in listeners && m != l ==> unchanged(m)
      ensures answer == Linked ==>
                var c := l.queue[|l.queue| - 1];
                && (if old(connecting) != null then c == old(connecting) else fresh(c) && c.id == old(nextChannel))
                && Find(All(), c.id) == c && (var id := c.id; old(Find(All(), id)) == null)
                && forall id: word :: id != c.id ==> Find(All(), id) == old(Find(All(), id))
    {
      hide Find, Flatten, Sound;
      if connecting != null {
        Connecting(All(), nextChannel, connecting);
      }
      if l == null {
        connecting := null; // the connection is refused
        return Refused;
      }
      if connecting == null {
        if l.maxSize != 0 && l.maxSize <= l.queueSize {
          return Refused;
        }
        Connect();
        Connecting(All(), nextChannel, connecting);
      }
      match o {
        case WouldBlock =>
          return Blocked;
        case Failed =>
          connecting := null;
          return Lost;
        case Sent =>
          var c: Channel := connecting;
          connecting := null;
          Link(l, c);
          return Linked;
      }
    }

    method Connect()
      requires Valid() && nextChannel < WORDS - 1 && connecting == null
      modifies this`nextChannel, this`connecting
      ensures Valid() && nextChannel == old(nextChannel) + 1
      ensures connecting != null && fresh(connecting) && connecting.id == old(nextChannel)
    {
      hide Find, Flatten, Sound;
      var id := FreshId();
      connecting := new Channel(id);
      Connecting(All(), nextChannel, connecting);
    }

    /** Link a channel into the end of a listener's queue. */
    method Link(l: Listener, channel: Channel)
      requires Valid() && l in listeners && channel.id < nextChannel && connecting == null
      requires Find(All(), channel.id) == null
      modifies l
      ensures Valid() && l.queue == old(l.queue) + [channel] && l.queueSize == old(l.queueSize) + 1
      ensures Find(All(), channel.id) == channel
      ensures forall id: word :: id != channel.id ==> Find(All(), id) == old(Find(All(), id))
    {
      hide Find, Flatten, Sound;
      ghost var before, queues := All(), Queues(listeners);
      ghost var k :| 0 <= k < |listeners| && listeners[k] == l;
      l.queue := l.queue + [channel];
      l.queueSize := l.queueSize + 1;
      assert Queues(listeners) == queues[k := queues[k] + [channel]];
      FlattenChanges(queues, k, queues[k] + [channel]);
      AddedToQueue(channels, Flatten(queues), queues[k], channel, Queued(listeners));
      AppendedSound(before, channel, All(), nextChannel, connecting);
    }

    /** channel_forward_accept: the oldest pending channel moves to the session's list; no lookup changes. */
    method ForwardAccept(l: Listener) returns (channel: Channel?)
      requires Valid() && l in listeners
      modifies this`channels, l
      ensures Valid()
      ensures l.queueSize == old(l.queueSize) - (if old(l.queue) == [] then 0 else 1)
      ensures if old(l.queue) == [] then channel == null && channels == old(channels) && l.queue == []
              else channel == old(l.queue)[0] && channels == old(channels) + [channel] && l.queue == old(l.queue)[1..]
      ensures multiset(All()) == old(multiset(All()))
      ensures forall id: word :: Find(All(), id) == old(Find(All(), id))
    {
      if |l.queue| == 0 {
        return null;
      }
      channel := MoveFirst(l);
    }

    method MoveFirst(l: Listener) returns (channel: Channel)
      requires Valid() && l in listeners && l.queue != []
      modifies this`channels, l
      ensures Valid() && l.queueSize == old(l.queueSize) - 1 && channel == old(l.queue)[0]
      ensures channels == old(channels) + [channel] && l.queue == old(l.queue)[1..]
      ensures multiset(All()) == old(multiset(All()))
      ensures forall id: word :: Find(All(), id) == old(Find(All(), id))
    {
      hide Find, Flatten, Sound;
      ghost var before, queues := All(), Queues(listeners);
      ghost var k :| 0 <= k < |listeners| && listeners[k] == l;
      channel := l.queue[0];
      l.queue := l.queue[1..];
      l.queueSize := l.queueSize - 1;
      channels := channels + [channel];
      assert Queues(listeners) == queues[k := queues[k][1..]];
      FlattenChanges(queues, k, queues[k][1..]);
      MovedFromQueue(old(channels), Flatten(queues), queues[k], Queued(listeners));
      MovedSound(before, All(), nextChannel, connecting);
    }

    /** The end of forward_listen: a listener with nothing pending joins the list. */
    method AddListener(maxSize: nat) returns (l: Listener)
      requires Valid()
      modifies this`listeners
      ensures Valid() && fresh(l) && listeners == old(listeners) + [l] && l.queue == [] && l.maxSize == maxSize
      ensures All() == old(All())
    {
      hide Find, Flatten, Sound;
      ghost var queues := Queues(listeners);
      l := new Listener(maxSize);
      listeners := listeners + [l];
      assert Queues(listeners) == queues + [[]];
      FlattenSnoc(queues, []);
      Empty(Flatten(queues));
    }

    /** The part of channel_free that takes the channel off the list it is on. */
    method Unlink(channel: Channel)
      requires Valid() && channel in All()
      modifies this`channels, listeners
      ensures Valid() && Find(All(), channel.id) == null
      ensures forall id: word :: id != channel.id ==> Find(All(), id) == old(Find(All(), id))
    {
      if channel in channels {
        UnlinkOpen(channel);
      } else {
        QueuedSomewhere(listeners, channel);
        var l :| l in listeners && channel in l.queue;
        UnlinkPending(l, channel);
      }
    }

    method UnlinkOpen(channel: Channel)
      requires Valid() && channel in channels
      modifies this`channels
      ensures Valid() && Find(All(), channel.id) == null
      ensures forall id: word :: id != channel.id ==> Find(All(), id) == old(Find(All(), id))
    {
      hide Find, Flatten, Sound;
      ghost var before, queued := All(), Queued(listeners);
      var k :| 0 <= k < |channels| && channels[k] == channel;
      WithoutOne(channels, queued, k);
      channels := channels[..k] + channels[k + 1..];
      assert Queued(listeners) == queued;
      RemovedSound(before, channel, All(), nextChannel, connecting);
    }

    /** A pending channel is unlinked; the listener's count is left as it is. */
    method UnlinkPending(l: Listener, channel: Channel)
      requires Valid() && l in listeners && channel in l.queue
      modifies l`queue
      ensures Valid() && Find(All(), channel.id) == null
      ensures exists i | 0 <= i < |old(l.queue)| ::
                old(l.queue)[i] == channel && l.queue == old(l.queue)[..i] + old(l.queue)[i + 1..]
      ensures forall id: word :: id != channel.id ==> Find(All(), id) == old(Find(All(), id))
    {
      hide *;
      var i :| 0 <= i < |l.queue| && l.queue[i] == channel;
      UnlinkAt(l, i);
    }

    method UnlinkAt(l: Listener, i: nat)
      requires Valid() && l in listeners && i < |l.queue|
      modifies l`queue
      ensures Valid() && l.queue == old(l.queue)[..i] + old(l.queue)[i + 1..]
      ensures Find(All(), old(l.queue)[i].id) == null
      ensures forall id: word :: id != old(l.queue)[i].id ==> Find(All(), id) == old(Find(All(), id))
    {
      hide Find, Flatten, Sound;
      ghost var before, queues := All(), Queues(listeners);
      ghost var k :| 0 <= k < |listeners| && listeners[k] == l;
      ghost var q := l.queue;
      l.queue := l.queue[..i] + l.queue[i + 1..];
      assert Queues(listeners) == queues[k := l.queue];
      FlattenChanges(queues, k, l.queue);
      TakenFromQueue(channels, Flatten(queues), q, i, Queued(listeners));
      RemovedSound(before, q[i], All(), nextChannel, connecting);
    }

    method UnlinkOldest(l: Listener)
      requires Valid() && l in listeners && l.queue != []
      modifies l`queue
      ensures Valid() && l.queue == old(l.queue)[1..]
      ensures Find(All(), old(l.queue)[0].id) == null
      ensures forall id: word :: id != old(l.queue)[0].id ==> Find(All(), id) == old(Find(All(), id))
    {
      hide *;
      assert l.queue[..0] + l.queue[0 + 1..] == l.queue[1..];
      UnlinkAt(l, 0);
    }

    /** The end of forward_cancel: the pending channels are freed one after the other, of which the first few do not
        block; when none is left the listener goes as well. */
    method CancelListener(l: Listener, unblocked: nat) returns (done: bool)
      requires Valid() && l in listeners
      modifies this`listeners, l`queue
      ensures Valid() && (done <==> |old(l.queue)| <= unblocked)
      ensures var gone := old(l.queue)[..if done then |old(l.queue)| else unblocked];
              && l.queue == old(l.queue)[|gone|..]
              && forall id: word :: Find(All(), id) == if Uses(gone, id) then null else old(Find(All(), id))
      ensures if done then l !in listeners && (forall m :: m in old(listeners) && m != l ==> m in listeners)
              else listeners == old(listeners)
    {
      hide Find, Flatten, Uses;
      ghost var q := l.queue;
      var freed := 0;
      assert q[..0] == [] && q[0..] == q;
      UsesNone();
      while l.queue != []
        invariant Valid() && listeners == old(listeners)
        invariant 0 <= freed <= |q| && freed <= unblocked && l.queue == q[freed..]
        invariant forall id: word :: Find(All(), id) == if Uses(q[..freed], id) then null else old(Find(All(), id))
        decreases |l.queue|
      {
        if freed == unblocked {
          return false;
        }
        UsesSnoc(q, freed);
        UnlinkOldest(l);
        freed := freed + 1;
      }
      assert q[..freed] == q[..|q|];
      RemoveListener(l);
      done := true;
    }

    method RemoveListener(l: Listener)
      requires Valid() && l in listeners && l.queue == []
      modifies this`listeners
      ensures Valid() && All() == old(All())
      ensures l !in listeners && forall m :: m in old(listeners) && m != l ==> m in listeners
    {
      hide Find, Flatten, Sound;
      ghost var queues := Queues(listeners);
      var k :| 0 <= k < |listeners| && listeners[k] == l;
      listeners := listeners[..k] + listeners[k + 1..];
      assert Queues(listeners) == queues[..k] + queues[k + 1..];
      FlattenWithout(queues, k);
    }
  }

  lemma {:induction false} FlattenSnoc(queues: seq<seq<Channel>>, q: seq<Channel>)
    ensures Flatten(queues + [q]) == Flatten(queues) + q
  {
    if queues == [] {
      assert Flatten([q]) == q + Flatten([q][1..]);
      Empty(q);
    } else {
      Uncons(queues, q);
      FlattenSnoc(queues[1..], q);
      assert (queues + [q])[1..] == queues[1..] + [q];
      Assoc(queues[0], Flatten(queues[1..]), q);
    }
  }

  lemma {:induction false} FlattenWithout(queues: seq<seq<Channel>>, k: nat)
    requires k < |queues| && queues[k] == []
    ensures Flatten(queues[..k] + queues[k + 1..]) == Flatten(queues)
  {
    if k == 0 {
      assert queues[..0] + queues[1..] == queues[1..];
      Empty(Flatten(queues[1..]));
    } else {
      FlattenWithout(queues[1..], k - 1);
      assert (queues[..k] + queues[k + 1..])[1..] == queues[1..][..k - 1] + queues[1..][k..];
    }
  }

  lemma {:induction false} InFlatten(queues: seq<seq<Channel>>, c: Channel)
    requires c in Flatten(queues)
    ensures exists k :: 0 <= k < |queues| && c in queues[k]
  {
    if c !in queues[0] {
      InFlatten(queues[1..], c);
      var k :| 0 <= k < |queues[1..]| && c in queues[1..][k];
      assert c in queues[k + 1];
    }
  }

  lemma QueuedSomewhere(listeners: seq<Listener>, c: Channel)
    requires c in Queued(listeners)
    ensures exists l :: l in listeners && c in l.queue
  {
    InFlatten(Queues(listeners), c);
    var k :| 0 <= k < |Queues(listeners)| && c in Queues(listeners)[k];
    assert c in listeners[k].queue;
  }

  lemma UsesSnoc(q: seq<Channel>, i: nat)
    requires i < |q|
    ensures forall id: word :: Uses(q[..i + 1], id) <==> Uses(q[..i], id) || q[i].id == id
  {
    assert q[..i + 1] == q[..i] + [q[i]];
    forall id: word
      ensures Uses(q[..i + 1], id) <==> Uses(q[..i], id) || q[i].id == id
    {
      UsesConcat(q[..i], [q[i]], id);
      assert [q[i]][0] == q[i];
    }
  }

  lemma TakenFromQueue(open: seq<Channel>, queued: seq<Channel>, q: seq<Channel>, i: nat, queued': seq<Channel>)
    requires i < |q| && multiset(queued') + multiset(q) == multiset(queued) + multiset(q[..i] + q[i + 1..])
    ensures multiset(open + queued) == multiset(open + queued' + [q[i]])
  {
    var rest := q[..i] + q[i + 1..];
    assert q == q[..i] + [q[i]] + q[i + 1..];
    assert multiset(q) == multiset{q[i]} + multiset(rest);
    SumAssoc(multiset(queued'), multiset{q[i]}, multiset(rest));
    SumCancels(multiset(queued') + multiset{q[i]}, multiset(queued), multiset(rest));
  }

  lemma UsesNone()
    ensures forall id: word :: !Uses([], id)
  {}

  /** Taking a channel out, wherever it was. */
  lemma Removed(before: seq<Channel>, c: Channel, after: seq<Channel>)
    requires Distinct(before) && multiset(before) == multiset(after + [c])
    ensures Distinct(after) && Find(after, c.id) == null
    ensures forall id: word :: id != c.id ==> Find(after, id) == Find(before, id)
    ensures forall d :: d in after ==> d in before
  {
    var all := after + [c];
    Moved(before, all);
    assert forall i | 0 <= i < |after| :: all[i] == after[i];
    assert all[|after|] == c;
    FindFinds(after, c.id);
    forall id: word | id != c.id
      ensures Find(after, id) == Find(before, id)
    {
      FindConcat(after, [c], id);
    }
  }

  lemma RemovedSound(before: seq<Channel>, c: Channel, after: seq<Channel>, next: nat, connecting: Channel?)
    requires Sound(before, next, connecting) && multiset(before) == multiset(after + [c])
    ensures Sound(after, next, connecting) && Find(after, c.id) == null
    ensures forall id: word :: id != c.id ==> Find(after, id) == Find(before, id)
  {
    Removed(before, c, after);
  }

  lemma WithoutOne(a: seq<Channel>, b: seq<Channel>, k: nat)
    requires k < |a|
    ensures multiset(a + b) == multiset(a[..k] + a[k + 1..] + b + [a[k]])
  {
    assert a == a[..k] + [a[k]] + a[k + 1..];
  }

  lemma AddedToQueue(open: seq<Channel>, queued: seq<Channel>, q: seq<Channel>, c: Channel, queued': seq<Channel>)
    requires multiset(queued') + multiset(q) == multiset(queued) + multiset(q + [c])
    ensures multiset(open + queued') == multiset(open + queued + [c])
  {
    assert multiset(q + [c]) == multiset(q) + multiset{c};
    SumAssoc(multiset(queued), multiset{c}, multiset(q));
    SumCancels(multiset(queued'), multiset(queued) + multiset{c}, multiset(q));
  }

  lemma MovedFromQueue(open: seq<Channel>, queued: seq<Channel>, q: seq<Channel>, queued': seq<Channel>)
    requires q != [] && multiset(queued') + multiset(q) == multiset(queued) + multiset(q[1..])
    ensures multiset(open + [q[0]] + queued') == multiset(open + queued)
  {
    assert q == [q[0]] + q[1..];
    assert multiset(q) == multiset{q[0]} + multiset(q[1..]);
    SumAssoc(multiset(queued'), multiset{q[0]}, multiset(q[1..]));
    SumCancels(multiset(queued') + multiset{q[0]}, multiset(queued), multiset(q[1..]));
  }

  /** The same channels in another order. */
  lemma Moved(before: seq<Channel>, after: seq<Channel>)
    requires Distinct(before) && multiset(before) == multiset(after)
    ensures Distinct(after) && (forall c :: c in after ==> c in before)
    ensures forall id: word :: Find(after, id) == Find(before, id)
  {
    DistinctPermuted(before, after);
    SameMembers(before, after);
    forall id: word ensures Find(after, id) == Find(before, id) {
      FindPermuted(before, after, id);
    }
  }

  lemma SameMembers(a: seq<Channel>, b: seq<Channel>)
    requires multiset(a) == multiset(b)
    ensures forall c :: c in b ==> c in a
  {
    forall c | c in b ensures c in a {
      assert c in multiset(b);
      assert c in multiset(a);
    }
  }

  /** Adding a channel with an unused number, wherever it is put. */
  lemma Appended(before: seq<Channel>, c: Channel, after: seq<Channel>)
    requires Distinct(before) && !Uses(before, c.id)
    requires multiset(after) == multiset(before + [c])
    ensures Distinct(after) && Find(after, c.id) == c
    ensures forall id: word :: id != c.id ==> Find(after, id) == Find(before, id)
    ensures forall d :: d in after ==> d in before || d == c
  {
    var all := before + [c];
    DistinctPermuted(all, after);
    SameMembers(all, after);
    forall id: word ensures Find(after, id) == if id == c.id then c else Find(before, id) {
      FindPermuted(all, after, id);
      FindConcat(before, [c], id);
      FindFinds(before, c.id);
    }
  }

  lemma AppendedSound(before: seq<Channel>, c: Channel, after: seq<Channel>, next: nat, connecting: Channel?)
    requires Sound(before, next, connecting) && Find(before, c.id) == null && c.id < next
    requires multiset(after) == multiset(before + [c]) && (connecting != null ==> connecting.id != c.id)
    ensures Sound(after, next, connecting) && Find(after, c.id) == c
    ensures forall id: word :: id != c.id ==> Find(after, id) == Find(before, id)
  {
    FindFinds(before, c.id);
    Appended(before, c, after);
  }

  lemma MovedSound(before: seq<Channel>, after: seq<Channel>, next: nat, connecting: Channel?)
    requires Sound(before, next, connecting) && multiset(before) == multiset(after)
    ensures Sound(after, next, connecting)
    ensures forall id: word :: Find(after, id) == Find(before, id)
  {
    Moved(before, after);
  }
}
