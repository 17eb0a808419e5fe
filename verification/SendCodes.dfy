/** What write and close report and put on the wire, outcome by outcome. */
module SendCodes {
  import opened Sequences
  import opened Words
  import opened ReceiveWindow
  import opened Sending
  import opened SendCredit
  import opened CloseWait

  // write

  /** n is the least of the four: what the caller has, the largest message, the window and the peer's packet size. */
  predicate IsLeast(n: nat, len: nat, window: nat, packetSize: nat) {
    && n <= len && n <= 32700 && n <= window && n <= packetSize
    && (n == len || n == 32700 || n == window || n == packetSize)
  }

  /** A new write for which the peer has given credit. */
  predicate Begins(s: SendState, d: Drained) {
    s.writing.NoWrite? && !s.close && !s.eof && (d.rc >= 0 || d.rc == EAGAIN) && s.window + Total(d.adjusts) > 0
  }

  /** A new write that goes out carries and returns exactly as much as all four limits allow. */
  lemma WriteSendsLeast(s: SendState, stream: word, buf: seq<byte>, d: Drained, error: int, n: nat)
    requires Begins(s, d) && s.window + Total(d.adjusts) < WORDS
    requires IsLeast(n, |buf|, s.window + Total(d.adjusts), s.packetSize)
    ensures var r := Write(s, stream, buf, d, Sent, error);
            && r.rc == n
            && r.s == s.(window := s.window + Total(d.adjusts) - n, trace := s.trace + [SentData(stream, buf[..n])])
  {
    DrainAdds(s.window, d.adjusts);
  }

  /** One that would block says EAGAIN, and repeated with a buffer that starts the same it sends and returns just that
      much, whatever has come in meanwhile. */
  lemma BlockedWriteResumes(s: SendState, stream: word, buf: seq<byte>, d: Drained, error: int, n: nat,
                            adjusts: word, stream': word, more: seq<byte>, d': Drained, error': int)
    requires Begins(s, d) && s.window + Total(d.adjusts) < WORDS
    requires IsLeast(n, |buf|, s.window + Total(d.adjusts), s.packetSize)
    requires s.window + Total(d.adjusts) + adjusts < WORDS && n <= |more| && more[..n] == buf[..n]
    ensures var r := Write(s, stream, buf, d, WouldBlock, error);
            var w := s.window + Total(d.adjusts);
            && r.rc == EAGAIN && r.s == s.(window := w, writing := Built(stream, n))
            && Write(r.s.(window := w + adjusts), stream', more, d', Sent, error')
               == Result(s.(window := w + adjusts - n, trace := s.trace + [SentData(stream, buf[..n])]), n)
  {
    DrainAdds(s.window, d.adjusts);
  }

  /** A send that fails is reported, the message is dropped and nothing has gone out. */
  lemma FailedWrite(s: SendState, stream: word, buf: seq<byte>, d: Drained, error: int)
    requires s.writing.Built? && s.writing.size <= |buf|
    ensures Write(s, stream, buf, d, Failed, error) == Result(s.(writing := NoWrite), error)
  {}

  /** A new write after close or EOF is refused, close first, and changes nothing. */
  lemma RefusedWrite(s: SendState, stream: word, buf: seq<byte>, d: Drained, o: SendOutcome, error: int)
    requires s.writing.NoWrite? && (s.close || s.eof)
    ensures Write(s, stream, buf, d, o, error) == Result(s, if s.close then -26 else -27)
  {}

  /** Without credit, or when the incoming flow fails, nothing is sent and no message is built. */
  lemma WriteWithoutCredit(s: SendState, stream: word, buf: seq<byte>, d: Drained, o: SendOutcome, error: int)
    requires s.writing.NoWrite? && !s.close && !s.eof && s.window + Total(d.adjusts) < WORDS
    requires (d.rc < 0 && d.rc != EAGAIN) || s.window + Total(d.adjusts) == 0
    ensures Write(s, stream, buf, d, o, error)
         == Result(s.(window := s.window + Total(d.adjusts)), if d.rc < 0 then d.rc else 0)
  {
    DrainAdds(s.window, d.adjusts);
  }

  // close

  function EofEvents(s: SendState, o: SendOutcome): seq<Event> {
    if s.eof || o.WouldBlock? then [] else if o.Sent? then [SentEof] else [FailedEof]
  }

  function CloseEvents(s: SendState, e: CloseEnv): seq<Event> {
    if s.closing.CloseSent? || (!s.eof && e.eof.WouldBlock?) || e.close.WouldBlock? then []
    else if e.close.Sent? then [SentClose] else [FailedClose]
  }

  /** A close tries EOF unless it has been sent, then CLOSE unless it has been sent, and calls back once closed. */
  lemma CloseSends(s: SendState, e: CloseEnv)
    requires !s.close && PossibleClose(e)
    ensures var s' := Close(s, e).s;
            s'.trace == s.trace + EofEvents(s, e.eof) + CloseEvents(s, e)
                        + if s'.close && s.hasCallback then [CloseCallback] else []
  {
    hide Await;
    var a := if s.eof then Result(s, 0) else SendEof(s, e.eof);
    Empty(s.trace);
    Empty(a.s.trace);
    if a.rc != EAGAIN {
      var b := CloseSend(a.s, a.rc, e);
      Empty(b.s.trace);
      AwaitKeeps(b.s, b.rc, e.connected, e.polls);
    }
  }

  function NotAbove(rc: int): int { if rc >= 0 then 0 else rc }

  /** What the wait reports: the code it starts with when there is nothing to wait for, else that of its last read. */
  function WaitCode(s: SendState, rc: int, e: CloseEnv): int {
    var i := FirstEnd(e.polls);
    if s.remoteClose || rc != 0 || !e.connected then rc
    else if i == |e.polls| then EAGAIN
    else e.polls[i].rc
  }

  lemma AwaitCode(s: SendState, rc: int, e: CloseEnv)
    ensures Await(s, rc, e.connected, e.polls).rc == WaitCode(s, rc, e)
  {
    if !s.remoteClose && rc == 0 && e.connected {
      AwaitEnds(s, e.polls);
    }
  }

  /** The code of a close: EAGAIN for a send that would block, the error of a CLOSE that failed, and otherwise what the
      wait reports, which starts with the failure of EOF only if CLOSE had gone out before. */
  lemma CloseCode(s: SendState, e: CloseEnv)
    requires !s.close && PossibleClose(e)
    ensures Close(s, e).rc ==
            if !s.eof && e.eof.WouldBlock? then EAGAIN
            else if s.closing.CloseSent? then NotAbove(WaitCode(s, if s.eof || e.eof.Sent? then 0 else -7, e))
            else match e.close
                 case WouldBlock => EAGAIN
                 case Failed => e.closeError
                 case Sent => NotAbove(WaitCode(s, 0, e))
  {
    hide Await, FirstEnd;
    var a := if s.eof then Result(s, 0) else SendEof(s, e.eof);
    if a.rc != EAGAIN {
      var b := CloseSend(a.s, a.rc, e);
      AwaitCode(b.s, b.rc, e);
    }
  }

  /** A close of a channel that is closed already does nothing. */
  lemma ClosedAlready(s: SendState, e: CloseEnv)
    requires s.close
    ensures Close(s, e) == Result(s.(closing := CloseIdle), 0)
  {}
}
