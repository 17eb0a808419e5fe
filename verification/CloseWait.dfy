/** Waiting for the peer's CLOSE: exactly when close gives up before it has come. */
module CloseWait {
  import opened Words
  import opened ReceiveWindow
  import opened Sending
  import opened SendCredit

  /** After this read the loop looks no further. */
  predicate EndsWait(p: Poll) { p.closeArrived || p.rc != 0 || p.disconnected }

  /** The position of the first read that ends the wait, or the number of reads. */
  function FirstEnd(polls: seq<Poll>): (i: nat)
    ensures i <= |polls|
    ensures forall j | 0 <= j < i :: !EndsWait(polls[j])
    ensures i < |polls| ==> EndsWait(polls[i])
  {
    if polls == [] || EndsWait(polls[0]) then 0 else 1 + FirstEnd(polls[1..])
  }

  /** The wait is decided by its first read that brings CLOSE, a code or the end of the connection. */
  lemma {:induction false} AwaitEnds(s: SendState, polls: seq<Poll>)
    requires !s.remoteClose
    ensures var i := FirstEnd(polls);
            Await(s, 0, true, polls) ==
            if i == |polls| then Result(s, EAGAIN)
            else Result(s.(remoteClose := polls[i].closeArrived), polls[i].rc)
    decreases |polls|
  {
    if polls != [] && !EndsWait(polls[0]) {
      assert s.(remoteClose := false) == s;
      AwaitEnds(s, polls[1..]);
    }
  }

  /** The wait ends without the peer's CLOSE, and not to be taken up again: the socket is gone already, or the first
      read that ends it brings some other message, an error or a disconnection. */
  predicate LeavesWait(e: CloseEnv) {
    var i := FirstEnd(e.polls);
    !e.connected || (i < |e.polls| && !e.polls[i].closeArrived && e.polls[i].rc != EAGAIN)
  }

  /** The call does not get stuck before the wait, and skips it or leaves it. With CLOSE sent by an earlier call, an EOF
      that now fails hard skips it; so does a CLOSE that fails. */
  predicate GivesUp(s: SendState, e: CloseEnv) {
    && !(!s.eof && e.eof.WouldBlock?)
    && if s.closing.CloseSent? then (!s.eof && e.eof.Failed?) || LeavesWait(e)
       else e.close.Failed? || (e.close.Sent? && LeavesWait(e))
  }

  lemma WaitLeft(s: SendState, e: CloseEnv)
    requires !s.remoteClose
    ensures var r := Await(s, 0, e.connected, e.polls); r.rc != EAGAIN && !r.s.remoteClose <==> LeavesWait(e)
  {
    if e.connected {
      AwaitEnds(s, e.polls);
    }
  }

  /** A call of close marks the channel closed although the peer's CLOSE has not come exactly when it gives up. */
  lemma ClosedWithoutPeer(s: SendState, e: CloseEnv)
    requires !s.close && !s.remoteClose && PossibleClose(e)
    ensures var r := Close(s, e); r.s.close && !r.s.remoteClose <==> GivesUp(s, e)
  {
    hide Await, LeavesWait;
    var a := if s.eof then Result(s, 0) else SendEof(s, e.eof);
    if a.rc != EAGAIN {
      var b := CloseSend(a.s, a.rc, e);
      if b.s.closing.CloseSent? {
        WaitEnds(b.s, b.rc, e);
        WaitLeft(b.s, e);
      }
    }
  }

  lemma WaitEnds(s: SendState, rc: int, e: CloseEnv)
    ensures rc != 0 ==> Await(s, rc, e.connected, e.polls) == Result(s, rc)
    ensures var r := Await(s, rc, e.connected, e.polls); r.s == s.(remoteClose := r.s.remoteClose)
  {
    AwaitKeeps(s, rc, e.connected, e.polls);
  }

  /** An input that breaks the wait: any other message of the connection, whose type the read returns. */
  lemma OtherMessageEndsWait(s: SendState, kind: int)
    requires s.eof && !s.close && !s.remoteClose && s.closing.CloseSent? && kind > 0
    ensures var r := Close(s, CloseEnv(Sent, Sent, -1, true, [Poll(kind, false, false)]));
            r.rc == 0 && r.s.close && !r.s.remoteClose
  {
    AwaitEnds(s, [Poll(kind, false, false)]);
  }
}
