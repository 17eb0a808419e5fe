/** The sending operations as the C code runs them, on a channel object. */
module ChannelSend {
  import opened Words
  import opened ReceiveWindow
  import opened Sending
  import opened SendCredit

  class Sender {
    const packetSize: word
    const hasCallback: bool
    var windowSize: word
    var localEof: bool
    var localClose: bool
    var remoteClose: bool
    var writeState: Writing
    var closeState: Closing
    var trace: seq<Event>

    constructor (window: word, packetSize: word, hasCallback: bool)
      ensures Value() == SendState(window, packetSize, false, false, false, hasCallback, NoWrite, CloseIdle, [])
    {
      this.packetSize, this.hasCallback, windowSize := packetSize, hasCallback, window;
      localEof, localClose, remoteClose := false, false, false;
      writeState, closeState, trace := NoWrite, CloseIdle, [];
    }

    function Value(): SendState
      reads this
    {
      SendState(windowSize, packetSize, localEof, localClose, remoteClose, hasCallback, writeState, closeState, trace)
    }

    /** The transport_read loop, as far as it concerns this half of the channel. */
    method DrainIncoming(adjusts: seq<word>)
      modifies this
      ensures Value() == old(Value()).(window := Drain(old(windowSize), adjusts))
    {
      var i := 0;
      while i < |adjusts|
        invariant 0 <= i <= |adjusts|
        invariant Value() == old(Value()).(window := windowSize)
        invariant Drain(old(windowSize), adjusts) == Drain(windowSize, adjusts[i..])
      {
        assert adjusts[i..][1..] == adjusts[i + 1..];
        windowSize := Plus(windowSize, adjusts[i]);
        i := i + 1;
      }
    }

    method Write(stream: word, data: seq<byte>, d: Drained, o: SendOutcome, error: int) returns (rc: int)
      requires writeState.Built? ==> writeState.size <= |data|
      modifies this
      ensures Result(Value(), rc) == Sending.Write(old(Value()), stream, data, d, o, error)
    {
      var buflen := if |data| > MAX_CHUNK then MAX_CHUNK else |data|;
      if writeState.NoWrite? {
        if localClose {
          return CHANNEL_CLOSED;
        } else if localEof {
          return CHANNEL_EOF_SENT;
        }
        DrainIncoming(d.adjusts);
        if d.rc < 0 && d.rc != EAGAIN {
          return d.rc;
        }
        if windowSize == 0 {
          return if d.rc == EAGAIN then d.rc else 0;
        }
        var bufwrite := buflen;
        if bufwrite > windowSize {
          bufwrite := windowSize;
        }
        if bufwrite > packetSize {
          bufwrite := packetSize;
        }
        writeState := Built(stream, bufwrite);
      }
      match o {
        case WouldBlock =>
          return EAGAIN;
        case Failed =>
          writeState := NoWrite;
          return error;
        case Sent =>
          var wrote := writeState.size;
          trace := trace + [SentData(writeState.stream, data[..wrote])];
          windowSize := Minus(windowSize, wrote % WORDS);
          writeState := NoWrite;
          return wrote;
      }
    }

    method SendEof(o: SendOutcome) returns (rc: int)
      modifies this
      ensures Result(Value(), rc) == Sending.SendEof(old(Value()), o)
    {
      match o {
        case WouldBlock =>
          return EAGAIN;
        case Failed =>
          trace := trace + [FailedEof];
          return SOCKET_SEND;
        case Sent =>
          trace := trace + [SentEof];
      }
      localEof := true;
      return 0;
    }

    method Close(e: CloseEnv) returns (rc: int)
      requires PossibleClose(e)
      modifies this
      ensures Result(Value(), rc) == Sending.Close(old(Value()), e)
    {
      rc := 0;
      if localClose {
        closeState := CloseIdle;
        return 0;
      }
      if !localEof {
        rc := SendEof(e.eof);
        if rc != 0 && rc == EAGAIN {
          return rc;
        }
      }
      var waiting := closeState.CloseSent?;
      rc := SendCloseMessage(rc, e);
      if e.close.WouldBlock? && !waiting {
        return rc;
      }
      if closeState.CloseSent? {
        rc := WaitForClose(rc, e.connected, e.polls);
      }
      rc := MarkClosed(rc);
    }

    /** The part of close that builds CLOSE and sends it, unless an earlier call has. */
    method SendCloseMessage(rc0: int, e: CloseEnv) returns (rc: int)
      modifies this
      ensures Result(Value(), rc) == CloseSend(old(Value()), rc0, e)
    {
      rc := rc0;
      if closeState.CloseIdle? {
        closeState := CloseCreated;
      }
      if closeState.CloseCreated? {
        match e.close {
          case WouldBlock =>
            return EAGAIN;
          case Failed =>
            rc := e.closeError;
            trace := trace + [FailedClose];
          case Sent =>
            rc := 0;
            trace := trace + [SentClose];
            closeState := CloseSent;
        }
      }
    }

    /** The end of close. */
    method MarkClosed(rc0: int) returns (rc: int)
      modifies this
      ensures Result(Value(), rc) == Finished(Result(old(Value()), rc0))
    {
      rc := rc0;
      if rc != EAGAIN {
        localClose := true;
        if hasCallback {
          trace := trace + [CloseCallback];
        }
        closeState := CloseIdle;
      }
      return if rc >= 0 then 0 else rc;
    }

    /** Reads from the transport until the peer's CLOSE has come, a read ends with a code, or the socket is gone. */
    method WaitForClose(rc0: int, connected0: bool, polls: seq<Poll>) returns (rc: int)
      modifies this
      ensures Result(Value(), rc) == Await(old(Value()), rc0, connected0, polls)
    {
      rc := rc0;
      var connected, i := connected0, 0;
      while !remoteClose && rc == 0 && connected
        invariant 0 <= i <= |polls|
        invariant Value() == old(Value()).(remoteClose := remoteClose)
        invariant Await(old(Value()), rc0, connected0, polls) == Await(Value(), rc, connected, polls[i..])
        decreases |polls| - i
      {
        if i == |polls| {
          return EAGAIN;
        }
        assert polls[i..][1..] == polls[i + 1..];
        remoteClose := polls[i].closeArrived;
        rc, connected := polls[i].rc, !polls[i].disconnected;
        i := i + 1;
      }
    }
  }
}
