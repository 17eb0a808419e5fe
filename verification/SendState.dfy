/** The sending half of a channel on values: write, send_eof and close, each of which may have to be called again. */
module Sending {
  import opened Words
  import opened ReceiveWindow

  const CHANNEL_CLOSED: int := -26
  const CHANNEL_EOF_SENT: int := -27
  const MAX_CHUNK: nat := 32700

  /** What the transport has been made to do for this channel, in order. */
  datatype Event =
    | SentData(stream: word, payload: seq<byte>)
    | SentEof
    | FailedEof
    | SentClose
    | FailedClose
    | CloseCallback

  /** A data message built by write and not yet sent: its header and how much of the buffer it takes. */
  datatype Writing = NoWrite | Built(stream: word, size: nat)

  datatype Closing = CloseIdle | CloseCreated | CloseSent

  datatype SendState = SendState(
    window: word, packetSize: word, eof: bool, close: bool, remoteClose: bool, hasCallback: bool,
    writing: Writing, closing: Closing, trace: seq<Event>)

  /** What draining the incoming flow brings: window adjustments for this channel, and how it ends. */
  datatype Drained = Drained(adjusts: seq<word>, rc: int)

  function Drain(window: word, adjusts: seq<word>): word
    decreases |adjusts|
  {
    if adjusts == [] then window else Drain(Plus(window, adjusts[0]), adjusts[1..])
  }

  datatype Result = Result(s: SendState, rc: int)

  function Log(s: SendState, e: Event): SendState { s.(trace := s.trace + [e]) }

  /** How much of the buffer the next message may carry. */
  function Chunk(s: SendState, buflen: nat): nat {
    var n := if buflen > MAX_CHUNK then MAX_CHUNK else buflen;
    var n := if n > s.window then s.window else n;
    if n > s.packetSize then s.packetSize else n
  }

  /** The second half of write: send the message that has been built. */
  function SendBuilt(s: SendState, buf: seq<byte>, o: SendOutcome, error: int): Result
    requires s.writing.Built? && s.writing.size <= |buf|
  {
    match o
    case WouldBlock => Result(s, EAGAIN)
    case Failed => Result(s.(writing := NoWrite), error)
    case Sent =>
      var n := s.writing.size;
      Result(Log(s, SentData(s.writing.stream, buf[..n])).(window := Minus(s.window, n % WORDS), writing := NoWrite), n)
  }

  function Write(s: SendState, stream: word, buf: seq<byte>, d: Drained, o: SendOutcome, error: int): Result
    requires s.writing.Built? ==> s.writing.size <= |buf|
  {
    if s.writing.Built? then SendBuilt(s, buf, o, error)
    else if s.close then Result(s, CHANNEL_CLOSED)
    else if s.eof then Result(s, CHANNEL_EOF_SENT)
    else
      var s := s.(window := Drain(s.window, d.adjusts));
      if d.rc < 0 && d.rc != EAGAIN then Result(s, d.rc)
      else if s.window == 0 then Result(s, if d.rc == EAGAIN then EAGAIN else 0)
      else SendBuilt(s.(writing := Built(stream, Chunk(s, |buf|))), buf, o, error)
  }

  function SendEof(s: SendState, o: SendOutcome): Result {
    match o
    case WouldBlock => Result(s, EAGAIN)
    case Failed => Result(Log(s, FailedEof), SOCKET_SEND)
    case Sent => Result(Log(s, SentEof).(eof := true), 0)
  }

  /** One transport_read while waiting for the peer's CLOSE: its result, and whether the CLOSE came or the socket
      was found disconnected. When the list runs out the read would block. */
  datatype Poll = Poll(rc: int, closeArrived: bool, disconnected: bool)

  function Await(s: SendState, rc: int, connected: bool, polls: seq<Poll>): Result
    decreases |polls|
  {
    if s.remoteClose || rc != 0 || !connected then Result(s, rc)
    else if polls == [] then Result(s, EAGAIN)
    else
      var p := polls[0];
      Await(s.(remoteClose := s.remoteClose || p.closeArrived), p.rc, !p.disconnected, polls[1..])
  }

  /** The outcomes of one call of close, in the order they are needed. */
  datatype CloseEnv = CloseEnv(eof: SendOutcome, close: SendOutcome, closeError: int, connected: bool, polls: seq<Poll>)

  predicate PossibleClose(e: CloseEnv) { e.closeError < 0 && e.closeError != EAGAIN }

  /** Sending CLOSE, unless an earlier call did. rc carries the result of sending EOF. */
  function CloseSend(s: SendState, rc: int, e: CloseEnv): Result {
    if s.closing.CloseSent? then Result(s, rc) else
      match e.close
      case WouldBlock => Result(s.(closing := CloseCreated), EAGAIN)
      case Failed => Result(Log(s, FailedClose).(closing := CloseCreated), e.closeError)
      case Sent => Result(Log(s, SentClose).(closing := CloseSent), 0)
  }

  function Finished(r: Result): Result {
    if r.rc == EAGAIN then r else
      var s := if r.s.hasCallback then Log(r.s, CloseCallback) else r.s;
      Result(s.(close := true, closing := CloseIdle), if r.rc >= 0 then 0 else r.rc)
  }

  function Close(s: SendState, e: CloseEnv): Result {
    if s.close then Result(s.(closing := CloseIdle), 0) else
      var a := if s.eof then Result(s, 0) else SendEof(s, e.eof);
      if a.rc == EAGAIN then a else
        var b := CloseSend(a.s, a.rc, e);
        if e.close.WouldBlock? && !a.s.closing.CloseSent? then b
        else Finished(if b.s.closing.CloseSent? then Await(b.s, b.rc, e.connected, e.polls) else b)
  }

  /** Any use of the channel: the three calls, and window adjustments or a CLOSE arriving through other calls. */
  datatype Step =
    | WriteCall(stream: word, buf: seq<byte>, d: Drained, o: SendOutcome, error: int)
    | EofCall(o: SendOutcome)
    | CloseCall(e: CloseEnv)
    | AdjustArrives(amount: word)
    | CloseArrives

  /** A caller may call write again only with the buffer it was told to retry with; how a failed send of data is
      reported does not matter. */
  predicate Allowed(s: SendState, step: Step) {
    match step
    case WriteCall(_, buf, _, _, _) => s.writing.Built? ==> s.writing.size <= |buf|
    case CloseCall(e) => PossibleClose(e)
    case _ => true
  }

  function Exec(s: SendState, step: Step): SendState
    requires Allowed(s, step)
  {
    match step
    case WriteCall(stream, buf, d, o, error) => Write(s, stream, buf, d, o, error).s
    case EofCall(o) => SendEof(s, o).s
    case CloseCall(e) => Close(s, e).s
    case AdjustArrives(amount) => s.(window := Plus(s.window, amount))
    case CloseArrives => s.(remoteClose := true)
  }

  ghost predicate AllAllowed(s: SendState, steps: seq<Step>)
    decreases |steps|
  {
    steps == [] || (Allowed(s, steps[0]) && AllAllowed(Exec(s, steps[0]), steps[1..]))
  }

  function ExecAll(s: SendState, steps: seq<Step>): SendState
    requires AllAllowed(s, steps)
    decreases |steps|
  {
    if steps == [] then s else ExecAll(Exec(s, steps[0]), steps[1..])
  }
}
