/** The peer's window is respected and paid for exactly, whatever the sends do. */
module SendCredit {
  import opened Words
  import opened ReceiveWindow
  import opened Sending

  function Total(amounts: seq<word>): nat {
    if amounts == [] then 0 else amounts[0] + Total(amounts[1..])
  }

  /** Payload bytes sent so far. */
  function DataTotal(trace: seq<Event>): nat {
    if trace == [] then 0 else
      DataTotal(trace[..|trace| - 1]) + if trace[|trace| - 1].SentData? then |trace[|trace| - 1].payload| else 0
  }

  lemma DataTotalSnoc(trace: seq<Event>, e: Event)
    ensures DataTotal(trace + [e]) == DataTotal(trace) + if e.SentData? then |e.payload| else 0
  {
    assert (trace + [e])[..|trace + [e]| - 1] == trace;
  }

  /** The credit a step brings from the peer. */
  function Gained(s: SendState, step: Step): nat {
    match step
    case WriteCall(_, _, d, _, _) => if s.writing.Built? || s.close || s.eof then 0 else Total(d.adjusts)
    case AdjustArrives(amount) => amount
    case _ => 0
  }

  /** The peer keeps the window below 2^32, as section 5.2 of RFC 4254 demands of it. */
  predicate Fits(s: SendState, step: Step) { s.window + Gained(s, step) < WORDS }

  /** A message waiting to be sent is within every limit, and so was every message sent. */
  ghost predicate WithinLimits(s: SendState) {
    && (s.writing.Built? ==>
          s.writing.size <= s.window && s.writing.size <= MAX_CHUNK && s.writing.size <= s.packetSize)
    && forall e :: e in s.trace && e.SentData? ==> |e.payload| <= MAX_CHUNK && |e.payload| <= s.packetSize
  }

  lemma {:induction false} DrainAdds(window: word, adjusts: seq<word>)
    requires window + Total(adjusts) < WORDS
    ensures Drain(window, adjusts) == window + Total(adjusts)
    decreases |adjusts|
  {
    if adjusts != [] { DrainAdds(Plus(window, adjusts[0]), adjusts[1..]); }
  }

  lemma SendBuiltPays(s: SendState, buf: seq<byte>, o: SendOutcome, error: int)
    requires WithinLimits(s) && s.writing.Built? && s.writing.size <= |buf|
    ensures var s' := SendBuilt(s, buf, o, error).s;
            WithinLimits(s') && s'.window + DataTotal(s'.trace) == s.window + DataTotal(s.trace)
  {
    if o.Sent? { DataTotalSnoc(s.trace, SentData(s.writing.stream, buf[..s.writing.size])); }
  }

  lemma WritePays(s: SendState, stream: word, buf: seq<byte>, d: Drained, o: SendOutcome, error: int)
    requires WithinLimits(s) && (s.writing.Built? ==> s.writing.size <= |buf|)
    requires Fits(s, WriteCall(stream, buf, d, o, error))
    ensures var s' := Write(s, stream, buf, d, o, error).s;
            && WithinLimits(s')
            && s'.window + DataTotal(s'.trace)
               == s.window + DataTotal(s.trace) + Gained(s, WriteCall(stream, buf, d, o, error))
  {
    hide DataTotal, Drain, Total;
    if s.writing.Built? {
      SendBuiltPays(s, buf, o, error);
    } else if !s.close && !s.eof {
      DrainAdds(s.window, d.adjusts);
      var s1 := s.(window := Drain(s.window, d.adjusts));
      SendBuiltPays(s1.(writing := Built(stream, Chunk(s1, |buf|))), buf, o, error);
    }
  }

  /** The step sends no data: it only adds other events. */
  ghost predicate Silent(s: SendState, s': SendState) {
    && s'.window == s.window && s'.packetSize == s.packetSize && s'.writing == s.writing
    && s.trace <= s'.trace
    && forall i :: |s.trace| <= i < |s'.trace| ==> !s'.trace[i].SentData?
  }

  lemma {:induction false} AwaitKeeps(s: SendState, rc: int, connected: bool, polls: seq<Poll>)
    ensures var s' := Await(s, rc, connected, polls).s; s' == s.(remoteClose := s'.remoteClose)
    decreases |polls|
  {
    if !s.remoteClose && rc == 0 && connected && polls != [] {
      var p := polls[0];
      AwaitKeeps(s.(remoteClose := p.closeArrived), p.rc, !p.disconnected, polls[1..]);
    }
  }

  lemma SilentThen(a: SendState, b: SendState, c: SendState)
    requires Silent(a, b) && Silent(b, c)
    ensures Silent(a, c)
  {}

  lemma SendEofIsSilent(s: SendState, o: SendOutcome)
    ensures Silent(s, SendEof(s, o).s)
  {}

  lemma CloseSendIsSilent(s: SendState, rc: int, e: CloseEnv)
    ensures Silent(s, CloseSend(s, rc, e).s)
  {}

  lemma FinishedIsSilent(r: Result)
    ensures Silent(r.s, Finished(r).s)
  {}

  lemma CloseIsSilent(s: SendState, e: CloseEnv)
    ensures Silent(s, Close(s, e).s)
  {
    if !s.close {
      var a := if s.eof then Result(s, 0) else SendEof(s, e.eof);
      SendEofIsSilent(s, e.eof);
      if a.rc != EAGAIN {
        var b := CloseSend(a.s, a.rc, e);
        CloseSendIsSilent(a.s, a.rc, e);
        SilentThen(s, a.s, b.s);
        var c := if b.s.closing.CloseSent? then Await(b.s, b.rc, e.connected, e.polls) else b;
        AwaitKeeps(b.s, b.rc, e.connected, e.polls);
        SilentThen(s, b.s, c.s);
        FinishedIsSilent(c);
        SilentThen(s, c.s, Finished(c).s);
      }
    }
  }

  lemma {:induction false} SilentTotal(t: seq<Event>, t': seq<Event>)
    requires t <= t' && forall i :: |t| <= i < |t'| ==> !t'[i].SentData?
    ensures DataTotal(t') == DataTotal(t)
    decreases |t'|
  {
    if |t'| > |t| { SilentTotal(t, t'[..|t'| - 1]); } else { assert t' == t; }
  }

  lemma SilentPays(s: SendState, s': SendState)
    requires Silent(s, s') && WithinLimits(s)
    ensures WithinLimits(s') && DataTotal(s'.trace) == DataTotal(s.trace)
  {
    SilentTotal(s.trace, s'.trace);
    forall e | e in s'.trace && e.SentData? ensures e in s.trace {
      var i :| 0 <= i < |s'.trace| && s'.trace[i] == e;
      assert s.trace[i] == e;
    }
  }

  /** Every step: what is spent comes out of the window, and only what the peer grants goes in. */
  lemma ExecPays(s: SendState, step: Step)
    requires WithinLimits(s) && Allowed(s, step) && Fits(s, step)
    ensures var s' := Exec(s, step);
            WithinLimits(s') && s'.window + DataTotal(s'.trace) == s.window + DataTotal(s.trace) + Gained(s, step)
  {
    match step
    case WriteCall(stream, buf, d, o, error) => WritePays(s, stream, buf, d, o, error);
    case EofCall(o) => SilentPays(s, SendEof(s, o).s);
    case CloseCall(e) =>
      CloseIsSilent(s, e);
      SilentPays(s, Close(s, e).s);
    case AdjustArrives(_) =>
    case CloseArrives =>
  }

  ghost predicate AllFit(s: SendState, steps: seq<Step>)
    requires AllAllowed(s, steps)
    decreases |steps|
  {
    steps == [] || (Fits(s, steps[0]) && AllFit(Exec(s, steps[0]), steps[1..]))
  }

  function AllGained(s: SendState, steps: seq<Step>): nat
    requires AllAllowed(s, steps)
    decreases |steps|
  {
    if steps == [] then 0 else Gained(s, steps[0]) + AllGained(Exec(s, steps[0]), steps[1..])
  }

  /** Over any run the bytes sent and the window left add up to what the peer offered and granted, so the window is
      never overdrawn; and no message exceeded 32700 bytes or the peer's packet size. */
  lemma {:induction false} RunsPay(s: SendState, steps: seq<Step>)
    requires WithinLimits(s) && AllAllowed(s, steps) && AllFit(s, steps)
    ensures var s' := ExecAll(s, steps);
            && WithinLimits(s')
            && s'.window + DataTotal(s'.trace) == s.window + DataTotal(s.trace) + AllGained(s, steps)
    decreases |steps|
  {
    if steps != [] {
      ExecPays(s, steps[0]);
      RunsPay(Exec(s, steps[0]), steps[1..]);
    }
  }
}

/** A caller that repeats a blocked write with the same arguments gets its data sent once and in order. */
module SendData {
  import opened Words
  import opened ReceiveWindow
  import opened Sending
  import opened SendCredit

  /** The bytes sent on one stream. */
  function Payloads(trace: seq<Event>, stream: word): seq<byte> {
    if trace == [] then [] else
      var e := trace[|trace| - 1];
      Payloads(trace[..|trace| - 1], stream) + if e.SentData? && e.stream == stream then e.payload else []
  }

  lemma PayloadsSnoc(trace: seq<Event>, e: Event, stream: word)
    ensures Payloads(trace + [e], stream) ==
            Payloads(trace, stream) + if e.SentData? && e.stream == stream then e.payload else []
  {
    assert (trace + [e])[..|trace + [e]| - 1] == trace;
  }

  /** One writer: the data it has to send, how far it has got, and the state of the channel. */
  datatype Writer = Writer(s: SendState, stream: word, data: seq<byte>, pos: nat)

  /** What can happen next: the writer calls again with the rest of its data, or anything else but a write. */
  datatype Turn = Attempt(d: Drained, o: SendOutcome, error: int) | Other(step: Step)

  ghost predicate Consistent(w: Writer, before: seq<byte>) {
    && w.pos <= |w.data|
    && (w.s.writing.Built? ==> w.s.writing.stream == w.stream && w.s.writing.size <= |w.data| - w.pos)
    && Payloads(w.s.trace, w.stream) == before + w.data[..w.pos]
  }

  predicate TurnAllowed(w: Writer, t: Turn) {
    match t
    case Attempt(d, _, error) => error < 0 && d.rc <= 0
    case Other(step) => !step.WriteCall? && Allowed(w.s, step)
  }

  function Take(w: Writer, t: Turn): Writer
    requires w.pos <= |w.data| && (w.s.writing.Built? ==> w.s.writing.size <= |w.data| - w.pos) && TurnAllowed(w, t)
  {
    match t
    case Other(step) => w.(s := Exec(w.s, step))
    case Attempt(d, o, error) =>
      var r := Write(w.s, w.stream, w.data[w.pos..], d, o, error);
      w.(s := r.s, pos := if r.rc > 0 then w.pos + r.rc else w.pos)
  }

  /** A write reports exactly what it sent: the bytes on the wire grow by the front of the buffer it was given. */
  lemma WriteReports(s: SendState, stream: word, buf: seq<byte>, d: Drained, o: SendOutcome, error: int)
    requires error < 0 && d.rc <= 0
    requires s.writing.Built? ==> s.writing.stream == stream && s.writing.size <= |buf|
    ensures var r := Write(s, stream, buf, d, o, error);
            && r.rc <= |buf|
            && Payloads(r.s.trace, stream) == Payloads(s.trace, stream) + (if r.rc > 0 then buf[..r.rc] else [])
            && (r.s.writing.Built? ==> r.rc <= 0 && r.s.writing.stream == stream && r.s.writing.size <= |buf|)
  {
    var s1 := if s.writing.Built? then s else
      var s' := s.(window := Drain(s.window, d.adjusts));
      s'.(writing := Built(stream, Chunk(s', |buf|)));
    assert Payloads(s.trace, stream) + [] == Payloads(s.trace, stream);
    PayloadsSnoc(s.trace, SentData(stream, buf[..s1.writing.size]), stream);
  }

  lemma {:induction false} SilentPayloads(t: seq<Event>, t': seq<Event>, stream: word)
    requires t <= t' && forall i :: |t| <= i < |t'| ==> !t'[i].SentData?
    ensures Payloads(t', stream) == Payloads(t, stream)
    decreases |t'|
  {
    if |t'| > |t| { SilentPayloads(t, t'[..|t'| - 1], stream); } else { assert t' == t; }
  }

  lemma OtherIsSilent(s: SendState, step: Step)
    requires !step.WriteCall? && Allowed(s, step)
    ensures var s' := Exec(s, step);
            && s'.writing == s.writing && s.trace <= s'.trace
            && forall i :: |s.trace| <= i < |s'.trace| ==> !s'.trace[i].SentData?
  {
    if step.CloseCall? { CloseIsSilent(s, step.e); }
  }

  lemma SliceGrows(before: seq<byte>, data: seq<byte>, pos: nat, n: nat)
    requires pos + n <= |data|
    ensures (before + data[..pos]) + data[pos..][..n] == before + data[..pos + n]
  {}

  lemma TurnKeepsConsistent(w: Writer, before: seq<byte>, t: Turn)
    requires Consistent(w, before) && TurnAllowed(w, t)
    ensures Consistent(Take(w, t), before)
  {
    match t
    case Attempt(d, o, error) =>
      var r := Write(w.s, w.stream, w.data[w.pos..], d, o, error);
      WriteReports(w.s, w.stream, w.data[w.pos..], d, o, error);
      if r.rc > 0 { SliceGrows(before, w.data, w.pos, r.rc); }
    case Other(step) =>
      OtherIsSilent(w.s, step);
      SilentPayloads(w.s.trace, Exec(w.s, step).trace, w.stream);
  }

  ghost predicate AllTurns(w: Writer, before: seq<byte>, turns: seq<Turn>)
    requires Consistent(w, before)
    decreases |turns|
  {
    turns == [] || (TurnAllowed(w, turns[0]) &&
                    (TurnKeepsConsistent(w, before, turns[0]); AllTurns(Take(w, turns[0]), before, turns[1..])))
  }

  ghost function TakeAll(w: Writer, before: seq<byte>, turns: seq<Turn>): Writer
    requires Consistent(w, before) && AllTurns(w, before, turns)
    decreases |turns|
  {
    if turns == [] then w else
      TurnKeepsConsistent(w, before, turns[0]);
      TakeAll(Take(w, turns[0]), before, turns[1..])
  }

  /** Whatever blocks or fails in between, what has been sent is the front of the data the writer counts as sent. */
  lemma {:induction false} WriterSendsInOrder(w: Writer, before: seq<byte>, turns: seq<Turn>)
    requires Consistent(w, before) && AllTurns(w, before, turns)
    ensures var w' := TakeAll(w, before, turns);
            w'.stream == w.stream && w'.data == w.data && w'.pos <= |w.data| &&
            Payloads(w'.s.trace, w.stream) == before + w.data[..w'.pos]
    decreases |turns|
  {
    if turns != [] {
      TurnKeepsConsistent(w, before, turns[0]);
      WriterSendsInOrder(Take(w, turns[0]), before, turns[1..]);
    }
  }
}

/** Closing: what the wire sees of EOF, CLOSE and the data around them, over any number of calls. */
module SendClosing {
  import opened Words
  import opened ReceiveWindow
  import opened Sending
  import opened SendCredit

  /** What a trace amounts to. quiet: no data after an EOF; ordered: no CLOSE before EOF was tried. */
  datatype Summary = Summary(eofSent: bool, eofTried: bool, closes: nat, callbacks: nat, quiet: bool, ordered: bool)

  function Update(m: Summary, e: Event): Summary {
    match e
    case SentData(_, _) => m.(quiet := m.quiet && !m.eofSent)
    case SentEof => m.(eofSent := true, eofTried := true)
    case FailedEof => m.(eofTried := true)
    case SentClose => m.(closes := m.closes + 1, ordered := m.ordered && m.eofTried)
    case FailedClose => m.(ordered := m.ordered && m.eofTried)
    case CloseCallback => m.(callbacks := m.callbacks + 1)
  }

  function Summarize(trace: seq<Event>): Summary {
    if trace == [] then Summary(false, false, 0, 0, true, true)
    else Update(Summarize(trace[..|trace| - 1]), trace[|trace| - 1])
  }

  lemma SummarizeSnoc(trace: seq<Event>, e: Event)
    ensures Summarize(trace + [e]) == Update(Summarize(trace), e)
  {
    assert (trace + [e])[..|trace + [e]| - 1] == trace;
  }

  predicate IsEofAttempt(e: Event) { e.SentEof? || e.FailedEof? }

  predicate IsCloseAttempt(e: Event) { e.SentClose? || e.FailedClose? }

  ghost predicate EofTriedBefore(t: seq<Event>, n: nat) {
    exists j :: 0 <= j < n <= |t| && IsEofAttempt(t[j])
  }

  ghost predicate EofSentBefore(t: seq<Event>, n: nat) {
    exists j :: 0 <= j < n <= |t| && t[j].SentEof?
  }

  /** What the flags of the summary say about positions in the trace. */
  lemma {:induction false} EofTriedMeans(t: seq<Event>)
    ensures Summarize(t).eofTried <==> EofTriedBefore(t, |t|)
    ensures Summarize(t).eofSent <==> EofSentBefore(t, |t|)
  {
    if t != [] {
      var u := t[..|t| - 1];
      EofTriedMeans(u);
      EofPrefix(t, |u|);
      if EofTriedBefore(t, |t|) && !IsEofAttempt(t[|u|]) { assert EofTriedBefore(t, |u|); }
      if EofSentBefore(t, |t|) && !t[|u|].SentEof? { assert EofSentBefore(t, |u|); }
    }
  }

  lemma EofPrefix(t: seq<Event>, n: nat)
    requires n <= |t|
    ensures EofTriedBefore(t[..n], n) <==> EofTriedBefore(t, n)
    ensures EofSentBefore(t[..n], n) <==> EofSentBefore(t, n)
  {
    forall j | 0 <= j < n ensures t[..n][j] == t[j] {}
    if EofTriedBefore(t, n) {
      var j :| 0 <= j < n && IsEofAttempt(t[j]);
      assert IsEofAttempt(t[..n][j]);
    }
    if EofSentBefore(t, n) {
      var j :| 0 <= j < n && t[j].SentEof?;
      assert t[..n][j].SentEof?;
    }
  }

  lemma {:induction false} OrderedMeans(t: seq<Event>)
    ensures Summarize(t).ordered <==> forall i :: 0 <= i < |t| && IsCloseAttempt(t[i]) ==> EofTriedBefore(t[..i], i)
  {
    if t != [] {
      var u, n := t[..|t| - 1], |t| - 1;
      OrderedMeans(u);
      EofTriedMeans(u);
      forall i | 0 <= i < n ensures u[i] == t[i] && u[..i] == t[..i] {}
    }
  }

  lemma {:induction false} QuietMeans(t: seq<Event>)
    ensures Summarize(t).quiet <==> forall i :: 0 <= i < |t| && t[i].SentData? ==> !EofSentBefore(t[..i], i)
  {
    if t != [] {
      var u, n := t[..|t| - 1], |t| - 1;
      QuietMeans(u);
      EofTriedMeans(u);
      forall i | 0 <= i < n ensures u[i] == t[i] && u[..i] == t[..i] {}
    }
  }

  /** How the flags of the channel and its history go together. */
  ghost predicate Lawful(s: SendState) {
    var m := Summarize(s.trace);
    && (s.eof <==> m.eofSent)
    && (!s.closing.CloseIdle? ==> m.eofTried)
    && (s.closing.CloseSent? ==> m.closes == 1)
    && m.closes <= (if s.closing.CloseSent? || s.close then 1 else 0)
    && m.callbacks == (if s.close && s.hasCallback then 1 else 0)
    && m.ordered
  }

  lemma SendEofKeeps(s: SendState, o: SendOutcome)
    requires Lawful(s)
    ensures var r := SendEof(s, o);
            Lawful(r.s) && r.s.close == s.close && (r.rc != EAGAIN ==> Summarize(r.s.trace).eofTried)
  {
    SummarizeSnoc(s.trace, SentEof);
    SummarizeSnoc(s.trace, FailedEof);
  }

  lemma CloseSendKeeps(s: SendState, rc: int, e: CloseEnv)
    requires Lawful(s) && !s.close && Summarize(s.trace).eofTried
    ensures var r := CloseSend(s, rc, e); Lawful(r.s) && !r.s.close
  {
    if !s.closing.CloseSent? {
      match e.close {
        case WouldBlock =>
        case Failed => SummarizeSnoc(s.trace, FailedClose);
        case Sent => SummarizeSnoc(s.trace, SentClose);
      }
    }
  }

  lemma FinishedKeeps(r: Result)
    requires Lawful(r.s) && !r.s.close
    ensures Lawful(Finished(r).s) && (Finished(r).s.close <==> Finished(r).rc != EAGAIN)
  {
    SummarizeSnoc(r.s.trace, CloseCallback);
  }

  /** One call of close: it keeps the laws, and it returns something other than EAGAIN exactly when it has marked
      the channel closed. */
  lemma CloseKeepsLaws(s: SendState, e: CloseEnv)
    requires Lawful(s) && PossibleClose(e)
    ensures Lawful(Close(s, e).s) && (Close(s, e).s.close <==> Close(s, e).rc != EAGAIN)
  {
    hide Summarize;
    if !s.close {
      var a := if s.eof then Result(s, 0) else SendEof(s, e.eof);
      SendEofKeeps(s, e.eof);
      if a.rc != EAGAIN {
        EofSentIsTried(a.s.trace);
        CloseSendKeeps(a.s, a.rc, e);
        var b := CloseSend(a.s, a.rc, e);
        AwaitKeeps(b.s, b.rc, e.connected, e.polls);
        FinishedKeeps(if b.s.closing.CloseSent? then Await(b.s, b.rc, e.connected, e.polls) else b);
      }
    }
  }

  lemma {:induction false} EofSentIsTried(t: seq<Event>)
    ensures Summarize(t).eofSent ==> Summarize(t).eofTried
  {
    if t != [] { EofSentIsTried(t[..|t| - 1]); }
  }

  /** The flags agree, and the traces sum up alike but perhaps for data after an EOF. */
  ghost predicate SameFlags(s: SendState, s': SendState) {
    var m, m' := Summarize(s.trace), Summarize(s'.trace);
    && s'.eof == s.eof && s'.close == s.close && s'.closing == s.closing && s'.hasCallback == s.hasCallback
    && m' == m.(quiet := m'.quiet)
    && (m.quiet && !m.eofSent ==> m'.quiet)
  }

  lemma SendBuiltSummary(s: SendState, buf: seq<byte>, o: SendOutcome, error: int)
    requires s.writing.Built? && s.writing.size <= |buf|
    ensures SameFlags(s, SendBuilt(s, buf, o, error).s)
  {
    SummarizeSnoc(s.trace, SentData(s.writing.stream, buf[..s.writing.size]));
  }

  /** A write leaves the flags alone, and after an EOF it does nothing unless a message was built before. */
  lemma WriteSummary(s: SendState, stream: word, buf: seq<byte>, d: Drained, o: SendOutcome, error: int)
    requires s.writing.Built? ==> s.writing.size <= |buf|
    ensures var s' := Write(s, stream, buf, d, o, error).s;
            SameFlags(s, s') && (s.eof && s.writing.NoWrite? ==> s' == s)
  {
    if s.writing.Built? {
      SendBuiltSummary(s, buf, o, error);
    } else {
      var s1 := s.(window := Drain(s.window, d.adjusts));
      SendBuiltSummary(s1.(writing := Built(stream, Chunk(s1, |buf|))), buf, o, error);
    }
  }

  lemma ExecKeepsLaws(s: SendState, step: Step)
    requires Lawful(s) && Allowed(s, step)
    ensures Lawful(Exec(s, step))
  {
    match step
    case WriteCall(stream, buf, d, o, error) => WriteSummary(s, stream, buf, d, o, error);
    case EofCall(o) => SendEofKeeps(s, o);
    case CloseCall(e) => CloseKeepsLaws(s, e);
    case AdjustArrives(_) =>
    case CloseArrives =>
  }

  /** Over any run CLOSE is sent at most once and never before EOF was tried, and the callback fires exactly once,
      when the channel is marked closed. */
  lemma {:induction false} RunsKeepLaws(s: SendState, steps: seq<Step>)
    requires Lawful(s) && AllAllowed(s, steps)
    ensures var s' := ExecAll(s, steps); Lawful(s') && Summarize(s'.trace).closes <= 1
    decreases |steps|
  {
    if steps != [] {
      ExecKeepsLaws(s, steps[0]);
      RunsKeepLaws(Exec(s, steps[0]), steps[1..]);
    }
  }
}
