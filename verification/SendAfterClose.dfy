/** Nothing follows a CLOSE on the wire (section 5.3 of RFC 4254): exactly when, and exactly when not. */
module SendAfterClose {
  import opened Words
  import opened ReceiveWindow
  import opened Sending
  import opened SendCredit
  import opened SendClosing
  import opened SendQuiet

  /** What the channel sends of its own accord while it is open. */
  predicate IsMessage(e: Event) { e.SentData? || e.SentEof? }

  predicate HasClose(t: seq<Event>) { exists i | 0 <= i < |t| :: t[i].SentClose? }

  /** No data and no EOF after a CLOSE. */
  ghost predicate NothingAfterClose(t: seq<Event>) {
    forall i, j | 0 <= i < j < |t| && t[i].SentClose? :: !IsMessage(t[j])
  }

  lemma NothingAfterSnoc(t: seq<Event>, e: Event)
    ensures NothingAfterClose(t + [e]) <==> NothingAfterClose(t) && !(HasClose(t) && IsMessage(e))
  {
    var t' := t + [e];
    assert forall i | 0 <= i < |t| :: t'[i] == t[i];
    assert t'[|t|] == e;
    if NothingAfterClose(t') && HasClose(t) {
      var i :| 0 <= i < |t| && t[i].SentClose?;
      assert t'[i].SentClose? && !IsMessage(t'[|t|]);
    }
    if NothingAfterClose(t') {
      forall i, j | 0 <= i < j < |t| && t[i].SentClose?
        ensures !IsMessage(t[j])
      {
        assert t'[i].SentClose? && !IsMessage(t'[j]);
      }
    }
  }

  lemma HasCloseSnoc(t: seq<Event>, e: Event)
    ensures HasClose(t + [e]) <==> HasClose(t) || e.SentClose?
  {
    var t' := t + [e];
    assert t'[|t|] == e;
    if HasClose(t) {
      var i :| 0 <= i < |t| && t[i].SentClose?;
      assert t'[i].SentClose?;
    }
  }

  /** A write that puts data on the wire: a repeated one, or a new one past all the checks. */
  predicate WritesOut(s: SendState, d: Drained, o: SendOutcome) {
    o.Sent? && (s.writing.Built? ||
                (!s.close && !s.eof && !(d.rc < 0 && d.rc != EAGAIN) && Drain(s.window, d.adjusts) != 0))
  }

  /** The step sends data or EOF, whatever it sends besides. */
  predicate SendsMessage(s: SendState, step: Step) {
    match step
    case WriteCall(_, _, d, o, _) => WritesOut(s, d, o)
    case EofCall(o) => o.Sent?
    case CloseCall(e) => !s.close && !s.eof && e.eof.Sent?
    case _ => false
  }

  lemma WriteAfterClose(s: SendState, stream: word, buf: seq<byte>, d: Drained, o: SendOutcome, error: int)
    requires NothingAfterClose(s.trace) && (s.writing.Built? ==> s.writing.size <= |buf|)
    ensures NothingAfterClose(Write(s, stream, buf, d, o, error).s.trace)
       <==> !(HasClose(s.trace) && WritesOut(s, d, o))
  {
    if s.writing.Built? {
      NothingAfterSnoc(s.trace, SentData(s.writing.stream, buf[..s.writing.size]));
    } else {
      var s1 := s.(window := Drain(s.window, d.adjusts));
      NothingAfterSnoc(s.trace, SentData(stream, buf[..Chunk(s1, |buf|)]));
    }
  }

  lemma EofAfterClose(s: SendState, o: SendOutcome)
    requires NothingAfterClose(s.trace)
    ensures NothingAfterClose(SendEof(s, o).s.trace) <==> !(HasClose(s.trace) && o.Sent?)
    ensures HasClose(SendEof(s, o).s.trace) <==> HasClose(s.trace)
  {
    NothingAfterSnoc(s.trace, SentEof);
    NothingAfterSnoc(s.trace, FailedEof);
    HasCloseSnoc(s.trace, SentEof);
    HasCloseSnoc(s.trace, FailedEof);
  }

  lemma CloseSendAddsNone(s: SendState, rc: int, e: CloseEnv)
    ensures NothingAfterClose(CloseSend(s, rc, e).s.trace) <==> NothingAfterClose(s.trace)
  {
    NothingAfterSnoc(s.trace, FailedClose);
    NothingAfterSnoc(s.trace, SentClose);
  }

  lemma FinishedAddsNone(r: Result)
    ensures NothingAfterClose(Finished(r).s.trace) <==> NothingAfterClose(r.s.trace)
  {
    NothingAfterSnoc(r.s.trace, CloseCallback);
  }

  lemma CloseAfterClose(s: SendState, e: CloseEnv)
    requires NothingAfterClose(s.trace)
    ensures NothingAfterClose(Close(s, e).s.trace) <==> !(HasClose(s.trace) && !s.close && !s.eof && e.eof.Sent?)
  {
    if !s.close {
      EofAfterClose(s, e.eof);
      var a := if s.eof then Result(s, 0) else SendEof(s, e.eof);
      if a.rc != EAGAIN {
        CloseSendAddsNone(a.s, a.rc, e);
        var b := CloseSend(a.s, a.rc, e);
        AwaitKeeps(b.s, b.rc, e.connected, e.polls);
        FinishedAddsNone(if b.s.closing.CloseSent? then Await(b.s, b.rc, e.connected, e.polls) else b);
      }
    }
  }

  /** One step keeps the wire silent after CLOSE exactly when it sends no data and no EOF once CLOSE is out. */
  lemma ExecAfterClose(s: SendState, step: Step)
    requires Allowed(s, step) && NothingAfterClose(s.trace)
    ensures NothingAfterClose(Exec(s, step).trace) <==> !(HasClose(s.trace) && SendsMessage(s, step))
  {
    match step
    case WriteCall(stream, buf, d, o, error) => WriteAfterClose(s, stream, buf, d, o, error);
    case EofCall(o) => EofAfterClose(s, o);
    case CloseCall(e) => CloseAfterClose(s, e);
    case AdjustArrives(_) =>
    case CloseArrives =>
  }

  ghost predicate NeverSendsAfterClose(s: SendState, steps: seq<Step>)
    requires AllAllowed(s, steps)
    decreases |steps|
  {
    steps == [] ||
    (!(HasClose(s.trace) && SendsMessage(s, steps[0])) && NeverSendsAfterClose(Exec(s, steps[0]), steps[1..]))
  }

  lemma NothingShrinks(t: seq<Event>, t': seq<Event>)
    requires t <= t' && NothingAfterClose(t')
    ensures NothingAfterClose(t)
  {
    forall i, j | 0 <= i < j < |t| && t[i].SentClose?
      ensures !IsMessage(t[j])
    {
      assert t'[i] == t[i] && t'[j] == t[j];
    }
  }

  /** Over any run nothing follows CLOSE exactly when no step sends data or EOF after it. */
  lemma {:induction false} RunsEndWithClose(s: SendState, steps: seq<Step>)
    requires NothingAfterClose(s.trace) && AllAllowed(s, steps)
    ensures NothingAfterClose(ExecAll(s, steps).trace) <==> NeverSendsAfterClose(s, steps)
    decreases |steps|
  {
    if steps != [] {
      var s' := Exec(s, steps[0]);
      ExecAfterClose(s, steps[0]);
      if NothingAfterClose(s'.trace) {
        RunsEndWithClose(s', steps[1..]);
      } else {
        RunGrows(s', steps[1..]);
        if NothingAfterClose(ExecAll(s', steps[1..]).trace) {
          NothingShrinks(s'.trace, ExecAll(s', steps[1..]).trace);
        }
      }
    }
  }

  lemma CloseKeepsWriting(s: SendState, e: CloseEnv)
    requires s.eof
    ensures Close(s, e).s.writing == s.writing && Close(s, e).s.eof
  {
    hide Await, Finished;
    if !s.close {
      var b := CloseSend(s, 0, e);
      AwaitKeeps(b.s, b.rc, e.connected, e.polls);
      FinishedKeepsWriting(if b.s.closing.CloseSent? then Await(b.s, b.rc, e.connected, e.polls) else b);
    }
  }

  lemma FinishedKeepsWriting(r: Result)
    ensures Finished(r).s.writing == r.s.writing && Finished(r).s.eof == r.s.eof
  {}

  // What a caller can look at.

  lemma {:induction false} HasCloseCounts(t: seq<Event>)
    ensures HasClose(t) <==> Summarize(t).closes > 0
  {
    if t != [] {
      var u, e := t[..|t| - 1], t[|t| - 1];
      HasCloseCounts(u);
      HasCloseSnoc(u, e);
      assert t == u + [e];
    }
  }

  /** Until the channel is marked closed, its state says whether CLOSE is out. */
  lemma CloseIsOut(s: SendState)
    requires Lawful(s) && !s.close
    ensures HasClose(s.trace) <==> s.closing.CloseSent?
  {
    HasCloseCounts(s.trace);
  }

  /** Before the call: a close puts nothing behind a CLOSE, whatever comes of its sends, exactly when it need not send
      EOF once more. */
  lemma CloseIsSafe(s: SendState)
    requires Lawful(s) && NothingAfterClose(s.trace)
    ensures (forall e: CloseEnv :: NothingAfterClose(Close(s, e).s.trace))
       <==> !(s.closing.CloseSent? && !s.eof && !s.close)
  {
    forall e: CloseEnv
      ensures NothingAfterClose(Close(s, e).s.trace) <==> !(HasClose(s.trace) && !s.close && !s.eof && e.eof.Sent?)
    {
      CloseAfterClose(s, e);
    }
    if !s.close {
      CloseIsOut(s);
      var e := CloseEnv(Sent, Sent, -1, true, []);
      assert HasClose(s.trace) && !s.eof ==> !NothingAfterClose(Close(s, e).s.trace);
    }
  }

  /** Enough credit for a message, whatever the window. */
  function Enough(s: SendState): Drained { Drained([if s.window == 0 then 1 else 0], 0) }

  lemma EnoughIsNotZero(s: SendState)
    ensures Drain(s.window, Enough(s).adjusts) != 0
  {
    var a := Enough(s).adjusts;
    if a != [] {
      assert a[1..] == [];
    }
  }

  /** Before the call: a write puts nothing behind a CLOSE exactly when CLOSE is not out, or EOF is and no write is
      still to be repeated. */
  lemma WriteIsSafeAfterClose(s: SendState, stream: word, buf: seq<byte>)
    requires Lawful(s) && NothingAfterClose(s.trace) && !s.close && (s.writing.Built? ==> s.writing.size <= |buf|)
    ensures (forall d: Drained, o: SendOutcome, error: int ::
               NothingAfterClose(Write(s, stream, buf, d, o, error).s.trace))
       <==> !(s.closing.CloseSent? && (s.writing.Built? || !s.eof))
  {
    CloseIsOut(s);
    forall d: Drained, o: SendOutcome, error: int
      ensures NothingAfterClose(Write(s, stream, buf, d, o, error).s.trace)
         <==> !(HasClose(s.trace) && WritesOut(s, d, o))
    {
      WriteAfterClose(s, stream, buf, d, o, error);
    }
    if s.closing.CloseSent? && (s.writing.Built? || !s.eof) {
      EnoughIsNotZero(s);
      assert WritesOut(s, Enough(s), Sent);
      assert !NothingAfterClose(Write(s, stream, buf, Enough(s), Sent, 0).s.trace);
    }
  }

  /** No write is to be repeated, and a new one would be refused. */
  predicate CloseIsFinal(s: SendState) { s.writing.NoWrite? && (s.eof || s.close) }

  predicate NoEofCall(steps: seq<Step>) { forall step <- steps :: !step.EofCall? }

  lemma FinalStays(s: SendState, step: Step)
    requires Allowed(s, step) && CloseIsFinal(s) && !step.EofCall?
    ensures !SendsMessage(s, step) && CloseIsFinal(Exec(s, step))
  {
    if step.CloseCall? && !s.close {
      CloseKeepsWriting(s, step.e);
    }
  }

  lemma {:induction false} FinalSendsNothing(s: SendState, steps: seq<Step>)
    requires AllAllowed(s, steps) && CloseIsFinal(s) && NoEofCall(steps)
    ensures NeverSendsAfterClose(s, steps)
    decreases |steps|
  {
    if steps != [] {
      assert steps[0] in steps;
      FinalStays(s, steps[0]);
      FinalSendsNothing(Exec(s, steps[0]), steps[1..]);
    }
  }

  /** With a write pending, or with neither EOF sent nor the channel marked closed, a write gets through. */
  lemma WriteGetsThrough(s: SendState) returns (steps: seq<Step>)
    requires HasClose(s.trace) && NothingAfterClose(s.trace) && !CloseIsFinal(s)
    ensures AllAllowed(s, steps) && NoEofCall(steps) && !NothingAfterClose(ExecAll(s, steps).trace)
  {
    var buf := seq(if s.writing.Built? then s.writing.size else 0, _ => 0);
    var step := WriteCall(0, buf, Enough(s), Sent, 0);
    steps := [step];
    assert steps[1..] == [] && AllAllowed(Exec(s, step), steps[1..]);
    EnoughIsNotZero(s);
    assert WritesOut(s, Enough(s), Sent) && SendsMessage(s, step);
    ExecAfterClose(s, step);
    assert ExecAll(s, steps) == ExecAll(Exec(s, step), []) == Exec(s, step);
  }

  /** Once CLOSE is out, nothing follows it in any further run of writes, closes and incoming messages, exactly when no
      write is pending and either EOF has been sent or the channel is marked closed. */
  lemma CloseIsLastExactly(s: SendState)
    requires HasClose(s.trace) && NothingAfterClose(s.trace)
    ensures (forall steps | AllAllowed(s, steps) && NoEofCall(steps) :: NothingAfterClose(ExecAll(s, steps).trace))
       <==> CloseIsFinal(s)
  {
    if CloseIsFinal(s) {
      forall steps | AllAllowed(s, steps) && NoEofCall(steps)
        ensures NothingAfterClose(ExecAll(s, steps).trace)
      {
        FinalSendsNothing(s, steps);
        RunsEndWithClose(s, steps);
      }
    } else {
      var steps := WriteGetsThrough(s);
      assert AllAllowed(s, steps) && NoEofCall(steps) && !NothingAfterClose(ExecAll(s, steps).trace);
    }
  }

  /** An input that breaks it: the EOF of a first call fails hard, its CLOSE goes out and the wait would block; the
      second call sends EOF after that CLOSE. */
  lemma EofFollowsClose(s: SendState)
    requires NothingAfterClose(s.trace) && !s.eof && !s.close && !s.remoteClose && !s.closing.CloseSent?
    ensures var e1 := CloseEnv(Failed, Sent, -1, true, []);
            var e2 := CloseEnv(Sent, Sent, -1, true, []);
            Close(s, e1).rc == EAGAIN && !NothingAfterClose(Close(Close(s, e1).s, e2).s.trace)
  {
    var s1 := FirstClose(s);
    CloseAfterClose(s1, CloseEnv(Sent, Sent, -1, true, []));
  }

  lemma FirstClose(s: SendState) returns (s1: SendState)
    requires NothingAfterClose(s.trace) && !s.eof && !s.close && !s.remoteClose && !s.closing.CloseSent?
    ensures Close(s, CloseEnv(Failed, Sent, -1, true, [])) == Result(s1, EAGAIN)
    ensures s1 == s.(closing := CloseSent, trace := s.trace + [FailedEof] + [SentClose])
    ensures NothingAfterClose(s1.trace) && HasClose(s1.trace)
  {
    var e := CloseEnv(Failed, Sent, -1, true, []);
    s1 := Close(s, e).s;
    CloseAfterClose(s, e);
    HasCloseSnoc(s.trace + [FailedEof], SentClose);
  }

  /** Another one: after that first call a write, begun afresh or repeated, sends its data after the CLOSE; neither flag
      that a write looks at is set. */
  lemma DataFollowsClose(s: SendState, stream: word, buf: seq<byte>, d: Drained, error: int)
    requires NothingAfterClose(s.trace) && !s.eof && !s.close && !s.remoteClose && !s.closing.CloseSent?
    requires WritesOut(s, d, Sent) && (s.writing.Built? ==> s.writing.size <= |buf|)
    ensures var r := Close(s, CloseEnv(Failed, Sent, -1, true, []));
            && r.rc == EAGAIN && r.s.writing == s.writing
            && !NothingAfterClose(Write(r.s, stream, buf, d, Sent, error).s.trace)
  {
    var s1 := FirstClose(s);
    WriteAfterClose(s1, stream, buf, d, Sent, error);
  }
}
