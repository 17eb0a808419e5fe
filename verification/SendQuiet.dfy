/** No data follows an EOF on the wire (section 5.3 of RFC 4254): exactly when, and exactly when not. */
module SendQuiet {
  import opened Words
  import opened ReceiveWindow
  import opened Sending
  import opened SendCredit
  import opened SendClosing

  lemma {:induction false} QuietShrinks(t: seq<Event>, t': seq<Event>)
    requires t <= t' && Summarize(t').quiet
    ensures Summarize(t).quiet
    decreases |t'|
  {
    if |t'| > |t| {
      QuietShrinks(t, t'[..|t'| - 1]);
    } else {
      assert t' == t;
    }
  }

  lemma {:induction false} SilentKeepsQuiet(t: seq<Event>, t': seq<Event>)
    requires t <= t' && forall i :: |t| <= i < |t'| ==> !t'[i].SentData?
    ensures Summarize(t').quiet == Summarize(t).quiet
    decreases |t'|
  {
    if |t'| > |t| {
      SilentKeepsQuiet(t, t'[..|t'| - 1]);
    } else {
      assert t' == t;
    }
  }

  /** A write that was blocked is repeated, and goes out, when EOF has been sent meanwhile: on a retry the code does not
      look at the flag. */
  predicate RepeatsAfterEof(s: SendState, step: Step) {
    step.WriteCall? && step.o.Sent? && s.writing.Built? && s.eof
  }

  lemma WriteKeepsQuiet(s: SendState, stream: word, buf: seq<byte>, d: Drained, o: SendOutcome, error: int)
    requires Lawful(s) && Summarize(s.trace).quiet && (s.writing.Built? ==> s.writing.size <= |buf|)
    ensures Summarize(Write(s, stream, buf, d, o, error).s.trace).quiet <==> !(o.Sent? && s.writing.Built? && s.eof)
  {
    WriteSummary(s, stream, buf, d, o, error);
    if s.writing.Built? {
      SummarizeSnoc(s.trace, SentData(s.writing.stream, buf[..s.writing.size]));
    }
  }

  /** One step keeps the wire quiet after EOF exactly when it is not such a repetition. */
  lemma ExecKeepsQuiet(s: SendState, step: Step)
    requires Lawful(s) && Allowed(s, step) && Summarize(s.trace).quiet
    ensures Summarize(Exec(s, step).trace).quiet <==> !RepeatsAfterEof(s, step)
  {
    match step
    case WriteCall(stream, buf, d, o, error) => WriteKeepsQuiet(s, stream, buf, d, o, error);
    case EofCall(o) =>
      SendEofIsSilent(s, o);
      SilentKeepsQuiet(s.trace, SendEof(s, o).s.trace);
    case CloseCall(e) =>
      CloseIsSilent(s, e);
      SilentKeepsQuiet(s.trace, Close(s, e).s.trace);
    case AdjustArrives(_) =>
    case CloseArrives =>
  }

  /** What the caller can see before a write: it is safe, whatever comes of it, exactly when EOF has not been sent over
      a write still to be repeated. */
  lemma WriteIsSafe(s: SendState, stream: word, buf: seq<byte>)
    requires Lawful(s) && Summarize(s.trace).quiet && (s.writing.Built? ==> s.writing.size <= |buf|)
    ensures (forall d: Drained, o: SendOutcome, error: int ::
               Summarize(Write(s, stream, buf, d, o, error).s.trace).quiet)
       <==> !(s.eof && s.writing.Built?)
  {
    forall d: Drained, o: SendOutcome, error: int
      ensures Summarize(Write(s, stream, buf, d, o, error).s.trace).quiet <==> !(o.Sent? && s.writing.Built? && s.eof)
    {
      WriteKeepsQuiet(s, stream, buf, d, o, error);
    }
    assert s.eof && s.writing.Built? ==> !Summarize(Write(s, stream, buf, Drained([], 0), Sent, 0).s.trace).quiet;
  }

  ghost predicate NeverRepeatsAfterEof(s: SendState, steps: seq<Step>)
    requires AllAllowed(s, steps)
    decreases |steps|
  {
    steps == [] || (!RepeatsAfterEof(s, steps[0]) && NeverRepeatsAfterEof(Exec(s, steps[0]), steps[1..]))
  }

  lemma WriteGrows(s: SendState, stream: word, buf: seq<byte>, d: Drained, o: SendOutcome, error: int)
    requires s.writing.Built? ==> s.writing.size <= |buf|
    ensures s.trace <= Write(s, stream, buf, d, o, error).s.trace
  {}

  lemma ExecGrows(s: SendState, step: Step)
    requires Allowed(s, step)
    ensures s.trace <= Exec(s, step).trace
  {
    match step
    case WriteCall(stream, buf, d, o, error) => WriteGrows(s, stream, buf, d, o, error);
    case EofCall(o) => SendEofIsSilent(s, o);
    case CloseCall(e) => CloseIsSilent(s, e);
    case AdjustArrives(_) =>
    case CloseArrives =>
  }

  lemma {:induction false} RunGrows(s: SendState, steps: seq<Step>)
    requires AllAllowed(s, steps)
    ensures s.trace <= ExecAll(s, steps).trace
    decreases |steps|
  {
    if steps != [] {
      ExecGrows(s, steps[0]);
      RunGrows(Exec(s, steps[0]), steps[1..]);
    }
  }

  /** Over any run no data follows an EOF exactly when no blocked write is repeated, and goes out, after an EOF. */
  lemma {:induction false} RunsAreQuiet(s: SendState, steps: seq<Step>)
    requires Lawful(s) && Summarize(s.trace).quiet && AllAllowed(s, steps)
    ensures Summarize(ExecAll(s, steps).trace).quiet <==> NeverRepeatsAfterEof(s, steps)
    decreases |steps|
  {
    if steps != [] {
      var s' := Exec(s, steps[0]);
      ExecKeepsQuiet(s, steps[0]);
      ExecKeepsLaws(s, steps[0]);
      if Summarize(s'.trace).quiet {
        RunsAreQuiet(s', steps[1..]);
      } else {
        RunGrows(s', steps[1..]);
        if Summarize(ExecAll(s', steps[1..]).trace).quiet {
          QuietShrinks(s'.trace, ExecAll(s', steps[1..]).trace);
        }
      }
    }
  }

  /** A caller that never has EOF sent over a blocked write is on the safe side. */
  ghost predicate NeverPending(s: SendState, steps: seq<Step>)
    requires AllAllowed(s, steps)
    decreases |steps|
  {
    (s.eof ==> s.writing.NoWrite?) && (steps == [] || NeverPending(Exec(s, steps[0]), steps[1..]))
  }

  lemma {:induction false} NeverPendingIsQuiet(s: SendState, steps: seq<Step>)
    requires Lawful(s) && Summarize(s.trace).quiet && AllAllowed(s, steps) && NeverPending(s, steps)
    ensures Summarize(ExecAll(s, steps).trace).quiet
    decreases |steps|
  {
    if steps != [] {
      ExecKeepsQuiet(s, steps[0]);
      ExecKeepsLaws(s, steps[0]);
      NeverPendingIsQuiet(Exec(s, steps[0]), steps[1..]);
    }
  }

  /** An input that breaks it: a write that would block, an EOF that goes out, and the write repeated. */
  lemma PendingWriteOutlivesEof(s: SendState, buf: seq<byte>, d: Drained, error: int)
    requires s.writing.Built? && s.writing.size <= |buf|
    ensures var s1 := SendEof(s, Sent).s;
            var s2 := Write(s1, s.writing.stream, buf, d, Sent, error).s;
            !Summarize(s2.trace).quiet
  {
    SummarizeSnoc(s.trace, SentEof);
    SummarizeSnoc(s.trace + [SentEof], SentData(s.writing.stream, buf[..s.writing.size]));
  }
}
