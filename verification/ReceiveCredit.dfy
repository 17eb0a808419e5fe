/** The receive window over whole runs: what is requested, what the peer is granted, and what the window shows. */
module ReceiveCredit {
  import opened Words
  import opened PacketQueue
  import opened ReceiveWindow
  import opened ReceiveState
  import opened ReceiveInvariant
  import opened ReceiveRuns

  /** The peer's credit: what it was offered at the start and granted since, less what it has sent and we have read. */
  ghost predicate Accounted(w: Window, consumed: nat) {
    w.size + consumed == w.initial + w.granted
  }

  function BytesRead(log: seq<Delivery>): nat {
    if log == [] then 0 else BytesRead(log[..|log| - 1]) + |log[|log| - 1].bytes|
  }

  /** The step sends no message, or sends one carrying the amount that is added to the window. */
  predicate StepAccounts(s: State, step: Step) {
    match step
    case Arrives(_) => true
    case OtherRead(_, _, _, _) => true
    case AdjustCall(amount, _, o) => !(s.window.adjust.Created? && o.Sent? && s.window.adjust.amount != amount)
    case ReadCall(_, buflen, e) =>
      NeedsTopUp(s.window, buflen) ==>
        !(s.window.adjust.Created? && e.send.Sent? && s.window.adjust.amount != TopUp(s.window, buflen))
  }

  lemma WidenedAccounts(w: Window, buflen: nat, o: SendOutcome)
    requires ReadFits(w, buflen)
    ensures var w' := Widened(w, buflen, o).w;
            && w'.initial == w.initial
            && (w'.size - w.size == w'.granted - w.granted <==>
               (NeedsTopUp(w, buflen) ==> !(w.adjust.Created? && o.Sent? && w.adjust.amount != TopUp(w, buflen))))
  {
    if NeedsTopUp(w, buflen) { AdjustAccounts(w.(readJump := true), TopUp(w, buflen), false, o); }
  }

  lemma ReadAccounts(s: State, stream: int, buflen: nat, e: Env)
    requires Balanced(s.inbox, s.window.size) && PossibleEnv(s.inbox.id, e) && ReadFits(s.window, buflen)
    ensures var r, w := Read(s, stream, buflen, e), Widened(s.window, buflen, e.send).w;
            r.s.window.size == w.size - |r.bytes| && r.s.window.granted == w.granted && r.s.window.initial == w.initial
  {
    var w := Widened(s.window, buflen, e.send);
    WidenedOnlyWidens(s.window, buflen, e.send);
    if w.rc == 0 {
      ArrivalsKeepBalanced(s.inbox, w.w.size, e.arrivals);
      DeliverKeepsBalanced(State(ArriveAll(s.inbox, w.w.size, e.arrivals), w.w), stream, buflen, e.rc);
    }
  }

  /** The window and the peer's credit agree after a step exactly when the step does not complete an earlier message
      with a different amount. */
  lemma ExecAccounts(h: History, step: Step)
    requires Balanced(h.s.inbox, h.s.window.size) && Possible(h.s.inbox.id, step) && StepFits(h.s, step)
    requires Accounted(h.s.window, BytesRead(h.log))
    ensures var h' := Exec(h, step); Accounted(h'.s.window, BytesRead(h'.log)) <==> StepAccounts(h.s, step)
  {
    match step
    case Arrives(_) =>
    case OtherRead(_, _, _, _) =>
    case AdjustCall(amount, force, o) => AdjustAccounts(h.s.window, amount, force, o);
    case ReadCall(stream, buflen, e) =>
      var log' := Exec(h, step).log;
      assert log'[..|log'| - 1] == h.log;
      WidenedAccounts(h.s.window, buflen, e.send);
      ReadAccounts(h.s, stream, buflen, e);
      ReadReports(h.s, stream, buflen, e);
  }

  /** At the start and after every step the window and the peer's credit agree. */
  ghost predicate AccountedAlong(h: History, steps: seq<Step>)
    requires AllWellFormed(h.s.inbox.queue) && AllStepsPossible(h.s.inbox.id, steps)
    decreases |steps|
  {
    Accounted(h.s.window, BytesRead(h.log)) &&
    (steps == [] || (ExecKeepsWellFormed(h, steps[0]); AccountedAlong(Exec(h, steps[0]), steps[1..])))
  }

  ghost predicate AllStepsAccount(h: History, steps: seq<Step>)
    requires AllWellFormed(h.s.inbox.queue) && AllStepsPossible(h.s.inbox.id, steps)
    decreases |steps|
  {
    steps == [] ||
    (StepAccounts(h.s, steps[0]) && (ExecKeepsWellFormed(h, steps[0]); AllStepsAccount(Exec(h, steps[0]), steps[1..])))
  }

  /** In a run without a wrapping counter the window agrees with the peer's credit all along exactly when no step
      completes an earlier message with a different amount. */
  lemma {:induction false} RunsAccount(h: History, steps: seq<Step>)
    requires Balanced(h.s.inbox, h.s.window.size) && AllStepsPossible(h.s.inbox.id, steps) && RunFits(h, steps)
    requires Accounted(h.s.window, BytesRead(h.log))
    ensures AccountedAlong(h, steps) <==> AllStepsAccount(h, steps)
    decreases |steps|
  {
    if steps != [] {
      var h' := Exec(h, steps[0]);
      ExecKeepsWellFormed(h, steps[0]);
      ExecAccounts(h, steps[0]);
      ExecKeepsBalanced(h, steps[0]);
      if StepAccounts(h.s, steps[0]) {
        RunsAccount(h', steps[1..]);
      } else {
        assert !Accounted(h'.s.window, BytesRead(h'.log));
      }
    }
  }

  // Runs in which every window message goes out at once.

  predicate Unhindered(step: Step) {
    match step
    case Arrives(_) => true
    case OtherRead(_, _, _, _) => true
    case ReadCall(_, _, e) => e.send.Sent?
    case AdjustCall(_, _, o) => o.Sent?
  }

  predicate Steady(w: Window) { w.adjust.Idle? && w.queued < MINADJUST && !w.readJump }

  /** The adjustment a step asks for. */
  function Request(s: State, step: Step): nat {
    match step
    case Arrives(_) => 0
    case OtherRead(_, _, _, _) => 0
    case ReadCall(_, buflen, _) => if NeedsTopUp(s.window, buflen) then TopUp(s.window, buflen) else 0
    case AdjustCall(amount, _, _) => amount
  }

  function Requested(h: History, steps: seq<Step>): nat
    requires AllWellFormed(h.s.inbox.queue) && AllStepsPossible(h.s.inbox.id, steps)
    decreases |steps|
  {
    if steps == [] then 0
    else
      ExecKeepsWellFormed(h, steps[0]);
      Request(h.s, steps[0]) + Requested(Exec(h, steps[0]), steps[1..])
  }

  /** Window, queued adjustments and bytes read. */
  function Shown(h: History): nat { h.s.window.size + h.s.window.queued + BytesRead(h.log) }

  lemma WidenedConserves(w: Window, buflen: nat)
    requires Steady(w) && ReadFits(w, buflen)
    ensures var a := Widened(w, buflen, Sent);
            a.rc == 0 && Steady(a.w)
            && a.w.size + a.w.queued == w.size + w.queued + (if NeedsTopUp(w, buflen) then TopUp(w, buflen) else 0)
  {
    if NeedsTopUp(w, buflen) {
      UnblockedAdjustConserves(w.(readJump := true), TopUp(w, buflen), false);
    }
  }

  lemma BytesReadSnoc(log: seq<Delivery>, d: Delivery)
    ensures BytesRead(log + [d]) == BytesRead(log) + |d.bytes|
  {
    assert (log + [d])[..|log + [d]| - 1] == log;
  }

  lemma ReadConservesWindow(h: History, stream: int, buflen: nat, e: Env)
    requires Balanced(h.s.inbox, h.s.window.size) && PossibleEnv(h.s.inbox.id, e) && ReadFits(h.s.window, buflen)
    requires Steady(h.s.window) && e.send.Sent?
    ensures var step := ReadCall(stream, buflen, e);
            Shown(Exec(h, step)) == Shown(h) + Request(h.s, step) && Steady(Exec(h, step).s.window)
  {
    WidenedConserves(h.s.window, buflen);
    ReadAccounts(h.s, stream, buflen, e);
    ReadKeepsQueued(h.s, stream, buflen, e);
    ReadReports(h.s, stream, buflen, e);
    BytesReadSnoc(h.log, Delivery(stream, Read(h.s, stream, buflen, e).bytes));
  }

  lemma ReadKeepsQueued(s: State, stream: int, buflen: nat, e: Env)
    requires AllWellFormed(s.inbox.queue) && PossibleEnv(s.inbox.id, e)
    ensures var r, w := Read(s, stream, buflen, e).s.window, Widened(s.window, buflen, e.send).w;
            r.queued == w.queued && r.adjust == w.adjust && r.readJump == w.readJump
  {
    ArrivalsWellFormed(s.inbox, Widened(s.window, buflen, e.send).w.size, e.arrivals);
  }

  lemma ExecConservesWindow(h: History, step: Step)
    requires Balanced(h.s.inbox, h.s.window.size) && Possible(h.s.inbox.id, step) && StepFits(h.s, step)
    requires Steady(h.s.window) && Unhindered(step)
    ensures Shown(Exec(h, step)) == Shown(h) + Request(h.s, step) && Steady(Exec(h, step).s.window)
  {
    match step
    case Arrives(_) =>
    case OtherRead(_, _, _, _) =>
    case AdjustCall(amount, force, _) => UnblockedAdjustConserves(h.s.window, amount, force);
    case ReadCall(stream, buflen, e) => ReadConservesWindow(h, stream, buflen, e);
  }

  /** Over any run in which no send blocks or fails, the window and the queued adjustments together change by exactly
      what was requested and what was read, nothing stays half sent, and less than MINADJUST is ever queued. */
  lemma {:induction false} RunsConserveWindow(h: History, steps: seq<Step>)
    requires Balanced(h.s.inbox, h.s.window.size) && AllStepsPossible(h.s.inbox.id, steps) && RunFits(h, steps)
    requires Steady(h.s.window) && forall st <- steps :: Unhindered(st)
    ensures var h' := ExecAll(h, steps);
            Shown(h') == Shown(h) + Requested(h, steps) && Steady(h'.s.window)
    decreases |steps|
  {
    if steps != [] {
      ExecKeepsWellFormed(h, steps[0]);
      ExecConservesWindow(h, steps[0]);
      ExecKeepsBalanced(h, steps[0]);
      RunsConserveWindow(Exec(h, steps[0]), steps[1..]);
    }
  }
}
