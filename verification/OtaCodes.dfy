/** The code an update ends with, worked out from the pieces that arrive and the answers of the device alone. */
module OtaCodes {
  import opened Sequences
  import opened Arrival
  import opened OtaServer

  /** The pieces left when the receives counted by FirstFill are over. */
  function AfterFill<T>(chunks: seq<seq<T>>, filled: nat, threshold: nat, size: nat): (left: seq<seq<T>>)
    requires Proper(chunks) && filled <= size && threshold < size
    ensures Proper(left)
    decreases |Flat(chunks)|
  {
    if filled > threshold || chunks == [] then chunks
    else
      RecvSplits(chunks, size - filled);
      AfterFill(Left(chunks, size - filled), filled + |Received(chunks, size - filled)|, threshold, size)
  }

  /** Where in flash the writes begin, one for each receive, if none is refused: each takes all that is buffered. */
  function Offsets<T>(chunks: seq<seq<T>>, filled: nat, flash: nat, size: nat): seq<nat>
    requires Proper(chunks) && filled <= size && size > 0
    decreases |Flat(chunks)|
  {
    if chunks == [] || filled == size then []
    else
      RecvSplits(chunks, size - filled);
      [flash] + Offsets(Left(chunks, size - filled), 0, flash + filled + |Received(chunks, size - filled)|, size)
  }

  predicate Refused<T>(offsets: seq<nat>, device: Device<T>) {
    exists i | 0 <= i < |offsets| :: !device.writeOk(offsets[i])
  }

  /** A clean end, or a connection that breaks. */
  function EndOf<T>(ending: Ending, device: Device<T>): int {
    if ending == Broken then -3 else if !device.endOk then -8 else if !device.bootOk then -9 else 0
  }

  lemma OffsetsEnd<T>(chunks: seq<seq<T>>, filled: nat, flash: nat, size: nat)
    requires Proper(chunks) && filled <= size && size > 0 && (chunks == [] || filled == size)
    ensures Offsets(chunks, filled, flash, size) == []
  {}

  lemma OffsetsStep<T>(chunks: seq<seq<T>>, filled: nat, flash: nat, size: nat)
    requires Proper(chunks) && filled < size && chunks != []
    ensures var space := size - filled;
            Offsets(chunks, filled, flash, size)
            == [flash] + Offsets(Left(chunks, space), 0, flash + filled + |Received(chunks, space)|, size)
    ensures |Flat(Left(chunks, size - filled))| < |Flat(chunks)|
  {
    RecvSplits(chunks, size - filled);
  }

  lemma {:induction false} OffsetsGrow<T>(chunks: seq<seq<T>>, filled: nat, flash: nat, size: nat)
    requires Proper(chunks) && filled <= size && size > 0
    ensures var offsets := Offsets(chunks, filled, flash, size);
            forall i | 0 <= i < |offsets| :: offsets[i] >= flash
    decreases |Flat(chunks)|
  {
    hide Offsets, Received, Left;
    if chunks == [] || filled == size {
      OffsetsEnd(chunks, filled, flash, size);
    } else {
      RecvSplits(chunks, size - filled);
      OffsetsStep(chunks, filled, flash, size);
      OffsetsGrow(Left(chunks, size - filled), 0, flash + filled + |Received(chunks, size - filled)|, size);
    }
  }

  /** All writes before the first refused one have been done. */
  ghost predicate StoppedAt<T>(offsets: seq<nat>, flash: nat, device: Device<T>) {
    && !device.writeOk(flash) && flash in offsets
    && forall i | 0 <= i < |offsets| && offsets[i] < flash :: device.writeOk(offsets[i])
  }

  /** Once the header is through, it is the first refused write that stops the loop. */
  lemma {:induction false} WritesCode<T>(chunks: seq<seq<T>>, ending: Ending, s: State<T>, device: Device<T>, size: nat)
    requires Proper(chunks) && s.checked && |s.buffered| <= size && size > 0
    ensures var o := Run(chunks, ending, s, Turning(device), EndCode(device), size);
            var offsets := Offsets(chunks, |s.buffered|, |s.flash|, size);
            && o.rc == (if Refused(offsets, device) then -7
                        else EndOf(if |s.buffered| == size then Closed else ending, device))
            && (o.rc == -7 ==> StoppedAt(offsets, |o.state.flash|, device))
    decreases |Flat(chunks)|
  {
    hide Run, Offsets, Turn, Received, Left, Refused, StoppedAt, EndOf;
    var turn, endCode := Turning(device), EndCode(device);
    if chunks == [] || |s.buffered| == size {
      RunEnd(chunks, ending, s, turn, endCode, size);
      OffsetsEnd(chunks, |s.buffered|, |s.flash|, size);
      NoWrites(ending, device);
    } else {
      var space := size - |s.buffered|;
      var got, left := Received(chunks, space), Left(chunks, space);
      var later := Offsets(left, 0, |s.flash| + |s.buffered| + |got|, size);
      OffsetsStep(chunks, |s.buffered|, |s.flash|, size);
      OffsetsGrow(left, 0, |s.flash| + |s.buffered| + |got|, size);
      RunStep(chunks, ending, s, turn, endCode, size);
      WriteTurn(s, got, device);
      if device.writeOk(|s.flash|) {
        WritesCode(left, ending, State(true, [], s.flash + (s.buffered + got)), device, size);
        LaterRefused(|s.flash|, later, device);
      } else {
        FirstRefused(|s.flash|, later, device);
      }
    }
  }

  lemma NoWrites<T>(ending: Ending, device: Device<T>)
    ensures !Refused([], device) && EndOf(Closed, device) == EndCode(device)
    ensures EndOf(ending, device) == if ending == Broken then -3 else EndCode(device)
  {}

  lemma WriteTurn<T>(s: State<T>, got: seq<T>, device: Device<T>)
    requires s.checked
    ensures var b := s.buffered + got;
            Turn(s, got, device) == if device.writeOk(|s.flash|) then Go(State(true, [], s.flash + b))
                                    else Stop(-7, State(true, b, s.flash))
  {}

  lemma FirstRefused<T>(first: nat, later: seq<nat>, device: Device<T>)
    requires !device.writeOk(first) && forall i | 0 <= i < |later| :: later[i] >= first
    ensures Refused([first] + later, device) && StoppedAt([first] + later, first, device)
  {
    assert !device.writeOk(([first] + later)[0]);
  }

  lemma LaterRefused<T>(first: nat, later: seq<nat>, device: Device<T>)
    requires device.writeOk(first)
    ensures Refused([first] + later, device) <==> Refused(later, device)
    ensures forall flash: nat :: StoppedAt(later, flash, device) ==> StoppedAt([first] + later, flash, device)
  {
    var all := [first] + later;
    assert forall i | 0 <= i < |later| :: all[i + 1] == later[i];
    if Refused(all, device) {
      var i :| 0 <= i < |all| && !device.writeOk(all[i]);
      assert !device.writeOk(later[i - 1]);
    }
  }

  /** The code, when so much of the stream is in the buffer and the header is not complete. */
  function CodeFrom<T>(stream: seq<T>, f: nat, left: seq<seq<T>>, ending: Ending, device: Device<T>, size: nat): int
    requires Proper(left) && f <= size && device.headerSize < size && f <= |stream|
  {
    if f <= device.headerSize then EndOf(ending, device)
    else if device.rejects(stream[..device.headerSize]) then -5
    else if !device.beginOk then -6
    else if Refused(Offsets(left, f, 0, size), device) then -7
    else EndOf(if f == size then Closed else ending, device)
  }

  /** What the code tells of the flash. */
  ghost predicate FlashIs<T>(o: UpdateOutcome<T>, offsets: seq<nat>, device: Device<T>) {
    && (o.rc == -5 || o.rc == -6 ==> o.state.flash == [])
    && (o.rc == -7 ==> StoppedAt(offsets, |o.state.flash|, device))
  }

  lemma {:induction false} GathersCode<T>(stream: seq<T>, chunks: seq<seq<T>>, ending: Ending, s: State<T>,
                                          device: Device<T>, size: nat)
    requires Proper(chunks) && device.headerSize < size
    requires !s.checked && s.flash == [] && |s.buffered| <= device.headerSize
    requires s.buffered + Flat(chunks) == stream
    ensures var o := Run(chunks, ending, s, Turning(device), EndCode(device), size);
            var f := FirstFill(chunks, |s.buffered|, device.headerSize, size);
            var left := AfterFill(chunks, |s.buffered|, device.headerSize, size);
            && f <= |stream|
            && o.rc == CodeFrom(stream, f, left, ending, device, size)
            && FlashIs(o, Offsets(left, f, 0, size), device)
    decreases |Flat(chunks)|
  {
    hide Run, AfterFill, FirstFill, CodeFrom, FlashIs, Offsets, Turn;
    if chunks == [] {
      NothingComes(stream, ending, s, device, size);
    } else {
      var space := size - |s.buffered|;
      RecvSplits(chunks, space);
      var got, left := Received(chunks, space), Left(chunks, space);
      var b := s.buffered + got;
      Assoc(s.buffered, got, Flat(left));
      FillStep(chunks, |s.buffered|, device.headerSize, size);
      AfterStep(chunks, |s.buffered|, device.headerSize, size);
      RunStep(chunks, ending, s, Turning(device), EndCode(device), size);
      if |b| <= device.headerSize {
        StillGathering(s, got, device);
        GathersCode(stream, left, ending, State(false, b, s.flash), device, size);
      } else {
        HeaderCode(stream, left, ending, s, got, device, size);
      }
    }
  }

  lemma StillGathering<T>(s: State<T>, got: seq<T>, device: Device<T>)
    requires !s.checked && |s.buffered + got| <= device.headerSize
    ensures Turn(s, got, device) == Go(State(false, s.buffered + got, s.flash))
  {}

  lemma AfterStep<T>(chunks: seq<seq<T>>, filled: nat, headerSize: nat, size: nat)
    requires Proper(chunks) && filled <= headerSize < size && chunks != []
    ensures
      var space := size - filled;
      AfterFill(chunks, filled, headerSize, size)
      == AfterFill(Left(chunks, space), filled + |Received(chunks, space)|, headerSize, size)
  {}

  lemma NothingComes<T>(stream: seq<T>, ending: Ending, s: State<T>, device: Device<T>, size: nat)
    requires device.headerSize < size && !s.checked && s.flash == [] && |s.buffered| <= device.headerSize
    requires s.buffered + Flat([]) == stream
    ensures var o := Run([], ending, s, Turning(device), EndCode(device), size);
            var f := FirstFill<T>([], |s.buffered|, device.headerSize, size);
            var left := AfterFill<T>([], |s.buffered|, device.headerSize, size);
            && f <= |stream|
            && o.rc == CodeFrom(stream, f, left, ending, device, size)
            && FlashIs(o, Offsets(left, f, 0, size), device)
  {}

  /** The receive that completes the header. */
  lemma HeaderCode<T>(stream: seq<T>, left: seq<seq<T>>, ending: Ending, s: State<T>, got: seq<T>,
                      device: Device<T>, size: nat)
    requires Proper(left) && device.headerSize < |s.buffered + got| <= size && !s.checked && s.flash == []
    requires s.buffered + got + Flat(left) == stream
    ensures var b := s.buffered + got;
            var turned := Turn(s, got, device);
            var o := if turned.Stop? then UpdateOutcome(turned.rc, turned.state)
                     else Run(left, ending, turned.state, Turning(device), EndCode(device), size);
            && FirstFill(left, |b|, device.headerSize, size) == |b| <= |stream|
            && AfterFill(left, |b|, device.headerSize, size) == left
            && o.rc == CodeFrom(stream, |b|, left, ending, device, size)
            && FlashIs(o, Offsets(left, |b|, 0, size), device)
  {
    hide Run, Offsets;
    var b := s.buffered + got;
    FillDone(left, |b|, device.headerSize, size);
    assert b[..device.headerSize] == stream[..device.headerSize];
    if !device.rejects(b[..device.headerSize]) && device.beginOk {
      WritesCode(left, ending, State(true, b, s.flash), device, size);
    }
  }

  /** The code of every update. */
  lemma UpdateCode<T>(chunks: seq<seq<T>>, ending: Ending, device: Device<T>, size: nat)
    requires Proper(chunks) && device.headerSize < size
    ensures var o := Update(chunks, ending, device, size);
            var f := FirstFill(chunks, 0, device.headerSize, size);
            var left := AfterFill(chunks, 0, device.headerSize, size);
            && o.rc == CodeFrom(Flat(chunks), f, left, ending, device, size)
            && FlashIs(o, Offsets(left, f, 0, size), device)
  {
    Empty(Flat(chunks));
    GathersCode(Flat(chunks), chunks, ending, Start(), device, size);
  }

  /** The header is complete. */
  predicate HeaderComes<T>(chunks: seq<seq<T>>, headerSize: nat, size: nat)
    requires Proper(chunks) && headerSize < size
  {
    FirstFill(chunks, 0, headerSize, size) > headerSize
  }

  /** An update is refused for its header exactly when the device rejects it, and then nothing is written. */
  lemma RejectedHeaderStops<T>(chunks: seq<seq<T>>, ending: Ending, device: Device<T>, size: nat)
    requires Proper(chunks) && device.headerSize < size
    ensures var o := Update(chunks, ending, device, size);
            && (o.rc == -5 <==> HeaderComes(chunks, device.headerSize, size)
                                && device.rejects(Flat(chunks)[..device.headerSize]))
            && (o.rc == -5 ==> o.state.flash == [])
  {
    UpdateCode(chunks, ending, device, size);
  }

  /** It fails to begin exactly when the header passes and the flash refuses to begin, and then nothing is written. */
  lemma RefusedBeginStops<T>(chunks: seq<seq<T>>, ending: Ending, device: Device<T>, size: nat)
    requires Proper(chunks) && device.headerSize < size
    ensures var o := Update(chunks, ending, device, size);
            && (o.rc == -6 <==> HeaderComes(chunks, device.headerSize, size)
                                && !device.rejects(Flat(chunks)[..device.headerSize]) && !device.beginOk)
            && (o.rc == -6 ==> o.state.flash == [])
  {
    UpdateCode(chunks, ending, device, size);
  }

  /** It fails to write exactly when the header passes, the flash begins and a write the loop reaches is refused; then
      everything before the first refused write is in flash. */
  lemma RefusedWriteStops<T>(chunks: seq<seq<T>>, ending: Ending, device: Device<T>, size: nat)
    requires Proper(chunks) && device.headerSize < size
    ensures var o := Update(chunks, ending, device, size);
            var f := FirstFill(chunks, 0, device.headerSize, size);
            var offsets := Offsets(AfterFill(chunks, 0, device.headerSize, size), f, 0, size);
            && (o.rc == -7 <==> HeaderComes(chunks, device.headerSize, size)
                                && !device.rejects(Flat(chunks)[..device.headerSize]) && device.beginOk
                                && Refused(offsets, device))
            && (o.rc == -7 ==> StoppedAt(offsets, |o.state.flash|, device))
  {
    UpdateCode(chunks, ending, device, size);
  }
}
