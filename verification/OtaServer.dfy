/** A stream that arrives in pieces, and one call of recv on it. */
module Arrival {
  import opened Sequences
  function Flat<T>(chunks: seq<seq<T>>): seq<T> {
    if chunks == [] then [] else chunks[0] + Flat(chunks[1..])
  }

  ghost predicate Proper<T>(chunks: seq<seq<T>>) { forall i | 0 <= i < |chunks| :: |chunks[i]| > 0 }

  /** At most one piece, and at most what there is room for. */
  function Received<T>(chunks: seq<seq<T>>, space: nat): (t: seq<T>)
    ensures |t| <= space
  {
    if chunks == [] then [] else if |chunks[0]| <= space then chunks[0] else chunks[0][..space]
  }

  function Left<T>(chunks: seq<seq<T>>, space: nat): (rest: seq<seq<T>>)
    requires Proper(chunks)
    ensures Proper(rest)
  {
    if chunks == [] then []
    else if |chunks[0]| <= space then chunks[1..]
    else [chunks[0][space..]] + chunks[1..]
  }

  lemma {:induction false} RecvSplits<T>(chunks: seq<seq<T>>, space: nat)
    requires Proper(chunks)
    ensures Flat(chunks) == Received(chunks, space) + Flat(Left(chunks, space))
    ensures Received(chunks, space) == [] <==> chunks == [] || space == 0
  {
    if chunks != [] && |chunks[0]| > space {
      var c, rest := chunks[0], Flat(chunks[1..]);
      assert ([c[space..]] + chunks[1..])[1..] == chunks[1..];
      RejoinBefore(c, space, rest);
    }
  }

  /** How much a buffer of that size holds when more than threshold has come in, or at the end if that never happens. */
  function FirstFill<T>(chunks: seq<seq<T>>, filled: nat, threshold: nat, size: nat): (f: nat)
    requires Proper(chunks) && filled <= size && threshold < size
    ensures filled <= f <= size && f <= filled + |Flat(chunks)|
    ensures f <= threshold ==> f == filled + |Flat(chunks)|
    decreases |Flat(chunks)|
  {
    if filled > threshold || chunks == [] then filled
    else
      RecvSplits(chunks, size - filled);
      FirstFill(Left(chunks, size - filled), filled + |Received(chunks, size - filled)|, threshold, size)
  }
}

/** The firmware update server: a received stream goes through one buffer into flash, the first write deferred. */
module OtaServer {
  import opened Sequences
  import opened Words
  import opened Arrival

  const BUFFSIZE: nat := 8192

  /** What the connection will deliver: pieces of any sizes, then its end. */
  datatype Ending = Closed | Broken

  /** What the rest of the device answers; the header check and the flash are parts of the platform. */
  datatype Device<!T> = Device(headerSize: nat, rejects: seq<T> -> bool, beginOk: bool,
                               writeOk: nat -> bool, endOk: bool, bootOk: bool)

  /** The loop's variables: is the header checked, what is in the buffer, what is in flash. */
  datatype State<T> = State(checked: bool, buffered: seq<T>, flash: seq<T>)

  datatype Turned<T> = Go(state: State<T>) | Stop(rc: int, state: State<T>)

  /** What is done after a receive: the header check, or a write of all that is buffered. */
  function Turn<T>(s: State<T>, got: seq<T>, device: Device<T>): Turned<T> {
    var b := s.buffered + got;
    if !s.checked then
      if |b| <= device.headerSize then Go(State(false, b, s.flash))
      else if device.rejects(b[..device.headerSize]) then Stop(-5, State(false, b, s.flash))
      else if !device.beginOk then Stop(-6, State(true, b, s.flash))
      else Go(State(true, b, s.flash))
    else if !device.writeOk(|s.flash|) then Stop(-7, State(true, b, s.flash))
    else Go(State(true, [], s.flash + b))
  }

  type TurnFn<!T> = (State<T>, seq<T>) -> Turned<T>

  function Turning<T>(device: Device<T>): TurnFn<T> { (s: State<T>, got: seq<T>) => Turn(s, got, device) }

  datatype UpdateOutcome<T> = UpdateOutcome(rc: int, state: State<T>)

  /** The code of a clean end. */
  function EndCode<T>(device: Device<T>): int {
    if !device.endOk then -8 else if !device.bootOk then -9 else 0
  }

  function Room(size: nat, filled: nat): nat { if filled <= size then size - filled else 0 }

  /** The whole loop, from any state; a receive into a full buffer returns nothing, like a closed connection. */
  function Run<T>(chunks: seq<seq<T>>, ending: Ending, s: State<T>, turn: TurnFn<T>, endCode: int, size: nat)
    : UpdateOutcome<T>
    requires Proper(chunks)
    decreases |Flat(chunks)|
  {
    var space := Room(size, |s.buffered|);
    if space == 0 then UpdateOutcome(endCode, s)
    else if chunks == [] then UpdateOutcome(if ending == Broken then -3 else endCode, s)
    else
      RecvSplits(chunks, space);
      var turned := turn(s, Received(chunks, space));
      if turned.Stop? then UpdateOutcome(turned.rc, turned.state)
      else Run(Left(chunks, space), ending, turned.state, turn, endCode, size)
  }

  /** The pieces leave room in the buffer behind the completed header, and something follows. */
  predicate Complete<T>(chunks: seq<seq<T>>, headerSize: nat, size: nat)
    requires Proper(chunks) && headerSize < size
  {
    var f := FirstFill(chunks, 0, headerSize, size);
    headerSize < f < |Flat(chunks)| && f < size
  }

  /** The image that a clean end leaves in flash. */
  function Image<T>(chunks: seq<seq<T>>, headerSize: nat, size: nat): seq<T>
    requires Proper(chunks) && headerSize < size
  {
    if Complete(chunks, headerSize, size) then Flat(chunks) else []
  }

  /** How far the loop is: header missing, header complete and nothing written, or writing. */
  ghost predicate Progress<T>(stream: seq<T>, f: nat, chunks: seq<seq<T>>, headerSize: nat, size: nat, s: State<T>)
    requires Proper(chunks) && headerSize < size
  {
    && s.flash + s.buffered + Flat(chunks) == stream
    && |s.buffered| <= size
    && (if !s.checked then
          s.flash == [] && |s.buffered| <= headerSize && FirstFill(chunks, |s.buffered|, headerSize, size) == f
        else if s.flash == [] then headerSize < f == |s.buffered|
        else s.buffered == [] && headerSize < f < |s.flash| && f < size)
  }

  lemma FillStep<T>(chunks: seq<seq<T>>, filled: nat, headerSize: nat, size: nat)
    requires Proper(chunks) && filled <= headerSize < size && chunks != []
    ensures
      var space := size - filled;
      FirstFill(chunks, filled, headerSize, size)
      == FirstFill(Left(chunks, space), filled + |Received(chunks, space)|, headerSize, size)
  {}

  lemma FillDone<T>(chunks: seq<seq<T>>, filled: nat, headerSize: nat, size: nat)
    requires Proper(chunks) && headerSize < filled <= size
    ensures FirstFill(chunks, filled, headerSize, size) == filled
  {}

  ghost predicate Accounting<T(!new)>(turn: TurnFn<T>) {
    forall s: State<T>, got: seq<T> ::
      turn(s, got).state.flash + turn(s, got).state.buffered == s.flash + s.buffered + got
      && s.flash <= turn(s, got).state.flash
  }

  /** One more receive keeps the account: flash, then buffer, then what is still to come make up the stream. */
  lemma TurnAccounts<T>(s: State<T>, got: seq<T>, device: Device<T>)
    ensures Turn(s, got, device).state.flash + Turn(s, got, device).state.buffered == s.flash + s.buffered + got
    ensures s.flash <= Turn(s, got, device).state.flash
  {
    assert s.flash + (s.buffered + got) == s.flash + s.buffered + got;
  }

  lemma TurningAccounts<T(!new)>(device: Device<T>)
    ensures Accounting(Turning(device))
  {
    forall s: State<T>, got: seq<T>
      ensures Turn(s, got, device).state.flash + Turn(s, got, device).state.buffered == s.flash + s.buffered + got
              && s.flash <= Turn(s, got, device).state.flash
    {
      TurnAccounts(s, got, device);
    }
  }

  /** What is in flash and in the buffer is always what was received, in order, with nothing missing. */
  lemma {:induction false} RunAccounts<T(!new)>(chunks: seq<seq<T>>, ending: Ending, s: State<T>, turn: TurnFn<T>,
                                                endCode: int, size: nat)
    requires Proper(chunks) && Accounting(turn)
    ensures
      var o := Run(chunks, ending, s, turn, endCode, size);
      o.state.flash + o.state.buffered <= s.flash + s.buffered + Flat(chunks) && s.flash <= o.state.flash
    decreases |Flat(chunks)|
  {
    var space := Room(size, |s.buffered|);
    if chunks != [] && space > 0 {
      RecvSplits(chunks, space);
      var got, left := Received(chunks, space), Left(chunks, space);
      var turned := turn(s, got);
      Assoc(s.flash + s.buffered, got, Flat(left));
      if turned.Go? {
        RunAccounts(left, ending, turned.state, turn, endCode, size);
      }
    }
  }

  const CLEAN := {0, -8, -9}

  lemma GathersProgress<T>(stream: seq<T>, f: nat, chunks: seq<seq<T>>, headerSize: nat, size: nat, s: State<T>,
                           got: seq<T>)
    requires Proper(chunks) && headerSize < size && |s.buffered| < size && chunks != [] && !s.checked
    requires got == Received(chunks, size - |s.buffered|)
    requires Progress(stream, f, chunks, headerSize, size, s)
    ensures
      Progress(stream, f, Left(chunks, size - |s.buffered|), headerSize, size,
               State(|s.buffered + got| > headerSize, s.buffered + got, s.flash))
  {
    var left := Left(chunks, size - |s.buffered|);
    RecvSplits(chunks, size - |s.buffered|);
    Assoc(s.flash, s.buffered, got);
    Assoc(s.flash + s.buffered, got, Flat(left));
    FillStep(chunks, |s.buffered|, headerSize, size);
    if |s.buffered + got| > headerSize {
      FillDone(left, |s.buffered + got|, headerSize, size);
    }
  }

  lemma WritesProgress<T>(stream: seq<T>, f: nat, chunks: seq<seq<T>>, headerSize: nat, size: nat, s: State<T>,
                          got: seq<T>)
    requires Proper(chunks) && headerSize < size && |s.buffered| < size && chunks != [] && s.checked
    requires got == Received(chunks, size - |s.buffered|)
    requires Progress(stream, f, chunks, headerSize, size, s)
    ensures
      Progress(stream, f, Left(chunks, size - |s.buffered|), headerSize, size,
               State(true, [], s.flash + (s.buffered + got)))
  {
    var left := Left(chunks, size - |s.buffered|);
    RecvSplits(chunks, size - |s.buffered|);
    Assoc(s.flash, s.buffered, got);
    Assoc(s.flash + s.buffered, got, Flat(left));
    assert s.flash + (s.buffered + got) + [] == s.flash + (s.buffered + got);
  }

  lemma TurnProgresses<T>(stream: seq<T>, f: nat, chunks: seq<seq<T>>, size: nat, s: State<T>, device: Device<T>)
    requires Proper(chunks) && device.headerSize < size && |s.buffered| < size && chunks != []
    requires Progress(stream, f, chunks, device.headerSize, size, s)
    ensures
      var turned := Turning(device)(s, Received(chunks, Room(size, |s.buffered|)));
      if turned.Go?
      then Progress(stream, f, Left(chunks, Room(size, |s.buffered|)), device.headerSize, size, turned.state)
      else turned.rc !in CLEAN
  {
    var got := Received(chunks, size - |s.buffered|);
    if s.checked {
      WritesProgress(stream, f, chunks, device.headerSize, size, s, got);
    } else {
      GathersProgress(stream, f, chunks, device.headerSize, size, s, got);
    }
  }

  /** What a clean end leaves in flash. */
  lemma {:induction false} RunImage<T>(all: seq<seq<T>>, f: nat, chunks: seq<seq<T>>, ending: Ending, s: State<T>,
                                       device: Device<T>, size: nat)
    requires Proper(all) && Proper(chunks) && device.headerSize < size
    requires f == FirstFill(all, 0, device.headerSize, size)
    requires Progress(Flat(all), f, chunks, device.headerSize, size, s)
    ensures
      var o := Run(chunks, ending, s, Turning(device), EndCode(device), size);
      o.rc in CLEAN ==> o.state.flash == Image(all, device.headerSize, size)
    decreases |Flat(chunks)|
  {
    var turn, endCode, space := Turning(device), EndCode(device), Room(size, |s.buffered|);
    if chunks == [] || space == 0 {
      AtEnd(all, chunks, s, device.headerSize, size);
    } else {
      RecvSplits(chunks, space);
      TurnProgresses(Flat(all), f, chunks, size, s, device);
      var turned := turn(s, Received(chunks, space));
      if turned.Go? {
        RunImage(all, f, Left(chunks, space), ending, turned.state, device, size);
      }
    }
  }

  lemma AtEnd<T>(all: seq<seq<T>>, chunks: seq<seq<T>>, s: State<T>, headerSize: nat, size: nat)
    requires Proper(all) && Proper(chunks) && headerSize < size
    requires Progress(Flat(all), FirstFill(all, 0, headerSize, size), chunks, headerSize, size, s)
    requires chunks == [] || |s.buffered| == size
    ensures s.flash == Image(all, headerSize, size)
  {}

  ghost predicate Explains<T>(rc: int, s: State<T>, ending: Ending, device: Device<T>) {
    && (rc == -3 ==> ending == Broken)
    && (rc == -5 ==> s.flash == [] && |s.buffered| > device.headerSize
                     && device.rejects(s.buffered[..device.headerSize]))
    && (rc == -6 ==> s.flash == [] && |s.buffered| > device.headerSize && !device.beginOk)
    && (rc == -7 ==> !device.writeOk(|s.flash|))
    && (rc == -8 ==> !device.endOk)
    && (rc == -9 ==> device.endOk && !device.bootOk)
    && (rc == 0 ==> device.endOk && device.bootOk)
    && rc in CLEAN + {-3, -5, -6, -7}
  }

  /** Why the loop stops. */
  lemma {:induction false} RunStops<T>(chunks: seq<seq<T>>, ending: Ending, s: State<T>, device: Device<T>, size: nat)
    requires Proper(chunks) && (!s.checked ==> s.flash == [])
    ensures
      var o := Run(chunks, ending, s, Turning(device), EndCode(device), size);
      Explains(o.rc, o.state, ending, device)
    decreases |Flat(chunks)|
  {
    var space := Room(size, |s.buffered|);
    if chunks != [] && space > 0 {
      RecvSplits(chunks, space);
      var turned := Turning(device)(s, Received(chunks, space));
      if turned.Go? {
        RunStops(Left(chunks, space), ending, turned.state, device, size);
      }
    }
  }

  function Start<T>(): State<T> { State(false, [], []) }

  function Update<T>(chunks: seq<seq<T>>, ending: Ending, device: Device<T>, size: nat): UpdateOutcome<T>
    requires Proper(chunks)
  {
    Run(chunks, ending, Start(), Turning(device), EndCode(device), size)
  }

  /** After a clean end the flash holds the whole stream or nothing, and it is known beforehand which. */
  lemma UpdateImage<T>(chunks: seq<seq<T>>, ending: Ending, device: Device<T>, size: nat)
    requires Proper(chunks) && device.headerSize < size
    ensures
      var o := Update(chunks, ending, device, size);
      o.rc in CLEAN ==>
        && o.state.flash == Image(chunks, device.headerSize, size)
        && (o.state.flash == Flat(chunks) <==> Flat(chunks) == [] || Complete(chunks, device.headerSize, size))
  {
    RunImage(chunks, FirstFill(chunks, 0, device.headerSize, size), chunks, ending, Start(), device, size);
  }

  /** At every return the flash and the buffer hold a prefix of the stream, and the code tells what stopped the loop. */
  lemma UpdateAccounts<T(!new)>(chunks: seq<seq<T>>, ending: Ending, device: Device<T>, size: nat)
    requires Proper(chunks)
    ensures
      var o := Update(chunks, ending, device, size);
      o.state.flash + o.state.buffered <= Flat(chunks) && Explains(o.rc, o.state, ending, device)
  {
    TurningAccounts(device);
    RunAccounts(chunks, ending, Start(), Turning(device), EndCode(device), size);
    RunStops(chunks, ending, Start(), device, size);
  }

  /** With a device that takes everything, a connection that ends well and room behind the header, all of it arrives. */
  lemma GoodUpdateSucceeds<T(!new)>(chunks: seq<seq<T>>, device: Device<T>, size: nat)
    requires Proper(chunks) && device.headerSize < size && Complete(chunks, device.headerSize, size)
    requires device.beginOk && device.endOk && device.bootOk && forall n: nat :: device.writeOk(n)
    requires !device.rejects(Flat(chunks)[..device.headerSize])
    ensures Update(chunks, Closed, device, size).rc == 0
    ensures Update(chunks, Closed, device, size).state.flash == Flat(chunks)
  {
    UpdateAccounts(chunks, Closed, device, size);
    UpdateImage(chunks, Closed, device, size);
    NothingStops(Flat(chunks), Update(chunks, Closed, device, size), device);
  }

  lemma NothingStops<T(!new)>(stream: seq<T>, o: UpdateOutcome<T>, device: Device<T>)
    requires o.state.flash + o.state.buffered <= stream && Explains(o.rc, o.state, Closed, device)
    requires device.beginOk && device.endOk && device.bootOk && forall n: nat :: device.writeOk(n)
    requires device.headerSize <= |stream| && !device.rejects(stream[..device.headerSize])
    ensures o.rc == 0
  {
    PrefixOfSum(o.state.flash, o.state.buffered, stream, device.headerSize);
  }

  lemma PrefixOfSum<T>(a: seq<T>, b: seq<T>, s: seq<T>, n: nat)
    ensures a == [] && a + b <= s && n <= |b| ==> n <= |s| && b[..n] == s[..n]
  {
    if a == [] {
      assert a + b == b;
    }
  }

  /** The bytes that recv puts into the buffer behind the ones it holds. */
  method Recv(buffer: array<byte>, dataRead: nat, chunks: seq<seq<byte>>, ending: Ending)
    returns (len: int, left: seq<seq<byte>>)
    requires dataRead <= buffer.Length && Proper(chunks)
    modifies buffer
    ensures left == Left(chunks, buffer.Length - dataRead)
    ensures len <= buffer.Length - dataRead
    ensures len > 0 ==> buffer[..dataRead + len] == old(buffer[..dataRead]) + Received(chunks, buffer.Length - dataRead)
    ensures len <= 0 ==> buffer[..dataRead] == old(buffer[..dataRead]) && left == chunks
    ensures len > 0 <==> chunks != [] && buffer.Length > dataRead
    ensures len < 0 <==> chunks == [] && buffer.Length > dataRead && ending == Broken
  {
    var space := buffer.Length - dataRead;
    RecvSplits(chunks, space);
    left := Left(chunks, space);
    var got := Received(chunks, space);
    len := |got|;
    if len > 0 {
      forall i | 0 <= i < len {
        buffer[dataRead + i] := got[i];
      }
    } else if space > 0 && ending == Broken {
      len := -1;
    }
  }

  /** What happens to the buffer and the flash after a receive; rc is 0 when the loop goes on. */
  method Handle(rxBuffer: array<byte>, filled: nat, wasChecked: bool, flash: seq<byte>, length: nat,
                device: Device<byte>, ghost s: State<byte>, ghost got: seq<byte>)
    returns (rc: int, checked: bool, flash': seq<byte>, length': nat, dataRead: nat)
    requires filled <= rxBuffer.Length && length == |flash|
    requires s.checked == wasChecked && s.flash == flash && rxBuffer[..filled] == s.buffered + got
    ensures length' == |flash'| && dataRead <= filled
    ensures Turn(s, got, device)
         == var t := State(checked, rxBuffer[..dataRead], flash'); if rc == 0 then Go(t) else Stop(rc, t)
  {
    rc, checked, flash', length', dataRead := 0, wasChecked, flash, length, filled;
    if !wasChecked {
      if dataRead > device.headerSize {
        assert rxBuffer[..dataRead][..device.headerSize] == rxBuffer[..device.headerSize];
        if device.rejects(rxBuffer[..device.headerSize]) {
          rc := -5;
          return;
        }
        checked := true;
        if !device.beginOk {
          rc := -6;
        }
      }
    } else {
      if !device.writeOk(length) {
        rc := -7;
        return;
      }
      flash' := flash + rxBuffer[..dataRead];
      length' := length + dataRead;
      dataRead := 0;
      assert rxBuffer[..dataRead] == [];
    }
  }

  lemma RunStep<T>(chunks: seq<seq<T>>, ending: Ending, s: State<T>, turn: TurnFn<T>, endCode: int, size: nat)
    requires Proper(chunks) && chunks != [] && |s.buffered| < size
    ensures
      var space := size - |s.buffered|;
      var turned := turn(s, Received(chunks, space));
      Run(chunks, ending, s, turn, endCode, size) ==
      if turned.Stop? then UpdateOutcome(turned.rc, turned.state)
      else Run(Left(chunks, space), ending, turned.state, turn, endCode, size)
    ensures |Flat(Left(chunks, size - |s.buffered|))| < |Flat(chunks)|
  {
    RecvSplits(chunks, size - |s.buffered|);
  }

  lemma RunEnd<T>(chunks: seq<seq<T>>, ending: Ending, s: State<T>, turn: TurnFn<T>, endCode: int, size: nat)
    requires Proper(chunks) && |s.buffered| <= size && (chunks == [] || |s.buffered| == size)
    ensures Run(chunks, ending, s, turn, endCode, size)
         == UpdateOutcome(if |s.buffered| < size && ending == Broken then -3 else endCode, s)
  {}

  /** One turn of the loop: a receive, and what is done with it. */
  method ReceiveOnce(rxBuffer: array<byte>, filled: nat, wasChecked: bool, flash: seq<byte>, length: nat,
                     peer: seq<seq<byte>>, ending: Ending, device: Device<byte>,
                     ghost s: State<byte>, ghost endCode: int)
    returns (len: int, chunks: seq<seq<byte>>, rc: int, checked: bool, flash': seq<byte>, length': nat, dataRead: nat,
             ghost s': State<byte>)
    requires Proper(peer) && filled <= rxBuffer.Length && length == |flash|
    requires s == State(wasChecked, rxBuffer[..filled], flash)
    modifies rxBuffer
    ensures Proper(chunks) && dataRead <= rxBuffer.Length && length' == |flash'|
    ensures s' == State(checked, rxBuffer[..dataRead], flash')
    ensures len > 0 ==> |Flat(chunks)| < |Flat(peer)|
    ensures len <= 0 ==> rc == 0 && chunks == peer
    ensures Run(peer, ending, s, Turning(device), endCode, rxBuffer.Length) ==
            if len <= 0 then UpdateOutcome(if len < 0 then -3 else endCode, s')
            else if rc != 0 then UpdateOutcome(rc, s')
            else Run(chunks, ending, s', Turning(device), endCode, rxBuffer.Length)
  {
    rc, checked, flash', length', dataRead, s' := 0, wasChecked, flash, length, filled, s;
    if peer != [] && filled < rxBuffer.Length {
      RunStep(peer, ending, s, Turning(device), endCode, rxBuffer.Length);
    } else {
      RunEnd(peer, ending, s, Turning(device), endCode, rxBuffer.Length);
    }
    len, chunks := Recv(rxBuffer, filled, peer, ending);
    if len > 0 {
      ghost var got := Received(peer, rxBuffer.Length - filled);
      rc, checked, flash', length', dataRead :=
        Handle(rxBuffer, filled + len, wasChecked, flash, length, device, s, got);
      s' := State(checked, rxBuffer[..dataRead], flash');
    }
  }

  /** The firmware update over one connection; the buffer and what it holds at the end are handed out as well. */
  method DoRetransmit(peer: seq<seq<byte>>, ending: Ending, device: Device<byte>)
    returns (rc: int, flash: seq<byte>, binaryFileLength: nat, rxBuffer: array<byte>, dataRead: nat,
             ghost s: State<byte>)
    requires Proper(peer)
    ensures fresh(rxBuffer) && rxBuffer.Length == BUFFSIZE && dataRead <= BUFFSIZE && binaryFileLength == |flash|
    ensures Update(peer, ending, device, rxBuffer.Length) == UpdateOutcome(rc, s)
    ensures s.flash == flash && s.buffered == rxBuffer[..dataRead]
  {
    rxBuffer := new byte[BUFFSIZE];
    var imageHeaderWasChecked := false;
    var chunks := peer;
    var len := 1;
    rc, flash, binaryFileLength, dataRead := 0, [], 0, 0;
    s := Start();
    while len > 0
      invariant Proper(chunks) && dataRead <= rxBuffer.Length && binaryFileLength == |flash|
      invariant s == State(imageHeaderWasChecked, rxBuffer[..dataRead], flash)
      invariant Update(peer, ending, device, rxBuffer.Length) ==
                if len <= 0 then UpdateOutcome(if len < 0 then -3 else EndCode(device), s)
                else Run(chunks, ending, s, Turning(device), EndCode(device), rxBuffer.Length)
      decreases |Flat(chunks)|, len
    {
      len, chunks, rc, imageHeaderWasChecked, flash, binaryFileLength, dataRead, s :=
        ReceiveOnce(rxBuffer, dataRead, imageHeaderWasChecked, flash, binaryFileLength, chunks, ending, device, s,
                    EndCode(device));
      if rc != 0 {
        return;
      }
    }
    if len < 0 {
      rc := -3;
    } else if !device.endOk {
      rc := -8;
    } else if !device.bootOk {
      rc := -9;
    } else {
      rc := 0;
    }
  }

  /** A first piece that fills the buffer leaves no room for the receive that would have caused the first write: the
      update ends as if the connection had, with nothing written. */
  lemma FullBufferLosesImage<T>(chunks: seq<seq<T>>, ending: Ending, device: Device<T>, size: nat)
    requires Proper(chunks) && device.headerSize < size && chunks != [] && |chunks[0]| >= size
    requires !device.rejects(chunks[0][..device.headerSize]) && device.beginOk
    ensures Update(chunks, ending, device, size) == UpdateOutcome(EndCode(device), State(true, chunks[0][..size], []))
  {
    var turn, start, got := Turning(device), Start<T>(), Received(chunks, size);
    RunStep(chunks, ending, start, turn, EndCode(device), size);
    assert got == chunks[0][..size];
    Empty(got);
    PrefixOfPrefix(chunks[0], device.headerSize, size);
    assert turn(start, got) == Go(State(true, got, []));
    RunEnd(Left(chunks, size), ending, State(true, got, []), turn, EndCode(device), size);
  }

  /** So does, after a clean end, every stream whose header is completed by its last piece, or never. */
  lemma LastPieceLosesImage<T>(chunks: seq<seq<T>>, ending: Ending, device: Device<T>, size: nat)
    requires Proper(chunks) && device.headerSize < size
    requires FirstFill(chunks, 0, device.headerSize, size) == |Flat(chunks)|
    ensures Update(chunks, ending, device, size).rc in CLEAN ==> Update(chunks, ending, device, size).state.flash == []
  {
    UpdateImage(chunks, ending, device, size);
  }
}
