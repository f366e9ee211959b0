/** The standalone bridge of conpty-proxy/conpty_proxy.c: startup checks and
    their exit codes, the control-channel resize protocol, the completion
    dispatcher and the stdin forwarder. Every Win32 call is an oracle input:
    a boolean for success, or the bytes a read returned. */
module Proxy {
  import opened Common
  import opened ApiLoader
  import opened ResizeMessage

  // Exit codes, in the order of the enum in conpty_proxy.c.
  const ErrInvalidArgc: int := 1
  const ErrIdDup: int := 2
  const ErrCreateCtrlPipe: int := 3
  const ErrApiInit: int := 4
  const ErrInvalidSize: int := 5
  const ErrCreateInPipe: int := 6
  const ErrCreateOutPipe: int := 7
  const ErrCreatePseudoConsole: int := 8
  const ErrOpenInPipe: int := 9
  const ErrOpenOutPipe: int := 10
  const ErrMallocProcAttr: int := 11
  const ErrInitProcAttr: int := 12
  const ErrUpdateProcAttr: int := 13
  const ErrCreateProc: int := 14
  const ErrCreateMainIocp: int := 15
  const ErrResizeIdInvalid: int := 16
  const ErrBindIoRead: int := 17
  const ErrBindCtrl: int := 18
  /** The bare `return -1` when the dispatcher thread cannot be started. */
  const ErrThread: int := -1

  /** Size of `buf` in `on_ctrl_accept`: the most one control read returns. */
  const CtrlReadSize: nat := 64
  /** `sizeof(io_buf) - 1`: the most one output read transfers. */
  const IoReadRequest: nat := 8191
  /** `sizeof(std_buf)`: the most one stdin read returns. */
  const StdBufSize: nat := 8192

  const KeyIoRead: nat := 1
  const KeyCtrlAccept: nat := 2

  // ---------------------------------------------------------------------
  // Control channel: on_ctrl_accept

  /** The size stored after handling one control message, and the resize
      request issued to the pseudo console, if any. */
  datatype Accepted = Accepted(size: Size, resized: Option<Size>)

  /** `on_ctrl_accept`, given the bytes its synchronous read returned. The
      text is taken to end after those bytes (the C buffer is not
      terminated; see README). */
  function OnCtrlAccept(current: Size, received: string): (r: Accepted)
    requires |received| <= CtrlReadSize
    ensures r.resized.None? ==> r.size == current
    ensures r.resized.Some? <==>
              && |received| > 0
              && ScanSize(received).conversions == 2
              && Positive(Size(ScanSize(received).width, ScanSize(received).height))
              && Size(ScanSize(received).width, ScanSize(received).height) != current
    ensures r.resized.Some? ==>
              r.size == r.resized.value == Size(ScanSize(received).width, ScanSize(received).height)
  {
    if |received| == 0 then Accepted(current, None)
    else
      var p := ScanSize(received);
      var wanted := Size(p.width, p.height);
      if p.width <= 0 || p.height <= 0 then Accepted(current, None)
      else if wanted == current then Accepted(current, None)
      else Accepted(wanted, Some(wanted))
  }

  /** The same message delivered twice resizes at most once: the second
      delivery finds the size already equal to it. */
  lemma SameMessageTwice(current: Size, received: string)
    requires |received| <= CtrlReadSize
    ensures OnCtrlAccept(OnCtrlAccept(current, received).size, received).resized.None?
    ensures OnCtrlAccept(OnCtrlAccept(current, received).size, received).size
            == OnCtrlAccept(current, received).size
  {
  }

  // ---------------------------------------------------------------------
  // The resize client: conpty_resize

  /** Exit code of `conpty_resize` and the message it wrote, if any. */
  datatype ResizeRequest = ResizeRequest(code: int, sent: Option<string>)

  /** `conpty_resize`: `pipeOpened` is whether the session's control pipe
      could be opened; `width`/`height` are the parsed arguments. */
  function ResizeClient(argc: int, pipeOpened: bool, width: int, height: int): (r: ResizeRequest)
    ensures argc < 5 ==> r == ResizeRequest(ErrInvalidArgc, None)
    ensures argc >= 5 && !pipeOpened ==> r == ResizeRequest(ErrResizeIdInvalid, None)
    ensures argc >= 5 && pipeOpened && !Positive(Size(width, height)) ==> r == ResizeRequest(ErrInvalidSize, None)
    ensures r.code == 0 <==> r.sent.Some?
    ensures r.code == 0 <==> argc >= 5 && pipeOpened && Positive(Size(width, height))
    ensures r.sent.Some? ==> ScanSize(r.sent.value) == Scanned(2, width, height)
    ensures r.sent.Some? && IsInt32(width) && IsInt32(height) ==> |r.sent.value| <= CtrlReadSize
  {
    if argc < 5 then ResizeRequest(ErrInvalidArgc, None)
    else if !pipeOpened then ResizeRequest(ErrResizeIdInvalid, None)
    else if width <= 0 || height <= 0 then ResizeRequest(ErrInvalidSize, None)
    else
      FormatThenScan(width, height);
      if IsInt32(width) && IsInt32(height) then
        FormatSizeLength(width, height);
        ResizeRequest(0, Some(FormatSize(width, height)))
      else
        ResizeRequest(0, Some(FormatSize(width, height)))
  }

  /** End to end: a message the client sends for two C `int`s arrives in one
      control read, and the proxy's size becomes exactly that pair, with a
      resize issued exactly when it differs from the current size. */
  lemma ClientToServer(current: Size, argc: int, width: int, height: int)
    requires IsInt32(width) && IsInt32(height)
    requires ResizeClient(argc, true, width, height).code == 0
    ensures var msg := ResizeClient(argc, true, width, height).sent.value;
            && |msg| <= CtrlReadSize
            && OnCtrlAccept(current, msg).size == Size(width, height)
            && (OnCtrlAccept(current, msg).resized.Some? <==> Size(width, height) != current)
  {
    var msg := ResizeClient(argc, true, width, height).sent.value;
    FormatSizeLength(width, height);
    assert |msg| > 0;
  }

  // ---------------------------------------------------------------------
  // The completion dispatcher: iocp_entry

  /** One result of `GetQueuedCompletionStatus`: either a dequeued packet
      (its completion key, the bytes the output read transferred into
      `io_buf`, and what the synchronous control read would return), or a
      failed wait. */
  datatype Completion =
    | Dequeued(key: nat, transferred: seq<byte>, ctrlReceived: string)
    | WaitFailed

  /** What the dispatcher does, in order. */
  datatype Effect =
    | Took(key: nat)               // a packet was dequeued; key 1 ends the outstanding read
    | WriteStdout(data: seq<byte>) // WriteFile to standard output from io_buf
    | ArmRead                      // async_io_read: a read into io_buf is outstanding
    | Resize(size: Size)           // the ResizePseudoConsole call
    | ArmAccept                    // async_ctrl_accept: disconnect, then accept again

  /** Packets respect the sizes the reads asked for. */
  predicate WellSized(cs: seq<Completion>) {
    forall i :: 0 <= i < |cs| && cs[i].Dequeued? ==>
      |cs[i].transferred| <= IoReadRequest && |cs[i].ctrlReceived| <= CtrlReadSize
  }

  /** The resize calls a handled control message makes: none, or one. */
  function ResizeCalls(a: Accepted): seq<Size> {
    if a.resized.Some? then [a.resized.value] else []
  }

  /** One turn of the `iocp_entry` loop on a dequeued packet: the packet is
      taken; an output read writes its bytes and re-arms the read; a control
      packet handles its message, resizing as `on_ctrl_accept` decides, and
      then re-arms the accept; any other key is only taken. */
  function Dispatch(size: Size, c: Completion): (r: (Size, seq<Effect>))
    requires c.Dequeued? && |c.ctrlReceived| <= CtrlReadSize
    ensures |r.1| > 0 && r.1[0] == Took(c.key) && Keys(r.1) == [c.key]
    ensures c.key == KeyIoRead ==>
              && r.0 == size && Resizes(r.1) == [] && Stdout(r.1) == c.transferred
              && r.1[|r.1| - 1] == ArmRead
    ensures c.key == KeyCtrlAccept ==>
              && r.0 == OnCtrlAccept(size, c.ctrlReceived).size
              && Resizes(r.1) == ResizeCalls(OnCtrlAccept(size, c.ctrlReceived))
              && Stdout(r.1) == []
              && r.1[|r.1| - 1] == ArmAccept
    ensures c.key != KeyIoRead && c.key != KeyCtrlAccept ==> r == (size, [Took(c.key)])
  {
    var e1: seq<Effect> := [Took(c.key)];
    Project([], Took(c.key));
    assert [] + [Took(c.key)] == e1;
    if c.key == KeyIoRead then
      var e2 := e1 + [WriteStdout(c.transferred)];
      Project(e1, WriteStdout(c.transferred));
      Project(e2, ArmRead);
      (size, e2 + [ArmRead])
    else if c.key == KeyCtrlAccept then
      var a := OnCtrlAccept(size, c.ctrlReceived);
      var e2 := e1 + (if a.resized.Some? then [Resize(a.resized.value)] else []);
      if a.resized.Some? then
        Project(e1, Resize(a.resized.value));
        Project(e2, ArmAccept);
        (a.size, e2 + [ArmAccept])
      else
        assert e2 == e1;
        Project(e2, ArmAccept);
        (a.size, e2 + [ArmAccept])
    else
      (size, [Took(c.key)])
  }

  /** What appending one effect adds to the output, resize and key projections. */
  lemma Project(t: seq<Effect>, x: Effect)
    ensures Stdout(t + [x]) == Stdout(t) + (if x.WriteStdout? then x.data else [])
    ensures Resizes(t + [x]) == Resizes(t) + (if x.Resize? then [x.size] else [])
    ensures Keys(t + [x]) == Keys(t) + (if x.Took? then [x.key] else [])
  {
    assert (t + [x])[..|t|] == t;
  }

  /** Whether a read into `io_buf` is outstanding after `trace`, when one
      was outstanding (`armed`) before it. */
  function ReadArmed(armed: bool, trace: seq<Effect>): bool {
    if |trace| == 0 then armed
    else
      match trace[|trace| - 1]
      case ArmRead => true
      case Took(k) => if k == KeyIoRead then false else ReadArmed(armed, trace[..|trace| - 1])
      case _ => ReadArmed(armed, trace[..|trace| - 1])
  }

  /** No write from `io_buf` is issued while a read into it is outstanding:
      each write in `trace` comes at a point where the trace before it
      leaves no read armed. */
  predicate WritesOnlyWhenIdle(trace: seq<Effect>) {
    |trace| == 0 ||
    (var before := trace[..|trace| - 1];
     WritesOnlyWhenIdle(before) && (trace[|trace| - 1].WriteStdout? ==> !ReadArmed(true, before)))
  }

  /** Everything written to standard output, in order. */
  function Stdout(trace: seq<Effect>): seq<byte> {
    if |trace| == 0 then []
    else Stdout(trace[..|trace| - 1]) + (if trace[|trace| - 1].WriteStdout? then trace[|trace| - 1].data else [])
  }

  /** The pseudo console's output as delivered by the output-read packets, in order. */
  function Delivered(cs: seq<Completion>): seq<byte> {
    if |cs| == 0 then []
    else
      var c := cs[|cs| - 1];
      Delivered(cs[..|cs| - 1]) + (if c.Dequeued? && c.key == KeyIoRead then c.transferred else [])
  }

  /** The size set by the last resize in `trace`, or `start` when there is none. */
  function LastResize(start: Size, trace: seq<Effect>): Size {
    if |trace| == 0 then start
    else if trace[|trace| - 1].Resize? then trace[|trace| - 1].size
    else LastResize(start, trace[..|trace| - 1])
  }

  /** The sizes passed to `ResizePseudoConsole` in `trace`, in order. */
  function Resizes(trace: seq<Effect>): seq<Size> {
    if |trace| == 0 then []
    else
      var x := trace[|trace| - 1];
      Resizes(trace[..|trace| - 1]) + (if x.Resize? then [x.size] else [])
  }

  /** The keys of the packets taken in `trace`, in order. */
  function Keys(trace: seq<Effect>): seq<nat> {
    if |trace| == 0 then []
    else
      var x := trace[|trace| - 1];
      Keys(trace[..|trace| - 1]) + (if x.Took? then [x.key] else [])
  }

  /** The keys of the dequeued packets in `cs`, in order. */
  function KeysOf(cs: seq<Completion>): seq<nat> {
    if |cs| == 0 then []
    else
      var c := cs[|cs| - 1];
      KeysOf(cs[..|cs| - 1]) + (if c.Dequeued? then [c.key] else [])
  }

  /** Whether an accept on the control pipe is outstanding after `trace`,
      when one was outstanding (`armed`) before it. */
  function AcceptArmed(armed: bool, trace: seq<Effect>): bool {
    if |trace| == 0 then armed
    else
      match trace[|trace| - 1]
      case ArmAccept => true
      case Took(k) => if k == KeyCtrlAccept then false else AcceptArmed(armed, trace[..|trace| - 1])
      case _ => AcceptArmed(armed, trace[..|trace| - 1])
  }

  /** Every control packet in `trace` completes an outstanding accept:
      after one is taken, the accept is re-armed before the next. */
  predicate AcceptsOnlyWhenArmed(trace: seq<Effect>) {
    |trace| == 0 ||
    (var before := trace[..|trace| - 1];
     AcceptsOnlyWhenArmed(before) && (trace[|trace| - 1] == Took(KeyCtrlAccept) ==> AcceptArmed(true, before)))
  }

  /** `on_ctrl_accept` folded over the control messages in `cs`, from the
      size `start`: the size they leave stored and the resizes they issue,
      in order. */
  function Control(start: Size, cs: seq<Completion>): (r: (Size, seq<Size>))
    requires WellSized(cs)
    ensures |r.1| == 0 ==> r.0 == start
    ensures |r.1| > 0 ==> r.0 == r.1[|r.1| - 1]
    ensures forall j :: 0 <= j < |r.1| ==> Positive(r.1[j])
  {
    if |cs| == 0 then (start, [])
    else
      var prev := Control(start, cs[..|cs| - 1]);
      var c := cs[|cs| - 1];
      if c.Dequeued? && c.key == KeyCtrlAccept then
        var a := OnCtrlAccept(prev.0, c.ctrlReceived);
        (a.size, prev.1 + ResizeCalls(a))
      else prev
  }

  /** How one more effect moves each observation of a trace. */
  lemma Push(start: Size, armed: bool, t: seq<Effect>, x: Effect)
    ensures ReadArmed(armed, t + [x]) ==
              if x.ArmRead? then true
              else if x.Took? && x.key == KeyIoRead then false
              else ReadArmed(armed, t)
    ensures Stdout(t + [x]) == Stdout(t) + (if x.WriteStdout? then x.data else [])
    ensures LastResize(start, t + [x]) == if x.Resize? then x.size else LastResize(start, t)
    ensures WritesOnlyWhenIdle(t + [x]) <==>
              WritesOnlyWhenIdle(t) && (x.WriteStdout? ==> !ReadArmed(true, t))
  {
    assert (t + [x])[..|t|] == t;
  }

  /** The trace observations a packet must keep: a read outstanding, no
      write during a read, and the size equal to the last resize. */
  predicate Settled(start: Size, size: Size, trace: seq<Effect>) {
    ReadArmed(true, trace) && WritesOnlyWhenIdle(trace) && size == LastResize(start, trace)
  }

  /** An output-read packet: the write happens with no read outstanding,
      and exactly its bytes are appended to standard output. */
  lemma IoReadStep(start: Size, size: Size, trace: seq<Effect>, data: seq<byte>)
    requires Settled(start, size, trace)
    ensures var e := [Took(KeyIoRead), WriteStdout(data), ArmRead];
            Settled(start, size, trace + e) && Stdout(trace + e) == Stdout(trace) + data
  {
    var t1 := trace + [Took(KeyIoRead)];
    var t2 := t1 + [WriteStdout(data)];
    Push(start, true, trace, Took(KeyIoRead));
    Push(start, true, t1, WriteStdout(data));
    Push(start, true, t2, ArmRead);
    assert trace + [Took(KeyIoRead), WriteStdout(data), ArmRead] == t2 + [ArmRead];
  }

  /** A packet with any other key and an optional resize: the output is
      untouched and the size follows the resize. */
  lemma QuietStep(start: Size, size: Size, trace: seq<Effect>, key: nat, resize: Option<Size>, rearm: bool)
    requires key != KeyIoRead
    requires Settled(start, size, trace)
    ensures var e := [Took(key)] + (if resize.Some? then [Resize(resize.value)] else []) + (if rearm then [ArmAccept] else []);
            && Settled(start, if resize.Some? then resize.value else size, trace + e)
            && Stdout(trace + e) == Stdout(trace)
  {
    var t1 := trace + [Took(key)];
    Push(start, true, trace, Took(key));
    var t2 := if resize.Some? then t1 + [Resize(resize.value)] else t1;
    if resize.Some? {
      Push(start, true, t1, Resize(resize.value));
    }
    var t3 := if rearm then t2 + [ArmAccept] else t2;
    if rearm {
      Push(start, true, t2, ArmAccept);
    }
    assert trace + ([Took(key)] + (if resize.Some? then [Resize(resize.value)] else []) + (if rearm then [ArmAccept] else [])) == t3;
  }

  /** One dispatched packet keeps the trace settled, resizes only to
      positive sizes, and moves the output on by exactly its own bytes. */
  lemma DispatchStep(start: Size, size: Size, trace: seq<Effect>, c: Completion)
    requires c.Dequeued? && |c.ctrlReceived| <= CtrlReadSize
    requires Settled(start, size, trace)
    ensures Settled(start, Dispatch(size, c).0, trace + Dispatch(size, c).1)
    ensures Stdout(trace + Dispatch(size, c).1) == Stdout(trace) + (if c.key == KeyIoRead then c.transferred else [])
    ensures forall j :: 0 <= j < |Dispatch(size, c).1| && Dispatch(size, c).1[j].Resize? ==> Positive(Dispatch(size, c).1[j].size)
  {
    if c.key == KeyIoRead {
      assert Dispatch(size, c).1 == [Took(KeyIoRead), WriteStdout(c.transferred), ArmRead];
      IoReadStep(start, size, trace, c.transferred);
    } else if c.key == KeyCtrlAccept {
      var a := OnCtrlAccept(size, c.ctrlReceived);
      QuietStep(start, size, trace, c.key, a.resized, true);
    } else {
      QuietStep(start, size, trace, c.key, None, false);
      assert [Took(c.key)] + [] + [] == [Took(c.key)];
    }
  }

  /** How one more effect moves the control observations of a trace. */
  lemma PushControl(armed: bool, t: seq<Effect>, x: Effect)
    ensures Resizes(t + [x]) == Resizes(t) + (if x.Resize? then [x.size] else [])
    ensures Keys(t + [x]) == Keys(t) + (if x.Took? then [x.key] else [])
    ensures AcceptArmed(armed, t + [x]) ==
              if x.ArmAccept? then true
              else if x.Took? && x.key == KeyCtrlAccept then false
              else AcceptArmed(armed, t)
    ensures AcceptsOnlyWhenArmed(t + [x]) <==>
              AcceptsOnlyWhenArmed(t) && (x == Took(KeyCtrlAccept) ==> AcceptArmed(true, t))
  {
    assert (t + [x])[..|t|] == t;
  }

  /** The control observations a run must keep: the stored size and the
      resizes are those of `on_ctrl_accept` over the control messages so
      far, every packet is taken once and in order, and the accept is
      outstanding again, having been re-armed after every control packet. */
  predicate Tracked(start: Size, cs: seq<Completion>, size: Size, trace: seq<Effect>)
    requires WellSized(cs)
  {
    && size == Control(start, cs).0 && Resizes(trace) == Control(start, cs).1
    && Keys(trace) == KeysOf(cs)
    && Accepting(trace)
  }

  /** Resize calls and taken keys of two traces run one after the other. */
  lemma {:induction false} AppendObservations(t: seq<Effect>, e: seq<Effect>)
    ensures Resizes(t + e) == Resizes(t) + Resizes(e)
    ensures Keys(t + e) == Keys(t) + Keys(e)
    decreases |e|
  {
    if |e| == 0 {
      assert t + e == t;
    } else {
      var x := e[|e| - 1];
      var init := e[..|e| - 1];
      assert e == init + [x];
      assert t + e == (t + init) + [x];
      AppendObservations(t, init);
      PushControl(true, t + init, x);
      PushControl(true, init, x);
    }
  }

  /** The accept observations a run must keep. */
  predicate Accepting(trace: seq<Effect>) {
    AcceptArmed(true, trace) && AcceptsOnlyWhenArmed(trace)
  }

  /** An output-read packet does not touch the accept. */
  lemma AcceptAfterRead(trace: seq<Effect>, data: seq<byte>)
    requires Accepting(trace)
    ensures Accepting(trace + [Took(KeyIoRead), WriteStdout(data), ArmRead])
  {
    var t1 := trace + [Took(KeyIoRead)];
    var t2 := t1 + [WriteStdout(data)];
    PushControl(true, trace, Took(KeyIoRead));
    PushControl(true, t1, WriteStdout(data));
    PushControl(true, t2, ArmRead);
    assert trace + [Took(KeyIoRead), WriteStdout(data), ArmRead] == t2 + [ArmRead];
  }

  /** A control packet is taken while the accept is outstanding, and its
      effects end by re-arming it. */
  lemma AcceptAfterControl(trace: seq<Effect>, resize: Option<Size>)
    requires Accepting(trace)
    ensures var e := [Took(KeyCtrlAccept)] + (if resize.Some? then [Resize(resize.value)] else []) + [ArmAccept];
            Accepting(trace + e)
  {
    var t1 := trace + [Took(KeyCtrlAccept)];
    PushControl(true, trace, Took(KeyCtrlAccept));
    var t2 := if resize.Some? then t1 + [Resize(resize.value)] else t1;
    if resize.Some? {
      PushControl(true, t1, Resize(resize.value));
    }
    PushControl(true, t2, ArmAccept);
    assert trace + ([Took(KeyCtrlAccept)] + (if resize.Some? then [Resize(resize.value)] else []) + [ArmAccept]) == t2 + [ArmAccept];
  }

  /** One dispatched packet leaves the accept outstanding, and a control
      packet is only taken while it is. */
  lemma AcceptStep(size: Size, trace: seq<Effect>, c: Completion)
    requires c.Dequeued? && |c.ctrlReceived| <= CtrlReadSize
    requires Accepting(trace)
    ensures Accepting(trace + Dispatch(size, c).1)
  {
    var e := Dispatch(size, c).1;
    if c.key == KeyIoRead {
      assert e == [Took(KeyIoRead), WriteStdout(c.transferred), ArmRead];
      AcceptAfterRead(trace, c.transferred);
    } else if c.key == KeyCtrlAccept {
      var a := OnCtrlAccept(size, c.ctrlReceived);
      assert e == [Took(KeyCtrlAccept)] + (if a.resized.Some? then [Resize(a.resized.value)] else []) + [ArmAccept];
      AcceptAfterControl(trace, a.resized);
    } else {
      PushControl(true, trace, Took(c.key));
    }
  }

  /** One dispatched packet keeps the control observations. */
  lemma ControlStep(start: Size, cs: seq<Completion>, size: Size, trace: seq<Effect>, c: Completion)
    requires c.Dequeued? && |c.ctrlReceived| <= CtrlReadSize && WellSized(cs) && WellSized(cs + [c])
    requires Tracked(start, cs, size, trace)
    ensures Tracked(start, cs + [c], Dispatch(size, c).0, trace + Dispatch(size, c).1)
  {
    var all := cs + [c];
    assert all[..|cs|] == cs;
    AppendObservations(trace, Dispatch(size, c).1);
    AcceptStep(size, trace, c);
  }

  /** What holds after the first `handled` packets of `cs` are dispatched
      from the size `start`, leaving `stored` and `trace`. */
  predicate Served(start: Size, cs: seq<Completion>, handled: nat, stored: Size, trace: seq<Effect>)
    requires WellSized(cs) && handled <= |cs|
  {
    && (forall i :: 0 <= i < handled ==> cs[i].Dequeued?)
    && Stdout(trace) == Delivered(cs[..handled])
    && Settled(start, stored, trace)
    && (forall j :: 0 <= j < |trace| && trace[j].Resize? ==> Positive(trace[j].size))
    && WellSized(cs[..handled]) && Tracked(start, cs[..handled], stored, trace)
  }

  /** One more packet dispatched keeps everything `Served` states. */
  lemma ServeStep(start: Size, cs: seq<Completion>, handled: nat, stored: Size, trace: seq<Effect>)
    requires WellSized(cs) && handled < |cs| && cs[handled].Dequeued?
    requires Served(start, cs, handled, stored, trace)
    ensures Served(start, cs, handled + 1, Dispatch(stored, cs[handled]).0, trace + Dispatch(stored, cs[handled]).1)
  {
    var c := cs[handled];
    DispatchStep(start, stored, trace, c);
    assert cs[..handled + 1] == cs[..handled] + [c];
    ControlStep(start, cs[..handled], stored, trace, c);
    assert cs[..handled + 1][..handled] == cs[..handled];
  }

  /** The `iocp_entry` loop over a run of completion packets: it handles
      the `handled` packets before the first failed wait and exits with -1
      there, and runs on past the end of `cs` when no wait fails; standard
      output receives exactly the bytes of the output-read packets, in
      order, with no loss or duplication; no write happens while a read
      into `io_buf` is outstanding, and a read is outstanding again after
      every packet; the stored size and the resizes issued are exactly
      those of `on_ctrl_accept` over the control messages, in order, and
      every resize is to positive dimensions; every packet is taken once,
      in order, and the accept is re-armed after every control packet. */
  method Serve(start: Size, cs: seq<Completion>) returns (stored: Size, trace: seq<Effect>, handled: nat, exit: Option<int>)
    requires WellSized(cs)
    ensures handled <= |cs|
    ensures forall i :: 0 <= i < handled && i < |cs| ==> cs[i].Dequeued?
    ensures exit.Some? <==> handled < |cs|
    ensures exit.Some? ==> exit.value == -1 && handled < |cs| && cs[handled].WaitFailed?
    ensures handled <= |cs| && Stdout(trace) == Delivered(cs[..handled])
    ensures WritesOnlyWhenIdle(trace)
    ensures ReadArmed(true, trace)
    ensures stored == LastResize(start, trace)
    ensures forall j :: 0 <= j < |trace| && trace[j].Resize? ==> Positive(trace[j].size)
    ensures handled <= |cs| && WellSized(cs[..handled]) && stored == Control(start, cs[..handled]).0
    ensures handled <= |cs| && WellSized(cs[..handled]) && Resizes(trace) == Control(start, cs[..handled]).1
    ensures handled <= |cs| && Keys(trace) == KeysOf(cs[..handled])
    ensures AcceptArmed(true, trace) && AcceptsOnlyWhenArmed(trace)
  {
    stored, trace, handled := start, [], 0;
    while handled < |cs| && cs[handled].Dequeued?
      invariant handled <= |cs|
      invariant Served(start, cs, handled, stored, trace)
    {
      ServeStep(start, cs, handled, stored, trace);
      var step := Dispatch(stored, cs[handled]);
      trace := trace + step.1;
      stored := step.0;
      handled := handled + 1;
    }
    exit := if handled < |cs| then Some(-1) else None;
  }

  /** Two packets carrying the same control message cause at most one
      resize between them. */
  lemma RepeatedResizeOnce(size: Size, msg: string)
    requires |msg| <= CtrlReadSize
    ensures var (s1, e1) := Dispatch(size, Dequeued(KeyCtrlAccept, [], msg));
            var (s2, e2) := Dispatch(s1, Dequeued(KeyCtrlAccept, [], msg));
            && s2 == s1
            && (forall j :: 0 <= j < |e2| ==> !e2[j].Resize?)
  {
    SameMessageTwice(size, msg);
  }

  // ---------------------------------------------------------------------
  // The stdin forwarder: stdio_run

  /** One round of `stdio_run`: whether the stdin read succeeded, the bytes
      it returned, and whether writing them to the console input succeeded. */
  datatype StdinStep = StdinStep(readOk: bool, chunk: seq<byte>, writeOk: bool)

  predicate StepFails(s: StdinStep) {
    !s.readOk || !s.writeOk
  }

  /** The bytes that reach the console input: the chunks of the rounds
      before the first failure, in order. */
  function Forwarded(steps: seq<StdinStep>): seq<byte> {
    if |steps| == 0 || StepFails(steps[0]) then [] else steps[0].chunk + Forwarded(steps[1..])
  }

  /** `stdio_run` over a run of rounds: it returns -1 exactly when some
      round fails, a zero-byte read does not stop it, and what reaches the
      console input is the chunks before the first failure, unchanged and
      in order. */
  method ForwardStdin(steps: seq<StdinStep>) returns (written: seq<byte>, exit: Option<int>)
    requires forall i :: 0 <= i < |steps| ==> |steps[i].chunk| <= StdBufSize
    ensures exit.Some? <==> exists i :: 0 <= i < |steps| && StepFails(steps[i])
    ensures exit.Some? ==> exit.value == -1
    ensures written == Forwarded(steps)
  {
    written, exit := [], None;
    var i := 0;
    while i < |steps| && exit.None?
      invariant 0 <= i <= |steps|
      invariant exit.None? ==> forall j :: 0 <= j < i ==> !StepFails(steps[j])
      invariant exit.None? ==> written + Forwarded(steps[i..]) == Forwarded(steps)
      invariant exit.Some? ==> exit.value == -1 && 0 < i && StepFails(steps[i - 1]) && written == Forwarded(steps)
    {
      if StepFails(steps[i]) {
        exit := Some(-1);
        assert Forwarded(steps[i..]) == [];
      } else {
        assert steps[i..][1..] == steps[i + 1..];
        written := written + steps[i].chunk;
      }
      i := i + 1;
    }
    if exit.None? {
      assert steps[i..] == [];
    }
  }

  // ---------------------------------------------------------------------
  // Startup: conpty_init, conpty_spawn, conpty_new

  /** Handles the proxy opens while creating the pseudo console. */
  datatype PipeEnd = InRead | OutWrite | IoRead | IoWrite | Console

  /** Oracle answers for `conpty_init`, in call order. */
  datatype PipeSteps = PipeSteps(inPipe: bool, outPipe: bool, console: bool, openRead: bool, openWrite: bool)

  /** Exit code of `conpty_init` and the handles still open afterwards. */
  datatype Opened = Opened(code: int, held: set<PipeEnd>)

  /** `conpty_init`: create both named pipes, the pseudo console, then open
      the proxy's own ends. On success only the proxy's ends and the console
      stay open; on failure no pipe handle stays open (the console, when it
      was created, is not closed). */
  function ConsoleInit(s: PipeSteps): (r: Opened)
    ensures r.code == 0 <==> s.inPipe && s.outPipe && s.console && s.openRead && s.openWrite
    ensures r.code == 0 ==> r.held == {IoRead, IoWrite, Console}
    ensures r.code != 0 ==> r.held <= {Console} && ErrCreateInPipe <= r.code <= ErrOpenOutPipe
    ensures !s.inPipe ==> r.code == ErrCreateInPipe
    ensures s.inPipe && !s.outPipe ==> r.code == ErrCreateOutPipe
    ensures s.inPipe && s.outPipe && !s.console ==> r.code == ErrCreatePseudoConsole
    ensures s.inPipe && s.outPipe && s.console && !s.openRead ==> r.code == ErrOpenInPipe
    ensures s.inPipe && s.outPipe && s.console && s.openRead && !s.openWrite ==> r.code == ErrOpenOutPipe
  {
    if !s.inPipe then Opened(ErrCreateInPipe, {})
    else
      var held := {InRead};
      if !s.outPipe then Opened(ErrCreateOutPipe, held - {InRead})
      else
        var held := held + {OutWrite};
        if !s.console then Opened(ErrCreatePseudoConsole, held - {InRead, OutWrite})
        else
          var held := held + {Console};
          if !s.openRead then Opened(ErrOpenInPipe, held - {InRead, OutWrite})
          else
            var held := held + {IoRead};
            if !s.openWrite then Opened(ErrOpenOutPipe, held - {InRead, OutWrite, IoRead})
            else Opened(0, held + {IoWrite} - {InRead, OutWrite})
  }

  /** Oracle answers for `conpty_spawn`, in call order. */
  datatype SpawnSteps = SpawnSteps(attrAlloc: bool, attrInit: bool, attrUpdate: bool, process: bool)

  /** Exit code of `conpty_spawn`, whether the attribute list is still
      allocated, and whether a process handle is held. */
  datatype Spawned = Spawned(code: int, attrListHeld: bool, processHeld: bool)

  /** `conpty_spawn`: on failure nothing it allocated stays allocated; on
      success the shell's process handle is held (the attribute list is
      kept for the life of the process). */
  function Spawn(s: SpawnSteps): (r: Spawned)
    ensures r.code == 0 <==> s.attrAlloc && s.attrInit && s.attrUpdate && s.process
    ensures r.code != 0 ==> !r.attrListHeld && !r.processHeld && ErrMallocProcAttr <= r.code <= ErrCreateProc
    ensures r.code == 0 ==> r.processHeld
    ensures !s.attrAlloc ==> r.code == ErrMallocProcAttr
    ensures s.attrAlloc && !s.attrInit ==> r.code == ErrInitProcAttr
    ensures s.attrAlloc && s.attrInit && !s.attrUpdate ==> r.code == ErrUpdateProcAttr
    ensures s.attrAlloc && s.attrInit && s.attrUpdate && !s.process ==> r.code == ErrCreateProc
  {
    if !s.attrAlloc then Spawned(ErrMallocProcAttr, false, false)
    else if !s.attrInit then Spawned(ErrInitProcAttr, false, false)
    else if !s.attrUpdate then Spawned(ErrUpdateProcAttr, false, false)
    else if !s.process then Spawned(ErrCreateProc, false, false)
    else Spawned(0, true, true)
  }

  /** Oracle answers for `conpty_new`, in call order. `width`/`height` are
      the already-converted command-line arguments. */
  datatype NewOracle = NewOracle(
    ctrlPipeExists: bool,
    ctrlPipeCreated: bool,
    probe: Probe,
    mainIocp: bool,
    width: int,
    height: int,
    pipes: PipeSteps,
    spawn: SpawnSteps,
    bindIoRead: bool,
    bindCtrl: bool,
    threadCreated: bool,
    stdin: seq<StdinStep>)

  /** How a failed `CreateThread` is detected. It returns `NULL` on failure;
      the source compares the result with `INVALID_HANDLE_VALUE`, which it
      never returns, so that comparison never reports a failure. */
  datatype ThreadCheck = CompareWithInvalid | CompareWithNull

  predicate ThreadFailureSeen(check: ThreadCheck, created: bool) {
    check.CompareWithNull? && !created
  }

  /** What `conpty_new` can hold when it returns: the control pipe, the
      main completion port, the pipe ends and console of `conpty_init`, the
      attribute list and process of `conpty_spawn`, and the dispatcher thread. */
  datatype ProxyHandle = CtrlPipe | MainIocp | End(end: PipeEnd) | AttrList | ShellProcess | Dispatcher

  /** The pipe ends of `conpty_init` among the proxy's handles. */
  function Ends(ends: set<PipeEnd>): set<ProxyHandle> {
    set e | e in ends :: End(e)
  }

  /** Outcome of `conpty_new`: exit code, loader state afterwards, whether a
      dispatcher thread serves the output and control channels, the bytes
      forwarded to the console input, and what is held on return. */
  datatype Session = Session(code: int, api: ApiState, serving: bool, forwarded: seq<byte>, held: set<ProxyHandle>)

  /** A startup check: whether it passed, and the code returned if not. */
  datatype Check = Check(passed: bool, code: int)

  /** The code of the first failing check, 0 when all pass. */
  function FirstFailure(checks: seq<Check>): int {
    if |checks| == 0 then 0 else if !checks[0].passed then checks[0].code else FirstFailure(checks[1..])
  }

  /** The checks of `conpty_new` in the order the source performs them. */
  function NewChecks(argc: int, api: ApiState, o: NewOracle): seq<Check> {
    [ Check(argc >= 6, ErrInvalidArgc),
      Check(!o.ctrlPipeExists, ErrIdDup),
      Check(o.ctrlPipeCreated, ErrCreateCtrlPipe),
      Check(Init(ProxyLoader, api, o.probe).code == 0, ErrApiInit),
      Check(o.mainIocp, ErrCreateMainIocp),
      Check(Positive(Size(o.width, o.height)), ErrInvalidSize),
      Check(ConsoleInit(o.pipes).code == 0, ConsoleInit(o.pipes).code),
      Check(Spawn(o.spawn).code == 0, Spawn(o.spawn).code),
      Check(o.bindIoRead, ErrBindIoRead),
      Check(o.bindCtrl, ErrBindCtrl),
      Check(o.threadCreated, ErrThread) ]
  }

  /** `conpty_new` with a given way of detecting a failed `CreateThread`.
      Nothing it created is closed on a failure: the control pipe and the
      completion port stay held, and so does what `conpty_init` and
      `conpty_spawn` left open. */
  function NewWith(argc: int, api: ApiState, o: NewOracle, check: ThreadCheck): Session {
    if argc < 6 then Session(ErrInvalidArgc, api, false, [], {})
    else if o.ctrlPipeExists then Session(ErrIdDup, api, false, [], {})
    else if !o.ctrlPipeCreated then Session(ErrCreateCtrlPipe, api, false, [], {})
    else
      var loaded := Init(ProxyLoader, api, o.probe);
      if loaded.code != 0 then Session(ErrApiInit, loaded.state, false, [], {CtrlPipe})
      else if !o.mainIocp then Session(ErrCreateMainIocp, loaded.state, false, [], {CtrlPipe})
      else
        var held := {CtrlPipe, MainIocp};
        if o.width <= 0 || o.height <= 0 then Session(ErrInvalidSize, loaded.state, false, [], held)
        else
          var console := ConsoleInit(o.pipes);
          var held := held + Ends(console.held);
          if console.code != 0 then Session(console.code, loaded.state, false, [], held)
          else
            var spawned := Spawn(o.spawn);
            var held := held + (if spawned.attrListHeld then {AttrList} else {})
                             + (if spawned.processHeld then {ShellProcess} else {});
            if spawned.code != 0 then Session(spawned.code, loaded.state, false, [], held)
            else if !o.bindIoRead then Session(ErrBindIoRead, loaded.state, false, [], held)
            else if !o.bindCtrl then Session(ErrBindCtrl, loaded.state, false, [], held)
            else if ThreadFailureSeen(check, o.threadCreated) then Session(ErrThread, loaded.state, false, [], held)
            else
              var held := held + (if o.threadCreated then {Dispatcher} else {});
              Session(0, loaded.state, o.threadCreated, Forwarded(o.stdin), held)
  }

  /** Checks that all pass do not change which code comes first. */
  lemma {:induction false} FirstFailureSkips(cs: seq<Check>, k: nat)
    requires k <= |cs|
    requires forall j :: 0 <= j < k ==> cs[j].passed
    ensures FirstFailure(cs) == FirstFailure(cs[k..])
  {
    if k > 0 {
      FirstFailureSkips(cs, k - 1);
      assert cs[k - 1..][1..] == cs[k..];
    } else {
      assert cs[0..] == cs;
    }
  }

  /** Whatever the thread check, `conpty_new` stops at the first failing
      check in source order, except that only the `NULL` comparison ever
      sees a failed `CreateThread`. */
  lemma NewFollowsChecks(argc: int, api: ApiState, o: NewOracle)
    ensures NewWith(argc, api, o, CompareWithNull).code == FirstFailure(NewChecks(argc, api, o))
    ensures FirstFailure(NewChecks(argc, api, o)) != ErrThread ==>
              NewWith(argc, api, o, CompareWithInvalid) == NewWith(argc, api, o, CompareWithNull)
    ensures FirstFailure(NewChecks(argc, api, o)) == ErrThread ==>
              NewWith(argc, api, o, CompareWithInvalid).code == 0
  {
    var cs := NewChecks(argc, api, o);
    var i :=
      if argc < 6 then 0
      else if o.ctrlPipeExists then 1
      else if !o.ctrlPipeCreated then 2
      else if Init(ProxyLoader, api, o.probe).code != 0 then 3
      else if !o.mainIocp then 4
      else if !Positive(Size(o.width, o.height)) then 5
      else if ConsoleInit(o.pipes).code != 0 then 6
      else if Spawn(o.spawn).code != 0 then 7
      else if !o.bindIoRead then 8
      else if !o.bindCtrl then 9
      else if !o.threadCreated then 10
      else 11;
    FirstFailureSkips(cs, i);
    if i < |cs| {
      assert cs[i..][0] == cs[i];
    } else {
      assert cs[i..] == [];
    }
  }

  /** `conpty_new` exactly as written: a failed `CreateThread` goes unnoticed. */
  function NewAsWritten(argc: int, api: ApiState, o: NewOracle): Session {
    NewWith(argc, api, o, CompareWithInvalid)
  }

  /** With every other step succeeding, a `CreateThread` failure still
      yields exit code 0, with nothing serving the output and control
      channels. */
  lemma ThreadFailureUnnoticed(argc: int, api: ApiState, o: NewOracle)
    requires FirstFailure(NewChecks(argc, api, o)) == ErrThread
    ensures NewAsWritten(argc, api, o).code == 0
    ensures !NewAsWritten(argc, api, o).serving
  {
    NewFollowsChecks(argc, api, o);
  }

  /** `conpty_new` with the thread check corrected to compare with `NULL`:
      it returns the code of the first failing check in source order; it
      returns 0 only with the dispatcher serving; a loader failure leaves
      the loader failed for good; and a session that starts forwards
      exactly the stdin chunks before the first failed round. `o.stdin` is
      a finite run of rounds: when one of them fails, `stdio_run` returns
      and `conpty_new` returns 0; when none fails, the real `stdio_run`
      never returns, and code 0 here stands for a proxy still forwarding. */
  function New(argc: int, api: ApiState, o: NewOracle): (r: Session)
    ensures r.code == FirstFailure(NewChecks(argc, api, o))
    ensures r.code == 0 ==> r.serving && r.forwarded == Forwarded(o.stdin)
    ensures r.code == ErrApiInit ==> r.api == Failed
    ensures r.code == -1 || 0 <= r.code <= ErrBindCtrl
  {
    NewFollowsChecks(argc, api, o);
    NewWith(argc, api, o, CompareWithNull)
  }

  /** `conpty_new` gets past its own checks and reaches `conpty_init`. */
  predicate ReachesConsole(argc: int, api: ApiState, o: NewOracle) {
    && argc >= 6 && !o.ctrlPipeExists && o.ctrlPipeCreated
    && Init(ProxyLoader, api, o.probe).code == 0 && o.mainIocp && Positive(Size(o.width, o.height))
  }

  /** What `conpty_init` and `conpty_spawn` leave open is what `conpty_new`
      holds: a console failure leaves exactly `conpty_init`'s held handles
      beside the control pipe and the port; a spawn failure after it adds
      nothing of its own, so the console's handles are all that is held
      beside them; a session that starts holds the console's ends, the
      attribute list, the shell process and the dispatcher thread. Before
      the control pipe exists nothing is held, and the dispatcher is held
      only when the session serves. */
  lemma NewHolds(argc: int, api: ApiState, o: NewOracle)
    ensures var r := New(argc, api, o);
            && (ReachesConsole(argc, api, o) && ConsoleInit(o.pipes).code != 0 ==>
                  r.code == ConsoleInit(o.pipes).code && r.held == {CtrlPipe, MainIocp} + Ends(ConsoleInit(o.pipes).held))
            && (ReachesConsole(argc, api, o) && ConsoleInit(o.pipes).code == 0 && Spawn(o.spawn).code != 0 ==>
                  r.code == Spawn(o.spawn).code && r.held == {CtrlPipe, MainIocp} + Ends(ConsoleInit(o.pipes).held)
                  && r.held == {CtrlPipe, MainIocp, End(IoRead), End(IoWrite), End(Console)})
            && (r.code == 0 ==>
                  r.held == {CtrlPipe, MainIocp, End(IoRead), End(IoWrite), End(Console), AttrList, ShellProcess, Dispatcher})
            && (r.code in {ErrInvalidArgc, ErrIdDup, ErrCreateCtrlPipe} ==> r.held == {})
            && (Dispatcher in r.held <==> r.serving)
  {
    NewFollowsChecks(argc, api, o);
  }
}
