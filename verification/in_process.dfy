/** The in-process pseudo console of conpty.c: the per-terminal state
    record, the output thread's bounded pending buffer, the functions Emacs
    calls (init, read-pending, write, resize, is-alive, kill) and the
    cleanup transition. Win32 and Emacs calls are oracle inputs; the output
    thread and Emacs are serialised into one sequence of events, which is
    what the pending-buffer lock guarantees. */
module InProcess {
  import opened Common
  import ApiLoader

  /** `sizeof(pending_output)`. */
  const PendingCapacity: nat := 262144
  /** `sizeof(output_buf[0])`: the most one read of the shell's output returns. */
  const ReadChunk: nat := 131072
  /** `STILL_ACTIVE`, the exit code of a running process. */
  const StillActive: int := 259

  /** A handle field: `NULL`, `INVALID_HANDLE_VALUE`, or an open handle. */
  datatype Handle = Null | Invalid | Open

  /** What the module holds and must give back: OS handles, heap blocks and
      the pending-buffer lock. */
  datatype Resource =
    | Lock | InRead | InWrite | OutRead | OutWrite | PseudoConsole
    | Process | ProcessThread | ReaderThread | Iocp
    | ShellCmd | AttrList | WideCmd

  /** `ConPTYState`, without the read buffers (the reader's buffer index is
      local to the output thread) and the unused overlapped record. */
  datatype State = State(
    hpc: Handle,
    ptyInput: Handle,
    ptyOutput: Handle,
    shellProcess: Handle,
    iocp: Handle,
    iocpThread: Handle,
    notifyFd: int,
    pending: seq<byte>,
    running: bool)

  /** The part of the terminal record this module touches. */
  datatype Term = Term(conpty: Option<State>)

  /** An Emacs value as returned by the module functions. */
  datatype Value = Nil | T | Integer(n: int) | Str(bytes: seq<byte>)

  /** The reply of a module function and the terminal afterwards (`None`
      when the user pointer is `NULL`). */
  datatype Reply = Reply(value: Value, term: Option<Term>)

  // ---------------------------------------------------------------------
  // The pending buffer

  /** The output thread's copy under the lock: as much of `chunk` as fits,
      the rest dropped. */
  function Append(pending: seq<byte>, chunk: seq<byte>): (r: seq<byte>)
    requires |pending| <= PendingCapacity
    ensures |r| == Min(|pending| + |chunk|, PendingCapacity)
    ensures r[..|pending|] == pending
    ensures r[|pending|..] == chunk[..|r| - |pending|]
    ensures |pending| + |chunk| <= PendingCapacity ==> r == pending + chunk
  {
    var room := PendingCapacity - |pending|;
    var n := if |chunk| < room then |chunk| else room;
    pending + chunk[..n]
  }

  /** The body of `Fvterm_conpty_read_pending` under the lock: everything
      pending as a string, and an empty buffer; `nil` when nothing is pending. */
  function Drain(pending: seq<byte>): (r: (Value, seq<byte>))
    ensures |r.1| == 0
    ensures r.0.Nil? <==> |pending| == 0
    ensures r.0.Str? ==> r.0.bytes == pending
    ensures r.0.Nil? || r.0.Str?
  {
    if |pending| > 0 then (Str(pending), []) else (Nil, pending)
  }

  /** The output thread and Emacs, serialised: a read attempt of the output
      thread (whether `running` was still 1 when the loop tested it, whether
      `ReadFile` succeeded, and the bytes it returned), or a call to
      `Fvterm_conpty_read_pending`. */
  datatype Event =
    | Read(running: bool, ok: bool, data: seq<byte>)
    | Pull

  /** A read attempt that ends the output thread. */
  predicate Stops(e: Event)
    requires e.Read?
  {
    !e.running || !e.ok || |e.data| == 0
  }

  /** The chunks the output thread takes in: those of the reads before the
      first one that stops it. */
  function Accepted(events: seq<Event>): seq<seq<byte>> {
    if |events| == 0 then []
    else if events[0].Pull? then Accepted(events[1..])
    else if Stops(events[0]) then []
    else [events[0].data] + Accepted(events[1..])
  }

  function Concat(chunks: seq<seq<byte>>): seq<byte> {
    if |chunks| == 0 then [] else Concat(chunks[..|chunks| - 1]) + chunks[|chunks| - 1]
  }

  lemma {:induction false} ConcatAppend(a: seq<seq<byte>>, b: seq<seq<byte>>)
    ensures Concat(a + b) == Concat(a) + Concat(b)
    decreases |b|
  {
    if |b| == 0 {
      assert a + b == a;
    } else {
      var k := |b| - 1;
      assert (a + b)[..|a + b| - 1] == a + b[..k];
      ConcatAppend(a, b[..k]);
    }
  }

  lemma AcceptedFrom(events: seq<Event>, i: nat)
    requires i < |events|
    ensures Accepted(events[i..]) ==
              if events[i].Pull? then Accepted(events[i + 1..])
              else if Stops(events[i]) then []
              else [events[i].data] + Accepted(events[i + 1..])
  {
    assert events[i..][1..] == events[i + 1..];
  }

  /** Pulling keeps the bytes Emacs received followed by the pending bytes
      unchanged. */
  lemma PullConserves(pulled: seq<seq<byte>>, pending: seq<byte>)
    requires |pending| > 0
    ensures Concat(pulled + [pending]) + [] == Concat(pulled) + pending
  {
    ConcatAppend(pulled, [pending]);
    assert Concat([pending]) == pending by {
      assert [pending][..0] == [];
    }
  }

  lemma Associative<X>(a: seq<X>, b: seq<X>, c: seq<X>)
    ensures a + (b + c) == (a + b) + c
  {
    assert forall k :: 0 <= k < |a| + |b| + |c| ==> (a + (b + c))[k] == ((a + b) + c)[k];
  }

  lemma FlipParity(n: nat, index: nat)
    requires index == n % 2
    ensures 1 - index == (n + 1) % 2
  {
  }

  /** A read that appends `piece` to the pending bytes and records it as
      kept preserves the conservation of bytes. */
  lemma ReadConserves(pending0: seq<byte>, pulled: seq<seq<byte>>, kept: seq<seq<byte>>, pending: seq<byte>, piece: seq<byte>)
    requires Concat(pulled) + pending == pending0 + Concat(kept)
    ensures Concat(pulled) + (pending + piece) == pending0 + Concat(kept + [piece])
  {
    ConcatAppend(kept, [piece]);
    assert Concat([piece]) == piece by {
      assert [piece][..0] == [];
    }
    Associative(Concat(pulled), pending, piece);
    Associative(pending0, Concat(kept), piece);
  }

  /** While the accepted reads so far were kept whole, and all accepted
      reads fit, the next read fits beside what is pending. */
  lemma NextReadFits(pending0: seq<byte>, pulled: seq<seq<byte>>, taken: seq<seq<byte>>, pending: seq<byte>,
                     data: seq<byte>, rest: seq<seq<byte>>)
    requires Concat(pulled) + pending == pending0 + Concat(taken)
    requires |pending0| + |Concat(taken + [data] + rest)| <= PendingCapacity
    ensures |pending| + |data| <= PendingCapacity
  {
    ConcatAppend(taken + [data], rest);
    ConcatAppend(taken, [data]);
    assert Concat([data]) == data by {
      assert [data][..0] == [];
    }
  }

  /** Where the output thread and Emacs stand: the pending bytes, the
      thread's buffer index, the notifications written, the piece kept of
      each accepted read, the strings Emacs received, and whether the
      thread has exited. */
  datatype Pumped = Pumped(
    pending: seq<byte>,
    index: nat,
    notified: nat,
    kept: seq<seq<byte>>,
    pulled: seq<seq<byte>>,
    stopped: bool)

  /** What holds after the first `i` events, `taken` being the chunks
      accepted so far. */
  predicate PumpInvariant(pending0: seq<byte>, notifyFd: int, events: seq<Event>, i: nat, p: Pumped, taken: seq<seq<byte>>)
    requires i <= |events|
  {
    && |p.pending| <= PendingCapacity
    && Concat(p.pulled) + p.pending == pending0 + Concat(p.kept)
    && Accepted(events) == taken + (if p.stopped then [] else Accepted(events[i..]))
    && |p.kept| == |taken|
    && (forall j :: 0 <= j < |p.kept| ==> p.kept[j] <= taken[j])
    && (|pending0| + |Concat(Accepted(events))| <= PendingCapacity ==> p.kept == taken)
    && (forall j :: 0 <= j < |p.pulled| ==> |p.pulled[j]| > 0)
    && p.index < 2 && p.index == |p.kept| % 2
    && p.notified == if notifyFd >= 0 then |p.kept| else 0
  }

  /** Emacs pulls: a non-empty buffer is handed over and emptied. */
  function AfterPull(p: Pumped): (q: Pumped)
    ensures |q.pending| == 0 && q.kept == p.kept && q.index == p.index && q.notified == p.notified
    ensures q.pulled == if |p.pending| > 0 then p.pulled + [p.pending] else p.pulled
  {
    p.(pending := Drain(p.pending).1, pulled := if |p.pending| > 0 then p.pulled + [p.pending] else p.pulled)
  }

  /** The output thread takes in one read: what fits is appended, the
      buffer index flips, and Emacs is notified when the channel is open. */
  function AfterRead(p: Pumped, notifyFd: int, data: seq<byte>): (q: Pumped)
    requires |p.pending| <= PendingCapacity && p.index < 2
    ensures |q.kept| == |p.kept| + 1 && q.kept[..|p.kept|] == p.kept && q.kept[|p.kept|] <= data
    ensures q.pending == p.pending + q.kept[|p.kept|]
    ensures |q.pending| == Min(|p.pending| + |data|, PendingCapacity)
    ensures q.index == 1 - p.index && q.pulled == p.pulled && q.stopped == p.stopped
    ensures q.notified == if notifyFd >= 0 then p.notified + 1 else p.notified
  {
    var grown := Append(p.pending, data);
    var piece := grown[|p.pending|..];
    assert grown == p.pending + piece;
    p.(pending := grown, index := 1 - p.index, kept := p.kept + [piece],
       notified := if notifyFd >= 0 then p.notified + 1 else p.notified)
  }

  lemma PullKeeps(pending0: seq<byte>, notifyFd: int, events: seq<Event>, i: nat, p: Pumped, taken: seq<seq<byte>>)
    requires i < |events| && events[i].Pull?
    requires PumpInvariant(pending0, notifyFd, events, i, p, taken)
    ensures PumpInvariant(pending0, notifyFd, events, i + 1, AfterPull(p), taken)
  {
    AcceptedFrom(events, i);
    if |p.pending| > 0 {
      PullConserves(p.pulled, p.pending);
    }
  }

  lemma ReadKeeps(pending0: seq<byte>, notifyFd: int, events: seq<Event>, i: nat, p: Pumped, taken: seq<seq<byte>>)
    requires i < |events| && events[i].Read? && !Stops(events[i]) && !p.stopped
    requires PumpInvariant(pending0, notifyFd, events, i, p, taken)
    ensures PumpInvariant(pending0, notifyFd, events, i + 1, AfterRead(p, notifyFd, events[i].data), taken + [events[i].data])
  {
    var e := events[i];
    var q := AfterRead(p, notifyFd, e.data);
    var taken' := taken + [e.data];
    var piece := q.kept[|p.kept|];
    assert q.kept == p.kept + [piece];
    assert Accepted(events) == taken' + Accepted(events[i + 1..]) by {
      AcceptedFrom(events, i);
      Associative(taken, [e.data], Accepted(events[i + 1..]));
    }
    assert |pending0| + |Concat(Accepted(events))| <= PendingCapacity ==> q.kept == taken' by {
      if |pending0| + |Concat(Accepted(events))| <= PendingCapacity {
        NextReadFits(pending0, p.pulled, taken, p.pending, e.data, Accepted(events[i + 1..]));
      }
    }
    assert Concat(q.pulled) + q.pending == pending0 + Concat(q.kept) by {
      ReadConserves(pending0, p.pulled, p.kept, p.pending, piece);
    }
    assert q.index == |q.kept| % 2 by {
      FlipParity(|p.kept|, p.index);
    }
    assert forall j :: 0 <= j < |q.kept| ==> q.kept[j] <= taken'[j] by {
      assert forall j :: 0 <= j < |p.kept| ==> q.kept[j] == p.kept[j] && taken'[j] == taken[j];
    }
  }

  /** One event: a pull drains the buffer under the lock; a read, while the
      thread still runs, either ends it or is appended, flips the buffer
      index and notifies Emacs. */
  method PumpStep(pending0: seq<byte>, notifyFd: int, events: seq<Event>, i: nat, p: Pumped, taken: seq<seq<byte>>)
    returns (q: Pumped, taken': seq<seq<byte>>)
    requires i < |events| && PumpInvariant(pending0, notifyFd, events, i, p, taken)
    ensures PumpInvariant(pending0, notifyFd, events, i + 1, q, taken')
  {
    var e := events[i];
    if e.Pull? {
      PullKeeps(pending0, notifyFd, events, i, p, taken);
      q, taken' := AfterPull(p), taken;
    } else if p.stopped || Stops(e) {
      AcceptedFrom(events, i);
      q, taken' := p.(stopped := true), taken;
    } else {
      ReadKeeps(pending0, notifyFd, events, i, p, taken);
      q, taken' := AfterRead(p, notifyFd, e.data), taken + [e.data];
    }
  }

  /** The output thread's loop interleaved with Emacs pulling the pending
      output: the buffer never exceeds its capacity; what Emacs received
      followed by what is still pending is exactly the starting contents
      followed by what was kept of each accepted read (nothing invented,
      nothing reordered); each kept piece is a prefix of its read, and when
      everything fits nothing is dropped; Emacs never receives an empty
      string; the thread's buffer index is the parity of the reads, so it
      stays in {0, 1}; one notification byte is written per read when the
      channel is open. */
  method Pump(pending0: seq<byte>, notifyFd: int, events: seq<Event>) returns (r: Pumped)
    requires |pending0| <= PendingCapacity
    requires forall i :: 0 <= i < |events| && events[i].Read? ==> |events[i].data| <= ReadChunk
    ensures |r.pending| <= PendingCapacity
    ensures Concat(r.pulled) + r.pending == pending0 + Concat(r.kept)
    ensures |r.kept| == |Accepted(events)|
    ensures forall i :: 0 <= i < |r.kept| ==> r.kept[i] <= Accepted(events)[i]
    ensures |pending0| + |Concat(Accepted(events))| <= PendingCapacity ==> r.kept == Accepted(events)
    ensures forall i :: 0 <= i < |r.pulled| ==> |r.pulled[i]| > 0
    ensures r.index < 2 && r.index == |r.kept| % 2
    ensures r.notified == if notifyFd >= 0 then |r.kept| else 0
  {
    r := Pumped(pending0, 0, 0, [], [], false);
    var taken: seq<seq<byte>> := [];
    assert events[0..] == events;
    var i := 0;
    while i < |events|
      invariant 0 <= i <= |events|
      invariant PumpInvariant(pending0, notifyFd, events, i, r, taken)
    {
      r, taken := PumpStep(pending0, notifyFd, events, i, r, taken);
      i := i + 1;
    }
    assert events[i..] == [];
  }

  // ---------------------------------------------------------------------
  // Cleanup

  /** The handle fields cleanup closes: the open ones, and the pseudo
      console whenever it is not `NULL`. */
  function Held(s: State): (r: set<Resource>)
    ensures Lock !in r
  {
    (if s.iocpThread.Open? then {ReaderThread} else {})
    + (if s.iocp.Open? then {Iocp} else {})
    + (if s.shellProcess.Open? then {Process} else {})
    + (if s.ptyInput.Open? then {InWrite} else {})
    + (if s.ptyOutput.Open? then {OutRead} else {})
    + (if !s.hpc.Null? then {PseudoConsole} else {})
  }

  /** The outcome of `conpty_cleanup`: the terminal afterwards, the state
      record as cleanup left it, what it released, and whether it
      terminated the shell. */
  datatype Cleaned = Cleaned(term: Term, state: Option<State>, closed: set<Resource>, terminated: bool)

  /** Close one handle field if it is open, and null it. */
  function CloseOpen(h: Handle, res: Resource, closed: set<Resource>): (Handle, set<Resource>) {
    if h.Open? then (Null, closed + {res}) else (h, closed)
  }

  /** `conpty_cleanup`: nothing when no state is attached; otherwise stop the
      thread, close and null every open handle field in the source's order,
      delete the lock and detach the state. It releases exactly the held
      handles and the lock, leaves no field that a later cleanup would
      close, keeps `INVALID_HANDLE_VALUE` fields as they were, and
      terminates the shell exactly when its handle was open. */
  function Cleanup(t: Term): (r: Cleaned)
    ensures t.conpty.None? ==> r == Cleaned(t, None, {}, false)
    ensures t.conpty.Some? ==>
              && r.term.conpty.None?
              && r.closed == Held(t.conpty.value) + {Lock}
              && r.terminated == t.conpty.value.shellProcess.Open?
              && r.state.Some? && Held(r.state.value) == {}
              && !r.state.value.running
              && r.state.value.pending == t.conpty.value.pending
              && r.state.value.notifyFd == t.conpty.value.notifyFd
  {
    match t.conpty
    case None => Cleaned(t, None, {}, false)
    case Some(s) =>
      var s := s.(running := false);
      var (thread, c) := CloseOpen(s.iocpThread, ReaderThread, {});
      var (iocp, c) := CloseOpen(s.iocp, Iocp, c);
      var terminated := s.shellProcess.Open?;
      var (process, c) := CloseOpen(s.shellProcess, Process, c);
      var (input, c) := CloseOpen(s.ptyInput, InWrite, c);
      var (output, c) := CloseOpen(s.ptyOutput, OutRead, c);
      var (hpc, c) := if !s.hpc.Null? then (Null, c + {PseudoConsole}) else (s.hpc, c);
      var s := s.(iocpThread := thread, iocp := iocp, shellProcess := process,
                  ptyInput := input, ptyOutput := output, hpc := hpc);
      Cleaned(Term(None), Some(s), c + {Lock}, terminated)
  }

  /** Safe to call twice: the second call finds nothing attached and
      releases nothing. */
  lemma CleanupIdempotent(t: Term)
    ensures Cleanup(Cleanup(t).term) == Cleaned(Cleanup(t).term, None, {}, false)
    ensures Cleanup(Cleanup(t).term).term == Cleanup(t).term
  {
  }

  /** Cleaning up a second time the state record itself, had it stayed
      attached, would release only the lock: every handle is already
      closed and nulled. */
  lemma CleanupLeavesNothingOpen(t: Term)
    requires t.conpty.Some?
    ensures Cleanup(Term(Cleanup(t).state)).closed == {Lock}
    ensures !Cleanup(Term(Cleanup(t).state)).terminated
  {
  }

  // ---------------------------------------------------------------------
  // The Emacs-exposed functions

  /** `Fvterm_conpty_kill`: `nil` for a `NULL` terminal, otherwise cleanup
      and `t`. */
  function Kill(term: Option<Term>): (r: Reply)
    ensures term.None? ==> r == Reply(Nil, None)
    ensures term.Some? ==> r.value == T && r.term == Some(Term(None))
  {
    match term
    case None => Reply(Nil, None)
    case Some(t) => Reply(T, Some(Cleanup(t).term))
  }

  /** Killing twice is the same as killing once. */
  lemma KillTwice(term: Option<Term>)
    ensures Kill(Kill(term).term) == Kill(term)
  {
  }

  /** `Fvterm_conpty_read_pending`: the pending bytes, after which nothing
      is pending; `nil` and no change when nothing is pending or no state is
      attached. */
  function ReadPending(term: Option<Term>): (r: Reply)
    ensures r.value.Nil? || r.value.Str?
    ensures term.None? || term.value.conpty.None? ==> r == Reply(Nil, term)
    ensures term.Some? && term.value.conpty.Some? ==>
              var s := term.value.conpty.value;
              && (r.value.Str? <==> |s.pending| > 0)
              && (r.value.Str? ==> r.value.bytes == s.pending)
              && r.term == Some(Term(Some(s.(pending := []))))
  {
    if term.None? || term.value.conpty.None? then Reply(Nil, term)
    else
      var s := term.value.conpty.value;
      var (v, rest) := Drain(s.pending);
      Reply(v, Some(Term(Some(s.(pending := rest)))))
  }

  /** Reading twice in a row: the second read returns `nil` and changes
      nothing. */
  lemma ReadPendingTwice(term: Option<Term>)
    ensures ReadPending(ReadPending(term).term) == Reply(Nil, ReadPending(term).term)
  {
  }

  /** The reply of `Fvterm_conpty_write` and the bytes handed to `WriteFile`, if any. */
  datatype WriteOutcome = WriteOutcome(value: Value, sent: Option<seq<byte>>)

  /** `Fvterm_conpty_write` for a string whose UTF-8 bytes are `text`. The
      copied length counts the terminating `NUL`, so `len - 1 == |text|`:
      an empty string yields 0 with no write; otherwise exactly the string's
      bytes are written, without the terminator, and the reply is the count
      `WriteFile` reported (`written`), whether or not it succeeded. */
  function Write(nargs: int, term: Option<Term>, text: seq<byte>, bufferAllocated: bool, written: nat): (r: WriteOutcome)
    requires written <= |text|
    ensures nargs < 2 || term.None? || term.value.conpty.None? ==> r == WriteOutcome(Nil, None)
    ensures r.sent.Some? <==> nargs >= 2 && term.Some? && term.value.conpty.Some? && |text| > 0 && bufferAllocated
    ensures r.sent.Some? ==> r.sent.value == text && r.value == Integer(written)
    ensures nargs >= 2 && term.Some? && term.value.conpty.Some? && |text| == 0 ==> r.value == Integer(0)
    ensures r.value.Integer? ==> 0 <= r.value.n <= |text|
  {
    if nargs < 2 then WriteOutcome(Nil, None)
    else if term.None? || term.value.conpty.None? then WriteOutcome(Nil, None)
    else
      var len := |text| + 1;
      if len <= 1 then WriteOutcome(Integer(0), None)
      else if !bufferAllocated then WriteOutcome(Nil, None)
      else WriteOutcome(Integer(written), Some(text[..len - 1]))
  }

  /** The reply of `Fvterm_conpty_resize` and the size passed to
      `ResizePseudoConsole`, if it was called. */
  datatype ResizeOutcome = ResizeOutcome(value: Value, called: Option<Size>)

  /** `Fvterm_conpty_resize`: every guard failure returns `nil` without
      calling the primitive; otherwise the primitive is called once with the
      requested size, and the reply is `t` exactly when it succeeds. */
  function Resize(nargs: int, term: Option<Term>, width: int, height: int, resizeSucceeds: bool): (r: ResizeOutcome)
    ensures r.value == T || r.value == Nil
    ensures r.called.Some? <==>
              && nargs >= 3 && term.Some? && term.value.conpty.Some?
              && !term.value.conpty.value.hpc.Null? && Positive(Size(width, height))
    ensures r.called.Some? ==> r.called.value == Size(width, height)
    ensures r.value == T <==> r.called.Some? && resizeSucceeds
  {
    if nargs < 3 then ResizeOutcome(Nil, None)
    else if term.None? then ResizeOutcome(Nil, None)
    else if term.value.conpty.None? then ResizeOutcome(Nil, None)
    else if term.value.conpty.value.hpc.Null? then ResizeOutcome(Nil, None)
    else if width <= 0 || height <= 0 then ResizeOutcome(Nil, None)
    else ResizeOutcome(if resizeSucceeds then T else Nil, Some(Size(width, height)))
  }

  /** `Fvterm_conpty_is_alive`: `t` exactly when a shell handle is recorded,
      its exit code could be read, and that code is `STILL_ACTIVE`. */
  function IsAlive(term: Option<Term>, exitCodeRead: bool, exitCode: int): (r: Value)
    ensures r == T || r == Nil
    ensures r == T <==>
              && term.Some? && term.value.conpty.Some? && !term.value.conpty.value.shellProcess.Null?
              && exitCodeRead && exitCode == StillActive
  {
    if term.None? || term.value.conpty.None? || term.value.conpty.value.shellProcess.Null? then Nil
    else if exitCodeRead then (if exitCode == StillActive then T else Nil)
    else Nil
  }

  /** After a kill no shell is reported alive, whatever the OS answers. */
  lemma KilledIsNotAlive(term: Option<Term>, exitCodeRead: bool, exitCode: int)
    ensures IsAlive(Kill(term).term, exitCodeRead, exitCode) == Nil
  {
  }

  // ---------------------------------------------------------------------
  // Fvterm_conpty_init

  /** Oracle answers for `Fvterm_conpty_init`, in call order. */
  datatype InitOracle = InitOracle(
    probe: ApiLoader.Probe,
    shellCmdAllocated: bool,
    width: int,
    height: int,
    stateAllocated: bool,
    notifyFd: int,
    inPipe: bool,
    outPipe: bool,
    console: bool,
    attrAllocated: bool,
    attrInitialized: bool,
    attrUpdated: bool,
    wideAllocated: bool,
    process: bool,
    thread: bool)

  /** The checks made before the state record is attached to the terminal. */
  predicate PassesBeforeAttach(nargs: int, term: Option<Term>, api: ApiLoader.ApiState, o: InitOracle) {
    && nargs >= 5 && term.Some?
    && ApiLoader.Init(ApiLoader.ModuleLoader, api, o.probe).code == 0
    && o.shellCmdAllocated && Positive(Size(o.width, o.height)) && o.stateAllocated
  }

  /** The steps after the state record is attached. */
  predicate PassesAfterAttach(o: InitOracle) {
    && o.notifyFd >= 0 && o.inPipe && o.outPipe && o.console
    && o.attrAllocated && o.attrInitialized && o.attrUpdated && o.wideAllocated
    && o.process && o.thread
  }

  function Acquire(held: set<Resource>, x: Resource): (r: set<Resource>)
    requires x !in held
    ensures x in r
  {
    held + {x}
  }

  function Release(held: set<Resource>, x: Resource): (r: set<Resource>)
    requires x in held
    ensures x !in r
  {
    held - {x}
  }

  /** What a live session holds after a successful init. */
  const SessionResources: set<Resource> := {Lock, InWrite, OutRead, PseudoConsole, Process, ReaderThread}

  /** The record `Fvterm_conpty_init` attaches: zeroed, running, with the
      channel descriptor it was given. */
  function Fresh(notifyFd: int): State {
    State(Null, Null, Null, Null, Null, Null, notifyFd, [], true)
  }

  /** The part of `Fvterm_conpty_init` after the record is attached, up to
      the pseudo console: the lock, the channel, both anonymous pipes and
      the console. On success the lock, the module's pipe ends and the
      console are held and recorded; on failure nothing is held, the
      console's own pipe ends included. */
  method Connect(o: InitOracle) returns (ok: bool, s: State, held: set<Resource>)
    ensures ok <==> o.notifyFd >= 0 && o.inPipe && o.outPipe && o.console
    ensures ok ==> s == Fresh(o.notifyFd).(hpc := Open, ptyInput := Open, ptyOutput := Open)
    ensures ok ==> held == Held(s) + {Lock} && held == {Lock, InWrite, OutRead, PseudoConsole}
    ensures !ok ==> held == {}
  {
    s, held := Fresh(o.notifyFd), {};
    held := Acquire(held, Lock);
    if o.notifyFd < 0 || !o.inPipe {
      return false, s, Release(held, Lock);
    }
    held := Acquire(Acquire(held, InRead), InWrite);
    if !o.outPipe {
      held := Release(Release(held, InRead), InWrite);
      return false, s, Release(held, Lock);
    }
    held := Acquire(Acquire(held, OutRead), OutWrite);
    if o.console {
      held := Acquire(held, PseudoConsole);
      s := s.(hpc := Open);
    }
    // The console's own pipe ends are closed whatever the outcome.
    held := Release(Release(held, InRead), OutWrite);
    if !o.console {
      held := Release(Release(held, InWrite), OutRead);
      return false, s, Release(held, Lock);
    }
    s := s.(ptyInput := Open, ptyOutput := Open);
    ok := true;
  }

  /** The rest of `Fvterm_conpty_init`: the attribute list, the wide
      command line, the shell process and the output thread, with
      `conpty_cleanup` on each failure. On success the state also records
      the shell and the thread and exactly the session's resources are
      held; on failure nothing is held and no state stays attached. */
  method Launch(o: InitOracle, s: State, held0: set<Resource>) returns (ok: bool, t: Term, held: set<Resource>)
    requires s == Fresh(o.notifyFd).(hpc := Open, ptyInput := Open, ptyOutput := Open)
    requires held0 == {Lock, InWrite, OutRead, PseudoConsole, ShellCmd}
    ensures ok <==> o.attrAllocated && o.attrInitialized && o.attrUpdated && o.wideAllocated && o.process && o.thread
    ensures ok ==> t == Term(Some(s.(shellProcess := Open, iocpThread := Open))) && held == SessionResources
    ensures !ok ==> t == Term(None) && held == {}
  {
    t, held := Term(Some(s)), held0;
    if !o.attrAllocated {
      var c := Cleanup(t);
      return false, c.term, Release(held - c.closed, ShellCmd);
    }
    held := Acquire(held, AttrList);
    if !o.attrInitialized || !o.attrUpdated || !o.wideAllocated {
      held := Release(held, AttrList);
      var c := Cleanup(t);
      return false, c.term, Release(held - c.closed, ShellCmd);
    }
    held := Acquire(held, WideCmd);
    held := Release(held, ShellCmd);
    if o.process {
      held := Acquire(Acquire(held, Process), ProcessThread);
    }
    held := Release(Release(held, WideCmd), AttrList);
    if !o.process {
      var c := Cleanup(t);
      return false, c.term, held - c.closed;
    }
    held := Release(held, ProcessThread);
    t := Term(Some(s.(shellProcess := Open)));
    if !o.thread {
      var c := Cleanup(t);
      return false, c.term, held - c.closed;
    }
    t := Term(Some(s.(shellProcess := Open, iocpThread := Open)));
    held := Acquire(held, ReaderThread);
    ok := true;
  }

  /** `Fvterm_conpty_init`, with the resources it holds tracked step by
      step (each acquisition of something not held, each release of
      something held). On success the terminal carries a running state
      with every session handle open, and what is held is exactly what a
      later cleanup releases. On failure nothing stays held; a rejection
      before the state is attached leaves the terminal untouched, and a
      failure after it leaves no state attached. */
  method InitTerm(nargs: int, term: Option<Term>, api: ApiLoader.ApiState, o: InitOracle)
    returns (value: Value, term': Option<Term>, api': ApiLoader.ApiState, held: set<Resource>)
    ensures value == T || value == Nil
    ensures value == T <==> PassesBeforeAttach(nargs, term, api, o) && PassesAfterAttach(o)
    ensures api' == if nargs >= 5 && term.Some? then ApiLoader.Init(ApiLoader.ModuleLoader, api, o.probe).state else api
    ensures value == Nil ==> held == {}
    ensures !PassesBeforeAttach(nargs, term, api, o) ==> term' == term
    ensures PassesBeforeAttach(nargs, term, api, o) && value == Nil ==> term' == Some(Term(None))
    ensures value == T ==>
              && term'.Some? && term'.value.conpty.Some?
              && var s := term'.value.conpty.value;
              && s.running && s.pending == [] && s.notifyFd == o.notifyFd && s.hpc.Open?
              && held == SessionResources
              && Cleanup(term'.value).closed == held
  {
    value, term', api', held := Nil, term, api, {};
    if nargs < 5 || term.None? {
      return;
    }
    var loaded := ApiLoader.Init(ApiLoader.ModuleLoader, api, o.probe);
    api' := loaded.state;
    if loaded.code != 0 || !o.shellCmdAllocated {
      return;
    }
    held := Acquire(held, ShellCmd);
    if o.width <= 0 || o.height <= 0 || !o.stateAllocated {
      held := Release(held, ShellCmd);
      return;
    }
    var ok, s, connected := Connect(o);
    if !ok {
      held := Release(held, ShellCmd);
      term' := Some(Term(None));
      return;
    }
    var t;
    ok, t, held := Launch(o, s, connected + held);
    term' := Some(t);
    if ok {
      value := T;
    }
  }

  /** A session that started and is then killed gives back everything it
      held, and terminates its shell. */
  method InitThenKill(nargs: int, term: Option<Term>, api: ApiLoader.ApiState, o: InitOracle)
    returns (started: bool, released: set<Resource>, terminated: bool)
    ensures started <==> PassesBeforeAttach(nargs, term, api, o) && PassesAfterAttach(o)
    ensures started ==> released == SessionResources && terminated
  {
    var value, term', api', held := InitTerm(nargs, term, api, o);
    started := value == T;
    if started {
      var c := Cleanup(term'.value);
      released, terminated := c.closed, c.terminated;
    } else {
      released, terminated := {}, false;
    }
  }

  /** On a started session, writing a non-empty string with its buffer
      allocated hands exactly its bytes to the console input and replies
      with the count written, and resizing to a positive size calls the
      primitive once with that size, replying `t` exactly when it
      succeeds. */
  method InitThenUse(term: Option<Term>, api: ApiLoader.ApiState, o: InitOracle,
                     text: seq<byte>, bufferAllocated: bool, written: nat,
                     width: int, height: int, resizeSucceeds: bool)
    returns (started: bool, wrote: WriteOutcome, resized: ResizeOutcome)
    requires written <= |text|
    ensures started <==> PassesBeforeAttach(5, term, api, o) && PassesAfterAttach(o)
    ensures started && |text| > 0 && bufferAllocated ==> wrote == WriteOutcome(Integer(written), Some(text))
    ensures started && |text| == 0 ==> wrote == WriteOutcome(Integer(0), None)
    ensures started && Positive(Size(width, height)) ==>
              resized.called == Some(Size(width, height)) && (resized.value == T <==> resizeSucceeds)
  {
    var value, term', api', held := InitTerm(5, term, api, o);
    started := value == T;
    wrote := Write(2, term', text, bufferAllocated, written);
    resized := Resize(3, term', width, height, resizeSucceeds);
  }

  /** After a kill, writing and resizing reply `nil` and touch nothing. */
  lemma KilledIgnoresIo(term: Option<Term>, nargs: int, text: seq<byte>, bufferAllocated: bool, written: nat,
                        width: int, height: int, resizeSucceeds: bool)
    requires written <= |text|
    ensures Write(nargs, Kill(term).term, text, bufferAllocated, written) == WriteOutcome(Nil, None)
    ensures Resize(nargs, Kill(term).term, width, height, resizeSucceeds) == ResizeOutcome(Nil, None)
  {
  }
}
