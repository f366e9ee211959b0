/** The memoised loader of the three pseudo-console entry points
    (CreatePseudoConsole, ResizePseudoConsole, ClosePseudoConsole).
    Both programs keep a process-wide tri-state: 0 = not tried yet,
    -1 = failed for good, 1 = loaded. The OS is an oracle: a `Probe` says
    what kernel32 would answer if asked now. */
module ApiLoader {

  /** `g_conpty_api_inited` (proxy) / `g_conpty_api_initialized` (module). */
  datatype ApiState = Untried | Failed | Loaded

  /** Whether kernel32 is found and whether each entry point resolves. */
  datatype Probe = Probe(kernelFound: bool, create: bool, resize: bool, close: bool)

  predicate AllResolved(p: Probe) {
    p.kernelFound && p.create && p.resize && p.close
  }

  /** Which program's loader: conpty_proxy.c stops at the first missing
      symbol; conpty.c looks up all three before checking. */
  datatype Variant = ProxyLoader | ModuleLoader

  /** One call: the return code, the state afterwards, and how many OS
      queries (module lookup plus symbol lookups) it made. */
  datatype LoadOutcome = LoadOutcome(code: int, state: ApiState, queries: nat)

  /** `conpty_api_init`. */
  function Init(v: Variant, s: ApiState, p: Probe): (r: LoadOutcome)
    ensures r.code == 0 || r.code == -1
    ensures r.code == 0 <==> r.state == Loaded
    ensures s == Failed ==> r == LoadOutcome(-1, Failed, 0)
    ensures s == Loaded ==> r == LoadOutcome(0, Loaded, 0)
    ensures s == Untried ==> r.state != Untried && r.queries >= 1
    ensures s == Untried ==> (r.state == Loaded <==> AllResolved(p))
    ensures s == Untried && p.kernelFound && !p.create ==>
              r.queries == (if v.ProxyLoader? then 2 else 4)
  {
    match s
    case Failed => LoadOutcome(-1, Failed, 0)
    case Loaded => LoadOutcome(0, Loaded, 0)
    case Untried =>
      if !p.kernelFound then LoadOutcome(-1, Failed, 1)
      else if v.ModuleLoader? then
        if p.create && p.resize && p.close then LoadOutcome(0, Loaded, 4) else LoadOutcome(-1, Failed, 4)
      else if !p.create then LoadOutcome(-1, Failed, 2)
      else if !p.resize then LoadOutcome(-1, Failed, 3)
      else if !p.close then LoadOutcome(-1, Failed, 4)
      else LoadOutcome(0, Loaded, 4)
  }

  /** Successive calls, the i-th seeing `probes[i]`. */
  function Replay(v: Variant, s: ApiState, probes: seq<Probe>): (rs: seq<LoadOutcome>)
    ensures |rs| == |probes|
    decreases |probes|
  {
    if |probes| == 0 then []
    else
      var r := Init(v, s, probes[0]);
      [r] + Replay(v, r.state, probes[1..])
  }

  /** Once settled, every call returns the settled code and asks the OS nothing. */
  lemma {:induction false} SettledStaysSettled(v: Variant, s: ApiState, probes: seq<Probe>)
    requires s != Untried
    ensures forall i :: 0 <= i < |probes| ==>
              Replay(v, s, probes)[i] == LoadOutcome(if s == Loaded then 0 else -1, s, 0)
  {
    if |probes| > 0 {
      SettledStaysSettled(v, s, probes[1..]);
    }
  }

  /** The loader is sticky: whatever the OS answers later, every call
      returns what the first call returned, only the first call queries
      the OS, and success means all three symbols resolved on that first
      probe. */
  lemma {:induction false} Sticky(v: Variant, s: ApiState, probes: seq<Probe>)
    requires |probes| > 0
    ensures forall i :: 0 <= i < |probes| ==> Replay(v, s, probes)[i].code == Replay(v, s, probes)[0].code
    ensures forall i :: 1 <= i < |probes| ==> Replay(v, s, probes)[i].queries == 0
    ensures s == Untried ==> (Replay(v, s, probes)[0].code == 0 <==> AllResolved(probes[0]))
  {
    var first := Init(v, s, probes[0]);
    SettledStaysSettled(v, first.state, probes[1..]);
  }
}
