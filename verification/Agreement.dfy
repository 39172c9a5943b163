/** The port check and the sends agree: what a run connects to is what was checked beforehand. */
module Agreement {
  import opened Prelude
  import opened Contract
  import opened Runtime
  import opened Template
  import opened Targets
  import opened Vm
  import opened Structured
  import opened Precheck
  import opened Refinement

  // ---------- variables a program leaves alone ----------

  /** The string-pool index of the variable an instruction binds, if it binds one. */
  function Binds(i: Instr): Option<u32> {
    match i
    case Set(name, _) => Some(name)
    case SetList(name, _, _) => Some(name)
    case Extract(name, _) => Some(name)
    case ForList(item, _, _, _) => Some(item)
    case ForVar(item, _, _) => Some(item)
    case _ => None
  }

  predicate BindsName(x: Executor, i: Instr, name: Str) {
    match Binds(i)
    case Some(k) => k < |x.strings| && x.strings[k] == name
    case None => false
  }

  /** No instruction of the code binds the variable. */
  predicate Untouched(x: Executor, code: seq<Instr>, name: Str) {
    forall i | i in code :: !BindsName(x, i, name)
  }

  /** A host template all of whose variables the code leaves alone - `{{scan_host}}`, typically. */
  predicate Stable(x: Executor, code: seq<Instr>, host: Str) {
    forall n | n in Names(host) :: Untouched(x, code, n)
  }

  // ---------- the invariant ----------

  ghost predicate ScanIntact(x: Executor, code: seq<Instr>, v: Variables) {
    forall n | Untouched(x, code, n) :: Lookup(v, n) == Lookup(ScanTargetVariables(x.resolver, x.baseUrl), n)
  }

  predicate FramesApart(x: Executor, code: seq<Instr>, stack: seq<LoopFrame>) {
    forall i | 0 <= i < |stack| :: !Untouched(x, code, stack[i].item)
  }

  /** The exchange went to a checked endpoint, if its probe's host is stable. */
  ghost predicate ExchangeChecked(x: Executor, code: seq<Instr>, e: Exchange) {
    e.SocketExchange? && e.transport == OverTcp ==>
      && e.probe in x.spec.probes && x.spec.probes[e.probe].Tcp?
      && (Stable(x, code, x.spec.probes[e.probe].socket.host) ==>
            (NormalizeHost(x.resolver, e.host), e.port) in RequiredEndpoints(x.resolver, x.spec, x.baseUrl))
  }

  ghost predicate WireChecked(x: Executor, code: seq<Instr>, wire: seq<Exchange>) {
    forall i | 0 <= i < |wire| :: ExchangeChecked(x, code, wire[i])
  }

  // ---------- one send ----------

  /** With the untouched variables intact, a stable host resolves exactly as it did for the check. */
  lemma SameHost(x: Executor, code: seq<Instr>, host: Str, v: Variables)
    requires ScanIntact(x, code, v) && Stable(x, code, host)
    ensures Interpolate(host, v) == Ok(ResolveTemplate(host, ScanTargetVariables(x.resolver, x.baseUrl)))
  {
    hide Interpolate, Names, ScanTargetVariables;
    var w := ScanTargetVariables(x.resolver, x.baseUrl);
    forall n | n in Names(host) ensures ResolveScalar(n, v) == ResolveScalar(n, w) {
      assert Lookup(v, n) == Lookup(w, n);
    }
    InterpolateReadsOnlyNames(host, v, w);
    ResolveNeverFallsBack(x.resolver, x.baseUrl, host);
  }

  lemma EndpointRequired(x: Executor, name: Str)
    requires name in x.spec.probes && Prechecked(x.spec.probes[name])
    ensures ProbeEndpoint(x.resolver, x.baseUrl, x.spec.probes[name]) in RequiredEndpoints(x.resolver, x.spec,
        x.baseUrl)
  {
  }

  lemma ExchangeSnoc(x: Executor, code: seq<Instr>, wire: seq<Exchange>, e: Exchange)
    requires WireChecked(x, code, wire) && ExchangeChecked(x, code, e)
    ensures WireChecked(x, code, wire + [e])
  {
    hide ExchangeChecked;
  }

  lemma SocketAddsOne(
    x: Executor, name: Str, transport: Transport, host: Str, port: u16,
    payload: Option<seq<byte>>, keep: bool, st: State)
    ensures var w := ExchangeSocket(x, name, transport, host, port, payload, keep, st).st.wire;
            exists reused, data :: w == st.wire + [SocketExchange(name, transport, host, port, payload, reused, data)]
  {
    hide StoreResponse;
    var reused := keep && name in st.sessions && st.sessions[name] == transport;
    match x.net.exchange(|st.wire|)
    case Ok(data) =>
      assert ExchangeSocket(x, name, transport, host, port, payload, keep, st).st.wire
          == st.wire + [SocketExchange(name, transport, host, port, payload, reused, Some(data))];
    case Err(_) =>
      assert ExchangeSocket(x, name, transport, host, port, payload, keep, st).st.wire
          == st.wire + [SocketExchange(name, transport, host, port, payload, reused, None)];
  }

  lemma TcpSendChecked(x: Executor, code: seq<Instr>, name: Str, over: Option<seq<byte>>, st: State)
    requires name in x.spec.probes && x.spec.probes[name].Tcp? && ScanIntact(x, code, st.variables)
    requires WireChecked(x, code, st.wire)
    ensures WireChecked(x, code, SendTcp(x, name, x.spec.probes[name].socket, over, st).st.wire)
  {
    hide Interpolate, InterpolatePayload, ExchangeSocket, RequiredEndpoints, WireChecked, ScanIntact, Stable,
      ScanTargetVariables;
    var spec := x.spec.probes[name].socket;
    if InterpolateSocketSpec(spec, st.variables).Ok? && spec.port.Some? {
      var s := InterpolateSocketSpec(spec, st.variables).value;
      var payload := OrElse(over, s.payload);
      SocketAddsOne(x, name, OverTcp, s.host, s.port.value, payload, s.session, st);
      var reused, data :| ExchangeSocket(x, name, OverTcp, s.host, s.port.value, payload, s.session, st).st.wire
                       == st.wire + [SocketExchange(name, OverTcp, s.host, s.port.value, payload, reused, data)];
      if Stable(x, code, spec.host) {
        SameHost(x, code, spec.host, st.variables);
        EndpointRequired(x, name);
      }
      ExchangeSnoc(x, code, st.wire, SocketExchange(name, OverTcp, s.host, s.port.value, payload, reused, data));
    }
  }

  lemma SendChecked(x: Executor, code: seq<Instr>, name: Str, over: Option<seq<byte>>, st: State)
    requires ScanIntact(x, code, st.variables) && WireChecked(x, code, st.wire)
    ensures WireChecked(x, code, SendProbe(x, name, over, st).st.wire)
  {
    hide InterpolateSocketSpec, ExchangeSocket, StoreResponse, SendTcp, ScanIntact, RequiredEndpoints;
    if name in x.spec.probes {
      match x.spec.probes[name]
      case Http(_) =>
      case Tcp(_) => TcpSendChecked(x, code, name, over, st);
      case Dns(spec) => DatagramChecked(x, code, name, spec, over, st);
      case Udp(spec) => DatagramChecked(x, code, name, spec, over, st);
    }
  }

  lemma DatagramChecked(x: Executor, code: seq<Instr>, name: Str, spec: SocketProbeSpec, over: Option<seq<byte>>,
      st: State)
    requires WireChecked(x, code, st.wire)
    ensures WireChecked(x, code, SendDns(x, name, spec, over, st).st.wire)
    ensures WireChecked(x, code, SendUdp(x, name, spec, over, st).st.wire)
  {
    hide InterpolateSocketSpec, ExchangeSocket, StoreResponse, RequiredEndpoints, WireChecked;
    forall host, port, payload, keep
      ensures WireChecked(x, code, ExchangeSocket(x, name, OverUdp, host, port, payload, keep, st).st.wire)
    {
      SocketAddsOne(x, name, OverUdp, host, port, payload, keep, st);
      var reused, data :| ExchangeSocket(x, name, OverUdp, host, port, payload, keep, st).st.wire
                       == st.wire + [SocketExchange(name, OverUdp, host, port, payload, reused, data)];
      ExchangeSnoc(x, code, st.wire, SocketExchange(name, OverUdp, host, port, payload, reused, data));
    }
    forall host, ok { ExchangeSnoc(x, code, st.wire, Resolution(name, host, ok)); }
  }

  lemma {:induction false} RetryChecked(x: Executor, code: seq<Instr>, name: Str, left: nat,
      last: Option<RuntimeError>, st: State)
    requires ScanIntact(x, code, st.variables) && WireChecked(x, code, st.wire)
    ensures WireChecked(x, code, RetrySend(x, name, left, last, st).st.wire)
    decreases left
  {
    hide SendProbe, ScanIntact, WireChecked;
    if left > 0 {
      SendChecked(x, code, name, None, st);
      var s := SendProbe(x, name, None, st);
      if s.result.Err? {
        RetryChecked(x, code, name, left - 1, Some(s.result.error), s.st);
      }
    }
  }

  // ---------- every step ----------

  /** The state the instruction at hand leaves, also when it aborts the run. */
  function Attempted(x: Executor, i: Instr, st: State): State {
    match i
    case Send(probe, payload) =>
      if probe < |x.strings| && PayloadOverride(x, payload).Ok?
      then SendProbe(x, x.strings[probe], PayloadOverride(x, payload).value, st).st else st
    case Retry(probe, count) =>
      if probe < |x.strings| then RetrySend(x, x.strings[probe], count, None, st).st else st
    case _ => st
  }

  lemma AttemptChecked(x: Executor, code: seq<Instr>, i: Instr, st: State)
    requires ScanIntact(x, code, st.variables) && WireChecked(x, code, st.wire)
    ensures WireChecked(x, code, Attempted(x, i, st).wire)
  {
    hide SendProbe, RetrySend, ScanIntact, WireChecked;
    match i
    case Send(probe, payload) =>
      if probe < |x.strings| && PayloadOverride(x, payload).Ok? {
        SendChecked(x, code, x.strings[probe], PayloadOverride(x, payload).value, st);
      }
    case Retry(probe, count) =>
      if probe < |x.strings| {
        RetryChecked(x, code, x.strings[probe], count, None, st);
      }
    case _ =>
  }

  /** Only sends touch the wire, and a successful one leaves what was attempted. */
  lemma BasicWire(x: Executor, i: Instr, st: State)
    requires IsBasic(i) && ExecBasic(x, i, st).Ok?
    ensures ExecBasic(x, i, st).value.wire == Attempted(x, i, st).wire
  {
    hide SendProbe, RetrySend, ListValues, MatchesIdx, AllVerdict, AnyVerdict, CollectEvidence, ExtractValue,
      Interpolate;
  }

  lemma BasicScanIntact(x: Executor, code: seq<Instr>, i: Instr, st: State)
    requires IsBasic(i) && ExecBasic(x, i, st).Ok? && ScanIntact(x, code, st.variables) && i in code
    ensures ScanIntact(x, code, ExecBasic(x, i, st).value.variables)
  {
    hide ExecBasic, ScanTargetVariables;
    BasicVariables(x, i, st);
  }

  ghost predicate Intact(x: Executor, code: seq<Instr>, m: Machine) {
    match m
    case Running(_, st, stack) => ScanIntact(x, code, st.variables) && FramesApart(x, code, stack)
    case _ => true
  }

  ghost predicate AllChecked(x: Executor, code: seq<Instr>, m: Machine) {
    match m
    case Running(_, st, _) => WireChecked(x, code, st.wire)
    case Finished(st) => WireChecked(x, code, st.wire)
    case Failed(_) => true
  }

  lemma ForIntact(x: Executor, code: seq<Instr>, i: Instr, pc: nat, st: State, stack: seq<LoopFrame>)
    requires IsFor(i) && i in code && ScanIntact(x, code, st.variables) && FramesApart(x, code, stack)
    ensures Intact(x, code, StepFor(x, i, pc, st, stack))
    ensures StepFor(x, i, pc, st, stack).Running? ==> StepFor(x, i, pc, st, stack).st.wire == st.wire
    ensures !StepFor(x, i, pc, st, stack).Finished?
  {
    hide LoopValues, ScanTargetVariables;
  }

  /** Binding or restoring a variable the code does touch keeps the others. */
  lemma RebindIntact(x: Executor, code: seq<Instr>, st: State, name: Str, value: Str, previous: Option<VariableValue>)
    requires ScanIntact(x, code, st.variables) && !Untouched(x, code, name)
    ensures ScanIntact(x, code, SetText(st, name, value).variables)
    ensures ScanIntact(x, code, Restore(st, name, previous).variables)
  {
    hide ScanTargetVariables, Untouched;
  }

  lemma LeaveIntact(x: Executor, code: seq<Instr>, st: State, stack: seq<LoopFrame>)
    requires ScanIntact(x, code, st.variables) && FramesApart(x, code, stack)
    ensures Intact(x, code, Vm.StepLoopBack(st, stack)) && Intact(x, code, Vm.StepBreak(st, stack))
    ensures Intact(x, code, Vm.StepContinue(st, stack))
    ensures forall m | m in [Vm.StepLoopBack(st, stack), Vm.StepBreak(st, stack), Vm.StepContinue(st, stack)] ::
              m.Failed? || (m.Running? && m.st.wire == st.wire)
  {
    hide ScanIntact, Untouched;
    if stack != [] {
      var f := Top(stack);
      RebindIntact(x, code, st, f.item, if f.index + 1 < |f.values| then f.values[f.index + 1] else [], f.previous);
    }
  }

  lemma StepAgrees(x: Executor, code: seq<Instr>, m: Machine)
    requires Intact(x, code, m) && AllChecked(x, code, m)
    ensures Intact(x, code, Step(x, code, m)) && AllChecked(x, code, Step(x, code, m))
  {
    hide ExecBasic, StepFor, Vm.StepLoopBack, Vm.StepBreak, Vm.StepContinue, Condition, ScanIntact, FramesApart,
      WireChecked,
      Attempted;
    if m.Running? && m.pc < |code| {
      var i := code[m.pc];
      assert i in code;
      if IsBasic(i) {
        if ExecBasic(x, i, m.st).Ok? {
          BasicScanIntact(x, code, i, m.st);
          BasicWire(x, i, m.st);
          AttemptChecked(x, code, i, m.st);
        }
      } else if IsFor(i) {
        ForIntact(x, code, i, m.pc, m.st, m.stack);
      } else {
        LeaveIntact(x, code, m.st, m.stack);
      }
    }
  }

  /** In every run, every TCP connection of a probe whose host's variables the code never binds - also
      one whose failure aborts the run - is to a pre-checked endpoint. */
  lemma {:induction false} SendsWerePrechecked(x: Executor, code: seq<Instr>, n: nat)
    ensures var m := Iterate(x, code, InitialMachine(x), n);
            && Intact(x, code, m) && AllChecked(x, code, m)
            && (m.Running? && m.pc < |code| ==> WireChecked(x, code, Attempted(x, code[m.pc], m.st).wire))
    decreases n
  {
    hide Step, Attempted, ScanTargetVariables, WireChecked, ScanIntact, InitialState;
    if n == 0 {
      InitiallyIntact(x, code);
    } else {
      SendsWerePrechecked(x, code, n - 1);
      IterateAdd(x, code, InitialMachine(x), n - 1, 1);
      var p := Iterate(x, code, InitialMachine(x), n - 1);
      OneStep(x, code, p);
      StepAgrees(x, code, p);
    }
    var m := Iterate(x, code, InitialMachine(x), n);
    if m.Running? && m.pc < |code| {
      AttemptChecked(x, code, code[m.pc], m.st);
    }
  }

  lemma InitiallyIntact(x: Executor, code: seq<Instr>)
    ensures Intact(x, code, InitialMachine(x)) && AllChecked(x, code, InitialMachine(x))
  {
    InjectedEqualsPrechecked(x.resolver, x.baseUrl);
  }
}
