/** From bytes to a result: decoding, loading, the port check and the run, taken together. */
module WholeRuns {
  import opened Prelude
  import opened Contract
  import opened Runtime
  import opened Targets
  import opened Ordering
  import opened Vm
  import opened Precheck
  import opened Execution
  import opened Agreement
  import Codec
  import DecodedRuns
  import Decoder
  import Safety
  import Wire

  // ---------- executing bytes ----------

  datatype Failure = Bytecode(defect: Wire.BytecodeError) | Aborted(error: RuntimeError)

  /** What executing `bytes` may give: the decoder's error, the loader's, or the reported run. */
  ghost predicate Explained(
    bytes: seq<byte>, engine: Engine, resolver: Resolver, net: Network, baseUrl: Str, answers: nat -> bool,
    budget: nat, r: Result<ExecutionResult, Failure>)
  {
    match Codec.Decode(bytes)
    case Err(e) => r == Err(Bytecode(e))
    case Ok(p) =>
      match FromProgram(engine, resolver, net, baseUrl, p)
      case Err(e) => r == Err(Aborted(e))
      case Ok(x) =>
        exists run ::
          && RunExplained(x, p.code, answers, budget, run)
          && r == match run case Ok(v) => Ok(v) case Err(e) => Err(Aborted(e))
  }

  /** The port check's answers and the machine's run explain the result. */
  ghost predicate RunExplained(
    x: Executor, code: seq<Instr>, answers: nat -> bool, budget: nat, r: Checked<ExecutionResult>)
  {
    var endpoints := EndpointList(x.resolver, x.spec, x.baseUrl);
    exists closed ::
      IsFirstClosed(endpoints, answers, closed) && Reported(x, code, Checks(endpoints, answers), closed, budget, r)
  }

  /** Any bytes at all: decode, load, check, run. Nothing panics on the way. */
  method ExecuteBytes(
    bytes: seq<byte>, engine: Engine, resolver: Resolver, net: Network, baseUrl: Str, answers: nat -> bool,
    budget: nat) returns (r: Result<ExecutionResult, Failure>)
    ensures Explained(bytes, engine, resolver, net, baseUrl, answers, budget, r)
    ensures r != Err(Aborted(Panic))
  {
    hide Codec.Decode, FromProgram, RunExplained, ValidTexts, Safety.Loaded;
    var decoded := Decoder.Decode(bytes);
    if decoded.Err? {
      return Err(Bytecode(decoded.error));
    }
    var program := decoded.value;
    var loaded := FromProgram(engine, resolver, net, baseUrl, program);
    LoadingDoesNotPanic(engine, resolver, net, baseUrl, program);
    if loaded.Err? {
      return Err(Aborted(loaded.error));
    }
    var x := loaded.value;
    DecodedRuns.DecodedTexts(bytes, engine, resolver, net, baseUrl);
    DecodedRuns.DecodedIsLoaded(bytes, engine, resolver, net, baseUrl);
    var run := RunBytecode(x, program.code, answers, budget);
    assert RunExplained(x, program.code, answers, budget, run) by { Wrap(x, program.code, answers, budget, run); }
    ReportedDoesNotPanic(x, program.code, answers, budget, run);
    return match run case Ok(v) => Ok(v) case Err(e) => Err(Aborted(e));
  }

  lemma Wrap(x: Executor, code: seq<Instr>, answers: nat -> bool, budget: nat, r: Checked<ExecutionResult>)
    requires var endpoints := EndpointList(x.resolver, x.spec, x.baseUrl);
             exists closed ::
               && IsFirstClosed(endpoints, answers, closed)
               && Reported(x, code, Checks(endpoints, answers), closed, budget, r)
    ensures RunExplained(x, code, answers, budget, r)
  {
    hide Reported, EndpointList, IsFirstClosed, Checks;
  }

  lemma LoadingDoesNotPanic(engine: Engine, resolver: Resolver, net: Network, baseUrl: Str, p: BytecodeProgram)
    ensures FromProgram(engine, resolver, net, baseUrl, p) != Err(Panic)
  {
    hide PoolsOf, CompiledFrom;
    CompilingDoesNotPanic(engine, p.matchers);
    forall patterns ensures CompilePatterns(engine, patterns) != Err(Panic) {
      PatternsDoNotPanic(engine, patterns);
    }
  }

  lemma {:induction false} CompilingDoesNotPanic(engine: Engine, ms: seq<QualifiedMatch>)
    ensures CompileMatchers(engine, ms) != Err(Panic)
  {
    if ms != [] {
      CompilingDoesNotPanic(engine, ms[1..]);
    }
  }

  lemma {:induction false} PatternsDoNotPanic(engine: Engine, ps: seq<Option<Str>>)
    ensures CompilePatterns(engine, ps) != Err(Panic)
  {
    if ps != [] {
      PatternsDoNotPanic(engine, ps[1..]);
    }
  }

  lemma ReportedDoesNotPanic(
    x: Executor, code: seq<Instr>, answers: nat -> bool, budget: nat, r: Checked<ExecutionResult>)
    requires Safety.Loaded(x, code) && RunExplained(x, code, answers, budget, r)
    ensures r != Err(Panic)
  {
    hide Run, EndpointList, IsFirstClosed, Checks, InitialState, Safety.Loaded;
    Safety.RunNeverPanics(x, code, InitialMachine(x), budget);
  }

  // ---------- the purpose of the port check ----------

  /** A TCP connection of a probe whose host the code leaves alone went to an endpoint found open. */
  ghost predicate WentToOpen(x: Executor, code: seq<Instr>, answers: nat -> bool, e: Exchange) {
    var endpoints := EndpointList(x.resolver, x.spec, x.baseUrl);
    e.SocketExchange? && e.transport == OverTcp ==>
      && e.probe in x.spec.probes && x.spec.probes[e.probe].Tcp?
      && (Stable(x, code, x.spec.probes[e.probe].socket.host) ==>
            exists k | 0 <= k < |endpoints| ::
              endpoints[k] == (NormalizeHost(x.resolver, e.host), e.port) && answers(k))
  }

  lemma CheckedIsOpen(x: Executor, code: seq<Instr>, answers: nat -> bool, e: Exchange)
    requires IsFirstClosed(EndpointList(x.resolver, x.spec, x.baseUrl), answers, None) && ExchangeChecked(x, code, e)
    ensures WentToOpen(x, code, answers, e)
  {
    hide RequiredEndpoints, EndpointList, NormalizeHost, Stable;
    if e.SocketExchange? && e.transport == OverTcp && Stable(x, code, x.spec.probes[e.probe].socket.host) {
      var endpoints := EndpointList(x.resolver, x.spec, x.baseUrl);
      var endpoint := (NormalizeHost(x.resolver, e.host), e.port);
      assert endpoint in Elements(endpoints);
      var k :| 0 <= k < |endpoints| && endpoints[k] == endpoint;
    }
  }

  lemma WireIsOpen(x: Executor, code: seq<Instr>, answers: nat -> bool, wire: seq<Exchange>)
    requires IsFirstClosed(EndpointList(x.resolver, x.spec, x.baseUrl), answers, None) && WireChecked(x, code, wire)
    ensures forall i | 0 <= i < |wire| :: WentToOpen(x, code, answers, wire[i])
  {
    hide ExchangeChecked, WentToOpen, IsFirstClosed, EndpointList;
    forall i | 0 <= i < |wire| ensures WentToOpen(x, code, answers, wire[i]) {
      CheckedIsOpen(x, code, answers, wire[i]);
    }
  }

  /** In a run that was not skipped, at every step and also in the send that aborts it, every such connection
      goes to an endpoint whose check answered open. */
  lemma UnskippedConnectsToOpen(
    x: Executor, code: seq<Instr>, answers: nat -> bool, budget: nat, r: Checked<ExecutionResult>, n: nat)
    requires RunExplained(x, code, answers, budget, r) && !(r.Ok? && r.value.skipped)
    ensures var m := Iterate(x, code, InitialMachine(x), n);
            && (m.Running? ==> forall i | 0 <= i < |m.st.wire| :: WentToOpen(x, code, answers, m.st.wire[i]))
            && (m.Finished? ==> forall i | 0 <= i < |m.final.wire| :: WentToOpen(x, code, answers, m.final.wire[i]))
            && (m.Running? && m.pc < |code| ==>
                  var wire := Attempted(x, code[m.pc], m.st).wire;
                  forall i | 0 <= i < |wire| :: WentToOpen(x, code, answers, wire[i]))
  {
    hide Run, Step, InitialState, EndpointList, IsFirstClosed, Checks, WireChecked, WentToOpen, Attempted, Intact;
    SendsWerePrechecked(x, code, n);
    var endpoints := EndpointList(x.resolver, x.spec, x.baseUrl);
    assert IsFirstClosed(endpoints, answers, None);
    var m := Iterate(x, code, InitialMachine(x), n);
    if m.Running? {
      WireIsOpen(x, code, answers, m.st.wire);
      if m.pc < |code| {
        WireIsOpen(x, code, answers, Attempted(x, code[m.pc], m.st).wire);
      }
    } else if m.Finished? {
      WireIsOpen(x, code, answers, m.final.wire);
    }
  }
}
