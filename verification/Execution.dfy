/** The executor in imperative form: a loop over `pc` that mutates the context. Every helper is tied to the
    machine's step on values, so all that is proved of machine runs holds of this loop. */
module Execution {
  import opened Prelude
  import opened Contract
  import opened Runtime
  import opened Template
  import opened Matcher
  import opened Targets
  import opened Vm
  import opened Contexts
  import opened Precheck
  import Interpolation
  import Utf8

  /** A helper that returns nothing but success leaves the state the machine's step computes. */
  ghost predicate Effect(r: Checked<()>, after: State, step: Checked<State>) {
    match r
    case Ok(_) => step == Ok(after)
    case Err(e) => step == Err(e)
  }

  // ---------- expansion ----------

  lemma ExpandStep(ts: seq<Str>, i: nat, variables: Variables, done: seq<Str>)
    requires i < |ts|
    ensures Interpolate(ts[i], variables).Err? ==>
              InterpolateAll(ts[i..], variables) == Err(Interpolate(ts[i], variables).error)
    ensures Interpolate(ts[i], variables).Ok? ==>
              Following(done, InterpolateAll(ts[i..], variables))
              == Following(done + [Interpolate(ts[i], variables).value], InterpolateAll(ts[i + 1..], variables))
  {
    hide Interpolate;
    assert ts[i..][0] == ts[i] && ts[i..][1..] == ts[i + 1..];
    if Interpolate(ts[i], variables).Ok? && InterpolateAll(ts[i + 1..], variables).Ok? {
      var v, more := Interpolate(ts[i], variables).value, InterpolateAll(ts[i + 1..], variables).value;
      assert done + ([v] + more) == (done + [v]) + more;
    }
  }

  function Following(done: seq<Str>, rest: Checked<seq<Str>>): Checked<seq<Str>> {
    match rest
    case Ok(more) => Ok(done + more)
    case Err(e) => Err(e)
  }

  /** Expand each of a list of templates, stopping at the first that fails. */
  method ExpandAll(ts: seq<Str>, variables: Variables) returns (r: Checked<seq<Str>>)
    requires forall t | t in ts :: Utf8.ValidUtf8(t)
    ensures r == InterpolateAll(ts, variables)
  {
    hide Interpolate, InterpolateAll;
    var done: seq<Str> := [];
    assert ts[0..] == ts;
    FollowingNothing(InterpolateAll(ts, variables));
    for i := 0 to |ts|
      invariant Following(done, InterpolateAll(ts[i..], variables)) == InterpolateAll(ts, variables)
    {
      ExpandStep(ts, i, variables, done);
      var v :- Interpolation.Expand(ts[i], variables);
      done := done + [v];
    }
    assert ts[|ts|..] == [];
    NothingFollows(done, variables);
    return Ok(done);
  }

  lemma FollowingNothing(r: Checked<seq<Str>>)
    ensures Following([], r) == r
  {
    if r.Ok? {
      assert [] + r.value == r.value;
    }
  }

  lemma NothingFollows(done: seq<Str>, variables: Variables)
    ensures Following(done, InterpolateAll([], variables)) == Ok(done)
  {
    assert done + [] == done;
  }

  /** A payload that is text is expanded; the host always is. */
  method ExpandSocketSpec(spec: SocketProbeSpec, variables: Variables) returns (r: Checked<SocketProbeSpec>)
    requires Utf8.ValidUtf8(spec.host)
    ensures r == InterpolateSocketSpec(spec, variables)
  {
    hide Interpolate, Utf8.ValidUtf8;
    var payload := spec.payload;
    if payload.Some? && Utf8.ValidUtf8(payload.value) {
      var text :- Interpolation.Expand(payload.value, variables);
      payload := Some(text);
    }
    var host :- Interpolation.Expand(spec.host, variables);
    return Ok(spec.(host := host, payload := payload));
  }

  // ---------- variables and matching ----------

  method DoSet(x: Executor, name: u32, value: u32, context: Context) returns (r: Checked<()>)
    requires ValidTexts(x)
    modifies context`variables
    ensures Effect(r, context.View(), ExecSet(x, name, value, old(context.View())))
  {
    var n :- At(x.strings, name);
    var template :- At(x.strings, value);
    var text :- Interpolation.Expand(template, context.variables);
    context.SetVariable(n, text);
    return Ok(());
  }

  method DoSetList(x: Executor, name: u32, start: u32, len: u16, context: Context) returns (r: Checked<()>)
    requires ValidTexts(x)
    modifies context`variables
    ensures Effect(r, context.View(), ExecSetList(x, name, start, len, old(context.View())))
  {
    var n :- At(x.strings, name);
    var templates :- StringRange(x, start, len);
    var values :- ExpandAll(templates, context.variables);
    context.SetListVariable(n, values);
    return Ok(());
  }

  method ApplyMatch(x: Executor, idx: nat, context: Context) returns (r: Checked<()>)
    modifies context`matched
    ensures Effect(r, context.View(), ExecMatch(x, idx, old(context.View())))
  {
    if !context.matched {
      return Ok(());
    }
    var ok :- MatchesIdx(x, idx, context.View());
    if !ok {
      context.matched := false;
    }
    return Ok(());
  }

  method ApplyMatchAll(x: Executor, start: nat, len: nat, context: Context) returns (r: Checked<()>)
    modifies context`matched
    ensures Effect(r, context.View(), ExecMatchAll(x, start, len, old(context.View())))
  {
    if !context.matched {
      return Ok(());
    }
    if !MatcherRangeOk(x, start, len) {
      return Err(Panic);
    }
    var ok :- EvaluateAll(x.engine, x.matchers[start..start + len], x.matcherRegex[start..start +
        len], context.responses);
    if !ok {
      context.matched := false;
    }
    return Ok(());
  }

  method ApplyMatchAny(x: Executor, start: nat, len: nat, context: Context) returns (r: Checked<()>)
    modifies context`matched
    ensures Effect(r, context.View(), ExecMatchAny(x, start, len, old(context.View())))
  {
    if !context.matched {
      return Ok(());
    }
    if !MatcherRangeOk(x, start, len) {
      return Err(Panic);
    }
    var ok :- EvaluateAny(x.engine, x.matchers[start..start + len], x.matcherRegex[start..start +
        len], context.responses);
    if !ok {
      context.matched := false;
    }
    return Ok(());
  }

  method RequireAssert(x: Executor, idx: nat, context: Context) returns (r: Checked<()>)
    ensures Effect(r, context.View(), ExecAssert(x, idx, context.View()))
  {
    if !context.matched {
      return Ok(());
    }
    var ok :- MatchesIdx(x, idx, context.View());
    if ok {
      return Ok(());
    }
    return Err(AssertFailed(x.matchers[idx]));
  }

  method DoExtract(x: Executor, name: u32, source: u32, context: Context) returns (r: Checked<()>)
    modifies context`variables
    ensures Effect(r, context.View(), ExecExtract(x, name, source, old(context.View())))
  {
    if !context.matched {
      return Ok(());
    }
    var n :- At(x.strings, name);
    var s :- At(x.extracts, source);
    var value :- ExtractValue(x, n, s, source, context.View());
    context.SetVariable(n, value);
    return Ok(());
  }

  method DoEvidence(x: Executor, kind: nat, context: Context) returns (r: Checked<()>)
    modifies context`evidence
    ensures Effect(r, context.View(), ExecEvidence(x, kind, old(context.View())))
  {
    if !context.matched {
      return Ok(());
    }
    var text :- CollectEvidence(x, kind, context.View());
    context.evidence := context.evidence + [text];
    return Ok(());
  }

  method DoSave(x: Executor, from: u32, to: u32, context: Context) returns (r: Checked<()>)
    modifies context`responses
    ensures Effect(r, context.View(), ExecSave(x, from, to, old(context.View())))
  {
    var f :- At(x.strings, from);
    var t :- At(x.strings, to);
    context.AliasResponse(f, t);
    return Ok(());
  }

  method DoRetryDelay(x: Executor, value: u32, context: Context) returns (r: Checked<()>)
    modifies context`retryDelay
    ensures Effect(r, context.View(), ExecRetryDelay(x, value, old(context.View())))
  {
    var ms :- ParseDuration(x, value);
    context.retryDelay := Some(ms);
    return Ok(());
  }

  // ---------- probes ----------

  method ExecuteHttp(x: Executor, name: Str, context: Context) returns (r: Checked<ProbeResponse>)
    modifies context`wire
    ensures var answer := x.net.http(|old(context.wire)|);
            && context.wire == old(context.wire) + [HttpExchange(name, answer.Ok?)]
            && r == (match answer case Ok(http) => Ok(HttpReply(http)) case Err(code) => Err(Transport(code)))
  {
    var answer := x.net.http(|context.wire|);
    context.wire := context.wire + [HttpExchange(name, answer.Ok?)];
    match answer
    case Ok(http) => return Ok(HttpReply(http));
    case Err(code) => return Err(Transport(code));
  }

  method ResolveHost(x: Executor, name: Str, host: Str, context: Context) returns (r: Checked<ProbeResponse>)
    modifies context`wire
    ensures var answer := x.net.resolve(|old(context.wire)|);
            && context.wire == old(context.wire) + [Resolution(name, host, answer.Ok?)]
            && r == (match answer case Ok(answers) => Ok(DnsReply(host,
                answers)) case Err(code) => Err(Transport(code)))
  {
    var answer := x.net.resolve(|context.wire|);
    context.wire := context.wire + [Resolution(name, host, answer.Ok?)];
    match answer
    case Ok(answers) => return Ok(DnsReply(host, answers));
    case Err(code) => return Err(Transport(code));
  }

  /** One exchange; a session that answers is remembered, one that fails to open is not. */
  method ExchangeData(
    x: Executor, name: Str, transport: Transport, host: Str, port: u16,
    payload: Option<seq<byte>>, session: bool, context: Context) returns (r: Checked<ProbeResponse>)
    modifies context`wire, context`sessions
    ensures var s := ExchangeSocket(x, name, transport, host, port, payload, session, old(context.View()));
            var answer := x.net.exchange(|old(context.wire)|);
            && context.wire == s.st.wire && context.sessions == s.st.sessions
            && r == (match answer
                     case Ok(data) => Ok(SocketReply(SocketResponse(host, port, data)))
                     case Err(code) => Err(Transport(code)))
  {
    var reused := session && name in context.sessions && context.sessions[name] == transport;
    var answer := x.net.exchange(|context.wire|);
    match answer
    case Err(code) =>
      context.wire := context.wire + [SocketExchange(name, transport, host, port, payload, reused, None)];
      return Err(Transport(code));
    case Ok(data) =>
      context.wire := context.wire + [SocketExchange(name, transport, host, port, payload, reused, Some(data))];
      if session && !reused {
        context.sessions := context.sessions[name := transport];
      }
      return Ok(SocketReply(SocketResponse(host, port, data)));
  }

  method RequestDns(x: Executor, name: Str, spec: SocketProbeSpec, over: Option<seq<byte>>, context: Context)
    returns (r: Checked<ProbeResponse>)
    requires Utf8.ValidUtf8(spec.host)
    modifies context`wire, context`sessions
    ensures Requested(x, name, r, old(context.View()), context.View(), SendDns(x, name, spec, over,
        old(context.View())))
  {
    hide InterpolateSocketSpec, SessionEnabled;
    var s :- ExpandSocketSpec(spec, context.variables);
    if over.Some? {
      s := s.(payload := over);
    }
    if s.IsDnsResolverMode() {
      r := ResolveHost(x, name, s.host, context);
    } else {
      var port: u16 := if s.port.Some? then s.port.value else 53;
      r := ExchangeData(x, name, OverUdp, s.host, port, s.payload, false, context);
    }
  }

  method RequestTcp(x: Executor, name: Str, spec: SocketProbeSpec, over: Option<seq<byte>>, context: Context)
    returns (r: Checked<ProbeResponse>)
    requires Utf8.ValidUtf8(spec.host)
    modifies context`wire, context`sessions
    ensures Requested(x, name, r, old(context.View()), context.View(), SendTcp(x, name, spec, over,
        old(context.View())))
  {
    hide InterpolateSocketSpec, SessionEnabled;
    var s :- ExpandSocketSpec(spec, context.variables);
    if s.port.None? {
      return Err(Other(PortRequired));
    }
    r := ExchangeData(x, name, OverTcp, s.host, s.port.value, OrElse(over, s.payload), s.session, context);
  }

  method RequestUdp(x: Executor, name: Str, spec: SocketProbeSpec, over: Option<seq<byte>>, context: Context)
    returns (r: Checked<ProbeResponse>)
    requires Utf8.ValidUtf8(spec.host)
    modifies context`wire, context`sessions
    ensures Requested(x, name, r, old(context.View()), context.View(), SendUdp(x, name, spec, over,
        old(context.View())))
  {
    hide InterpolateSocketSpec, SessionEnabled;
    var s :- ExpandSocketSpec(spec, context.variables);
    if s.port.None? {
      return Err(Other(PortRequired));
    }
    if s.tls {
      return Err(Other(TlsOverUdp));
    }
    r := ExchangeData(x, name, OverUdp, s.host, s.port.value, OrElse(over, s.payload), s.session, context);
  }

  /** A request whose response, once stored, makes the whole send. */
  ghost predicate Requested(
    x: Executor, name: Str, r: Checked<ProbeResponse>, before: State, after: State, whole: Sent)
  {
    && after == before.(wire := after.wire, sessions := after.sessions)
    && match r
       case Ok(response) => whole == Sent(Ok(()), StoreResponse(x, name, response, after))
       case Err(e) => whole == Sent(Err(e), after)
  }

  method SendProbe(x: Executor, name: Str, over: Option<seq<byte>>, context: Context) returns (r: Checked<()>)
    requires ValidTexts(x)
    modifies context`wire, context`sessions, context`responses
    ensures Sent(r, context.View()) == Vm.SendProbe(x, name, over, old(context.View()))
  {
    hide SendDns, SendTcp, SendUdp, SessionEnabled;
    if name !in x.spec.probes {
      return Err(UnknownTarget(name));
    }
    var reply: Checked<ProbeResponse>;
    match x.spec.probes[name] {
      case Http(_) => reply := ExecuteHttp(x, name, context);
      case Dns(spec) => reply := RequestDns(x, name, spec, over, context);
      case Tcp(spec) => reply := RequestTcp(x, name, spec, over, context);
      case Udp(spec) => reply := RequestUdp(x, name, spec, over, context);
    }
    var response :- reply;
    if SessionEnabled(x.spec, name) && response.SocketReply? && name in context.responses
       && context.responses[name].SocketReply?
    {
      var merged := context.responses[name].socket;
      merged := merged.(data := merged.data + response.socket.data);
      context.StoreResponse(name, SocketReply(merged));
      return Ok(());
    }
    context.StoreResponse(name, response);
    return Ok(());
  }

  method DoSend(x: Executor, probe: u32, payload: Option<u32>, context: Context) returns (r: Checked<()>)
    requires ValidTexts(x)
    modifies context`wire, context`sessions, context`responses
    ensures Effect(r, context.View(), ExecSend(x, probe, payload, old(context.View())))
  {
    hide Vm.SendProbe;
    var name :- At(x.strings, probe);
    var over :- PayloadOverride(x, payload);
    r := SendProbe(x, name, over, context);
  }

  /** At most `count` attempts, the waits between them left out. */
  method DoRetrySend(x: Executor, name: Str, count: u32, context: Context) returns (r: Checked<()>)
    requires ValidTexts(x)
    modifies context`wire, context`sessions, context`responses
    ensures Sent(r, context.View()) == RetrySend(x, name, count, None, old(context.View()))
  {
    hide Vm.SendProbe;
    var lastError: Option<RuntimeError> := None;
    for attempt := 0 to count
      invariant RetrySend(x, name, count - attempt, lastError, context.View())
             == RetrySend(x, name, count, None, old(context.View()))
    {
      var outcome := SendProbe(x, name, None, context);
      if outcome.Ok? {
        return outcome;
      }
      lastError := Some(outcome.error);
    }
    return Err(if lastError.Some? then lastError.value else Other(RetryFailed(name)));
  }

  method DoRetry(x: Executor, probe: u32, count: u32, context: Context) returns (r: Checked<()>)
    requires ValidTexts(x)
    modifies context`wire, context`sessions, context`responses
    ensures Effect(r, context.View(), ExecRetry(x, probe, count, old(context.View())))
  {
    hide RetrySend;
    var name :- At(x.strings, probe);
    r := DoRetrySend(x, name, count, context);
  }

  // ---------- the main loop ----------

  method DoBasic(x: Executor, i: Instr, context: Context) returns (r: Checked<()>)
    requires ValidTexts(x)
    requires IsBasic(i)
    modifies context`variables, context`responses, context`sessions, context`evidence, context`retryDelay,
      context`matched, context`wire
    ensures Effect(r, context.View(), ExecBasic(x, i, old(context.View())))
  {
    hide ExecSet, ExecSetList, ExecSend, ExecMatch, ExecMatchAll, ExecMatchAny, ExecAssert, ExecExtract, ExecSave,
      ExecEvidence, ExecRetry, ExecRetryDelay;
    match i
    case Set(name, value) => r := DoSet(x, name, value, context);
    case SetList(name, start, len) => r := DoSetList(x, name, start, len, context);
    case Send(probe, payload) => r := DoSend(x, probe, payload, context);
    case Match(m) => r := ApplyMatch(x, m, context);
    case MatchAll(start, len) => r := ApplyMatchAll(x, start, len, context);
    case MatchAny(start, len) => r := ApplyMatchAny(x, start, len, context);
    case Assert(m) => r := RequireAssert(x, m, context);
    case Extract(name, source) => r := DoExtract(x, name, source, context);
    case Save(from, to) => r := DoSave(x, from, to, context);
    case Evidence(kind) => r := DoEvidence(x, kind, context);
    case Retry(probe, count) => r := DoRetry(x, probe, count, context);
    case RetryDelay(d) => r := DoRetryDelay(x, d, context);
    case Sleep(d) => var _ :- ParseDuration(x, d); return Ok(());
  }

  /** `for`: the values are collected before the loop is entered. */
  method DoFor(x: Executor, i: Instr, pc: nat, context: Context) returns (r: Checked<nat>)
    requires ValidTexts(x)
    requires i.ForList? || i.ForVar?
    modifies context`variables, context`loopStack
    ensures context.Outcome(r) == StepFor(x, i, pc, old(context.View()), old(context.loopStack))
  {
    var item :- At(x.strings, i.item);
    var values: seq<Str> := [];
    if i.ForList? {
      var templates :- StringRange(x, i.start, i.len);
      values :- ExpandAll(templates, context.variables);
    } else {
      var name :- At(x.strings, i.list);
      if name in context.variables {
        match context.variables[name] {
          case List(vs) => values := vs;
          case Text(_) => return Err(Other(NotAList(name)));
        }
      }
    }
    var next := context.EnterForeach(item, values, pc, i.endPc);
    return Ok(next);
  }

  method DoIf(x: Executor, matcher: u32, elsePc: u32, pc: nat, context: Context) returns (r: Checked<nat>)
    ensures context.Outcome(r) == StepIf(x, matcher, elsePc, pc, context.View(), context.loopStack)
  {
    if !context.matched {
      return Ok(elsePc);
    }
    var ok :- MatchesIdx(x, matcher, context.View());
    return Ok(if ok then pc + 1 else elsePc);
  }

  /** What one turn of the loop does: go on at a program counter, leave the loop, or abort. */
  datatype Turn = Next(pc: nat) | Leave | Abort(error: RuntimeError)

  function TurnOf(r: Checked<nat>): Turn {
    match r
    case Ok(pc) => Next(pc)
    case Err(e) => Abort(e)
  }

  function Reached(t: Turn, context: Context): Machine
    reads context
  {
    match t
    case Next(pc) => Running(pc, context.View(), context.loopStack)
    case Leave => Finished(context.View())
    case Abort(e) => Failed(e)
  }

  method OneTurn(x: Executor, i: Instr, pc: nat, context: Context) returns (t: Turn)
    requires ValidTexts(x)
    modifies context
    ensures Reached(t, context) == StepInstr(x, i, pc, old(context.View()), old(context.loopStack))
    ensures context.report == old(context.report)
    ensures context.failed == (old(context.failed) || i == Fail)
  {
    hide ExecBasic, StepFor, StepIf, Vm.StepLoopBack, Vm.StepBreak, Vm.StepContinue;
    if IsBasic(i) {
      var r := DoBasic(x, i, context);
      return if r.Ok? then Next(pc + 1) else Abort(r.error);
    }
    match i
    case IfMatch(matcher, elsePc) =>
      var r := DoIf(x, matcher, elsePc, pc, context);
      return TurnOf(r);
    case ForList(_, _, _, _) =>
      var r := DoFor(x, i, pc, context);
      return TurnOf(r);
    case ForVar(_, _, _) =>
      var r := DoFor(x, i, pc, context);
      return TurnOf(r);
    case LoopBack =>
      var r := context.StepLoopBack();
      return TurnOf(r);
    case Break =>
      var r := context.StepBreak();
      return TurnOf(r);
    case Continue =>
      var r := context.StepContinue();
      return TurnOf(r);
    case Stop =>
      context.emitFinding := false;
      return Leave;
    case Exit => return Leave;
    case Fail =>
      context.failed := true;
      return Abort(Flow);
  }

  method MainLoop(x: Executor, code: seq<Instr>, context: Context, budget: nat) returns (r: Checked<()>)
    requires ValidTexts(x)
    requires context.loopStack == []
    modifies context
    ensures match r
            case Ok(_) => Run(x, code, Running(0, old(context.View()), []), budget) == Ok(context.View())
            case Err(e) => Run(x, code, Running(0, old(context.View()), []), budget) == Err(e)
    ensures context.report == old(context.report)
    ensures r.Ok? ==> context.failed == old(context.failed)
  {
    hide StepInstr;
    ghost var whole := Run(x, code, Running(0, context.View(), []), budget);
    var pc := 0;
    var left := budget;
    while pc < |code|
      invariant Run(x, code, Running(pc, context.View(), context.loopStack), left) == whole
      invariant context.report == old(context.report) && context.failed == old(context.failed)
      decreases left
    {
      if left == 0 {
        return Err(Other(OverBudget));
      }
      left := left - 1;
      FailAborts(x, pc, context.View(), context.loopStack);
      var turn := OneTurn(x, code[pc], pc, context);
      match turn {
        case Next(next) => pc := next;
        case Leave => return Ok(());
        case Abort(e) => return Err(e);
      }
    }
    return Ok(());
  }

  lemma FailAborts(x: Executor, pc: nat, st: State, stack: seq<LoopFrame>)
    ensures StepInstr(x, Fail, pc, st, stack) == Failed(Flow)
  {
  }

  // ---------- a whole run ----------

  datatype ExecutionResult = ExecutionResult(
    success: bool, detected: bool, skipped: bool, closed: Option<Endpoint>,
    portChecks: seq<PortCheck>, finding: Option<Finding>, variables: Variables, metadata: CheckMetadata)

  /** What a run reports when the port check found `closed`. */
  ghost predicate Reported(
    x: Executor, code: seq<Instr>, checks: seq<PortCheck>, closed: Option<Endpoint>, budget: nat,
    r: Checked<ExecutionResult>)
  {
    if closed.Some? then
      r == Ok(ExecutionResult(true, false, true, closed, checks, None, map[], x.spec.metadata))
    else
      match Run(x, code, InitialMachine(x), budget)
      case Err(e) => r == Err(e)
      case Ok(st) =>
        var f := Vm.FinalizeFinding(x.spec.metadata, st);
        r == Ok(ExecutionResult(true, f.Some?, false, None, checks, f, st.variables, x.spec.metadata))
  }

  /** The port check, then - unless a required port was closed - the main loop; `answers` are the
      port probes' results in order. */
  method RunBytecode(x: Executor, code: seq<Instr>, answers: nat -> bool, budget: nat)
    returns (r: Checked<ExecutionResult>)
    requires ValidTexts(x)
    ensures var endpoints := EndpointList(x.resolver, x.spec, x.baseUrl);
            exists closed ::
              && IsFirstClosed(endpoints, answers, closed)
              && Reported(x, code, Checks(endpoints, answers), closed, budget, r)
  {
    hide Run, EndpointList, Checks, IsFirstClosed;
    var checks, closed := CheckForRun(x.resolver, x.spec, x.baseUrl, answers);
    if closed.Some? {
      return Ok(ExecutionResult(true, false, true, closed, checks, None, map[], x.spec.metadata));
    }
    var context := new Context.FromSpec(x.spec);
    context.InjectScanTargetVariables(x.resolver, x.baseUrl);
    var outcome := MainLoop(x, code, context, budget);
    if outcome.Err? {
      r := Err(outcome.error);
    } else {
      context.CloseSessions();
      context.FinalizeFinding();
      r := Ok(ExecutionResult(
        !context.failed, context.report.Some?, false, None, checks, context.report, context.variables,
            context.metadata));
    }
    assert Reported(x, code, checks, closed, budget, r);
  }
}
