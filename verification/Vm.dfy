/** The executor as a small-step machine over `pc`, the context and the loop stack. */
module Vm {
  import opened Prelude
  import opened Contract
  import opened Runtime
  import opened Template
  import opened Matcher
  import Utf8
  import opened Targets

  // ---------- the outside world ----------

  datatype Transport = OverTcp | OverUdp

  /** One completed network exchange; `data` is absent when it failed. */
  datatype Exchange =
    | HttpExchange(probe: Str, ok: bool)
    | Resolution(probe: Str, host: Str, ok: bool)
    | SocketExchange(
        probe: Str, transport: Transport, host: Str, port: u16,
        payload: Option<seq<byte>>, reused: bool, data: Option<seq<byte>>)

  /** The oracle: the n-th exchange of a run is answered by the n-th entry. */
  datatype Network = Network(
    http: nat -> Result<HttpResponse, nat>,
    resolve: nat -> Result<seq<Str>, nat>,
    exchange: nat -> Result<seq<byte>, nat>)

  // ---------- executor and state ----------

  datatype Executor = Executor(
    spec: ProgramSpec,
    strings: seq<Str>,
    payloads: seq<seq<byte>>,
    matchers: seq<QualifiedMatch>,
    extracts: seq<ExtractSource>,
    evidence: seq<EvidenceKind>,
    matcherRegex: seq<CompiledRegex>,
    evidenceRegex: seq<Option<Str>>,
    extractRegex: seq<Option<Str>>,
    engine: Engine,
    resolver: Resolver,
    net: Network,
    baseUrl: Str)

  datatype State = State(
    variables: Variables,
    responses: Responses,
    sessions: map<Str, Transport>,
    evidence: seq<Str>,
    retryDelay: Option<u64>,
    matched: bool,
    emitFinding: bool,
    wire: seq<Exchange>)

  datatype LoopFrame = LoopFrame(
    item: Str,
    values: seq<Str>,
    index: nat,
    previous: Option<VariableValue>,
    headPc: nat,
    continuePc: nat,
    endPc: nat)

  datatype Machine =
    | Running(pc: nat, st: State, stack: seq<LoopFrame>)
    | Finished(final: State)
    | Failed(error: RuntimeError)

  type Checked<T> = Result<T, RuntimeError>

  // ---------- building an executor ----------

  function CompileMatchers(engine: Engine, ms: seq<QualifiedMatch>): (r: Checked<seq<CompiledRegex>>)
    ensures r.Ok? ==> |r.value| == |ms| && forall i | 0 <= i < |ms| :: Compile(engine, ms[i]) == Ok(r.value[i])
  {
    if ms == [] then Ok([])
    else
      var c :- Compile(engine, ms[0]);
      var rest :- CompileMatchers(engine, ms[1..]);
      Ok([c] + rest)
  }

  function CompilePatterns(engine: Engine, ps: seq<Option<Str>>): (r: Checked<seq<Option<Str>>>)
    ensures r.Ok? ==> r.value == ps
  {
    if ps == [] then Ok([])
    else if ps[0].Some? && !engine.regexOk(ps[0].value) then Err(BadRegex(ps[0].value))
    else
      var rest :- CompilePatterns(engine, ps[1..]);
      Ok([ps[0]] + rest)
  }

  function ExtractPattern(e: ExtractSource): Option<Str> {
    match e
    case FromBody(_, regex) => regex
    case FromHeader(_, _) => None
  }

  function FromProgram(engine: Engine, resolver: Resolver, net: Network, baseUrl: Str, p: BytecodeProgram)
    : (r: Checked<Executor>)
    ensures r.Ok? ==> Aligned(r.value) && PoolsOf(r.value, p) && CompiledFrom(r.value)
  {
    var matcherRegex :- CompileMatchers(engine, p.matchers);
    var evidenceRegex :- CompilePatterns(engine,
      seq(|p.evidence|, i requires 0 <= i < |p.evidence| => p.evidence[i].pattern));
    var extractRegex :- CompilePatterns(engine,
      seq(|p.extracts|, i requires 0 <= i < |p.extracts| => ExtractPattern(p.extracts[i])));
    Ok(Executor(p.spec, p.strings, p.payloads, p.matchers, p.extracts, p.evidence,
                matcherRegex, evidenceRegex, extractRegex, engine, resolver, net, baseUrl))
  }

  /** The pre-compiled tables line up with their pools. */
  predicate Aligned(x: Executor) {
    && |x.matcherRegex| == |x.matchers|
    && |x.evidenceRegex| == |x.evidence|
    && |x.extractRegex| == |x.extracts|
  }

  /** The program's strings are strings: every template a run can expand is valid UTF-8. */
  predicate ValidTexts(x: Executor) {
    && (forall s | s in x.strings :: Utf8.ValidUtf8(s))
    && (forall k | k in x.spec.probes && !x.spec.probes[k].Http? :: Utf8.ValidUtf8(x.spec.probes[k].socket.host))
  }

  /** Each entry of a compiled table was compiled from the pool entry it stands for. */
  predicate CompiledFrom(x: Executor)
    requires Aligned(x)
  {
    && (forall i | 0 <= i < |x.matchers| :: Compile(x.engine, x.matchers[i]) == Ok(x.matcherRegex[i]))
    && (forall i | 0 <= i < |x.evidence| :: x.evidenceRegex[i] == x.evidence[i].pattern)
    && (forall i | 0 <= i < |x.extracts| :: x.extractRegex[i] == ExtractPattern(x.extracts[i]))
  }

  predicate PoolsOf(x: Executor, p: BytecodeProgram) {
    && x.spec == p.spec && x.strings == p.strings && x.payloads == p.payloads
    && x.matchers == p.matchers && x.extracts == p.extracts && x.evidence == p.evidence
  }

  // ---------- pool access: an index out of range panics the thread ----------

  function At<T>(pool: seq<T>, i: nat): Checked<T> {
    if i < |pool| then Ok(pool[i]) else Err(Panic)
  }

  /** `strings[start..start + len]`, the sum taken in 32 bits: a wrapped end lies before the start
      and panics just as an overlong one does. */
  function StringRange(x: Executor, start: u32, len: u16): Checked<seq<Str>> {
    if start + len < U32_LIMIT && start + len <= |x.strings| then Ok(x.strings[start..start + len]) else Err(Panic)
  }

  // ---------- variables ----------

  function SetText(st: State, name: Str, value: Str): State {
    st.(variables := st.variables[name := Text(value)])
  }

  function Lookup(variables: Variables, name: Str): Option<VariableValue> {
    if name in variables then Some(variables[name]) else None
  }

  function Restore(st: State, name: Str, previous: Option<VariableValue>): State {
    match previous
    case Some(v) => st.(variables := st.variables[name := v])
    case None => st.(variables := st.variables - {name})
  }

  function InterpolateAll(ts: seq<Str>, variables: Variables): (r: Checked<seq<Str>>)
    ensures r.Ok? ==> |r.value| == |ts|
  {
    if ts == [] then Ok([])
    else
      var v :- Interpolate(ts[0], variables);
      var rest :- InterpolateAll(ts[1..], variables);
      Ok([v] + rest)
  }

  function ExecSet(x: Executor, name: u32, value: u32, st: State): Checked<State> {
    var n :- At(x.strings, name);
    var t :- At(x.strings, value);
    var v :- Interpolate(t, st.variables);
    Ok(SetText(st, n, v))
  }

  function ListValues(x: Executor, start: u32, len: u16, st: State): (r: Checked<seq<Str>>)
    ensures r.Ok? ==> |r.value| == len
  {
    var ts :- StringRange(x, start, len);
    InterpolateAll(ts, st.variables)
  }

  function ExecSetList(x: Executor, name: u32, start: u32, len: u16, st: State): Checked<State> {
    var n :- At(x.strings, name);
    var vs :- ListValues(x, start, len, st);
    Ok(st.(variables := st.variables[n := List(vs)]))
  }

  // ---------- matching ----------

  function MatchesIdx(x: Executor, i: nat, st: State): Checked<bool> {
    var m :- At(x.matchers, i);
    var c :- At(x.matcherRegex, i);
    EvaluateTarget(x.engine, m, c, st.responses)
  }

  function Latch(st: State, verdict: Checked<bool>): Checked<State> {
    match verdict
    case Ok(b) => Ok(if b then st else st.(matched := false))
    case Err(e) => Err(e)
  }

  function ExecMatch(x: Executor, i: nat, st: State): Checked<State> {
    if !st.matched then Ok(st) else Latch(st, MatchesIdx(x, i, st))
  }

  predicate MatcherRangeOk(x: Executor, start: nat, len: nat) {
    start + len <= |x.matchers| && start + len <= |x.matcherRegex|
  }

  function AllVerdict(x: Executor, start: nat, len: nat, st: State): Checked<bool> {
    if !MatcherRangeOk(x, start, len) then Err(Panic)
    else EvaluateAll(x.engine, x.matchers[start..start + len], x.matcherRegex[start..start + len], st.responses)
  }

  function AnyVerdict(x: Executor, start: nat, len: nat, st: State): Checked<bool> {
    if !MatcherRangeOk(x, start, len) then Err(Panic)
    else EvaluateAny(x.engine, x.matchers[start..start + len], x.matcherRegex[start..start + len], st.responses)
  }

  function ExecMatchAll(x: Executor, start: nat, len: nat, st: State): Checked<State> {
    if !st.matched then Ok(st) else Latch(st, AllVerdict(x, start, len, st))
  }

  function ExecMatchAny(x: Executor, start: nat, len: nat, st: State): Checked<State> {
    if !st.matched then Ok(st) else Latch(st, AnyVerdict(x, start, len, st))
  }

  function ExecAssert(x: Executor, i: nat, st: State): Checked<State> {
    if !st.matched then Ok(st)
    else
      var b :- MatchesIdx(x, i, st);
      if b then Ok(st) else Err(AssertFailed(x.matchers[i]))
  }

  /** The condition of `if_match`: false once the chain has failed, without evaluating. */
  function Condition(x: Executor, i: nat, st: State): Checked<bool> {
    if !st.matched then Ok(false) else MatchesIdx(x, i, st)
  }

  // ---------- extraction and evidence ----------

  function RunCapture(x: Executor, text: Str, pattern: Str): Checked<Str> {
    match x.engine.capture(pattern, text)
    case None => Err(ExtractFailed(Ascii("regex"), PatternNotFound))
    case Some(s) => if s == [] then Err(ExtractFailed(Ascii("regex"), EmptyCapture)) else Ok(s)
  }

  function HttpResponseOf(st: State, target: Str, wrongKind: RuntimeError): Checked<HttpResponse> {
    if target !in st.responses then Err(UnknownTarget(target))
    else if st.responses[target].HttpReply? then Ok(st.responses[target].http)
    else Err(wrongKind)
  }

  function ExtractBody(x: Executor, regex: Option<Str>, idx: nat, body: Str): Checked<Str> {
    if regex.None? then Ok(body)
    else
      var compiled :- At(x.extractRegex, idx);
      if compiled.None? then Err(Other(MissingCompiledRegex)) else RunCapture(x, body, compiled.value)
  }

  function ExtractValue(x: Executor, name: Str, source: ExtractSource, idx: nat, st: State): Checked<Str> {
    match source
    case FromBody(target, regex) =>
      var http :- HttpResponseOf(st, target, WrongProbeKind(target));
      var value :- ExtractBody(x, regex, idx, http.body);
      if value == [] then Err(ExtractFailed(name, EmptyResult)) else Ok(value)
    case FromHeader(target, header) =>
      var http :- HttpResponseOf(st, target, WrongProbeKind(target));
      match LookupHeader(http.headers, header)
      case Some(v) => Ok(v)
      case None => Err(ExtractFailed(name, HeaderNotPresent(header)))
  }

  function ExecExtract(x: Executor, name: u32, source: u32, st: State): Checked<State> {
    if !st.matched then Ok(st)
    else
      var n :- At(x.strings, name);
      var s :- At(x.extracts, source);
      var v :- ExtractValue(x, n, s, source, st);
      Ok(SetText(st, n, v))
  }

  function EvidenceHaystack(x: Executor, r: ProbeResponse): Str {
    match r
    case HttpReply(http) => http.body
    case DnsReply(_, answers) => JoinWithSpaces(answers)
    case SocketReply(s) => x.engine.lossy(s.data)
  }

  function EvidenceSource(x: Executor, kind: EvidenceKind, st: State): Checked<Str> {
    match kind
    case BodyProof(target, _) =>
      var http :- HttpResponseOf(st, target, Other(EvidenceNeedsHttp(target)));
      Ok(http.body)
    case ResponseProof(target, _) =>
      if target in st.responses then Ok(EvidenceHaystack(x, st.responses[target])) else Err(UnknownTarget(target))
    case HeaderProof(target, name, _) =>
      var http :- HttpResponseOf(st, target, Other(EvidenceNeedsHttp(target)));
      match LookupHeader(http.headers, name)
      case Some(v) => Ok(v)
      case None => Err(Other(EvidenceHeaderMissing(target, name)))
  }

  function CollectEvidence(x: Executor, idx: nat, st: State): Checked<Str> {
    var kind :- At(x.evidence, idx);
    var raw :- EvidenceSource(x, kind, st);
    match kind.pattern
    case None => Ok(x.engine.clip(raw))
    case Some(p) =>
      var compiled :- At(x.evidenceRegex, idx);
      if compiled.None? then Err(Other(MissingCompiledRegex))
      else
        match RunCapture(x, raw, compiled.value)
        case Ok(s) => Ok(s)
        case Err(_) => Err(Other(EvidenceRegexUnmatched(p)))
  }

  function ExecEvidence(x: Executor, idx: nat, st: State): Checked<State> {
    if !st.matched then Ok(st)
    else
      var text :- CollectEvidence(x, idx, st);
      Ok(st.(evidence := st.evidence + [text]))
  }

  // ---------- probes ----------

  /** Nothing but responses, sessions and the wire differs. */
  predicate OnlyNetworkDiffers(a: State, b: State) {
    && b.variables == a.variables && b.evidence == a.evidence && b.retryDelay == a.retryDelay
    && b.matched == a.matched && b.emitFinding == a.emitFinding
  }

  /** What every attempt keeps: a failed one changes no response and no session. */
  predicate SendFrame(st: State, s: Sent) {
    && OnlyNetworkDiffers(st, s.st)
    && (s.result.Err? ==> s.st.responses == st.responses && s.st.sessions == st.sessions)
  }

  /** A send's verdict together with the state it leaves, which a failed attempt of `retry` keeps. */
  datatype Sent = Sent(result: Checked<()>, st: State)

  predicate SessionEnabled(spec: ProgramSpec, name: Str) {
    name in spec.probes && !spec.probes[name].Http? && spec.probes[name].socket.session
  }

  function InterpolatePayload(payload: Option<seq<byte>>, variables: Variables): Checked<Option<seq<byte>>> {
    if payload.Some? && Utf8.ValidUtf8(payload.value) then
      var text :- Interpolate(payload.value, variables);
      Ok(Some(text))
    else Ok(payload)
  }

  function InterpolateSocketSpec(spec: SocketProbeSpec, variables: Variables): Checked<SocketProbeSpec> {
    var payload :- InterpolatePayload(spec.payload, variables);
    var host :- Interpolate(spec.host, variables);
    Ok(spec.(host := host, payload := payload))
  }

  /** Session probes append socket data to what is stored; every other response replaces it. */
  function StoreResponse(x: Executor, name: Str, r: ProbeResponse, st: State): (st': State)
    ensures OnlyNetworkDiffers(st, st') && st'.wire == st.wire && st'.sessions == st.sessions
  {
    if SessionEnabled(x.spec, name) && r.SocketReply? && name in st.responses && st.responses[name].SocketReply?
    then
      var old_ := st.responses[name].socket;
      st.(responses := st.responses[name := SocketReply(old_.(data := old_.data + r.socket.data))])
    else st.(responses := st.responses[name := r])
  }

  function SendHttp(x: Executor, name: Str, st: State): (s: Sent)
    ensures SendFrame(st, s)
    ensures s.result.Err? ==> s.result.error.Transport?
  {
    match x.net.http(|st.wire|)
    case Ok(http) =>
      Sent(Ok(()), StoreResponse(x, name, HttpReply(http), st.(wire := st.wire + [HttpExchange(name, true)])))
    case Err(code) => Sent(Err(Transport(code)), st.(wire := st.wire + [HttpExchange(name, false)]))
  }

  function Resolve(x: Executor, name: Str, host: Str, st: State): (s: Sent)
    ensures SendFrame(st, s)
    ensures s.result.Err? ==> s.result.error.Transport?
  {
    match x.net.resolve(|st.wire|)
    case Ok(answers) =>
      Sent(Ok(()), StoreResponse(x, name, DnsReply(host, answers), st.(wire := st.wire +
          [Resolution(name, host, true)])))
    case Err(code) => Sent(Err(Transport(code)), st.(wire := st.wire + [Resolution(name, host, false)]))
  }

  /** One socket exchange; `keep` is the session transport to reuse and remember, if any. */
  function ExchangeSocket(
    x: Executor, name: Str, transport: Transport, host: Str, port: u16,
    payload: Option<seq<byte>>, keep: bool, st: State): (s: Sent)
    ensures SendFrame(st, s)
    ensures s.result.Err? ==> s.result.error.Transport?
  {
    var reused := keep && name in st.sessions && st.sessions[name] == transport;
    match x.net.exchange(|st.wire|)
    case Err(code) =>
      var record := SocketExchange(name, transport, host, port, payload, reused, None);
      Sent(Err(Transport(code)), st.(wire := st.wire + [record]))
    case Ok(data) =>
      var record := SocketExchange(name, transport, host, port, payload, reused, Some(data));
      var sessions := if keep then st.sessions[name := transport] else st.sessions;
      Sent(Ok(()), StoreResponse(x, name, SocketReply(SocketResponse(host, port, data)),
                                 st.(wire := st.wire + [record], sessions := sessions)))
  }

  function OrElse<T>(a: Option<T>, b: Option<T>): Option<T> { if a.Some? then a else b }

  function SendDns(x: Executor, name: Str, spec: SocketProbeSpec, over: Option<seq<byte>>, st: State): (r: Sent)
    ensures SendFrame(st, r)
  {
    match InterpolateSocketSpec(spec, st.variables)
    case Err(e) => Sent(Err(e), st)
    case Ok(s) =>
      var s := s.(payload := OrElse(over, s.payload));
      if s.IsDnsResolverMode() then Resolve(x, name, s.host, st)
      else
        var port: u16 := if s.port.Some? then s.port.value else 53;
        ExchangeSocket(x, name, OverUdp, s.host, port, s.payload, false, st)
  }

  function SendTcp(x: Executor, name: Str, spec: SocketProbeSpec, over: Option<seq<byte>>, st: State): (r: Sent)
    ensures SendFrame(st, r)
  {
    match InterpolateSocketSpec(spec, st.variables)
    case Err(e) => Sent(Err(e), st)
    case Ok(s) =>
      if s.port.None? then Sent(Err(Other(PortRequired)), st)
      else ExchangeSocket(x, name, OverTcp, s.host, s.port.value, OrElse(over, s.payload), s.session, st)
  }

  function SendUdp(x: Executor, name: Str, spec: SocketProbeSpec, over: Option<seq<byte>>, st: State): (r: Sent)
    ensures SendFrame(st, r)
  {
    match InterpolateSocketSpec(spec, st.variables)
    case Err(e) => Sent(Err(e), st)
    case Ok(s) =>
      if s.port.None? then Sent(Err(Other(PortRequired)), st)
      else if s.tls then Sent(Err(Other(TlsOverUdp)), st)
      else ExchangeSocket(x, name, OverUdp, s.host, s.port.value, OrElse(over, s.payload), s.session, st)
  }

  function SendProbe(x: Executor, name: Str, over: Option<seq<byte>>, st: State): (s: Sent)
    ensures SendFrame(st, s)
  {
    if name !in x.spec.probes then Sent(Err(UnknownTarget(name)), st)
    else
      match x.spec.probes[name]
      case Http(_) => SendHttp(x, name, st)
      case Dns(spec) => SendDns(x, name, spec, over, st)
      case Tcp(spec) => SendTcp(x, name, spec, over, st)
      case Udp(spec) => SendUdp(x, name, spec, over, st)
  }

  function PayloadOverride(x: Executor, payload: Option<u32>): Checked<Option<seq<byte>>> {
    if payload.None? then Ok(None)
    else
      var data :- At(x.payloads, payload.value);
      Ok(Some(data))
  }

  function AfterSend(s: Sent): Checked<State> {
    match s.result
    case Ok(_) => Ok(s.st)
    case Err(e) => Err(e)
  }

  function ExecSend(x: Executor, probe: u32, payload: Option<u32>, st: State): Checked<State> {
    var name :- At(x.strings, probe);
    var over :- PayloadOverride(x, payload);
    AfterSend(SendProbe(x, name, over, st))
  }

  /** The attempts of `retry` that are left, with the last error seen. */
  function RetrySend(x: Executor, name: Str, left: nat, last: Option<RuntimeError>, st: State): (s: Sent)
    ensures SendFrame(st, s)
    decreases left
  {
    if left == 0 then Sent(Err(if last.Some? then last.value else Other(RetryFailed(name))), st)
    else
      var s := SendProbe(x, name, None, st);
      match s.result
      case Ok(_) => s
      case Err(e) => RetrySend(x, name, left - 1, Some(e), s.st)
  }

  function ExecRetry(x: Executor, probe: u32, count: u32, st: State): Checked<State> {
    var name :- At(x.strings, probe);
    AfterSend(RetrySend(x, name, count, None, st))
  }

  function ExecSave(x: Executor, from: u32, to: u32, st: State): Checked<State> {
    var f :- At(x.strings, from);
    var t :- At(x.strings, to);
    Ok(if f in st.responses then st.(responses := st.responses[t := st.responses[f]]) else st)
  }

  function ParseDuration(x: Executor, i: u32): Checked<u64> {
    var s :- At(x.strings, i);
    match x.engine.duration(s)
    case Some(ms) => Ok(ms)
    case None => Err(InvalidDuration(s))
  }

  function ExecRetryDelay(x: Executor, i: u32, st: State): Checked<State> {
    var ms :- ParseDuration(x, i);
    Ok(st.(retryDelay := Some(ms)))
  }

  function ExecSleep(x: Executor, i: u32, st: State): Checked<State> {
    var _ :- ParseDuration(x, i);
    Ok(st)
  }

  // ---------- one instruction ----------

  /** Instructions that always continue at the next one. */
  predicate IsBasic(i: Instr) {
    match i
    case IfMatch(_, _) => false
    case ForList(_, _, _, _) => false
    case ForVar(_, _, _) => false
    case LoopBack => false
    case Break => false
    case Continue => false
    case Stop => false
    case Exit => false
    case Fail => false
    case _ => true
  }

  function ExecBasic(x: Executor, i: Instr, st: State): Checked<State>
    requires IsBasic(i)
  {
    match i
    case Set(name, value) => ExecSet(x, name, value, st)
    case SetList(name, start, len) => ExecSetList(x, name, start, len, st)
    case Send(probe, payload) => ExecSend(x, probe, payload, st)
    case Match(m) => ExecMatch(x, m, st)
    case MatchAll(start, len) => ExecMatchAll(x, start, len, st)
    case MatchAny(start, len) => ExecMatchAny(x, start, len, st)
    case Assert(m) => ExecAssert(x, m, st)
    case Extract(name, source) => ExecExtract(x, name, source, st)
    case Save(from, to) => ExecSave(x, from, to, st)
    case Evidence(kind) => ExecEvidence(x, kind, st)
    case Retry(probe, count) => ExecRetry(x, probe, count, st)
    case RetryDelay(d) => ExecRetryDelay(x, d, st)
    case Sleep(d) => ExecSleep(x, d, st)
  }

  /** The values a `for` iterates: a snapshot taken when the loop is entered. */
  function LoopValues(x: Executor, i: Instr, st: State): Checked<seq<Str>>
    requires i.ForList? || i.ForVar?
  {
    match i
    case ForList(_, start, len, _) => ListValues(x, start, len, st)
    case ForVar(_, list, _) =>
      var name :- At(x.strings, list);
      if name !in st.variables then Ok([])
      else
        match st.variables[name]
        case List(vs) => Ok(vs)
        case Text(_) => Err(Other(NotAList(name)))
  }

  function EnterForeach(item: Str, values: seq<Str>, pc: nat, endPc: nat, st: State, stack: seq<LoopFrame>): Machine {
    if values == [] then Running(endPc, st, stack)
    else
      var frame := LoopFrame(item, values, 0, Lookup(st.variables, item), pc + 1,
                             if endPc == 0 then 0 else endPc - 1, endPc);
      Running(pc + 1, SetText(st, item, values[0]), stack + [frame])
  }

  function StepFor(x: Executor, i: Instr, pc: nat, st: State, stack: seq<LoopFrame>): Machine
    requires i.ForList? || i.ForVar?
  {
    match At(x.strings, i.item)
    case Err(e) => Failed(e)
    case Ok(item) =>
      match LoopValues(x, i, st)
      case Err(e) => Failed(e)
      case Ok(values) => EnterForeach(item, values, pc, i.endPc, st, stack)
  }

  function Top(stack: seq<LoopFrame>): LoopFrame
    requires stack != []
  {
    stack[|stack| - 1]
  }

  function Pop(stack: seq<LoopFrame>): seq<LoopFrame>
    requires stack != []
  {
    stack[..|stack| - 1]
  }

  /** Leave the innermost loop: drop its frame and give its variable back its outer value. */
  function LeaveLoop(st: State, stack: seq<LoopFrame>): Machine
    requires stack != []
  {
    var f := Top(stack);
    Running(f.endPc, Restore(st, f.item, f.previous), Pop(stack))
  }

  function StepLoopBack(st: State, stack: seq<LoopFrame>): Machine {
    if stack == [] then Failed(Other(OutsideLoop(LoopBack)))
    else
      var f := Top(stack);
      if f.index + 1 < |f.values| then
        Running(f.headPc, SetText(st, f.item, f.values[f.index + 1]), Pop(stack) + [f.(index := f.index + 1)])
      else LeaveLoop(st, stack)
  }

  function StepBreak(st: State, stack: seq<LoopFrame>): Machine {
    if stack == [] then Failed(Other(OutsideLoop(Break))) else LeaveLoop(st, stack)
  }

  function StepContinue(st: State, stack: seq<LoopFrame>): Machine {
    if stack == [] then Failed(Other(OutsideLoop(Continue))) else Running(Top(stack).continuePc, st, stack)
  }

  function StepIf(x: Executor, matcher: u32, elsePc: u32, pc: nat, st: State, stack: seq<LoopFrame>): Machine {
    match Condition(x, matcher, st)
    case Err(e) => Failed(e)
    case Ok(b) => Running(if b then pc + 1 else elsePc, st, stack)
  }

  function StepBasic(x: Executor, i: Instr, pc: nat, st: State, stack: seq<LoopFrame>): Machine
    requires IsBasic(i)
  {
    match ExecBasic(x, i, st)
    case Ok(st') => Running(pc + 1, st', stack)
    case Err(e) => Failed(e)
  }

  function StepInstr(x: Executor, i: Instr, pc: nat, st: State, stack: seq<LoopFrame>): Machine {
    if IsBasic(i) then StepBasic(x, i, pc, st, stack)
    else
      match i
      case IfMatch(matcher, elsePc) => StepIf(x, matcher, elsePc, pc, st, stack)
      case ForList(_, _, _, _) => StepFor(x, i, pc, st, stack)
      case ForVar(_, _, _) => StepFor(x, i, pc, st, stack)
      case LoopBack => StepLoopBack(st, stack)
      case Break => StepBreak(st, stack)
      case Continue => StepContinue(st, stack)
      case Stop => Finished(st.(emitFinding := false))
      case Exit => Finished(st)
      case Fail => Failed(Flow)
  }

  /** One turn of the main loop; running off the code ends the run. */
  function Step(x: Executor, code: seq<Instr>, m: Machine): Machine {
    match m
    case Running(pc, st, stack) =>
      if pc < |code| then StepInstr(x, code[pc], pc, st, stack) else Finished(st)
    case Finished(_) => m
    case Failed(_) => m
  }

  function Iterate(x: Executor, code: seq<Instr>, m: Machine, n: nat): Machine
    decreases n
  {
    if n == 0 then m else Iterate(x, code, Step(x, code, m), n - 1)
  }

  lemma {:induction false} IterateAdd(x: Executor, code: seq<Instr>, m: Machine, a: nat, b: nat)
    ensures Iterate(x, code, m, a + b) == Iterate(x, code, Iterate(x, code, m, a), b)
    decreases a
  {
    hide Step;
    if a > 0 {
      IterateAdd(x, code, Step(x, code, m), a - 1, b);
    }
  }

  lemma {:induction false} IterateHalted(x: Executor, code: seq<Instr>, m: Machine, n: nat)
    requires !m.Running?
    ensures Iterate(x, code, m, n) == m
    decreases n
  {
    hide StepInstr;
    if n > 0 {
      IterateHalted(x, code, m, n - 1);
    }
  }

  // ---------- a run ----------

  function InitialState(x: Executor): State {
    State(InjectScanTarget(x.resolver, x.baseUrl, map[]), map[], map[], [], None, true, true, [])
  }

  function InitialMachine(x: Executor): Machine { Running(0, InitialState(x), []) }

  /** The main loop under a time budget that lets `budget` instructions start; the check precedes each one. */
  function Run(x: Executor, code: seq<Instr>, m: Machine, budget: nat): Checked<State>
    decreases budget
  {
    match m
    case Finished(st) => Ok(st)
    case Failed(e) => Err(e)
    case Running(pc, st, _) =>
      if pc >= |code| then Ok(st)
      else if budget == 0 then Err(Other(OverBudget))
      else Run(x, code, Step(x, code, m), budget - 1)
  }

  /** The run is over: halted, or past the end of the code. */
  predicate Ended(code: seq<Instr>, m: Machine) { m.Running? ==> m.pc >= |code| }

  /** What a run that is over returns. */
  function EndResult(m: Machine): Checked<State> {
    match m
    case Running(_, st, _) => Ok(st)
    case Finished(st) => Ok(st)
    case Failed(e) => Err(e)
  }

  datatype Finding = Finding(name: Str, metadata: CheckMetadata, evidence: seq<Str>)

  /** The finding of a run that ended without error. */
  function FinalizeFinding(metadata: CheckMetadata, st: State): Option<Finding> {
    if !st.matched || !st.emitFinding || metadata.name.None? then None
    else Some(Finding(metadata.name.value, metadata, st.evidence))
  }
}
