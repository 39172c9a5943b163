/** The data a compiled check carries: constant pools, probe specs, metadata and code. */
module Contract {
  import opened Prelude

  datatype Severity = Low | Medium | High | Critical | Info

  datatype HttpMethod = Get | Post | Put | Patch | Delete | Head | Options

  datatype ObjectBody = ObjectBody(pairs: seq<Pair>)

  datatype Pair = Pair(key: Str, value: BodyValue)

  datatype BodyValue =
    | StringValue(text: Str)
    | Interpolation(template: Str)
    | Object(body: ObjectBody)
    | BytesValue(hex: Str)
    | Part(part: InlinePart)

  datatype InlinePart = InlinePart(filename: Option<Str>, body: InlinePartBody)

  datatype InlinePartBody = PartText(text: Str) | PartBytes(hex: Str)

  datatype FieldKind =
    | Status | Body | Header(name: Str) | ResponseTime | ResponseSize | Answer | Response | Banner

  datatype QualifiedField = QualifiedField(target: Str, kind: FieldKind)

  datatype CmpOp = Eq | Ne | Lt | Gt | Le | Ge

  datatype CmpValue = Number(n: u64) | StringOperand(s: Str) | Duration(d: Str)

  datatype MatchPredicate =
    | Compare(op: CmpOp, value: CmpValue)
    | Contains(text: Str)
    | NotContains(text: Str)
    | Regex(pattern: Str)

  datatype QualifiedMatch = QualifiedMatch(field: QualifiedField, predicate_: MatchPredicate)

  datatype ExtractSource =
    | FromBody(target: Str, regex: Option<Str>)
    | FromHeader(target: Str, name: Str)

  datatype EvidenceKind =
    | BodyProof(target: Str, pattern: Option<Str>)
    | ResponseProof(target: Str, pattern: Option<Str>)
    | HeaderProof(target: Str, name: Str, pattern: Option<Str>)

  datatype HttpRequestSpec = HttpRequestSpec(
    verb: HttpMethod,
    path: Str,
    timeout: Option<Str>,
    followRedirect: Option<bool>,
    verifySsl: Option<bool>,
    proxy: Option<Str>,
    userAgent: Option<Str>,
    headers: seq<(Str, Str)>,
    cookies: seq<(Str, Str)>,
    queries: seq<(Str, Str)>,
    dataBody: Option<ObjectBody>,
    jsonBody: Option<ObjectBody>,
    rawBody: Option<Str>,
    bodyBytes: Option<Str>,
    multipartBody: Option<ObjectBody>)

  datatype SocketProbeSpec = SocketProbeSpec(
    host: Str,
    port: Option<u16>,
    payload: Option<seq<byte>>,
    tls: bool,
    session: bool,
    readMax: u32,
    readIdleMs: u32)
  {
    /** A `dns` probe with neither port nor payload asks the OS resolver. */
    predicate IsDnsResolverMode() { port.None? && payload.None? }
  }

  datatype ProbeKind =
    | Http(http: HttpRequestSpec)
    | Dns(socket: SocketProbeSpec)
    | Tcp(socket: SocketProbeSpec)
    | Udp(socket: SocketProbeSpec)

  datatype CheckMetadata = CheckMetadata(
    name: Option<Str>,
    description: Option<Str>,
    impact: Option<Str>,
    severity: Option<Severity>,
    author: Option<Str>,
    cve: seq<Str>,
    cwe: seq<Str>,
    references: seq<Str>,
    cvss: seq<Str>,
    cvssScore: seq<Str>,
    mitigation: Option<Str>,
    tags: seq<Str>,
    version: Option<Str>,
    family: Option<Str>)

  datatype ProgramSpec = ProgramSpec(probes: map<Str, ProbeKind>, metadata: CheckMetadata)

  /** Operands are indices into the program's pools or program counters. */
  datatype Instr =
    | Set(name: u32, value: u32)
    | SetList(name: u32, start: u32, len: u16)
    | Send(probe: u32, payload: Option<u32>)
    | Match(matcher: u32)
    | MatchAll(start: u32, len: u16)
    | MatchAny(start: u32, len: u16)
    | Assert(matcher: u32)
    | Extract(name: u32, source: u32)
    | IfMatch(matcher: u32, elsePc: u32)
    | ForList(item: u32, start: u32, len: u16, endPc: u32)
    | ForVar(item: u32, list: u32, endPc: u32)
    | LoopBack
    | Break
    | Save(from: u32, to: u32)
    | Evidence(kind: u32)
    | Retry(probe: u32, count: u32)
    | RetryDelay(delay: u32)
    | Sleep(delay: u32)
    | Stop
    | Fail
    | Continue
    | Exit

  datatype BytecodeProgram = BytecodeProgram(
    spec: ProgramSpec,
    code: seq<Instr>,
    strings: seq<Str>,
    payloads: seq<seq<byte>>,
    matchers: seq<QualifiedMatch>,
    extracts: seq<ExtractSource>,
    evidence: seq<EvidenceKind>)
}
