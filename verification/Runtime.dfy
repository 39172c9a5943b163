/** Run-time values: variables, responses, errors, and the libraries the VM calls. */
module Runtime {
  import opened Prelude
  import opened Contract

  datatype VariableValue = Text(text: Str) | List(values: seq<Str>)

  type Variables = map<Str, VariableValue>

  datatype HttpResponse = HttpResponse(
    status: u16,
    headers: seq<(Str, Str)>,  // in the order the header map is searched
    body: Str,
    elapsedMs: u64)

  datatype SocketResponse = SocketResponse(host: Str, port: u16, data: seq<byte>)

  datatype ProbeResponse =
    | HttpReply(http: HttpResponse)
    | DnsReply(host: Str, answers: seq<Str>)
    | SocketReply(socket: SocketResponse)

  datatype Reason =
    | ListAsString(name: Str)
    | NotAList(name: Str)
    | OutsideLoop(op: Instr)
    | OverBudget
    | PortRequired
    | TlsOverUdp
    | RetryFailed(name: Str)
    | UnsupportedMatcher(kind: FieldKind)
    | NotNumeric(s: Str)
    | DurationNotNumeric
    | MissingCompiledRegex
    | EvidenceNeedsHttp(target: Str)
    | EvidenceHeaderMissing(target: Str, name: Str)
    | EvidenceRegexUnmatched(pattern: Str)

  datatype ExtractReason = HeaderNotPresent(header: Str) | EmptyResult | PatternNotFound | EmptyCapture

  /** The errors that abort a run, and `Panic`: the thread panic of an out-of-range index,
      which is not an error value of the program. */
  datatype RuntimeError =
    | UnknownTarget(name: Str)
    | WrongProbeKind(name: Str)
    | AssertFailed(matcher: QualifiedMatch)
    | ExtractFailed(name: Str, why: ExtractReason)
    | Flow
    | InvalidDuration(input: Str)
    | Transport(code: nat)
    | BadRegex(pattern: Str)
    | Other(reason: Reason)
    | Panic

  /** The foreign libraries: regular expressions, number and duration parsing, display helpers. */
  datatype Engine = Engine(
    regexOk: Str -> bool,                 // does the pattern compile?
    textMatches: (Str, Str) -> bool,      // pattern, text
    bytesMatch: (Str, seq<byte>) -> bool,
    capture: (Str, Str) -> Option<Str>,   // group 1, else the whole match
    duration: Str -> Option<u64>,         // milliseconds
    number: Str -> Option<u64>,
    lossy: seq<byte> -> Str,
    clip: Str -> Str)                     // truncation to 500 bytes for evidence
}
