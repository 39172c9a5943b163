/** Matcher evaluation against probe responses. */
module Matcher {
  import opened Prelude
  import opened Contract
  import opened Runtime

  type Responses = map<Str, ProbeResponse>

  /** A matcher's regex, compiled once; kept as its pattern together with the flavour. */
  datatype CompiledRegex = NoRegex | TextRegex(pattern: Str) | SocketRegex(pattern: Str)

  function Compile(engine: Engine, m: QualifiedMatch): Result<CompiledRegex, RuntimeError> {
    match m.predicate_
    case Regex(p) =>
      (match m.field.kind
       case Body | Header(_) => if engine.regexOk(p) then Ok(TextRegex(p)) else Err(BadRegex(p))
       case Response | Banner => if engine.regexOk(p) then Ok(SocketRegex(p)) else Err(BadRegex(p))
       case _ => Ok(NoRegex))
    case _ => Ok(NoRegex)
  }

  predicate SameHeader(a: Str, b: Str) { LowerAscii(a) == LowerAscii(b) }

  /** The first header whose name matches without regard to ASCII case. */
  function LookupHeader(headers: seq<(Str, Str)>, name: Str): (r: Option<Str>)
    ensures r.None? <==> forall h | h in headers :: !SameHeader(h.0, name)
    ensures r.Some? ==> exists i | 0 <= i < |headers| ::
                          headers[i].1 == r.value && SameHeader(headers[i].0, name)
                          && forall j | 0 <= j < i :: !SameHeader(headers[j].0, name)
  {
    hide LowerAscii;
    if headers == [] then None
    else if SameHeader(headers[0].0, name) then
      assert headers[0] in headers;
      Some(headers[0].1)
    else
      assert headers == [headers[0]] + headers[1..];
      var r := LookupHeader(headers[1..], name);
      assert r.Some? ==> exists i | 0 < i < |headers| ::
                          headers[i].1 == r.value && SameHeader(headers[i].0, name)
                          && forall j | 0 <= j < i :: !SameHeader(headers[j].0, name) by {
        if r.Some? {
          var i :| 0 <= i < |headers[1..]| && headers[1..][i].1 == r.value && SameHeader(headers[1..][i].0, name)
                   && forall j | 0 <= j < i :: !SameHeader(headers[1..][j].0, name);
          assert headers[i + 1] == headers[1..][i];
          forall j | 0 <= j < i + 1 ensures !SameHeader(headers[j].0, name) {
            assert j > 0 ==> headers[j] == headers[1..][j - 1];
          }
        }
      }
      r
  }

  /** A missing header reads as the empty string. */
  function FindHeader(headers: seq<(Str, Str)>, name: Str): Str {
    match LookupHeader(headers, name)
    case Some(v) => v
    case None => []
  }

  function JoinWithSpaces(parts: seq<Str>): Str {
    if parts == [] then []
    else if |parts| == 1 then parts[0]
    else parts[0] + [0x20] + JoinWithSpaces(parts[1..])
  }

  function Holds(actual: u64, op: CmpOp, expected: u64): bool {
    match op
    case Eq => actual == expected
    case Ne => actual != expected
    case Lt => actual < expected
    case Gt => actual > expected
    case Le => actual <= expected
    case Ge => actual >= expected
  }

  function CompareNumber(engine: Engine, actual: u64, op: CmpOp, value: CmpValue): Result<bool, RuntimeError> {
    match value
    case Number(n) => Ok(Holds(actual, op, n))
    case StringOperand(s) =>
      (match engine.number(s)
       case Some(n) => Ok(Holds(actual, op, n))
       case None => Err(Other(NotNumeric(s))))
    case Duration(_) => Err(Other(DurationNotNumeric))
  }

  function CompareParsed(engine: Engine, actual: u64, op: CmpOp, s: Str): Result<bool, RuntimeError> {
    match engine.duration(s)
    case Some(n) => Ok(Holds(actual, op, n))
    case None => Err(InvalidDuration(s))
  }

  function CompareDuration(engine: Engine, actual: u64, op: CmpOp, value: CmpValue): Result<bool, RuntimeError> {
    match value
    case Number(n) => Ok(Holds(actual, op, n))
    case Duration(s) => CompareParsed(engine, actual, op, s)
    case StringOperand(s) => CompareParsed(engine, actual, op, s)
  }

  /** Which predicates each field kind supports. */
  predicate Supported(kind: FieldKind, p: MatchPredicate) {
    match kind
    case Status | ResponseTime | ResponseSize => p.Compare?
    case Body | Header(_) | Response | Banner => p.Contains? || p.NotContains? || p.Regex?
    case Answer => p.Contains? || p.NotContains?
  }

  predicate RightProbeKind(kind: FieldKind, r: ProbeResponse) {
    match kind
    case Answer => r.DnsReply?
    case Response | Banner => r.SocketReply?
    case _ => r.HttpReply?
  }

  /** The bytes a text predicate looks at. */
  function Haystack(kind: FieldKind, r: ProbeResponse): Str
    requires RightProbeKind(kind, r) && !kind.Status? && !kind.ResponseTime? && !kind.ResponseSize?
  {
    match kind
    case Body => r.http.body
    case Header(name) => FindHeader(r.http.headers, name)
    case Answer => JoinWithSpaces(r.answers)
    case Response => r.socket.data
    case Banner => r.socket.data
  }

  /** The search through the windows of a byte string; the empty needle matches anywhere. */
  function BytesContains(haystack: seq<byte>, needle: seq<byte>): (r: bool)
    ensures r <==> Occurs(haystack, needle)
  {
    if needle == [] then
      assert OccursAt(haystack, needle, 0);
      true
    else if |needle| > |haystack| then false
    else if haystack[..|needle|] == needle then
      assert OccursAt(haystack, needle, 0);
      true
    else
      ShiftedWindows(haystack, needle);
      assert forall i | 0 <= i < |haystack| :: OccursAt(haystack[1..], needle, i) == OccursAt(haystack, needle, i + 1);
      BytesContains(haystack[1..], needle)
  }

  lemma ShiftedWindows(haystack: seq<byte>, needle: seq<byte>)
    requires haystack != []
    ensures forall i | 1 <= i <= |haystack| :: OccursAt(haystack, needle, i) == OccursAt(haystack[1..], needle, i - 1)
  {
    forall i | 1 <= i <= |haystack|
      ensures OccursAt(haystack, needle, i) == OccursAt(haystack[1..], needle, i - 1)
    {
      if i + |needle| <= |haystack| {
        var here, there := haystack[i..i + |needle|], haystack[1..][i - 1..i - 1 + |needle|];
        assert |here| == |there| && forall k | 0 <= k < |here| :: here[k] == haystack[i + k] == there[k];
        assert here == there;
      }
    }
  }

  /** Text fields use the library's substring search, socket data the byte search. */
  predicate Finds(kind: FieldKind, haystack: Str, text: Str) {
    if kind.Response? || kind.Banner? then BytesContains(haystack, text) else Occurs(haystack, text)
  }

  function CompareField(engine: Engine, kind: FieldKind, http: HttpResponse, op: CmpOp, value: CmpValue)
    : Result<bool, RuntimeError>
    requires kind.Status? || kind.ResponseTime? || kind.ResponseSize?
  {
    match kind
    case Status => CompareNumber(engine, http.status, op, value)
    case ResponseTime => CompareDuration(engine, http.elapsedMs, op, value)
    case ResponseSize => CompareNumber(engine, |http.body| % 0x1_0000_0000_0000_0000, op, value)
  }

  function MatchRegex(engine: Engine, kind: FieldKind, haystack: Str, compiled: CompiledRegex)
    : Result<bool, RuntimeError>
  {
    match compiled
    case TextRegex(p) =>
      if kind.Body? || kind.Header? then Ok(engine.textMatches(p, haystack)) else Err(Other(MissingCompiledRegex))
    case SocketRegex(p) =>
      if kind.Response? || kind.Banner? then Ok(engine.bytesMatch(p, haystack)) else Err(Other(MissingCompiledRegex))
    case NoRegex => Err(Other(MissingCompiledRegex))
  }

  function Evaluate(engine: Engine, m: QualifiedMatch, r: ProbeResponse, compiled: CompiledRegex)
    : Result<bool, RuntimeError>
  {
    var kind := m.field.kind;
    if !Supported(kind, m.predicate_) then Err(Other(UnsupportedMatcher(kind)))
    else if !RightProbeKind(kind, r) then Err(WrongProbeKind(m.field.target))
    else
      match m.predicate_
      case Compare(op, value) => CompareField(engine, kind, r.http, op, value)
      case Contains(text) => Ok(Finds(kind, Haystack(kind, r), text))
      case NotContains(text) => Ok(!Finds(kind, Haystack(kind, r), text))
      case Regex(_) => MatchRegex(engine, kind, Haystack(kind, r), compiled)
  }

  /** Evaluate against the response stored under the matcher's target. */
  function EvaluateTarget(engine: Engine, m: QualifiedMatch, compiled: CompiledRegex, responses: Responses)
    : Result<bool, RuntimeError>
  {
    if m.field.target in responses
    then Evaluate(engine, m, responses[m.field.target], compiled)
    else Err(UnknownTarget(m.field.target))
  }

  /** True when all hold; stops at the first that fails or errs. The lists are zipped. */
  function EvaluateAll(engine: Engine, ms: seq<QualifiedMatch>, compiled: seq<CompiledRegex>, responses: Responses)
    : Result<bool, RuntimeError>
  {
    if ms == [] || compiled == [] then Ok(true)
    else
      var first :- EvaluateTarget(engine, ms[0], compiled[0], responses);
      if !first then Ok(false) else EvaluateAll(engine, ms[1..], compiled[1..], responses)
  }

  /** True when one holds; stops at the first that holds or errs. */
  function EvaluateAny(engine: Engine, ms: seq<QualifiedMatch>, compiled: seq<CompiledRegex>, responses: Responses)
    : Result<bool, RuntimeError>
  {
    if ms == [] || compiled == [] then Ok(false)
    else
      var first :- EvaluateTarget(engine, ms[0], compiled[0], responses);
      if first then Ok(true) else EvaluateAny(engine, ms[1..], compiled[1..], responses)
  }

  // ---------- duality ----------

  function NegateOp(op: CmpOp): CmpOp {
    match op
    case Eq => Ne case Ne => Eq
    case Lt => Ge case Ge => Lt
    case Gt => Le case Le => Gt
  }

  function NegatePredicate(p: MatchPredicate): MatchPredicate
    requires !p.Regex?
  {
    match p
    case Compare(op, value) => Compare(NegateOp(op), value)
    case Contains(s) => NotContains(s)
    case NotContains(s) => Contains(s)
  }

  predicate RegexFree(ms: seq<QualifiedMatch>) {
    forall m | m in ms :: !m.predicate_.Regex?
  }

  function NegateAll(ms: seq<QualifiedMatch>): (r: seq<QualifiedMatch>)
    requires RegexFree(ms)
    ensures |r| == |ms|
    ensures forall i | 0 <= i < |r| :: r[i] == ms[i].(predicate_ := NegatePredicate(ms[i].predicate_))
  {
    seq(|ms|, i requires 0 <= i < |ms| => ms[i].(predicate_ := NegatePredicate(ms[i].predicate_)))
  }

  function Not(r: Result<bool, RuntimeError>): Result<bool, RuntimeError> {
    match r
    case Ok(b) => Ok(!b)
    case Err(e) => Err(e)
  }

  lemma NegatedComparison(
    engine: Engine, kind: FieldKind, http: HttpResponse, op: CmpOp, value: CmpValue)
    requires kind.Status? || kind.ResponseTime? || kind.ResponseSize?
    ensures CompareField(engine, kind, http, NegateOp(op), value) == Not(CompareField(engine, kind, http, op, value))
  {
    assert forall a, n :: Holds(a, NegateOp(op), n) == !Holds(a, op, n);
  }

  /** Negating the predicate negates the verdict and keeps every error. */
  lemma NegatedVerdict(engine: Engine, m: QualifiedMatch, c: CompiledRegex, responses: Responses)
    requires !m.predicate_.Regex?
    ensures EvaluateTarget(engine, m.(predicate_ := NegatePredicate(m.predicate_)), c, responses)
         == Not(EvaluateTarget(engine, m, c, responses))
  {
    var kind := m.field.kind;
    if m.field.target in responses && m.predicate_.Compare? && Supported(kind, m.predicate_) {
      var r := responses[m.field.target];
      if RightProbeKind(kind, r) {
        NegatedComparison(engine, kind, r.http, m.predicate_.op, m.predicate_.value);
      }
    }
  }

  /** De Morgan for matcher lists, errors and short-circuiting included. */
  lemma {:induction false} AnyIsNotAllNegated(
    engine: Engine, ms: seq<QualifiedMatch>, cs: seq<CompiledRegex>, responses: Responses)
    requires RegexFree(ms)
    ensures EvaluateAny(engine, ms, cs, responses) == Not(EvaluateAll(engine, NegateAll(ms), cs, responses))
  {
    if ms != [] && cs != [] {
      NegatedVerdict(engine, ms[0], cs[0], responses);
      assert NegateAll(ms)[1..] == NegateAll(ms[1..]);
      AnyIsNotAllNegated(engine, ms[1..], cs[1..], responses);
    }
  }

  /** The first matcher decides where an evaluation stops: both forms err at the same position. */
  function StopAt(engine: Engine, ms: seq<QualifiedMatch>, cs: seq<CompiledRegex>, responses: Responses,
      on: bool): (k: nat)
    ensures k <= |ms| && k <= |cs|
  {
    if ms == [] || cs == [] then 0
    else
      match EvaluateTarget(engine, ms[0], cs[0], responses)
      case Err(_) => 0
      case Ok(b) => if b == on then 0 else 1 + StopAt(engine, ms[1..], cs[1..], responses, on)
  }

  lemma {:induction false} StopsAtSamePosition(
    engine: Engine, ms: seq<QualifiedMatch>, cs: seq<CompiledRegex>, responses: Responses)
    requires RegexFree(ms)
    ensures StopAt(engine, ms, cs, responses, true) == StopAt(engine, NegateAll(ms), cs, responses, false)
  {
    if ms != [] && cs != [] {
      NegatedVerdict(engine, ms[0], cs[0], responses);
      assert NegateAll(ms)[1..] == NegateAll(ms[1..]);
      StopsAtSamePosition(engine, ms[1..], cs[1..], responses);
    }
  }

  /** The compiled table never lacks the regex its matcher needs. */
  lemma CompiledRegexIsPresent(engine: Engine, m: QualifiedMatch, r: ProbeResponse)
    requires Compile(engine, m).Ok?
    ensures Evaluate(engine, m, r, Compile(engine, m).value) != Err(Other(MissingCompiledRegex))
  {
  }

  // ---------- more data ----------

  lemma OccursSurvivesAppend(haystack: seq<byte>, more: seq<byte>, needle: seq<byte>)
    requires Occurs(haystack, needle)
    ensures Occurs(haystack + more, needle)
  {
    var i :| 0 <= i <= |haystack| && OccursAt(haystack, needle, i);
    assert (haystack + more)[i..i + |needle|] == haystack[i..i + |needle|];
    assert OccursAt(haystack + more, needle, i);
  }

  /** Data appended to a session's response never takes a found text away: `contains` stays true,
      `not contains` stays false. */
  lemma ContainsSurvivesAppend(
    engine: Engine, m: QualifiedMatch, s: SocketResponse, more: seq<byte>, c: CompiledRegex)
    ensures var grown := SocketReply(s.(data := s.data + more));
            && (m.predicate_.Contains? && Evaluate(engine, m, SocketReply(s), c) == Ok(true) ==>
                  Evaluate(engine, m, grown, c) == Ok(true))
            && (m.predicate_.NotContains? && Evaluate(engine, m, SocketReply(s), c) == Ok(false) ==>
                  Evaluate(engine, m, grown, c) == Ok(false))
  {
    if m.predicate_.Contains? || m.predicate_.NotContains? {
      if Occurs(s.data, m.predicate_.text) {
        OccursSurvivesAppend(s.data, more, m.predicate_.text);
      }
    }
  }

  /** A missing header reads as the empty string: it contains the empty text and no other. */
  lemma MissingHeader(engine: Engine, m: QualifiedMatch, http: HttpResponse, c: CompiledRegex)
    requires m.field.kind.Header? && m.predicate_.Contains?
    requires forall h | h in http.headers :: !SameHeader(h.0, m.field.kind.name)
    ensures Evaluate(engine, m, HttpReply(http), c) == Ok(m.predicate_.text == [])
  {
    assert LookupHeader(http.headers, m.field.kind.name).None?;
    assert OccursAt([], [], 0);
  }
}
