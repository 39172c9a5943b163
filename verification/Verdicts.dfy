/** What a matcher's verdict says about the response, told from the response itself: the comparisons, the
    searches, the refusals, and the lists of matchers. */
module Verdicts {
  import opened Prelude
  import opened Contract
  import opened Runtime
  import opened Matcher

  // ---------- comparisons ----------

  predicate Numeric(kind: FieldKind) { kind.Status? || kind.ResponseSize? || kind.ResponseTime? }

  /** The number a field measures. The body's length is taken in 64 bits. */
  function Measure(kind: FieldKind, http: HttpResponse): nat
    requires Numeric(kind)
  {
    if kind.Status? then http.status
    else if kind.ResponseSize? then |http.body| % 0x1_0000_0000_0000_0000
    else http.elapsedMs
  }

  /** The number an operand stands for: a literal, a numeral, or for times a duration; and why it stands for none. */
  function Denoted(engine: Engine, kind: FieldKind, value: CmpValue): Option<u64>
    requires Numeric(kind)
  {
    if value.Number? then Some(value.n)
    else if kind.ResponseTime? then engine.duration(if value.Duration? then value.d else value.s)
    else if value.Duration? then None
    else engine.number(value.s)
  }

  function Undenoted(kind: FieldKind, value: CmpValue): RuntimeError
    requires Numeric(kind) && !value.Number?
  {
    if kind.ResponseTime? then InvalidDuration(if value.Duration? then value.d else value.s)
    else if value.Duration? then Other(DurationNotNumeric)
    else Other(NotNumeric(value.s))
  }

  /** Each operator is the comparison it names, between what the field measures and what the operand denotes. */
  lemma ComparisonMeaning(engine: Engine, m: QualifiedMatch, http: HttpResponse, c: CompiledRegex)
    requires m.predicate_.Compare? && Numeric(m.field.kind)
    ensures var verdict := Evaluate(engine, m, HttpReply(http), c);
            var kind, op, a := m.field.kind, m.predicate_.op, Measure(m.field.kind, http);
            var denoted := Denoted(engine, kind, m.predicate_.value);
            if denoted.None? then !m.predicate_.value.Number? && verdict == Err(Undenoted(kind, m.predicate_.value))
            else
              var n := denoted.value;
              && (op.Eq? ==> verdict == Ok(a == n))
              && (op.Ne? ==> verdict == Ok(a != n))
              && (op.Lt? ==> verdict == Ok(a < n))
              && (op.Gt? ==> verdict == Ok(a > n))
              && (op.Le? ==> verdict == Ok(a <= n))
              && (op.Ge? ==> verdict == Ok(a >= n))
  {
  }

  function WithOp(m: QualifiedMatch, op: CmpOp): QualifiedMatch
    requires m.predicate_.Compare?
  {
    m.(predicate_ := Compare(op, m.predicate_.value))
  }

  predicate Accepts(engine: Engine, m: QualifiedMatch, http: HttpResponse) {
    Evaluate(engine, m, HttpReply(http), NoRegex) == Ok(true)
  }

  /** An operand that denotes a number divides the responses in three: less, equal and greater. */
  lemma Trichotomy(engine: Engine, m: QualifiedMatch, http: HttpResponse)
    requires m.predicate_.Compare? && Numeric(m.field.kind)
    requires Denoted(engine, m.field.kind, m.predicate_.value).Some?
    ensures var lt, eq, gt := Accepts(engine, WithOp(m, Lt), http), Accepts(engine, WithOp(m, Eq), http),
                              Accepts(engine, WithOp(m, Gt), http);
            && (lt || eq || gt) && !(lt && eq) && !(lt && gt) && !(eq && gt)
            && (Accepts(engine, WithOp(m, Le), http) <==> lt || eq)
            && (Accepts(engine, WithOp(m, Ge), http) <==> gt || eq)
            && (Accepts(engine, WithOp(m, Ne), http) <==> !eq)
  {
    hide Evaluate, Measure, Denoted;
    ComparisonMeaning(engine, WithOp(m, Lt), http, NoRegex);
    ComparisonMeaning(engine, WithOp(m, Eq), http, NoRegex);
    ComparisonMeaning(engine, WithOp(m, Gt), http, NoRegex);
    ComparisonMeaning(engine, WithOp(m, Le), http, NoRegex);
    ComparisonMeaning(engine, WithOp(m, Ge), http, NoRegex);
    ComparisonMeaning(engine, WithOp(m, Ne), http, NoRegex);
  }

  /** `==` accepts one value only; a smaller value than one `<` accepts is accepted, a larger one for `>`. */
  lemma ComparisonsAreMonotone(engine: Engine, m: QualifiedMatch, one: HttpResponse, two: HttpResponse)
    requires m.predicate_.Compare? && Numeric(m.field.kind) && Accepts(engine, m, one)
    ensures var a, b := Measure(m.field.kind, one), Measure(m.field.kind, two);
            && (m.predicate_.op.Eq? ==> (Accepts(engine, m, two) <==> a == b))
            && (m.predicate_.op.Lt? || m.predicate_.op.Le? ==> b <= a ==> Accepts(engine, m, two))
            && (m.predicate_.op.Gt? || m.predicate_.op.Ge? ==> b >= a ==> Accepts(engine, m, two))
  {
    hide Evaluate, Measure, Denoted;
    ComparisonMeaning(engine, m, one, NoRegex);
    ComparisonMeaning(engine, m, two, NoRegex);
  }

  // ---------- searches ----------

  /** The text a field shows of a response; a header is the first of its name, and empty when there is none. */
  ghost predicate Shows(kind: FieldKind, r: ProbeResponse, text: Str) {
    match kind
    case Body => r.HttpReply? && text == r.http.body
    case Header(name) => r.HttpReply? && IsHeader(r.http.headers, name, text)
    case Answer => r.DnsReply? && text == JoinWithSpaces(r.answers)
    case Response => r.SocketReply? && text == r.socket.data
    case Banner => r.SocketReply? && text == r.socket.data
    case _ => false
  }

  ghost predicate IsHeader(headers: seq<(Str, Str)>, name: Str, text: Str) {
    if exists h | h in headers :: SameHeader(h.0, name) then
      exists i | 0 <= i < |headers| ::
        && headers[i].1 == text && SameHeader(headers[i].0, name)
        && forall j | 0 <= j < i :: !SameHeader(headers[j].0, name)
    else text == []
  }

  /** `contains` looks for its text in what the field shows, `not contains` denies exactly that. */
  lemma ContainsMeaning(engine: Engine, m: QualifiedMatch, r: ProbeResponse, c: CompiledRegex, text: Str)
    requires m.predicate_.Contains? || m.predicate_.NotContains?
    requires Shows(m.field.kind, r, text)
    ensures Evaluate(engine, m, r, c)
         == Ok(m.predicate_.Contains? == exists before, after :: text == before + m.predicate_.text + after)
  {
    hide SameHeader, JoinWithSpaces;
    ShownIsHaystack(m.field.kind, r, text);
    OccursIff(text, m.predicate_.text);
  }

  lemma OccursIff(text: Str, needle: Str)
    ensures Occurs(text, needle) <==> exists before, after :: text == before + needle + after
  {
    if Occurs(text, needle) {
      var i: nat :| i <= |text| && OccursAt(text, needle, i);
      assert text == text[..i] + needle + text[i + |needle|..];
    }
    if before, after :| text == before + needle + after {
      assert OccursAt(text, needle, |before|);
    }
  }

  lemma ShownIsHaystack(kind: FieldKind, r: ProbeResponse, text: Str)
    requires Shows(kind, r, text)
    ensures RightProbeKind(kind, r) && Haystack(kind, r) == text
  {
    hide SameHeader, JoinWithSpaces;
    if kind.Header? {
      var found := LookupHeader(r.http.headers, kind.name);
      if found.Some? {
        var i :| 0 <= i < |r.http.headers| && r.http.headers[i].1 == found.value
                 && SameHeader(r.http.headers[i].0, kind.name)
                 && forall j | 0 <= j < i :: !SameHeader(r.http.headers[j].0, kind.name);
        assert r.http.headers[i] in r.http.headers;
      }
    }
  }

  /** A regex is asked about the same text, as text or as bytes, with the matcher's own pattern. */
  lemma RegexMeaning(engine: Engine, m: QualifiedMatch, r: ProbeResponse, c: CompiledRegex, text: Str)
    requires m.predicate_.Regex? && !m.field.kind.Answer? && Compile(engine, m) == Ok(c)
    requires Shows(m.field.kind, r, text)
    ensures Evaluate(engine, m, r, c)
         == Ok(if r.SocketReply? then engine.bytesMatch(m.predicate_.pattern, text)
               else engine.textMatches(m.predicate_.pattern, text))
  {
    ShownIsHaystack(m.field.kind, r, text);
  }

  /** Which predicates are refused for which field, and then which replies. */
  lemma RefusalMeaning(engine: Engine, m: QualifiedMatch, r: ProbeResponse, c: CompiledRegex)
    ensures var kind, p := m.field.kind, m.predicate_;
            var refused := (Numeric(kind) <==> !p.Compare?) || (kind.Answer? && p.Regex?);
            && (refused ==> Evaluate(engine, m, r, c) == Err(Other(UnsupportedMatcher(kind))))
            && (!refused ==> Evaluate(engine, m, r, c) != Err(Other(UnsupportedMatcher(kind))))
            && (!refused ==>
                  var wrong := if kind.Answer? then !r.DnsReply?
                               else if kind.Response? || kind.Banner? then !r.SocketReply? else !r.HttpReply?;
                  Evaluate(engine, m, r, c) == Err(WrongProbeKind(m.field.target)) <==> wrong)
  {
    hide LookupHeader, BytesContains, Occurs;
  }

  // ---------- names and joined answers ----------

  predicate Capital(b: byte) { 0x41 <= b <= 0x5A }

  /** Two names are the same when they differ at most in the case of ASCII letters. */
  lemma SameHeaderIff(a: Str, b: Str)
    ensures SameHeader(a, b) <==>
              |a| == |b| && forall i | 0 <= i < |a| ::
                a[i] == b[i] || (Capital(a[i]) && b[i] == a[i] + 0x20) || (Capital(b[i]) && a[i] == b[i] + 0x20)
  {
    var la, lb := LowerAscii(a), LowerAscii(b);
    assert |la| == |a| && |lb| == |b|;
    if SameHeader(a, b) {
      assert |a| == |b|;
      forall i | 0 <= i < |a|
        ensures a[i] == b[i] || (Capital(a[i]) && b[i] == a[i] + 0x20) || (Capital(b[i]) && a[i] == b[i] + 0x20)
      {
        assert la[i] == lb[i];
      }
    } else if |a| == |b| {
      var i :| 0 <= i < |a| && la[i] != lb[i];
    }
  }

  /** Answers are joined in order, one space between each two. */
  lemma {:induction false} JoinSnoc(parts: seq<Str>, last: Str)
    ensures JoinWithSpaces(parts + [last])
         == if parts == [] then last else JoinWithSpaces(parts) + [0x20] + last
  {
    var all := parts + [last];
    if parts == [] {
      assert all == [last];
    } else {
      assert all[1..] == parts[1..] + [last];
      JoinSnoc(parts[1..], last);
      if |parts| > 1 {
        assert parts[0] + [0x20] + (JoinWithSpaces(parts[1..]) + [0x20] + last)
            == parts[0] + [0x20] + JoinWithSpaces(parts[1..]) + [0x20] + last;
      }
    }
  }

  // ---------- lists of matchers ----------

  /** All of a list: the verdict of the first that does not hold, and true when every one does. */
  lemma {:induction false} AllMeaning(
    engine: Engine, ms: seq<QualifiedMatch>, cs: seq<CompiledRegex>, responses: Responses) returns (k: nat)
    requires |ms| == |cs|
    ensures k <= |ms| && forall i | 0 <= i < k :: EvaluateTarget(engine, ms[i], cs[i], responses) == Ok(true)
    ensures if k == |ms| then EvaluateAll(engine, ms, cs, responses) == Ok(true)
            else EvaluateAll(engine, ms, cs, responses) == EvaluateTarget(engine, ms[k], cs[k], responses) != Ok(true)
  {
    hide EvaluateTarget;
    k := 0;
    if ms != [] && EvaluateTarget(engine, ms[0], cs[0], responses) == Ok(true) {
      var j := AllMeaning(engine, ms[1..], cs[1..], responses);
      k := j + 1;
      forall i | 1 <= i < k ensures EvaluateTarget(engine, ms[i], cs[i], responses) == Ok(true) {
        assert ms[1..][i - 1] == ms[i] && cs[1..][i - 1] == cs[i];
      }
    }
  }

  /** Any of a list: the verdict of the first that is not false, and false when every one is. */
  lemma {:induction false} AnyMeaning(
    engine: Engine, ms: seq<QualifiedMatch>, cs: seq<CompiledRegex>, responses: Responses) returns (k: nat)
    requires |ms| == |cs|
    ensures k <= |ms| && forall i | 0 <= i < k :: EvaluateTarget(engine, ms[i], cs[i], responses) == Ok(false)
    ensures if k == |ms| then EvaluateAny(engine, ms, cs, responses) == Ok(false)
            else EvaluateAny(engine, ms, cs, responses) == EvaluateTarget(engine, ms[k], cs[k], responses) != Ok(false)
  {
    hide EvaluateTarget;
    k := 0;
    if ms != [] && EvaluateTarget(engine, ms[0], cs[0], responses) == Ok(false) {
      var j := AnyMeaning(engine, ms[1..], cs[1..], responses);
      k := j + 1;
      forall i | 1 <= i < k ensures EvaluateTarget(engine, ms[i], cs[i], responses) == Ok(false) {
        assert ms[1..][i - 1] == ms[i] && cs[1..][i - 1] == cs[i];
      }
    }
  }
}
