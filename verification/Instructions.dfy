/** What each instruction does to a running machine, told from the state it starts in: texts expanded, values
    iterated, branches taken, responses copied, evidence collected. */
module Instructions {
  import opened Prelude
  import opened Contract
  import opened Runtime
  import opened Template
  import opened Matcher
  import opened Verdicts
  import opened Vm
  import opened Safety
  import Interpolation

  /** The instruction at the program counter, its operands in range. */
  predicate Ready(x: Executor, code: seq<Instr>, pc: nat) {
    pc < |code| && SizesFit(x) && InstrOk(x, code[pc])
  }

  // ---------- variables ----------

  /** `set` binds the expansion of its template and goes on; a failing expansion ends the run. */
  lemma SetMeaning(x: Executor, code: seq<Instr>, pc: nat, st: State, stack: seq<LoopFrame>)
    requires Ready(x, code, pc) && code[pc].Set?
    ensures var name, template := x.strings[code[pc].name], x.strings[code[pc].value];
            Step(x, code, Running(pc, st, stack)) ==
              match Interpolate(template, st.variables)
              case Ok(v) => Running(pc + 1, st.(variables := st.variables[name := Text(v)]), stack)
              case Err(e) => Failed(e)
  {
    hide Interpolate;
  }

  /** What `set` binds is what a later placeholder of that name gives, and other names give what they did. */
  lemma SetThenExpand(
    x: Executor, code: seq<Instr>, pc: nat, st: State, stack: seq<LoopFrame>,
    a: Str, hole: Interpolation.Segment, b: Str)
    requires Ready(x, code, pc) && code[pc].Set?
    requires Interpolate(x.strings[code[pc].value], st.variables).Ok?
    requires Interpolation.NoOpening(a) && Interpolation.NoOpening(b)
    requires hole.Hole? && Interpolation.SegmentOk(hole)
    ensures var m := Step(x, code, Running(pc, st, stack));
            var template := a + Interpolation.RenderOne(hole) + b;
            && m.Running?
            && (hole.name == x.strings[code[pc].name] ==>
                  Interpolate(template, m.st.variables)
                  == Ok(a + Interpolate(x.strings[code[pc].value], st.variables).value + b))
            && (hole.name != x.strings[code[pc].name] ==>
                  Interpolate(template, m.st.variables) == Interpolate(template, st.variables))
  {
    hide Interpolate, Step, Interpolation.RenderOne, Interpolation.NoOpening, Interpolation.SegmentOk;
    SetMeaning(x, code, pc, st, stack);
    Interpolation.OneHole(a, hole, b, st.variables);
    Interpolation.OneHole(a, hole, b, Step(x, code, Running(pc, st, stack)).st.variables);
  }

  /** Templates are expanded in order, each on its own; the first that fails gives the error. */
  lemma {:induction false} ExpandedInOrder(ts: seq<Str>, variables: Variables) returns (k: nat)
    ensures k <= |ts| && forall i | 0 <= i < k :: Interpolate(ts[i], variables).Ok?
    ensures if k == |ts| then
              && InterpolateAll(ts, variables).Ok? && |InterpolateAll(ts, variables).value| == |ts|
              && forall i | 0 <= i < |ts| ::
                   Interpolate(ts[i], variables) == Ok(InterpolateAll(ts, variables).value[i])
            else
              && Interpolate(ts[k], variables).Err?
              && InterpolateAll(ts, variables) == Err(Interpolate(ts[k], variables).error)
  {
    hide Interpolate;
    k := 0;
    if ts != [] && Interpolate(ts[0], variables).Ok? {
      var j := ExpandedInOrder(ts[1..], variables);
      k := j + 1;
      assert forall i | 1 <= i < |ts| :: ts[i] == ts[1..][i - 1];
    }
  }

  /** The strings an instruction with a range stands for. */
  function Range(x: Executor, start: nat, len: nat): seq<Str>
    requires start + len <= |x.strings|
  {
    x.strings[start..start + len]
  }

  /** `vs` are the expansions of `ts`, one by one. */
  predicate Expansions(ts: seq<Str>, variables: Variables, vs: seq<Str>) {
    |vs| == |ts| && forall i | 0 <= i < |ts| :: Interpolate(ts[i], variables) == Ok(vs[i])
  }

  lemma ListValuesMeaning(x: Executor, start: u32, len: u16, st: State, vs: seq<Str>)
    requires SizesFit(x) && start + len <= |x.strings|
    ensures ListValues(x, start, len, st) == Ok(vs) <==> Expansions(Range(x, start, len), st.variables, vs)
  {
    hide Interpolate, InterpolateAll;
    var ts := Range(x, start, len);
    var k := ExpandedInOrder(ts, st.variables);
    assert ListValues(x, start, len, st) == InterpolateAll(ts, st.variables);
    if Expansions(ts, st.variables, vs) {
      assert k == |ts|;
      assert InterpolateAll(ts, st.variables).value == vs;
    }
  }

  /** `set_list` binds the list of its strings' expansions. */
  lemma SetListMeaning(x: Executor, code: seq<Instr>, pc: nat, st: State, stack: seq<LoopFrame>, vs: seq<Str>)
    requires Ready(x, code, pc) && code[pc].SetList?
    ensures Expansions(Range(x, code[pc].start, code[pc].len), st.variables, vs) <==>
              Step(x, code, Running(pc, st, stack))
              == Running(pc + 1, st.(variables := st.variables[x.strings[code[pc].name] := List(vs)]), stack)
  {
    hide Interpolate, ListValues, Expansions;
    ListValuesMeaning(x, code[pc].start, code[pc].len, st, vs);
    var r := ListValues(x, code[pc].start, code[pc].len, st);
    if r.Ok? && r.value != vs {
      assert st.variables[x.strings[code[pc].name] := List(vs)][x.strings[code[pc].name]]
          != st.variables[x.strings[code[pc].name] := List(r.value)][x.strings[code[pc].name]];
    }
  }

  // ---------- loops ----------

  /** The values a loop goes through: the expansions of its strings, or the list its variable is bound to, none
      when it is unbound. */
  predicate Iterates(x: Executor, i: Instr, st: State, vs: seq<Str>)
    requires (i.ForList? || i.ForVar?) && InstrOk(x, i)
  {
    if i.ForList? then Expansions(Range(x, i.start, i.len), st.variables, vs)
    else
      var list := x.strings[i.list];
      if list in st.variables then st.variables[list] == List(vs) else vs == []
  }

  lemma LoopValuesMeaning(x: Executor, i: Instr, st: State, vs: seq<Str>)
    requires (i.ForList? || i.ForVar?) && SizesFit(x) && InstrOk(x, i)
    ensures LoopValues(x, i, st) == Ok(vs) <==> Iterates(x, i, st, vs)
  {
    hide ListValues, Expansions;
    if i.ForList? {
      ListValuesMeaning(x, i.start, i.len, st, vs);
    }
  }

  /** `for` passes over an empty list; else it binds the first value, remembers what its variable was bound to,
      and enters the body. */
  lemma ForMeaning(x: Executor, code: seq<Instr>, pc: nat, st: State, stack: seq<LoopFrame>, vs: seq<Str>)
    requires Ready(x, code, pc) && (code[pc].ForList? || code[pc].ForVar?) && Iterates(x, code[pc], st, vs)
    ensures var item, endPc := x.strings[code[pc].item], code[pc].endPc;
            var m := Step(x, code, Running(pc, st, stack));
            if vs == [] then m == Running(endPc, st, stack)
            else
              && m.Running? && m.pc == pc + 1 && |m.stack| == |stack| + 1 && m.stack[..|stack|] == stack
              && m.st == st.(variables := st.variables[item := Text(vs[0])])
              && var f := m.stack[|stack|];
                 && f.item == item && f.values == vs && f.index == 0 && f.headPc == pc + 1 && f.endPc == endPc
                 && (f.previous.None? <==> item !in st.variables)
                 && (f.previous.Some? ==> f.previous.value == st.variables[item])
                 && f.continuePc == (if endPc > 0 then endPc - 1 else 0)
  {
    hide LoopValues, Iterates;
    LoopValuesMeaning(x, code[pc], st, vs);
  }

  /** What is not iterable: a variable bound to a text. */
  lemma ForOverText(x: Executor, code: seq<Instr>, pc: nat, st: State, stack: seq<LoopFrame>)
    requires Ready(x, code, pc) && code[pc].ForVar? && x.strings[code[pc].list] in st.variables
    requires st.variables[x.strings[code[pc].list]].Text?
    ensures Step(x, code, Running(pc, st, stack)) == Failed(Other(NotAList(x.strings[code[pc].list])))
  {
  }

  /** A list that `set_list` bound is what a `for` over that variable goes through. */
  lemma SetListThenFor(
    x: Executor, code: seq<Instr>, pc: nat, st: State, stack: seq<LoopFrame>, vs: seq<Str>, loop: Instr)
    requires Ready(x, code, pc) && code[pc].SetList?
    requires Expansions(Range(x, code[pc].start, code[pc].len), st.variables, vs)
    requires loop.ForVar? && InstrOk(x, loop) && x.strings[loop.list] == x.strings[code[pc].name]
    ensures var m := Step(x, code, Running(pc, st, stack));
            m.Running? && Iterates(x, loop, m.st, vs)
  {
    hide Step, Expansions, InstrOk;
    SetListMeaning(x, code, pc, st, stack, vs);
  }

  /** `loop_back` binds the next value and returns to the head; after the last it leaves the loop and the
      variable is what it was before. */
  lemma LoopBackMeaning(x: Executor, code: seq<Instr>, pc: nat, st: State, stack: seq<LoopFrame>)
    requires pc < |code| && code[pc].LoopBack? && stack != []
    ensures var f, outer := stack[|stack| - 1], stack[..|stack| - 1];
            var m := Step(x, code, Running(pc, st, stack));
            && m.Running?
            && (f.index + 1 < |f.values| ==>
                  && m.pc == f.headPc && m.stack == outer + [f.(index := f.index + 1)]
                  && m.st == st.(variables := st.variables[f.item := Text(f.values[f.index + 1])]))
            && (f.index + 1 >= |f.values| ==>
                  && m.pc == f.endPc && m.stack == outer
                  && m.st.variables.Keys - {f.item} == st.variables.Keys - {f.item}
                  && (forall n | n in st.variables && n != f.item :: m.st.variables[n] == st.variables[n])
                  && (f.item in m.st.variables <==> f.previous.Some?)
                  && (f.previous.Some? ==> m.st.variables[f.item] == f.previous.value))
  {
  }

  // ---------- verdicts ----------

  /** The verdict of one matcher on what is stored under its target. */
  function Verdict(x: Executor, i: nat, st: State): Checked<bool>
    requires Aligned(x) && i < |x.matchers|
  {
    var m := x.matchers[i];
    if m.field.target in st.responses
    then Evaluate(x.engine, m, st.responses[m.field.target], x.matcherRegex[i])
    else Err(UnknownTarget(m.field.target))
  }

  /** `if` enters its body exactly when no match has failed yet and its matcher holds. */
  lemma IfMeaning(x: Executor, code: seq<Instr>, pc: nat, st: State, stack: seq<LoopFrame>)
    requires Ready(x, code, pc) && code[pc].IfMatch?
    ensures var verdict := Verdict(x, code[pc].matcher, st);
            Step(x, code, Running(pc, st, stack)) ==
              if st.matched && verdict.Err? then Failed(verdict.error)
              else Running(if st.matched && verdict.value then pc + 1 else code[pc].elsePc, st, stack)
  {
    hide Evaluate;
  }

  /** `match` lowers the latch when its matcher does not hold; `assert` ends the run. Both are passed over once
      the latch is down. */
  lemma MatchMeaning(x: Executor, code: seq<Instr>, pc: nat, st: State, stack: seq<LoopFrame>)
    requires Ready(x, code, pc) && (code[pc].Match? || code[pc].Assert?)
    ensures var verdict := Verdict(x, code[pc].matcher, st);
            Step(x, code, Running(pc, st, stack)) ==
              if !st.matched || verdict == Ok(true) then Running(pc + 1, st, stack)
              else if verdict.Err? then Failed(verdict.error)
              else if code[pc].Match? then Running(pc + 1, st.(matched := false), stack)
              else Failed(AssertFailed(x.matchers[code[pc].matcher]))
  {
    hide Evaluate;
  }

  lemma Slices(x: Executor, start: nat, len: nat, st: State)
    requires Aligned(x) && start + len <= |x.matchers|
    ensures var ms, cs := x.matchers[start..start + len], x.matcherRegex[start..start + len];
            forall i | start <= i < start + len ::
              EvaluateTarget(x.engine, ms[i - start], cs[i - start], st.responses) == Verdict(x, i, st)
  {
    hide Evaluate;
  }

  /** `match_all` is decided by the first matcher of its range that does not hold; without one it passes. */
  lemma MatchAllMeaning(x: Executor, code: seq<Instr>, pc: nat, st: State, stack: seq<LoopFrame>) returns (k: nat)
    requires Ready(x, code, pc) && code[pc].MatchAll? && st.matched
    ensures k <= code[pc].len
    ensures forall i | code[pc].start <= i < code[pc].start + k :: Verdict(x, i, st) == Ok(true)
    ensures var m := Step(x, code, Running(pc, st, stack));
            if k == code[pc].len then m == Running(pc + 1, st, stack)
            else
              var verdict := Verdict(x, code[pc].start + k, st);
              verdict != Ok(true)
              && m == if verdict.Err? then Failed(verdict.error) else Running(pc + 1, st.(matched := false), stack)
  {
    hide EvaluateTarget, Verdict;
    var start, len := code[pc].start, code[pc].len;
    Slices(x, start, len, st);
    k := AllMeaning(x.engine, x.matchers[start..start + len], x.matcherRegex[start..start + len], st.responses);
  }

  /** `match_any` passes when some matcher of its range holds and none before it errs; when none holds or errs
      the latch goes down. */
  lemma MatchAnyMeaning(x: Executor, code: seq<Instr>, pc: nat, st: State, stack: seq<LoopFrame>) returns (k: nat)
    requires Ready(x, code, pc) && code[pc].MatchAny? && st.matched
    ensures k <= code[pc].len
    ensures forall i | code[pc].start <= i < code[pc].start + k :: Verdict(x, i, st) == Ok(false)
    ensures var m := Step(x, code, Running(pc, st, stack));
            if k == code[pc].len then m == Running(pc + 1, st.(matched := false), stack)
            else
              var verdict := Verdict(x, code[pc].start + k, st);
              verdict != Ok(false) && m == if verdict.Err? then Failed(verdict.error) else Running(pc + 1, st, stack)
  {
    hide EvaluateTarget, Verdict;
    var start, len := code[pc].start, code[pc].len;
    Slices(x, start, len, st);
    k := AnyMeaning(x.engine, x.matchers[start..start + len], x.matcherRegex[start..start + len], st.responses);
  }

  // ---------- responses and evidence ----------

  /** `save` makes one name stand for another's response: a matcher gives the same verdict on either. */
  lemma SaveMeaning(
    x: Executor, code: seq<Instr>, pc: nat, st: State, stack: seq<LoopFrame>, m: QualifiedMatch, c: CompiledRegex)
    requires Ready(x, code, pc) && code[pc].Save?
    ensures var from, to := x.strings[code[pc].from], x.strings[code[pc].to];
            var m' := Step(x, code, Running(pc, st, stack));
            if from !in st.responses then m' == Running(pc + 1, st, stack)
            else
              && m' == Running(pc + 1, st.(responses := st.responses[to := st.responses[from]]), stack)
              && (m.field.target == from && EvaluateTarget(x.engine, m, c, st.responses).Ok? ==>
                    EvaluateTarget(x.engine, m.(field := m.field.(target := to)), c, m'.st.responses)
                    == EvaluateTarget(x.engine, m, c, st.responses))
              && (m.field.target != to ==>
                    EvaluateTarget(x.engine, m, c, m'.st.responses) == EvaluateTarget(x.engine, m, c, st.responses))
  {
    hide Haystack, Finds, CompareField, MatchRegex;
  }

  /** `send` makes one attempt with its payload, `retry` as many as it counts without one; when the attempt that
      counts fails, its error ends the run. */
  lemma SendMeaning(x: Executor, code: seq<Instr>, pc: nat, st: State, stack: seq<LoopFrame>)
    requires Ready(x, code, pc) && (code[pc].Send? || code[pc].Retry?)
    ensures var i, name := code[pc], x.strings[code[pc].probe];
            var s := if i.Retry? then RetrySend(x, name, i.count, None, st)
                     else SendProbe(x, name, if i.payload.Some? then Some(x.payloads[i.payload.value]) else None, st);
            Step(x, code, Running(pc, st, stack)) ==
              if s.result.Ok? then Running(pc + 1, s.st, stack) else Failed(s.result.error)
  {
    hide SendProbe, RetrySend;
  }

  /** What an extract finds in a response, or why it finds nothing. */
  function Extracted(x: Executor, name: Str, e: ExtractSource, http: HttpResponse): Checked<Str> {
    match e
    case FromBody(_, None) => if http.body == [] then Err(ExtractFailed(name, EmptyResult)) else Ok(http.body)
    case FromBody(_, Some(pattern)) =>
      (match x.engine.capture(pattern, http.body)
       case None => Err(ExtractFailed(Ascii("regex"), PatternNotFound))
       case Some(s) => if s == [] then Err(ExtractFailed(Ascii("regex"), EmptyCapture)) else Ok(s))
    case FromHeader(_, header) =>
      if LookupHeader(http.headers, header).Some? then Ok(LookupHeader(http.headers, header).value)
      else Err(ExtractFailed(name, HeaderNotPresent(header)))
  }

  /** `extract` binds what its source finds in an HTTP response, and otherwise ends the run; once a match has failed
      it is passed over. */
  lemma ExtractMeaning(x: Executor, code: seq<Instr>, pc: nat, st: State, stack: seq<LoopFrame>)
    requires Ready(x, code, pc) && code[pc].Extract? && CompiledFrom(x)
    ensures var name, e := x.strings[code[pc].name], x.extracts[code[pc].source];
            var m := Step(x, code, Running(pc, st, stack));
            if !st.matched then m == Running(pc + 1, st, stack)
            else if e.target !in st.responses then m == Failed(UnknownTarget(e.target))
            else if !st.responses[e.target].HttpReply? then m == Failed(WrongProbeKind(e.target))
            else
              var found := Extracted(x, name, e, st.responses[e.target].http);
              m == if found.Err? then Failed(found.error)
                   else Running(pc + 1, st.(variables := st.variables[name := Text(found.value)]), stack)
  {
    hide LookupHeader;
  }

  /** The text an evidence instruction looks at. */
  ghost predicate Evident(x: Executor, kind: EvidenceKind, responses: Responses, text: Str) {
    && kind.target in responses
    && var r := responses[kind.target];
       match kind
       case BodyProof(_, _) => r.HttpReply? && text == r.http.body
       case HeaderProof(_, name, _) =>
         && r.HttpReply? && (exists h | h in r.http.headers :: SameHeader(h.0, name))
         && IsHeader(r.http.headers, name, text)
       case ResponseProof(_, _) =>
         if r.HttpReply? then text == r.http.body
         else if r.DnsReply? then text == JoinWithSpaces(r.answers)
         else text == x.engine.lossy(r.socket.data)
  }

  lemma EvidentIsSource(x: Executor, kind: EvidenceKind, st: State, text: Str)
    requires Evident(x, kind, st.responses, text)
    ensures EvidenceSource(x, kind, st) == Ok(text)
  {
    hide SameHeader, JoinWithSpaces;
    if kind.HeaderProof? {
      var headers := st.responses[kind.target].http.headers;
      var found := LookupHeader(headers, kind.name);
      assert found.Some?;
    }
  }

  /** `evidence` adds the text, shortened, or the nonempty capture of its pattern in it; an unmatched pattern ends
      the run. */
  lemma EvidenceMeaning(x: Executor, code: seq<Instr>, pc: nat, st: State, stack: seq<LoopFrame>, text: Str)
    requires Ready(x, code, pc) && code[pc].Evidence? && CompiledFrom(x) && st.matched
    requires Evident(x, x.evidence[code[pc].kind], st.responses, text)
    ensures var pattern := x.evidence[code[pc].kind].pattern;
            var m := Step(x, code, Running(pc, st, stack));
            if pattern.None? then m == Running(pc + 1, st.(evidence := st.evidence + [x.engine.clip(text)]), stack)
            else
              match x.engine.capture(pattern.value, text)
              case Some(s) =>
                if s != [] then m == Running(pc + 1, st.(evidence := st.evidence + [s]), stack)
                else m == Failed(Other(EvidenceRegexUnmatched(pattern.value)))
              case None => m == Failed(Other(EvidenceRegexUnmatched(pattern.value)))
  {
    hide EvidenceSource, Evident;
    EvidentIsSource(x, x.evidence[code[pc].kind], st, text);
  }

  /** Without a response, without an HTTP one where a body or a header is asked for, or without that header, the
      run ends. */
  lemma EvidenceRefused(x: Executor, code: seq<Instr>, pc: nat, st: State, stack: seq<LoopFrame>)
    requires Ready(x, code, pc) && code[pc].Evidence? && st.matched
    ensures var kind, m := x.evidence[code[pc].kind], Step(x, code, Running(pc, st, stack));
            if kind.target !in st.responses then m == Failed(UnknownTarget(kind.target))
            else if !kind.ResponseProof? && !st.responses[kind.target].HttpReply? then
              m == Failed(Other(EvidenceNeedsHttp(kind.target)))
            else
              kind.HeaderProof? && (forall h | h in st.responses[kind.target].http.headers ::
                                      !SameHeader(h.0, kind.name)) ==>
                m == Failed(Other(EvidenceHeaderMissing(kind.target, kind.name)))
  {
    hide SameHeader, EvidenceHaystack;
  }

  // ---------- ending and waiting ----------

  /** `stop` ends without a finding, `exit` with what has been established, `fail` with an error; waiting
      instructions only parse their duration, and `retry_delay` remembers it. */
  lemma ControlMeaning(x: Executor, code: seq<Instr>, pc: nat, st: State, stack: seq<LoopFrame>)
    requires Ready(x, code, pc)
    ensures var i, m := code[pc], Step(x, code, Running(pc, st, stack));
            && (i.Stop? ==> m == Finished(st.(emitFinding := false)))
            && (i.Exit? ==> m == Finished(st))
            && (i.Fail? ==> m == Failed(RuntimeError.Flow))
            && (i.Sleep? || i.RetryDelay? ==>
                  match x.engine.duration(x.strings[i.delay])
                  case None => m == Failed(InvalidDuration(x.strings[i.delay]))
                  case Some(ms) =>
                    m == Running(pc + 1, if i.Sleep? then st else st.(retryDelay := Some(ms)), stack))
  {
  }
}
