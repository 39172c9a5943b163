/** Index safety: with validated operands no step of any run indexes a pool, a compiled table or a
    loop's values out of range, whatever the jump targets are. */
module Safety {
  import opened Prelude
  import opened Contract
  import opened Runtime
  import opened Template
  import opened Matcher
  import opened Vm
  import opened Validate

  // ---------- loaded programs ----------

  predicate InstrOk(x: Executor, i: Instr) {
    OperandsOk(i, |x.strings|, |x.payloads|, |x.matchers|, |x.extracts|, |x.evidence|)
  }

  /** What a validated program loaded into an executor satisfies; pool sizes came from 32-bit counts. */
  predicate Loaded(x: Executor, code: seq<Instr>) {
    && Aligned(x)
    && |x.strings| < U32_LIMIT
    && forall i | i in code :: InstrOk(x, i)
  }

  // ---------- which errors can arise ----------

  /** Neither a panic nor a control-flow error. */
  predicate Ordinary(e: RuntimeError) {
    !e.Panic? && !e.Flow? && !(e.Other? && (e.reason.OutsideLoop? || e.reason.OverBudget?))
  }

  predicate Fine<T>(r: Checked<T>, inRange: bool) {
    r.Err? ==> Ordinary(r.error) || (!inRange && r.error.Panic?)
  }

  lemma {:induction false} InterpolateAllFine(ts: seq<Str>, v: Variables)
    ensures Fine(InterpolateAll(ts, v), true)
  {
    if ts != [] {
      InterpolateFailsOnLists(ts[0], v);
      InterpolateAllFine(ts[1..], v);
    }
  }

  lemma {:induction false} EvaluateAllFine(x: Engine, ms: seq<QualifiedMatch>, cs: seq<CompiledRegex>, rs: Responses)
    ensures Fine(EvaluateAll(x, ms, cs, rs), true)
  {
    if ms != [] && cs != [] {
      EvaluateAllFine(x, ms[1..], cs[1..], rs);
    }
  }

  lemma {:induction false} EvaluateAnyFine(x: Engine, ms: seq<QualifiedMatch>, cs: seq<CompiledRegex>, rs: Responses)
    ensures Fine(EvaluateAny(x, ms, cs, rs), true)
  {
    if ms != [] && cs != [] {
      EvaluateAnyFine(x, ms[1..], cs[1..], rs);
    }
  }

  lemma SendFine(x: Executor, name: Str, over: Option<seq<byte>>, st: State)
    ensures Fine(SendProbe(x, name, over, st).result, true)
  {
    hide ExchangeSocket, SendHttp, Resolve;
    if name in x.spec.probes {
      match x.spec.probes[name]
      case Http(_) => assert Fine(SendHttp(x, name, st).result, true);
      case Dns(spec) => SocketSendFine(x, name, spec, over, st);
      case Tcp(spec) => SocketSendFine(x, name, spec, over, st);
      case Udp(spec) => SocketSendFine(x, name, spec, over, st);
    }
  }

  lemma SocketSendFine(x: Executor, name: Str, spec: SocketProbeSpec, over: Option<seq<byte>>, st: State)
    ensures Fine(SendDns(x, name, spec, over, st).result, true)
    ensures Fine(SendTcp(x, name, spec, over, st).result, true)
    ensures Fine(SendUdp(x, name, spec, over, st).result, true)
  {
    InterpolateFailsOnLists(spec.host, st.variables);
    if spec.payload.Some? {
      InterpolateFailsOnLists(spec.payload.value, st.variables);
    }
  }

  lemma {:induction false} RetryFine(x: Executor, name: Str, left: nat, last: Option<RuntimeError>, st: State)
    requires last.Some? ==> Ordinary(last.value)
    ensures Fine(RetrySend(x, name, left, last, st).result, true)
    decreases left
  {
    if left > 0 {
      SendFine(x, name, None, st);
      var s := SendProbe(x, name, None, st);
      if s.result.Err? {
        RetryFine(x, name, left - 1, Some(s.result.error), s.st);
      }
    }
  }

  lemma CaptureFine(x: Executor, text: Str, pattern: Str)
    ensures Fine(RunCapture(x, text, pattern), true)
  {
  }

  lemma ExtractFine(x: Executor, name: Str, source: ExtractSource, idx: nat, st: State)
    ensures Fine(ExtractValue(x, name, source, idx, st), idx < |x.extractRegex|)
  {
    forall text, p { CaptureFine(x, text, p); }
  }

  lemma EvidenceFine(x: Executor, idx: nat, st: State)
    ensures Fine(CollectEvidence(x, idx, st), idx < |x.evidence| && idx < |x.evidenceRegex|)
  {
  }

  lemma MatchesFine(x: Executor, i: nat, st: State)
    ensures Fine(MatchesIdx(x, i, st), i < |x.matchers| && i < |x.matcherRegex|)
  {
  }

  lemma ListValuesFine(x: Executor, start: u32, len: u16, st: State)
    ensures Fine(ListValues(x, start, len, st), |x.strings| < U32_LIMIT && RangeOk(start, len, |x.strings|))
  {
    hide InterpolateAll;
    if StringRange(x, start, len).Ok? {
      InterpolateAllFine(StringRange(x, start, len).value, st.variables);
    }
  }

  lemma MatcherRangeFine(x: Executor, start: nat, len: nat, st: State)
    ensures Fine(AllVerdict(x, start, len, st), Aligned(x) && RangeOk(start, len, |x.matchers|))
    ensures Fine(AnyVerdict(x, start, len, st), Aligned(x) && RangeOk(start, len, |x.matchers|))
  {
    hide EvaluateAll, EvaluateAny;
    if MatcherRangeOk(x, start, len) {
      EvaluateAllFine(x.engine, x.matchers[start..start + len], x.matcherRegex[start..start + len], st.responses);
      EvaluateAnyFine(x.engine, x.matchers[start..start + len], x.matcherRegex[start..start + len], st.responses);
    }
  }

  /** The executor's tables line up, its pools are of 32-bit size, and the operands are in range. */
  predicate InRange(x: Executor, i: Instr) { Aligned(x) && |x.strings| < U32_LIMIT && InstrOk(x, i) }

  /** A basic instruction panics only on an operand out of range, and raises no control-flow error. */
  lemma BasicFine(x: Executor, i: Instr, st: State)
    requires IsBasic(i)
    ensures Fine(ExecBasic(x, i, st), InRange(x, i))
  {
    hide Interpolate, ListValues, SendProbe, RetrySend, AllVerdict, AnyVerdict, MatchesIdx, ExtractValue,
      CollectEvidence;
    match i
    case Set(name, value) => if value < |x.strings| { InterpolateFailsOnLists(x.strings[value], st.variables); }
    case SetList(_, start, len) => ListValuesFine(x, start, len, st);
    case Send(probe, payload) =>
      if probe < |x.strings| && PayloadOverride(x, payload).Ok? {
        SendFine(x, x.strings[probe], PayloadOverride(x, payload).value, st);
      }
    case Match(m) => MatchesFine(x, m, st);
    case MatchAll(start, len) => MatcherRangeFine(x, start, len, st);
    case MatchAny(start, len) => MatcherRangeFine(x, start, len, st);
    case Assert(m) => MatchesFine(x, m, st);
    case Extract(name, source) =>
      if name < |x.strings| && source < |x.extracts| {
        ExtractFine(x, x.strings[name], x.extracts[source], source, st);
      }
    case Evidence(k) => EvidenceFine(x, k, st);
    case Retry(probe, count) => if probe < |x.strings| { RetryFine(x, x.strings[probe], count, None, st); }
    case _ =>
  }

  lemma ForFine(x: Executor, i: Instr, st: State)
    requires i.ForList? || i.ForVar?
    ensures Fine(LoopValues(x, i, st), InRange(x, i))
  {
    if i.ForList? {
      ListValuesFine(x, i.start, i.len, st);
    }
  }

  /** One step from any running state, at any program counter. */
  lemma StepIsSafe(x: Executor, code: seq<Instr>, m: Machine)
    requires Loaded(x, code) && m != Failed(Panic)
    ensures Step(x, code, m) != Failed(Panic)
  {
    hide ExecBasic, LoopValues, MatchesIdx;
    if m.Running? && m.pc < |code| {
      var i := code[m.pc];
      assert InstrOk(x, i);
      if IsBasic(i) {
        BasicFine(x, i, m.st);
      } else if i.ForList? || i.ForVar? {
        ForFine(x, i, m.st);
      } else if i.IfMatch? {
        MatchesFine(x, i.matcher, m.st);
      }
    }
  }

  // ---------- nothing is refused that would not panic ----------

  /** Instructions that are passed over once a match has failed. */
  predicate Skipped(i: Instr) {
    i.Match? || i.MatchAll? || i.MatchAny? || i.Assert? || i.Extract? || i.Evidence? || i.IfMatch?
  }

  predicate SizesFit(x: Executor) { Aligned(x) && |x.strings| < U32_LIMIT }

  /** Any operand that validation refuses is an index out of range when its instruction is executed. */
  lemma RefusedPanics(x: Executor, i: Instr, st: State)
    requires IsBasic(i) && SizesFit(x) && !InstrOk(x, i)
    ensures st.matched || !Skipped(i) ==> ExecBasic(x, i, st) == Err(Panic)
    ensures !st.matched && Skipped(i) ==> ExecBasic(x, i, st) == Ok(st)
  {
    hide Interpolate, InterpolateAll, SendProbe, RetrySend, ExtractValue, EvidenceSource, EvaluateAll, EvaluateAny,
      EvaluateTarget;
  }

  lemma RefusedLoopPanics(x: Executor, i: Instr, pc: nat, st: State, stack: seq<LoopFrame>)
    requires (i.ForList? || i.ForVar?) && SizesFit(x) && !InstrOk(x, i)
    ensures StepFor(x, i, pc, st, stack) == Failed(Panic)
  {
    hide InterpolateAll, EnterForeach;
  }

  /** One step panics exactly when validation refuses the instruction, unless a failed match passes it over. */
  lemma StepPanicsIff(x: Executor, code: seq<Instr>, m: Machine)
    requires SizesFit(x) && m.Running? && m.pc < |code|
    ensures Step(x, code, m) == Failed(Panic) <==>
              !InstrOk(x, code[m.pc]) && (m.st.matched || !Skipped(code[m.pc]))
  {
    hide ExecBasic, LoopValues, OperandsOk, EvaluateTarget;
    var i := code[m.pc];
    if IsBasic(i) {
      BasicFine(x, i, m.st);
      if !InstrOk(x, i) {
        RefusedPanics(x, i, m.st);
      }
    } else if i.ForList? || i.ForVar? {
      ForFine(x, i, m.st);
      LoopOperand(x, i);
      if !InstrOk(x, i) {
        RefusedLoopPanics(x, i, m.pc, m.st, m.stack);
      }
    } else if i.IfMatch? {
      IfOperand(x, i);
      MatchesFine(x, i.matcher, m.st);
    } else {
      NoOperand(x, i);
    }
  }

  lemma IfOperand(x: Executor, i: Instr)
    requires i.IfMatch?
    ensures InstrOk(x, i) <==> i.matcher < |x.matchers|
  {
  }

  lemma LoopOperand(x: Executor, i: Instr)
    requires i.ForList? || i.ForVar?
    ensures InstrOk(x, i) ==> i.item < |x.strings|
  {
  }

  lemma NoOperand(x: Executor, i: Instr)
    requires !IsBasic(i) && !i.ForList? && !i.ForVar? && !i.IfMatch?
    ensures InstrOk(x, i)
  {
  }

  /** No state a loaded program can reach is a panic; nesting and jump targets do not matter. */
  lemma {:induction false} NeverPanics(x: Executor, code: seq<Instr>, m: Machine, n: nat)
    requires Loaded(x, code) && m != Failed(Panic)
    ensures Iterate(x, code, m, n) != Failed(Panic)
    decreases n
  {
    hide Step;
    if n > 0 {
      StepIsSafe(x, code, m);
      NeverPanics(x, code, Step(x, code, m), n - 1);
    }
  }

  /** Nor does a run under a budget end in a panic. */
  lemma {:induction false} RunNeverPanics(x: Executor, code: seq<Instr>, m: Machine, budget: nat)
    requires Loaded(x, code) && m != Failed(Panic)
    ensures Run(x, code, m, budget) != Err(Panic)
    decreases budget
  {
    hide Step;
    if m.Running? && m.pc < |code| && budget > 0 {
      StepIsSafe(x, code, m);
      RunNeverPanics(x, code, Step(x, code, m), budget - 1);
    }
  }

  // ---------- the budget error ----------

  const OVER_BUDGET: RuntimeError := Other(OverBudget)

  /** No instruction raises the budget's error itself, whatever the code and the executor. */
  lemma StepWithinBudget(x: Executor, code: seq<Instr>, m: Machine)
    requires m != Failed(OVER_BUDGET)
    ensures Step(x, code, m) != Failed(OVER_BUDGET)
  {
    hide ExecBasic, LoopValues, MatchesIdx, InRange;
    if m.Running? && m.pc < |code| {
      var i := code[m.pc];
      if IsBasic(i) {
        BasicFine(x, i, m.st);
      } else if i.ForList? || i.ForVar? {
        ForFine(x, i, m.st);
      } else if i.IfMatch? {
        MatchesFine(x, i.matcher, m.st);
      }
    }
  }

  lemma {:induction false} NeverOverBudget(x: Executor, code: seq<Instr>, m: Machine, n: nat)
    requires m != Failed(OVER_BUDGET)
    ensures Iterate(x, code, m, n) != Failed(OVER_BUDGET)
    decreases n
  {
    hide Step;
    if n > 0 {
      StepWithinBudget(x, code, m);
      NeverOverBudget(x, code, Step(x, code, m), n - 1);
    }
  }
}
