/** Properties of whole runs, on any code: the match latch and the finding, retries, one send. */
module Runs {
  import opened Prelude
  import opened Contract
  import opened Runtime
  import opened Matcher
  import opened Targets
  import opened Vm

  // ---------- what a run does, instruction by instruction ----------

  datatype Event = Silent | MatchPassed | MatchFailed | Collected(text: Str) | Stopped

  function VerdictEvent(matched: bool, verdict: Checked<bool>): Event {
    if !matched || verdict.Err? then Silent else if verdict.value then MatchPassed else MatchFailed
  }

  /** What the instruction about to run will do; matches that are skipped do not count as evaluated. */
  function EventOf(x: Executor, code: seq<Instr>, m: Machine): Event {
    if !m.Running? || m.pc >= |code| then Silent
    else
      match code[m.pc]
      case Match(i) => VerdictEvent(m.st.matched, MatchesIdx(x, i, m.st))
      case MatchAll(start, len) => VerdictEvent(m.st.matched, AllVerdict(x, start, len, m.st))
      case MatchAny(start, len) => VerdictEvent(m.st.matched, AnyVerdict(x, start, len, m.st))
      case Evidence(k) =>
        if m.st.matched && CollectEvidence(x, k, m.st).Ok? then Collected(CollectEvidence(x, k, m.st).value) else Silent
      case Stop => Stopped
      case _ => Silent
  }

  function Events(x: Executor, code: seq<Instr>, m: Machine, n: nat): (r: seq<Event>)
    ensures |r| == n
    decreases n
  {
    if n == 0 then [] else [EventOf(x, code, m)] + Events(x, code, Step(x, code, m), n - 1)
  }

  function Texts(events: seq<Event>): seq<Str> {
    if events == [] then []
    else (if events[0].Collected? then [events[0].text] else []) + Texts(events[1..])
  }

  function StateOf(m: Machine): State
    requires !m.Failed?
  {
    if m.Running? then m.st else m.final
  }

  predicate LogStep(a: State, e: Event, b: State) {
    && b.matched == (a.matched && e != MatchFailed)
    && b.emitFinding == (a.emitFinding && e != Stopped)
    && b.evidence == a.evidence + (if e.Collected? then [e.text] else [])
    && (!a.matched ==> !e.Collected? && e != MatchPassed && e != MatchFailed)
  }

  lemma BasicLog(x: Executor, code: seq<Instr>, m: Machine)
    requires m.Running? && m.pc < |code| && IsBasic(code[m.pc]) && ExecBasic(x, code[m.pc], m.st).Ok?
    ensures LogStep(m.st, EventOf(x, code, m), ExecBasic(x, code[m.pc], m.st).value)
  {
    hide MatchesIdx, AllVerdict, AnyVerdict, CollectEvidence, SendProbe, RetrySend, ExtractValue, ListValues;
  }

  lemma StepLog(x: Executor, code: seq<Instr>, m: Machine)
    requires !m.Failed? && !Step(x, code, m).Failed?
    ensures LogStep(StateOf(m), EventOf(x, code, m), StateOf(Step(x, code, m)))
  {
    hide ExecBasic, MatchesIdx, AllVerdict, AnyVerdict, CollectEvidence, LoopValues;
    if m.Running? && m.pc < |code| && IsBasic(code[m.pc]) {
      BasicLog(x, code, m);
    }
  }

  lemma {:induction false} FailedStays(x: Executor, code: seq<Instr>, m: Machine, n: nat)
    requires m.Failed?
    ensures Iterate(x, code, m, n).Failed?
  {
    hide Step;
    IterateHalted(x, code, m, n);
  }

  /** The latch, the stop flag and the evidence are exactly what the events say, over any stretch of a run. */
  lemma {:induction false} RunLog(x: Executor, code: seq<Instr>, m: Machine, n: nat)
    requires !Iterate(x, code, m, n).Failed?
    ensures !m.Failed?
    ensures var a, b, es := StateOf(m), StateOf(Iterate(x, code, m, n)), Events(x, code, m, n);
            && b.matched == (a.matched && MatchFailed !in es)
            && b.emitFinding == (a.emitFinding && Stopped !in es)
            && b.evidence == a.evidence + Texts(es)
            && (!a.matched ==> forall e | e in es :: !e.Collected? && e != MatchPassed && e != MatchFailed)
    decreases n
  {
    hide Step, EventOf;
    if n > 0 {
      var m' := Step(x, code, m);
      if m.Failed? {
        FailedStays(x, code, m, n);
      } else if m'.Failed? {
        FailedStays(x, code, m', n - 1);
      } else {
        StepLog(x, code, m);
        RunLog(x, code, m', n - 1);
        var es, rest := Events(x, code, m, n), Events(x, code, m', n - 1);
        assert es[1..] == rest && es == [es[0]] + rest;
      }
    }
  }

  /** Once a match has failed, nothing is matched and no evidence is added any more. */
  lemma {:induction false} NothingAfterFailure(x: Executor, code: seq<Instr>, m: Machine, n: nat, i: nat, j: nat)
    requires !Iterate(x, code, m, n).Failed? && i < j < n && Events(x, code, m, n)[i] == MatchFailed
    ensures !Events(x, code, m, n)[j].Collected?
    ensures Events(x, code, m, n)[j] != MatchPassed && Events(x, code, m, n)[j] != MatchFailed
    decreases i
  {
    hide Step, EventOf;
    RunLog(x, code, m, n);
    var m' := Step(x, code, m);
    if m'.Failed? {
      FailedStays(x, code, m', n - 1);
    }
    var rest := Events(x, code, m', n - 1);
    if i == 0 {
      StepLog(x, code, m);
      RunLog(x, code, m', n - 1);
      assert rest[j - 1] in rest;
    } else {
      NothingAfterFailure(x, code, m', n - 1, i - 1, j - 1);
    }
  }

  /** A successful run is the machine's steps up to its end. */
  lemma {:induction false} RunSteps(x: Executor, code: seq<Instr>, m: Machine, budget: nat) returns (n: nat)
    requires Run(x, code, m, budget).Ok?
    ensures n <= budget && !Iterate(x, code, m, n).Failed? && Ended(code, Iterate(x, code, m, n))
    ensures StateOf(Iterate(x, code, m, n)) == Run(x, code, m, budget).value
    decreases budget
  {
    hide Step;
    if m.Running? && m.pc < |code| {
      var k := RunSteps(x, code, Step(x, code, m), budget - 1);
      n := k + 1;
    } else {
      n := 0;
    }
  }

  /** The finding of a completed run, told from the events of all its steps: it exists exactly when the
      check is named, no `stop` was executed and every match evaluated passed; its evidence is the collected
      texts in order. */
  lemma FindingOfRun(x: Executor, code: seq<Instr>, budget: nat) returns (n: nat)
    requires Run(x, code, InitialMachine(x), budget).Ok?
    ensures n <= budget
    ensures var m := Iterate(x, code, InitialMachine(x), n);
            Ended(code, m) && !m.Failed? && StateOf(m) == Run(x, code, InitialMachine(x), budget).value
    ensures var es := Events(x, code, InitialMachine(x), n);
            var f := FinalizeFinding(x.spec.metadata, Run(x, code, InitialMachine(x), budget).value);
            && (f.Some? <==> x.spec.metadata.name.Some? && Stopped !in es && MatchFailed !in es)
            && (f.Some? ==> f.value == Finding(x.spec.metadata.name.value, x.spec.metadata, Texts(es)))
  {
    hide Step, Events, Texts, Run;
    n := RunSteps(x, code, InitialMachine(x), budget);
    RunLog(x, code, InitialMachine(x), n);
    var es := Events(x, code, InitialMachine(x), n);
    assert [] + Texts(es) == Texts(es);
  }

  /** A run that is not over after as many instructions as its budget allows ends with the budget's error. */
  lemma {:induction false} BudgetExhausted(x: Executor, code: seq<Instr>, m: Machine, budget: nat)
    requires !Ended(code, Iterate(x, code, m, budget))
    ensures Run(x, code, m, budget) == Err(Other(OverBudget))
    decreases budget
  {
    hide Step;
    if budget > 0 {
      if !m.Running? {
        IterateHalted(x, code, m, budget);
      } else if m.pc >= |code| {
        PastTheEnd(x, code, m);
        IterateHalted(x, code, Step(x, code, m), budget - 1);
      } else {
        BudgetExhausted(x, code, Step(x, code, m), budget - 1);
      }
    }
  }

  lemma PastTheEnd(x: Executor, code: seq<Instr>, m: Machine)
    requires m.Running? && m.pc >= |code|
    ensures Step(x, code, m) == Finished(m.st)
  {
    hide StepInstr;
  }

  // ---------- retries ----------

  /** The state after `k` attempts, all of them failing. */
  function AfterAttempts(x: Executor, name: Str, st: State, k: nat): State {
    if k == 0 then st else SendProbe(x, name, None, AfterAttempts(x, name, st, k - 1)).st
  }

  function Attempt(x: Executor, name: Str, st: State, k: nat): Sent {
    SendProbe(x, name, None, AfterAttempts(x, name, st, k))
  }

  lemma {:induction false} AttemptsShift(x: Executor, name: Str, st: State, k: nat)
    ensures AfterAttempts(x, name, SendProbe(x, name, None, st).st, k) == AfterAttempts(x, name, st, k + 1)
  {
    hide SendProbe;
    if k > 0 {
      AttemptsShift(x, name, st, k - 1);
    }
  }

  lemma WireGrowsByOne(x: Executor, name: Str, over: Option<seq<byte>>, st: State)
    ensures |SendProbe(x, name, over, st).st.wire| <= |st.wire| + 1
  {
    hide SendProbe;
    SendIsOneExchange(x, name, over, st);
  }

  /** `retry` makes at most `count` attempts, returns at the first success, else with the last error. */
  lemma {:induction false} RetryMeaning(
    x: Executor, name: Str, count: nat, last: Option<RuntimeError>, st: State) returns (k: nat)
    ensures k <= count
    ensures forall i | 0 <= i < k :: Attempt(x, name, st, i).result.Err?
    ensures k < count ==>
              Attempt(x, name, st, k).result.Ok? && RetrySend(x, name, count, last, st) == Attempt(x, name, st, k)
    ensures k == count ==>
              && RetrySend(x, name, count, last, st).st == AfterAttempts(x, name, st, count)
              && RetrySend(x, name, count, last, st).result
                 == (if count > 0 then Attempt(x, name, st, count - 1).result
                     else Err(if last.Some? then last.value else Other(RetryFailed(name))))
    ensures |RetrySend(x, name, count, last, st).st.wire| <= |st.wire| + count
    decreases count
  {
    hide SendProbe;
    k := 0;
    if count > 0 {
      WireGrowsByOne(x, name, None, st);
      var s := SendProbe(x, name, None, st);
      assert Attempt(x, name, st, 0) == s;
      if s.result.Err? {
        var j := RetryMeaning(x, name, count - 1, Some(s.result.error), s.st);
        forall i: nat ensures Attempt(x, name, s.st, i) == Attempt(x, name, st, i + 1) {
          AttemptsShift(x, name, st, i);
        }
        AttemptsShift(x, name, st, count - 1);
        k := j + 1;
        forall i | 0 <= i < k ensures Attempt(x, name, st, i).result.Err? {
          assert i > 0 ==> Attempt(x, name, s.st, i - 1) == Attempt(x, name, st, i);
        }
        assert k < count ==> Attempt(x, name, s.st, j) == Attempt(x, name, st, k);
        assert count > 1 ==> Attempt(x, name, s.st, count - 2) == Attempt(x, name, st, count - 1);
      }
    }
  }

  // ---------- one send ----------

  /** What the k-th exchange of a run brought: the network's k-th answer to what the record says was asked. */
  function ReplyAt(x: Executor, e: Exchange, k: nat): Option<ProbeResponse> {
    match e
    case HttpExchange(_, _) =>
      if x.net.http(k).Ok? then Some(HttpReply(x.net.http(k).value)) else None
    case Resolution(_, host, _) =>
      if x.net.resolve(k).Ok? then Some(DnsReply(host, x.net.resolve(k).value)) else None
    case SocketExchange(_, _, host, port, _, _, _) =>
      if x.net.exchange(k).Ok? then Some(SocketReply(SocketResponse(host, port, x.net.exchange(k).value))) else None
  }

  /** A TCP or UDP probe that keeps its session. */
  predicate SessionProbe(x: Executor, name: Str) {
    && name in x.spec.probes && (x.spec.probes[name].Tcp? || x.spec.probes[name].Udp?)
    && x.spec.probes[name].socket.session
  }

  /** The record fits its probe's kind and tells whether the exchange succeeded and what it brought. */
  predicate Honest(x: Executor, e: Exchange, k: nat) {
    && e.probe in x.spec.probes
    && var kind := x.spec.probes[e.probe];
       match e
       case HttpExchange(_, ok) => kind.Http? && ok == x.net.http(k).Ok?
       case Resolution(_, _, ok) => kind.Dns? && ok == x.net.resolve(k).Ok?
       case SocketExchange(_, transport, _, _, _, _, data) =>
         && !kind.Http? && (transport.OverTcp? <==> kind.Tcp?)
         && data == if x.net.exchange(k).Ok? then Some(x.net.exchange(k).value) else None
  }

  /** Probes whose socket data piles up: those declared with a session. */
  predicate Accumulates(x: Executor, name: Str) {
    name in x.spec.probes && !x.spec.probes[name].Http? && x.spec.probes[name].socket.session
  }

  /** What is stored after `r` has arrived and `before` was. */
  function Merged(accumulates: bool, before: Option<ProbeResponse>, r: ProbeResponse): ProbeResponse {
    if accumulates && r.SocketReply? && before.Some? && before.value.SocketReply? then
      SocketReply(before.value.socket.(data := before.value.socket.data + r.socket.data))
    else r
  }

  function StoredUnder(responses: Responses, name: Str): Option<ProbeResponse> {
    if name in responses then Some(responses[name]) else None
  }

  /** A socket exchange reuses the session its probe has open, and leaves one open when it succeeds. */
  predicate SessionUsed(x: Executor, e: Exchange, before: map<Str, Transport>, after: map<Str, Transport>, ok: bool) {
    if e.SocketExchange? then
      && (e.reused <==> SessionProbe(x, e.probe) && e.probe in before && before[e.probe] == e.transport)
      && after == if SessionProbe(x, e.probe) && ok then before[e.probe := e.transport] else before
    else after == before
  }

  /** Nothing went out and the send failed, or one record was added whose reply, if there is one, is stored. */
  predicate OneExchange(x: Executor, probe: Str, st: State, s: Sent) {
    if s.st.wire == st.wire then
      s.result.Err? && s.st.responses == st.responses && s.st.sessions == st.sessions
    else
      var k := |st.wire|;
      && |s.st.wire| == k + 1
      && var e := s.st.wire[k];
         && s.st.wire == st.wire + [e] && e.probe == probe && Honest(x, e, k)
         && SessionUsed(x, e, st.sessions, s.st.sessions, s.result.Ok?)
         && match ReplyAt(x, e, k)
            case None => s.result.Err? && s.result.error.Transport? && s.st.responses == st.responses
            case Some(r) =>
              && s.result.Ok?
              && s.st.responses
                 == st.responses[probe := Merged(Accumulates(x, probe), StoredUnder(st.responses, probe), r)]
  }

  lemma ExchangeRecorded(
    x: Executor, name: Str, transport: Transport, host: Str, port: u16,
    payload: Option<seq<byte>>, keep: bool, st: State)
    requires name in x.spec.probes && !x.spec.probes[name].Http? && keep == SessionProbe(x, name)
    requires transport.OverTcp? <==> x.spec.probes[name].Tcp?
    ensures OneExchange(x, name, st, ExchangeSocket(x, name, transport, host, port, payload, keep, st))
  {
    var s := ExchangeSocket(x, name, transport, host, port, payload, keep, st);
    assert s.st.wire[|st.wire|].probe == name;
  }

  lemma HttpRecorded(x: Executor, name: Str, st: State)
    requires name in x.spec.probes && x.spec.probes[name].Http?
    ensures OneExchange(x, name, st, SendHttp(x, name, st))
  {
    var s := SendHttp(x, name, st);
    assert s.st.wire[|st.wire|].probe == name;
  }

  lemma ResolveRecorded(x: Executor, name: Str, host: Str, st: State)
    requires name in x.spec.probes && x.spec.probes[name].Dns?
    ensures OneExchange(x, name, st, Resolve(x, name, host, st))
  {
    var s := Resolve(x, name, host, st);
    assert s.st.wire[|st.wire|].probe == name;
  }

  /** A send makes at most one exchange; it succeeds exactly when the network answers it, and then the answer
      is what it stores. */
  lemma SendIsOneExchange(x: Executor, name: Str, over: Option<seq<byte>>, st: State)
    ensures OneExchange(x, name, st, SendProbe(x, name, over, st))
  {
    hide ExchangeSocket, SendHttp, Resolve, OneExchange, InterpolatePayload;
    forall e ensures OneExchange(x, name, st, Sent(Err(e), st)) {
      NoExchange(x, name, st, e);
    }
    if name in x.spec.probes {
      var kind := x.spec.probes[name];
      if kind.Http? {
        HttpRecorded(x, name, st);
      } else {
        var transport := if kind.Tcp? then OverTcp else OverUdp;
        forall host, port, payload, keep | keep == SessionProbe(x, name)
          ensures OneExchange(x, name, st, ExchangeSocket(x, name, transport, host, port, payload, keep, st))
        {
          ExchangeRecorded(x, name, transport, host, port, payload, keep, st);
        }
        if kind.Dns? {
          forall host ensures OneExchange(x, name, st, Resolve(x, name, host, st)) {
            ResolveRecorded(x, name, host, st);
          }
        }
      }
    }
  }

  lemma NoExchange(x: Executor, name: Str, st: State, e: RuntimeError)
    ensures OneExchange(x, name, st, Sent(Err(e), st))
  {
  }

  // ---------- extraction ----------

  /** An extraction binds one variable: to the capture of its pattern or the whole body, never empty, or
      to a header's value, which may be. */
  lemma ExtractMeaning(x: Executor, name: u32, source: u32, st: State)
    requires st.matched && ExecExtract(x, name, source, st).Ok?
    requires Aligned(x) && CompiledFrom(x)
    ensures name < |x.strings| && source < |x.extracts|
    ensures var e := x.extracts[source];
            && e.target in st.responses && st.responses[e.target].HttpReply?
            && exists v ::
              && ExecExtract(x, name, source, st) == Ok(st.(variables := st.variables[x.strings[name] := Text(v)]))
              && match e
                 case FromBody(target, regex) =>
                   var body := st.responses[target].http.body;
                   v != [] && (if regex.Some? then x.engine.capture(regex.value, body) == Some(v) else v == body)
                 case FromHeader(target, header) =>
                   LookupHeader(st.responses[target].http.headers, header) == Some(v)
  {
    hide LookupHeader;
    var v := ExtractValue(x, x.strings[name], x.extracts[source], source, st).value;
    assert ExecExtract(x, name, source, st) == Ok(SetText(st, x.strings[name], v));
  }
}
