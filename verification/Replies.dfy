/** What a run stores and what it puts on the wire: every stored response is told from the exchanges made, at
    every point of every run. */
module Replies {
  import opened Prelude
  import opened Contract
  import opened Runtime
  import opened Template
  import opened Targets
  import opened Vm
  import opened Runs
  import Utf8

  // ---------- what is told by the wire ----------

  /** What stands under a probe's name after the exchanges of `wire`: the last reply, or for a probe with a
      session the last run of socket replies put together. */
  function Told(x: Executor, wire: seq<Exchange>, name: Str): Option<ProbeResponse> {
    if wire == [] then None
    else
      var k := |wire| - 1;
      var before := Told(x, wire[..k], name);
      if wire[k].probe != name then before
      else
        match ReplyAt(x, wire[k], k)
        case None => before
        case Some(r) => Some(Merged(Accumulates(x, name), before, r))
  }

  predicate HonestWire(x: Executor, wire: seq<Exchange>) {
    forall k | 0 <= k < |wire| :: Honest(x, wire[k], k)
  }

  predicate SuccessOf(e: Exchange, name: Str) {
    e.SocketExchange? && e.probe == name && e.data.Some?
  }

  predicate AnySuccess(wire: seq<Exchange>, name: Str) {
    exists e | e in wire :: SuccessOf(e, name)
  }

  /** The session of `name` is open once one of its exchanges has succeeded, and used from then on. */
  predicate SessionTold(x: Executor, name: Str, st: State) {
    && (name in st.sessions <==> SessionProbe(x, name) && AnySuccess(st.wire, name))
    && (name in st.sessions ==> (st.sessions[name].OverTcp? <==> x.spec.probes[name].Tcp?))
    && forall k | 0 <= k < |st.wire| && st.wire[k].SocketExchange? && st.wire[k].probe == name ::
         st.wire[k].reused <==> SessionProbe(x, name) && AnySuccess(st.wire[..k], name)
  }

  /** The invariant for one name; `kept` when the code saves nothing under it. */
  predicate Consistent(x: Executor, name: Str, kept: bool, st: State) {
    && HonestWire(x, st.wire)
    && SessionTold(x, name, st)
    && (kept ==> StoredUnder(st.responses, name) == Told(x, st.wire, name))
  }

  // ---------- one send ----------

  lemma ToldSnoc(x: Executor, wire: seq<Exchange>, e: Exchange, name: Str)
    ensures Told(x, wire + [e], name)
         == var r := ReplyAt(x, e, |wire|);
            if e.probe == name && r.Some?
            then Some(Merged(Accumulates(x, name), Told(x, wire, name), r.value)) else Told(x, wire, name)
    ensures AnySuccess(wire + [e], name) <==> AnySuccess(wire, name) || SuccessOf(e, name)
  {
    hide Merged, Accumulates, ReplyAt;
    assert (wire + [e])[..|wire|] == wire && (wire + [e])[|wire|] == e;
  }

  lemma SessionSnoc(x: Executor, name: Str, probe: Str, st: State, s: Sent)
    requires SessionTold(x, name, st) && OneExchange(x, probe, st, s)
    ensures SessionTold(x, name, s.st)
  {
    hide AnySuccess, ReplyAt, Merged;
    if s.st.wire != st.wire {
      var k := |st.wire|;
      var e := s.st.wire[k];
      ToldSnoc(x, st.wire, e, name);
      assert s.st.wire[..k] == st.wire;
      assert forall j | 0 <= j < k :: s.st.wire[j] == st.wire[j] && s.st.wire[..j] == st.wire[..j];
      if e.SocketExchange? {
        ResultTold(x, e, k);
      }
    }
  }

  lemma ResultTold(x: Executor, e: Exchange, k: nat)
    requires e.SocketExchange? && Honest(x, e, k)
    ensures ReplyAt(x, e, k).Some? <==> e.data.Some?
  {
  }

  lemma SendKeeps(x: Executor, name: Str, kept: bool, probe: Str, over: Option<seq<byte>>, st: State)
    requires Consistent(x, name, kept, st)
    ensures Consistent(x, name, kept, SendProbe(x, probe, over, st).st)
  {
    hide SendProbe, SessionTold, Told, Honest, Merged, ReplyAt, Accumulates;
    SendIsOneExchange(x, probe, over, st);
    var s := SendProbe(x, probe, over, st);
    SessionSnoc(x, name, probe, st, s);
    if s.st.wire != st.wire {
      ToldSnoc(x, st.wire, s.st.wire[|st.wire|], name);
    }
  }

  lemma {:induction false} RetryKeeps(
    x: Executor, name: Str, kept: bool, probe: Str, left: nat, last: Option<RuntimeError>, st: State)
    requires Consistent(x, name, kept, st)
    ensures Consistent(x, name, kept, RetrySend(x, probe, left, last, st).st)
    decreases left
  {
    hide SendProbe, Consistent;
    if left > 0 {
      SendKeeps(x, name, kept, probe, None, st);
      var s := SendProbe(x, probe, None, st);
      if s.result.Err? {
        RetryKeeps(x, name, kept, probe, left - 1, Some(s.result.error), s.st);
      }
    }
  }

  // ---------- whole runs ----------

  /** No instruction of the code saves a response under `name`. */
  predicate NeverSavedTo(x: Executor, code: seq<Instr>, name: Str) {
    forall i | i in code && i.Save? && i.to < |x.strings| :: x.strings[i.to] != name
  }

  lemma SameNetwork(x: Executor, name: Str, kept: bool, st: State, st': State)
    requires Consistent(x, name, kept, st) && st'.wire == st.wire && st'.sessions == st.sessions
    requires kept ==> StoredUnder(st'.responses, name) == StoredUnder(st.responses, name)
    ensures Consistent(x, name, kept, st')
  {
    hide Told, HonestWire;
  }

  lemma BasicKeeps(x: Executor, i: Instr, name: Str, kept: bool, st: State)
    requires IsBasic(i) && ExecBasic(x, i, st).Ok? && Consistent(x, name, kept, st)
    requires kept && i.Save? && i.to < |x.strings| ==> x.strings[i.to] != name
    ensures Consistent(x, name, kept, ExecBasic(x, i, st).value)
  {
    hide MatchesIdx, AllVerdict, AnyVerdict, CollectEvidence, SendProbe, RetrySend, ExtractValue, ListValues,
      Consistent;
    if i.Send? {
      SendKeeps(x, name, kept, x.strings[i.probe], PayloadOverride(x, i.payload).value, st);
    } else if i.Retry? {
      RetryKeeps(x, name, kept, x.strings[i.probe], i.count, None, st);
    } else {
      SameNetwork(x, name, kept, st, ExecBasic(x, i, st).value);
    }
  }

  lemma StepKeepsStored(x: Executor, code: seq<Instr>, name: Str, kept: bool, m: Machine)
    requires kept ==> NeverSavedTo(x, code, name)
    requires !m.Failed? && Consistent(x, name, kept, StateOf(m)) && !Step(x, code, m).Failed?
    ensures Consistent(x, name, kept, StateOf(Step(x, code, m)))
  {
    hide ExecBasic, MatchesIdx, LoopValues, Consistent;
    if m.Running? && m.pc < |code| {
      assert code[m.pc] in code;
      if IsBasic(code[m.pc]) {
        BasicKeeps(x, code[m.pc], name, kept, m.st);
      } else {
        SameNetwork(x, name, kept, m.st, StateOf(Step(x, code, m)));
      }
    }
  }

  lemma {:induction false} RunKeepsStored(x: Executor, code: seq<Instr>, name: Str, kept: bool, m: Machine, n: nat)
    requires kept ==> NeverSavedTo(x, code, name)
    requires !m.Failed? && Consistent(x, name, kept, StateOf(m)) && !Iterate(x, code, m, n).Failed?
    ensures Consistent(x, name, kept, StateOf(Iterate(x, code, m, n)))
    decreases n
  {
    hide Step, Consistent, NeverSavedTo;
    if n > 0 {
      var m' := Step(x, code, m);
      if m'.Failed? {
        FailedStays(x, code, m', n - 1);
      } else {
        StepKeepsStored(x, code, name, kept, m);
        RunKeepsStored(x, code, name, kept, m', n - 1);
      }
    }
  }

  /** The state a run from the beginning is in after `n` steps that did not fail. */
  function At(x: Executor, code: seq<Instr>, n: nat): State
    requires !Iterate(x, code, InitialMachine(x), n).Failed?
  {
    StateOf(Iterate(x, code, InitialMachine(x), n))
  }

  lemma RunIsConsistent(x: Executor, code: seq<Instr>, name: Str, n: nat)
    requires !Iterate(x, code, InitialMachine(x), n).Failed?
    ensures Consistent(x, name, NeverSavedTo(x, code, name), At(x, code, n))
  {
    hide Step, NeverSavedTo, InjectScanTarget;
    RunKeepsStored(x, code, name, NeverSavedTo(x, code, name), InitialMachine(x), n);
  }

  /** The last exchange of a probe that was answered. */
  function LastAnswered(x: Executor, wire: seq<Exchange>, name: Str): (r: Option<nat>)
    ensures r.Some? ==> r.value < |wire| && wire[r.value].probe == name && ReplyAt(x, wire[r.value], r.value).Some?
    ensures forall k | 0 <= k < |wire| && (r.Some? ==> r.value < k) ::
              wire[k].probe != name || ReplyAt(x, wire[k], k).None?
  {
    if wire == [] then None
    else
      var k := |wire| - 1;
      if wire[k].probe == name && ReplyAt(x, wire[k], k).Some? then Some(k) else LastAnswered(x, wire[..k], name)
  }

  lemma {:induction false} ToldIsLast(x: Executor, wire: seq<Exchange>, name: Str)
    requires !Accumulates(x, name)
    ensures Told(x, wire, name)
         == match LastAnswered(x, wire, name) case None => None case Some(k) => ReplyAt(x, wire[k], k)
  {
    hide Accumulates, ReplyAt;
    if wire != [] {
      ToldIsLast(x, wire[..|wire| - 1], name);
    }
  }

  /** At every point of every run, what is stored for a probe without a session is the reply of its last
      exchange that was answered, as the network gave it; nothing is stored when none was. */
  lemma StoredIsLastReply(x: Executor, code: seq<Instr>, name: Str, n: nat)
    requires NeverSavedTo(x, code, name) && !Accumulates(x, name)
    requires !Iterate(x, code, InitialMachine(x), n).Failed?
    ensures var st := At(x, code, n);
            match LastAnswered(x, st.wire, name)
            case None => name !in st.responses
            case Some(k) =>
              && name in st.responses
              && match st.wire[k]
                 case HttpExchange(_, _) =>
                   st.responses[name].HttpReply? && x.net.http(k) == Ok(st.responses[name].http)
                 case Resolution(_, host, _) =>
                   st.responses[name].DnsReply? && st.responses[name].host == host
                   && x.net.resolve(k) == Ok(st.responses[name].answers)
                 case SocketExchange(_, _, host, port, _, _, _) =>
                   && st.responses[name].SocketReply? && x.net.exchange(k).Ok?
                   && st.responses[name].socket == SocketResponse(host, port, x.net.exchange(k).value)
  {
    hide At, Told, NeverSavedTo, Accumulates, HonestWire, SessionTold, Iterate, LastAnswered;
    RunIsConsistent(x, code, name, n);
    ToldIsLast(x, At(x, code, n).wire, name);
  }

  // ---------- sessions ----------

  /** All bytes received in successful exchanges of one probe, in order. */
  function Chunks(wire: seq<Exchange>, name: Str): seq<byte> {
    if wire == [] then []
    else
      var e := wire[|wire| - 1];
      Chunks(wire[..|wire| - 1], name) + (if SuccessOf(e, name) then e.data.value else [])
  }

  lemma {:induction false} ToldIsChunks(x: Executor, wire: seq<Exchange>, name: Str)
    requires SessionProbe(x, name) && HonestWire(x, wire)
    requires forall k | 0 <= k < |wire| && wire[k].probe == name :: wire[k].SocketExchange?
    ensures if AnySuccess(wire, name)
            then Told(x, wire, name).Some? && Told(x, wire, name).value.SocketReply?
                 && Told(x, wire, name).value.socket.data == Chunks(wire, name)
            else Told(x, wire, name).None? && Chunks(wire, name) == []
  {
    if wire != [] {
      var k := |wire| - 1;
      var init, e := wire[..k], wire[k];
      ToldIsChunks(x, init, name);
      assert wire == init + [e];
      ToldSnoc(x, init, e, name);
      assert Honest(x, e, k);
    }
  }

  lemma SessionRecords(x: Executor, wire: seq<Exchange>, name: Str)
    requires SessionProbe(x, name) && HonestWire(x, wire)
    ensures forall k | 0 <= k < |wire| && wire[k].probe == name :: wire[k].SocketExchange?
  {
    forall k | 0 <= k < |wire| && wire[k].probe == name ensures wire[k].SocketExchange? {
      assert Honest(x, wire[k], k);
    }
  }

  /** What a session probe has stored, at any point of any run, is the concatenation of all chunks it received. */
  lemma SessionDataIsConcatenation(x: Executor, code: seq<Instr>, name: Str, n: nat)
    requires SessionProbe(x, name) && NeverSavedTo(x, code, name)
    requires !Iterate(x, code, InitialMachine(x), n).Failed?
    ensures var st := At(x, code, n);
            if AnySuccess(st.wire, name) then
              && name in st.responses && st.responses[name].SocketReply?
              && st.responses[name].socket.data == Chunks(st.wire, name)
            else name !in st.responses
  {
    hide At, Told, NeverSavedTo, HonestWire, SessionTold, Iterate, Chunks, AnySuccess, SessionProbe;
    RunIsConsistent(x, code, name, n);
    var st := At(x, code, n);
    SessionRecords(x, st.wire, name);
    ToldIsChunks(x, st.wire, name);
  }

  /** At every point of every run: a probe's session is open exactly when it keeps one and an exchange of it has
      succeeded, and an exchange reuses the session exactly when it was open by then. */
  lemma SessionsFollowTheWire(x: Executor, code: seq<Instr>, name: Str, n: nat)
    requires !Iterate(x, code, InitialMachine(x), n).Failed?
    ensures var st := At(x, code, n);
            && (name in st.sessions <==> SessionProbe(x, name) && AnySuccess(st.wire, name))
            && forall k | 0 <= k < |st.wire| && st.wire[k].SocketExchange? && st.wire[k].probe == name ::
                 st.wire[k].reused <==> SessionProbe(x, name) && AnySuccess(st.wire[..k], name)
  {
    hide At, Told, NeverSavedTo, HonestWire, Iterate, AnySuccess, SessionProbe;
    RunIsConsistent(x, code, name, n);
  }

  // ---------- what is sent ----------

  /** The payload a socket probe sends, or why its template cannot be filled in: text is expanded, bytes that are
      no text are sent as they are, and an override takes their place. */
  predicate PayloadIs(
    spec: SocketProbeSpec, variables: Variables, over: Option<seq<byte>>, payload: Option<seq<byte>>)
  {
    var own := spec.payload;
    if own.Some? && Utf8.ValidUtf8(own.value) then
      Interpolate(own.value, variables).Ok?
      && payload == if over.Some? then over else Some(Interpolate(own.value, variables).value)
    else payload == if over.Some? then over else own
  }

  lemma Interpolated(
    spec: SocketProbeSpec, variables: Variables, over: Option<seq<byte>>, host: Str, payload: Option<seq<byte>>)
    requires Interpolate(spec.host, variables) == Ok(host) && PayloadIs(spec, variables, over, payload)
    ensures InterpolateSocketSpec(spec, variables).Ok?
    ensures var s := InterpolateSocketSpec(spec, variables).value;
            OrElse(over, s.payload) == payload && s == spec.(host := host, payload := s.payload)
  {
    hide Interpolate, Utf8.ValidUtf8;
  }

  /** One socket record with these contents was added. */
  predicate Talked(st: State, s: Sent, transport: Transport, host: Str, port: u16, payload: Option<seq<byte>>) {
    && |s.st.wire| == |st.wire| + 1
    && var e := s.st.wire[|st.wire|];
       e.SocketExchange? && e.transport == transport && e.host == host && e.port == port && e.payload == payload
  }

  lemma SocketTalks(
    x: Executor, name: Str, transport: Transport, host: Str, port: u16, payload: Option<seq<byte>>, keep: bool,
    st: State)
    ensures Talked(st, ExchangeSocket(x, name, transport, host, port, payload, keep, st),
                   transport, host, port, payload)
  {
  }

  lemma TcpSends(
    x: Executor, name: Str, spec: SocketProbeSpec, over: Option<seq<byte>>, st: State, host: Str,
    payload: Option<seq<byte>>)
    requires var r := InterpolateSocketSpec(spec, st.variables);
             r.Ok? && OrElse(over, r.value.payload) == payload
             && r.value == spec.(host := host, payload := r.value.payload)
    ensures var s := SendTcp(x, name, spec, over, st);
            if spec.port.None? then s == Sent(Err(Other(PortRequired)), st)
            else Talked(st, s, OverTcp, host, spec.port.value, payload)
  {
    hide ExchangeSocket, InterpolateSocketSpec, Talked;
    if spec.port.Some? {
      SocketTalks(x, name, OverTcp, host, spec.port.value, payload, spec.session, st);
    }
  }

  lemma UdpSends(
    x: Executor, name: Str, spec: SocketProbeSpec, over: Option<seq<byte>>, st: State, host: Str,
    payload: Option<seq<byte>>)
    requires var r := InterpolateSocketSpec(spec, st.variables);
             r.Ok? && OrElse(over, r.value.payload) == payload
             && r.value == spec.(host := host, payload := r.value.payload)
    ensures var s := SendUdp(x, name, spec, over, st);
            if spec.port.None? then s == Sent(Err(Other(PortRequired)), st)
            else if spec.tls then s == Sent(Err(Other(TlsOverUdp)), st)
            else Talked(st, s, OverUdp, host, spec.port.value, payload)
  {
    hide ExchangeSocket, InterpolateSocketSpec, Talked;
    if spec.port.Some? {
      SocketTalks(x, name, OverUdp, host, spec.port.value, payload, spec.session, st);
    }
  }

  lemma DnsSends(
    x: Executor, name: Str, spec: SocketProbeSpec, over: Option<seq<byte>>, st: State, host: Str,
    payload: Option<seq<byte>>)
    requires var r := InterpolateSocketSpec(spec, st.variables);
             r.Ok? && OrElse(over, r.value.payload) == payload
             && r.value == spec.(host := host, payload := r.value.payload)
    ensures var s := SendDns(x, name, spec, over, st);
            if spec.port.None? && payload.None? then
              |s.st.wire| == |st.wire| + 1 && s.st.wire[|st.wire|].Resolution? && s.st.wire[|st.wire|].host == host
            else Talked(st, s, OverUdp, host, if spec.port.Some? then spec.port.value else 53, payload)
  {
    hide ExchangeSocket, InterpolateSocketSpec, Talked, StoreResponse;
    SocketTalks(x, name, OverUdp, host, if spec.port.Some? then spec.port.value else 53, payload, false, st);
  }

  /** The exchange of a socket probe goes to its expanded host, at its own port - 53 for `dns` when it names
      none -, with its payload; without port and payload a `dns` probe only asks for the host's addresses. */
  lemma WhatIsSent(
    x: Executor, name: Str, over: Option<seq<byte>>, st: State, host: Str, payload: Option<seq<byte>>)
    requires name in x.spec.probes && !x.spec.probes[name].Http?
    requires var spec := x.spec.probes[name].socket;
             Interpolate(spec.host, st.variables) == Ok(host) && PayloadIs(spec, st.variables, over, payload)
    ensures var kind, spec := x.spec.probes[name], x.spec.probes[name].socket;
            var s := SendProbe(x, name, over, st);
            if kind.Dns? && spec.port.None? && payload.None? then
              |s.st.wire| == |st.wire| + 1 && s.st.wire[|st.wire|].Resolution? && s.st.wire[|st.wire|].host == host
            else if !kind.Dns? && spec.port.None? then s == Sent(Err(Other(PortRequired)), st)
            else if kind.Udp? && spec.tls then s == Sent(Err(Other(TlsOverUdp)), st)
            else Talked(st, s, if kind.Tcp? then OverTcp else OverUdp, host,
                        if spec.port.Some? then spec.port.value else 53, payload)
  {
    hide ExchangeSocket, Resolve, SendTcp, SendUdp, SendDns, PayloadIs;
    var spec := x.spec.probes[name].socket;
    Interpolated(spec, st.variables, over, host, payload);
    match x.spec.probes[name]
    case Dns(_) => DnsSends(x, name, spec, over, st, host, payload);
    case Tcp(_) => TcpSends(x, name, spec, over, st, host, payload);
    case Udp(_) => UdpSends(x, name, spec, over, st, host, payload);
  }

  /** An HTTP probe always makes its request; a name that is no probe's makes none. */
  lemma OtherSends(x: Executor, name: Str, over: Option<seq<byte>>, st: State)
    ensures var s := SendProbe(x, name, over, st);
            if name !in x.spec.probes then s == Sent(Err(UnknownTarget(name)), st)
            else x.spec.probes[name].Http? ==>
              s.st.wire == st.wire + [HttpExchange(name, x.net.http(|st.wire|).Ok?)]
              && (s.result.Ok? <==> x.net.http(|st.wire|).Ok?)
  {
    hide SendDns, SendTcp, SendUdp;
  }

  /** A template that names a list stops a socket probe before anything is sent. */
  lemma NothingIsSent(x: Executor, name: Str, over: Option<seq<byte>>, st: State)
    requires name in x.spec.probes && !x.spec.probes[name].Http?
    requires var spec := x.spec.probes[name].socket;
             || Interpolate(spec.host, st.variables).Err?
             || !exists payload :: PayloadIs(spec, st.variables, over, payload)
    ensures var s := SendProbe(x, name, over, st);
            s.st == st && s.result.Err? && s.result.error.Other? && s.result.error.reason.ListAsString?
  {
    hide Interpolate, Utf8.ValidUtf8, ExchangeSocket, Resolve;
    var spec := x.spec.probes[name].socket;
    InterpolateFailsOnLists(spec.host, st.variables);
    if spec.payload.Some? {
      InterpolateFailsOnLists(spec.payload.value, st.variables);
    }
    var own := InterpolatePayload(spec.payload, st.variables);
    if own.Ok? {
      assert PayloadIs(spec, st.variables, over, OrElse(over, own.value));
    }
  }
}
