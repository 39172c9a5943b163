/** The mutable execution context and its methods, each tied to the machine's value-level step. */
module Contexts {
  import opened Prelude
  import opened Contract
  import opened Runtime
  import opened Matcher
  import opened Targets
  import opened Vm

  class Context {
    var variables: Variables
    var responses: Responses
    var sessions: map<Str, Transport>
    const metadata: CheckMetadata
    var report: Option<Finding>  // at most one finding per run
    var evidence: seq<Str>
    var retryDelay: Option<u64>
    var failed: bool
    var matched: bool
    var emitFinding: bool
    var loopStack: seq<LoopFrame>
    var wire: seq<Exchange>      // the exchanges made so far

    /** The state the machine semantics speaks about. */
    function View(): State
      reads this
    {
      State(variables, responses, sessions, evidence, retryDelay, matched, emitFinding, wire)
    }

    constructor FromSpec(spec: ProgramSpec)
      ensures View() == State(map[], map[], map[], [], None, true, true, [])
      ensures loopStack == [] && metadata == spec.metadata && report == None && !failed
    {
      metadata := spec.metadata;
      variables, responses, sessions := map[], map[], map[];
      report, evidence, retryDelay := None, [], None;
      failed, matched, emitFinding := false, true, true;
      loopStack, wire := [], [];
    }

    method SetVariable(name: Str, value: Str)
      modifies this`variables
      ensures View() == SetText(old(View()), name, value)
    {
      variables := variables[name := Text(value)];
    }

    method SetListVariable(name: Str, values: seq<Str>)
      modifies this`variables
      ensures View() == old(View()).(variables := old(variables)[name := List(values)])
    {
      variables := variables[name := List(values)];
    }

    method RestoreOrRemoveVariable(name: Str, value: Option<VariableValue>)
      modifies this`variables
      ensures View() == Restore(old(View()), name, value)
      ensures Lookup(variables, name) == value
      ensures forall n | n != name :: Lookup(variables, n) == Lookup(old(variables), n)
    {
      match value
      case Some(v) => variables := variables[name := v];
      case None => variables := variables - {name};
    }

    method StoreResponse(name: Str, response: ProbeResponse)
      modifies this`responses
      ensures View() == old(View()).(responses := old(responses)[name := response])
    {
      responses := responses[name := response];
    }

    /** Copying a response that is not there changes nothing. */
    method AliasResponse(from: Str, alias: Str)
      modifies this`responses
      ensures View() == if from in old(responses)
                        then old(View()).(responses := old(responses)[alias := old(responses)[from]]) else old(View())
    {
      if from in responses {
        responses := responses[alias := responses[from]];
      }
    }

    method CloseSessions()
      modifies this`sessions
      ensures sessions == map[]
    {
      sessions := map[];
    }

    /** Moves the evidence into the finding, if there is to be one. */
    method FinalizeFinding()
      modifies this`report, this`evidence
      ensures var f := Vm.FinalizeFinding(metadata, old(View()));
              report == if f.Some? then f else old(report)
      ensures evidence == if matched && emitFinding then [] else old(evidence)
    {
      if !matched || !emitFinding {
        return;
      }
      var taken := evidence;
      evidence := [];
      if metadata.name.Some? {
        report := Some(Finding(metadata.name.value, metadata, taken));
      }
    }

    /** The scan target's variables, written over whatever the names held. */
    method InjectScanTargetVariables(r: Resolver, baseUrl: Str)
      modifies this`variables
      ensures variables == InjectScanTarget(r, baseUrl, old(variables))
      ensures View() == old(View()).(variables := variables)
    {
      var endpoint := ScanTargetHostPort(r, baseUrl);
      if endpoint.Some? {
        SetVariable(SCAN_HOST, endpoint.value.0);
        SetVariable(SCAN_PORT, Decimal(endpoint.value.1));
      }
      if baseUrl != [] {
        SetVariable(SCAN_URL, baseUrl);
      }
    }

    // ---------- loops ----------

    /** The machine a helper's answer stands for: the next program counter, or an error. */
    function Outcome(r: Checked<nat>): Machine
      reads this
    {
      match r
      case Ok(pc) => Running(pc, View(), loopStack)
      case Err(e) => Failed(e)
    }

    method EnterForeach(item: Str, values: seq<Str>, pc: nat, endPc: nat) returns (next: nat)
      modifies this`variables, this`loopStack
      ensures Running(next, View(), loopStack)
           == Vm.EnterForeach(item, values, pc, endPc, old(View()), old(loopStack))
    {
      if values == [] {
        return endPc;
      }
      var previous := Lookup(variables, item);
      SetVariable(item, values[0]);
      var continuePc := if endPc == 0 then 0 else endPc - 1;
      loopStack := loopStack + [LoopFrame(item, values, 0, previous, pc + 1, continuePc, endPc)];
      return pc + 1;
    }

    method StepLoopBack() returns (r: Checked<nat>)
      modifies this`variables, this`loopStack
      ensures Outcome(r) == Vm.StepLoopBack(old(View()), old(loopStack))
    {
      if loopStack == [] {
        return Err(Other(OutsideLoop(LoopBack)));
      }
      var last := |loopStack| - 1;
      var frame := loopStack[last];
      if frame.index + 1 < |frame.values| {
        loopStack := loopStack[last := frame.(index := frame.index + 1)];
        assert loopStack == old(loopStack)[..last] + [loopStack[last]];
        SetVariable(frame.item, frame.values[frame.index + 1]);
        return Ok(frame.headPc);
      }
      loopStack := loopStack[..last];
      RestoreOrRemoveVariable(frame.item, frame.previous);
      return Ok(frame.endPc);
    }

    method StepBreak() returns (r: Checked<nat>)
      modifies this`variables, this`loopStack
      ensures Outcome(r) == Vm.StepBreak(old(View()), old(loopStack))
    {
      if loopStack == [] {
        return Err(Other(OutsideLoop(Break)));
      }
      var frame := loopStack[|loopStack| - 1];
      loopStack := loopStack[..|loopStack| - 1];
      RestoreOrRemoveVariable(frame.item, frame.previous);
      return Ok(frame.endPc);
    }

    method StepContinue() returns (r: Checked<nat>)
      ensures Outcome(r) == Vm.StepContinue(View(), loopStack)
    {
      if loopStack == [] {
        return Err(Other(OutsideLoop(Continue)));
      }
      return Ok(loopStack[|loopStack| - 1].continuePc);
    }
  }
}
