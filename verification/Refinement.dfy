/** The machine on well-nested code computes the structured meaning, within a recursive step bound. */
module Refinement {
  import opened Prelude
  import opened Contract
  import opened Runtime
  import opened Vm
  import opened Structured
  import opened Targets
  import Safety

  // ---------- the step bound ----------

  /** Instructions a block executes at most, when no list variable is longer than `longest`. */
  function Cost(b: Block, longest: nat): nat {
    match b
    case End => 0
    case Then(s, tail) => StmtCost(s, longest) + Cost(tail, longest)
  }

  function StmtCost(s: Stmt, longest: nat): nat {
    match s
    case If(_, body) => 1 + Cost(body, longest)
    case For(h, body) => 1 + Rounds(h, longest) * (Cost(body, longest) + 1)
    case _ => 1
  }

  function Rounds(h: LoopHead, longest: nat): nat {
    match h
    case OverList(_, _, len) => len
    case OverVar(_, _) => longest
  }

  ghost predicate ListsWithin(variables: Variables, longest: nat) {
    forall n | n in variables && variables[n].List? :: |variables[n].values| <= longest
  }

  ghost predicate PreviousWithin(previous: Option<VariableValue>, longest: nat) {
    previous.Some? && previous.value.List? ==> |previous.value.values| <= longest
  }

  /** The longest list any `set_list` of the code builds. */
  function LongestList(code: seq<Instr>): (n: nat)
    ensures forall i | i in code && i.SetList? :: i.len <= n
  {
    if code == [] then 0
    else
      var rest := LongestList(code[1..]);
      if code[0].SetList? && code[0].len > rest then code[0].len else rest
  }

  predicate SetListsWithin(b: Block, longest: nat) {
    b.Then? ==> StmtListsWithin(b.head, longest) && SetListsWithin(b.tail, longest)
  }

  predicate StmtListsWithin(s: Stmt, longest: nat) {
    match s
    case Basic(i) => i.SetList? ==> i.len <= longest
    case If(_, body) => SetListsWithin(body, longest)
    case For(_, body) => SetListsWithin(body, longest)
    case _ => true
  }

  lemma {:induction false} LaidSetLists(code: seq<Instr>, lo: nat, b: Block, longest: nat)
    requires Laid(code, lo, b)
    requires forall i | i in code && i.SetList? :: i.len <= longest
    ensures SetListsWithin(b, longest)
    decreases b
  {
    if b.Then? {
      LaidSetLists(code, lo + StmtSize(b.head), b.tail, longest);
      match b.head
      case If(_, body) => LaidSetLists(code, lo + 1, body, longest);
      case For(_, body) => LaidSetLists(code, lo + 1, body, longest);
      case _ =>
    }
  }

  /** Only `set`, `set_list` and `extract` write variables among the basic instructions. */
  lemma BasicVariables(x: Executor, i: Instr, st: State)
    requires IsBasic(i) && ExecBasic(x, i, st).Ok?
    ensures !i.Set? && !i.SetList? && !i.Extract? ==> ExecBasic(x, i, st).value.variables == st.variables
    ensures i.Set? || i.Extract? ==>
              var vars := ExecBasic(x, i, st).value.variables;
              vars == st.variables || (i.name < |x.strings| && exists v ::
                  vars == st.variables[x.strings[i.name] := Text(v)])
    ensures i.SetList? ==>
              var vars := ExecBasic(x, i, st).value.variables;
              i.name < |x.strings| && exists vs :: |vs| == i.len && vars == st.variables[x.strings[i.name] := List(vs)]
  {
    match i
    case SetList(_, start, len) => var vs := ListValues(x, start, len, st).value;
    case _ =>
  }

  lemma {:induction false} ExecKeepsLists(x: Executor, b: Block, st: State, longest: nat)
    requires ListsWithin(st.variables, longest) && SetListsWithin(b, longest)
    ensures var r := Exec(x, b, st); !r.Aborted? ==> ListsWithin(r.st.variables, longest)
    decreases b, 0, 0
  {
    if b.Then? {
      StmtKeepsLists(x, b.head, st, longest);
      var r := ExecStmt(x, b.head, st);
      if r.Normal? {
        ExecKeepsLists(x, b.tail, r.st, longest);
      }
    }
  }

  lemma {:induction false} StmtKeepsLists(x: Executor, s: Stmt, st: State, longest: nat)
    requires ListsWithin(st.variables, longest) && StmtListsWithin(s, longest)
    ensures var r := ExecStmt(x, s, st); !r.Aborted? ==> ListsWithin(r.st.variables, longest)
    decreases s, 0, 0
  {
    match s
    case Basic(i) => if IsBasic(i) && ExecBasic(x, i, st).Ok? { BasicVariables(x, i, st); }
    case If(_, body) => ExecKeepsLists(x, body, st, longest);
    case For(h, body) =>
      if LoopPlan(x, h, st).Ok? {
        var (item, values) := LoopPlan(x, h, st).value;
        LoopKeepsLists(x, body, item, values, Lookup(st.variables, item), st, longest);
      }
    case _ =>
  }

  lemma {:induction false} LoopKeepsLists(
    x: Executor, body: Block, item: Str, values: seq<Str>, previous: Option<VariableValue>, st: State, longest: nat)
    requires ListsWithin(st.variables, longest) && SetListsWithin(body, longest) && PreviousWithin(previous, longest)
    ensures var r := Loop(x, body, item, values, previous, st); !r.Aborted? ==> ListsWithin(r.st.variables, longest)
    decreases body, 1, |values|
  {
    if values != [] {
      ExecKeepsLists(x, body, SetText(st, item, values[0]), longest);
      var r := Exec(x, body, SetText(st, item, values[0]));
      if (r.Normal? || r.Continued?) && |values| > 1 {
        LoopKeepsLists(x, body, item, values[1..], previous, r.st, longest);
      }
    }
  }

  lemma PlanWithin(x: Executor, h: LoopHead, st: State, longest: nat)
    requires ListsWithin(st.variables, longest) && LoopPlan(x, h, st).Ok?
    ensures |LoopPlan(x, h, st).value.1| <= Rounds(h, longest)
  {
  }

  // ---------- simulation ----------

  /** Where the machine stands once a block that ends at `hi` has run with outcome `r`. */
  function Landing(hi: nat, stack: seq<LoopFrame>, r: Flow): Machine {
    match r
    case Normal(st) => Running(hi, st, stack)
    case Broke(st) => StepBreak(st, stack)
    case Continued(st) => StepContinue(st, stack)
    case Halted(st) => Finished(st)
    case Aborted(e) => Failed(e)
  }

  /** Only code inside a loop ends by `break` or `continue`. */
  lemma {:induction false} FlowIsScoped(x: Executor, b: Block, st: State)
    requires Shaped(b, false)
    ensures !Exec(x, b, st).Broke? && !Exec(x, b, st).Continued?
    decreases b, 0, 0
  {
    match b
    case End =>
    case Then(s, tail) =>
      match s {
        case If(_, body) => FlowIsScoped(x, body, st);
        case For(h, body) =>
          if LoopPlan(x, h, st).Ok? {
            var (item, values) := LoopPlan(x, h, st).value;
            LoopIsNormal(x, body, item, values, Lookup(st.variables, item), st);
          }
        case _ =>
      }
      var r := ExecStmt(x, s, st);
      if r.Normal? {
        FlowIsScoped(x, tail, r.st);
      }
  }

  lemma {:induction false} LoopIsNormal(
    x: Executor, body: Block, item: Str, values: seq<Str>, previous: Option<VariableValue>, st: State)
    ensures !Loop(x, body, item, values, previous, st).Broke? && !Loop(x, body, item, values, previous, st).Continued?
    decreases body, 1, |values|
  {
    if values != [] {
      var r := Exec(x, body, SetText(st, item, values[0]));
      if (r.Normal? || r.Continued?) && |values| > 1 {
        LoopIsNormal(x, body, item, values[1..], previous, r.st);
      }
    }
  }

  /** Joining two stretches of a run. */
  lemma Join(x: Executor, code: seq<Instr>, m0: Machine, a: nat, m1: Machine, b: nat, m2: Machine)
    requires Iterate(x, code, m0, a) == m1 && Iterate(x, code, m1, b) == m2
    ensures Iterate(x, code, m0, a + b) == m2
  {
    hide Step;
    IterateAdd(x, code, m0, a, b);
  }

  lemma OneStep(x: Executor, code: seq<Instr>, m: Machine)
    ensures Iterate(x, code, m, 1) == Step(x, code, m)
  {
    assert Iterate(x, code, Step(x, code, m), 0) == Step(x, code, m);
  }

  /** From the start of a laid-out block, the machine reaches the landing of its structured outcome. */
  lemma {:induction false} Simulates(
    x: Executor, code: seq<Instr>, lo: nat, b: Block, st: State, stack: seq<LoopFrame>, longest: nat)
    returns (n: nat)
    requires Laid(code, lo, b) && Shaped(b, stack != [])
    requires ListsWithin(st.variables, longest) && SetListsWithin(b, longest)
    ensures Iterate(x, code, Running(lo, st, stack), n) == Landing(lo + Size(b), stack, Exec(x, b, st))
    ensures n <= Cost(b, longest)
    decreases b, 1, 0
  {
    hide Step, ExecStmt, StmtSize, StmtCost, StmtLaid, StmtShaped, StmtListsWithin, StepBreak, StepContinue,
      ListsWithin;
    match b
    case End => n := 0;
    case Then(s, tail) =>
      var k := SimulatesStmt(x, code, lo, s, st, stack, longest);
      var r := ExecStmt(x, s, st);
      n := k;
      if r.Normal? {
        StmtKeepsLists(x, s, st, longest);
        var j := Simulates(x, code, lo + StmtSize(s), tail, r.st, stack, longest);
        Join(x, code, Running(lo, st, stack), k, Running(lo + StmtSize(s), r.st, stack), j,
             Landing(lo + Size(b), stack, Exec(x, b, st)));
        n := k + j;
      }
  }

  lemma {:induction false} SimulatesStmt(
    x: Executor, code: seq<Instr>, lo: nat, s: Stmt, st: State, stack: seq<LoopFrame>, longest: nat)
    returns (n: nat)
    requires StmtLaid(code, lo, s) && StmtShaped(s, stack != [])
    requires ListsWithin(st.variables, longest) && StmtListsWithin(s, longest)
    ensures Iterate(x, code, Running(lo, st, stack), n) == Landing(lo + StmtSize(s), stack, ExecStmt(x, s, st))
    ensures n <= StmtCost(s, longest)
    decreases s, 2, 0
  {
    hide ExecBasic, Condition, LoopPlan, StepFor, ListsWithin, Exec, StepBreak, StepContinue;
    var m := Running(lo, st, stack);
    OneStep(x, code, m);
    n := 1;
    match s
    case If(matcher, body) =>
      if Condition(x, matcher, st) == Ok(true) {
        var j := Simulates(x, code, lo + 1, body, st, stack, longest);
        Join(x, code, m, 1, Running(lo + 1, st, stack), j, Landing(lo + StmtSize(s), stack, ExecStmt(x, s, st)));
        n := 1 + j;
      }
    case For(h, body) => n := SimulatesFor(x, code, lo, h, body, st, stack, longest);
    case _ =>
  }

  /** The loop header plans the loop exactly as the structured `for` does. */
  lemma StepsToPlan(x: Executor, code: seq<Instr>, lo: nat, h: LoopHead, body: Block, st: State, stack: seq<LoopFrame>)
    requires StmtLaid(code, lo, For(h, body))
    ensures Step(x, code, Running(lo, st, stack))
         == match LoopPlan(x, h, st)
            case Err(e) => Failed(e)
            case Ok((item, values)) => EnterForeach(item, values, lo, lo + 2 + Size(body), st, stack)
  {
    hide Laid, Size, ListValues;
  }

  lemma {:induction false} SimulatesFor(
    x: Executor, code: seq<Instr>, lo: nat, h: LoopHead, body: Block, st: State, stack: seq<LoopFrame>, longest: nat)
    returns (n: nat)
    requires StmtLaid(code, lo, For(h, body)) && Shaped(body, true)
    requires ListsWithin(st.variables, longest) && SetListsWithin(body, longest)
    ensures Iterate(x, code, Running(lo, st, stack), n)
         == Landing(lo + 2 + Size(body), stack, ExecStmt(x, For(h, body), st))
    ensures n <= StmtCost(For(h, body), longest)
    decreases body, 4, 0
  {
    hide Step, StepBreak, StepContinue, Exec, Laid, Shaped, ListsWithin, LoopPlan, Size, Cost, StmtCost, Rounds;
    var m := Running(lo, st, stack);
    var end := lo + 2 + Size(body);
    OneStep(x, code, m);
    StepsToPlan(x, code, lo, h, body, st, stack);
    n := 1;
    if LoopPlan(x, h, st).Ok? {
      var (item, values) := LoopPlan(x, h, st).value;
      if values != [] {
        PlanWithin(x, h, st, longest);
        var frame := LoopFrame(item, values, 0, Lookup(st.variables, item), lo + 1, end - 1, end);
        assert values[0..] == values;
        var j := SimulatesLoop(x, code, body, frame, st, stack, longest);
        Join(x, code, m, 1, Step(x, code, m), j, Landing(end, stack, ExecStmt(x, For(h, body), st)));
        n := 1 + j;
        LoopCost(h, body, |values|, j, longest);
      }
    }
    assert 1 <= StmtCost(For(h, body), longest) by { LoopCost(h, body, 0, 0, longest); }
  }

  lemma LoopCost(h: LoopHead, body: Block, rounds: nat, steps: nat, longest: nat)
    requires rounds <= Rounds(h, longest) && steps <= rounds * (Cost(body, longest) + 1)
    ensures 1 + steps <= StmtCost(For(h, body), longest)
  {
    MulLe(rounds, Rounds(h, longest), Cost(body, longest) + 1);
  }

  lemma MulLe(a: nat, b: nat, c: nat)
    requires a <= b
    ensures a * c <= b * c
  {
  }

  /** `loop_back` starts the next round or leaves the loop. */
  lemma StepsBack(x: Executor, code: seq<Instr>, frame: LoopFrame, st: State, stack: seq<LoopFrame>)
    requires frame.continuePc < |code| && code[frame.continuePc] == LoopBack
    ensures Step(x, code, Running(frame.continuePc, st, stack + [frame]))
         == if frame.index + 1 < |frame.values| then
              Running(frame.headPc, SetText(st, frame.item, frame.values[frame.index + 1]),
                      stack + [frame.(index := frame.index + 1)])
            else Running(frame.endPc, Restore(st, frame.item, frame.previous), stack)
  {
    hide StepFor, StepIf, StepBasic;
    assert Top(stack + [frame]) == frame && Pop(stack + [frame]) == stack;
  }

  lemma RoundsLeft(rounds: nat, per: nat)
    requires rounds >= 1
    ensures rounds * per == (rounds - 1) * per + per && rounds * per >= per
  {
  }

  /** One body laid out under `frame`, from a round's start to the loop's end. */
  lemma {:induction false} SimulatesLoop(
    x: Executor, code: seq<Instr>, body: Block, frame: LoopFrame, st: State, stack: seq<LoopFrame>, longest: nat)
    returns (n: nat)
    requires Laid(code, frame.headPc, body) && Shaped(body, true)
    requires frame.continuePc == frame.headPc + Size(body) < |code| && code[frame.continuePc] == LoopBack
    requires frame.endPc == frame.continuePc + 1 && frame.index < |frame.values|
    requires ListsWithin(st.variables, longest) && SetListsWithin(body, longest)
    ensures Iterate(x, code, Running(frame.headPc, SetText(st, frame.item, frame.values[frame.index]), stack +
        [frame]), n)
         == Landing(frame.endPc, stack, Loop(x, body, frame.item, frame.values[frame.index..], frame.previous, st))
    ensures n <= (|frame.values| - frame.index) * (Cost(body, longest) + 1)
    decreases body, 3, |frame.values| - frame.index
  {
    hide Step, Exec, Laid, Shaped, SetListsWithin, Cost, Size;
    var st0 := SetText(st, frame.item, frame.values[frame.index]);
    var m0 := Running(frame.headPc, st0, stack + [frame]);
    var left := frame.values[frame.index..];
    var goal := Landing(frame.endPc, stack, Loop(x, body, frame.item, left, frame.previous, st));
    assert left[0] == frame.values[frame.index];
    assert Top(stack + [frame]) == frame && Pop(stack + [frame]) == stack;
    n := Simulates(x, code, frame.headPc, body, st0, stack + [frame], longest);
    RoundsLeft(|left|, Cost(body, longest) + 1);
    var r := Exec(x, body, st0);
    if r.Normal? || r.Continued? {
      var m1 := Running(frame.continuePc, r.st, stack + [frame]);
      OneStep(x, code, m1);
      StepsBack(x, code, frame, r.st, stack);
      Join(x, code, m0, n, m1, 1, Step(x, code, m1));
      n := n + 1;
      if |left| > 1 {
        ExecKeepsLists(x, body, st0, longest);
        var next := frame.(index := frame.index + 1);
        assert left[1..] == next.values[next.index..];
        var j := SimulatesLoop(x, code, body, next, r.st, stack, longest);
        Join(x, code, m0, n, Step(x, code, m1), j, goal);
        n := n + j;
      }
    }
  }

  // ---------- whole programs ----------

  /** How a structured outcome ends a run. */
  function FlowResult(r: Flow): Checked<State> {
    match r
    case Aborted(e) => Err(e)
    case _ => Ok(r.st)
  }

  /** A budgeted run follows the machine for as long as the budget lasts. */
  lemma {:induction false} RunFollows(x: Executor, code: seq<Instr>, m: Machine, n: nat, budget: nat)
    requires n <= budget
    requires Ended(code, Iterate(x, code, m, n))
    ensures Run(x, code, m, budget) == EndResult(Iterate(x, code, m, n))
    decreases n
  {
    hide StepInstr;
    if n > 0 {
      match m
      case Running(pc, st, stack) =>
        if pc < |code| {
          RunFollows(x, code, Step(x, code, m), n - 1, budget - 1);
        } else {
          IterateHalted(x, code, Finished(st), n - 1);
        }
      case _ => IterateHalted(x, code, m, n);
    }
  }

  /** The step bound of well-nested code. */
  function Bound(code: seq<Instr>): nat
    requires WellNested(code)
  {
    Cost(Decompile(code, 0, |code|, false), LongestList(code))
  }

  /** Well-nested code halts: within its bound the machine is past its end, with exactly the structured
      outcome, and that is not the budget's error. */
  lemma WellNestedHalts(x: Executor, code: seq<Instr>) returns (n: nat)
    requires WellNested(code)
    ensures n <= Bound(code)
    ensures var m := Iterate(x, code, InitialMachine(x), n);
            && Ended(code, m)
            && EndResult(m) == FlowResult(Exec(x, Decompile(code, 0, |code|, false), InitialState(x)))
            && EndResult(m) != Err(Safety.OVER_BUDGET)
  {
    hide Step, Exec, Safety.OVER_BUDGET;
    var b := Decompile(code, 0, |code|, false);
    var longest := LongestList(code);
    DecompileIsLaid(code, 0, |code|, false);
    LaidSetLists(code, 0, b, longest);
    InjectedEqualsPrechecked(x.resolver, x.baseUrl);
    FlowIsScoped(x, b, InitialState(x));
    n := Simulates(x, code, 0, b, InitialState(x), [], longest);
    Safety.NeverOverBudget(x, code, InitialMachine(x), n);
  }

  /** So every run of well-nested code whose budget is at least the bound ends before the budget does, with
      exactly the structured outcome. */
  lemma WellNestedRun(x: Executor, code: seq<Instr>, budget: nat)
    requires WellNested(code) && budget >= Bound(code)
    ensures Run(x, code, InitialMachine(x), budget)
         == FlowResult(Exec(x, Decompile(code, 0, |code|, false), InitialState(x)))
    ensures Run(x, code, InitialMachine(x), budget) != Err(Safety.OVER_BUDGET)
  {
    hide Step, Exec, Run, Decompile, Bound, InitialState, Safety.OVER_BUDGET;
    var n := WellNestedHalts(x, code);
    RunFollows(x, code, InitialMachine(x), n, budget);
  }
}
