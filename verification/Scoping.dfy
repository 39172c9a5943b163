/** Loop variables are lexically scoped, on any code: leaving a loop gives its variable back exactly
    the value, or absence, it had at the loop instruction. */
module Scoping {
  import opened Prelude
  import opened Contract
  import opened Runtime
  import opened Vm
  import opened Structured

  predicate SameLoop(f: LoopFrame, g: LoopFrame) {
    f.item == g.item && f.previous == g.previous && f.endPc == g.endPc
  }

  lemma RestoreGivesBack(st: State, name: Str, previous: Option<VariableValue>)
    ensures Lookup(Restore(st, name, previous).variables, name) == previous
  {
  }

  /** One step above depth `k`: frame `k` and those below stay, or frame `k` is the one left. */
  lemma StepAbove(x: Executor, code: seq<Instr>, m: Machine, k: nat)
    requires m.Running? && |m.stack| > k && Step(x, code, m).Running?
    ensures var m' := Step(x, code, m);
            if |m'.stack| > k then m'.stack[..k] == m.stack[..k] && SameLoop(m'.stack[k], m.stack[k])
            else
              && m'.stack == m.stack[..k] && m'.pc == m.stack[k].endPc
              && Lookup(m'.st.variables, m.stack[k].item) == m.stack[k].previous
  {
    hide ExecBasic, LoopValues, MatchesIdx;
    var f := m.stack[k];
    RestoreGivesBack(m.st, f.item, f.previous);
    var i := code[m.pc];
    if i == LoopBack || i == Break {
      assert |m.stack| == k + 1 ==> Top(m.stack) == f && Pop(m.stack) == m.stack[..k];
      assert |m.stack| > k + 1 ==> Pop(m.stack)[..k] == m.stack[..k] && Pop(m.stack)[k] == f;
    }
  }

  /** While the run stays above depth `k`, the frame at depth `k` keeps its loop's identity. */
  lemma {:induction false} StaysAbove(x: Executor, code: seq<Instr>, m: Machine, k: nat, n: nat)
    requires m.Running? && |m.stack| > k && n >= 1
    requires forall j | 0 <= j < n :: Iterate(x, code, m, j).Running? && |Iterate(x, code, m, j).stack| > k
    requires Iterate(x, code, m, n).Running? && |Iterate(x, code, m, n).stack| <= k
    ensures var e := Iterate(x, code, m, n);
            && e.stack == m.stack[..k] && e.pc == m.stack[k].endPc
            && Lookup(e.st.variables, m.stack[k].item) == m.stack[k].previous
    decreases n
  {
    hide Step, Restore;
    var m' := Step(x, code, m);
    assert Iterate(x, code, m, 1) == Iterate(x, code, m', 0) == m';
    StepAbove(x, code, m, k);
    if n > 1 {
      forall j | 0 <= j < n - 1
        ensures Iterate(x, code, m', j) == Iterate(x, code, m, j + 1)
      {
      }
      StaysAbove(x, code, m', k, n - 1);
    }
  }

  /** From a loop instruction that enters its loop to the first state back at the outer depth. */
  lemma LoopScoping(x: Executor, code: seq<Instr>, m: Machine, n: nat)
    requires m.Running? && m.pc < |code| && IsFor(code[m.pc]) && n >= 2
    requires forall j | 1 <= j < n :: Iterate(x, code, m, j).Running? && |Iterate(x, code, m, j).stack| > |m.stack|
    requires Iterate(x, code, m, n).Running? && |Iterate(x, code, m, n).stack| <= |m.stack|
    ensures code[m.pc].item < |x.strings|
    ensures var e := Iterate(x, code, m, n);
            && e.stack == m.stack && e.pc == code[m.pc].endPc
            && Lookup(e.st.variables, x.strings[code[m.pc].item]) == Lookup(m.st.variables, x.strings[code[m.pc].item])
  {
    hide LoopValues, StepBasic, StepIf, StepLoopBack, StepBreak, StepContinue;
    var m1 := Step(x, code, m);
    assert Iterate(x, code, m, 1) == Iterate(x, code, m1, 0) == m1;
    forall j | 0 <= j < n - 1
      ensures Iterate(x, code, m1, j) == Iterate(x, code, m, j + 1)
    {
    }
    StaysAbove(x, code, m1, |m.stack|, n - 1);
  }

  // ---------- the structured form ----------

  lemma {:induction false} LoopRestores(
    x: Executor, body: Block, item: Str, values: seq<Str>, previous: Option<VariableValue>, st: State)
    requires values != []
    ensures var r := Loop(x, body, item, values, previous, st); r.Normal? ==> Lookup(r.st.variables, item) == previous
    decreases |values|
  {
    hide Exec;
    var r := Exec(x, body, SetText(st, item, values[0]));
    if r.Broke? || r.Normal? || r.Continued? {
      RestoreGivesBack(r.st, item, previous);
      if !r.Broke? && |values| > 1 {
        LoopRestores(x, body, item, values[1..], previous, r.st);
      }
    }
  }

  /** A `for` that completes leaves its variable bound exactly as it found it; an empty one changes nothing. */
  lemma ForRestores(x: Executor, h: LoopHead, body: Block, st: State)
    requires LoopPlan(x, h, st).Ok?
    ensures var (item, values) := LoopPlan(x, h, st).value;
            var r := ExecStmt(x, For(h, body), st);
            && (values == [] ==> r == Normal(st))
            && (r.Normal? ==> Lookup(r.st.variables, item) == Lookup(st.variables, item))
  {
    hide LoopPlan, Exec;
    var (item, values) := LoopPlan(x, h, st).value;
    if values != [] {
      LoopRestores(x, body, item, values, Lookup(st.variables, item), st);
    }
  }
}
