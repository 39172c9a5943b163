/** The structured reading of bytecode: nested `for`, one-armed `if`, `break` and `continue`,
    with no program counter and no loop stack. */
module Structured {
  import opened Prelude
  import opened Contract
  import opened Runtime
  import opened Vm

  datatype Block = End | Then(head: Stmt, tail: Block)

  datatype LoopHead =
    | OverList(item: u32, start: u32, len: u16)
    | OverVar(item: u32, list: u32)

  datatype Stmt =
    | Basic(instr: Instr)
    | If(matcher: u32, body: Block)
    | For(loop: LoopHead, body: Block)
    | BreakLoop
    | ContinueLoop
    | StopRun
    | ExitRun
    | FailRun

  // ---------- meaning ----------

  /** How a block ends. */
  datatype Flow =
    | Normal(st: State)
    | Broke(st: State)
    | Continued(st: State)
    | Halted(st: State)
    | Aborted(error: RuntimeError)

  function HeadInstr(h: LoopHead, endPc: u32): Instr {
    match h
    case OverList(item, start, len) => ForList(item, start, len, endPc)
    case OverVar(item, list) => ForVar(item, list, endPc)
  }

  function Exec(x: Executor, b: Block, st: State): Flow
    decreases b, 0, 0
  {
    match b
    case End => Normal(st)
    case Then(s, tail) =>
      var r := ExecStmt(x, s, st);
      if r.Normal? then Exec(x, tail, r.st) else r
  }

  function ExecStmt(x: Executor, s: Stmt, st: State): Flow
    decreases s, 0, 0
  {
    match s
    case Basic(i) =>
      if !IsBasic(i) then Aborted(Flow)  // not a statement; excluded by `Shaped`
      else
        (match ExecBasic(x, i, st)
         case Ok(st') => Normal(st')
         case Err(e) => Aborted(e))
    case If(m, body) =>
      (match Condition(x, m, st)
       case Err(e) => Aborted(e)
       case Ok(b) => if b then Exec(x, body, st) else Normal(st))
    case For(h, body) =>
      (match LoopPlan(x, h, st)
       case Err(e) => Aborted(e)
       case Ok((item, values)) => Loop(x, body, item, values, Lookup(st.variables, item), st))
    case BreakLoop => Broke(st)
    case ContinueLoop => Continued(st)
    case StopRun => Halted(st.(emitFinding := false))
    case ExitRun => Halted(st)
    case FailRun => Aborted(RuntimeError.Flow)
  }

  /** The loop variable and the snapshot of values a `for` will bind it to. */
  function LoopPlan(x: Executor, h: LoopHead, st: State): Checked<(Str, seq<Str>)> {
    var item :- At(x.strings, h.item);
    var values :- LoopValues(x, HeadInstr(h, 0), st);
    Ok((item, values))
  }

  /** Run the body once for each remaining value; on leaving, the variable gets `previous` back. */
  function Loop(
    x: Executor, body: Block, item: Str, values: seq<Str>, previous: Option<VariableValue>, st: State): Flow
    decreases body, 1, |values|
  {
    if values == [] then Normal(st)
    else
      var r := Exec(x, body, SetText(st, item, values[0]));
      match r
      case Broke(st') => Normal(Restore(st', item, previous))
      case Halted(_) => r
      case Aborted(_) => r
      case _ =>
        if |values| == 1 then Normal(Restore(r.st, item, previous))
        else Loop(x, body, item, values[1..], previous, r.st)
  }

  // ---------- layout ----------

  function Size(b: Block): nat {
    match b
    case End => 0
    case Then(s, tail) => StmtSize(s) + Size(tail)
  }

  function StmtSize(s: Stmt): (n: nat)
    ensures n >= 1
  {
    match s
    case If(_, body) => 1 + Size(body)
    case For(_, body) => 2 + Size(body)
    case _ => 1
  }

  /** `break` and `continue` only inside a loop, and only basic instructions as basic statements. */
  predicate Shaped(b: Block, inLoop: bool) {
    match b
    case End => true
    case Then(s, tail) => StmtShaped(s, inLoop) && Shaped(tail, inLoop)
  }

  predicate StmtShaped(s: Stmt, inLoop: bool) {
    match s
    case Basic(i) => IsBasic(i)
    case If(_, body) => Shaped(body, inLoop)
    case For(_, body) => Shaped(body, true)
    case BreakLoop => inLoop
    case ContinueLoop => inLoop
    case _ => true
  }

  /** The code from `lo` on is the layout of `b`: an `if` jumps to just past its body, a `for` is
      closed by `loop_back` and ends just past it. */
  predicate Laid(code: seq<Instr>, lo: nat, b: Block)
    decreases b
  {
    match b
    case End => lo <= |code|
    case Then(s, tail) => StmtLaid(code, lo, s) && Laid(code, lo + StmtSize(s), tail)
  }

  predicate StmtLaid(code: seq<Instr>, lo: nat, s: Stmt)
    decreases s
  {
    && lo < |code|
    && match s
       case Basic(i) => code[lo] == i
       case If(m, body) =>
         && lo + 1 + Size(body) < U32_LIMIT
         && code[lo] == IfMatch(m, lo + 1 + Size(body))
         && Laid(code, lo + 1, body)
       case For(h, body) =>
         && lo + 2 + Size(body) < U32_LIMIT
         && code[lo] == HeadInstr(h, lo + 2 + Size(body))
         && Laid(code, lo + 1, body)
         && lo + 1 + Size(body) < |code|
         && code[lo + 1 + Size(body)] == LoopBack
       case BreakLoop => code[lo] == Break
       case ContinueLoop => code[lo] == Continue
       case StopRun => code[lo] == Stop
       case ExitRun => code[lo] == Exit
       case FailRun => code[lo] == Fail
  }

  // ---------- well-nested code ----------

  predicate IsFor(i: Instr) { i.ForList? || i.ForVar? }

  function HeadOf(i: Instr): LoopHead
    requires IsFor(i)
  {
    match i
    case ForList(item, start, len, _) => OverList(item, start, len)
    case ForVar(item, list, _) => OverVar(item, list)
  }

  /** The intended layout as a check on the code alone, over the region `[lo, hi)`. */
  predicate NestedIn(code: seq<Instr>, lo: nat, hi: nat, inLoop: bool)
    requires lo <= hi <= |code|
    decreases hi - lo
  {
    if lo == hi then true
    else if code[lo].IfMatch? then
      var e := code[lo].elsePc;
      lo < e <= hi && NestedIn(code, lo + 1, e, inLoop) && NestedIn(code, e, hi, inLoop)
    else if IsFor(code[lo]) then
      var e := code[lo].endPc;
      && lo + 2 <= e <= hi && code[e - 1] == LoopBack
      && NestedIn(code, lo + 1, e - 1, true) && NestedIn(code, e, hi, inLoop)
    else
      && code[lo] != LoopBack
      && (code[lo].Break? || code[lo].Continue? ==> inLoop)
      && NestedIn(code, lo + 1, hi, inLoop)
  }

  predicate WellNested(code: seq<Instr>) { NestedIn(code, 0, |code|, false) }

  /** The statement of a one-instruction form. */
  function Single(i: Instr): Stmt {
    match i
    case Break => BreakLoop
    case Continue => ContinueLoop
    case Stop => StopRun
    case Exit => ExitRun
    case Fail => FailRun
    case _ => Basic(i)
  }

  /** Read a well-nested region back as a block. */
  function Decompile(code: seq<Instr>, lo: nat, hi: nat, inLoop: bool): (b: Block)
    requires lo <= hi <= |code| && NestedIn(code, lo, hi, inLoop)
    ensures Size(b) == hi - lo
    decreases hi - lo
  {
    if lo == hi then End
    else if code[lo].IfMatch? then
      var e := code[lo].elsePc;
      Then(If(code[lo].matcher, Decompile(code, lo + 1, e, inLoop)), Decompile(code, e, hi, inLoop))
    else if IsFor(code[lo]) then
      var e := code[lo].endPc;
      Then(For(HeadOf(code[lo]), Decompile(code, lo + 1, e - 1, true)), Decompile(code, e, hi, inLoop))
    else Then(Single(code[lo]), Decompile(code, lo + 1, hi, inLoop))
  }

  lemma SingleIsLaid(code: seq<Instr>, lo: nat, inLoop: bool)
    requires lo < |code| && !code[lo].IfMatch? && !IsFor(code[lo]) && code[lo] != LoopBack
    requires code[lo].Break? || code[lo].Continue? ==> inLoop
    ensures StmtShaped(Single(code[lo]), inLoop) && StmtLaid(code, lo, Single(code[lo]))
    ensures StmtSize(Single(code[lo])) == 1
  {
  }

  lemma IfIsLaid(code: seq<Instr>, lo: nat, body: Block, inLoop: bool)
    requires lo < |code| && code[lo].IfMatch? && code[lo].elsePc == lo + 1 + Size(body)
    requires Laid(code, lo + 1, body) && Shaped(body, inLoop)
    ensures var s := If(code[lo].matcher, body);
            StmtLaid(code, lo, s) && StmtShaped(s, inLoop) && lo + StmtSize(s) == code[lo].elsePc
  {
  }

  lemma LoopIsLaid(code: seq<Instr>, lo: nat, body: Block, inLoop: bool)
    requires lo < |code| && IsFor(code[lo]) && code[lo].endPc == lo + 2 + Size(body) <= |code|
    requires Laid(code, lo + 1, body) && Shaped(body, true) && code[lo + 1 + Size(body)] == LoopBack
    ensures var s := For(HeadOf(code[lo]), body);
            StmtLaid(code, lo, s) && StmtShaped(s, inLoop) && lo + StmtSize(s) == code[lo].endPc
  {
  }

  /** The block read from a well-nested region is shaped properly and is laid out there. */
  lemma {:induction false} DecompileIsLaid(code: seq<Instr>, lo: nat, hi: nat, inLoop: bool)
    requires lo <= hi <= |code| && NestedIn(code, lo, hi, inLoop)
    ensures Shaped(Decompile(code, lo, hi, inLoop), inLoop)
    ensures Laid(code, lo, Decompile(code, lo, hi, inLoop))
    decreases hi - lo, 1
  {
    if lo == hi {
    } else if code[lo].IfMatch? {
      DecompiledIf(code, lo, hi, inLoop);
    } else if IsFor(code[lo]) {
      DecompiledFor(code, lo, hi, inLoop);
    } else {
      hide StmtLaid, StmtShaped, StmtSize, Single;
      SingleIsLaid(code, lo, inLoop);
      DecompileIsLaid(code, lo + 1, hi, inLoop);
    }
  }

  lemma {:induction false} DecompiledIf(code: seq<Instr>, lo: nat, hi: nat, inLoop: bool)
    requires lo < hi <= |code| && code[lo].IfMatch? && NestedIn(code, lo, hi, inLoop)
    ensures Shaped(Decompile(code, lo, hi, inLoop), inLoop)
    ensures Laid(code, lo, Decompile(code, lo, hi, inLoop))
    decreases hi - lo, 0
  {
    hide StmtLaid, StmtShaped, StmtSize;
    var e := code[lo].elsePc;
    DecompileIsLaid(code, lo + 1, e, inLoop);
    DecompileIsLaid(code, e, hi, inLoop);
    IfIsLaid(code, lo, Decompile(code, lo + 1, e, inLoop), inLoop);
  }

  lemma UnfoldFor(code: seq<Instr>, lo: nat, hi: nat, inLoop: bool)
    requires lo < hi <= |code| && IsFor(code[lo]) && NestedIn(code, lo, hi, inLoop)
    ensures lo + 2 <= code[lo].endPc <= hi && code[code[lo].endPc - 1] == LoopBack
    ensures NestedIn(code, lo + 1, code[lo].endPc - 1, true) && NestedIn(code, code[lo].endPc, hi, inLoop)
    ensures Decompile(code, lo, hi, inLoop)
         == Then(For(HeadOf(code[lo]), Decompile(code, lo + 1, code[lo].endPc - 1, true)),
                 Decompile(code, code[lo].endPc, hi, inLoop))
  {
  }

  lemma {:induction false} DecompiledFor(code: seq<Instr>, lo: nat, hi: nat, inLoop: bool)
    requires lo < hi <= |code| && IsFor(code[lo]) && NestedIn(code, lo, hi, inLoop)
    ensures Shaped(Decompile(code, lo, hi, inLoop), inLoop)
    ensures Laid(code, lo, Decompile(code, lo, hi, inLoop))
    decreases hi - lo, 0
  {
    hide StmtLaid, StmtShaped, StmtSize, HeadOf, NestedIn, Decompile;
    UnfoldFor(code, lo, hi, inLoop);
    var e := code[lo].endPc;
    DecompileIsLaid(code, lo + 1, e - 1, true);
    DecompileIsLaid(code, e, hi, inLoop);
    LoopIsLaid(code, lo, Decompile(code, lo + 1, e - 1, true), inLoop);
  }

  lemma {:induction false} LaidFits(code: seq<Instr>, lo: nat, b: Block)
    requires Laid(code, lo, b)
    ensures lo + Size(b) <= |code|
    decreases b
  {
    hide StmtLaid;
    if b.Then? {
      LaidFits(code, lo + StmtSize(b.head), b.tail);
    }
  }

  lemma LaidInstr(code: seq<Instr>, lo: nat, s: Stmt, inLoop: bool)
    requires StmtLaid(code, lo, s) && StmtShaped(s, inLoop)
    ensures !s.If? && !s.For? ==> 
              && Single(code[lo]) == s && !code[lo].IfMatch? && !IsFor(code[lo]) && code[lo] != LoopBack
              && StmtSize(s) == 1
    ensures code[lo].Break? || code[lo].Continue? ==> inLoop
    ensures s.If? ==>
              && StmtSize(s) == 1 + Size(s.body) && Shaped(s.body, inLoop) && Laid(code, lo + 1, s.body)
              && code[lo] == IfMatch(s.matcher, lo + StmtSize(s))
    ensures s.For? ==>
              && StmtSize(s) == 2 + Size(s.body) && Shaped(s.body, true) && Laid(code, lo + 1, s.body)
              && IsFor(code[lo]) && HeadOf(code[lo]) == s.loop && code[lo].endPc == lo + StmtSize(s)
              && lo + StmtSize(s) <= |code| && code[lo + StmtSize(s) - 1] == LoopBack
  {
  }

  lemma FoldEmpty(code: seq<Instr>, lo: nat, inLoop: bool)
    requires lo <= |code|
    ensures NestedIn(code, lo, lo, inLoop) && Decompile(code, lo, lo, inLoop) == End
  {
  }

  lemma FoldIf(code: seq<Instr>, lo: nat, hi: nat, inLoop: bool)
    requires lo < hi <= |code| && code[lo].IfMatch? && lo < code[lo].elsePc <= hi
    requires NestedIn(code, lo + 1, code[lo].elsePc, inLoop) && NestedIn(code, code[lo].elsePc, hi, inLoop)
    ensures NestedIn(code, lo, hi, inLoop)
    ensures Decompile(code, lo, hi, inLoop)
         == Then(If(code[lo].matcher, Decompile(code, lo + 1, code[lo].elsePc, inLoop)),
                 Decompile(code, code[lo].elsePc, hi, inLoop))
  {
  }

  lemma FoldFor(code: seq<Instr>, lo: nat, hi: nat, inLoop: bool)
    requires lo < hi <= |code| && IsFor(code[lo]) && lo + 2 <= code[lo].endPc <= hi
    requires code[code[lo].endPc - 1] == LoopBack
    requires NestedIn(code, lo + 1, code[lo].endPc - 1, true) && NestedIn(code, code[lo].endPc, hi, inLoop)
    ensures NestedIn(code, lo, hi, inLoop)
    ensures Decompile(code, lo, hi, inLoop)
         == Then(For(HeadOf(code[lo]), Decompile(code, lo + 1, code[lo].endPc - 1, true)),
                 Decompile(code, code[lo].endPc, hi, inLoop))
  {
  }

  lemma FoldSingle(code: seq<Instr>, lo: nat, hi: nat, inLoop: bool)
    requires lo < hi <= |code| && !code[lo].IfMatch? && !IsFor(code[lo]) && code[lo] != LoopBack
    requires code[lo].Break? || code[lo].Continue? ==> inLoop
    requires NestedIn(code, lo + 1, hi, inLoop)
    ensures NestedIn(code, lo, hi, inLoop)
    ensures Decompile(code, lo, hi, inLoop) == Then(Single(code[lo]), Decompile(code, lo + 1, hi, inLoop))
  {
  }

  lemma BlockParts(code: seq<Instr>, lo: nat, b: Block, inLoop: bool)
    requires Laid(code, lo, b) && Shaped(b, inLoop)
    ensures b.End? ==> Size(b) == 0
    ensures b.Then? ==>
              && StmtLaid(code, lo, b.head) && StmtShaped(b.head, inLoop)
              && Laid(code, lo + StmtSize(b.head), b.tail) && Shaped(b.tail, inLoop)
              && Size(b) == StmtSize(b.head) + Size(b.tail)
  {
    hide StmtLaid, StmtShaped, StmtSize;
  }

  /** A laid-out block makes its region well nested, and decompiling gives that block back. */
  lemma {:induction false} LaidIsNested(code: seq<Instr>, lo: nat, b: Block, inLoop: bool)
    requires Laid(code, lo, b) && Shaped(b, inLoop)
    ensures lo + Size(b) <= |code| && NestedIn(code, lo, lo + Size(b), inLoop)
    ensures Decompile(code, lo, lo + Size(b), inLoop) == b
    decreases b
  {
    hide StmtLaid, StmtShaped, StmtSize, Single, HeadOf, NestedIn, Decompile, Laid, Shaped, Size;
    LaidFits(code, lo, b);
    BlockParts(code, lo, b, inLoop);
    if b.End? {
      FoldEmpty(code, lo, inLoop);
    } else {
      var hi := lo + Size(b);
      LaidInstr(code, lo, b.head, inLoop);
      LaidIsNested(code, lo + StmtSize(b.head), b.tail, inLoop);
      if b.head.If? {
        LaidIsNested(code, lo + 1, b.head.body, inLoop);
        FoldIf(code, lo, hi, inLoop);
      } else if b.head.For? {
        LaidIsNested(code, lo + 1, b.head.body, true);
        FoldFor(code, lo, hi, inLoop);
      } else {
        FoldSingle(code, lo, hi, inLoop);
      }
    }
  }

  /** `b` is the structured program that `code` lays out. */
  predicate IsProgram(code: seq<Instr>, b: Block) {
    Shaped(b, false) && Laid(code, 0, b) && Size(b) == |code|
  }

  /** Code is well nested exactly when it is the layout of some block, and that block is unique. */
  lemma WellNestedIffLayout(code: seq<Instr>)
    ensures WellNested(code) <==> exists b :: IsProgram(code, b)
    ensures forall b, c :: IsProgram(code, b) && IsProgram(code, c) ==> b == c
  {
    hide NestedIn, Decompile, Laid, Shaped, Size;
    if WellNested(code) {
      DecompileIsLaid(code, 0, |code|, false);
      assert IsProgram(code, Decompile(code, 0, |code|, false));
    }
    forall b | IsProgram(code, b)
      ensures WellNested(code) && Decompile(code, 0, |code|, false) == b
    {
      LaidIsNested(code, 0, b, false);
    }
  }

  // ---------- an example ----------

  /** A loop in a loop, with a guarded `break` and a `continue`, and a `stop` after it, is read back as such. */
  lemma NestedLoops(code: seq<Instr>, outer: LoopHead, inner: LoopHead, m: u32, k: u32)
    requires code == [HeadInstr(outer, 8), IfMatch(m, 3), Break, HeadInstr(inner, 6), Continue, LoopBack, Match(k),
                      LoopBack, Stop]
    ensures WellNested(code)
    ensures Decompile(code, 0, 9, false)
         == Then(For(outer, Then(If(m, Then(BreakLoop, End)),
                            Then(For(inner, Then(ContinueLoop, End)), Then(Basic(Match(k)), End)))),
                 Then(StopRun, End))
  {
    hide NestedIn, Decompile;
    var guarded, repeated := If(m, Then(BreakLoop, End)), For(inner, Then(ContinueLoop, End));
    var body := Then(guarded, Then(repeated, Then(Basic(Match(k)), End)));
    assert Laid(code, 3, End) && StmtLaid(code, 2, BreakLoop);
    assert Laid(code, 2, guarded.body) && Size(guarded.body) == 1;
    assert StmtLaid(code, 1, guarded);
    assert Laid(code, 5, End) && StmtLaid(code, 4, ContinueLoop);
    assert Laid(code, 4, repeated.body) && Size(repeated.body) == 1;
    assert StmtLaid(code, 3, repeated);
    assert Laid(code, 7, End) && Laid(code, 6, Then(Basic(Match(k)), End));
    assert Size(body.tail.tail) == 1 && Size(body.tail) == 4 && Size(body) == 6;
    assert Laid(code, 3, body.tail) && Laid(code, 1, body);
    var program := Then(For(outer, body), Then(StopRun, End));
    assert StmtLaid(code, 0, program.head);
    assert Laid(code, 9, End) && Laid(code, 8, program.tail) && Laid(code, 0, program) && Size(program) == 9;
    assert Shaped(guarded.body, true) && Shaped(repeated.body, true) && Shaped(body.tail.tail, true);
    assert Shaped(body.tail, true) && Shaped(body, true) && Shaped(program, false);
    LaidIsNested(code, 0, program, false);
  }
}
