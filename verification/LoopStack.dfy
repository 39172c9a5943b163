/** In well-nested code the dynamic loop stack is the static nesting of the program counter. */
module LoopStack {
  import opened Contract
  import opened Vm
  import opened Structured
  import opened Safety

  /** The addresses of one loop of the code. */
  datatype Extent = Extent(headPc: nat, continuePc: nat, endPc: nat)

  /** The loops of `b`, laid out at `lo`, whose bodies (with their `loop_back`) contain `pc`; outermost first. */
  function Enclosing(b: Block, lo: nat, pc: nat): seq<Extent> {
    match b
    case End => []
    case Then(s, tail) =>
      if pc <= lo then []
      else if pc >= lo + StmtSize(s) then Enclosing(tail, lo + StmtSize(s), pc)
      else
        match s
        case If(_, body) => Enclosing(body, lo + 1, pc)
        case For(_, body) => Ring(s, lo) + Enclosing(body, lo + 1, pc)
        case _ => []
  }

  /** The loop a statement at `lo` itself adds around its body. */
  function Ring(s: Stmt, lo: nat): seq<Extent> {
    if s.For? then [Extent(lo + 1, lo + 1 + Size(s.body), lo + 2 + Size(s.body))] else []
  }

  lemma {:induction false} EnclosingAtEnd(b: Block, lo: nat)
    ensures Enclosing(b, lo, lo + Size(b)) == []
  {
    if b.Then? {
      EnclosingAtEnd(b.tail, lo + StmtSize(b.head));
    }
  }

  lemma EnclosingAtStart(b: Block, lo: nat)
    ensures Enclosing(b, lo, lo) == []
  {
  }

  /** From inside a statement's body up to the point just past it. */
  lemma BodyView(b: Block, lo: nat, pc: nat)
    requires b.Then? && (b.head.If? || b.head.For?) && lo < pc <= lo + 1 + Size(b.head.body)
    ensures Enclosing(b, lo, pc) == Ring(b.head, lo) + Enclosing(b.head.body, lo + 1, pc)
  {
    if b.head.If? {
      EnclosingAtEnd(b.head.body, lo + 1);
      EnclosingAtStart(b.tail, lo + StmtSize(b.head));
    }
  }

  /** Where the static nesting can go from the instruction at `pc`. */
  predicate NestingFollows(code: seq<Instr>, lo: nat, b: Block, pc: nat)
    requires pc < |code|
  {
    var here, hi := Enclosing(b, lo, pc), lo + Size(b);
    if IsFor(code[pc]) then
      var e := code[pc].endPc;
      && pc + 2 <= e <= hi
      && Enclosing(b, lo, pc + 1) == here + [Extent(pc + 1, e - 1, e)]
      && Enclosing(b, lo, e) == here
    else if code[pc].IfMatch? then
      pc < code[pc].elsePc <= hi && Enclosing(b, lo, pc + 1) == here == Enclosing(b, lo, code[pc].elsePc)
    else if code[pc] == LoopBack then here != [] && here[|here| - 1].continuePc == pc
    else Enclosing(b, lo, pc + 1) == here
  }

  lemma {:induction false} Nesting(code: seq<Instr>, lo: nat, b: Block, pc: nat, inLoop: bool)
    requires Laid(code, lo, b) && Shaped(b, inLoop) && lo <= pc < lo + Size(b)
    ensures pc < |code| && NestingFollows(code, lo, b, pc)
    decreases b, 1
  {
    hide StmtLaid, StmtShaped, StmtSize, HeadOf;
    LaidFits(code, lo, b);
    var s, next := b.head, lo + StmtSize(b.head);
    LaidInstr(code, lo, s, inLoop);
    EnclosingAtStart(b.tail, next);
    if pc == lo {
      if s.If? || s.For? {
        EnclosingAtStart(s.body, lo + 1);
      }
    } else if pc >= next {
      Nesting(code, next, b.tail, pc, inLoop);
    } else {
      NestingInBody(code, lo, b, pc, inLoop);
    }
  }

  lemma {:induction false} NestingInBody(code: seq<Instr>, lo: nat, b: Block, pc: nat, inLoop: bool)
    requires b.Then? && Laid(code, lo, b) && Shaped(b, inLoop) && lo < pc < lo + StmtSize(b.head)
    requires b.head.If? || b.head.For?
    ensures pc < |code| && NestingFollows(code, lo, b, pc)
    decreases b, 0
  {
    hide StmtLaid, StmtShaped, HeadOf, Enclosing;
    LaidFits(code, lo, b);
    var s := b.head;
    LaidInstr(code, lo, s, inLoop);
    BodyView(b, lo, pc);
    if pc < lo + 1 + Size(s.body) {
      Nesting(code, lo + 1, s.body, pc, inLoop || s.For?);
      BodyView(b, lo, pc + 1);
      if IsFor(code[pc]) {
        BodyView(b, lo, code[pc].endPc);
      } else if code[pc].IfMatch? {
        BodyView(b, lo, code[pc].elsePc);
      }
    } else {
      EnclosingAtEnd(s.body, lo + 1);
    }
  }

  /** The innermost loop's head and `loop_back` are nested as `pc` is; its end is one level out. */
  predicate Innermost(b: Block, lo: nat, here: seq<Extent>)
    requires here != []
  {
    var e := here[|here| - 1];
    && lo < e.headPc <= e.continuePc < e.endPc <= lo + Size(b)
    && Enclosing(b, lo, e.headPc) == here && Enclosing(b, lo, e.continuePc) == here
    && Enclosing(b, lo, e.endPc) == here[..|here| - 1]
  }

  lemma {:induction false} InnermostExtent(b: Block, lo: nat, pc: nat)
    requires lo <= pc <= lo + Size(b) && Enclosing(b, lo, pc) != []
    ensures Innermost(b, lo, Enclosing(b, lo, pc))
    decreases b, 1
  {
    if pc >= lo + StmtSize(b.head) {
      InnermostExtent(b.tail, lo + StmtSize(b.head), pc);
    } else {
      InnermostInBody(b, lo, pc);
    }
  }

  lemma {:induction false} InnermostInBody(b: Block, lo: nat, pc: nat)
    requires b.Then? && (b.head.If? || b.head.For?) && lo < pc < lo + StmtSize(b.head) && Enclosing(b, lo, pc) != []
    ensures Innermost(b, lo, Enclosing(b, lo, pc))
    decreases b, 0
  {
    hide Enclosing;
    var body := b.head.body;
    BodyView(b, lo, pc);
    if Enclosing(body, lo + 1, pc) != [] {
      InnermostExtent(body, lo + 1, pc);
      var inner := Enclosing(body, lo + 1, pc);
      var e := inner[|inner| - 1];
      BodyView(b, lo, e.headPc);
      BodyView(b, lo, e.continuePc);
      BodyView(b, lo, e.endPc);
      assert (Ring(b.head, lo) + inner)[..|Ring(b.head, lo) + inner| - 1] == Ring(b.head, lo) + inner[..|inner| - 1];
    } else {
      RingIsInnermost(b, lo);
    }
  }

  lemma RingIsInnermost(b: Block, lo: nat)
    requires b.Then? && b.head.For?
    ensures Innermost(b, lo, Ring(b.head, lo))
  {
    EnclosingAtStart(b.head.body, lo + 1);
    EnclosingAtEnd(b.head.body, lo + 1);
    EnclosingAtStart(b.tail, lo + StmtSize(b.head));
  }

  lemma {:induction false} BreakIsInside(code: seq<Instr>, lo: nat, b: Block, pc: nat, inLoop: bool)
    requires Laid(code, lo, b) && Shaped(b, inLoop) && lo <= pc < lo + Size(b) && pc < |code|
    requires code[pc] == Break || code[pc] == Continue
    ensures inLoop || Enclosing(b, lo, pc) != []
    decreases b
  {
    hide StmtLaid;
    var s, next := b.head, lo + StmtSize(b.head);
    LaidInstr(code, lo, s, inLoop);
    if pc >= next {
      BreakIsInside(code, next, b.tail, pc, inLoop);
    } else if pc > lo && s.If? {
      BreakIsInside(code, lo + 1, s.body, pc, inLoop);
    }
  }

  predicate FrameAt(f: LoopFrame, e: Extent) {
    f.headPc == e.headPc && f.continuePc == e.continuePc && f.endPc == e.endPc && f.index < |f.values|
  }

  predicate StackIs(stack: seq<LoopFrame>, extents: seq<Extent>) {
    |stack| == |extents| && forall i | 0 <= i < |stack| :: FrameAt(stack[i], extents[i])
  }

  /** The invariant: same depth, each frame with the addresses of its enclosing loop, index in range. */
  predicate NestedState(b: Block, m: Machine) {
    m.Running? ==> m.pc <= Size(b) && StackIs(m.stack, Enclosing(b, 0, m.pc))
  }

  predicate OutsideLoopError(m: Machine) {
    m.Failed? && m.error.Other? && m.error.reason.OutsideLoop?
  }

  lemma PushKeeps(stack: seq<LoopFrame>, extents: seq<Extent>, f: LoopFrame, e: Extent)
    requires StackIs(stack, extents) && FrameAt(f, e)
    ensures StackIs(stack + [f], extents + [e])
  {
  }

  /** Entering a loop, or passing over an empty one. */
  lemma ForKeepsNesting(x: Executor, code: seq<Instr>, b: Block, m: Machine)
    requires IsProgram(code, b) && NestedState(b, m) && m.Running? && m.pc < |code| && IsFor(code[m.pc])
    ensures NestedState(b, StepFor(x, code[m.pc], m.pc, m.st, m.stack))
    ensures !OutsideLoopError(StepFor(x, code[m.pc], m.pc, m.st, m.stack))
  {
    hide LoopValues, Laid, Shaped, Enclosing;
    Nesting(code, 0, b, m.pc, false);
    var i := code[m.pc];
    if At(x.strings, i.item).Ok? && LoopValues(x, i, m.st).Ok? {
      var next := EnterForeach(x.strings[i.item], LoopValues(x, i, m.st).value, m.pc, i.endPc, m.st, m.stack);
      if |next.stack| > |m.stack| {
        PushKeeps(m.stack, Enclosing(b, 0, m.pc), Top(next.stack), Extent(m.pc + 1, i.endPc - 1, i.endPc));
      }
    } else {
      ForErrors(x, i, m.st);
    }
  }

  lemma ForErrors(x: Executor, i: Instr, st: State)
    requires IsFor(i)
    ensures LoopValues(x, i, st).Err? ==> Ordinary(LoopValues(x, i, st).error) || LoopValues(x, i, st).error.Panic?
  {
    hide InterpolateAll;
    if i.ForList? && StringRange(x, i.start, i.len).Ok? {
      InterpolateAllFine(StringRange(x, i.start, i.len).value, st.variables);
    }
  }

  /** `loop_back`, `break` and `continue` always find their loop. */
  lemma LoopExitKeepsNesting(x: Executor, code: seq<Instr>, b: Block, m: Machine)
    requires IsProgram(code, b) && NestedState(b, m) && m.Running? && m.pc < |code|
    requires code[m.pc] == LoopBack || code[m.pc] == Break || code[m.pc] == Continue
    ensures NestedState(b, Step(x, code, m)) && Step(x, code, m).Running?
  {
    hide StepBasic, StepFor, StepIf, Laid, Shaped, Enclosing;
    Nesting(code, 0, b, m.pc, false);
    if code[m.pc] != LoopBack {
      BreakIsInside(code, 0, b, m.pc, false);
    }
    InnermostExtent(b, 0, m.pc);
  }

  lemma StepKeepsNesting(x: Executor, code: seq<Instr>, b: Block, m: Machine)
    requires IsProgram(code, b)
    requires NestedState(b, m) && !OutsideLoopError(m)
    ensures NestedState(b, Step(x, code, m)) && !OutsideLoopError(Step(x, code, m))
  {
    hide ExecBasic, MatchesIdx, StepFor, LoopValues, Laid, Shaped, Enclosing;
    if m.Running? && m.pc < |code| {
      var i := code[m.pc];
      if IsFor(i) {
        ForKeepsNesting(x, code, b, m);
      } else if i == LoopBack || i == Break || i == Continue {
        LoopExitKeepsNesting(x, code, b, m);
      } else {
        Nesting(code, 0, b, m.pc, false);
        if IsBasic(i) {
          BasicFine(x, i, m.st);
        } else if i.IfMatch? {
          MatchesFine(x, i.matcher, m.st);
        }
      }
    }
  }

  /** Every reachable state of a well-nested program. */
  lemma {:induction false} ReachableNesting(x: Executor, code: seq<Instr>, b: Block, n: nat)
    requires IsProgram(code, b)
    ensures NestedState(b, Iterate(x, code, InitialMachine(x), n))
    ensures !OutsideLoopError(Iterate(x, code, InitialMachine(x), n))
    decreases n
  {
    hide Step, InitialState;
    EnclosingAtStart(b, 0);
    if n > 0 {
      ReachableNesting(x, code, b, n - 1);
      IterateAdd(x, code, InitialMachine(x), n - 1, 1);
      var m := Iterate(x, code, InitialMachine(x), n - 1);
      assert Iterate(x, code, m, 1) == Iterate(x, code, Step(x, code, m), 0);
      StepKeepsNesting(x, code, b, m);
    }
  }
}
