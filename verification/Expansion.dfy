/** Replacing every `match_all` by single matches, with all jump targets relocated, keeps the meaning. */
module Expansion {
  import opened Prelude
  import opened Contract
  import opened Runtime
  import opened Matcher
  import opened Vm
  import opened Structured
  import opened Refinement
  import opened Safety
  import opened Validate

  // ---------- the rewriting of the code ----------

  /** Instructions that replace one instruction. */
  function Width(i: Instr): nat {
    if i.MatchAll? then i.len else 1
  }

  /** The new address of the instruction at `n`: the widths of everything before it. */
  function NewPc(code: seq<Instr>, n: nat): nat
    requires n <= |code|
  {
    if n == 0 then 0 else NewPc(code, n - 1) + Width(code[n - 1])
  }

  /** Every relocated address still is a 32-bit program counter, and so is every matcher index. */
  predicate Fits(code: seq<Instr>) {
    && (forall n | 0 <= n <= |code| :: NewPc(code, n) < U32_LIMIT)
    && forall i | i in code && i.MatchAll? :: i.start + i.len <= U32_LIMIT
  }

  function Relocate(code: seq<Instr>, target: u32): u32
    requires Fits(code)
  {
    if target <= |code| then NewPc(code, target) else target
  }

  /** What replaces the instruction at `pc`. */
  function Piece(code: seq<Instr>, pc: nat): (r: seq<Instr>)
    requires pc < |code| && Fits(code)
    ensures |r| == Width(code[pc])
  {
    match code[pc]
    case MatchAll(start, len) =>
      assert code[pc] in code;
      seq(len, k requires 0 <= k < len => Match(start + k))
    case IfMatch(m, e) => [IfMatch(m, Relocate(code, e))]
    case ForList(item, start, len, e) => [ForList(item, start, len, Relocate(code, e))]
    case ForVar(item, list, e) => [ForVar(item, list, Relocate(code, e))]
    case i => [i]
  }

  function RewriteUpTo(code: seq<Instr>, n: nat): (r: seq<Instr>)
    requires n <= |code| && Fits(code)
    ensures |r| == NewPc(code, n)
  {
    if n == 0 then [] else RewriteUpTo(code, n - 1) + Piece(code, n - 1)
  }

  function Rewrite(code: seq<Instr>): seq<Instr>
    requires Fits(code)
  {
    RewriteUpTo(code, |code|)
  }

  lemma {:induction false} NewPcMonotone(code: seq<Instr>, m: nat, n: nat)
    requires m <= n <= |code|
    ensures NewPc(code, m) <= NewPc(code, n)
    decreases n
  {
    if m < n {
      NewPcMonotone(code, m, n - 1);
    }
  }

  /** Instruction `k` of the piece for `pc` sits at the relocated address plus `k`. */
  lemma {:induction false} PieceAt(code: seq<Instr>, pc: nat, k: nat, n: nat)
    requires Fits(code) && pc < n <= |code| && k < Width(code[pc])
    ensures NewPc(code, pc) + k < NewPc(code, n)
    ensures RewriteUpTo(code, n)[NewPc(code, pc) + k] == Piece(code, pc)[k]
    decreases n
  {
    hide Piece, Fits;
    var init, last := RewriteUpTo(code, n - 1), Piece(code, n - 1);
    assert RewriteUpTo(code, n) == init + last;
    if pc + 1 < n {
      PieceAt(code, pc, k, n - 1);
    } else {
      assert (init + last)[|init| + k] == last[k];
    }
  }

  // ---------- the rewriting of the structured program ----------

  function Matches(start: nat, len: nat, rest: Block): Block
    requires start + len <= U32_LIMIT
    decreases len
  {
    if len == 0 then rest else Then(Basic(Match(start)), Matches(start + 1, len - 1, rest))
  }

  function Expand(b: Block): Block {
    match b
    case End => End
    case Then(s, tail) =>
      match s
      case Basic(i) =>
        if i.MatchAll? && i.start + i.len <= U32_LIMIT then Matches(i.start, i.len, Expand(tail))
        else Then(s, Expand(tail))
      case If(m, body) => Then(If(m, Expand(body)), Expand(tail))
      case For(h, body) => Then(For(h, Expand(body)), Expand(tail))
      case _ => Then(s, Expand(tail))
  }

  lemma {:induction false} MatchesShape(start: nat, len: nat, rest: Block, inLoop: bool)
    requires start + len <= U32_LIMIT && Shaped(rest, inLoop)
    ensures Size(Matches(start, len, rest)) == len + Size(rest) && Shaped(Matches(start, len, rest), inLoop)
    decreases len
  {
    if len > 0 {
      MatchesShape(start + 1, len - 1, rest, inLoop);
    }
  }

  lemma {:induction false} ExpandShaped(b: Block, inLoop: bool)
    requires Shaped(b, inLoop)
    ensures Shaped(Expand(b), inLoop)
    decreases b
  {
    if b.Then? {
      ExpandShaped(b.tail, inLoop);
      match b.head
      case Basic(i) =>
        if i.MatchAll? && i.start + i.len <= U32_LIMIT {
          MatchesShape(i.start, i.len, Expand(b.tail), inLoop);
        }
      case If(_, body) => ExpandShaped(body, inLoop);
      case For(_, body) => ExpandShaped(body, true);
      case _ =>
    }
  }

  predicate MatchRun(code: seq<Instr>, at: nat, start: nat, len: nat)
    requires start + len <= U32_LIMIT
  {
    at + len <= |code| && forall k | at <= k < at + len :: code[k] == Match(start + (k - at))
  }

  lemma {:induction false} MatchesLaid(code: seq<Instr>, at: nat, start: nat, len: nat, rest: Block)
    requires start + len <= U32_LIMIT && MatchRun(code, at, start, len)
    requires Laid(code, at + len, rest)
    ensures Laid(code, at, Matches(start, len, rest))
    decreases len
  {
    if len > 0 {
      MatchesLaid(code, at + 1, start + 1, len - 1, rest);
    }
  }

  /** The statement that replaces an `if` or a `for`. */
  function ExpandStmt(s: Stmt): Stmt
    requires s.If? || s.For?
  {
    if s.If? then If(s.matcher, Expand(s.body)) else For(s.loop, Expand(s.body))
  }

  lemma ExpandedNested(code: seq<Instr>, lo: nat, s: Stmt)
    requires Fits(code) && StmtLaid(code, lo, s) && (s.If? || s.For?) && lo + StmtSize(s) <= |code|
    requires NewPc(code, lo + 1) + Size(Expand(s.body)) == NewPc(code, lo + 1 + Size(s.body))
    requires Laid(Rewrite(code), NewPc(code, lo + 1), Expand(s.body))
    ensures StmtLaid(Rewrite(code), NewPc(code, lo), ExpandStmt(s))
    ensures NewPc(code, lo) + StmtSize(ExpandStmt(s)) == NewPc(code, lo + StmtSize(s))
  {
    hide Expand, Laid, Size, Rewrite, Fits, Piece;
    assert NewPc(code, lo + 1) == NewPc(code, lo) + 1;
    HeaderMoved(code, lo);
    if s.For? {
      var back := lo + 1 + Size(s.body);
      HeaderMoved(code, back);
      assert NewPc(code, back + 1) == NewPc(code, back) + 1;
    }
    FitsAt(code, lo + StmtSize(s));
  }

  lemma FitsAt(code: seq<Instr>, n: nat)
    requires Fits(code) && n <= |code|
    ensures NewPc(code, n) < U32_LIMIT && (n < U32_LIMIT ==> Relocate(code, n) == NewPc(code, n))
  {
  }

  /** A loop or branch header, or a `loop_back`, at its new address. */
  lemma HeaderMoved(code: seq<Instr>, pc: nat)
    requires Fits(code) && pc < |code| && !code[pc].MatchAll?
    ensures NewPc(code, pc) < |Rewrite(code)|
    ensures Rewrite(code)[NewPc(code, pc)] ==
              match code[pc]
              case IfMatch(m, e) => IfMatch(m, Relocate(code, e))
              case ForList(item, start, len, e) => ForList(item, start, len, Relocate(code, e))
              case ForVar(item, list, e) => ForVar(item, list, Relocate(code, e))
              case i => i
  {
    hide Fits, Relocate, NewPc, RewriteUpTo;
    PieceAt(code, pc, 0, |code|);
  }

  lemma ExpandedSingle(code: seq<Instr>, lo: nat, s: Stmt, rest: Block)
    requires Fits(code) && lo < |code| && !s.If? && !s.For?
    requires Single(code[lo]) == s && !code[lo].IfMatch? && !IsFor(code[lo]) && code[lo] != LoopBack
    requires Laid(Rewrite(code), NewPc(code, lo + 1), rest)
    ensures !code[lo].MatchAll? ==>
              StmtLaid(Rewrite(code), NewPc(code, lo), s) && NewPc(code, lo + 1) == NewPc(code, lo) + 1
    ensures code[lo].MatchAll? ==>
              && code[lo].start + code[lo].len <= U32_LIMIT && NewPc(code, lo + 1) == NewPc(code, lo) + code[lo].len
              && Laid(Rewrite(code), NewPc(code, lo), Matches(code[lo].start, code[lo].len, rest))
  {
    hide Laid, Rewrite, Fits, Piece, MatchRun, Matches;
    assert NewPc(code, lo + 1) == NewPc(code, lo) + Width(code[lo]);
    if code[lo].MatchAll? {
      MatchAllMoved(code, lo);
      MatchesLaid(Rewrite(code), NewPc(code, lo), code[lo].start, code[lo].len, rest);
    } else {
      HeaderMoved(code, lo);
    }
  }

  lemma MatchAllMoved(code: seq<Instr>, lo: nat)
    requires Fits(code) && lo < |code| && code[lo].MatchAll?
    ensures code[lo].start + code[lo].len <= U32_LIMIT
    ensures MatchRun(Rewrite(code), NewPc(code, lo), code[lo].start, code[lo].len)
  {
    hide NewPc, RewriteUpTo;
    assert code[lo] in code;
    assert NewPc(code, lo + 1) == NewPc(code, lo) + code[lo].len by { WidthOf(code, lo); }
    NewPcMonotone(code, lo + 1, |code|);
    forall k | NewPc(code, lo) <= k < NewPc(code, lo) + code[lo].len
      ensures Rewrite(code)[k] == Match(code[lo].start + (k - NewPc(code, lo)))
    {
      PieceAt(code, lo, k - NewPc(code, lo), |code|);
    }
  }

  lemma WidthOf(code: seq<Instr>, lo: nat)
    requires lo < |code|
    ensures NewPc(code, lo + 1) == NewPc(code, lo) + Width(code[lo])
  {
  }

  lemma LaidThen(code: seq<Instr>, lo: nat, s: Stmt, tail: Block)
    requires StmtLaid(code, lo, s) && Laid(code, lo + StmtSize(s), tail)
    ensures Laid(code, lo, Then(s, tail)) && Size(Then(s, tail)) == StmtSize(s) + Size(tail)
  {
  }

  lemma ExpandUnfold(b: Block)
    requires b.Then?
    ensures b.head.If? || b.head.For? ==> Expand(b) == Then(ExpandStmt(b.head), Expand(b.tail))
    ensures b.head.Basic? && b.head.instr.MatchAll? && b.head.instr.start + b.head.instr.len <= U32_LIMIT ==>
              Expand(b) == Matches(b.head.instr.start, b.head.instr.len, Expand(b.tail))
    ensures !b.head.If? && !b.head.For? && !(b.head.Basic? && b.head.instr.MatchAll?) ==>
              Expand(b) == Then(b.head, Expand(b.tail))
  {
  }

  lemma LaidParts(code: seq<Instr>, lo: nat, b: Block, inLoop: bool)
    requires Laid(code, lo, b) && Shaped(b, inLoop) && b.Then?
    ensures StmtLaid(code, lo, b.head) && Laid(code, lo + StmtSize(b.head), b.tail)
    ensures StmtShaped(b.head, inLoop) && Shaped(b.tail, inLoop)
    ensures Size(b) == StmtSize(b.head) + Size(b.tail)
  {
  }

  /** The rewritten code lays out the expanded block, from the relocated address on. */
  predicate ExpandedAt(code: seq<Instr>, lo: nat, b: Block)
    requires Fits(code) && lo + Size(b) <= |code|
  {
    && NewPc(code, lo) + Size(Expand(b)) == NewPc(code, lo + Size(b))
    && Laid(Rewrite(code), NewPc(code, lo), Expand(b))
  }

  lemma {:induction false} ExpandLaid(code: seq<Instr>, lo: nat, b: Block, inLoop: bool)
    requires Fits(code) && Laid(code, lo, b) && Shaped(b, inLoop)
    ensures lo + Size(b) <= |code| && ExpandedAt(code, lo, b)
    decreases b
  {
    hide *;
    LaidFits(code, lo, b);
    if b.End? {
      ExpandEnd(code, lo);
    } else {
      LaidParts(code, lo, b, inLoop);
      var s := b.head;
      ExpandLaid(code, lo + StmtSize(s), b.tail, inLoop);
      LaidInstr(code, lo, s, inLoop);
      if s.If? || s.For? {
        ExpandLaid(code, lo + 1, s.body, inLoop || s.For?);
        ExpandNested(code, lo, b);
      } else {
        ExpandSingle(code, lo, b, inLoop);
      }
    }
  }

  lemma ExpandEnd(code: seq<Instr>, lo: nat)
    requires Fits(code) && lo <= |code|
    ensures ExpandedAt(code, lo, End)
  {
    hide RewriteUpTo;
    RewriteLength(code);
    NewPcMonotone(code, lo, |code|);
  }

  lemma ExpandNested(code: seq<Instr>, lo: nat, b: Block)
    requires Fits(code) && b.Then? && (b.head.If? || b.head.For?) && StmtLaid(code, lo, b.head)
    requires lo + Size(b) <= |code| && Size(b) == StmtSize(b.head) + Size(b.tail)
    requires ExpandedAt(code, lo + StmtSize(b.head), b.tail)
    requires lo + 1 + Size(b.head.body) <= |code| && ExpandedAt(code, lo + 1, b.head.body)
    ensures ExpandedAt(code, lo, b)
  {
    hide StmtLaid, StmtSize, NewPc, Rewrite, Expand, ExpandStmt, Laid, Size;
    ExpandUnfold(b);
    ExpandedNested(code, lo, b.head);
    LaidThen(Rewrite(code), NewPc(code, lo), ExpandStmt(b.head), Expand(b.tail));
  }

  lemma ExpandSingle(code: seq<Instr>, lo: nat, b: Block, inLoop: bool)
    requires Fits(code) && lo < |code| && b.Then? && !b.head.If? && !b.head.For? && Shaped(b.tail, inLoop)
    requires Single(code[lo]) == b.head && !code[lo].IfMatch? && !IsFor(code[lo]) && code[lo] != LoopBack
    requires lo + Size(b) <= |code| && Size(b) == StmtSize(b.head) + Size(b.tail) && StmtSize(b.head) == 1
    requires ExpandedAt(code, lo + 1, b.tail)
    ensures ExpandedAt(code, lo, b)
  {
    hide StmtLaid, StmtSize, NewPc, Rewrite, Expand, Laid, Size;
    var s := b.head;
    ExpandUnfold(b);
    ExpandedSingle(code, lo, s, Expand(b.tail));
    SingleSize(s, b.tail, inLoop);
    SingleKeepsKind(code[lo], s);
    if !code[lo].MatchAll? {
      LaidThen(Rewrite(code), NewPc(code, lo), s, Expand(b.tail));
    }
  }

  lemma SingleKeepsKind(i: Instr, s: Stmt)
    requires Single(i) == s
    ensures s.Basic? ==> s.instr == i
  {
  }

  lemma RewriteLength(code: seq<Instr>)
    requires Fits(code)
    ensures |Rewrite(code)| == NewPc(code, |code|)
  {
  }

  lemma SingleSize(s: Stmt, tail: Block, inLoop: bool)
    requires !s.If? && !s.For? && Shaped(tail, inLoop)
    ensures StmtSize(s) == 1
    ensures s.Basic? && s.instr.MatchAll? && s.instr.start + s.instr.len <= U32_LIMIT ==>
              Size(Matches(s.instr.start, s.instr.len, Expand(tail))) == s.instr.len + Size(Expand(tail))
  {
    ExpandShaped(tail, inLoop);
    if s.Basic? && s.instr.MatchAll? && s.instr.start + s.instr.len <= U32_LIMIT {
      MatchesShape(s.instr.start, s.instr.len, Expand(tail), inLoop);
    }
  }

  // ---------- meaning ----------

  /** Every `match_all` of the block is in range of the matcher pool. */
  predicate RangesOk(x: Executor, b: Block) {
    match b
    case End => true
    case Then(s, tail) =>
      && RangesOk(x, tail)
      && match s
         case Basic(i) => i.MatchAll? ==> RangeOk(i.start, i.len, |x.matchers|)
         case If(_, body) => RangesOk(x, body)
         case For(_, body) => RangesOk(x, body)
         case _ => true
  }

  /** `match_all` is its first match followed by `match_all` over the others. */
  lemma MatchAllStep(x: Executor, start: nat, len: nat, st: State)
    requires Aligned(x) && len > 0 && start + len <= |x.matchers|
    ensures ExecMatchAll(x, start, len, st)
         == match ExecMatch(x, start, st)
            case Ok(st') => ExecMatchAll(x, start + 1, len - 1, st')
            case Err(e) => Err(e)
  {
    hide EvaluateTarget;
    var ms, cs := x.matchers[start..start + len], x.matcherRegex[start..start + len];
    assert ms[1..] == x.matchers[start + 1..start + 1 + (len - 1)];
    assert cs[1..] == x.matcherRegex[start + 1..start + 1 + (len - 1)];
    assert ms[0] == x.matchers[start] && cs[0] == x.matcherRegex[start];
  }

  /** A run of single matches is one `match_all`: same latch, same first error. */
  lemma {:induction false} MatchesMeaning(x: Executor, start: nat, len: nat, rest: Block, st: State)
    requires Aligned(x) && start + len <= |x.matchers| && start + len <= U32_LIMIT
    ensures Exec(x, Matches(start, len, rest), st)
         == match ExecMatchAll(x, start, len, st)
            case Ok(st') => Exec(x, rest, st')
            case Err(e) => Aborted(e)
    decreases len
  {
    if len > 0 {
      hide Exec, Matches, ExecMatch, ExecMatchAll;
      MatchAllStep(x, start, len, st);
      MatchStep(x, start, rest, len, st);
      if ExecMatch(x, start, st).Ok? {
        MatchesMeaning(x, start + 1, len - 1, rest, ExecMatch(x, start, st).value);
      }
    }
  }

  lemma MatchStep(x: Executor, start: nat, rest: Block, len: nat, st: State)
    requires len > 0 && start + len <= U32_LIMIT
    ensures Exec(x, Matches(start, len, rest), st)
         == match ExecMatch(x, start, st)
            case Ok(st') => Exec(x, Matches(start + 1, len - 1, rest), st')
            case Err(e) => Aborted(e)
  {
    hide ExecMatch;
  }

  lemma {:induction false} ExpandMeaning(x: Executor, b: Block, st: State)
    requires Aligned(x) && RangesOk(x, b)
    ensures Exec(x, Expand(b), st) == Exec(x, b, st)
    decreases b, 0, 0
  {
    hide ExecBasic, Condition, LoopPlan;
    if b.Then? {
      var s := b.head;
      var r := ExecStmt(x, s, st);
      if r.Normal? {
        ExpandMeaning(x, b.tail, r.st);
      }
      match s
      case Basic(i) =>
        if i.MatchAll? && i.start + i.len <= U32_LIMIT {
          MatchAllMeaning(x, i, b.tail, st);
        }
      case If(_, body) => ExpandMeaning(x, body, st);
      case For(h, body) =>
        if LoopPlan(x, h, st).Ok? {
          var (item, values) := LoopPlan(x, h, st).value;
          ExpandLoop(x, body, item, values, Lookup(st.variables, item), st);
        }
      case _ =>
    }
  }

  lemma MatchAllMeaning(x: Executor, i: Instr, tail: Block, st: State)
    requires Aligned(x) && i.MatchAll? && RangeOk(i.start, i.len, |x.matchers|) && i.start + i.len <= U32_LIMIT
    ensures Exec(x, Matches(i.start, i.len, Expand(tail)), st)
         == var r := ExecStmt(x, Basic(i), st);
            if r.Normal? then Exec(x, Expand(tail), r.st) else r
  {
    hide ExecMatchAll;
    MatchesMeaning(x, i.start, i.len, Expand(tail), st);
  }

  lemma {:induction false} ExpandLoop(
    x: Executor, body: Block, item: Str, values: seq<Str>, previous: Option<VariableValue>, st: State)
    requires Aligned(x) && RangesOk(x, body)
    ensures Loop(x, Expand(body), item, values, previous, st) == Loop(x, body, item, values, previous, st)
    decreases body, 1, |values|
  {
    hide Expand, RangesOk, Exec;
    if values != [] {
      var st0 := SetText(st, item, values[0]);
      ExpandMeaning(x, body, st0);
      var r := Exec(x, body, st0);
      if (r.Normal? || r.Continued?) && |values| > 1 {
        ExpandLoop(x, body, item, values[1..], previous, r.st);
      }
    }
  }

  lemma {:induction false} LaidRanges(x: Executor, code: seq<Instr>, lo: nat, b: Block)
    requires Loaded(x, code) && Laid(code, lo, b)
    ensures RangesOk(x, b)
    decreases b
  {
    if b.Then? {
      LaidRanges(x, code, lo + StmtSize(b.head), b.tail);
      match b.head
      case Basic(i) => assert InstrOk(x, code[lo]);
      case If(_, body) => LaidRanges(x, code, lo + 1, body);
      case For(_, body) => LaidRanges(x, code, lo + 1, body);
      case _ =>
    }
  }

  /** The rewritten program is well nested again, and its runs end as the original's do,
      error or final state, whenever both budgets cover the step bounds. */
  lemma RewritePreservesRuns(x: Executor, code: seq<Instr>, budget: nat, newBudget: nat)
    requires WellNested(code) && Fits(code) && Loaded(x, code)
    requires budget >= Bound(code)
    ensures WellNested(Rewrite(code))
    ensures newBudget >= Bound(Rewrite(code)) ==>
              Run(x, Rewrite(code), InitialMachine(x), newBudget) == Run(x, code, InitialMachine(x), budget)
  {
    hide NestedIn, Decompile, Laid, Shaped, Size, Run, Exec, Cost, Expand;
    var b := Decompile(code, 0, |code|, false);
    DecompileIsLaid(code, 0, |code|, false);
    ExpandLaid(code, 0, b, false);
    ExpandShaped(b, false);
    RewriteLength(code);
    LaidIsNested(Rewrite(code), 0, Expand(b), false);
    LaidRanges(x, code, 0, b);
    ExpandMeaning(x, b, InitialState(x));
    WellNestedRun(x, code, budget);
    if newBudget >= Cost(Expand(b), LongestList(Rewrite(code))) {
      WellNestedRun(x, Rewrite(code), newBudget);
    }
  }
}
