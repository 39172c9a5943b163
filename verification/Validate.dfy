/** The operand checks that follow decoding. */
module Validate {
  import opened Contract

  predicate OneOk(i: nat, bound: nat) { i < bound }

  /** The sum is taken in a machine word wide enough not to wrap. */
  predicate RangeOk(start: nat, len: nat, bound: nat) { start + len <= bound }

  /** The bounds one instruction's operands must satisfy; jump targets are not checked. */
  predicate OperandsOk(i: Instr, strings: nat, payloads: nat, matchers: nat, extracts: nat, evidence: nat) {
    match i
    case Set(name, value) => OneOk(name, strings) && OneOk(value, strings)
    case SetList(name, start, len) => OneOk(name, strings) && RangeOk(start, len, strings)
    case Send(probe, payload) => OneOk(probe, strings) && (payload.Some? ==> OneOk(payload.value, payloads))
    case Match(m) => OneOk(m, matchers)
    case Assert(m) => OneOk(m, matchers)
    case MatchAll(start, len) => RangeOk(start, len, matchers)
    case MatchAny(start, len) => RangeOk(start, len, matchers)
    case Extract(name, source) => OneOk(name, strings) && OneOk(source, extracts)
    case IfMatch(m, _) => OneOk(m, matchers)
    case ForList(item, start, len, _) => OneOk(item, strings) && RangeOk(start, len, strings)
    case ForVar(item, list, _) => OneOk(item, strings) && OneOk(list, strings)
    case Save(from, to) => OneOk(from, strings) && OneOk(to, strings)
    case Evidence(k) => OneOk(k, evidence)
    case Retry(probe, _) => OneOk(probe, strings)
    case RetryDelay(d) => OneOk(d, strings)
    case Sleep(d) => OneOk(d, strings)
    case _ => true
  }

  predicate Validated(p: BytecodeProgram) {
    forall i | i in p.code ::
      OperandsOk(i, |p.strings|, |p.payloads|, |p.matchers|, |p.extracts|, |p.evidence|)
  }
}
