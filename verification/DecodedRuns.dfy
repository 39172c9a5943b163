/** From bytes to runs: a decoded program, well nested or not, never indexes anything out of range. */
module DecodedRuns {
  import opened Prelude
  import opened Contract
  import opened Runtime
  import opened Targets
  import opened Vm
  import opened Wire
  import opened Format
  import opened Codec
  import opened Safety
  import opened Validate
  import Utf8

  /** Decoding and loading establish what index safety rests on. */
  lemma DecodedIsLoaded(b: seq<byte>, engine: Engine, resolver: Resolver, net: Network, baseUrl: Str)
    requires Decode(b).Ok? && FromProgram(engine, resolver, net, baseUrl, Decode(b).value).Ok?
    ensures Loaded(FromProgram(engine, resolver, net, baseUrl, Decode(b).value).value, Decode(b).value.code)
  {
    hide Decode, FromProgram, OkMetadata, OkProbes, OkMany;
    DecodedIsOk(b);
  }

  /** Every template such a program's runs can expand is valid UTF-8, so no slice of one panics. */
  lemma DecodedTexts(b: seq<byte>, engine: Engine, resolver: Resolver, net: Network, baseUrl: Str)
    requires Decode(b).Ok? && FromProgram(engine, resolver, net, baseUrl, Decode(b).value).Ok?
    ensures ValidTexts(FromProgram(engine, resolver, net, baseUrl, Decode(b).value).value)
  {
    hide Decode, FromProgram, OkMetadata, OkProbes, OkPools, Utf8.ValidUtf8;
    DecodedIsOk(b);
    PoolTexts(Decode(b).value);
    ProbeTexts(Decode(b).value.spec.probes);
  }

  lemma PoolTexts(p: BytecodeProgram)
    requires OkPools(p)
    ensures forall s | s in p.strings :: Utf8.ValidUtf8(s)
  {
    hide OkList, Utf8.ValidUtf8;
    StringsValid(p.strings);
  }

  lemma StringsValid(strings: seq<Str>)
    requires OkList(StrFormat(), strings)
    ensures forall s | s in strings :: Utf8.ValidUtf8(s)
  {
    hide Utf8.ValidUtf8;
    forall i | 0 <= i < |strings| ensures Utf8.ValidUtf8(strings[i]) {
      assert StrFormat().ok(strings[i]);
    }
  }

  lemma ProbeTexts(probes: Probes)
    requires OkProbes(probes)
    ensures forall k | k in probes && !probes[k].Http? :: Utf8.ValidUtf8(probes[k].socket.host)
  {
    hide OkHttp, OkOpt, Utf8.ValidUtf8;
  }

  /** No run of a decoded program, of any length and against any network, panics. */
  lemma DecodedNeverPanics(
    b: seq<byte>, engine: Engine, resolver: Resolver, net: Network, baseUrl: Str, n: nat)
    requires Decode(b).Ok? && FromProgram(engine, resolver, net, baseUrl, Decode(b).value).Ok?
    ensures var x := FromProgram(engine, resolver, net, baseUrl, Decode(b).value).value;
            Iterate(x, Decode(b).value.code, InitialMachine(x), n) != Failed(Panic)
  {
    hide Decode, FromProgram, Step, InitialState;
    DecodedIsLoaded(b, engine, resolver, net, baseUrl);
    var x := FromProgram(engine, resolver, net, baseUrl, Decode(b).value).value;
    NeverPanics(x, Decode(b).value.code, InitialMachine(x), n);
  }

  // ---------- loading ----------

  /** A program loads exactly when every pattern it will use compiles: those of regex matchers on text fields, of
      evidence and of body extracts. */
  lemma LoadsIff(p: BytecodeProgram, engine: Engine, resolver: Resolver, net: Network, baseUrl: Str)
    ensures var loaded := FromProgram(engine, resolver, net, baseUrl, p);
            && (loaded.Err? ==> loaded.error.BadRegex? && !engine.regexOk(loaded.error.pattern))
            && (loaded.Ok? <==>
                  && (forall m | m in p.matchers && m.predicate_.Regex? && OnText(m.field.kind) ::
                        engine.regexOk(m.predicate_.pattern))
                  && (forall e | e in p.evidence && e.pattern.Some? :: engine.regexOk(e.pattern.value))
                  && (forall e | e in p.extracts && e.FromBody? && e.regex.Some? :: engine.regexOk(e.regex.value)))
  {
    var evidence := seq(|p.evidence|, i requires 0 <= i < |p.evidence| => p.evidence[i].pattern);
    var extracts := seq(|p.extracts|, i requires 0 <= i < |p.extracts| => ExtractPattern(p.extracts[i]));
    MatchersCompile(engine, p.matchers);
    PatternsCompile(engine, evidence);
    PatternsCompile(engine, extracts);
    assert forall e | e in p.evidence :: e.pattern in evidence by {
      forall e | e in p.evidence ensures e.pattern in evidence {
        var i :| 0 <= i < |p.evidence| && p.evidence[i] == e;
        assert evidence[i] == e.pattern;
      }
    }
    forall e | e in p.extracts ensures ExtractPattern(e) in extracts {
      var i :| 0 <= i < |p.extracts| && p.extracts[i] == e;
      assert extracts[i] == ExtractPattern(e);
    }
  }

  predicate OnText(kind: FieldKind) { kind.Body? || kind.Header? || kind.Response? || kind.Banner? }

  lemma {:induction false} MatchersCompile(engine: Engine, ms: seq<QualifiedMatch>)
    ensures var r := CompileMatchers(engine, ms);
            && (r.Err? ==> r.error.BadRegex? && !engine.regexOk(r.error.pattern))
            && (r.Ok? <==> forall m | m in ms && m.predicate_.Regex? && OnText(m.field.kind) ::
                             engine.regexOk(m.predicate_.pattern))
  {
    if ms != [] {
      MatchersCompile(engine, ms[1..]);
      assert forall m :: m in ms <==> m == ms[0] || m in ms[1..];
    }
  }

  lemma {:induction false} PatternsCompile(engine: Engine, ps: seq<Option<Str>>)
    ensures var r := CompilePatterns(engine, ps);
            && (r.Err? ==> r.error.BadRegex? && !engine.regexOk(r.error.pattern))
            && (r.Ok? <==> forall q | q in ps && q.Some? :: engine.regexOk(q.value))
  {
    if ps != [] {
      PatternsCompile(engine, ps[1..]);
      assert forall q :: q in ps <==> q == ps[0] || q in ps[1..];
    }
  }

  // ---------- validation refuses nothing else ----------

  /** No state in which no match has failed yet makes an instruction of the code panic. */
  ghost predicate NothingPanics(x: Executor, code: seq<Instr>) {
    forall m: Machine | m.Running? && m.pc < |code| && m.st.matched :: Step(x, code, m) != Failed(Panic)
  }

  /** The final check of decoding admits a program exactly when, once loaded, none of its instructions can panic:
      it lets nothing through that indexes out of range, and refuses nothing that does not. */
  lemma AdmittedIffNothingPanics(p: BytecodeProgram, engine: Engine, resolver: Resolver, net: Network, baseUrl: Str)
    requires OkProgram(p) && FromProgram(engine, resolver, net, baseUrl, p).Ok?
    ensures Admit(p, []).Ok? <==> NothingPanics(FromProgram(engine, resolver, net, baseUrl, p).value, p.code)
  {
    hide Admit, FromProgram, Step, OkMetadata, OkProbes, OkMany, InitialState;
    var x := FromProgram(engine, resolver, net, baseUrl, p).value;
    forall m: Machine | m.Running? && m.pc < |p.code| && m.st.matched
      ensures Step(x, p.code, m) == Failed(Panic) <==> !InstrOk(x, p.code[m.pc])
    {
      StepPanicsIff(x, p.code, m);
    }
    if !Validated(p) {
      Refused(x, p);
    } else {
      assert forall i | 0 <= i < |p.code| :: p.code[i] in p.code;
    }
  }

  lemma Refused(x: Executor, p: BytecodeProgram)
    requires PoolsOf(x, p) && SizesFit(x) && !Validated(p)
    ensures !NothingPanics(x, p.code)
  {
    hide Step;
    var i :| i in p.code && !InstrOk(x, i);
    var k :| 0 <= k < |p.code| && p.code[k] == i;
    var m := Running(k, State(map[], map[], map[], [], None, true, true, []), []);
    StepPanicsIff(x, p.code, m);
    assert Step(x, p.code, m) == Failed(Panic);
  }

  /** Which defect is reported: of the first instruction with an operand out of range, a bad range only when its
      single operand, if it has one, is in order. */
  lemma {:induction false} ReportedDefect(p: BytecodeProgram, code: seq<Instr>, k: nat)
    requires k < |code| && !InstrFits(p, code[k]) && forall i | 0 <= i < k :: InstrFits(p, code[i])
    ensures CodeDefect(p, code)
         == Some(if code[k].MatchAll? || code[k].MatchAny?
                    || (code[k].SetList? && code[k].name < |p.strings|)
                    || (code[k].ForList? && code[k].item < |p.strings|)
                 then RangeOutOfBounds else IndexOutOfRange)
    decreases k
  {
    if k > 0 {
      ReportedDefect(p, code[1..], k - 1);
    }
  }

  predicate InstrFits(p: BytecodeProgram, i: Instr) {
    OperandsOk(i, |p.strings|, |p.payloads|, |p.matchers|, |p.extracts|, |p.evidence|)
  }
}
