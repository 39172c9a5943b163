/** The bytes themselves: byte order, tags, opcodes and the order of fields, which reading back what was written
    cannot tell. */
module Layout {
  import opened Prelude
  import opened Contract
  import opened Wire
  import opened Format
  import opened Codec
  import Utf8

  // ---------- numbers, strings, options, lists ----------

  /** A 32-bit number, least significant byte first. */
  function Word(v: u32): seq<byte> {
    [v % 0x100, v / 0x100 % 0x100, v / 0x1_0000 % 0x100, v / 0x100_0000]
  }

  lemma LeBytes(v: nat, n: nat)
    requires n > 0
    ensures ToLe(v, n) == [v % 0x100] + ToLe(v / 0x100, n - 1)
  {
  }

  lemma WordLayout(v: u32)
    ensures ToLe(v, 4) == Word(v)
  {
    hide ToLe;
    LeBytes(v, 4);
    LeBytes(v / 0x100, 3);
    LeBytes(v / 0x100 / 0x100, 2);
    LeBytes(v / 0x100 / 0x100 / 0x100, 1);
    assert ToLe(v / 0x100 / 0x100 / 0x100 / 0x100, 0) == [];
    assert v / 0x100 / 0x100 == v / 0x1_0000 && v / 0x100 / 0x100 / 0x100 == v / 0x100_0000;
  }

  lemma NumberLayout(small: u16, v: u32, t: seq<byte>)
    ensures PutU16(small, t) == [small % 0x100, small / 0x100] + t
    ensures PutU32(v, t) == Word(v) + t
  {
    hide ToLe;
    WordLayout(v);
    LeBytes(small, 2);
    LeBytes(small / 0x100, 1);
    assert ToLe(small / 0x100 / 0x100, 0) == [];
  }

  /** A 64-bit number is its lower word, then its upper one. */
  lemma LongLayout(low: u32, high: u32, t: seq<byte>)
    ensures PutU64(low + 0x1_0000_0000 * high, t) == Word(low) + (Word(high) + t)
  {
    hide ToLe;
    SplitLe(low, high, 4, 4);
    assert Pow256(4) == 0x1_0000_0000 by { WordSizes(); }
    WordLayout(low);
    WordLayout(high);
    assert (Word(low) + Word(high)) + t == Word(low) + (Word(high) + t);
  }

  lemma {:induction false} SplitLe(low: nat, high: nat, n: nat, m: nat)
    requires low < Pow256(n)
    ensures ToLe(low + Pow256(n) * high, n + m) == ToLe(low, n) + ToLe(high, m)
    decreases n
  {
    if n == 0 {
      assert low == 0 && Pow256(0) * high == high;
    } else {
      var p := Pow256(n - 1);
      assert Pow256(n) * high == 0x100 * (p * high);
      var v := low + 0x100 * (p * high);
      assert v % 0x100 == low % 0x100 && v / 0x100 == low / 0x100 + p * high;
      SplitLe(low / 0x100, high, n - 1, m);
      LeBytes(v, n + m);
      LeBytes(low, n);
      assert [low % 0x100] + (ToLe(low / 0x100, n - 1) + ToLe(high, m))
          == [low % 0x100] + ToLe(low / 0x100, n - 1) + ToLe(high, m);
    }
  }

  /** Strings and byte strings carry their length in front. */
  lemma StringLayout(s: Str, t: seq<byte>)
    requires |s| < U32_LIMIT
    ensures PutStr(s, t) == PutBytes(s, t) == Word(|s|) + (s + t)
  {
    hide PutU32, Word;
    NumberLayout(0, |s|, s + t);
  }

  /** Booleans are 0 and 1; an option is 0, or 1 and its value. */
  lemma OptionLayout<T(!new)>(c: ElementFormat<T>, v: T, flag: bool, t: seq<byte>)
    requires Lawful(c)
    ensures PutBool(flag, t) == [if flag then 1 else 0] + t
    ensures PutOpt(c, None, t) == [0] + t && PutOpt(c, Some(v), t) == [1] + c.put(v, t)
  {
  }

  /** A list is its count and its elements in order. */
  lemma ListLayout<T(!new)>(c: ElementFormat<T>, v: T, vs: seq<T>, t: seq<byte>)
    requires Lawful(c) && |vs| < U32_LIMIT
    ensures PutList(c, vs, t) == Word(|vs|) + PutMany(c, vs, t)
    ensures PutMany(c, [], t) == t && PutMany(c, [v] + vs, t) == c.put(v, PutMany(c, vs, t))
  {
    hide PutU32, Word, SizeMany, GetList, GetMany, OkMany;
    NumberLayout(0, |vs|, PutMany(c, vs, t));
    assert ([v] + vs)[1..] == vs;
  }

  // ---------- tags ----------

  /** Enumerations are numbered from 0 in this order. */
  lemma SeverityLayout(t: seq<byte>)
    ensures var severities := [Low, Medium, High, Critical, Info];
            forall k | 0 <= k < 5 :: PutSeverity(severities[k], t) == [k] + t
  {
    hide GetSeverity;
  }

  lemma MethodLayout(t: seq<byte>)
    ensures var methods := [Get, Post, Put, Patch, Delete, Head, Options];
            forall k | 0 <= k < 7 :: PutMethod(methods[k], t) == [k] + t
  {
    hide GetMethod;
  }

  lemma OperatorLayout(t: seq<byte>)
    ensures var operators := [Eq, Ne, Lt, Gt, Le, Ge];
            forall k | 0 <= k < 6 :: PutCmpOp(operators[k], t) == [k] + t
  {
    hide GetCmpOp;
  }

  /** The tag of every alternative stands before its content. */
  lemma BodyValueLayout(s: Str, o: ObjectBody, part: InlinePart, t: seq<byte>)
    ensures PutValue(StringValue(s), t) == [0] + PutStr(s, t)
    ensures PutValue(Interpolation(s), t) == [1] + PutStr(s, t)
    ensures PutValue(Object(o), t) == [2] + PutObject(o, t)
    ensures PutValue(BytesValue(s), t) == [3] + PutStr(s, t)
    ensures PutValue(Part(part), t) == [4] + PutPart(part, t)
  {
    hide GetValue, OkValue, SizeValue, PutStr, PutObject, PutPart;
  }

  lemma PartLayout(filename: Option<Str>, s: Str, t: seq<byte>)
    ensures PutPart(InlinePart(filename, PartText(s)), t) == PutOpt(StrFormat(), filename, [0] + PutStr(s, t))
    ensures PutPart(InlinePart(filename, PartBytes(s)), t) == PutOpt(StrFormat(), filename, [1] + PutStr(s, t))
  {
    hide GetPart, PutStr, PutOpt, PutU8, OkOpt, OkStr, SizeOpt, GetStr, GetOpt;
    Opened(0, PutStr(s, t));
    Opened(1, PutStr(s, t));
  }

  lemma ProbeLayout(http: HttpRequestSpec, socket: SocketProbeSpec, t: seq<byte>)
    ensures PutProbe(Http(http), t) == [0] + PutHttp(http, t)
    ensures PutProbe(Dns(socket), t) == [1] + PutSocket(socket, t)
    ensures PutProbe(Tcp(socket), t) == [2] + PutSocket(socket, t)
    ensures PutProbe(Udp(socket), t) == [3] + PutSocket(socket, t)
  {
    hide GetProbe, OkProbe, SizeProbe, PutHttp, PutSocket, PutU8, GetHttp, GetSocket, OkHttp, OkSocket, SizeHttp,
      SizeSocket, GetU8;
    Opened(0, PutHttp(http, t));
    Opened(1, PutSocket(socket, t));
    Opened(2, PutSocket(socket, t));
    Opened(3, PutSocket(socket, t));
  }

  lemma OperandLayout(number: u64, s: Str, t: seq<byte>)
    ensures PutCmpValue(Number(number), t) == [0] + PutU64(number, t)
    ensures PutCmpValue(StringOperand(s), t) == [1] + PutStr(s, t)
    ensures PutCmpValue(Duration(s), t) == [2] + PutStr(s, t)
  {
    hide GetCmpValue, OkCmpValue, SizeCmpValue, PutStr, PutU64;
  }

  lemma PredicateLayout(op: CmpOp, value: CmpValue, s: Str, t: seq<byte>)
    ensures PutPredicate(Compare(op, value), t) == [0] + PutCmpOp(op, PutCmpValue(value, t))
    ensures PutPredicate(Contains(s), t) == [1] + PutStr(s, t)
    ensures PutPredicate(NotContains(s), t) == [2] + PutStr(s, t)
    ensures PutPredicate(Regex(s), t) == [3] + PutStr(s, t)
  {
    hide GetPredicate, OkPredicate, SizePredicate, PutStr, PutCmpOp, PutCmpValue;
  }

  lemma ExtractLayout(target: Str, name: Str, pattern: Option<Str>, t: seq<byte>)
    ensures PutExtract(FromBody(target, pattern), t) == [0] + PutStr(target, PutOpt(StrFormat(), pattern, t))
    ensures PutExtract(FromHeader(target, name), t) == [1] + PutStr(target, PutStr(name, t))
  {
    hide GetExtract, OkExtract, SizeExtract, PutStr, PutOpt;
  }

  lemma EvidenceLayout(target: Str, name: Str, pattern: Option<Str>, t: seq<byte>)
    ensures var end := PutOpt(StrFormat(), pattern, t);
            && PutEvidence(BodyProof(target, pattern), t) == [0] + PutStr(target, end)
            && PutEvidence(ResponseProof(target, pattern), t) == [1] + PutStr(target, end)
            && PutEvidence(HeaderProof(target, name, pattern), t) == [2] + PutStr(target, PutStr(name, end))
  {
    hide GetEvidence, OkEvidence, SizeEvidence, PutStr, PutOpt;
  }

  lemma FieldKindLayout(name: Str, t: seq<byte>)
    ensures var kinds := [Status, Body, Header(name), ResponseTime, ResponseSize, Answer, Banner, Response];
            forall k | 0 <= k < 8 ::
              PutFieldKind(kinds[k], t) == [k] + if k == 2 then PutStr(name, t) else t
  {
    hide PutStr;
  }

  // ---------- instructions ----------

  function Half(v: u16): seq<byte> { [v % 0x100, v / 0x100] }

  /** The bytes of an instruction: its opcode - 18 is no instruction's - and its operands in order;
      then `t`. */
  function InstrBytes(i: Instr, t: seq<byte>): seq<byte> {
    match i
    case Set(name, value) => [1] + (Word(name) + (Word(value) + t))
    case Send(probe, None) => [2] + (Word(probe) + ([0] + t))
    case Send(probe, Some(payload)) => [2] + (Word(probe) + ([1] + (Word(payload) + t)))
    case Match(m) => [3] + (Word(m) + t)
    case MatchAll(start, len) => [4] + (Word(start) + (Half(len) + t))
    case MatchAny(start, len) => [5] + (Word(start) + (Half(len) + t))
    case Assert(m) => [6] + (Word(m) + t)
    case Extract(name, source) => [7] + (Word(name) + (Word(source) + t))
    case IfMatch(m, elsePc) => [8] + (Word(m) + (Word(elsePc) + t))
    case Save(from, to) => [9] + (Word(from) + (Word(to) + t))
    case Evidence(kind) => [10] + (Word(kind) + t)
    case Retry(probe, count) => [11] + (Word(probe) + (Word(count) + t))
    case RetryDelay(delay) => [12] + (Word(delay) + t)
    case Sleep(delay) => [13] + (Word(delay) + t)
    case Stop => [14] + t
    case Fail => [15] + t
    case Continue => [16] + t
    case Exit => [17] + t
    case LoopBack => [19] + t
    case Break => [20] + t
    case SetList(name, start, len) => [21] + (Word(name) + (Word(start) + (Half(len) + t)))
    case ForList(item, start, len, endPc) => [22] + (Word(item) + (Word(start) + (Half(len) + (Word(endPc) + t))))
    case ForVar(item, list, endPc) => [23] + (Word(item) + (Word(list) + (Word(endPc) + t)))
  }

  lemma Opened(tag: byte, t: seq<byte>)
    ensures PutU8(tag, t) == [tag] + t
  {
  }

  lemma Numbers()
    ensures forall v, t :: PutU32(v, t) == Word(v) + t
    ensures forall v, t :: PutU16(v, t) == Half(v) + t
  {
    hide PutU32, PutU16, Word;
    forall v, t ensures PutU32(v, t) == Word(v) + t {
      NumberLayout(0, v, t);
    }
    forall v, t ensures PutU16(v, t) == Half(v) + t {
      NumberLayout(v, 0, t);
    }
  }

  lemma SendLayout(i: Instr, t: seq<byte>)
    requires i.Send?
    ensures PutInstr(i, t) == InstrBytes(i, t)
  {
    hide PutU32, Word, GetSend, SizeOperands, GetU32;
    Numbers();
    Opened(Opcode(i), PutSend(i, t));
  }

  lemma EarlyLayout(i: Instr, t: seq<byte>)
    requires 1 <= Opcode(i) <= 7 && !i.Send?
    ensures PutInstr(i, t) == InstrBytes(i, t)
  {
    hide PutU32, PutU16, Word, Half, GetU32, GetU16, GetEarly, SizeOperands;
    Numbers();
    Opened(Opcode(i), PutEarly(i, t));
  }

  lemma MiddleLayout(i: Instr, t: seq<byte>)
    requires 8 <= Opcode(i) <= 13
    ensures PutInstr(i, t) == InstrBytes(i, t)
  {
    hide PutU32, PutU16, Word, Half, GetU32, GetU16, GetMiddle, SizeOperands;
    Numbers();
    Opened(Opcode(i), PutMiddle(i, t));
  }

  lemma EndLayout(i: Instr, t: seq<byte>)
    requires 14 <= Opcode(i) <= 20
    ensures PutInstr(i, t) == InstrBytes(i, t)
  {
    hide GetLate, SizeOperands, Word, Half;
    Opened(Opcode(i), PutLate(i, t));
  }

  lemma LoopLayout(i: Instr, t: seq<byte>)
    requires 21 <= Opcode(i)
    ensures PutInstr(i, t) == InstrBytes(i, t)
  {
    hide PutU32, PutU16, Word, Half, GetU32, GetU16, GetLate, SizeOperands;
    Numbers();
    Opened(Opcode(i), PutLate(i, t));
  }

  lemma InstrLayout(i: Instr, t: seq<byte>)
    ensures PutInstr(i, t) == InstrBytes(i, t)
  {
    hide PutInstr, InstrBytes;
    if i.Send? {
      SendLayout(i, t);
    } else if Opcode(i) <= 7 {
      EarlyLayout(i, t);
    } else if Opcode(i) <= 13 {
      MiddleLayout(i, t);
    } else if Opcode(i) <= 20 {
      EndLayout(i, t);
    } else {
      LoopLayout(i, t);
    }
  }

  function CodeBytes(code: seq<Instr>, t: seq<byte>): seq<byte> {
    if code == [] then t else InstrBytes(code[0], CodeBytes(code[1..], t))
  }

  /** The code section: how many instructions there are, and the bytes of each. */
  lemma CodeLayout(code: seq<Instr>, t: seq<byte>)
    requires |code| < U32_LIMIT
    ensures PutList(InstrFormat(), code, t) == Word(|code|) + CodeBytes(code, t)
  {
    hide PutList, PutMany, CodeBytes, Word;
    ListLayout(InstrFormat(), Stop, code, t);
    ManyLayout(code, t);
  }

  lemma PutOfFormat(i: Instr, t: seq<byte>)
    ensures InstrFormat().put(i, t) == PutInstr(i, t)
  {
    hide PutInstr;
  }

  lemma {:induction false} ManyLayout(code: seq<Instr>, t: seq<byte>)
    ensures PutMany(InstrFormat(), code, t) == CodeBytes(code, t)
  {
    hide PutInstr, InstrBytes, PutMany, PutList, InstrFormat;
    if code == [] {
      ListLayout(InstrFormat(), Stop, [], t);
    } else {
      var rest := CodeBytes(code[1..], t);
      ManyLayout(code[1..], t);
      ManyCons(InstrFormat(), code, t);
      PutOfFormat(code[0], rest);
      InstrLayout(code[0], rest);
    }
  }

  lemma ManyCons<T(!new)>(c: ElementFormat<T>, vs: seq<T>, t: seq<byte>)
    requires Lawful(c) && vs != []
    ensures PutMany(c, vs, t) == c.put(vs[0], PutMany(c, vs[1..], t))
  {
    hide SizeMany, GetMany, OkMany;
  }

  // ---------- fields ----------

  /** The fields of each record, in the order they stand. */
  lemma SocketLayout(v: SocketProbeSpec, t: seq<byte>)
    ensures PutSocket(v, t)
         == PutStr(v.host, PutOpt(U16Format(), v.port, PutOpt(BytesFormat(), v.payload,
              [if v.tls then 1 else 0] + ([if v.session then 1 else 0]
              + (Word(v.readMax) + (Word(v.readIdleMs) + t))))))
  {
    hide PutStr, PutOpt, PutU32, Word, GetSocket, OkSocket, SizeSocket, OkStr, OkOpt, SizeOpt, GetBool;
    Numbers();
  }

  lemma HttpLayout(v: HttpRequestSpec, t: seq<byte>)
    ensures var bodies := PutOpt(ObjectFormat(), v.dataBody, PutOpt(ObjectFormat(), v.jsonBody,
              PutOpt(StrFormat(), v.rawBody, PutOpt(StrFormat(), v.bodyBytes,
              PutOpt(ObjectFormat(), v.multipartBody, t)))));
            var lists := PutList(PairFormat(), v.headers, PutList(PairFormat(), v.cookies,
              PutList(PairFormat(), v.queries, bodies)));
            var settings := PutOpt(StrFormat(), v.timeout, PutOpt(BoolFormat(), v.followRedirect,
              PutOpt(BoolFormat(), v.verifySsl, PutOpt(StrFormat(), v.proxy, PutOpt(StrFormat(), v.userAgent,
              lists)))));
            PutHttp(v, t) == PutMethod(v.verb, PutStr(v.path, settings))
  {
    hide PutStr, PutOpt, PutList, PutMethod, GetHttp, OkHttp, SizeHttp;
  }

  lemma MetadataLayout(v: CheckMetadata, t: seq<byte>)
    ensures var ending := PutOpt(StrFormat(), v.mitigation, PutList(StrFormat(), v.tags,
              PutOpt(StrFormat(), v.version, PutOpt(StrFormat(), v.family, t))));
            var lists := PutList(StrFormat(), v.cve, PutList(StrFormat(), v.cwe, PutList(StrFormat(), v.references,
              PutList(StrFormat(), v.cvss, PutList(StrFormat(), v.cvssScore, ending)))));
            PutMetadata(v, t)
            == PutOpt(StrFormat(), v.name, PutOpt(StrFormat(), v.description, PutOpt(StrFormat(), v.impact,
                 PutOpt(SeverityFormat(), v.severity, PutOpt(StrFormat(), v.author, lists)))))
  {
    hide PutOpt, PutList, GetMetadata, OkMetadata, SizeMetadata;
  }

  lemma MatcherLayout(v: QualifiedMatch, t: seq<byte>)
    ensures PutMatcher(v, t)
         == PutStr(v.field.target, PutFieldKind(v.field.kind, PutPredicate(v.predicate_, t)))
  {
    hide PutStr, PutFieldKind, PutPredicate, GetMatcher, OkMatcher, SizeMatcher;
  }

  // ---------- what is refused ----------

  lemma ReadTag(tag: byte, t: seq<byte>)
    ensures GetU8([tag] + t) == Done(tag, t)
  {
    assert ([tag] + t)[1..] == t;
  }

  /** Any byte but 0 is a raised flag, for a boolean and for an option. */
  lemma FlagsRead<T(!new)>(c: ElementFormat<T>, flag: byte, t: seq<byte>)
    requires Lawful(c)
    ensures GetBool([flag] + t) == Done(flag != 0, t)
    ensures GetOpt(c, [flag] + t)
         == if flag == 0 then Done(None, t)
            else match c.get(t) case Done(v, rest) => Done(Some(v), rest) case Bad(e) => Bad(e)
  {
    ReadTag(flag, t);
  }

  /** A tag beyond those written is refused, each with its own defect. */
  lemma UnknownTag(tag: byte, t: seq<byte>)
    ensures tag >= 5 ==> GetSeverity([tag] + t) == Bad(Corrupt(BadSeverity))
    ensures tag >= 7 ==> GetMethod([tag] + t) == Bad(Corrupt(BadMethod))
    ensures tag >= 6 ==> GetCmpOp([tag] + t) == Bad(Corrupt(BadCmpOp))
    ensures tag >= 4 ==> GetProbe([tag] + t) == Bad(Corrupt(BadProbeKind))
    ensures tag >= 5 ==> GetValue([tag] + t) == Bad(Corrupt(BadBodyValue))
    ensures tag >= 8 ==> GetFieldKind([tag] + t) == Bad(Corrupt(BadFieldKind))
    ensures tag >= 3 ==> GetCmpValue([tag] + t) == Bad(Corrupt(BadCmpValue))
    ensures tag >= 4 ==> GetPredicate([tag] + t) == Bad(Corrupt(BadPredicate))
    ensures tag >= 2 ==> GetExtract([tag] + t) == Bad(Corrupt(BadExtract))
    ensures tag >= 3 ==> GetEvidence([tag] + t) == Bad(Corrupt(BadEvidence))
    ensures tag == 0 || tag == 18 || tag >= 24 ==> GetInstr([tag] + t) == Bad(Corrupt(BadOpcode))
  {
    hide GetU8, GetStr, GetOpt, GetHttp, GetSocket, GetObject, GetPart, GetU64, GetU32, GetU16;
    ReadTag(tag, t);
  }

  /** A number needs its bytes; a length or a count must not announce more than there is; text must be UTF-8. */
  lemma ShortInput(b: seq<byte>, n: u32, s: Str, tooLong: Defect)
    ensures |b| < 2 ==> GetU16(b) == Bad(Corrupt(UnexpectedEnd))
    ensures |b| < 4 ==> GetU32(b) == Bad(Corrupt(UnexpectedEnd))
    ensures |b| < 8 ==> GetU64(b) == Bad(Corrupt(UnexpectedEnd))
    ensures n > |b| ==> GetBlob(tooLong, Word(n) + b) == Bad(Corrupt(tooLong))
    ensures n > |b| ==> GetStr(Word(n) + b) == Bad(Corrupt(StringTooLong))
    ensures n > |b| ==> GetBytes(Word(n) + b) == Bad(Corrupt(BytesTooLong))
    ensures n > |b| ==> GetPayload(Word(n) + b) == Bad(Corrupt(PayloadTooLong))
    ensures n > |b| ==> GetCount(Word(n) + b) == Bad(Corrupt(CountTooLarge))
    ensures |s| < U32_LIMIT && !Utf8.ValidUtf8(s) ==> GetStr(Word(|s|) + (s + b)) == Bad(Corrupt(NotUtf8))
  {
    hide Utf8.ValidUtf8, Word;
    NumberLayout(0, n, b);
    if |s| < U32_LIMIT {
      NumberLayout(0, |s|, s + b);
      assert (s + b)[..|s|] == s;
    }
  }

  /** The first five bytes decide whether the rest is looked at. */
  lemma HeaderRefused(b: seq<byte>)
    ensures |b| < 4 ==> Decode(b) == Err(Corrupt(UnexpectedEnd))
    ensures |b| >= 4 && b[..4] != [0x52, 0x55, 0x53, 0x4F] ==> Decode(b) == Err(BadMagic)
    ensures |b| == 4 && b[..4] == [0x52, 0x55, 0x53, 0x4F] ==> Decode(b) == Err(Corrupt(UnexpectedEnd))
    ensures |b| > 4 && b[..4] == [0x52, 0x55, 0x53, 0x4F] && b[4] != 1 ==> Decode(b) == Err(BadVersion(b[4]))
  {
    hide GetBody, Admit;
  }

  // ---------- programs ----------

  lemma HeaderBytes(body: seq<byte>)
    ensures MAGIC + PutU8(VERSION, body) == [0x52, 0x55, 0x53, 0x4F, 1] + body
  {
    Opened(1, body);
    assert MAGIC + ([1] + body) == [0x52, 0x55, 0x53, 0x4F, 1] + body;
  }

  lemma EncodeOpens(p: BytecodeProgram)
    ensures Encode(p) == [0x52, 0x55, 0x53, 0x4F, 1] + PutBody(p, [])
  {
    hide PutBody, PutU8, GetBody, OkProgram, SizeMetadata, SizeProbes, SizePools;
    HeaderBytes(PutBody(p, []));
  }

  /** Every encoding starts with the letters RUSO and the version, then come metadata, probes, and the pools with
      the code as the last of them. */
  lemma ProgramLayout(p: BytecodeProgram)
    requires |p.code| < U32_LIMIT
    ensures Encode(p)
         == [0x52, 0x55, 0x53, 0x4F, 1]
            + PutMetadata(p.spec.metadata, PutProbes(p.spec.probes,
                PutList(StrFormat(), p.strings, PutList(PayloadFormat(), p.payloads,
                PutList(MatcherFormat(), p.matchers, PutList(ExtractFormat(), p.extracts,
                PutList(EvidenceFormat(), p.evidence, Word(|p.code|) + CodeBytes(p.code, []))))))))
  {
    hide Encode, PutBody, PutMetadata, PutProbes, PutList, Word, CodeBytes;
    EncodeOpens(p);
    CodeLayout(p.code, []);
    BodyLayout(p);
  }

  lemma BodyLayout(p: BytecodeProgram)
    ensures PutBody(p, [])
         == PutMetadata(p.spec.metadata, PutProbes(p.spec.probes,
              PutList(StrFormat(), p.strings, PutList(PayloadFormat(), p.payloads,
              PutList(MatcherFormat(), p.matchers, PutList(ExtractFormat(), p.extracts,
              PutList(EvidenceFormat(), p.evidence, PutList(InstrFormat(), p.code, []))))))))
  {
    hide PutMetadata, PutProbes, PutList;
  }
}
