/** Encoding in imperative form: every `WriteX` appends exactly the encoding of its argument. */
module Encoder {
  import opened Prelude
  import opened Contract
  import opened Wire
  import opened Format
  import opened Ordering
  import opened Binary
  import Codec

  lemma ManyHead<T(!new)>(c: ElementFormat<T>, items: seq<T>, i: nat, t: seq<byte>)
    requires Lawful(c) && i < |items|
    ensures PutMany(c, items[i..], t) == c.put(items[i], PutMany(c, items[i + 1..], t))
  {
    assert items[i..][1..] == items[i + 1..];
  }

  lemma ListSplit<T(!new)>(c: ElementFormat<T>, items: seq<T>, t: seq<byte>)
    requires Lawful(c)
    ensures PutList(c, items, t) == PutU32(|items| % U32_LIMIT, PutMany(c, items, t))
    ensures PutMany(c, [], t) == t
  {
  }

  method WriteSeverity(w: Writer, v: Severity)
    modifies w
    ensures forall t {:trigger PutSeverity(v, t)} :: w.buf + t == old(w.buf) + PutSeverity(v, t)
  {
    hide PutU8, SeverityTag;
    w.U8(SeverityTag(v));
  }

  method WriteMethod(w: Writer, v: HttpMethod)
    modifies w
    ensures forall t {:trigger PutMethod(v, t)} :: w.buf + t == old(w.buf) + PutMethod(v, t)
  {
    hide PutU8, MethodTag;
    w.U8(MethodTag(v));
  }

  method WriteCmpOp(w: Writer, v: CmpOp)
    modifies w
    ensures forall t {:trigger PutCmpOp(v, t)} :: w.buf + t == old(w.buf) + PutCmpOp(v, t)
  {
    hide PutU8, CmpOpTag;
    w.U8(CmpOpTag(v));
  }

  method WriteOptSeverity(w: Writer, value: Option<Severity>)
    modifies w
    ensures forall t {:trigger PutOpt(SeverityFormat(), value, t)} ::
        w.buf + t == old(w.buf) + PutOpt(SeverityFormat(), value, t)
  {
    hide PutSeverity, PutU8;
    match value
    case Some(v) => w.U8(1); WriteSeverity(w, v);
    case None => w.U8(0);
  }

  method WriteOptBool(w: Writer, value: Option<bool>)
    modifies w
    ensures forall t {:trigger PutOpt(BoolFormat(), value, t)} ::
        w.buf + t == old(w.buf) + PutOpt(BoolFormat(), value, t)
  {
    hide PutBool, PutU8;
    match value
    case Some(v) => w.U8(1); w.Bool(v);
    case None => w.U8(0);
  }

  method WriteStrings(w: Writer, items: seq<Str>)
    modifies w
    ensures forall t {:trigger PutList(StrFormat(), items, t)} ::
        w.buf + t == old(w.buf) + PutList(StrFormat(), items, t)
  {
    hide PutStr, PutMany, PutList, PutU32;
    w.U32(|items| % U32_LIMIT);
    ghost var head := w.buf;
    assert items[0..] == items;
    for i := 0 to |items|
      invariant forall t {:trigger PutMany(StrFormat(), items, t)} ::
                  w.buf + PutMany(StrFormat(), items[i..], t) == head + PutMany(StrFormat(), items, t)
    {
      ghost var before := w.buf;
      w.Str(items[i]);
      forall t {:trigger PutMany(StrFormat(), items, t)}
        ensures w.buf + PutMany(StrFormat(), items[i + 1..], t) == before + PutMany(StrFormat(), items[i..], t)
      {
        ManyHead(StrFormat(), items, i, t);
      }
    }
    forall t {:trigger PutList(StrFormat(), items, t)}
      ensures w.buf + t == old(w.buf) + PutList(StrFormat(), items, t)
    {
      ListSplit(StrFormat(), items, t);
      assert items[|items|..] == [];
      assert head + PutMany(StrFormat(), items, t) == w.buf + PutMany(StrFormat(), [], t);
    }
  }

  method WritePayloads(w: Writer, items: seq<seq<byte>>)
    modifies w
    ensures forall t {:trigger PutList(PayloadFormat(), items, t)} ::
        w.buf + t == old(w.buf) + PutList(PayloadFormat(), items, t)
  {
    hide PutBytes, PutMany, PutList, PutU32;
    w.U32(|items| % U32_LIMIT);
    ghost var head := w.buf;
    assert items[0..] == items;
    for i := 0 to |items|
      invariant forall t {:trigger PutMany(PayloadFormat(), items, t)} ::
                  w.buf + PutMany(PayloadFormat(), items[i..], t) == head + PutMany(PayloadFormat(), items, t)
    {
      ghost var before := w.buf;
      w.Blob(items[i]);
      forall t {:trigger PutMany(PayloadFormat(), items, t)}
        ensures w.buf + PutMany(PayloadFormat(), items[i + 1..], t) == before + PutMany(PayloadFormat(), items[i..], t)
      {
        ManyHead(PayloadFormat(), items, i, t);
      }
    }
    forall t {:trigger PutList(PayloadFormat(), items, t)}
      ensures w.buf + t == old(w.buf) + PutList(PayloadFormat(), items, t)
    {
      ListSplit(PayloadFormat(), items, t);
      assert items[|items|..] == [];
      assert head + PutMany(PayloadFormat(), items, t) == w.buf + PutMany(PayloadFormat(), [], t);
    }
  }

  method WritePair(w: Writer, v: (Str, Str))
    modifies w
    ensures forall t {:trigger PutPair(v, t)} :: w.buf + t == old(w.buf) + PutPair(v, t)
  {
    hide PutStr;
    w.Str(v.0);
    w.Str(v.1);
  }

  method WriteHeaderList(w: Writer, items: seq<(Str, Str)>)
    modifies w
    ensures forall t {:trigger PutList(PairFormat(), items, t)} ::
        w.buf + t == old(w.buf) + PutList(PairFormat(), items, t)
  {
    hide PutPair, PutMany, PutList, PutU32;
    w.U32(|items| % U32_LIMIT);
    ghost var head := w.buf;
    assert items[0..] == items;
    for i := 0 to |items|
      invariant forall t {:trigger PutMany(PairFormat(), items, t)} ::
                  w.buf + PutMany(PairFormat(), items[i..], t) == head + PutMany(PairFormat(), items, t)
    {
      ghost var before := w.buf;
      WritePair(w, items[i]);
      forall t {:trigger PutMany(PairFormat(), items, t)}
        ensures w.buf + PutMany(PairFormat(), items[i + 1..], t) == before + PutMany(PairFormat(), items[i..], t)
      {
        ManyHead(PairFormat(), items, i, t);
      }
    }
    forall t {:trigger PutList(PairFormat(), items, t)}
      ensures w.buf + t == old(w.buf) + PutList(PairFormat(), items, t)
    {
      ListSplit(PairFormat(), items, t);
      assert items[|items|..] == [];
      assert head + PutMany(PairFormat(), items, t) == w.buf + PutMany(PairFormat(), [], t);
    }
  }

  // ---------- nested request bodies ----------

  lemma FieldsHead(ps: seq<Pair>, i: nat, t: seq<byte>)
    requires i < |ps|
    ensures PutFields(ps[i..], t) == PutStr(ps[i].key, PutValue(ps[i].value, PutFields(ps[i + 1..], t)))
  {
    hide PutStr, PutValue;
    assert ps[i..][1..] == ps[i + 1..];
  }

  lemma ObjectSplit(o: ObjectBody, t: seq<byte>)
    ensures PutObject(o, t) == PutU32(|o.pairs| % U32_LIMIT, PutFields(o.pairs, t)) && PutFields([], t) == t
  {
    hide PutU32, PutStr, PutValue;
  }

  method WriteObject(w: Writer, o: ObjectBody)
    modifies w
    ensures forall t {:trigger PutObject(o, t)} :: w.buf + t == old(w.buf) + PutObject(o, t)
    decreases o
  {
    hide PutU32, PutStr, PutValue, PutFields, PutObject;
    w.U32(|o.pairs| % U32_LIMIT);
    ghost var head := w.buf;
    assert o.pairs[0..] == o.pairs;
    for i := 0 to |o.pairs|
      invariant forall t {:trigger PutFields(o.pairs, t)} ::
                  w.buf + PutFields(o.pairs[i..], t) == head + PutFields(o.pairs, t)
    {
      ghost var before := w.buf;
      w.Str(o.pairs[i].key);
      WriteBodyValue(w, o.pairs[i].value);
      forall t {:trigger PutFields(o.pairs, t)}
        ensures w.buf + PutFields(o.pairs[i + 1..], t) == before + PutFields(o.pairs[i..], t)
      {
        FieldsHead(o.pairs, i, t);
      }
    }
    forall t {:trigger PutObject(o, t)} ensures w.buf + t == old(w.buf) + PutObject(o, t) {
      ObjectSplit(o, t);
      assert o.pairs[|o.pairs|..] == [];
      assert head + PutFields(o.pairs, t) == w.buf + PutFields([], t);
    }
  }

  method WriteBodyValue(w: Writer, v: BodyValue)
    modifies w
    ensures forall t {:trigger PutValue(v, t)} :: w.buf + t == old(w.buf) + PutValue(v, t)
    decreases v
  {
    hide PutU8, PutStr, PutObject, PutPart;
    match v
    case StringValue(s) => w.U8(0); w.Str(s);
    case Interpolation(s) => w.U8(1); w.Str(s);
    case Object(o) => w.U8(2); WriteObject(w, o);
    case BytesValue(hex) => w.U8(3); w.Str(hex);
    case Part(p) => w.U8(4); WritePart(w, p);
  }

  method WritePart(w: Writer, p: InlinePart)
    modifies w
    ensures forall t {:trigger PutPart(p, t)} :: w.buf + t == old(w.buf) + PutPart(p, t)
  {
    hide PutOpt, PutU8, PutStr;
    w.OptStr(p.filename);
    match p.body
    case PartText(s) => w.U8(0); w.Str(s);
    case PartBytes(s) => w.U8(1); w.Str(s);
  }

  method WriteOptObject(w: Writer, value: Option<ObjectBody>)
    modifies w
    ensures forall t {:trigger PutOpt(ObjectFormat(), value, t)} ::
        w.buf + t == old(w.buf) + PutOpt(ObjectFormat(), value, t)
  {
    hide PutObject, PutU8;
    match value
    case Some(v) => w.U8(1); WriteObject(w, v);
    case None => w.U8(0);
  }

  // ---------- probes ----------

  method WriteSocketProbe(w: Writer, v: SocketProbeSpec)
    modifies w
    ensures forall t {:trigger PutSocket(v, t)} :: w.buf + t == old(w.buf) + PutSocket(v, t)
  {
    hide PutStr, PutOpt, PutBool, PutU32;
    w.Str(v.host);
    w.OptU16(v.port);
    w.OptBytes(v.payload);
    w.Bool(v.tls);
    w.Bool(v.session);
    w.U32(v.readMax);
    w.U32(v.readIdleMs);
  }

  method WriteHttpSpec(w: Writer, v: HttpRequestSpec)
    modifies w
    ensures forall t {:trigger PutHttp(v, t)} :: w.buf + t == old(w.buf) + PutHttp(v, t)
  {
    hide PutMethod, PutStr, PutOpt, PutList;
    WriteMethod(w, v.verb);
    w.Str(v.path);
    w.OptStr(v.timeout);
    WriteOptBool(w, v.followRedirect);
    WriteOptBool(w, v.verifySsl);
    w.OptStr(v.proxy);
    w.OptStr(v.userAgent);
    WriteHeaderList(w, v.headers);
    WriteHeaderList(w, v.cookies);
    WriteHeaderList(w, v.queries);
    WriteOptObject(w, v.dataBody);
    WriteOptObject(w, v.jsonBody);
    w.OptStr(v.rawBody);
    w.OptStr(v.bodyBytes);
    WriteOptObject(w, v.multipartBody);
  }

  method WriteProbeKind(w: Writer, v: ProbeKind)
    modifies w
    ensures forall t {:trigger PutProbe(v, t)} :: w.buf + t == old(w.buf) + PutProbe(v, t)
  {
    hide PutU8, PutHttp, PutSocket;
    match v
    case Http(http) => w.U8(0); WriteHttpSpec(w, http);
    case Dns(socket) => w.U8(1); WriteSocketProbe(w, socket);
    case Tcp(socket) => w.U8(2); WriteSocketProbe(w, socket);
    case Udp(socket) => w.U8(3); WriteSocketProbe(w, socket);
  }

  method WriteNamedProbe(w: Writer, v: (Str, ProbeKind))
    modifies w
    ensures forall t {:trigger PutNamedProbe(v, t)} :: w.buf + t == old(w.buf) + PutNamedProbe(v, t)
  {
    hide PutStr, PutProbe;
    w.Str(v.0);
    WriteProbeKind(w, v.1);
  }

  // ---------- metadata, matchers, extracts, evidence ----------

  method WriteMetadata(w: Writer, v: CheckMetadata)
    modifies w
    ensures forall t {:trigger PutMetadata(v, t)} :: w.buf + t == old(w.buf) + PutMetadata(v, t)
  {
    hide PutOpt, PutList;
    w.OptStr(v.name);
    w.OptStr(v.description);
    w.OptStr(v.impact);
    WriteOptSeverity(w, v.severity);
    w.OptStr(v.author);
    WriteStrings(w, v.cve);
    WriteStrings(w, v.cwe);
    WriteStrings(w, v.references);
    WriteStrings(w, v.cvss);
    WriteStrings(w, v.cvssScore);
    w.OptStr(v.mitigation);
    WriteStrings(w, v.tags);
    w.OptStr(v.version);
    w.OptStr(v.family);
  }

  method WriteFieldKind(w: Writer, v: FieldKind)
    modifies w
    ensures forall t {:trigger PutFieldKind(v, t)} :: w.buf + t == old(w.buf) + PutFieldKind(v, t)
  {
    hide PutU8, PutStr;
    match v
    case Status => w.U8(0);
    case Body => w.U8(1);
    case Header(name) => w.U8(2); w.Str(name);
    case ResponseTime => w.U8(3);
    case ResponseSize => w.U8(4);
    case Answer => w.U8(5);
    case Banner => w.U8(6);
    case Response => w.U8(7);
  }

  method WriteCmpValue(w: Writer, v: CmpValue)
    modifies w
    ensures forall t {:trigger PutCmpValue(v, t)} :: w.buf + t == old(w.buf) + PutCmpValue(v, t)
  {
    hide PutU8, PutU64, PutStr;
    match v
    case Number(n) => w.U8(0); w.U64(n);
    case StringOperand(s) => w.U8(1); w.Str(s);
    case Duration(d) => w.U8(2); w.Str(d);
  }

  method WritePredicate(w: Writer, v: MatchPredicate)
    modifies w
    ensures forall t {:trigger PutPredicate(v, t)} :: w.buf + t == old(w.buf) + PutPredicate(v, t)
  {
    hide PutU8, PutCmpOp, PutCmpValue, PutStr;
    match v
    case Compare(op, value) => w.U8(0); WriteCmpOp(w, op); WriteCmpValue(w, value);
    case Contains(s) => w.U8(1); w.Str(s);
    case NotContains(s) => w.U8(2); w.Str(s);
    case Regex(s) => w.U8(3); w.Str(s);
  }

  method WriteMatcher(w: Writer, v: QualifiedMatch)
    modifies w
    ensures forall t {:trigger PutMatcher(v, t)} :: w.buf + t == old(w.buf) + PutMatcher(v, t)
  {
    hide PutStr, PutFieldKind, PutPredicate;
    w.Str(v.field.target);
    WriteFieldKind(w, v.field.kind);
    WritePredicate(w, v.predicate_);
  }

  method WriteMatchers(w: Writer, items: seq<QualifiedMatch>)
    modifies w
    ensures forall t {:trigger PutList(MatcherFormat(), items, t)} ::
        w.buf + t == old(w.buf) + PutList(MatcherFormat(), items, t)
  {
    hide PutMatcher, PutMany, PutList, PutU32;
    w.U32(|items| % U32_LIMIT);
    ghost var head := w.buf;
    assert items[0..] == items;
    for i := 0 to |items|
      invariant forall t {:trigger PutMany(MatcherFormat(), items, t)} ::
                  w.buf + PutMany(MatcherFormat(), items[i..], t) == head + PutMany(MatcherFormat(), items, t)
    {
      ghost var before := w.buf;
      WriteMatcher(w, items[i]);
      forall t {:trigger PutMany(MatcherFormat(), items, t)}
        ensures w.buf + PutMany(MatcherFormat(), items[i + 1..], t) == before + PutMany(MatcherFormat(), items[i..], t)
      {
        ManyHead(MatcherFormat(), items, i, t);
      }
    }
    forall t {:trigger PutList(MatcherFormat(), items, t)}
      ensures w.buf + t == old(w.buf) + PutList(MatcherFormat(), items, t)
    {
      ListSplit(MatcherFormat(), items, t);
      assert items[|items|..] == [];
      assert head + PutMany(MatcherFormat(), items, t) == w.buf + PutMany(MatcherFormat(), [], t);
    }
  }

  method WriteExtract(w: Writer, v: ExtractSource)
    modifies w
    ensures forall t {:trigger PutExtract(v, t)} :: w.buf + t == old(w.buf) + PutExtract(v, t)
  {
    hide PutU8, PutStr, PutOpt;
    match v
    case FromBody(target, regex) => w.U8(0); w.Str(target); w.OptStr(regex);
    case FromHeader(target, name) => w.U8(1); w.Str(target); w.Str(name);
  }

  method WriteExtracts(w: Writer, items: seq<ExtractSource>)
    modifies w
    ensures forall t {:trigger PutList(ExtractFormat(), items, t)} ::
        w.buf + t == old(w.buf) + PutList(ExtractFormat(), items, t)
  {
    hide PutExtract, PutMany, PutList, PutU32;
    w.U32(|items| % U32_LIMIT);
    ghost var head := w.buf;
    assert items[0..] == items;
    for i := 0 to |items|
      invariant forall t {:trigger PutMany(ExtractFormat(), items, t)} ::
                  w.buf + PutMany(ExtractFormat(), items[i..], t) == head + PutMany(ExtractFormat(), items, t)
    {
      ghost var before := w.buf;
      WriteExtract(w, items[i]);
      forall t {:trigger PutMany(ExtractFormat(), items, t)}
        ensures w.buf + PutMany(ExtractFormat(), items[i + 1..], t) == before + PutMany(ExtractFormat(), items[i..], t)
      {
        ManyHead(ExtractFormat(), items, i, t);
      }
    }
    forall t {:trigger PutList(ExtractFormat(), items, t)}
      ensures w.buf + t == old(w.buf) + PutList(ExtractFormat(), items, t)
    {
      ListSplit(ExtractFormat(), items, t);
      assert items[|items|..] == [];
      assert head + PutMany(ExtractFormat(), items, t) == w.buf + PutMany(ExtractFormat(), [], t);
    }
  }

  method WriteEvidenceKind(w: Writer, v: EvidenceKind)
    modifies w
    ensures forall t {:trigger PutEvidence(v, t)} :: w.buf + t == old(w.buf) + PutEvidence(v, t)
  {
    hide PutU8, PutStr, PutOpt;
    match v
    case BodyProof(target, pattern) => w.U8(0); w.Str(target); w.OptStr(pattern);
    case ResponseProof(target, pattern) => w.U8(1); w.Str(target); w.OptStr(pattern);
    case HeaderProof(target, name, pattern) => w.U8(2); w.Str(target); w.Str(name); w.OptStr(pattern);
  }

  method WriteEvidence(w: Writer, items: seq<EvidenceKind>)
    modifies w
    ensures forall t {:trigger PutList(EvidenceFormat(), items, t)} ::
        w.buf + t == old(w.buf) + PutList(EvidenceFormat(), items, t)
  {
    hide PutEvidence, PutMany, PutList, PutU32;
    w.U32(|items| % U32_LIMIT);
    ghost var head := w.buf;
    assert items[0..] == items;
    for i := 0 to |items|
      invariant forall t {:trigger PutMany(EvidenceFormat(), items, t)} ::
                  w.buf + PutMany(EvidenceFormat(), items[i..], t) == head + PutMany(EvidenceFormat(), items, t)
    {
      ghost var before := w.buf;
      WriteEvidenceKind(w, items[i]);
      forall t {:trigger PutMany(EvidenceFormat(), items, t)}
        ensures w.buf + PutMany(EvidenceFormat(), items[i + 1..], t)
             == before + PutMany(EvidenceFormat(), items[i..], t)
      {
        ManyHead(EvidenceFormat(), items, i, t);
      }
    }
    forall t {:trigger PutList(EvidenceFormat(), items, t)}
      ensures w.buf + t == old(w.buf) + PutList(EvidenceFormat(), items, t)
    {
      ListSplit(EvidenceFormat(), items, t);
      assert items[|items|..] == [];
      assert head + PutMany(EvidenceFormat(), items, t) == w.buf + PutMany(EvidenceFormat(), [], t);
    }
  }

  // ---------- instructions ----------

  method WriteEarlyOperands(w: Writer, i: Instr)
    requires 1 <= Opcode(i) <= 7 && !i.Send?
    modifies w
    ensures forall t {:trigger PutEarly(i, t)} :: w.buf + t == old(w.buf) + PutEarly(i, t)
  {
    hide PutU32, PutU16;
    match i
    case Set(name, value) => w.U32(name); w.U32(value);
    case Match(matcher) => w.U32(matcher);
    case MatchAll(start, len) => w.U32(start); w.U16(len);
    case MatchAny(start, len) => w.U32(start); w.U16(len);
    case Assert(matcher) => w.U32(matcher);
    case Extract(name, source) => w.U32(name); w.U32(source);
  }

  method WriteMiddleOperands(w: Writer, i: Instr)
    requires 8 <= Opcode(i) <= 13
    modifies w
    ensures forall t {:trigger PutMiddle(i, t)} :: w.buf + t == old(w.buf) + PutMiddle(i, t)
  {
    hide PutU32, PutU16;
    match i
    case IfMatch(matcher, elsePc) => w.U32(matcher); w.U32(elsePc);
    case Save(from, to) => w.U32(from); w.U32(to);
    case Evidence(kind) => w.U32(kind);
    case Retry(probe, count) => w.U32(probe); w.U32(count);
    case RetryDelay(delay) => w.U32(delay);
    case Sleep(delay) => w.U32(delay);
  }

  method WriteLateOperands(w: Writer, i: Instr)
    requires 14 <= Opcode(i) <= 23
    modifies w
    ensures forall t {:trigger PutLate(i, t)} :: w.buf + t == old(w.buf) + PutLate(i, t)
  {
    hide PutU32, PutU16;
    match i
    case SetList(name, start, len) => w.U32(name); w.U32(start); w.U16(len);
    case ForList(item, start, len, endPc) => w.U32(item); w.U32(start); w.U16(len); w.U32(endPc);
    case ForVar(item, list, endPc) => w.U32(item); w.U32(list); w.U32(endPc);
    case _ =>
  }

  method WriteSend(w: Writer, i: Instr)
    requires i.Send?
    modifies w
    ensures forall t {:trigger PutSend(i, t)} :: w.buf + t == old(w.buf) + PutSend(i, t)
  {
    hide PutU8, PutU32;
    w.U32(i.probe);
    match i.payload
    case Some(id) => w.U8(1); w.U32(id);
    case None => w.U8(0);
  }

  method WriteInstr(w: Writer, i: Instr)
    modifies w
    ensures forall t {:trigger PutInstr(i, t)} :: w.buf + t == old(w.buf) + PutInstr(i, t)
  {
    hide PutU8, PutSend, PutEarly, PutMiddle, PutLate;
    w.U8(Opcode(i));
    if i.Send? {
      WriteSend(w, i);
    } else if Opcode(i) <= 7 {
      WriteEarlyOperands(w, i);
    } else if Opcode(i) <= 13 {
      WriteMiddleOperands(w, i);
    } else {
      WriteLateOperands(w, i);
    }
  }

  method WriteCode(w: Writer, items: seq<Instr>)
    modifies w
    ensures forall t {:trigger PutList(InstrFormat(), items, t)} ::
        w.buf + t == old(w.buf) + PutList(InstrFormat(), items, t)
  {
    hide PutInstr, PutMany, PutList, PutU32;
    w.U32(|items| % U32_LIMIT);
    ghost var head := w.buf;
    assert items[0..] == items;
    for i := 0 to |items|
      invariant forall t {:trigger PutMany(InstrFormat(), items, t)} ::
                  w.buf + PutMany(InstrFormat(), items[i..], t) == head + PutMany(InstrFormat(), items, t)
    {
      ghost var before := w.buf;
      WriteInstr(w, items[i]);
      forall t {:trigger PutMany(InstrFormat(), items, t)}
        ensures w.buf + PutMany(InstrFormat(), items[i + 1..], t) == before + PutMany(InstrFormat(), items[i..], t)
      {
        ManyHead(InstrFormat(), items, i, t);
      }
    }
    forall t {:trigger PutList(InstrFormat(), items, t)}
      ensures w.buf + t == old(w.buf) + PutList(InstrFormat(), items, t)
    {
      ListSplit(InstrFormat(), items, t);
      assert items[|items|..] == [];
      assert head + PutMany(InstrFormat(), items, t) == w.buf + PutMany(InstrFormat(), [], t);
    }
  }

  // ---------- the probe table, written in name order ----------

  /** Insert a new name into an increasing sequence. */
  method InsertName(names: seq<Str>, name: Str) returns (r: seq<Str>)
    requires Increasing(StrLe, names) && name !in Elements(names)
    ensures Increasing(StrLe, r) && Elements(r) == Elements(names) + {name}
  {
    StrOrder();
    var i := 0;
    while i < |names| && StrLe(names[i], name)
      invariant i <= |names| && forall j | 0 <= j < i :: StrLe(names[j], name)
    {
      i := i + 1;
    }
    r := names[..i] + [name] + names[i..];
    Inserted(names, name, i);
  }

  lemma Inserted(names: seq<Str>, name: Str, i: nat)
    requires Increasing(StrLe, names) && name !in Elements(names) && i <= |names|
    requires forall j | 0 <= j < i :: StrLe(names[j], name)
    requires i < |names| ==> !StrLe(names[i], name)
    ensures var r := names[..i] + [name] + names[i..];
            Increasing(StrLe, r) && Elements(r) == Elements(names) + {name}
  {
    hide StrLe;
    StrOrder();
    var r := names[..i] + [name] + names[i..];
    assert forall j | 0 <= j < |names| :: names[j] in Elements(names);
    forall j | i <= j < |names| ensures StrLe(name, names[j]) {
      assert StrLe(name, names[i]);
    }
    assert forall x :: x in r <==> x in names || x == name;
  }

  method SortNames(probes: Codec.Probes) returns (names: seq<Str>)
    ensures names == Codec.SortedNames(probes)
  {
    names := [];
    var left := probes.Keys;
    while left != {}
      invariant left <= probes.Keys && Elements(names) == probes.Keys - left && Increasing(StrLe, names)
      decreases |left|
    {
      var name :| name in left;
      names := InsertName(names, name);
      left := left - {name};
    }
    StrOrder();
    IncreasingUnique(StrLe, names, Codec.SortedNames(probes));
  }

  method WriteProbes(w: Writer, probes: Codec.Probes)
    modifies w
    ensures forall t {:trigger Codec.PutProbes(probes, t)} :: w.buf + t == old(w.buf) + Codec.PutProbes(probes, t)
  {
    hide PutMany, Codec.PutProbes, PutU32, Codec.Entries, PutNamedProbe, Codec.SortedNames, Codec.Names,
      Increasing, Elements;
    var names := SortNames(probes);
    ghost var items := Codec.Entries(probes);
    w.U32(|names| % U32_LIMIT);
    ghost var head := w.buf;
    assert items[0..] == items;
    for i := 0 to |names|
      invariant forall t {:trigger PutMany(NamedProbeFormat(), items, t)} ::
                  w.buf + PutMany(NamedProbeFormat(), items[i..], t) == head + PutMany(NamedProbeFormat(), items, t)
    {
      ghost var before := w.buf;
      NameOfEntry(probes, i);
      WriteNamedProbe(w, (names[i], probes[names[i]]));
      forall t {:trigger PutMany(NamedProbeFormat(), items, t)}
        ensures w.buf + PutMany(NamedProbeFormat(), items[i + 1..], t)
             == before + PutMany(NamedProbeFormat(), items[i..], t)
      {
        ManyHead(NamedProbeFormat(), items, i, t);
      }
    }
    forall t {:trigger Codec.PutProbes(probes, t)}
      ensures w.buf + t == old(w.buf) + Codec.PutProbes(probes, t)
    {
      ProbesSplit(probes, t);
      assert items[|items|..] == [];
      assert head + PutMany(NamedProbeFormat(), items, t) == w.buf + PutMany(NamedProbeFormat(), [], t);
    }
  }

  lemma NameOfEntry(probes: Codec.Probes, i: nat)
    requires i < |probes|
    ensures var names := Codec.SortedNames(probes);
            names[i] in probes && Codec.Entries(probes)[i] == (names[i], probes[names[i]])
  {
    hide Codec.Entries, Codec.SortedNames;
    Codec.EntryAt(probes, i);
  }

  lemma ProbesSplit(probes: Codec.Probes, t: seq<byte>)
    ensures Codec.PutProbes(probes, t)
         == PutU32(|probes| % U32_LIMIT, PutMany(NamedProbeFormat(), Codec.Entries(probes), t))
    ensures PutMany(NamedProbeFormat(), [], t) == t
  {
    hide PutMany, PutList, Codec.Entries;
    ListSplit(NamedProbeFormat(), Codec.Entries(probes), t);
  }

  method WritePools(w: Writer, p: BytecodeProgram)
    modifies w
    ensures forall t {:trigger Codec.PutPools(p, t)} :: w.buf + t == old(w.buf) + Codec.PutPools(p, t)
  {
    hide PutList;
    WriteStrings(w, p.strings);
    WritePayloads(w, p.payloads);
    WriteMatchers(w, p.matchers);
    WriteExtracts(w, p.extracts);
    WriteEvidence(w, p.evidence);
    WriteCode(w, p.code);
  }

  method WriteBody(w: Writer, p: BytecodeProgram)
    modifies w
    ensures forall t {:trigger Codec.PutBody(p, t)} :: w.buf + t == old(w.buf) + Codec.PutBody(p, t)
  {
    hide PutMetadata, Codec.PutProbes, Codec.PutPools;
    WriteMetadata(w, p.spec.metadata);
    WriteProbes(w, p.spec.probes);
    WritePools(w, p);
  }

  method Encode(program: BytecodeProgram) returns (bytes: seq<byte>)
    ensures bytes == Codec.Encode(program)
  {
    hide *;
    var w := new Writer();
    w.Raw(Codec.MAGIC);
    assert w.buf == Codec.MAGIC;
    w.U8(Codec.VERSION);
    WriteBody(w, program);
    bytes := w.buf;
    EncodeSplit(program);
    assert bytes + [] == bytes;
  }

  lemma EncodeSplit(p: BytecodeProgram)
    ensures Codec.Encode(p) == Codec.MAGIC + PutU8(Codec.VERSION, Codec.PutBody(p, []))
  {
    hide PutU8, Codec.PutBody;
  }
}
