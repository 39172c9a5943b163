/** Decoding in imperative form: every `ReadX` agrees with parsing the bytes that are left. */
module Decoder {
  import opened Prelude
  import opened Contract
  import opened Wire
  import opened Format
  import opened Binary
  import opened Validate
  import Codec

  type Read<T> = Result<T, BytecodeError>

  // ---------- counted loops ----------

  /** What a counted loop returns when `sofar` is collected and `p` parses the elements still to come. */
  function Behind<T>(sofar: seq<T>, p: Parse<seq<T>>): Parse<seq<T>> {
    match p
    case Done(more, rest) => Done(sofar + more, rest)
    case Bad(e) => Bad(e)
  }

  lemma BehindNothing<T>(p: Parse<seq<T>>)
    ensures Behind([], p) == p
  {
    if p.Done? {
      assert [] + p.value == p.value;
    }
  }

  lemma ManyStep<T(!new)>(c: ElementFormat<T>, n: nat, b: seq<byte>, sofar: seq<T>)
    requires Lawful(c) && n > 0
    ensures c.get(b).Bad? ==> Behind(sofar, GetMany(c, n, b)) == Bad(c.get(b).error)
    ensures c.get(b).Done? ==>
              Behind(sofar, GetMany(c, n, b)) == Behind(sofar + [c.get(b).value], GetMany(c, n - 1, c.get(b).rest))
  {
    if c.get(b).Done? && GetMany(c, n - 1, c.get(b).rest).Done? {
      var v, vs := c.get(b).value, GetMany(c, n - 1, c.get(b).rest).value;
      assert sofar + ([v] + vs) == (sofar + [v]) + vs;
    }
  }

  lemma ManyDone<T(!new)>(c: ElementFormat<T>, b: seq<byte>, sofar: seq<T>)
    requires Lawful(c)
    ensures Behind(sofar, GetMany(c, 0, b)) == Done(sofar, b)
  {
    assert sofar + [] == sofar;
  }

  method ReadSeverity(r: Reader) returns (res: Read<Severity>)
    requires r.Valid()
    modifies r`pos
    ensures r.Valid() && Agrees(res, r.Rest(), GetSeverity(old(r.Rest())))
  {
    hide Reader.Rest, Reader.Valid, GetU8, OkOpt, SizeOpt, OkList, SizeList, OkStr, SizeBytes;
    var tag :- r.U8();
    match tag
    case 0 => return Ok(Low);
    case 1 => return Ok(Medium);
    case 2 => return Ok(High);
    case 3 => return Ok(Critical);
    case 4 => return Ok(Info);
    case _ => return Err(Corrupt(BadSeverity));
  }

  method ReadMethod(r: Reader) returns (res: Read<HttpMethod>)
    requires r.Valid()
    modifies r`pos
    ensures r.Valid() && Agrees(res, r.Rest(), GetMethod(old(r.Rest())))
  {
    hide Reader.Rest, Reader.Valid, GetU8, OkOpt, SizeOpt, OkList, SizeList, OkStr, SizeBytes;
    var tag :- r.U8();
    match tag
    case 0 => return Ok(Get);
    case 1 => return Ok(Post);
    case 2 => return Ok(Put);
    case 3 => return Ok(Patch);
    case 4 => return Ok(Delete);
    case 5 => return Ok(Head);
    case 6 => return Ok(Options);
    case _ => return Err(Corrupt(BadMethod));
  }

  method ReadCmpOp(r: Reader) returns (res: Read<CmpOp>)
    requires r.Valid()
    modifies r`pos
    ensures r.Valid() && Agrees(res, r.Rest(), GetCmpOp(old(r.Rest())))
  {
    hide Reader.Rest, Reader.Valid, GetU8, OkOpt, SizeOpt, OkList, SizeList, OkStr, SizeBytes;
    var tag :- r.U8();
    match tag
    case 0 => return Ok(Eq);
    case 1 => return Ok(Ne);
    case 2 => return Ok(Lt);
    case 3 => return Ok(Gt);
    case 4 => return Ok(Le);
    case 5 => return Ok(Ge);
    case _ => return Err(Corrupt(BadCmpOp));
  }

  method ReadOptSeverity(r: Reader) returns (res: Read<Option<Severity>>)
    requires r.Valid()
    modifies r`pos
    ensures r.Valid() && Agrees(res, r.Rest(), GetOpt(SeverityFormat(), old(r.Rest())))
  {
    hide Reader.Rest, Reader.Valid, GetU8, GetSeverity, OkOpt, SizeOpt, OkList, SizeList, OkStr, SizeBytes;
    var tag :- r.U8();
    if tag == 0 {
      return Ok(None);
    }
    var v :- ReadSeverity(r);
    return Ok(Some(v));
  }

  method ReadOptBool(r: Reader) returns (res: Read<Option<bool>>)
    requires r.Valid()
    modifies r`pos
    ensures r.Valid() && Agrees(res, r.Rest(), GetOpt(BoolFormat(), old(r.Rest())))
  {
    hide Reader.Rest, Reader.Valid, GetU8, GetBool, OkOpt, SizeOpt, OkList, SizeList, OkStr, SizeBytes;
    var tag :- r.U8();
    if tag == 0 {
      return Ok(None);
    }
    var v :- r.Bool();
    return Ok(Some(v));
  }

  method ReadStrings(r: Reader) returns (res: Read<seq<Str>>)
    requires r.Valid()
    modifies r`pos
    ensures r.Valid() && Agrees(res, r.Rest(), GetList(StrFormat(), old(r.Rest())))
  {
    hide Reader.Rest, Reader.Valid, Behind, Lawful, Extends, OkList, SizeList, OkMany, SizeMany, GetMany,
      GetCount, GetStr;
    var count :- r.Count();
    ghost var all := GetMany(StrFormat(), count, r.Rest());
    var items: seq<Str> := [];
    BehindNothing(all);
    for i := 0 to count
      invariant r.Valid() && Behind(items, GetMany(StrFormat(), count - i, r.Rest())) == all
    {
      ManyStep(StrFormat(), count - i, r.Rest(), items);
      var item :- r.Str();
      items := items + [item];
    }
    ManyDone(StrFormat(), r.Rest(), items);
    return Ok(items);
  }

  method ReadPayloads(r: Reader) returns (res: Read<seq<seq<byte>>>)
    requires r.Valid()
    modifies r`pos
    ensures r.Valid() && Agrees(res, r.Rest(), GetList(PayloadFormat(), old(r.Rest())))
  {
    hide Reader.Rest, Reader.Valid, Behind, Lawful, Extends, OkList, SizeList, OkMany, SizeMany, GetMany,
      GetCount, GetBlob;
    var count :- r.Count();
    ghost var all := GetMany(PayloadFormat(), count, r.Rest());
    var items: seq<seq<byte>> := [];
    BehindNothing(all);
    for i := 0 to count
      invariant r.Valid() && Behind(items, GetMany(PayloadFormat(), count - i, r.Rest())) == all
    {
      ManyStep(PayloadFormat(), count - i, r.Rest(), items);
      var item :- r.Blob(PayloadTooLong);
      items := items + [item];
    }
    ManyDone(PayloadFormat(), r.Rest(), items);
    return Ok(items);
  }

  method ReadPair(r: Reader) returns (res: Read<(Str, Str)>)
    requires r.Valid()
    modifies r`pos
    ensures r.Valid() && Agrees(res, r.Rest(), GetPair(old(r.Rest())))
  {
    hide Reader.Rest, Reader.Valid, GetStr, OkOpt, SizeOpt, OkList, SizeList, OkStr, SizeBytes, OkPair, SizePair;
    var k :- r.Str();
    var v :- r.Str();
    return Ok((k, v));
  }

  method ReadHeaderList(r: Reader) returns (res: Read<seq<(Str, Str)>>)
    requires r.Valid()
    modifies r`pos
    ensures r.Valid() && Agrees(res, r.Rest(), GetList(PairFormat(), old(r.Rest())))
  {
    hide Reader.Rest, Reader.Valid, Behind, Lawful, Extends, OkList, SizeList, OkMany, SizeMany, GetMany,
      GetCount, GetPair;
    var count :- r.Count();
    ghost var all := GetMany(PairFormat(), count, r.Rest());
    var items: seq<(Str, Str)> := [];
    BehindNothing(all);
    for i := 0 to count
      invariant r.Valid() && Behind(items, GetMany(PairFormat(), count - i, r.Rest())) == all
    {
      ManyStep(PairFormat(), count - i, r.Rest(), items);
      var item :- ReadPair(r);
      items := items + [item];
    }
    ManyDone(PairFormat(), r.Rest(), items);
    return Ok(items);
  }

  // ---------- nested request bodies ----------

  lemma FieldsStep(n: nat, b: seq<byte>, sofar: seq<Pair>)
    requires n > 0
    ensures GetStr(b).Bad? ==> Behind(sofar, GetFields(n, b)) == Bad(GetStr(b).error)
    ensures GetStr(b).Done? && GetValue(GetStr(b).rest).Bad? ==>
              Behind(sofar, GetFields(n, b)) == Bad(GetValue(GetStr(b).rest).error)
    ensures GetStr(b).Done? && GetValue(GetStr(b).rest).Done? ==>
              var value := GetValue(GetStr(b).rest);
              Behind(sofar, GetFields(n, b))
              == Behind(sofar + [Pair(GetStr(b).value, value.value)], GetFields(n - 1, value.rest))
  {
    hide GetStr, GetValue;
    if GetStr(b).Done? && GetValue(GetStr(b).rest).Done? {
      var value := GetValue(GetStr(b).rest);
      var more := GetFields(n - 1, value.rest);
      if more.Done? {
        var p := Pair(GetStr(b).value, value.value);
        assert sofar + ([p] + more.value) == (sofar + [p]) + more.value;
      }
    }
  }

  lemma FieldsDone(b: seq<byte>, sofar: seq<Pair>)
    ensures Behind(sofar, GetFields(0, b)) == Done(sofar, b)
  {
    assert sofar + [] == sofar;
  }

  method ReadObject(r: Reader) returns (res: Read<ObjectBody>)
    requires r.Valid()
    modifies r`pos
    ensures r.Valid() && Agrees(res, r.Rest(), GetObject(old(r.Rest())))
    decreases |r.Rest()|
  {
    hide GetCount, GetFields, GetStr, GetValue;
    var count :- r.Count();
    ghost var all := GetFields(count, r.Rest());
    var pairs: seq<Pair> := [];
    BehindNothing(all);
    for i := 0 to count
      invariant r.Valid() && |r.Rest()| < |old(r.Rest())|
      invariant Behind(pairs, GetFields(count - i, r.Rest())) == all
    {
      FieldsStep(count - i, r.Rest(), pairs);
      var key :- r.Str();
      var value :- ReadBodyValue(r);
      pairs := pairs + [Pair(key, value)];
    }
    FieldsDone(r.Rest(), pairs);
    return Ok(ObjectBody(pairs));
  }

  method ReadBodyValue(r: Reader) returns (res: Read<BodyValue>)
    requires r.Valid()
    modifies r`pos
    ensures r.Valid() && Agrees(res, r.Rest(), GetValue(old(r.Rest())))
    decreases |r.Rest()|
  {
    hide Reader.Rest, Reader.Valid, GetU8, GetStr, GetObject, GetPart;
    var tag :- r.U8();
    match tag
    case 0 => var s :- r.Str(); return Ok(StringValue(s));
    case 1 => var s :- r.Str(); return Ok(Interpolation(s));
    case 2 => var o :- ReadObject(r); return Ok(Object(o));
    case 3 => var s :- r.Str(); return Ok(BytesValue(s));
    case 4 => var p :- ReadPart(r); return Ok(Part(p));
    case _ => return Err(Corrupt(BadBodyValue));
  }

  method ReadPart(r: Reader) returns (res: Read<InlinePart>)
    requires r.Valid()
    modifies r`pos
    ensures r.Valid() && Agrees(res, r.Rest(), GetPart(old(r.Rest())))
  {
    hide Reader.Rest, Reader.Valid, GetOpt, GetU8, GetStr, OkOpt, SizeOpt, OkList, SizeList, OkStr, SizeBytes;
    var filename :- r.OptStr();
    var tag :- r.U8();
    var content :- r.Str();
    return Ok(InlinePart(filename, if tag == 1 then PartBytes(content) else PartText(content)));
  }

  method ReadOptObject(r: Reader) returns (res: Read<Option<ObjectBody>>)
    requires r.Valid()
    modifies r`pos
    ensures r.Valid() && Agrees(res, r.Rest(), GetOpt(ObjectFormat(), old(r.Rest())))
  {
    hide Reader.Rest, Reader.Valid, GetU8, GetObject, OkOpt, SizeOpt, OkList, SizeList, OkStr, SizeBytes;
    var tag :- r.U8();
    if tag == 0 {
      return Ok(None);
    }
    var v :- ReadObject(r);
    return Ok(Some(v));
  }

  // ---------- probes ----------

  method ReadSocketProbe(r: Reader) returns (res: Read<SocketProbeSpec>)
    requires r.Valid()
    modifies r`pos
    ensures r.Valid() && Agrees(res, r.Rest(), GetSocket(old(r.Rest())))
  {
    hide Reader.Rest, Reader.Valid, GetStr, GetOpt, GetBool, GetU32, OkOpt, SizeOpt, OkList, SizeList, OkStr,
      SizeBytes, OkSocket, SizeSocket;
    var host :- r.Str();
    var port :- r.OptU16();
    var payload :- r.OptBytes();
    var tls :- r.Bool();
    var session :- r.Bool();
    var readMax :- r.U32();
    var readIdleMs :- r.U32();
    return Ok(SocketProbeSpec(host, port, payload, tls, session, readMax, readIdleMs));
  }

  method ReadHttpSpec(r: Reader) returns (res: Read<HttpRequestSpec>)
    requires r.Valid()
    modifies r`pos
    ensures r.Valid() && Agrees(res, r.Rest(), GetHttp(old(r.Rest())))
  {
    hide Reader.Rest, Reader.Valid, GetMethod, GetStr, GetOpt, GetList, OkOpt, SizeOpt, OkList, SizeList, OkStr,
      SizeBytes, OkHttp, SizeHttp;
    var verb :- ReadMethod(r);
    var path :- r.Str();
    var timeout :- r.OptStr();
    var followRedirect :- ReadOptBool(r);
    var verifySsl :- ReadOptBool(r);
    var proxy :- r.OptStr();
    var userAgent :- r.OptStr();
    var headers :- ReadHeaderList(r);
    var cookies :- ReadHeaderList(r);
    var queries :- ReadHeaderList(r);
    var dataBody :- ReadOptObject(r);
    var jsonBody :- ReadOptObject(r);
    var rawBody :- r.OptStr();
    var bodyBytes :- r.OptStr();
    var multipartBody :- ReadOptObject(r);
    return Ok(HttpRequestSpec(verb, path, timeout, followRedirect, verifySsl, proxy, userAgent, headers, cookies,
        queries, dataBody, jsonBody, rawBody, bodyBytes, multipartBody));
  }

  method ReadProbeKind(r: Reader) returns (res: Read<ProbeKind>)
    requires r.Valid()
    modifies r`pos
    ensures r.Valid() && Agrees(res, r.Rest(), GetProbe(old(r.Rest())))
  {
    hide Reader.Rest, Reader.Valid, GetU8, GetHttp, GetSocket, OkOpt, SizeOpt, OkList, SizeList, OkStr,
      SizeBytes, OkProbe, SizeProbe;
    var tag :- r.U8();
    match tag
    case 0 => var http :- ReadHttpSpec(r); return Ok(Http(http));
    case 1 => var socket :- ReadSocketProbe(r); return Ok(Dns(socket));
    case 2 => var socket :- ReadSocketProbe(r); return Ok(Tcp(socket));
    case 3 => var socket :- ReadSocketProbe(r); return Ok(Udp(socket));
    case _ => return Err(Corrupt(BadProbeKind));
  }

  method ReadNamedProbe(r: Reader) returns (res: Read<(Str, ProbeKind)>)
    requires r.Valid()
    modifies r`pos
    ensures r.Valid() && Agrees(res, r.Rest(), GetNamedProbe(old(r.Rest())))
  {
    hide Reader.Rest, Reader.Valid, GetStr, GetProbe, OkOpt, SizeOpt, OkList, SizeList, OkStr, SizeBytes,
      OkNamedProbe, SizeNamedProbe;
    var name :- r.Str();
    var kind :- ReadProbeKind(r);
    return Ok((name, kind));
  }

  lemma TableOfNothing()
    ensures Codec.TableOf([]) == map[]
  {
  }

  lemma TableOfSnoc(entries: seq<Codec.NamedProbe>, entry: Codec.NamedProbe)
    ensures Codec.TableOf(entries + [entry]) == Codec.TableOf(entries)[entry.0 := entry.1]
  {
    assert (entries + [entry])[..|entries|] == entries;
  }

  /** A later entry of the same name replaces an earlier one. */
  method ReadProbes(r: Reader) returns (res: Read<Codec.Probes>)
    requires r.Valid()
    modifies r`pos
    ensures r.Valid() && Agrees(res, r.Rest(), Codec.GetProbes(old(r.Rest())))
  {
    hide Reader.Rest, Reader.Valid, Behind, Lawful, Extends, OkList, SizeList, OkMany, SizeMany, OkNamedProbe,
      Codec.OkProbes, Codec.TableOf, GetMany, GetCount, GetNamedProbe;
    var count :- r.Count();
    ghost var all := GetMany(NamedProbeFormat(), count, r.Rest());
    ghost var entries: seq<Codec.NamedProbe> := [];
    var probes: Codec.Probes := map[];
    BehindNothing(all);
    TableOfNothing();
    for i := 0 to count
      invariant r.Valid() && Behind(entries, GetMany(NamedProbeFormat(), count - i, r.Rest())) == all
      invariant probes == Codec.TableOf(entries)
    {
      ManyStep(NamedProbeFormat(), count - i, r.Rest(), entries);
      var entry :- ReadNamedProbe(r);
      TableOfSnoc(entries, entry);
      entries := entries + [entry];
      probes := probes[entry.0 := entry.1];
    }
    ManyDone(NamedProbeFormat(), r.Rest(), entries);
    return Ok(probes);
  }

  // ---------- metadata, matchers, extracts, evidence ----------

  method ReadMetadata(r: Reader) returns (res: Read<CheckMetadata>)
    requires r.Valid()
    modifies r`pos
    ensures r.Valid() && Agrees(res, r.Rest(), GetMetadata(old(r.Rest())))
  {
    hide Reader.Rest, Reader.Valid, GetOpt, GetList, OkOpt, SizeOpt, OkList, SizeList, OkStr, SizeBytes,
      OkMetadata, SizeMetadata;
    var name :- r.OptStr();
    var description :- r.OptStr();
    var impact :- r.OptStr();
    var severity :- ReadOptSeverity(r);
    var author :- r.OptStr();
    var cve :- ReadStrings(r);
    var cwe :- ReadStrings(r);
    var references :- ReadStrings(r);
    var cvss :- ReadStrings(r);
    var cvssScore :- ReadStrings(r);
    var mitigation :- r.OptStr();
    var tags :- ReadStrings(r);
    var version :- r.OptStr();
    var family :- r.OptStr();
    return Ok(CheckMetadata(name, description, impact, severity, author, cve, cwe, references, cvss, cvssScore,
        mitigation, tags, version, family));
  }

  method ReadFieldKind(r: Reader) returns (res: Read<FieldKind>)
    requires r.Valid()
    modifies r`pos
    ensures r.Valid() && Agrees(res, r.Rest(), GetFieldKind(old(r.Rest())))
  {
    hide Reader.Rest, Reader.Valid, GetU8, GetStr, OkOpt, SizeOpt, OkList, SizeList, OkStr, SizeBytes,
      OkFieldKind, SizeFieldKind;
    var tag :- r.U8();
    match tag
    case 0 => return Ok(Status);
    case 1 => return Ok(Body);
    case 2 => var name :- r.Str(); return Ok(Header(name));
    case 3 => return Ok(ResponseTime);
    case 4 => return Ok(ResponseSize);
    case 5 => return Ok(Answer);
    case 6 => return Ok(Banner);
    case 7 => return Ok(Response);
    case _ => return Err(Corrupt(BadFieldKind));
  }

  method ReadCmpValue(r: Reader) returns (res: Read<CmpValue>)
    requires r.Valid()
    modifies r`pos
    ensures r.Valid() && Agrees(res, r.Rest(), GetCmpValue(old(r.Rest())))
  {
    hide Reader.Rest, Reader.Valid, GetU8, GetU64, GetStr, OkOpt, SizeOpt, OkList, SizeList, OkStr, SizeBytes,
      OkCmpValue, SizeCmpValue;
    var tag :- r.U8();
    match tag
    case 0 => var n :- r.U64(); return Ok(Number(n));
    case 1 => var s :- r.Str(); return Ok(StringOperand(s));
    case 2 => var d :- r.Str(); return Ok(Duration(d));
    case _ => return Err(Corrupt(BadCmpValue));
  }

  method ReadPredicate(r: Reader) returns (res: Read<MatchPredicate>)
    requires r.Valid()
    modifies r`pos
    ensures r.Valid() && Agrees(res, r.Rest(), GetPredicate(old(r.Rest())))
  {
    hide Reader.Rest, Reader.Valid, GetU8, GetCmpOp, GetCmpValue, GetStr, OkOpt, SizeOpt, OkList, SizeList,
      OkStr, SizeBytes, OkPredicate, SizePredicate;
    var tag :- r.U8();
    match tag
    case 0 => var op :- ReadCmpOp(r); var value :- ReadCmpValue(r); return Ok(Compare(op, value));
    case 1 => var text :- r.Str(); return Ok(Contains(text));
    case 2 => var text :- r.Str(); return Ok(NotContains(text));
    case 3 => var pattern :- r.Str(); return Ok(Regex(pattern));
    case _ => return Err(Corrupt(BadPredicate));
  }

  method ReadMatcher(r: Reader) returns (res: Read<QualifiedMatch>)
    requires r.Valid()
    modifies r`pos
    ensures r.Valid() && Agrees(res, r.Rest(), GetMatcher(old(r.Rest())))
  {
    hide Reader.Rest, Reader.Valid, GetStr, GetFieldKind, GetPredicate, OkOpt, SizeOpt, OkList, SizeList, OkStr,
      SizeBytes, OkMatcher, SizeMatcher;
    var target :- r.Str();
    var kind :- ReadFieldKind(r);
    var p :- ReadPredicate(r);
    return Ok(QualifiedMatch(QualifiedField(target, kind), p));
  }

  method ReadMatchers(r: Reader) returns (res: Read<seq<QualifiedMatch>>)
    requires r.Valid()
    modifies r`pos
    ensures r.Valid() && Agrees(res, r.Rest(), GetList(MatcherFormat(), old(r.Rest())))
  {
    hide Reader.Rest, Reader.Valid, Behind, Lawful, Extends, OkList, SizeList, OkMany, SizeMany, GetMany,
      GetCount, GetMatcher;
    var count :- r.Count();
    ghost var all := GetMany(MatcherFormat(), count, r.Rest());
    var items: seq<QualifiedMatch> := [];
    BehindNothing(all);
    for i := 0 to count
      invariant r.Valid() && Behind(items, GetMany(MatcherFormat(), count - i, r.Rest())) == all
    {
      ManyStep(MatcherFormat(), count - i, r.Rest(), items);
      var item :- ReadMatcher(r);
      items := items + [item];
    }
    ManyDone(MatcherFormat(), r.Rest(), items);
    return Ok(items);
  }

  method ReadExtract(r: Reader) returns (res: Read<ExtractSource>)
    requires r.Valid()
    modifies r`pos
    ensures r.Valid() && Agrees(res, r.Rest(), GetExtract(old(r.Rest())))
  {
    hide Reader.Rest, Reader.Valid, GetU8, GetStr, GetOpt, OkOpt, SizeOpt, OkList, SizeList, OkStr, SizeBytes,
      OkExtract, SizeExtract;
    var tag :- r.U8();
    match tag
    case 0 => var target :- r.Str(); var regex :- r.OptStr(); return Ok(FromBody(target, regex));
    case 1 => var target :- r.Str(); var name :- r.Str(); return Ok(FromHeader(target, name));
    case _ => return Err(Corrupt(BadExtract));
  }

  method ReadExtracts(r: Reader) returns (res: Read<seq<ExtractSource>>)
    requires r.Valid()
    modifies r`pos
    ensures r.Valid() && Agrees(res, r.Rest(), GetList(ExtractFormat(), old(r.Rest())))
  {
    hide Reader.Rest, Reader.Valid, Behind, Lawful, Extends, OkList, SizeList, OkMany, SizeMany, GetMany,
      GetCount, GetExtract;
    var count :- r.Count();
    ghost var all := GetMany(ExtractFormat(), count, r.Rest());
    var items: seq<ExtractSource> := [];
    BehindNothing(all);
    for i := 0 to count
      invariant r.Valid() && Behind(items, GetMany(ExtractFormat(), count - i, r.Rest())) == all
    {
      ManyStep(ExtractFormat(), count - i, r.Rest(), items);
      var item :- ReadExtract(r);
      items := items + [item];
    }
    ManyDone(ExtractFormat(), r.Rest(), items);
    return Ok(items);
  }

  method ReadEvidenceKind(r: Reader) returns (res: Read<EvidenceKind>)
    requires r.Valid()
    modifies r`pos
    ensures r.Valid() && Agrees(res, r.Rest(), GetEvidence(old(r.Rest())))
  {
    hide Reader.Rest, Reader.Valid, GetU8, GetStr, GetOpt, OkOpt, SizeOpt, OkList, SizeList, OkStr, SizeBytes,
      OkEvidence, SizeEvidence;
    var tag :- r.U8();
    match tag
    case 0 => var target :- r.Str(); var pattern :- r.OptStr(); return Ok(BodyProof(target, pattern));
    case 1 => var target :- r.Str(); var pattern :- r.OptStr(); return Ok(ResponseProof(target, pattern));
    case 2 => var target :- r.Str(); var name :- r.Str(); var pattern :- r.OptStr();
        return Ok(HeaderProof(target, name, pattern));
    case _ => return Err(Corrupt(BadEvidence));
  }

  method ReadEvidence(r: Reader) returns (res: Read<seq<EvidenceKind>>)
    requires r.Valid()
    modifies r`pos
    ensures r.Valid() && Agrees(res, r.Rest(), GetList(EvidenceFormat(), old(r.Rest())))
  {
    hide Reader.Rest, Reader.Valid, Behind, Lawful, Extends, OkList, SizeList, OkMany, SizeMany, GetMany,
      GetCount, GetEvidence;
    var count :- r.Count();
    ghost var all := GetMany(EvidenceFormat(), count, r.Rest());
    var items: seq<EvidenceKind> := [];
    BehindNothing(all);
    for i := 0 to count
      invariant r.Valid() && Behind(items, GetMany(EvidenceFormat(), count - i, r.Rest())) == all
    {
      ManyStep(EvidenceFormat(), count - i, r.Rest(), items);
      var item :- ReadEvidenceKind(r);
      items := items + [item];
    }
    ManyDone(EvidenceFormat(), r.Rest(), items);
    return Ok(items);
  }

  // ---------- instructions ----------

  method ReadEarlyOperands(r: Reader, tag: byte) returns (res: Read<Instr>)
    requires r.Valid()
    modifies r`pos
    ensures r.Valid() && Agrees(res, r.Rest(), GetEarly(tag, old(r.Rest())))
  {
    hide GetU32, GetU16;
    match tag
    case 1 => var name :- r.U32(); var value :- r.U32(); return Ok(Set(name, value));
    case 3 => var matcher :- r.U32(); return Ok(Match(matcher));
    case 4 => var start :- r.U32(); var len :- r.U16(); return Ok(MatchAll(start, len));
    case 5 => var start :- r.U32(); var len :- r.U16(); return Ok(MatchAny(start, len));
    case 6 => var matcher :- r.U32(); return Ok(Assert(matcher));
    case 7 => var name :- r.U32(); var source :- r.U32(); return Ok(Extract(name, source));
    case _ => return Err(Corrupt(BadOpcode));
  }

  method ReadMiddleOperands(r: Reader, tag: byte) returns (res: Read<Instr>)
    requires r.Valid()
    modifies r`pos
    ensures r.Valid() && Agrees(res, r.Rest(), GetMiddle(tag, old(r.Rest())))
  {
    hide GetU32, GetU16;
    match tag
    case 8 => var matcher :- r.U32(); var elsePc :- r.U32(); return Ok(IfMatch(matcher, elsePc));
    case 9 => var from :- r.U32(); var to :- r.U32(); return Ok(Save(from, to));
    case 10 => var kind :- r.U32(); return Ok(Evidence(kind));
    case 11 => var probe :- r.U32(); var count :- r.U32(); return Ok(Retry(probe, count));
    case 12 => var delay :- r.U32(); return Ok(RetryDelay(delay));
    case 13 => var delay :- r.U32(); return Ok(Sleep(delay));
    case _ => return Err(Corrupt(BadOpcode));
  }

  method ReadLateOperands(r: Reader, tag: byte) returns (res: Read<Instr>)
    requires r.Valid()
    modifies r`pos
    ensures r.Valid() && Agrees(res, r.Rest(), GetLate(tag, old(r.Rest())))
  {
    hide GetU32, GetU16;
    match tag
    case 14 => return Ok(Stop);
    case 15 => return Ok(Fail);
    case 16 => return Ok(Continue);
    case 17 => return Ok(Exit);
    case 19 => return Ok(LoopBack);
    case 20 => return Ok(Break);
    case 21 => var name :- r.U32(); var start :- r.U32(); var len :- r.U16(); return Ok(SetList(name, start, len));
    case 22 => var item :- r.U32(); var start :- r.U32(); var len :- r.U16(); var endPc :- r.U32();
        return Ok(ForList(item, start, len, endPc));
    case 23 => var item :- r.U32(); var list :- r.U32(); var endPc :- r.U32(); return Ok(ForVar(item, list, endPc));
    case _ => return Err(Corrupt(BadOpcode));
  }

  method ReadSend(r: Reader) returns (res: Read<Instr>)
    requires r.Valid()
    modifies r`pos
    ensures r.Valid() && Agrees(res, r.Rest(), GetSend(old(r.Rest())))
  {
    hide Reader.Rest, Reader.Valid, GetU32, GetU8, OkOpt, SizeOpt, OkList, SizeList, OkStr, SizeBytes;
    var probe :- r.U32();
    var present :- r.U8();
    if present == 0 {
      return Ok(Send(probe, None));
    }
    var id :- r.U32();
    return Ok(Send(probe, Some(id)));
  }

  method ReadInstr(r: Reader) returns (res: Read<Instr>)
    requires r.Valid()
    modifies r`pos
    ensures r.Valid() && Agrees(res, r.Rest(), GetInstr(old(r.Rest())))
  {
    hide Reader.Rest, Reader.Valid, GetU8, GetSend, GetEarly, GetMiddle, GetLate, OkOpt, SizeOpt, OkList,
      SizeList, OkStr, SizeBytes;
    var tag :- r.U8();
    if tag == 2 {
      res := ReadSend(r);
    } else if tag <= 7 {
      res := ReadEarlyOperands(r, tag);
    } else if tag <= 13 {
      res := ReadMiddleOperands(r, tag);
    } else {
      res := ReadLateOperands(r, tag);
    }
  }

  method ReadCode(r: Reader) returns (res: Read<seq<Instr>>)
    requires r.Valid()
    modifies r`pos
    ensures r.Valid() && Agrees(res, r.Rest(), GetList(InstrFormat(), old(r.Rest())))
  {
    hide Reader.Rest, Reader.Valid, Behind, Lawful, Extends, OkList, SizeList, OkMany, SizeMany, GetMany,
      GetCount, GetInstr;
    var count :- r.Count();
    ghost var all := GetMany(InstrFormat(), count, r.Rest());
    var items: seq<Instr> := [];
    BehindNothing(all);
    for i := 0 to count
      invariant r.Valid() && Behind(items, GetMany(InstrFormat(), count - i, r.Rest())) == all
    {
      ManyStep(InstrFormat(), count - i, r.Rest(), items);
      var item :- ReadInstr(r);
      items := items + [item];
    }
    ManyDone(InstrFormat(), r.Rest(), items);
    return Ok(items);
  }

  // ---------- operand validation ----------

  /** `idx < bound`. */
  method One(idx: u32, bound: nat) returns (res: Read<()>)
    ensures res == if OneOk(idx, bound) then Ok(()) else Err(Corrupt(IndexOutOfRange))
  {
    if idx < bound {
      return Ok(());
    }
    return Err(Corrupt(IndexOutOfRange));
  }

  /** `start + len <= bound`; a 64-bit sum of these never overflows. */
  method Range(start: u32, len: u16, bound: nat) returns (res: Read<()>)
    ensures res == if RangeOk(start, len, bound) then Ok(()) else Err(Corrupt(RangeOutOfBounds))
  {
    var end: u64 := start + len;
    if end <= bound {
      return Ok(());
    }
    return Err(Corrupt(RangeOutOfBounds));
  }

  function Verdict(d: Option<Defect>): Read<()> {
    match d
    case Some(defect) => Err(Corrupt(defect))
    case None => Ok(())
  }

  method ValidateInstr(p: BytecodeProgram, i: Instr) returns (res: Read<()>)
    ensures res == Verdict(Codec.InstrDefect(p, i))
  {
    var strings := |p.strings|;
    match i {
      case Set(name, value) => var _ :- One(name, strings); var _ :- One(value, strings);
      case SetList(name, start, len) => var _ :- One(name, strings); var _ :- Range(start, len, strings);
      case Send(probe, payload) =>
        var _ :- One(probe, strings);
        if payload.Some? {
          var _ :- One(payload.value, |p.payloads|);
        }
      case Match(m) => var _ :- One(m, |p.matchers|);
      case Assert(m) => var _ :- One(m, |p.matchers|);
      case MatchAll(start, len) => var _ :- Range(start, len, |p.matchers|);
      case MatchAny(start, len) => var _ :- Range(start, len, |p.matchers|);
      case Extract(name, source) => var _ :- One(name, strings); var _ :- One(source, |p.extracts|);
      case IfMatch(m, _) => var _ :- One(m, |p.matchers|);
      case ForList(item, start, len, _) => var _ :- One(item, strings); var _ :- Range(start, len, strings);
      case ForVar(item, list, _) => var _ :- One(item, strings); var _ :- One(list, strings);
      case Save(from, to) => var _ :- One(from, strings); var _ :- One(to, strings);
      case Evidence(k) => var _ :- One(k, |p.evidence|);
      case Retry(probe, _) => var _ :- One(probe, strings);
      case RetryDelay(v) => var _ :- One(v, strings);
      case Sleep(v) => var _ :- One(v, strings);
      case _ =>
    }
    return Ok(());
  }

  /** The first out-of-range operand of the code, if any; jump targets are not looked at. */
  method ValidateProgram(p: BytecodeProgram) returns (res: Read<()>)
    ensures res.Ok? <==> Validated(p)
    ensures res == Verdict(Codec.CodeDefect(p, p.code))
  {
    hide Codec.InstrDefect, OperandsOk;
    assert p.code[0..] == p.code;
    for i := 0 to |p.code|
      invariant Codec.CodeDefect(p, p.code[i..]) == Codec.CodeDefect(p, p.code)
    {
      assert p.code[i..][0] == p.code[i] && p.code[i..][1..] == p.code[i + 1..];
      var _ :- ValidateInstr(p, p.code[i]);
    }
    return Ok(());
  }

  // ---------- whole programs ----------

  method ConsumeMagic(r: Reader) returns (res: Read<()>)
    requires r.Valid()
    modifies r`pos
    ensures r.Valid()
    ensures Agrees(res, r.Rest(),
              var b := old(r.Rest());
              if |b| < 4 then Bad(Corrupt(UnexpectedEnd))
              else if b[..4] != Codec.MAGIC then Bad(BadMagic) else Done((), b[4..]))
  {
    var magic :- r.Need(4);
    if magic != Codec.MAGIC {
      return Err(BadMagic);
    }
    return Ok(());
  }

  method ReadHeader(r: Reader) returns (res: Read<()>)
    requires r.Valid()
    modifies r`pos
    ensures r.Valid() && Agrees(res, r.Rest(), Codec.GetHeader(old(r.Rest())))
  {
    hide GetU8;
    var _ :- ConsumeMagic(r);
    var version :- r.U8();
    if version != Codec.VERSION {
      return Err(BadVersion(version));
    }
    return Ok(());
  }

  method ReadPools(r: Reader, spec: ProgramSpec) returns (res: Read<BytecodeProgram>)
    requires r.Valid()
    modifies r`pos
    ensures r.Valid() && Agrees(res, r.Rest(), Codec.GetPools(spec, old(r.Rest())))
  {
    hide Reader.Rest, Reader.Valid, GetList, OkList, SizeList, Lawful, Codec.OkPools, Codec.SizePools;
    var strings :- ReadStrings(r);
    var payloads :- ReadPayloads(r);
    var matchers :- ReadMatchers(r);
    var extracts :- ReadExtracts(r);
    var evidence :- ReadEvidence(r);
    var code :- ReadCode(r);
    return Ok(BytecodeProgram(spec, code, strings, payloads, matchers, extracts, evidence));
  }

  method ReadBody(r: Reader) returns (res: Read<BytecodeProgram>)
    requires r.Valid()
    modifies r`pos
    ensures r.Valid() && Agrees(res, r.Rest(), Codec.GetBody(old(r.Rest())))
  {
    hide Reader.Rest, Reader.Valid, GetMetadata, Codec.GetProbes, Codec.GetPools;
    var metadata :- ReadMetadata(r);
    var probes :- ReadProbes(r);
    res := ReadPools(r, ProgramSpec(probes, metadata));
  }

  method Decode(bytes: seq<byte>) returns (res: Read<BytecodeProgram>)
    ensures res == Codec.Decode(bytes)
  {
    hide Reader.Rest, Reader.Valid, Codec.GetHeader, Codec.GetBody, Validated, Codec.CodeDefect;
    var r := new Reader(bytes);
    var _ :- ReadHeader(r);
    var program :- ReadBody(r);
    if r.Remaining() != 0 {
      return Err(Corrupt(TrailingBytes));
    }
    var _ :- ValidateProgram(program);
    return Ok(program);
  }
}
