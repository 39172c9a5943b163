/** The encoding of every constituent of a program. Each `PutX` promises that what it writes is read
    back; each `GetX` promises that what it reads can be written in exactly the bytes it consumed. */
module Format {
  import opened Prelude
  import opened Contract
  import opened Wire

  // ---------- enumerations ----------


  function SeverityTag(v: Severity): byte {
    match v
    case Low => 0
    case Medium => 1
    case High => 2
    case Critical => 3
    case Info => 4
  }

  function PutSeverity(v: Severity, t: seq<byte>): (r: seq<byte>)
    ensures |r| == 1 + |t| && GetSeverity(r) == Done(v, t)
  {
    hide GetU8, PutU8;
    PutU8(SeverityTag(v), t)
  }

  function GetSeverity(b: seq<byte>): (r: Parse<Severity>)
    ensures r.Done? ==> |b| == 1 + |r.rest|
  {
    hide GetU8;
    var (tag, b) :- GetU8(b);
    match tag
    case 0 => Done(Low, b)
    case 1 => Done(Medium, b)
    case 2 => Done(High, b)
    case 3 => Done(Critical, b)
    case 4 => Done(Info, b)
    case _ => Bad(Corrupt(BadSeverity))
  }

  lemma SeverityExtends()
    ensures Extends(GetSeverity)
  {
    hide GetU8;
    U8Extends();
  }


  function MethodTag(v: HttpMethod): byte {
    match v
    case Get => 0
    case Post => 1
    case Put => 2
    case Patch => 3
    case Delete => 4
    case Head => 5
    case Options => 6
  }

  function PutMethod(v: HttpMethod, t: seq<byte>): (r: seq<byte>)
    ensures |r| == 1 + |t| && GetMethod(r) == Done(v, t)
  {
    hide GetU8, PutU8;
    PutU8(MethodTag(v), t)
  }

  function GetMethod(b: seq<byte>): (r: Parse<HttpMethod>)
    ensures r.Done? ==> |b| == 1 + |r.rest|
  {
    hide GetU8;
    var (tag, b) :- GetU8(b);
    match tag
    case 0 => Done(Get, b)
    case 1 => Done(Post, b)
    case 2 => Done(Put, b)
    case 3 => Done(Patch, b)
    case 4 => Done(Delete, b)
    case 5 => Done(Head, b)
    case 6 => Done(Options, b)
    case _ => Bad(Corrupt(BadMethod))
  }

  lemma MethodExtends()
    ensures forall b, t {:trigger GetMethod(b + t)} ::
        GetMethod(b).Done? ==> GetMethod(b + t) == Done(GetMethod(b).value, GetMethod(b).rest + t)
  {
    hide GetU8;
    U8Extends();
  }


  function CmpOpTag(v: CmpOp): byte {
    match v
    case Eq => 0
    case Ne => 1
    case Lt => 2
    case Gt => 3
    case Le => 4
    case Ge => 5
  }

  function PutCmpOp(v: CmpOp, t: seq<byte>): (r: seq<byte>)
    ensures |r| == 1 + |t| && GetCmpOp(r) == Done(v, t)
  {
    hide GetU8, PutU8;
    PutU8(CmpOpTag(v), t)
  }

  function GetCmpOp(b: seq<byte>): (r: Parse<CmpOp>)
    ensures r.Done? ==> |b| == 1 + |r.rest|
  {
    hide GetU8;
    var (tag, b) :- GetU8(b);
    match tag
    case 0 => Done(Eq, b)
    case 1 => Done(Ne, b)
    case 2 => Done(Lt, b)
    case 3 => Done(Gt, b)
    case 4 => Done(Le, b)
    case 5 => Done(Ge, b)
    case _ => Bad(Corrupt(BadCmpOp))
  }

  lemma CmpOpExtends()
    ensures forall b, t {:trigger GetCmpOp(b + t)} ::
        GetCmpOp(b).Done? ==> GetCmpOp(b + t) == Done(GetCmpOp(b).value, GetCmpOp(b).rest + t)
  {
    hide GetU8;
    U8Extends();
  }


  function SeverityFormat(): (c: ElementFormat<Severity>)
    ensures Lawful(c)
  {
    SeverityExtends();
    ElementFormat(PutSeverity, GetSeverity, (v: Severity) => true, (v: Severity) => 1)
  }


  // ---------- request bodies: nested objects ----------


  // A value is an object's field value; objects nest to any depth.

  predicate OkObject(o: ObjectBody)
    decreases o
  {
    |o.pairs| < U32_LIMIT && OkFields(o.pairs)
  }

  predicate OkFields(ps: seq<Pair>)
    decreases ps
  {
    ps == [] || (OkStr(ps[0].key) && OkValue(ps[0].value) && OkFields(ps[1..]))
  }

  predicate OkValue(v: BodyValue)
    decreases v
  {
    match v
    case StringValue(s) => OkStr(s)
    case Interpolation(s) => OkStr(s)
    case Object(o) => OkObject(o)
    case BytesValue(s) => OkStr(s)
    case Part(p) => OkOpt(StrFormat(), p.filename) && OkStr(PartContent(p.body))
  }

  function PartContent(b: InlinePartBody): Str {
    match b
    case PartText(t) => t
    case PartBytes(h) => h
  }

  function SizeObject(o: ObjectBody): (n: nat)
    ensures n >= 1
    decreases o
  {
    4 + SizeFields(o.pairs)
  }

  function SizeFields(ps: seq<Pair>): (n: nat)
    ensures n >= |ps|
    decreases ps
  {
    if ps == [] then 0 else SizeBytes(ps[0].key) + SizeValue(ps[0].value) + SizeFields(ps[1..])
  }

  function SizeValue(v: BodyValue): (n: nat)
    ensures n >= 1
    decreases v
  {
    match v
    case StringValue(s) => 1 + SizeBytes(s)
    case Interpolation(s) => 1 + SizeBytes(s)
    case Object(o) => 1 + SizeObject(o)
    case BytesValue(s) => 1 + SizeBytes(s)
    case Part(p) => 1 + SizeOpt(StrFormat(), p.filename) + 1 + SizeBytes(PartContent(p.body))
  }

  function PutObject(o: ObjectBody, t: seq<byte>): (r: seq<byte>)
    ensures |r| == SizeObject(o) + |t|
    ensures OkObject(o) ==> GetObject(r) == Done(o, t)
    decreases o
  {
    hide GetFields, OkFields, PutFields, PutU32, SizeFields;
    PutU32(|o.pairs| % U32_LIMIT, PutFields(o.pairs, t))
  }

  function PutFields(ps: seq<Pair>, t: seq<byte>): (r: seq<byte>)
    ensures |r| == SizeFields(ps) + |t|
    ensures OkFields(ps) ==> GetFields(|ps|, r) == Done(ps, t)
    decreases ps
  {
    hide GetStr, GetValue, OkStr, OkValue, PutStr, PutValue, SizeBytes, SizeValue;
    if ps == [] then t
    else
      assert [ps[0]] + ps[1..] == ps;
      PutStr(ps[0].key, PutValue(ps[0].value, PutFields(ps[1..], t)))
  }

  function PutValue(v: BodyValue, t: seq<byte>): (r: seq<byte>)
    ensures |r| == SizeValue(v) + |t|
    ensures OkValue(v) ==> GetValue(r) == Done(v, t)
    decreases v
  {
    hide GetObject, GetPart, GetStr, GetU8, OkObject, OkOpt, OkStr, PartContent, PutObject, PutPart, PutStr,
      PutU8, SizeBytes, SizeObject, SizeOpt;
    match v
    case StringValue(s) => PutU8(0, PutStr(s, t))
    case Interpolation(s) => PutU8(1, PutStr(s, t))
    case Object(o) => PutU8(2, PutObject(o, t))
    case BytesValue(s) => PutU8(3, PutStr(s, t))
    case Part(p) => PutU8(4, PutPart(p, t))
  }

  function PutPart(p: InlinePart, t: seq<byte>): (r: seq<byte>)
    ensures |r| == SizeOpt(StrFormat(), p.filename) + 1 + SizeBytes(PartContent(p.body)) + |t|
    ensures OkOpt(StrFormat(), p.filename) && OkStr(PartContent(p.body)) ==> GetPart(r) == Done(p, t)
  {
    hide GetOpt, GetStr, GetU8, PutOpt, PutStr, PutU8;
    var body :=
      match p.body
      case PartText(s) => PutU8(0, PutStr(s, t))
      case PartBytes(s) => PutU8(1, PutStr(s, t));
    PutOpt(StrFormat(), p.filename, body)
  }

  function GetObject(b: seq<byte>): (r: Parse<ObjectBody>)
    ensures r.Done? ==> OkObject(r.value) && |b| == SizeObject(r.value) + |r.rest|
    decreases |b|, 0, 0
  {
    hide GetCount, GetFields, OkFields, SizeFields;
    var (n, b) :- GetCount(b);
    var (ps, b) :- GetFields(n, b);
    Done(ObjectBody(ps), b)
  }

  function GetFields(n: nat, b: seq<byte>): (r: Parse<seq<Pair>>)
    ensures r.Done? ==> |r.value| == n && OkFields(r.value) && |b| == SizeFields(r.value) + |r.rest|
    decreases |b|, 1, n
  {
    hide GetStr, GetValue, OkStr, OkValue, SizeBytes, SizeValue;
    if n == 0 then Done([], b)
    else
      var (k, b) :- GetStr(b);
      var (v, b) :- GetValue(b);
      var (ps, b) :- GetFields(n - 1, b);
      assert ([Pair(k, v)] + ps)[1..] == ps;
      Done([Pair(k, v)] + ps, b)
  }

  function GetValue(b: seq<byte>): (r: Parse<BodyValue>)
    ensures r.Done? ==> OkValue(r.value) && |b| == SizeValue(r.value) + |r.rest|
    decreases |b|, 0, 0
  {
    hide GetU8, GetText, GetPartValue, GetObjectValue, OkValue, SizeValue;
    var (tag, b) :- GetU8(b);
    if tag == 2 then GetObjectValue(b) else if tag == 4 then GetPartValue(b) else GetText(tag, b)
  }

  function GetObjectValue(b: seq<byte>): (r: Parse<BodyValue>)
    ensures r.Done? ==> OkValue(r.value) && 1 + |b| == SizeValue(r.value) + |r.rest|
    decreases |b|, 0, 1
  {
    hide GetObject, GetPart, GetStr, SizeObject, OkObject, OkStr, SizeBytes, OkOpt, SizeOpt, PartContent;
    var (o, b) :- GetObject(b);
    Done(Object(o), b)
  }

  function GetPartValue(b: seq<byte>): (r: Parse<BodyValue>)
    ensures r.Done? ==> OkValue(r.value) && 1 + |b| == SizeValue(r.value) + |r.rest|
  {
    hide GetPart, OkValue, SizeValue, OkStr, SizeBytes, OkOpt, SizeOpt, PartContent;
    var (p, b) :- GetPart(b);
    PartFacts(p);
    Done(Part(p), b)
  }

  lemma PartFacts(p: InlinePart)
    ensures OkValue(Part(p)) <==> OkOpt(StrFormat(), p.filename) && OkStr(PartContent(p.body))
    ensures SizeValue(Part(p)) == 1 + SizeOpt(StrFormat(), p.filename) + 1 + SizeBytes(PartContent(p.body))
  {
    hide OkStr, SizeBytes, OkOpt, SizeOpt, PartContent;
  }

  function GetText(tag: byte, b: seq<byte>): (r: Parse<BodyValue>)
    ensures r.Done? ==> OkValue(r.value) && 1 + |b| == SizeValue(r.value) + |r.rest|
  {
    hide GetObject, GetPart, GetStr, SizeObject, OkObject, OkStr, SizeBytes, OkOpt, SizeOpt, PartContent;
    if tag != 0 && tag != 1 && tag != 3 then Bad(Corrupt(BadBodyValue))
    else
      var (s, b) :- GetStr(b);
      Done(if tag == 0 then StringValue(s) else if tag == 1 then Interpolation(s) else BytesValue(s), b)
  }

  /** Every body tag but 1 reads as text. */
  function GetPart(b: seq<byte>): (r: Parse<InlinePart>)
    ensures r.Done? ==> OkOpt(StrFormat(), r.value.filename) && OkStr(PartContent(r.value.body))
    ensures r.Done? ==>
              |b| == SizeOpt(StrFormat(), r.value.filename) + 1 + SizeBytes(PartContent(r.value.body)) + |r.rest|
  {
    hide GetOpt, GetStr, GetU8;
    var (filename, b) :- GetOpt(StrFormat(), b);
    var (tag, b) :- GetU8(b);
    var (s, b) :- GetStr(b);
    Done(InlinePart(filename, if tag == 1 then PartBytes(s) else PartText(s)), b)
  }

  lemma PartExtends()
    ensures forall b, t {:trigger GetPart(b + t)} ::
        GetPart(b).Done? ==> GetPart(b + t) == Done(GetPart(b).value, GetPart(b).rest + t)
  {
    hide GetOpt, GetStr, GetU8, StrFormat;
    OptExtends(StrFormat());
    U8Extends();
    StrExtends();
  }

  lemma {:induction false} GetObjectExtends(b: seq<byte>, t: seq<byte>)
    requires GetObject(b).Done?
    ensures GetObject(b + t) == Done(GetObject(b).value, GetObject(b).rest + t)
    decreases |b|, 0, 0
  {
    hide GetCount, GetFields;
    CountExtends();
    var head := GetCount(b);
    assert GetCount(b + t) == Done(head.value, head.rest + t);
    GetFieldsExtends(head.value, head.rest, t);
  }

  lemma {:induction false} GetFieldsExtends(n: nat, b: seq<byte>, t: seq<byte>)
    requires GetFields(n, b).Done?
    ensures GetFields(n, b + t) == Done(GetFields(n, b).value, GetFields(n, b).rest + t)
    decreases |b|, 1, n
  {
    hide GetStr, GetValue;
    if n > 0 {
      StrExtends();
      var k := GetStr(b);
      assert GetStr(b + t) == Done(k.value, k.rest + t);
      GetValueExtends(k.rest, t);
      GetFieldsExtends(n - 1, GetValue(k.rest).rest, t);
    }
  }

  lemma {:induction false} GetValueExtends(b: seq<byte>, t: seq<byte>)
    requires GetValue(b).Done?
    ensures GetValue(b + t) == Done(GetValue(b).value, GetValue(b).rest + t)
    decreases |b|, 0, 0
  {
    hide GetObject, GetPart, GetStr, GetU8;
    U8Extends();
    StrExtends();
    PartExtends();
    var tag := GetU8(b);
    assert GetU8(b + t) == Done(tag.value, tag.rest + t);
    if tag.value == 2 {
      GetObjectExtends(tag.rest, t);
    }
  }

  function ObjectFormat(): (c: ElementFormat<ObjectBody>)
    ensures Lawful(c)
  {
    ObjectExtends();
    ElementFormat(PutObject, GetObject, OkObject, SizeObject)
  }

  lemma ObjectExtends()
    ensures Extends(GetObject)
  {
    hide GetCount, GetFields;
    forall b: seq<byte>, t | GetObject(b).Done?
      ensures GetObject(b + t) == Done(GetObject(b).value, GetObject(b).rest + t)
    {
      GetObjectExtends(b, t);
    }
  }

  // ---------- probes ----------

  predicate OkPair(v: (Str, Str)) {
    && OkStr(v.0)
    && OkStr(v.1)
  }

  function SizePair(v: (Str, Str)): (n: nat)
    ensures n >= 1
  {
    SizeBytes(v.0) + SizeBytes(v.1)
  }

  function PutPair(v: (Str, Str), t: seq<byte>): (r: seq<byte>)
    ensures |r| == SizePair(v) + |t|
    ensures OkPair(v) ==> GetPair(r) == Done(v, t)
  {
    hide GetStr, OkStr, PutStr, SizeBytes;
    PutStr(v.0, PutStr(v.1, t))
  }

  function GetPair(b: seq<byte>): (r: Parse<(Str, Str)>)
    ensures r.Done? ==> OkPair(r.value) && |b| == SizePair(r.value) + |r.rest|
  {
    hide GetStr, OkStr, SizeBytes;
    var (key, b) :- GetStr(b);
    var (value, b) :- GetStr(b);
    Done((key, value), b)
  }

  lemma PairExtends()
    ensures Extends(GetPair)
  {
    hide GetStr;
    StrExtends();
  }

  function PairFormat(): (c: ElementFormat<(Str, Str)>)
    ensures Lawful(c)
  {
    PairExtends();
    ElementFormat(PutPair, GetPair, OkPair, SizePair)
  }

  predicate OkSocket(v: SocketProbeSpec) {
    && OkStr(v.host)
    && OkOpt(U16Format(), v.port)
    && OkOpt(BytesFormat(), v.payload)
  }

  function SizeSocket(v: SocketProbeSpec): (n: nat)
    ensures n >= 1
  {
    SizeBytes(v.host) + SizeOpt(U16Format(), v.port) + SizeOpt(BytesFormat(), v.payload) + 1 + 1 + 4 + 4
  }

  function PutSocket(v: SocketProbeSpec, t: seq<byte>): (r: seq<byte>)
    ensures |r| == SizeSocket(v) + |t|
    ensures OkSocket(v) ==> GetSocket(r) == Done(v, t)
  {
    hide GetBool, GetOpt, GetStr, GetU32, OkOpt, OkStr, PutBool, PutOpt, PutStr, PutU32, SizeBytes, SizeOpt;
    PutStr(v.host, PutOpt(U16Format(), v.port, PutOpt(BytesFormat(), v.payload, PutBool(v.tls,
    PutBool(v.session, PutU32(v.readMax, PutU32(v.readIdleMs, t)))))))
  }

  function GetSocket(b: seq<byte>): (r: Parse<SocketProbeSpec>)
    ensures r.Done? ==> OkSocket(r.value) && |b| == SizeSocket(r.value) + |r.rest|
  {
    hide GetBool, GetOpt, GetStr, GetU32, OkOpt, OkStr, SizeBytes, SizeOpt;
    var (host, b) :- GetStr(b);
    var (port, b) :- GetOpt(U16Format(), b);
    var (payload, b) :- GetOpt(BytesFormat(), b);
    var (tls, b) :- GetBool(b);
    var (session, b) :- GetBool(b);
    var (readMax, b) :- GetU32(b);
    var (readIdleMs, b) :- GetU32(b);
    Done(SocketProbeSpec(host, port, payload, tls, session, readMax, readIdleMs), b)
  }

  lemma SocketExtends()
    ensures forall b, t {:trigger GetSocket(b + t)} ::
        GetSocket(b).Done? ==> GetSocket(b + t) == Done(GetSocket(b).value, GetSocket(b).rest + t)
  {
    hide BytesFormat, GetBool, GetOpt, GetStr, GetU32, U16Format;
    StrExtends();
    OptExtends(U16Format());
    OptExtends(BytesFormat());
    BoolExtends();
    U32Extends();
  }

  predicate OkHttp(v: HttpRequestSpec) {
    && OkStr(v.path)
    && OkOpt(StrFormat(), v.timeout)
    && OkOpt(BoolFormat(), v.followRedirect)
    && OkOpt(BoolFormat(), v.verifySsl)
    && OkOpt(StrFormat(), v.proxy)
    && OkOpt(StrFormat(), v.userAgent)
    && OkList(PairFormat(), v.headers)
    && OkList(PairFormat(), v.cookies)
    && OkList(PairFormat(), v.queries)
    && OkOpt(ObjectFormat(), v.dataBody)
    && OkOpt(ObjectFormat(), v.jsonBody)
    && OkOpt(StrFormat(), v.rawBody)
    && OkOpt(StrFormat(), v.bodyBytes)
    && OkOpt(ObjectFormat(), v.multipartBody)
  }

  function SizeHttp(v: HttpRequestSpec): (n: nat)
    ensures n >= 1
  {
    1 + SizeBytes(v.path) + SizeOpt(StrFormat(), v.timeout) + SizeOpt(BoolFormat(), v.followRedirect)
    + SizeOpt(BoolFormat(), v.verifySsl) + SizeOpt(StrFormat(), v.proxy) + SizeOpt(StrFormat(), v.userAgent)
    + SizeList(PairFormat(), v.headers) + SizeList(PairFormat(), v.cookies) + SizeList(PairFormat(), v.queries)
    + SizeOpt(ObjectFormat(), v.dataBody) + SizeOpt(ObjectFormat(), v.jsonBody)
    + SizeOpt(StrFormat(), v.rawBody) + SizeOpt(StrFormat(), v.bodyBytes)
    + SizeOpt(ObjectFormat(), v.multipartBody)
  }

  function PutHttp(v: HttpRequestSpec, t: seq<byte>): (r: seq<byte>)
    ensures |r| == SizeHttp(v) + |t|
    ensures OkHttp(v) ==> GetHttp(r) == Done(v, t)
  {
    hide GetList, GetMethod, GetOpt, GetStr, OkList, OkOpt, OkStr, PutList, PutMethod, PutOpt, PutStr,
      SizeBytes, SizeList, SizeOpt;
    PutMethod(v.verb, PutStr(v.path, PutOpt(StrFormat(), v.timeout, PutOpt(BoolFormat(), v.followRedirect,
    PutOpt(BoolFormat(), v.verifySsl, PutOpt(StrFormat(), v.proxy, PutOpt(StrFormat(), v.userAgent,
    PutList(PairFormat(), v.headers, PutList(PairFormat(), v.cookies, PutList(PairFormat(), v.queries,
    PutOpt(ObjectFormat(), v.dataBody, PutOpt(ObjectFormat(), v.jsonBody, PutOpt(StrFormat(), v.rawBody,
    PutOpt(StrFormat(), v.bodyBytes, PutOpt(ObjectFormat(), v.multipartBody, t)))))))))))))))
  }

  function GetHttp(b: seq<byte>): (r: Parse<HttpRequestSpec>)
    ensures r.Done? ==> OkHttp(r.value) && |b| == SizeHttp(r.value) + |r.rest|
  {
    hide GetList, GetMethod, GetOpt, GetStr, OkList, OkOpt, OkStr, SizeBytes, SizeList, SizeOpt;
    var (verb, b) :- GetMethod(b);
    var (path, b) :- GetStr(b);
    var (timeout, b) :- GetOpt(StrFormat(), b);
    var (followRedirect, b) :- GetOpt(BoolFormat(), b);
    var (verifySsl, b) :- GetOpt(BoolFormat(), b);
    var (proxy, b) :- GetOpt(StrFormat(), b);
    var (userAgent, b) :- GetOpt(StrFormat(), b);
    var (headers, b) :- GetList(PairFormat(), b);
    var (cookies, b) :- GetList(PairFormat(), b);
    var (queries, b) :- GetList(PairFormat(), b);
    var (dataBody, b) :- GetOpt(ObjectFormat(), b);
    var (jsonBody, b) :- GetOpt(ObjectFormat(), b);
    var (rawBody, b) :- GetOpt(StrFormat(), b);
    var (bodyBytes, b) :- GetOpt(StrFormat(), b);
    var (multipartBody, b) :- GetOpt(ObjectFormat(), b);
    Done(HttpRequestSpec(verb, path, timeout, followRedirect, verifySsl, proxy, userAgent, headers, cookies,
        queries, dataBody, jsonBody, rawBody, bodyBytes, multipartBody), b)
  }

  lemma HttpExtends()
    ensures forall b, t {:trigger GetHttp(b + t)} ::
        GetHttp(b).Done? ==> GetHttp(b + t) == Done(GetHttp(b).value, GetHttp(b).rest + t)
  {
    hide BoolFormat, GetList, GetMethod, GetOpt, GetStr, ObjectFormat, PairFormat, StrFormat;
    MethodExtends();
    StrExtends();
    OptExtends(StrFormat());
    OptExtends(BoolFormat());
    ListExtends(PairFormat());
    OptExtends(ObjectFormat());
  }

  predicate OkProbe(v: ProbeKind) {
    match v
    case Http(http) => OkHttp(http)
    case Dns(socket) => OkSocket(socket)
    case Tcp(socket) => OkSocket(socket)
    case Udp(socket) => OkSocket(socket)
  }

  function SizeProbe(v: ProbeKind): (n: nat)
    ensures n >= 1
  {
    match v
    case Http(http) => 1 + SizeHttp(http)
    case Dns(socket) => 1 + SizeSocket(socket)
    case Tcp(socket) => 1 + SizeSocket(socket)
    case Udp(socket) => 1 + SizeSocket(socket)
  }

  function PutProbe(v: ProbeKind, t: seq<byte>): (r: seq<byte>)
    ensures |r| == SizeProbe(v) + |t|
    ensures OkProbe(v) ==> GetProbe(r) == Done(v, t)
  {
    hide GetHttp, GetSocket, GetU8, OkHttp, OkSocket, PutHttp, PutSocket, PutU8, SizeHttp, SizeSocket;
    match v
    case Http(http) => PutU8(0, PutHttp(http, t))
    case Dns(socket) => PutU8(1, PutSocket(socket, t))
    case Tcp(socket) => PutU8(2, PutSocket(socket, t))
    case Udp(socket) => PutU8(3, PutSocket(socket, t))
  }

  function GetProbe(b: seq<byte>): (r: Parse<ProbeKind>)
    ensures r.Done? ==> OkProbe(r.value) && |b| == SizeProbe(r.value) + |r.rest|
  {
    hide GetHttp, GetSocket, GetU8, OkHttp, OkSocket, SizeHttp, SizeSocket;
    var (tag, b) :- GetU8(b);
    if tag == 0 then
      var (http, b) :- GetHttp(b);
      Done(Http(http), b)
    else if tag == 1 then
      var (socket, b) :- GetSocket(b);
      Done(Dns(socket), b)
    else if tag == 2 then
      var (socket, b) :- GetSocket(b);
      Done(Tcp(socket), b)
    else if tag == 3 then
      var (socket, b) :- GetSocket(b);
      Done(Udp(socket), b)
    else Bad(Corrupt(BadProbeKind))
  }

  lemma ProbeExtends()
    ensures forall b, t {:trigger GetProbe(b + t)} ::
        GetProbe(b).Done? ==> GetProbe(b + t) == Done(GetProbe(b).value, GetProbe(b).rest + t)
  {
    hide GetProbe;
    forall b: seq<byte>, t | GetProbe(b).Done?
      ensures GetProbe(b + t) == Done(GetProbe(b).value, GetProbe(b).rest + t)
    {
      ReadProbeExtends(b, t);
    }
  }

  lemma ReadProbeExtends(b: seq<byte>, t: seq<byte>)
    requires GetProbe(b).Done?
    ensures GetProbe(b + t) == Done(GetProbe(b).value, GetProbe(b).rest + t)
  {
    hide GetU8, GetHttp, GetSocket, OkProbe, SizeProbe, OkHttp, OkSocket, SizeHttp, SizeSocket;
    U8Extends();
    var tag, rest := GetU8(b).value, GetU8(b).rest;
    assert GetU8(b + t) == Done(tag, rest + t);
    if tag == 0 {
      HttpExtends();
      assert GetHttp(rest + t) == Done(GetHttp(rest).value, GetHttp(rest).rest + t);
    } else {
      SocketExtends();
      assert GetSocket(rest + t) == Done(GetSocket(rest).value, GetSocket(rest).rest + t);
    }
  }

  predicate OkNamedProbe(v: (Str, ProbeKind)) {
    && OkStr(v.0)
    && OkProbe(v.1)
  }

  function SizeNamedProbe(v: (Str, ProbeKind)): (n: nat)
    ensures n >= 1
  {
    SizeBytes(v.0) + SizeProbe(v.1)
  }

  function PutNamedProbe(v: (Str, ProbeKind), t: seq<byte>): (r: seq<byte>)
    ensures |r| == SizeNamedProbe(v) + |t|
    ensures OkNamedProbe(v) ==> GetNamedProbe(r) == Done(v, t)
  {
    hide GetProbe, GetStr, OkProbe, OkStr, PutProbe, PutStr, SizeBytes, SizeProbe;
    PutStr(v.0, PutProbe(v.1, t))
  }

  function GetNamedProbe(b: seq<byte>): (r: Parse<(Str, ProbeKind)>)
    ensures r.Done? ==> OkNamedProbe(r.value) && |b| == SizeNamedProbe(r.value) + |r.rest|
  {
    hide GetProbe, GetStr, OkProbe, OkStr, SizeBytes, SizeProbe;
    var (name, b) :- GetStr(b);
    var (kind, b) :- GetProbe(b);
    Done((name, kind), b)
  }

  lemma NamedProbeExtends()
    ensures Extends(GetNamedProbe)
  {
    hide GetProbe, GetStr, OkNamedProbe, SizeNamedProbe, OkProbe, SizeProbe, OkStr, SizeBytes;
    StrExtends();
    ProbeExtends();
    forall b: seq<byte>, t | GetNamedProbe(b).Done?
      ensures GetNamedProbe(b + t) == Done(GetNamedProbe(b).value, GetNamedProbe(b).rest + t)
    {
      var name := GetStr(b);
      assert GetStr(b + t) == Done(name.value, name.rest + t);
      assert GetProbe(name.rest + t) == Done(GetProbe(name.rest).value, GetProbe(name.rest).rest + t);
    }
  }

  function NamedProbeFormat(): (c: ElementFormat<(Str, ProbeKind)>)
    ensures Lawful(c)
  {
    NamedProbeExtends();
    ElementFormat(PutNamedProbe, GetNamedProbe, OkNamedProbe, SizeNamedProbe)
  }

  // ---------- metadata ----------

  predicate OkMetadata(v: CheckMetadata) {
    && OkOpt(StrFormat(), v.name)
    && OkOpt(StrFormat(), v.description)
    && OkOpt(StrFormat(), v.impact)
    && OkOpt(SeverityFormat(), v.severity)
    && OkOpt(StrFormat(), v.author)
    && OkList(StrFormat(), v.cve)
    && OkList(StrFormat(), v.cwe)
    && OkList(StrFormat(), v.references)
    && OkList(StrFormat(), v.cvss)
    && OkList(StrFormat(), v.cvssScore)
    && OkOpt(StrFormat(), v.mitigation)
    && OkList(StrFormat(), v.tags)
    && OkOpt(StrFormat(), v.version)
    && OkOpt(StrFormat(), v.family)
  }

  function SizeMetadata(v: CheckMetadata): (n: nat)
    ensures n >= 1
  {
    SizeOpt(StrFormat(), v.name) + SizeOpt(StrFormat(), v.description) + SizeOpt(StrFormat(), v.impact)
    + SizeOpt(SeverityFormat(), v.severity) + SizeOpt(StrFormat(), v.author) + SizeList(StrFormat(), v.cve)
    + SizeList(StrFormat(), v.cwe) + SizeList(StrFormat(), v.references) + SizeList(StrFormat(), v.cvss)
    + SizeList(StrFormat(), v.cvssScore) + SizeOpt(StrFormat(), v.mitigation) + SizeList(StrFormat(), v.tags)
    + SizeOpt(StrFormat(), v.version) + SizeOpt(StrFormat(), v.family)
  }

  function PutMetadata(v: CheckMetadata, t: seq<byte>): (r: seq<byte>)
    ensures |r| == SizeMetadata(v) + |t|
    ensures OkMetadata(v) ==> GetMetadata(r) == Done(v, t)
  {
    hide GetList, GetOpt, OkList, OkOpt, PutList, PutOpt, SizeList, SizeOpt;
    PutOpt(StrFormat(), v.name, PutOpt(StrFormat(), v.description, PutOpt(StrFormat(), v.impact,
    PutOpt(SeverityFormat(), v.severity, PutOpt(StrFormat(), v.author, PutList(StrFormat(), v.cve,
    PutList(StrFormat(), v.cwe, PutList(StrFormat(), v.references, PutList(StrFormat(), v.cvss,
    PutList(StrFormat(), v.cvssScore, PutOpt(StrFormat(), v.mitigation, PutList(StrFormat(), v.tags,
    PutOpt(StrFormat(), v.version, PutOpt(StrFormat(), v.family, t))))))))))))))
  }

  function GetMetadata(b: seq<byte>): (r: Parse<CheckMetadata>)
    ensures r.Done? ==> OkMetadata(r.value) && |b| == SizeMetadata(r.value) + |r.rest|
  {
    hide GetList, GetOpt, OkList, OkOpt, SizeList, SizeOpt;
    var (name, b) :- GetOpt(StrFormat(), b);
    var (description, b) :- GetOpt(StrFormat(), b);
    var (impact, b) :- GetOpt(StrFormat(), b);
    var (severity, b) :- GetOpt(SeverityFormat(), b);
    var (author, b) :- GetOpt(StrFormat(), b);
    var (cve, b) :- GetList(StrFormat(), b);
    var (cwe, b) :- GetList(StrFormat(), b);
    var (references, b) :- GetList(StrFormat(), b);
    var (cvss, b) :- GetList(StrFormat(), b);
    var (cvssScore, b) :- GetList(StrFormat(), b);
    var (mitigation, b) :- GetOpt(StrFormat(), b);
    var (tags, b) :- GetList(StrFormat(), b);
    var (version, b) :- GetOpt(StrFormat(), b);
    var (family, b) :- GetOpt(StrFormat(), b);
    Done(CheckMetadata(name, description, impact, severity, author, cve, cwe, references, cvss, cvssScore,
        mitigation, tags, version, family), b)
  }

  lemma MetadataExtends()
    ensures forall b, t {:trigger GetMetadata(b + t)} ::
        GetMetadata(b).Done? ==> GetMetadata(b + t) == Done(GetMetadata(b).value, GetMetadata(b).rest + t)
  {
    hide GetList, GetOpt, SeverityFormat, StrFormat;
    OptExtends(StrFormat());
    OptExtends(SeverityFormat());
    ListExtends(StrFormat());
  }

  // ---------- matchers, extracts, evidence ----------

  predicate OkFieldKind(v: FieldKind) {
    match v
    case Status => true
    case Body => true
    case Header(name) => OkStr(name)
    case ResponseTime => true
    case ResponseSize => true
    case Answer => true
    case Banner => true
    case Response => true
  }

  function SizeFieldKind(v: FieldKind): (n: nat)
    ensures n >= 1
  {
    match v
    case Status => 1
    case Body => 1
    case Header(name) => 1 + SizeBytes(name)
    case ResponseTime => 1
    case ResponseSize => 1
    case Answer => 1
    case Banner => 1
    case Response => 1
  }

  function PutFieldKind(v: FieldKind, t: seq<byte>): (r: seq<byte>)
    ensures |r| == SizeFieldKind(v) + |t|
    ensures OkFieldKind(v) ==> GetFieldKind(r) == Done(v, t)
  {
    hide GetStr, GetU8, OkStr, PutStr, PutU8, SizeBytes;
    match v
    case Status => PutU8(0, t)
    case Body => PutU8(1, t)
    case Header(name) => PutU8(2, PutStr(name, t))
    case ResponseTime => PutU8(3, t)
    case ResponseSize => PutU8(4, t)
    case Answer => PutU8(5, t)
    case Banner => PutU8(6, t)
    case Response => PutU8(7, t)
  }

  function GetFieldKind(b: seq<byte>): (r: Parse<FieldKind>)
    ensures r.Done? ==> OkFieldKind(r.value) && |b| == SizeFieldKind(r.value) + |r.rest|
  {
    hide GetStr, GetU8, OkStr, SizeBytes;
    var (tag, b) :- GetU8(b);
    if tag == 0 then Done(Status, b)
    else if tag == 1 then Done(Body, b)
    else if tag == 2 then
      var (name, b) :- GetStr(b);
      Done(Header(name), b)
    else if tag == 3 then Done(ResponseTime, b)
    else if tag == 4 then Done(ResponseSize, b)
    else if tag == 5 then Done(Answer, b)
    else if tag == 6 then Done(Banner, b)
    else if tag == 7 then Done(Response, b)
    else Bad(Corrupt(BadFieldKind))
  }

  lemma FieldKindExtends()
    ensures forall b, t {:trigger GetFieldKind(b + t)} ::
        GetFieldKind(b).Done? ==> GetFieldKind(b + t) == Done(GetFieldKind(b).value, GetFieldKind(b).rest + t)
  {
    hide GetStr, GetU8;
    U8Extends();
    StrExtends();
  }

  predicate OkCmpValue(v: CmpValue) {
    match v
    case Number(n) => true
    case StringOperand(s) => OkStr(s)
    case Duration(d) => OkStr(d)
  }

  function SizeCmpValue(v: CmpValue): (n: nat)
    ensures n >= 1
  {
    match v
    case Number(n) => 1 + 8
    case StringOperand(s) => 1 + SizeBytes(s)
    case Duration(d) => 1 + SizeBytes(d)
  }

  function PutCmpValue(v: CmpValue, t: seq<byte>): (r: seq<byte>)
    ensures |r| == SizeCmpValue(v) + |t|
    ensures OkCmpValue(v) ==> GetCmpValue(r) == Done(v, t)
  {
    hide GetStr, GetU64, GetU8, OkStr, PutStr, PutU64, PutU8, SizeBytes;
    match v
    case Number(n) => PutU8(0, PutU64(n, t))
    case StringOperand(s) => PutU8(1, PutStr(s, t))
    case Duration(d) => PutU8(2, PutStr(d, t))
  }

  function GetCmpValue(b: seq<byte>): (r: Parse<CmpValue>)
    ensures r.Done? ==> OkCmpValue(r.value) && |b| == SizeCmpValue(r.value) + |r.rest|
  {
    hide GetStr, GetU64, GetU8, OkStr, SizeBytes;
    var (tag, b) :- GetU8(b);
    if tag == 0 then
      var (n, b) :- GetU64(b);
      Done(Number(n), b)
    else if tag == 1 then
      var (s, b) :- GetStr(b);
      Done(StringOperand(s), b)
    else if tag == 2 then
      var (d, b) :- GetStr(b);
      Done(Duration(d), b)
    else Bad(Corrupt(BadCmpValue))
  }

  lemma CmpValueExtends()
    ensures forall b, t {:trigger GetCmpValue(b + t)} ::
        GetCmpValue(b).Done? ==> GetCmpValue(b + t) == Done(GetCmpValue(b).value, GetCmpValue(b).rest + t)
  {
    hide GetStr, GetU64, GetU8;
    U8Extends();
    U64Extends();
    StrExtends();
  }

  predicate OkPredicate(v: MatchPredicate) {
    match v
    case Compare(op, value) => OkCmpValue(value)
    case Contains(text) => OkStr(text)
    case NotContains(text) => OkStr(text)
    case Regex(pattern) => OkStr(pattern)
  }

  function SizePredicate(v: MatchPredicate): (n: nat)
    ensures n >= 1
  {
    match v
    case Compare(op, value) => 1 + 1 + SizeCmpValue(value)
    case Contains(text) => 1 + SizeBytes(text)
    case NotContains(text) => 1 + SizeBytes(text)
    case Regex(pattern) => 1 + SizeBytes(pattern)
  }

  function PutPredicate(v: MatchPredicate, t: seq<byte>): (r: seq<byte>)
    ensures |r| == SizePredicate(v) + |t|
    ensures OkPredicate(v) ==> GetPredicate(r) == Done(v, t)
  {
    hide GetCmpOp, GetCmpValue, GetStr, GetU8, OkCmpValue, OkStr, PutCmpOp, PutCmpValue, PutStr, PutU8,
      SizeBytes, SizeCmpValue;
    match v
    case Compare(op, value) => PutU8(0, PutCmpOp(op, PutCmpValue(value, t)))
    case Contains(text) => PutU8(1, PutStr(text, t))
    case NotContains(text) => PutU8(2, PutStr(text, t))
    case Regex(pattern) => PutU8(3, PutStr(pattern, t))
  }

  function GetPredicate(b: seq<byte>): (r: Parse<MatchPredicate>)
    ensures r.Done? ==> OkPredicate(r.value) && |b| == SizePredicate(r.value) + |r.rest|
  {
    hide GetCmpOp, GetCmpValue, GetStr, GetU8, OkCmpValue, OkStr, SizeBytes, SizeCmpValue;
    var (tag, b) :- GetU8(b);
    if tag == 0 then
      var (op, b) :- GetCmpOp(b);
      var (value, b) :- GetCmpValue(b);
      Done(Compare(op, value), b)
    else if tag == 1 then
      var (text, b) :- GetStr(b);
      Done(Contains(text), b)
    else if tag == 2 then
      var (text, b) :- GetStr(b);
      Done(NotContains(text), b)
    else if tag == 3 then
      var (pattern, b) :- GetStr(b);
      Done(Regex(pattern), b)
    else Bad(Corrupt(BadPredicate))
  }

  lemma PredicateExtends()
    ensures forall b, t {:trigger GetPredicate(b + t)} ::
        GetPredicate(b).Done? ==> GetPredicate(b + t) == Done(GetPredicate(b).value, GetPredicate(b).rest + t)
  {
    hide GetCmpOp, GetCmpValue, GetStr, GetU8;
    U8Extends();
    CmpOpExtends();
    CmpValueExtends();
    StrExtends();
  }

  predicate OkField(v: QualifiedField) {
    && OkStr(v.target)
    && OkFieldKind(v.kind)
  }

  function SizeField(v: QualifiedField): (n: nat)
    ensures n >= 1
  {
    SizeBytes(v.target) + SizeFieldKind(v.kind)
  }

  function PutField(v: QualifiedField, t: seq<byte>): (r: seq<byte>)
    ensures |r| == SizeField(v) + |t|
    ensures OkField(v) ==> GetField(r) == Done(v, t)
  {
    hide GetFieldKind, GetStr, OkFieldKind, OkStr, PutFieldKind, PutStr, SizeBytes, SizeFieldKind;
    PutStr(v.target, PutFieldKind(v.kind, t))
  }

  function GetField(b: seq<byte>): (r: Parse<QualifiedField>)
    ensures r.Done? ==> OkField(r.value) && |b| == SizeField(r.value) + |r.rest|
  {
    hide GetFieldKind, GetStr, OkFieldKind, OkStr, SizeBytes, SizeFieldKind;
    var (target, b) :- GetStr(b);
    var (kind, b) :- GetFieldKind(b);
    Done(QualifiedField(target, kind), b)
  }

  lemma FieldExtends()
    ensures forall b, t {:trigger GetField(b + t)} ::
        GetField(b).Done? ==> GetField(b + t) == Done(GetField(b).value, GetField(b).rest + t)
  {
    hide GetFieldKind, GetStr;
    StrExtends();
    FieldKindExtends();
  }

  predicate OkMatcher(v: QualifiedMatch) {
    && OkField(v.field)
    && OkPredicate(v.predicate_)
  }

  function SizeMatcher(v: QualifiedMatch): (n: nat)
    ensures n >= 1
  {
    SizeField(v.field) + SizePredicate(v.predicate_)
  }

  function PutMatcher(v: QualifiedMatch, t: seq<byte>): (r: seq<byte>)
    ensures |r| == SizeMatcher(v) + |t|
    ensures OkMatcher(v) ==> GetMatcher(r) == Done(v, t)
  {
    hide GetField, GetPredicate, OkField, OkPredicate, PutField, PutPredicate, SizeField, SizePredicate;
    PutField(v.field, PutPredicate(v.predicate_, t))
  }

  function GetMatcher(b: seq<byte>): (r: Parse<QualifiedMatch>)
    ensures r.Done? ==> OkMatcher(r.value) && |b| == SizeMatcher(r.value) + |r.rest|
  {
    hide GetField, GetPredicate, OkField, OkPredicate, SizeField, SizePredicate;
    var (field, b) :- GetField(b);
    var (p, b) :- GetPredicate(b);
    Done(QualifiedMatch(field, p), b)
  }

  lemma MatcherExtends()
    ensures Extends(GetMatcher)
  {
    hide GetField, GetPredicate;
    FieldExtends();
    PredicateExtends();
  }

  function MatcherFormat(): (c: ElementFormat<QualifiedMatch>)
    ensures Lawful(c)
  {
    MatcherExtends();
    ElementFormat(PutMatcher, GetMatcher, OkMatcher, SizeMatcher)
  }

  predicate OkExtract(v: ExtractSource) {
    match v
    case FromBody(target, regex) => OkStr(target) && OkOpt(StrFormat(), regex)
    case FromHeader(target, name) => OkStr(target) && OkStr(name)
  }

  function SizeExtract(v: ExtractSource): (n: nat)
    ensures n >= 1
  {
    match v
    case FromBody(target, regex) => 1 + SizeBytes(target) + SizeOpt(StrFormat(), regex)
    case FromHeader(target, name) => 1 + SizeBytes(target) + SizeBytes(name)
  }

  function PutExtract(v: ExtractSource, t: seq<byte>): (r: seq<byte>)
    ensures |r| == SizeExtract(v) + |t|
    ensures OkExtract(v) ==> GetExtract(r) == Done(v, t)
  {
    hide GetOpt, GetStr, GetU8, OkOpt, OkStr, PutOpt, PutStr, PutU8, SizeBytes, SizeOpt;
    match v
    case FromBody(target, regex) => PutU8(0, PutStr(target, PutOpt(StrFormat(), regex, t)))
    case FromHeader(target, name) => PutU8(1, PutStr(target, PutStr(name, t)))
  }

  function GetExtract(b: seq<byte>): (r: Parse<ExtractSource>)
    ensures r.Done? ==> OkExtract(r.value) && |b| == SizeExtract(r.value) + |r.rest|
  {
    hide GetOpt, GetStr, GetU8, OkOpt, OkStr, SizeBytes, SizeOpt;
    var (tag, b) :- GetU8(b);
    if tag == 0 then
      var (target, b) :- GetStr(b);
      var (regex, b) :- GetOpt(StrFormat(), b);
      Done(FromBody(target, regex), b)
    else if tag == 1 then
      var (target, b) :- GetStr(b);
      var (name, b) :- GetStr(b);
      Done(FromHeader(target, name), b)
    else Bad(Corrupt(BadExtract))
  }

  lemma ExtractExtends()
    ensures Extends(GetExtract)
  {
    hide GetOpt, GetStr, GetU8, StrFormat;
    U8Extends();
    StrExtends();
    OptExtends(StrFormat());
  }

  function ExtractFormat(): (c: ElementFormat<ExtractSource>)
    ensures Lawful(c)
  {
    ExtractExtends();
    ElementFormat(PutExtract, GetExtract, OkExtract, SizeExtract)
  }

  predicate OkEvidence(v: EvidenceKind) {
    match v
    case BodyProof(target, pattern) => OkStr(target) && OkOpt(StrFormat(), pattern)
    case ResponseProof(target, pattern) => OkStr(target) && OkOpt(StrFormat(), pattern)
    case HeaderProof(target, name, pattern) => OkStr(target) && OkStr(name) && OkOpt(StrFormat(), pattern)
  }

  function SizeEvidence(v: EvidenceKind): (n: nat)
    ensures n >= 1
  {
    match v
    case BodyProof(target, pattern) => 1 + SizeBytes(target) + SizeOpt(StrFormat(), pattern)
    case ResponseProof(target, pattern) => 1 + SizeBytes(target) + SizeOpt(StrFormat(), pattern)
    case HeaderProof(target, name, pattern) => 1 + SizeBytes(target) + SizeBytes(name) + SizeOpt(StrFormat(), pattern)
  }

  function PutEvidence(v: EvidenceKind, t: seq<byte>): (r: seq<byte>)
    ensures |r| == SizeEvidence(v) + |t|
    ensures OkEvidence(v) ==> GetEvidence(r) == Done(v, t)
  {
    hide GetOpt, GetStr, GetU8, OkOpt, OkStr, PutOpt, PutStr, PutU8, SizeBytes, SizeOpt;
    match v
    case BodyProof(target, pattern) => PutU8(0, PutStr(target, PutOpt(StrFormat(), pattern, t)))
    case ResponseProof(target, pattern) => PutU8(1, PutStr(target, PutOpt(StrFormat(), pattern, t)))
    case HeaderProof(target, name, pattern) => PutU8(2, PutStr(target, PutStr(name, PutOpt(StrFormat(), pattern, t))))
  }

  function GetEvidence(b: seq<byte>): (r: Parse<EvidenceKind>)
    ensures r.Done? ==> OkEvidence(r.value) && |b| == SizeEvidence(r.value) + |r.rest|
  {
    hide GetOpt, GetStr, GetU8, OkOpt, OkStr, SizeBytes, SizeOpt;
    var (tag, b) :- GetU8(b);
    if tag == 0 then
      var (target, b) :- GetStr(b);
      var (pattern, b) :- GetOpt(StrFormat(), b);
      Done(BodyProof(target, pattern), b)
    else if tag == 1 then
      var (target, b) :- GetStr(b);
      var (pattern, b) :- GetOpt(StrFormat(), b);
      Done(ResponseProof(target, pattern), b)
    else if tag == 2 then
      var (target, b) :- GetStr(b);
      var (name, b) :- GetStr(b);
      var (pattern, b) :- GetOpt(StrFormat(), b);
      Done(HeaderProof(target, name, pattern), b)
    else Bad(Corrupt(BadEvidence))
  }

  lemma EvidenceExtends()
    ensures Extends(GetEvidence)
  {
    hide GetOpt, GetStr, GetU8, StrFormat;
    U8Extends();
    StrExtends();
    OptExtends(StrFormat());
  }

  function EvidenceFormat(): (c: ElementFormat<EvidenceKind>)
    ensures Lawful(c)
  {
    EvidenceExtends();
    ElementFormat(PutEvidence, GetEvidence, OkEvidence, SizeEvidence)
  }

  // ---------- instructions ----------

  function Opcode(i: Instr): byte {
    match i
    case Set(_, _) => 1
    case Send(_, _) => 2
    case Match(_) => 3
    case MatchAll(_, _) => 4
    case MatchAny(_, _) => 5
    case Assert(_) => 6
    case Extract(_, _) => 7
    case IfMatch(_, _) => 8
    case Save(_, _) => 9
    case Evidence(_) => 10
    case Retry(_, _) => 11
    case RetryDelay(_) => 12
    case Sleep(_) => 13
    case Stop => 14
    case Fail => 15
    case Continue => 16
    case Exit => 17
    case LoopBack => 19
    case Break => 20
    case SetList(_, _, _) => 21
    case ForList(_, _, _, _) => 22
    case ForVar(_, _, _) => 23
  }

  function SizeOperands(i: Instr): nat {
    match i
    case Set(_, _) => 4 + 4
    case Send(_, payload) => 4 + SizeOpt(U32Format(), payload)
    case Match(_) => 4
    case MatchAll(_, _) => 4 + 2
    case MatchAny(_, _) => 4 + 2
    case Assert(_) => 4
    case Extract(_, _) => 4 + 4
    case IfMatch(_, _) => 4 + 4
    case Save(_, _) => 4 + 4
    case Evidence(_) => 4
    case Retry(_, _) => 4 + 4
    case RetryDelay(_) => 4
    case Sleep(_) => 4
    case Stop => 0
    case Fail => 0
    case Continue => 0
    case Exit => 0
    case LoopBack => 0
    case Break => 0
    case SetList(_, _, _) => 4 + 4 + 2
    case ForList(_, _, _, _) => 4 + 4 + 2 + 4
    case ForVar(_, _, _) => 4 + 4 + 4
  }

  lemma SendSize(probe: u32, payload: Option<u32>)
    ensures SizeOperands(Send(probe, payload)) == 4 + SizeOpt(U32Format(), payload)
  {
  }

  function PutSend(i: Instr, t: seq<byte>): (r: seq<byte>)
    requires i.Send?
    ensures |r| == SizeOperands(i) + |t| && GetSend(r) == Done(i, t)
  {
    hide GetU32, GetOpt, PutU32, PutOpt, SizeOpt, SizeOperands;
    SendSize(i.probe, i.payload);
    PutU32(i.probe, PutOpt(U32Format(), i.payload, t))
  }

  function GetSend(b: seq<byte>): (r: Parse<Instr>)
    ensures r.Done? ==> r.value.Send? && |b| == SizeOperands(r.value) + |r.rest|
  {
    hide GetU32, GetOpt, SizeOpt, OkOpt, U32Format, SizeOperands;
    var (probe, b) :- GetU32(b);
    var (payload, b) :- GetOpt(U32Format(), b);
    SendSize(probe, payload);
    Done(Send(probe, payload), b)
  }

  lemma SendExtends(b: seq<byte>, t: seq<byte>)
    requires GetSend(b).Done?
    ensures GetSend(b + t) == Done(GetSend(b).value, GetSend(b).rest + t)
  {
    hide GetU32, GetOpt;
    U32Extends();
    OptExtends(U32Format());
  }

  function PutEarly(i: Instr, t: seq<byte>): (r: seq<byte>)
    requires 1 <= Opcode(i) <= 7 && !i.Send?
    ensures |r| == SizeOperands(i) + |t| && GetEarly(Opcode(i), r) == Done(i, t)
  {
    hide GetU16, GetU32, PutU16, PutU32;
    match i
    case Set(name, value) => PutU32(name, PutU32(value, t))
    case Match(matcher) => PutU32(matcher, t)
    case MatchAll(start, len) => PutU32(start, PutU16(len, t))
    case MatchAny(start, len) => PutU32(start, PutU16(len, t))
    case Assert(matcher) => PutU32(matcher, t)
    case Extract(name, source) => PutU32(name, PutU32(source, t))
  }

  function GetEarly(tag: byte, b: seq<byte>): (r: Parse<Instr>)
    ensures r.Done? ==> 1 <= tag <= 7 && !r.value.Send? && Opcode(r.value) == tag
    ensures r.Done? ==> |b| == SizeOperands(r.value) + |r.rest|
  {
    hide GetU16, GetU32;
    if tag == 1 then
      var (name, b) :- GetU32(b);
      var (value, b) :- GetU32(b);
      Done(Set(name, value), b)
    else if tag == 3 then
      var (matcher, b) :- GetU32(b);
      Done(Match(matcher), b)
    else if tag == 4 then
      var (start, b) :- GetU32(b);
      var (len, b) :- GetU16(b);
      Done(MatchAll(start, len), b)
    else if tag == 5 then
      var (start, b) :- GetU32(b);
      var (len, b) :- GetU16(b);
      Done(MatchAny(start, len), b)
    else if tag == 6 then
      var (matcher, b) :- GetU32(b);
      Done(Assert(matcher), b)
    else if tag == 7 then
      var (name, b) :- GetU32(b);
      var (source, b) :- GetU32(b);
      Done(Extract(name, source), b)
    else Bad(Corrupt(BadOpcode))
  }

  lemma EarlyExtends(tag: byte, b: seq<byte>, t: seq<byte>)
    requires GetEarly(tag, b).Done?
    ensures GetEarly(tag, b + t) == Done(GetEarly(tag, b).value, GetEarly(tag, b).rest + t)
  {
    hide GetU16, GetU32;
    U32Extends();
    U16Extends();
  }

  function PutMiddle(i: Instr, t: seq<byte>): (r: seq<byte>)
    requires 8 <= Opcode(i) <= 13
    ensures |r| == SizeOperands(i) + |t| && GetMiddle(Opcode(i), r) == Done(i, t)
  {
    hide GetU16, GetU32, PutU16, PutU32;
    match i
    case IfMatch(matcher, elsePc) => PutU32(matcher, PutU32(elsePc, t))
    case Save(from, to) => PutU32(from, PutU32(to, t))
    case Evidence(kind) => PutU32(kind, t)
    case Retry(probe, count) => PutU32(probe, PutU32(count, t))
    case RetryDelay(delay) => PutU32(delay, t)
    case Sleep(delay) => PutU32(delay, t)
  }

  function GetMiddle(tag: byte, b: seq<byte>): (r: Parse<Instr>)
    ensures r.Done? ==> 8 <= tag <= 13 && Opcode(r.value) == tag && |b| == SizeOperands(r.value) + |r.rest|
  {
    hide GetU16, GetU32;
    if tag == 8 then
      var (matcher, b) :- GetU32(b);
      var (elsePc, b) :- GetU32(b);
      Done(IfMatch(matcher, elsePc), b)
    else if tag == 9 then
      var (from, b) :- GetU32(b);
      var (to, b) :- GetU32(b);
      Done(Save(from, to), b)
    else if tag == 10 then
      var (kind, b) :- GetU32(b);
      Done(Evidence(kind), b)
    else if tag == 11 then
      var (probe, b) :- GetU32(b);
      var (count, b) :- GetU32(b);
      Done(Retry(probe, count), b)
    else if tag == 12 then
      var (delay, b) :- GetU32(b);
      Done(RetryDelay(delay), b)
    else if tag == 13 then
      var (delay, b) :- GetU32(b);
      Done(Sleep(delay), b)
    else Bad(Corrupt(BadOpcode))
  }

  lemma MiddleExtends(tag: byte, b: seq<byte>, t: seq<byte>)
    requires GetMiddle(tag, b).Done?
    ensures GetMiddle(tag, b + t) == Done(GetMiddle(tag, b).value, GetMiddle(tag, b).rest + t)
  {
    hide GetU16, GetU32;
    U32Extends();
    U16Extends();
  }

  function PutLate(i: Instr, t: seq<byte>): (r: seq<byte>)
    requires 14 <= Opcode(i) <= 23
    ensures |r| == SizeOperands(i) + |t| && GetLate(Opcode(i), r) == Done(i, t)
  {
    hide GetU16, GetU32, PutU16, PutU32;
    match i
    case Stop => t
    case Fail => t
    case Continue => t
    case Exit => t
    case LoopBack => t
    case Break => t
    case SetList(name, start, len) => PutU32(name, PutU32(start, PutU16(len, t)))
    case ForList(item, start, len, endPc) => PutU32(item, PutU32(start, PutU16(len, PutU32(endPc, t))))
    case ForVar(item, list, endPc) => PutU32(item, PutU32(list, PutU32(endPc, t)))
  }

  function GetLate(tag: byte, b: seq<byte>): (r: Parse<Instr>)
    ensures r.Done? ==> 14 <= tag <= 23 && Opcode(r.value) == tag && |b| == SizeOperands(r.value) + |r.rest|
  {
    hide GetU16, GetU32;
    if tag == 14 then Done(Stop, b)
    else if tag == 15 then Done(Fail, b)
    else if tag == 16 then Done(Continue, b)
    else if tag == 17 then Done(Exit, b)
    else if tag == 19 then Done(LoopBack, b)
    else if tag == 20 then Done(Break, b)
    else if tag == 21 then
      var (name, b) :- GetU32(b);
      var (start, b) :- GetU32(b);
      var (len, b) :- GetU16(b);
      Done(SetList(name, start, len), b)
    else if tag == 22 then
      var (item, b) :- GetU32(b);
      var (start, b) :- GetU32(b);
      var (len, b) :- GetU16(b);
      var (endPc, b) :- GetU32(b);
      Done(ForList(item, start, len, endPc), b)
    else if tag == 23 then
      var (item, b) :- GetU32(b);
      var (list, b) :- GetU32(b);
      var (endPc, b) :- GetU32(b);
      Done(ForVar(item, list, endPc), b)
    else Bad(Corrupt(BadOpcode))
  }

  lemma LateExtends(tag: byte, b: seq<byte>, t: seq<byte>)
    requires GetLate(tag, b).Done?
    ensures GetLate(tag, b + t) == Done(GetLate(tag, b).value, GetLate(tag, b).rest + t)
  {
    hide GetU16, GetU32;
    U32Extends();
    U16Extends();
  }

  predicate OkInstr(i: Instr) { true }

  function SizeInstr(i: Instr): (n: nat)
    ensures n >= 1
  {
    1 + SizeOperands(i)
  }

  /** An opcode byte and its operands; 18 is reserved. */
  function PutInstr(i: Instr, t: seq<byte>): (r: seq<byte>)
    ensures |r| == SizeInstr(i) + |t| && GetInstr(r) == Done(i, t)
  {
    hide GetU8, PutU8, GetSend, PutSend, GetEarly, GetMiddle, GetLate, PutEarly, PutMiddle, PutLate, SizeOperands;
    PutU8(Opcode(i),
          if i.Send? then PutSend(i, t) else if Opcode(i) <= 7 then PutEarly(i, t)
              else if Opcode(i) <= 13 then PutMiddle(i, t) else PutLate(i, t))
  }

  function GetInstr(b: seq<byte>): (r: Parse<Instr>)
    ensures r.Done? ==> |b| == SizeInstr(r.value) + |r.rest| && b[0] == Opcode(r.value)
  {
    hide GetU8, GetSend, GetEarly, GetMiddle, GetLate, SizeOperands;
    var (tag, rest) :- GetU8(b);
    FirstByte(b);
    if tag == 2 then GetSend(rest)
    else if tag <= 7 then GetEarly(tag, rest)
    else if tag <= 13 then GetMiddle(tag, rest)
    else GetLate(tag, rest)
  }

  lemma FirstByte(b: seq<byte>)
    ensures GetU8(b).Done? ==> b != [] && GetU8(b).value == b[0]
  {
  }

  lemma InstrExtends()
    ensures Extends(GetInstr)
  {
    hide GetU8, GetSend, GetEarly, GetMiddle, GetLate;
    forall b: seq<byte>, t | GetInstr(b).Done?
      ensures GetInstr(b + t) == Done(GetInstr(b).value, GetInstr(b).rest + t)
    {
      U8Extends();
      var tag := GetU8(b);
      assert GetU8(b + t) == Done(tag.value, tag.rest + t);
      if tag.value == 2 {
        SendExtends(tag.rest, t);
      } else if tag.value <= 7 {
        EarlyExtends(tag.value, tag.rest, t);
      } else if tag.value <= 13 {
        MiddleExtends(tag.value, tag.rest, t);
      } else {
        LateExtends(tag.value, tag.rest, t);
      }
    }
  }

  function InstrFormat(): (c: ElementFormat<Instr>)
    ensures Lawful(c)
  {
    InstrExtends();
    ElementFormat(PutInstr, GetInstr, OkInstr, SizeInstr)
  }
}
