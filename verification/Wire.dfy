/** The wire format's building blocks. `PutX(v, t)` is the encoding of `v` followed by the bytes `t`;
    `GetX(b)` reads one `X` off the front of `b` and gives the value and the rest. */
module Wire {
  import opened Prelude
  import Utf8

  datatype Defect =
    | UnexpectedEnd | StringTooLong | NotUtf8 | BytesTooLong | PayloadTooLong | CountTooLarge
    | BadSeverity | BadProbeKind | BadMethod | BadBodyValue | BadFieldKind | BadPredicate | BadCmpOp
    | BadCmpValue | BadExtract | BadEvidence | BadOpcode | TrailingBytes | IndexOutOfRange | RangeOutOfBounds

  datatype BytecodeError = BadMagic | BadVersion(found: byte) | Corrupt(what: Defect)

  datatype Parse<+T> = Done(value: T, rest: seq<byte>) | Bad(error: BytecodeError) {
    predicate IsFailure() { Bad? }

    function PropagateFailure<U>(): Parse<U>
      requires Bad?
    {
      Bad(error)
    }

    function Extract(): (T, seq<byte>)
      requires Done?
    {
      (value, rest)
    }
  }

  /** A reader's verdict does not depend on the bytes after what it consumes. */
  ghost predicate Extends<T(!new)>(get: seq<byte> -> Parse<T>) {
    forall b, t {:trigger get(b + t)} :: get(b).Done? ==> get(b + t) == Done(get(b).value, get(b).rest + t)
  }

  // ---------- little-endian integers ----------

  function Pow256(n: nat): nat { if n == 0 then 1 else 256 * Pow256(n - 1) }

  function ToLe(v: nat, n: nat): (r: seq<byte>)
    ensures |r| == n
  {
    if n == 0 then [] else [v % 256] + ToLe(v / 256, n - 1)
  }

  function FromLe(bs: seq<byte>): (v: nat)
    ensures v < Pow256(|bs|)
  {
    if bs == [] then 0 else bs[0] + 256 * FromLe(bs[1..])
  }

  lemma {:induction false} FromLeToLe(v: nat, n: nat)
    requires v < Pow256(n)
    ensures FromLe(ToLe(v, n)) == v
    decreases n
  {
    if n > 0 {
      FromLeToLe(v / 256, n - 1);
      assert ToLe(v, n)[1..] == ToLe(v / 256, n - 1);
    }
  }

  lemma WordSizes()
    ensures Pow256(2) == 0x1_0000 && Pow256(4) == 0x1_0000_0000 && Pow256(8) == 0x1_0000_0000_0000_0000
  {
    assert Pow256(1) == 256 * Pow256(0);
    assert Pow256(2) == 256 * Pow256(1);
    assert Pow256(3) == 256 * Pow256(2);
    assert Pow256(4) == 256 * Pow256(3);
    assert Pow256(5) == 256 * Pow256(4);
    assert Pow256(6) == 256 * Pow256(5);
    assert Pow256(7) == 256 * Pow256(6);
  }

  function PutLe(v: nat, n: nat, t: seq<byte>): (r: seq<byte>)
    requires v < Pow256(n)
    ensures |r| == n + |t| && GetLe(r, n) == Done(v, t)
  {
    FromLeToLe(v, n);
    var r := ToLe(v, n) + t;
    assert r[..n] == ToLe(v, n) && r[n..] == t;
    r
  }

  function GetLe(b: seq<byte>, n: nat): (r: Parse<nat>)
    ensures r.Done? ==> r.value < Pow256(n) && |b| == n + |r.rest|
  {
    if |b| < n then Bad(Corrupt(UnexpectedEnd)) else Done(FromLe(b[..n]), b[n..])
  }

  lemma LeExtends(n: nat)
    ensures forall b, t {:trigger GetLe(b + t, n)} ::
              GetLe(b, n).Done? ==> GetLe(b + t, n) == Done(GetLe(b, n).value, GetLe(b, n).rest + t)
  {
    forall b: seq<byte>, t | GetLe(b, n).Done?
      ensures GetLe(b + t, n) == Done(GetLe(b, n).value, GetLe(b, n).rest + t)
    {
      assert (b + t)[..n] == b[..n] && (b + t)[n..] == b[n..] + t;
    }
  }

  function PutU8(v: byte, t: seq<byte>): (r: seq<byte>)
    ensures |r| == 1 + |t| && GetU8(r) == Done(v, t)
  {
    var r := [v] + t;
    assert r[1..] == t;
    r
  }

  function GetU8(b: seq<byte>): (r: Parse<byte>)
    ensures r.Done? ==> |b| == 1 + |r.rest|
  {
    if |b| < 1 then Bad(Corrupt(UnexpectedEnd)) else Done(b[0], b[1..])
  }

  lemma U8Extends()
    ensures forall b, t {:trigger GetU8(b + t)} ::
        GetU8(b).Done? ==> GetU8(b + t) == Done(GetU8(b).value, GetU8(b).rest + t)
  {
    forall b: seq<byte>, t | GetU8(b).Done?
      ensures GetU8(b + t) == Done(GetU8(b).value, GetU8(b).rest + t)
    {
      assert (b + t)[1..] == b[1..] + t;
    }
  }

  function PutU16(v: u16, t: seq<byte>): (r: seq<byte>)
    ensures |r| == 2 + |t| && GetU16(r) == Done(v, t)
  {
    WordSizes();
    PutLe(v, 2, t)
  }

  function GetU16(b: seq<byte>): (r: Parse<u16>)
    ensures r.Done? ==> |b| == 2 + |r.rest|
  {
    WordSizes();
    var (v, b) :- GetLe(b, 2);
    Done(v, b)
  }

  lemma U16Extends()
    ensures forall b, t {:trigger GetU16(b + t)} ::
        GetU16(b).Done? ==> GetU16(b + t) == Done(GetU16(b).value, GetU16(b).rest + t)
  {
    LeExtends(2);
  }

  function PutU32(v: u32, t: seq<byte>): (r: seq<byte>)
    ensures |r| == 4 + |t| && GetU32(r) == Done(v, t)
  {
    WordSizes();
    PutLe(v, 4, t)
  }

  function GetU32(b: seq<byte>): (r: Parse<u32>)
    ensures r.Done? ==> |b| == 4 + |r.rest|
  {
    WordSizes();
    var (v, b) :- GetLe(b, 4);
    Done(v, b)
  }

  lemma U32Extends()
    ensures forall b, t {:trigger GetU32(b + t)} ::
        GetU32(b).Done? ==> GetU32(b + t) == Done(GetU32(b).value, GetU32(b).rest + t)
  {
    LeExtends(4);
  }

  function PutU64(v: u64, t: seq<byte>): (r: seq<byte>)
    ensures |r| == 8 + |t| && GetU64(r) == Done(v, t)
  {
    WordSizes();
    PutLe(v, 8, t)
  }

  function GetU64(b: seq<byte>): (r: Parse<u64>)
    ensures r.Done? ==> |b| == 8 + |r.rest|
  {
    WordSizes();
    var (v, b) :- GetLe(b, 8);
    Done(v, b)
  }

  lemma U64Extends()
    ensures forall b, t {:trigger GetU64(b + t)} ::
        GetU64(b).Done? ==> GetU64(b + t) == Done(GetU64(b).value, GetU64(b).rest + t)
  {
    LeExtends(8);
  }

  /** Any nonzero byte reads as true; `true` is written as 1. */
  function PutBool(v: bool, t: seq<byte>): (r: seq<byte>)
    ensures |r| == 1 + |t| && GetBool(r) == Done(v, t)
  {
    PutU8(if v then 1 else 0, t)
  }

  function GetBool(b: seq<byte>): (r: Parse<bool>)
    ensures r.Done? ==> |b| == 1 + |r.rest|
  {
    var (v, b) :- GetU8(b);
    Done(v != 0, b)
  }

  lemma BoolExtends()
    ensures forall b, t {:trigger GetBool(b + t)} ::
        GetBool(b).Done? ==> GetBool(b + t) == Done(GetBool(b).value, GetBool(b).rest + t)
  {
    U8Extends();
  }

  // ---------- byte strings and text ----------

  predicate OkBytes(s: seq<byte>) { |s| < U32_LIMIT }

  function SizeBytes(s: seq<byte>): (n: nat)
    ensures n >= 4
  {
    4 + |s|
  }

  /** The length is cast to 32 bits, so an overlong string announces too small a length. */
  function PutBytes(s: seq<byte>, t: seq<byte>): (r: seq<byte>)
    ensures |r| == SizeBytes(s) + |t|
    ensures forall d :: OkBytes(s) ==> GetBlob(d, r) == Done(s, t)
  {
    assert (s + t)[..|s|] == s && (s + t)[|s|..] == t;
    PutU32(|s| % U32_LIMIT, s + t)
  }

  /** A length-prefixed byte string; `tooLong` is the defect of a length beyond the buffer. */
  function GetBlob(tooLong: Defect, b: seq<byte>): (r: Parse<seq<byte>>)
    ensures r.Done? ==> OkBytes(r.value) && |b| == SizeBytes(r.value) + |r.rest|
  {
    var (n, b) :- GetU32(b);
    if n > |b| then Bad(Corrupt(tooLong)) else Done(b[..n], b[n..])
  }

  lemma BlobExtends(tooLong: Defect)
    ensures forall b, t {:trigger GetBlob(tooLong, b + t)} ::
              GetBlob(tooLong, b).Done? ==>
                  GetBlob(tooLong, b + t) == Done(GetBlob(tooLong, b).value, GetBlob(tooLong, b).rest + t)
  {
    U32Extends();
    forall b: seq<byte>, t | GetBlob(tooLong, b).Done?
      ensures GetBlob(tooLong, b + t) == Done(GetBlob(tooLong, b).value, GetBlob(tooLong, b).rest + t)
    {
      var n, c := GetU32(b).value, GetU32(b).rest;
      assert GetU32(b + t) == Done(n, c + t);
      assert (c + t)[..n] == c[..n] && (c + t)[n..] == c[n..] + t;
    }
  }

  function GetBytes(b: seq<byte>): (r: Parse<seq<byte>>)
    ensures r.Done? ==> OkBytes(r.value) && |b| == SizeBytes(r.value) + |r.rest|
  {
    GetBlob(BytesTooLong, b)
  }

  function GetPayload(b: seq<byte>): (r: Parse<seq<byte>>)
    ensures r.Done? ==> OkBytes(r.value) && |b| == SizeBytes(r.value) + |r.rest|
  {
    GetBlob(PayloadTooLong, b)
  }

  predicate OkStr(s: Str) { OkBytes(s) && Utf8.ValidUtf8(s) }

  function PutStr(s: Str, t: seq<byte>): (r: seq<byte>)
    ensures |r| == SizeBytes(s) + |t|
    ensures OkStr(s) ==> GetStr(r) == Done(s, t)
  {
    PutBytes(s, t)
  }

  function GetStr(b: seq<byte>): (r: Parse<Str>)
    ensures r.Done? ==> OkStr(r.value) && |b| == SizeBytes(r.value) + |r.rest|
  {
    var (s, b) :- GetBlob(StringTooLong, b);
    if Utf8.ValidUtf8(s) then Done(s, b) else Bad(Corrupt(NotUtf8))
  }

  lemma StrExtends()
    ensures forall b, t {:trigger GetStr(b + t)} ::
        GetStr(b).Done? ==> GetStr(b + t) == Done(GetStr(b).value, GetStr(b).rest + t)
    ensures Extends(GetStr)
  {
    BlobExtends(StringTooLong);
  }

  // ---------- options and lists of any element ----------

  /** An element format: writer, reader, what can be written faithfully, and the encoded size. */
  datatype ElementFormat<!T> = ElementFormat(
    put: (T, seq<byte>) -> seq<byte>,
    get: seq<byte> -> Parse<T>,
    ok: T -> bool,
    size: T -> nat)

  /** Writing then reading gives the value back; reading gives only writable values and consumes
      exactly their encoded size, at least one byte, whatever follows. */
  ghost predicate Lawful<T(!new)>(c: ElementFormat<T>) {
    && (forall v, t :: |c.put(v, t)| == c.size(v) + |t|)
    && (forall v :: c.size(v) >= 1)
    && (forall v, t :: c.ok(v) ==> c.get(c.put(v, t)) == Done(v, t))
    && (forall b :: c.get(b).Done? ==> c.ok(c.get(b).value) && |b| == c.size(c.get(b).value) + |c.get(b).rest|)
    && Extends(c.get)
  }

  function StrFormat(): (c: ElementFormat<Str>)
    ensures Lawful(c)
  {
    StrExtends();
    ElementFormat(PutStr, GetStr, OkStr, SizeBytes)
  }

  function BytesFormat(): (c: ElementFormat<seq<byte>>)
    ensures Lawful(c)
  {
    BlobExtends(BytesTooLong);
    ElementFormat(PutBytes, GetBytes, OkBytes, SizeBytes)
  }

  function PayloadFormat(): (c: ElementFormat<seq<byte>>)
    ensures Lawful(c)
  {
    BlobExtends(PayloadTooLong);
    ElementFormat(PutBytes, GetPayload, OkBytes, SizeBytes)
  }

  function U16Format(): (c: ElementFormat<u16>)
    ensures Lawful(c)
  {
    U16Extends();
    ElementFormat(PutU16, GetU16, (v: u16) => true, (v: u16) => 2)
  }

  function U32Format(): (c: ElementFormat<u32>)
    ensures Lawful(c) && forall v :: c.ok(v)
  {
    U32Extends();
    ElementFormat(PutU32, GetU32, (v: u32) => true, (v: u32) => 4)
  }

  function BoolFormat(): (c: ElementFormat<bool>)
    ensures Lawful(c)
  {
    BoolExtends();
    ElementFormat(PutBool, GetBool, (v: bool) => true, (v: bool) => 1)
  }

  predicate OkOpt<T>(c: ElementFormat<T>, o: Option<T>) { o.Some? ==> c.ok(o.value) }

  function SizeOpt<T>(c: ElementFormat<T>, o: Option<T>): (n: nat)
    ensures n >= 1
  {
    if o.Some? then 1 + c.size(o.value) else 1
  }

  function PutOpt<T(!new)>(c: ElementFormat<T>, o: Option<T>, t: seq<byte>): (r: seq<byte>)
    requires Lawful(c)
    ensures |r| == SizeOpt(c, o) + |t|
    ensures OkOpt(c, o) ==> GetOpt(c, r) == Done(o, t)
  {
    match o
    case Some(v) => PutU8(1, c.put(v, t))
    case None => PutU8(0, t)
  }

  /** Any nonzero tag announces a value. */
  function GetOpt<T(!new)>(c: ElementFormat<T>, b: seq<byte>): (r: Parse<Option<T>>)
    requires Lawful(c)
    ensures r.Done? ==> OkOpt(c, r.value) && |b| == SizeOpt(c, r.value) + |r.rest|
  {
    var (tag, b) :- GetU8(b);
    if tag == 0 then Done(None, b)
    else
      var (v, b) :- c.get(b);
      Done(Some(v), b)
  }

  lemma OptExtends<T(!new)>(c: ElementFormat<T>)
    requires Lawful(c)
    ensures forall b, t {:trigger GetOpt(c, b + t)} ::
              GetOpt(c, b).Done? ==> GetOpt(c, b + t) == Done(GetOpt(c, b).value, GetOpt(c, b).rest + t)
  {
    U8Extends();
  }

  predicate OkMany<T>(c: ElementFormat<T>, vs: seq<T>) { forall i | 0 <= i < |vs| :: c.ok(vs[i]) }

  function SizeMany<T>(c: ElementFormat<T>, vs: seq<T>): nat {
    if vs == [] then 0 else c.size(vs[0]) + SizeMany(c, vs[1..])
  }

  lemma {:induction false} SizeManyAtLeast<T(!new)>(c: ElementFormat<T>, vs: seq<T>)
    requires Lawful(c)
    ensures SizeMany(c, vs) >= |vs|
  {
    if vs != [] {
      SizeManyAtLeast(c, vs[1..]);
    }
  }

  function PutMany<T(!new)>(c: ElementFormat<T>, vs: seq<T>, t: seq<byte>): (r: seq<byte>)
    requires Lawful(c)
    ensures |r| == SizeMany(c, vs) + |t|
    ensures OkMany(c, vs) ==> GetMany(c, |vs|, r) == Done(vs, t)
  {
    if vs == [] then t
    else
      var r := PutMany(c, vs[1..], t);
      assert [vs[0]] + vs[1..] == vs;
      c.put(vs[0], r)
  }

  function GetMany<T(!new)>(c: ElementFormat<T>, n: nat, b: seq<byte>): (r: Parse<seq<T>>)
    requires Lawful(c)
    ensures r.Done? ==> |r.value| == n && OkMany(c, r.value) && |b| == SizeMany(c, r.value) + |r.rest|
    decreases n
  {
    if n == 0 then Done([], b)
    else
      var (v, b) :- c.get(b);
      var (vs, b) :- GetMany(c, n - 1, b);
      assert ([v] + vs)[1..] == vs;
      Done([v] + vs, b)
  }

  lemma {:induction false} ManyExtends<T(!new)>(c: ElementFormat<T>, n: nat, b: seq<byte>, t: seq<byte>)
    requires Lawful(c) && GetMany(c, n, b).Done?
    ensures GetMany(c, n, b + t) == Done(GetMany(c, n, b).value, GetMany(c, n, b).rest + t)
    decreases n
  {
    if n > 0 {
      var first := c.get(b);
      assert c.get(b + t) == Done(first.value, first.rest + t);
      ManyExtends(c, n - 1, first.rest, t);
    }
  }

  /** An untrusted element count, rejected when it exceeds the bytes that are left. */
  function GetCount(b: seq<byte>): (r: Parse<nat>)
    ensures r.Done? ==> r.value < U32_LIMIT && |b| == 4 + |r.rest| && r.value <= |r.rest|
  {
    var (n, b) :- GetU32(b);
    if n > |b| then Bad(Corrupt(CountTooLarge)) else Done(n, b)
  }

  predicate OkList<T>(c: ElementFormat<T>, vs: seq<T>) { |vs| < U32_LIMIT && OkMany(c, vs) }

  function SizeList<T>(c: ElementFormat<T>, vs: seq<T>): (n: nat)
    ensures n >= 4
  {
    4 + SizeMany(c, vs)
  }

  /** Every element takes at least one byte, so the count check never rejects what was written. */
  function PutList<T(!new)>(c: ElementFormat<T>, vs: seq<T>, t: seq<byte>): (r: seq<byte>)
    requires Lawful(c)
    ensures |r| == SizeList(c, vs) + |t|
    ensures OkList(c, vs) ==> GetList(c, r) == Done(vs, t)
  {
    SizeManyAtLeast(c, vs);
    PutU32(|vs| % U32_LIMIT, PutMany(c, vs, t))
  }

  function GetList<T(!new)>(c: ElementFormat<T>, b: seq<byte>): (r: Parse<seq<T>>)
    requires Lawful(c)
    ensures r.Done? ==> OkList(c, r.value) && |b| == SizeList(c, r.value) + |r.rest|
  {
    var (n, b) :- GetCount(b);
    GetMany(c, n, b)
  }

  lemma CountExtends()
    ensures forall b, t {:trigger GetCount(b + t)} ::
              GetCount(b).Done? ==> GetCount(b + t) == Done(GetCount(b).value, GetCount(b).rest + t)
  {
    U32Extends();
  }

  lemma ListExtends<T(!new)>(c: ElementFormat<T>)
    requires Lawful(c)
    ensures forall b, t {:trigger GetList(c, b + t)} ::
              GetList(c, b).Done? ==> GetList(c, b + t) == Done(GetList(c, b).value, GetList(c, b).rest + t)
  {
    CountExtends();
    forall b: seq<byte>, t | GetList(c, b).Done?
      ensures GetList(c, b + t) == Done(GetList(c, b).value, GetList(c, b).rest + t)
    {
      var head := GetCount(b);
      assert GetCount(b + t) == Done(head.value, head.rest + t);
      ManyExtends(c, head.value, head.rest, t);
    }
  }
}
