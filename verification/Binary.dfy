/** Buffer and cursor of the codec: a byte buffer that grows, and a cursor that advances. */
module Binary {
  import opened Prelude
  import opened Wire
  import Utf8

  // ---------- writing ----------

  class Writer {
    var buf: seq<byte>

    constructor ()
      ensures buf == []
    {
      buf := [];
    }

    method Raw(data: seq<byte>)
      modifies this
      ensures buf == old(buf) + data
    {
      buf := buf + data;
    }

    method U8(v: byte)
      modifies this
      ensures forall t {:trigger PutU8(v, t)} :: buf + t == old(buf) + PutU8(v, t)
    {
      buf := buf + [v];
      forall t {:trigger PutU8(v, t)} ensures buf + t == old(buf) + PutU8(v, t) {
        assert buf + t == old(buf) + ([v] + t);
      }
    }

    method Le(v: nat, n: nat)
      requires v < Pow256(n)
      modifies this
      ensures forall t {:trigger PutLe(v, n, t)} :: buf + t == old(buf) + PutLe(v, n, t)
    {
      buf := buf + ToLe(v, n);
      forall t {:trigger PutLe(v, n, t)} ensures buf + t == old(buf) + PutLe(v, n, t) {
        assert buf + t == old(buf) + (ToLe(v, n) + t);
      }
    }

    method U16(v: u16)
      modifies this
      ensures forall t {:trigger PutU16(v, t)} :: buf + t == old(buf) + PutU16(v, t)
    {
      hide PutLe;
      WordSizes();
      Le(v, 2);
    }

    method U32(v: u32)
      modifies this
      ensures forall t {:trigger PutU32(v, t)} :: buf + t == old(buf) + PutU32(v, t)
    {
      hide PutLe;
      WordSizes();
      Le(v, 4);
    }

    method U64(v: u64)
      modifies this
      ensures forall t {:trigger PutU64(v, t)} :: buf + t == old(buf) + PutU64(v, t)
    {
      hide PutLe;
      WordSizes();
      Le(v, 8);
    }

    method Bool(v: bool)
      modifies this
      ensures forall t {:trigger PutBool(v, t)} :: buf + t == old(buf) + PutBool(v, t)
    {
      hide PutU8;
      U8(if v then 1 else 0);
    }

    /** A length cast to 32 bits, then the bytes. */
    method Blob(data: seq<byte>)
      modifies this
      ensures forall t {:trigger PutBytes(data, t)} :: buf + t == old(buf) + PutBytes(data, t)
    {
      hide PutU32;
      U32(|data| % U32_LIMIT);
      ghost var prefix := buf;
      Raw(data);
      forall t {:trigger PutBytes(data, t)} ensures buf + t == old(buf) + PutBytes(data, t) {
        assert buf + t == prefix + (data + t);
      }
    }

    method Str(s: Str)
      modifies this
      ensures forall t {:trigger PutStr(s, t)} :: buf + t == old(buf) + PutStr(s, t)
    {
      hide PutBytes;
      Blob(s);
    }

    method OptStr(value: Option<Str>)
      modifies this
      ensures forall t {:trigger PutOpt(StrFormat(), value, t)} :: buf + t == old(buf) + PutOpt(StrFormat(), value, t)
    {
      hide PutStr, PutU8;
      match value
      case Some(s) => U8(1); Str(s);
      case None => U8(0);
    }

    method OptBytes(value: Option<seq<byte>>)
      modifies this
      ensures forall t {:trigger PutOpt(BytesFormat(), value, t)} ::
          buf + t == old(buf) + PutOpt(BytesFormat(), value, t)
    {
      hide PutBytes, PutU8;
      match value
      case Some(data) => U8(1); Blob(data);
      case None => U8(0);
    }

    method OptU16(value: Option<u16>)
      modifies this
      ensures forall t {:trigger PutOpt(U16Format(), value, t)} :: buf + t == old(buf) + PutOpt(U16Format(), value, t)
    {
      hide PutU16, PutU8;
      match value
      case Some(v) => U8(1); U16(v);
      case None => U8(0);
    }
  }

  // ---------- reading ----------

  /** A reader's result and its new position agree with what parsing the remaining bytes gives. */
  ghost predicate Agrees<T>(r: Result<T, BytecodeError>, rest: seq<byte>, p: Parse<T>) {
    match r
    case Ok(v) => p == Done(v, rest)
    case Err(e) => p == Bad(e)
  }

  class Reader {
    const data: seq<byte>
    var pos: nat

    ghost predicate Valid()
      reads this
    {
      pos <= |data|
    }

    ghost function Rest(): (s: seq<byte>)
      reads this
      requires Valid()
      ensures |s| == |data| - pos
    {
      data[pos..]
    }

    constructor (bytes: seq<byte>)
      ensures Valid() && data == bytes && Rest() == bytes
    {
      data := bytes;
      pos := 0;
    }

    function Remaining(): nat
      reads this
      requires Valid()
    {
      |data| - pos
    }

    /** The next `n` bytes. */
    method Need(n: nat) returns (r: Result<seq<byte>, BytecodeError>)
      requires Valid()
      modifies this`pos
      ensures Valid()
      ensures Agrees(r, Rest(),
                if n > |old(Rest())| then Bad(Corrupt(UnexpectedEnd)) else Done(old(Rest())[..n], old(Rest())[n..]))
    {
      if pos + n > |data| {
        return Err(Corrupt(UnexpectedEnd));
      }
      var slice := data[pos..pos + n];
      assert Rest()[..n] == slice && Rest()[n..] == data[pos + n..];
      pos := pos + n;
      return Ok(slice);
    }

    method U8() returns (r: Result<byte, BytecodeError>)
      requires Valid()
      modifies this`pos
      ensures Valid() && Agrees(r, Rest(), GetU8(old(Rest())))
    {
      var one :- Need(1);
      return Ok(one[0]);
    }

    method Le(n: nat) returns (r: Result<nat, BytecodeError>)
      requires Valid()
      modifies this`pos
      ensures Valid() && Agrees(r, Rest(), GetLe(old(Rest()), n))
    {
      var bytes :- Need(n);
      return Ok(FromLe(bytes));
    }

    method U16() returns (r: Result<u16, BytecodeError>)
      requires Valid()
      modifies this`pos
      ensures Valid() && Agrees(r, Rest(), GetU16(old(Rest())))
    {
      hide GetLe;
      WordSizes();
      var v :- Le(2);
      return Ok(v);
    }

    method U32() returns (r: Result<u32, BytecodeError>)
      requires Valid()
      modifies this`pos
      ensures Valid() && Agrees(r, Rest(), GetU32(old(Rest())))
    {
      hide GetLe;
      WordSizes();
      var v :- Le(4);
      return Ok(v);
    }

    method U64() returns (r: Result<u64, BytecodeError>)
      requires Valid()
      modifies this`pos
      ensures Valid() && Agrees(r, Rest(), GetU64(old(Rest())))
    {
      hide GetLe;
      WordSizes();
      var v :- Le(8);
      return Ok(v);
    }

    method Bool() returns (r: Result<bool, BytecodeError>)
      requires Valid()
      modifies this`pos
      ensures Valid() && Agrees(r, Rest(), GetBool(old(Rest())))
    {
      hide GetU8;
      var v :- U8();
      return Ok(v != 0);
    }

    /** A length that must not overrun the buffer, then that many bytes. */
    method Blob(tooLong: Defect) returns (r: Result<seq<byte>, BytecodeError>)
      requires Valid()
      modifies this`pos
      ensures Valid() && Agrees(r, Rest(), GetBlob(tooLong, old(Rest())))
    {
      hide GetU32;
      var len :- U32();
      if len > Remaining() {
        return Err(Corrupt(tooLong));
      }
      r := Need(len);
    }

    method Str() returns (r: Result<Str, BytecodeError>)
      requires Valid()
      modifies this`pos
      ensures Valid() && Agrees(r, Rest(), GetStr(old(Rest())))
    {
      hide GetBlob, Utf8.ValidUtf8;
      var bytes :- Blob(StringTooLong);
      if !Utf8.ValidUtf8(bytes) {
        return Err(Corrupt(NotUtf8));
      }
      return Ok(bytes);
    }

    method OptStr() returns (r: Result<Option<Str>, BytecodeError>)
      requires Valid()
      modifies this`pos
      ensures Valid() && Agrees(r, Rest(), GetOpt(StrFormat(), old(Rest())))
    {
      hide GetU8, GetStr;
      var tag :- U8();
      if tag == 0 {
        return Ok(None);
      }
      var s :- Str();
      return Ok(Some(s));
    }

    method OptBytes() returns (r: Result<Option<seq<byte>>, BytecodeError>)
      requires Valid()
      modifies this`pos
      ensures Valid() && Agrees(r, Rest(), GetOpt(BytesFormat(), old(Rest())))
    {
      hide GetU8, GetBlob;
      var tag :- U8();
      if tag == 0 {
        return Ok(None);
      }
      var data :- Blob(BytesTooLong);
      return Ok(Some(data));
    }

    method OptU16() returns (r: Result<Option<u16>, BytecodeError>)
      requires Valid()
      modifies this`pos
      ensures Valid() && Agrees(r, Rest(), GetOpt(U16Format(), old(Rest())))
    {
      hide GetU8, GetU16;
      var tag :- U8();
      if tag == 0 {
        return Ok(None);
      }
      var v :- U16();
      return Ok(Some(v));
    }

    /** An untrusted count, checked against the bytes left before anything is allocated. */
    method BoundedCount(raw: u32) returns (r: Result<nat, BytecodeError>)
      requires Valid()
      ensures r == if raw > |Rest()| then Err(Corrupt(CountTooLarge)) else Ok(raw)
    {
      if raw > Remaining() {
        return Err(Corrupt(CountTooLarge));
      }
      return Ok(raw);
    }

    method Count() returns (r: Result<nat, BytecodeError>)
      requires Valid()
      modifies this`pos
      ensures Valid() && Agrees(r, Rest(), GetCount(old(Rest())))
    {
      hide GetU32;
      var raw :- U32();
      r := BoundedCount(raw);
    }
  }
}
