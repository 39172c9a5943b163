/** Whole programs: encoding, decoding, and the laws that tie them together. */
module Codec {
  import opened Prelude
  import opened Contract
  import opened Wire
  import opened Format
  import opened Ordering
  import opened Validate

  const MAGIC: seq<byte> := [0x52, 0x55, 0x53, 0x4F]  // "RUSO"
  const VERSION: byte := 1

  // ---------- the probe table ----------

  type Probes = map<Str, ProbeKind>
  type NamedProbe = (Str, ProbeKind)

  ghost function SortedNames(probes: Probes): (r: seq<Str>)
    ensures Elements(r) == probes.Keys && |r| == |probes| && Increasing(StrLe, r)
  {
    hide Increasing, Sorted, Elements;
    StrOrder();
    assert |probes.Keys| == |probes|;
    Sorted(StrLe, probes.Keys)
  }

  lemma SortedNameIn(probes: Probes, i: nat)
    requires i < |SortedNames(probes)|
    ensures SortedNames(probes)[i] in probes
  {
    hide SortedNames, Increasing;
    assert SortedNames(probes)[i] in Elements(SortedNames(probes));
  }

  function EntryOf(probes: Probes, name: Str): NamedProbe
    requires name in probes
  {
    (name, probes[name])
  }

  /** The table in the order it is written: by name. */
  ghost function Entries(probes: Probes): (r: seq<NamedProbe>)
    ensures |r| == |SortedNames(probes)|
  {
    hide SortedNames, Increasing, Elements;
    seq(|SortedNames(probes)|, i requires 0 <= i < |SortedNames(probes)| =>
      SortedNameIn(probes, i);
      EntryOf(probes, SortedNames(probes)[i]))
  }

  lemma EntryAt(probes: Probes, i: nat)
    requires i < |Entries(probes)|
    ensures SortedNames(probes)[i] in probes
    ensures Entries(probes)[i] == EntryOf(probes, SortedNames(probes)[i])
  {
    hide SortedNames, Increasing, Elements;
    SortedNameIn(probes, i);
  }

  lemma EntryNames(probes: Probes)
    ensures Names(Entries(probes)) == SortedNames(probes)
  {
    hide SortedNames, Increasing, Elements, Entries;
    forall i | 0 <= i < |SortedNames(probes)| ensures Names(Entries(probes))[i] == SortedNames(probes)[i] {
      EntryAt(probes, i);
    }
  }

  function Names(entries: seq<NamedProbe>): seq<Str> {
    seq(|entries|, i requires 0 <= i < |entries| => entries[i].0)
  }

  /** Inserting one by one: a later entry replaces an earlier one of the same name. */
  function TableOf(entries: seq<NamedProbe>): Probes {
    if entries == [] then map[]
    else
      var last := entries[|entries| - 1];
      TableOf(entries[..|entries| - 1])[last.0 := last.1]
  }

  predicate Distinct(names: seq<Str>) {
    forall i, j | 0 <= i < j < |names| :: names[i] != names[j]
  }

  lemma {:induction false} TableOfLookup(entries: seq<NamedProbe>)
    requires Distinct(Names(entries))
    ensures TableOf(entries).Keys == Elements(Names(entries))
    ensures forall i | 0 <= i < |entries| ::
        entries[i].0 in TableOf(entries) && TableOf(entries)[entries[i].0] == entries[i].1
  {
    if entries != [] {
      var n := |entries| - 1;
      var init, last := entries[..n], entries[n];
      assert entries == init + [last];
      NamesSnoc(init, last);
      TableOfLookup(init);
      forall i | 0 <= i < n ensures entries[i].0 != last.0 {
        assert Names(init)[i] == entries[i].0 && Names(init)[i] in Elements(Names(init));
      }
    }
  }

  /** Of several entries of one name the last counts, and only names that have an entry are in the table. */
  lemma {:induction false} LastEntryCounts(entries: seq<NamedProbe>, name: Str, last: Option<nat>)
    requires last.Some? ==> last.value < |entries| && entries[last.value].0 == name
    requires forall i | 0 <= i < |entries| && entries[i].0 == name :: last.Some? && i <= last.value
    ensures name in TableOf(entries) <==> last.Some?
    ensures last.Some? ==> TableOf(entries)[name] == entries[last.value].1
  {
    if entries != [] && last != Some(|entries| - 1) {
      LastEntryCounts(entries[..|entries| - 1], name, last);
    }
  }

  /** Writing a table in name order and inserting the entries back gives the same table. */
  lemma TableOfEntries(probes: Probes)
    ensures TableOf(Entries(probes)) == probes
  {
    hide Entries, SortedNames, TableOf, Elements;
    var entries := Entries(probes);
    EntryNames(probes);
    NamesDistinct(probes);
    TableOfLookup(entries);
    forall k | k in probes ensures TableOf(entries)[k] == probes[k] {
      var i := NameAt(probes, k);
      EntryAt(probes, i);
    }
  }

  lemma NamesDistinct(probes: Probes)
    ensures Distinct(SortedNames(probes))
  {
    hide SortedNames, Elements, StrLe;
  }

  lemma NameAt(probes: Probes, k: Str) returns (i: nat)
    requires k in probes
    ensures i < |SortedNames(probes)| && SortedNames(probes)[i] == k
  {
    hide SortedNames, Increasing;
    assert k in Elements(SortedNames(probes));
    i :| i < |SortedNames(probes)| && SortedNames(probes)[i] == k;
  }

  predicate OkProbes(probes: Probes) {
    |probes| < U32_LIMIT && forall k | k in probes :: OkNamedProbe((k, probes[k]))
  }

  ghost function SizeProbes(probes: Probes): nat { SizeList(NamedProbeFormat(), Entries(probes)) }

  lemma EntriesOk(probes: Probes)
    ensures OkProbes(probes) ==> OkList(NamedProbeFormat(), Entries(probes))
  {
    hide SortedNames, Entries, OkNamedProbe;
    assert |SortedNames(probes)| == |probes|;
    forall i | 0 <= i < |Entries(probes)| && OkProbes(probes)
      ensures NamedProbeFormat().ok(Entries(probes)[i])
    {
      EntryAt(probes, i);
    }
  }

  ghost function PutProbes(probes: Probes, t: seq<byte>): (r: seq<byte>)
    ensures |r| == SizeProbes(probes) + |t|
    ensures OkProbes(probes) ==> GetProbes(r) == Done(probes, t)
  {
    hide OkProbes, OkList, GetList, PutList, SizeList, TableOf, Entries;
    TableOfEntries(probes);
    EntriesOk(probes);
    PutList(NamedProbeFormat(), Entries(probes), t)
  }

  function GetProbes(b: seq<byte>): (r: Parse<Probes>)
    ensures r.Done? ==> OkProbes(r.value)
  {
    hide GetList, OkProbes, TableOf;
    var (entries, b) :- GetList(NamedProbeFormat(), b);
    TableOfOk(entries);
    Done(TableOf(entries), b)
  }

  lemma {:induction false} TableOfOk(entries: seq<NamedProbe>)
    requires OkList(NamedProbeFormat(), entries)
    ensures |TableOf(entries)| <= |entries| && OkProbes(TableOf(entries))
  {
    hide OkNamedProbe;
    if entries != [] {
      var n := |entries| - 1;
      TableOfOk(entries[..n]);
      assert NamedProbeFormat().ok(entries[n]);
      assert TableOf(entries).Keys == TableOf(entries[..n]).Keys + {entries[n].0};
      assert |TableOf(entries)| == |TableOf(entries).Keys| <= |TableOf(entries[..n]).Keys| + 1;
    }
  }

  // ---------- the size of a table ----------

  function EntrySize(name: Str, kind: ProbeKind): nat { SizeNamedProbe((name, kind)) }

  /** The entries' sizes summed over the table, in no particular order. */
  ghost function TableSize(probes: Probes): nat
    decreases |probes|
  {
    if probes == map[] then 0
    else
      var k :| k in probes;
      EntrySize(k, probes[k]) + TableSize(probes - {k})
  }

  lemma {:induction false} TableSizeRemove(probes: Probes, k: Str)
    requires k in probes
    ensures TableSize(probes) == EntrySize(k, probes[k]) + TableSize(probes - {k})
    decreases |probes|
  {
    hide EntrySize;
    var j :| j in probes && TableSize(probes) == EntrySize(j, probes[j]) + TableSize(probes - {j});
    if j != k {
      TableSizeRemove(probes - {j}, k);
      TableSizeRemove(probes - {k}, j);
      assert probes - {j} - {k} == probes - {k} - {j};
    }
  }

  lemma TableSizeInsert(probes: Probes, k: Str, kind: ProbeKind)
    ensures TableSize(probes[k := kind])
         == EntrySize(k, kind) + TableSize(probes) - (if k in probes then EntrySize(k, probes[k]) else 0)
  {
    hide EntrySize, TableSize;
    TableSizeRemove(probes[k := kind], k);
    assert probes[k := kind] - {k} == probes - {k};
    if k in probes {
      TableSizeRemove(probes, k);
    } else {
      assert probes - {k} == probes;
    }
  }

  lemma {:induction false} SizeManySnoc(c: ElementFormat<NamedProbe>, init: seq<NamedProbe>, last: NamedProbe)
    ensures SizeMany(c, init + [last]) == SizeMany(c, init) + c.size(last)
  {
    if init == [] {
      assert init + [last] == [last];
    } else {
      assert (init + [last])[1..] == init[1..] + [last];
      SizeManySnoc(c, init[1..], last);
    }
  }

  /** Reading drops the entries that a later one replaces, so the table is never larger than what was
      read, and exactly as large when no name repeats. */
  lemma {:induction false} TableOfSize(entries: seq<NamedProbe>)
    ensures TableOf(entries).Keys == Elements(Names(entries))
    ensures TableSize(TableOf(entries)) <= SizeMany(NamedProbeFormat(), entries)
    ensures TableSize(TableOf(entries)) == SizeMany(NamedProbeFormat(), entries) <==> Distinct(Names(entries))
  {
    hide TableSize, EntrySize, SizeMany, NamedProbeFormat, SizeNamedProbe;
    if entries == [] {
      EmptySizes();
    } else {
      var n := |entries| - 1;
      var init, last := entries[..n], entries[n];
      TableOfSize(init);
      assert entries == init + [last];
      SizeManySnoc(NamedProbeFormat(), init, last);
      TableSizeInsert(TableOf(init), last.0, last.1);
      FormatSize(last);
      NamesSnoc(init, last);
      if last.0 in TableOf(init) {
        EntryNonempty(last.0, TableOf(init)[last.0]);
      }
    }
  }

  lemma EmptySizes()
    ensures TableSize(map[]) == 0 && SizeMany(NamedProbeFormat(), []) == 0
  {
  }

  lemma FormatSize(e: NamedProbe)
    ensures NamedProbeFormat().size(e) == EntrySize(e.0, e.1)
  {
  }

  lemma EntryNonempty(name: Str, kind: ProbeKind)
    ensures EntrySize(name, kind) >= 1
  {
  }

  lemma NamesSnoc(init: seq<NamedProbe>, last: NamedProbe)
    ensures Elements(Names(init + [last])) == Elements(Names(init)) + {last.0}
    ensures Distinct(Names(init + [last])) <==> Distinct(Names(init)) && last.0 !in Elements(Names(init))
  {
    var all := Names(init + [last]);
    assert all == Names(init) + [last.0];
    assert forall x :: x in all <==> x in Names(init) || x == last.0;
    assert Distinct(all) ==> Distinct(Names(init)) by {
      assert forall i | 0 <= i < |init| :: Names(init)[i] == all[i];
    }
    forall i | 0 <= i < |init| && Distinct(all) ensures Names(init)[i] != last.0 {
      assert all[i] == Names(init)[i] && all[|init|] == last.0;
    }
  }

  /** What is written for a table takes the table's size. */
  lemma EntriesSize(probes: Probes)
    ensures SizeMany(NamedProbeFormat(), Entries(probes)) == TableSize(probes)
  {
    hide SizeMany, TableSize, NamedProbeFormat;
    TableOfEntries(probes);
    TableOfSize(Entries(probes));
  }

  // ---------- operand validation ----------

  function FirstOf(a: Option<Defect>, b: Option<Defect>): Option<Defect> { if a.Some? then a else b }

  function OneDefect(i: nat, bound: nat): Option<Defect> {
    if OneOk(i, bound) then None else Some(IndexOutOfRange)
  }

  function RangeDefect(start: nat, len: nat, bound: nat): Option<Defect> {
    if RangeOk(start, len, bound) then None else Some(RangeOutOfBounds)
  }

  /** The first operand of an instruction that is out of range, checked in order. */
  function InstrDefect(p: BytecodeProgram, i: Instr): (d: Option<Defect>)
    ensures d.None? <==> OperandsOk(i, |p.strings|, |p.payloads|, |p.matchers|, |p.extracts|, |p.evidence|)
  {
    var strings := |p.strings|;
    match i
    case Set(name, value) => FirstOf(OneDefect(name, strings), OneDefect(value, strings))
    case SetList(name, start, len) => FirstOf(OneDefect(name, strings), RangeDefect(start, len, strings))
    case Send(probe, payload) =>
      FirstOf(OneDefect(probe, strings), if payload.Some? then OneDefect(payload.value, |p.payloads|) else None)
    case Match(m) => OneDefect(m, |p.matchers|)
    case Assert(m) => OneDefect(m, |p.matchers|)
    case MatchAll(start, len) => RangeDefect(start, len, |p.matchers|)
    case MatchAny(start, len) => RangeDefect(start, len, |p.matchers|)
    case Extract(name, source) => FirstOf(OneDefect(name, strings), OneDefect(source, |p.extracts|))
    case IfMatch(m, _) => OneDefect(m, |p.matchers|)
    case ForList(item, start, len, _) => FirstOf(OneDefect(item, strings), RangeDefect(start, len, strings))
    case ForVar(item, list, _) => FirstOf(OneDefect(item, strings), OneDefect(list, strings))
    case Save(from, to) => FirstOf(OneDefect(from, strings), OneDefect(to, strings))
    case Evidence(k) => OneDefect(k, |p.evidence|)
    case Retry(probe, _) => OneDefect(probe, strings)
    case RetryDelay(d) => OneDefect(d, strings)
    case Sleep(d) => OneDefect(d, strings)
    case _ => None
  }

  function CodeDefect(p: BytecodeProgram, code: seq<Instr>): (d: Option<Defect>)
    ensures d.None? <==>
              forall i | i in code :: OperandsOk(i, |p.strings|, |p.payloads|, |p.matchers|, |p.extracts|, |p.evidence|)
  {
    hide InstrDefect, OperandsOk;
    if code == [] then None
    else
      assert code == [code[0]] + code[1..];
      FirstOf(InstrDefect(p, code[0]), CodeDefect(p, code[1..]))
  }

  // ---------- programs ----------

  predicate OkPools(p: BytecodeProgram) {
    && OkList(StrFormat(), p.strings)
    && OkList(PayloadFormat(), p.payloads)
    && OkList(MatcherFormat(), p.matchers)
    && OkList(ExtractFormat(), p.extracts)
    && OkList(EvidenceFormat(), p.evidence)
    && OkList(InstrFormat(), p.code)
  }

  /** Every length fits 32 bits and every string is valid UTF-8. */
  predicate OkProgram(p: BytecodeProgram) {
    OkMetadata(p.spec.metadata) && OkProbes(p.spec.probes) && OkPools(p)
  }

  function SizePools(p: BytecodeProgram): nat {
    SizeList(StrFormat(), p.strings) + SizeList(PayloadFormat(), p.payloads) + SizeList(MatcherFormat(), p.matchers)
    + SizeList(ExtractFormat(), p.extracts) + SizeList(EvidenceFormat(), p.evidence) + SizeList(InstrFormat(), p.code)
  }

  /** What follows the probe table; the pools come before the code. */
  function PutPools(p: BytecodeProgram, t: seq<byte>): (r: seq<byte>)
    ensures |r| == SizePools(p) + |t|
    ensures OkPools(p) ==> GetPools(p.spec, r) == Done(p, t)
  {
    hide PutList, SizeList, GetList, OkList;
    PutList(StrFormat(), p.strings,
      PutList(PayloadFormat(), p.payloads,
        PutList(MatcherFormat(), p.matchers,
          PutList(ExtractFormat(), p.extracts,
            PutList(EvidenceFormat(), p.evidence,
              PutList(InstrFormat(), p.code, t))))))
  }

  function GetPools(spec: ProgramSpec, b: seq<byte>): (r: Parse<BytecodeProgram>)
    ensures r.Done? ==> r.value.spec == spec && OkPools(r.value) && |b| == SizePools(r.value) + |r.rest|
  {
    hide SizeList, GetList, OkList;
    var (strings, b) :- GetList(StrFormat(), b);
    var (payloads, b) :- GetList(PayloadFormat(), b);
    var (matchers, b) :- GetList(MatcherFormat(), b);
    var (extracts, b) :- GetList(ExtractFormat(), b);
    var (evidence, b) :- GetList(EvidenceFormat(), b);
    var (code, b) :- GetList(InstrFormat(), b);
    Done(BytecodeProgram(spec, code, strings, payloads, matchers, extracts, evidence), b)
  }

  ghost function PutBody(p: BytecodeProgram, t: seq<byte>): (r: seq<byte>)
    ensures |r| == SizeMetadata(p.spec.metadata) + SizeProbes(p.spec.probes) + SizePools(p) + |t|
    ensures OkProgram(p) ==> GetBody(r) == Done(p, t)
  {
    hide PutPools, GetPools, OkPools, PutMetadata, GetMetadata, SizeMetadata, OkMetadata,
      PutProbes, GetProbes, SizeProbes, OkProbes, SizePools;
    PutMetadata(p.spec.metadata, PutProbes(p.spec.probes, PutPools(p, t)))
  }

  function GetBody(b: seq<byte>): (r: Parse<BytecodeProgram>)
    ensures r.Done? ==> OkProgram(r.value)
  {
    hide GetPools, OkPools, GetMetadata, OkMetadata, GetProbes, OkProbes;
    var (metadata, b) :- GetMetadata(b);
    var (probes, b) :- GetProbes(b);
    GetPools(ProgramSpec(probes, metadata), b)
  }

  function GetHeader(b: seq<byte>): (r: Parse<()>)
    ensures r.Done? ==> |b| == 5 + |r.rest| && b == MAGIC + [VERSION] + r.rest
  {
    if |b| < 4 then Bad(Corrupt(UnexpectedEnd))
    else if b[..4] != MAGIC then Bad(BadMagic)
    else
      assert b == b[..4] + b[4..];
      var (version, b) :- GetU8(b[4..]);
      if version != VERSION then Bad(BadVersion(version)) else Done((), b)
  }

  ghost function Encode(p: BytecodeProgram): seq<byte> {
    MAGIC + PutU8(VERSION, PutBody(p, []))
  }

  function Decode(b: seq<byte>): Result<BytecodeProgram, BytecodeError> {
    match GetHeader(b)
    case Bad(e) => Err(e)
    case Done(_, b) =>
      match GetBody(b)
      case Bad(e) => Err(e)
      case Done(p, b) => Admit(p, b)
  }

  /** The two final checks: nothing may follow the code, and every operand must be in range. */
  function Admit(p: BytecodeProgram, rest: seq<byte>): (r: Result<BytecodeProgram, BytecodeError>)
    ensures r.Ok? <==> rest == [] && Validated(p)
    ensures r.Ok? ==> r.value == p
    ensures rest != [] ==> r == Err(Corrupt(TrailingBytes))
  {
    if rest != [] then Err(Corrupt(TrailingBytes))
    else
      match CodeDefect(p, p.code)
      case Some(d) => Err(Corrupt(d))
      case None => Ok(p)
  }

  // ---------- laws ----------

  lemma HeaderOfEncoded(p: BytecodeProgram)
    ensures GetHeader(Encode(p)) == Done((), PutBody(p, []))
  {
    hide PutBody, GetHeader;
    HeaderOf(PutBody(p, []));
  }

  lemma HeaderOf(body: seq<byte>)
    ensures GetHeader(MAGIC + PutU8(VERSION, body)) == Done((), body)
  {
    hide PutU8, GetU8;
    var tail := PutU8(VERSION, body);
    var b := MAGIC + tail;
    assert b[..4] == MAGIC;
    assert b[4..] == tail;
  }

  /** A program survives encoding and decoding exactly when its lengths fit 32 bits, its strings are
      valid UTF-8 and its operands are in range. */
  lemma RoundTrip(p: BytecodeProgram)
    ensures Decode(Encode(p)) == Ok(p) <==> OkProgram(p) && Validated(p)
  {
    hide PutBody, GetBody, OkProgram, Validated, Encode, GetHeader, Admit;
    HeaderOfEncoded(p);
  }

  /** Only representable, validated programs come out of the decoder. */
  lemma DecodedIsOk(b: seq<byte>)
    requires Decode(b).Ok?
    ensures OkProgram(Decode(b).value) && Validated(Decode(b).value)
    ensures GetHeader(b).Done? && GetBody(GetHeader(b).rest) == Done(Decode(b).value, [])
  {
    hide GetBody, OkProgram, Validated, GetHeader, Admit;
  }

  /** The probe entries as they stand in the bytes, before later ones replace earlier ones. */
  function WrittenProbes(b: seq<byte>): seq<NamedProbe> {
    hide *;
    match GetHeader(b)
    case Bad(_) => []
    case Done(_, b) =>
      match GetMetadata(b)
      case Bad(_) => []
      case Done(_, b) =>
        match GetList(NamedProbeFormat(), b)
        case Bad(_) => []
        case Done(entries, _) => entries
  }

  lemma ProbesSize(b: seq<byte>)
    requires GetProbes(b).Done?
    ensures var entries := GetList(NamedProbeFormat(), b).value;
            var written := |b| - |GetProbes(b).rest|;
            && SizeProbes(GetProbes(b).value) <= written
            && (SizeProbes(GetProbes(b).value) == written <==> Distinct(Names(entries)))
  {
    hide GetList, SizeMany, NamedProbeFormat, Distinct, Names, Entries, TableOf;
    var entries := GetList(NamedProbeFormat(), b).value;
    TableOfSize(entries);
    EntriesSize(TableOf(entries));
  }

  lemma BodySize(b: seq<byte>)
    requires GetBody(b).Done?
    ensures GetMetadata(b).Done? && GetList(NamedProbeFormat(), GetMetadata(b).rest).Done?
    ensures var p := GetBody(b).value;
            var entries := GetList(NamedProbeFormat(), GetMetadata(b).rest).value;
            var written := |b| - |GetBody(b).rest|;
            && |PutBody(p, [])| <= written
            && (|PutBody(p, [])| == written <==> Distinct(Names(entries)))
  {
    hide GetMetadata, SizeMetadata, GetList, SizeProbes, GetPools, SizePools, PutBody, Distinct, Names, TableOf;
    ProbesSize(GetMetadata(b).rest);
  }

  /** Whatever bytes a program was read from - nonzero option and flag bytes, foreign part tags,
      unsorted or repeated probe names - writing it again and reading that gives the same program, in
      no more bytes, and in as many exactly when no probe name was repeated. */
  lemma Normalisation(b: seq<byte>)
    requires Decode(b).Ok?
    ensures Decode(Encode(Decode(b).value)) == Decode(b)
    ensures |Encode(Decode(b).value)| <= |b|
    ensures |Encode(Decode(b).value)| == |b| <==> Distinct(Names(WrittenProbes(b)))
  {
    hide GetBody, PutBody, OkProgram, Validated, GetHeader, GetMetadata, GetList, Distinct, Names;
    DecodedIsOk(b);
    RoundTrip(Decode(b).value);
    BodySize(GetHeader(b).rest);
  }

  /** Encoding is injective on what decodes, so an accepted byte string has one canonical form. */
  lemma CanonicalForm(b: seq<byte>, c: seq<byte>)
    requires Decode(b).Ok? && Decode(c).Ok?
    ensures Decode(b) == Decode(c) <==> Encode(Decode(b).value) == Encode(Decode(c).value)
  {
    hide Decode, Encode;
    Normalisation(b);
    Normalisation(c);
  }

  lemma HeaderExtends(b: seq<byte>, t: seq<byte>)
    requires GetHeader(b).Done?
    ensures GetHeader(b + t) == Done((), GetHeader(b).rest + t)
  {
    assert (b + t)[..4] == b[..4] && (b + t)[4..] == b[4..] + t;
    U8Extends();
  }

  lemma ProbesExtends(b: seq<byte>, t: seq<byte>)
    requires GetProbes(b).Done?
    ensures GetProbes(b + t) == Done(GetProbes(b).value, GetProbes(b).rest + t)
  {
    hide GetList, NamedProbeFormat, TableOf;
    ListExtends(NamedProbeFormat());
  }

  lemma PoolsExtend(spec: ProgramSpec, b: seq<byte>, t: seq<byte>)
    requires GetPools(spec, b).Done?
    ensures GetPools(spec, b + t) == Done(GetPools(spec, b).value, GetPools(spec, b).rest + t)
  {
    hide GetList;
    var b1 := ListStep(StrFormat(), b, t);
    var b2 := ListStep(PayloadFormat(), b1, t);
    var b3 := ListStep(MatcherFormat(), b2, t);
    var b4 := ListStep(ExtractFormat(), b3, t);
    var b5 := ListStep(EvidenceFormat(), b4, t);
    var b6 := ListStep(InstrFormat(), b5, t);
  }

  lemma ListStep<T(!new)>(c: ElementFormat<T>, b: seq<byte>, t: seq<byte>) returns (rest: seq<byte>)
    requires Lawful(c) && GetList(c, b).Done?
    ensures rest == GetList(c, b).rest
    ensures GetList(c, b + t) == Done(GetList(c, b).value, rest + t)
  {
    hide GetList;
    ListExtends(c);
    rest := GetList(c, b).rest;
  }

  lemma BodyExtends(b: seq<byte>, t: seq<byte>)
    requires GetBody(b).Done?
    ensures GetBody(b + t) == Done(GetBody(b).value, GetBody(b).rest + t)
  {
    hide GetMetadata, GetProbes, GetPools;
    MetadataExtends();
    var metadata := GetMetadata(b);
    ProbesExtends(metadata.rest, t);
    var probes := GetProbes(metadata.rest);
    PoolsExtend(ProgramSpec(probes.value, metadata.value), probes.rest, t);
  }

  /** No accepted byte string is a proper prefix of another: whatever follows one is reported. */
  lemma PrefixFree(b: seq<byte>, t: seq<byte>)
    requires Decode(b).Ok? && t != []
    ensures Decode(b + t) == Err(Corrupt(TrailingBytes))
  {
    hide GetBody, GetHeader;
    DecodedIsOk(b);
    HeaderExtends(b, t);
    BodyExtends(GetHeader(b).rest, t);
    assert [] + t == t;
  }

  /** Every proper prefix of an accepted byte string is rejected. */
  lemma TruncationRejected(b: seq<byte>, n: nat)
    requires Decode(b).Ok? && n < |b|
    ensures Decode(b[..n]).Err?
  {
    hide Decode;
    assert b[..n] + b[n..] == b;
    if Decode(b[..n]).Ok? {
      PrefixFree(b[..n], b[n..]);
    }
  }
}
