/** Template expansion in imperative form: one pass over the characters of a string, with byte offsets for
    slicing. It agrees with the byte-wise definition, and undoes rendering. */
module Interpolation {
  import opened Prelude
  import opened Runtime
  import opened Template
  import Utf8

  // ---------- character boundaries ----------

  /** `&s[i..]`, which panics anywhere but at a character boundary. */
  function From(s: Str, i: nat): Str
    requires Utf8.IsCharBoundary(s, i)
  {
    s[i..]
  }

  /** `&s[..i]`, which panics likewise. */
  function UpTo(s: Str, i: nat): Str
    requires Utf8.IsCharBoundary(s, i)
  {
    s[..i]
  }

  /** `parse_placeholder` with its slice taken at a character boundary. */
  function Parse(rest: Str): (r: Option<Placeholder>)
    ensures r == ParsePlaceholder(rest)
  {
    hide FindClose, Trim, IsIdent;
    match FindClose(rest)
    case None => None
    case Some(close) =>
      var name := Trim(UpTo(rest, close));
      if IsIdent(name) then Some(Placeholder(close + 2, name)) else None
  }

  /** The offset of the character after the one at `at`. */
  function NextChar(s: Str, at: nat): (next: nat)
    requires Utf8.ValidUtf8(s) && at < |s| && Utf8.IsCharBoundary(s, at)
    ensures at < next <= |s| && Utf8.IsCharBoundary(s, next)
    ensures forall i | at < i < next :: Utf8.IsContinuation(s[i])
    ensures s[at] < 0x80 ==> next == at + 1
  {
    Utf8.BoundaryIffValidRest(s, at);
    var rest := s[at..];
    var w := Utf8.CharLen(rest);
    assert rest[w..] == s[at + w..];
    Utf8.BoundaryIffValidRest(s, at + w);
    assert forall i | at < i < at + w :: s[i] == rest[..w][i - at];
    assert s[at] == rest[..w][0];
    at + w
  }

  /** A byte below 0x80 is a whole character. */
  lemma AfterAscii(s: Str, i: nat)
    requires Utf8.ValidUtf8(s) && i < |s| && s[i] < 0x80
    ensures Utf8.IsCharBoundary(s, i + 1)
  {
    var next := NextChar(s, i);
  }

  /** The loop's test for a placeholder at `index`: two opening braces and a well-formed rest. */
  function PlaceholderFrom(template: Str, index: nat): (r: Option<Placeholder>)
    requires Utf8.ValidUtf8(template) && index < |template|
    ensures r == PlaceholderAt(template[index..])
  {
    hide Parse, ParsePlaceholder, Utf8.ValidUtf8;
    var here := template[index..];
    if template[index] == OPEN && index + 1 < |template| && template[index + 1] == OPEN then
      AfterAscii(template, index + 1);
      assert here[2..] == template[index + 2..];
      match Parse(From(template, index + 2))
      case Some(p) => Some(Placeholder(p.end + 2, p.name))
      case None => None
    else None
  }

  /** One step: the character at `at` is copied unless a placeholder starts there. */
  lemma CopyChar(t: Str, at: nat, variables: Variables)
    requires Utf8.ValidUtf8(t) && at < |t| && Utf8.IsCharBoundary(t, at) && PlaceholderAt(t[at..]).None?
    ensures var next := NextChar(t, at);
            Interpolate(t[at..], variables) == Prepend(t[at..next], Interpolate(t[next..], variables))
  {
    var next := NextChar(t, at);
    var rest := t[at..];
    assert rest[..next - at] == t[at..next] && rest[next - at..] == t[next..];
    if rest[0] != OPEN {
      forall i | 0 <= i < next - at ensures rest[i] != OPEN {
        assert i > 0 ==> Utf8.IsContinuation(t[at + i]);
      }
      CopyRun(rest, next - at, variables);
    } else {
      assert [rest[0]] == t[at..next];
    }
  }

  /** The loop over `char_indices`. */
  method Expand(template: Str, variables: Variables) returns (r: Result<Str, RuntimeError>)
    requires Utf8.ValidUtf8(template)
    ensures r == Interpolate(template, variables) == Emitted(Tokens(template), variables)
  {
    hide Interpolate, Utf8.ValidUtf8, PlaceholderAt, PlaceholderFrom, NextChar, Emitted, Tokens;
    TokensPartition(template, variables);
    var output: Str := [];
    var at := 0;
    assert template[0..] == template;
    assert Utf8.IsCharBoundary(template, 0) by { Utf8.BoundaryIffValidRest(template, 0); }
    PrependNothing(Interpolate(template, variables));
    while at < |template|
      invariant at <= |template| && Utf8.IsCharBoundary(template, at)
      invariant Interpolate(template, variables) == Prepend(output, Interpolate(template[at..], variables))
    {
      var index := at;
      ghost var here := template[index..];
      at := NextChar(template, at);
      var placeholder := PlaceholderFrom(template, index);
      if placeholder.Some? {
        var name, end := placeholder.value.name, placeholder.value.end;
        Unfold(here, variables);
        var value :- ResolveScalar(name, variables);
        PrependPrepend(output, value, Interpolate(here[end..], variables));
        output := output + value;
        var target := index + end;
        assert template[target - 1] == here[end - 1];
        AfterAscii(template, target - 1);
        // No character straddles `target`, so the skipping stops exactly there.
        while at < target
          invariant at <= target && Utf8.IsCharBoundary(template, at)
        {
          at := NextChar(template, at);
        }
        assert here[end..] == template[target..];
        continue;
      }
      CopyChar(template, index, variables);
      PrependPrepend(output, template[index..at], Interpolate(template[at..], variables));
      output := output + template[index..at];
    }
    FoldEnd(template, output, variables);
    return Ok(output);
  }

  lemma Unfold(t: Str, variables: Variables)
    requires PlaceholderAt(t).Some?
    ensures var p := PlaceholderAt(t).value;
            Interpolate(t, variables)
            == match ResolveScalar(p.name, variables)
               case Err(e) => Err(e)
               case Ok(value) => Prepend(value, Interpolate(t[p.end..], variables))
  {
  }

  lemma FoldEnd(template: Str, output: Str, variables: Variables)
    ensures Prepend(output, Interpolate(template[|template|..], variables)) == Ok(output)
  {
    assert template[|template|..] == [];
    assert output + [] == output;
  }

  /** The result is again a string. */
  lemma {:induction false} OutputIsValid(t: Str, variables: Variables)
    requires Utf8.ValidUtf8(t) && forall n | n in variables :: variables[n].Text? ==> Utf8.ValidUtf8(variables[n].text)
    ensures Interpolate(t, variables).Ok? ==> Utf8.ValidUtf8(Interpolate(t, variables).value)
    decreases |t|
  {
    hide Utf8.CharLen, Utf8.IsCharBoundary, PlaceholderAt, NextChar;
    if t != [] {
      Utf8.BoundaryIffValidRest(t, 0);
      assert t[0..] == t;
      match PlaceholderAt(t)
      case Some(p) =>
        AfterAscii(t, p.end - 1);
        Utf8.BoundaryIffValidRest(t, p.end);
        OutputIsValid(t[p.end..], variables);
        if Interpolate(t, variables).Ok? {
          Utf8.ValidConcat(ResolveScalar(p.name, variables).value, Interpolate(t[p.end..], variables).value);
        }
      case None =>
        var next := NextChar(t, 0);
        CopyChar(t, 0, variables);
        Utf8.BoundaryIffValidRest(t, next);
        OutputIsValid(t[next..], variables);
        OneChar(t);
        if Interpolate(t, variables).Ok? {
          Utf8.ValidConcat(t[..next], Interpolate(t[next..], variables).value);
        }
    }
  }

  lemma OneChar(t: Str)
    requires Utf8.ValidUtf8(t) && t != [] && Utf8.IsCharBoundary(t, 0)
    ensures Utf8.ValidUtf8(t[0..NextChar(t, 0)])
  {
    var w := NextChar(t, 0);
    assert t[0..] == t;
    var c := t[0..w];
    assert c == t[..w] && c[..w] == c;
    assert c[w..] == [];
  }

  // ---------- a template's bytes, each used once ----------

  /** A stretch of a template: copied as it stands, or a placeholder that is replaced. */
  datatype Token = Copied(source: Str) | Replaced(source: Str, name: Str)

  function Tokens(t: Str): seq<Token>
    decreases |t|
  {
    if t == [] then []
    else
      match PlaceholderAt(t)
      case Some(p) => [Replaced(t[..p.end], p.name)] + Tokens(t[p.end..])
      case None => [Copied(t[..1])] + Tokens(t[1..])
  }

  function Sources(ts: seq<Token>): Str {
    if ts == [] then [] else ts[0].source + Sources(ts[1..])
  }

  predicate NamesList(t: Token, variables: Variables) {
    t.Replaced? && t.name in variables && variables[t.name].List?
  }

  /** What stands in the output for one token: its bytes, the text its name is bound to, or nothing. */
  function TextOf(t: Token, variables: Variables): Str {
    match t
    case Copied(source) => source
    case Replaced(_, name) =>
      if name in variables && variables[name].Text? then variables[name].text else []
  }

  function Joined(ts: seq<Token>, variables: Variables): Str {
    if ts == [] then [] else TextOf(ts[0], variables) + Joined(ts[1..], variables)
  }

  /** The position of the first token that names a list; the length when none does. */
  function FirstList(ts: seq<Token>, variables: Variables): (k: nat)
    ensures k <= |ts| && (k < |ts| ==> NamesList(ts[k], variables))
    ensures forall i | 0 <= i < k :: !NamesList(ts[i], variables)
  {
    if ts == [] || NamesList(ts[0], variables) then 0
    else
      var k := FirstList(ts[1..], variables);
      assert forall i | 1 <= i < |ts| :: ts[i] == ts[1..][i - 1];
      k + 1
  }

  /** The output told from the variables alone: all texts in order, never looked at again, unless some token
      names a list, of which the first is the error. */
  function Emitted(ts: seq<Token>, variables: Variables): Result<Str, RuntimeError> {
    var k := FirstList(ts, variables);
    if k < |ts| then Err(Other(ListAsString(ts[k].name))) else Ok(Joined(ts, variables))
  }

  lemma EmittedCons(t: Token, rest: seq<Token>, variables: Variables)
    ensures Emitted([t] + rest, variables)
         == if NamesList(t, variables) then Err(Other(ListAsString(t.name)))
            else Prepend(TextOf(t, variables), Emitted(rest, variables))
  {
    var ts := [t] + rest;
    assert ts[0] == t && ts[1..] == rest;
  }

  /** Every byte of the template is either copied once or lies in exactly one placeholder, and the expansion
      is what its tokens emit. */
  lemma {:induction false} TokensPartition(t: Str, variables: Variables)
    ensures Sources(Tokens(t)) == t
    ensures Interpolate(t, variables) == Emitted(Tokens(t), variables)
    decreases |t|
  {
    hide PlaceholderAt, Prepend, Emitted;
    if t == [] {
      assert Emitted([], variables) == Ok([]) by { EmittedNothing(variables); }
    } else {
      var end := if PlaceholderAt(t).Some? then PlaceholderAt(t).value.end else 1;
      TokensPartition(t[end..], variables);
      EmittedCons(Tokens(t)[0], Tokens(t[end..]), variables);
      assert Tokens(t)[1..] == Tokens(t[end..]);
      assert t == t[..end] + t[end..];
      assert t[..1] == [t[0]];
      if PlaceholderAt(t).Some? {
        PrependNothing(Interpolate(t[end..], variables));
      }
    }
  }

  lemma EmittedNothing(variables: Variables)
    ensures Emitted([], variables) == Ok([])
  {
  }

  // ---------- rendering and expanding ----------

  /** A template in parts; the padding of a hole is any sequence of white-space characters. */
  datatype Segment =
    | Literal(text: Str)
    | Hole(before: seq<Str>, name: Str, after: seq<Str>)

  function Flat(parts: seq<Str>): Str {
    if parts == [] then [] else parts[0] + Flat(parts[1..])
  }

  function Body(h: Segment): Str
    requires h.Hole?
  {
    Flat(h.before) + h.name + Flat(h.after)
  }

  function RenderOne(s: Segment): Str {
    match s
    case Literal(text) => text
    case Hole(_, _, _) => [OPEN, OPEN] + Body(s) + [CLOSE, CLOSE]
  }

  function Render(segments: seq<Segment>): Str {
    if segments == [] then [] else RenderOne(segments[0]) + Render(segments[1..])
  }

  function TokenOf(s: Segment): Token {
    match s
    case Literal(text) => Copied(text)
    case Hole(_, name, _) => Replaced(RenderOne(s), name)
  }

  function TokensOf(segments: seq<Segment>): (r: seq<Token>)
    ensures |r| == |segments| && forall i | 0 <= i < |r| :: r[i] == TokenOf(segments[i])
  {
    if segments == [] then [] else [TokenOf(segments[0])] + TokensOf(segments[1..])
  }

  predicate Padding(parts: seq<Str>) {
    forall c | c in parts :: IsSpace(c)
  }

  predicate NoOpening(s: Str) {
    forall i | 0 <= i < |s| - 1 :: !(s[i] == OPEN && s[i + 1] == OPEN)
  }

  predicate SegmentOk(s: Segment) {
    match s
    case Literal(text) => NoOpening(text)
    case Hole(before, name, after) => Padding(before) && IsIdent(name) && Padding(after)
  }

  /** Literals hold no `{{`, and no two stand side by side. */
  predicate Renderable(segments: seq<Segment>) {
    && (forall i | 0 <= i < |segments| :: SegmentOk(segments[i]))
    && (forall i | 0 <= i < |segments| - 1 :: !(segments[i].Literal? && segments[i + 1].Literal?))
  }

  /** White space starts and ends with a byte above 0x7F, or is a single control or space byte. */
  lemma SpaceBytes(c: Str)
    ensures IsSpace(c) ==> 1 <= |c| <= 3
    ensures IsSpace(c) && |c| == 1 ==> 0x09 <= c[0] <= 0x0D || c[0] == 0x20
    ensures IsSpace(c) && |c| > 1 ==> c[0] >= 0xC2 && (c[0] == 0xC2 <==> |c| == 2)
    ensures IsSpace(c) && |c| > 1 ==> forall i | 0 <= i < |c| :: c[i] >= 0x80
    ensures IsSpace(c) ==> forall i | 1 <= i < |c| :: c[i] < 0xC2
  {
  }

  lemma SpaceLeads(c: Str, rest: Str)
    requires IsSpace(c)
    ensures LeadingSpace(c + rest) == |c|
  {
    hide IsSpace;
    var s := c + rest;
    SpaceBytes(c);
    SpaceBytes(s[..1]);
    assert s[..|c|] == c && s[0] == c[0];
    if |s| >= 2 {
      SpaceBytes(s[..2]);
    }
  }

  lemma SpaceTrails(rest: Str, c: Str)
    requires IsSpace(c)
    ensures TrailingSpace(rest + c) == |c|
  {
    hide IsSpace;
    var s := rest + c;
    SpaceBytes(c);
    SpaceBytes(s[|s| - 1..]);
    assert s[|s| - |c|..] == c && s[|s| - 1] == c[|c| - 1];
    if |s| >= 2 {
      SpaceBytes(s[|s| - 2..]);
      assert |c| >= 2 ==> s[|s| - 2] == c[|c| - 2];
    }
  }

  /** What starts with an ASCII byte other than white space has nothing to trim in front. */
  lemma NothingLeads(s: Str)
    requires s != [] && s[0] < 0x80 && (s[0] == OPEN || IsLetter(s[0]))
    ensures LeadingSpace(s) == 0
  {
    hide IsSpace;
    SpaceBytes(s[..1]);
    if |s| >= 2 {
      SpaceBytes(s[..2]);
    }
    if |s| >= 3 {
      SpaceBytes(s[..3]);
    }
  }

  lemma NoSpaceEndsWith(s: Str, w: nat)
    requires 1 <= w <= |s| && (IsLetter(s[|s| - 1]) || IsDigit(s[|s| - 1]))
    ensures !IsSpace(s[|s| - w..])
  {
    hide IsSpace;
    var c := s[|s| - w..];
    assert c[w - 1] == s[|s| - 1];
    SpaceBytes(c);
  }

  lemma NothingTrails(s: Str)
    requires s != [] && (IsLetter(s[|s| - 1]) || IsDigit(s[|s| - 1]))
    ensures TrailingSpace(s) == 0
  {
    hide IsSpace;
    var n := |s|;
    NoSpaceEndsWith(s, 1);
    assert !IsSpace(s[n - 1..]);
    if n >= 2 {
      NoSpaceEndsWith(s, 2);
      assert !IsSpace(s[n - 2..]);
    }
    if n >= 3 {
      NoSpaceEndsWith(s, 3);
      assert !IsSpace(s[n - 3..]);
    }
  }

  lemma {:induction false} TrimStartSkips(before: seq<Str>, rest: Str)
    requires Padding(before) && rest != [] && IsLetter(rest[0])
    ensures TrimStart(Flat(before) + rest) == rest
  {
    hide LeadingSpace, IsSpace;
    var s := Flat(before) + rest;
    if before == [] {
      assert s == rest;
      NothingLeads(s);
    } else {
      var c := before[0];
      assert s == c + (Flat(before[1..]) + rest);
      SpaceLeads(c, Flat(before[1..]) + rest);
      SpaceBytes(c);
      assert s[|c|..] == Flat(before[1..]) + rest;
      TrimStartSkips(before[1..], rest);
    }
  }

  lemma {:induction false} FlatSnoc(parts: seq<Str>, c: Str)
    ensures Flat(parts + [c]) == Flat(parts) + c
  {
    if parts == [] {
      assert parts + [c] == [c];
    } else {
      assert (parts + [c])[1..] == parts[1..] + [c];
      FlatSnoc(parts[1..], c);
    }
  }

  lemma {:induction false} TrimEndSkips(rest: Str, after: seq<Str>)
    requires Padding(after) && rest != [] && (IsLetter(rest[|rest| - 1]) || IsDigit(rest[|rest| - 1]))
    ensures TrimEnd(rest + Flat(after)) == rest
    decreases |after|
  {
    hide TrailingSpace, IsSpace;
    var s := rest + Flat(after);
    if after == [] {
      assert s == rest;
      NothingTrails(s);
    } else {
      var init, c := after[..|after| - 1], after[|after| - 1];
      assert after == init + [c] && c in after;
      FlatSnoc(init, c);
      assert s == (rest + Flat(init)) + c;
      SpaceTrails(rest + Flat(init), c);
      SpaceBytes(c);
      assert s[..|s| - |c|] == rest + Flat(init);
      TrimEndSkips(rest, init);
    }
  }

  lemma TrimPadded(before: seq<Str>, name: Str, after: seq<Str>)
    requires Padding(before) && IsIdent(name) && Padding(after)
    ensures Trim(Flat(before) + name + Flat(after)) == name
  {
    hide IsSpace, TrimStart, TrimEnd, Flat, Padding;
    assert Flat(before) + name + Flat(after) == Flat(before) + (name + Flat(after));
    assert (name + Flat(after))[0] == name[0];
    TrimStartSkips(before, name + Flat(after));
    TrimEndSkips(name, after);
  }

  /** Text that starts with `{` is no identifier, however it is trimmed. */
  lemma {:induction false} TrimEndIsPrefix(s: Str)
    ensures TrimEnd(s) <= s
    decreases |s|
  {
    if TrailingSpace(s) != 0 {
      TrimEndIsPrefix(s[..|s| - TrailingSpace(s)]);
    }
  }

  lemma BraceIsNoIdent(s: Str)
    requires s != [] && s[0] == OPEN
    ensures !IsIdent(Trim(s))
  {
    hide IsSpace, LeadingSpace;
    NothingLeads(s);
    TrimEndIsPrefix(s);
  }

  lemma FirstClose(body: Str, tail: Str)
    requires forall i | 0 <= i < |body| :: body[i] != CLOSE
    ensures FindClose(body + [CLOSE, CLOSE] + tail) == Some(|body|)
  {
    hide FindClose;
    var s := body + [CLOSE, CLOSE] + tail;
    assert s[|body|] == CLOSE && s[|body| + 1] == CLOSE;
  }

  lemma {:induction false} PaddingHasNoClose(parts: seq<Str>)
    requires Padding(parts)
    ensures forall i | 0 <= i < |Flat(parts)| :: Flat(parts)[i] != CLOSE
  {
    hide IsSpace;
    if parts != [] {
      SpaceBytes(parts[0]);
      PaddingHasNoClose(parts[1..]);
    }
  }

  lemma BodyHasNoClose(h: Segment)
    requires h.Hole? && SegmentOk(h)
    ensures forall i | 0 <= i < |Body(h)| :: Body(h)[i] != CLOSE
  {
    hide IsSpace;
    PaddingHasNoClose(h.before);
    PaddingHasNoClose(h.after);
  }

  lemma HoleParses(h: Segment, tail: Str)
    requires h.Hole? && SegmentOk(h)
    ensures PlaceholderAt(RenderOne(h) + tail) == Some(Placeholder(|RenderOne(h)|, h.name))
  {
    hide FindClose, Trim, IsIdent, Flat, IsSpace;
    var body := Body(h);
    var t := RenderOne(h) + tail;
    assert t[2..] == body + [CLOSE, CLOSE] + tail;
    BodyHasNoClose(h);
    FirstClose(body, tail);
    assert t[2..][..|body|] == body;
    TrimPadded(h.before, h.name, h.after);
  }

  lemma SpaceIsTrimmed(s: Str)
    ensures LeadingSpace(s) > 0 ==> IsSpace(s[..LeadingSpace(s)])
    ensures TrailingSpace(s) > 0 ==> IsSpace(s[|s| - TrailingSpace(s)..])
  {
    hide IsSpace;
  }

  lemma Regroup(a: Str, b: Str, c: Str)
    ensures (a + b) + c == a + (b + c)
  {
  }

  lemma {:induction false} TrimStartDrops(s: Str) returns (before: seq<Str>)
    ensures Padding(before) && s == Flat(before) + TrimStart(s)
    decreases |s|
  {
    hide IsSpace, LeadingSpace;
    SpaceIsTrimmed(s);
    var w := LeadingSpace(s);
    before := [];
    if w > 0 {
      var c, rest := s[..w], s[w..];
      var more := TrimStartDrops(rest);
      before := [c] + more;
      assert before[1..] == more;
      Regroup(c, Flat(more), TrimStart(rest));
      assert s == c + rest;
    }
  }

  lemma {:induction false} TrimEndDrops(s: Str) returns (after: seq<Str>)
    ensures Padding(after) && s == TrimEnd(s) + Flat(after)
    decreases |s|, 0
  {
    hide IsSpace, TrailingSpace;
    SpaceIsTrimmed(s);
    var w := TrailingSpace(s);
    after := [];
    if w > 0 {
      var init, c := s[..|s| - w], s[|s| - w..];
      after := AddSpace(init, c);
      assert s == init + c;
    }
  }

  lemma {:induction false} AddSpace(init: Str, c: Str) returns (after: seq<Str>)
    requires IsSpace(c)
    ensures Padding(after) && init + c == TrimEnd(init) + Flat(after)
    decreases |init|, 1
  {
    hide IsSpace, Flat, TrimEnd;
    var more := TrimEndDrops(init);
    after := more + [c];
    FlatSnoc(more, c);
    Regroup(TrimEnd(init), Flat(more), c);
  }

  /** Every placeholder recognised is a rendered hole: an identifier between white space between braces. */
  lemma PlaceholderIsRendered(t: Str) returns (h: Segment)
    requires PlaceholderAt(t).Some?
    ensures h.Hole? && SegmentOk(h)
    ensures PlaceholderAt(t) == Some(Placeholder(|RenderOne(h)|, h.name)) && RenderOne(h) <= t
  {
    hide FindClose, IsIdent, TrimStart, TrimEnd, Flat, IsSpace;
    var p := PlaceholderAt(t).value;
    var inner := t[2..][..p.end - 4];
    assert Some(p.end - 4) == FindClose(t[2..]) && p.name == Trim(inner);
    var before := TrimStartDrops(inner);
    var after := TrimEndDrops(TrimStart(inner));
    h := Hole(before, p.name, after);
    assert inner == Body(h);
    assert t[..p.end] == [OPEN, OPEN] + inner + [CLOSE, CLOSE];
    assert RenderOne(h) == t[..p.end];
  }

  /** A lone `{` just before a hole starts no placeholder. */
  lemma BraceBeforeHole(h: Segment, tail: Str)
    requires h.Hole? && SegmentOk(h)
    ensures PlaceholderAt([OPEN] + (RenderOne(h) + tail)).None?
  {
    hide FindClose, Trim, IsIdent, Flat, IsSpace;
    var body := [OPEN] + Body(h);
    var t := [OPEN] + (RenderOne(h) + tail);
    assert t[2..] == body + [CLOSE, CLOSE] + tail;
    BodyHasNoClose(h);
    FirstClose(body, tail);
    assert t[2..][..|body|] == body;
    BraceIsNoIdent(body);
  }

  /** A literal is copied, whatever segment follows it. */
  lemma {:induction false} LiteralCopied(text: Str, next: seq<Segment>, variables: Variables)
    requires NoOpening(text) && (next == [] || (next[0].Hole? && SegmentOk(next[0])))
    ensures Interpolate(text + Render(next), variables) == Prepend(text, Interpolate(Render(next), variables))
    decreases |text|
  {
    hide ParsePlaceholder, RenderOne;
    var t := text + Render(next);
    if text == [] {
      assert t == Render(next);
      PrependNothing(Interpolate(t, variables));
    } else {
      assert t[1..] == text[1..] + Render(next);
      assert PlaceholderAt(t).None? by {
        if |text| == 1 && next != [] {
          BraceBeforeHole(next[0], Render(next[1..]));
          assert text[0] == OPEN ==> t == [OPEN] + (RenderOne(next[0]) + Render(next[1..]));
        } else if |text| >= 2 {
          assert t[0] == text[0] && t[1] == text[1];
        }
      }
      LiteralCopied(text[1..], next, variables);
      PrependPrepend([text[0]], text[1..], Interpolate(Render(next), variables));
      assert [text[0]] + text[1..] == text;
    }
  }

  /** Expanding a rendered template: literals stand verbatim, each hole gives the text its name is bound to
      or nothing, and nothing is scanned again; the first hole bound to a list is the error. */
  lemma {:induction false} RenderRoundTrip(segments: seq<Segment>, variables: Variables)
    requires Renderable(segments)
    ensures Interpolate(Render(segments), variables) == Emitted(TokensOf(segments), variables)
  {
    hide PlaceholderAt, RenderOne, SegmentOk, Emitted, Prepend;
    if segments == [] {
      EmittedNothing(variables);
    } else {
      var first, rest := segments[0], segments[1..];
      assert forall i | 0 <= i < |rest| :: rest[i] == segments[i + 1];
      RenderRoundTrip(rest, variables);
      FirstSegment(first, rest, variables);
      EmittedCons(TokenOf(first), TokensOf(rest), variables);
    }
  }

  lemma FirstSegment(first: Segment, rest: seq<Segment>, variables: Variables)
    requires SegmentOk(first) && (rest != [] ==> SegmentOk(rest[0]) && !(first.Literal? && rest[0].Literal?))
    ensures Interpolate(RenderOne(first) + Render(rest), variables)
         == if NamesList(TokenOf(first), variables) then Err(Other(ListAsString(first.name)))
            else Prepend(TextOf(TokenOf(first), variables), Interpolate(Render(rest), variables))
  {
    hide PlaceholderAt, Render, IsIdent, Padding;
    match first
    case Literal(text) => LiteralCopied(text, rest, variables);
    case Hole(_, _, _) =>
      var t := RenderOne(first) + Render(rest);
      HoleParses(first, Render(rest));
      Unfold(t, variables);
      assert t[|RenderOne(first)|..] == Render(rest);
      PrependNothing(Interpolate(Render(rest), variables));
  }

  /** The smallest case spelt out: a text, a variable and a text. */
  lemma OneHole(a: Str, hole: Segment, b: Str, variables: Variables)
    requires NoOpening(a) && NoOpening(b) && hole.Hole? && SegmentOk(hole)
    ensures var r := Interpolate(a + RenderOne(hole) + b, variables);
            && (hole.name !in variables ==> r == Ok(a + b))
            && (hole.name in variables && variables[hole.name].Text? ==> r == Ok(a + variables[hole.name].text + b))
            && (hole.name in variables && variables[hole.name].List? ==> r == Err(Other(ListAsString(hole.name))))
  {
    hide Interpolate, RenderOne, NoOpening, IsIdent, Padding;
    var segments := [Literal(a), hole, Literal(b)];
    assert segments[1..] == [hole, Literal(b)] && segments[2..] == [Literal(b)];
    assert Render([Literal(b)]) == b by { RenderLast(b); }
    assert Render(segments) == a + (RenderOne(hole) + b) by { RenderLast(a); }
    assert a + (RenderOne(hole) + b) == a + RenderOne(hole) + b;
    RenderRoundTrip(segments, variables);
    var ts := TokensOf(segments);
    assert ts == [Copied(a), TokenOf(hole), Copied(b)];
    assert ts == [Copied(a)] + ([TokenOf(hole)] + ([Copied(b)] + []));
    EmittedNothing(variables);
    EmittedCons(Copied(b), [], variables);
    EmittedCons(TokenOf(hole), [Copied(b)] + [], variables);
    EmittedCons(Copied(a), [TokenOf(hole)] + ([Copied(b)] + []), variables);
    assert b + [] == b && [] + b == b;
    if hole.name in variables && variables[hole.name].Text? {
      assert a + (variables[hole.name].text + b) == a + variables[hole.name].text + b;
    }
  }

  lemma RenderLast(text: Str)
    ensures RenderOne(Literal(text)) == text
    ensures Render([Literal(text)]) == text
  {
    assert [Literal(text)][1..] == [];
    assert text + [] == text;
  }

  /** A rendered template fails exactly when some identifier in it is bound to a list. */
  lemma RenderFailsOnLists(segments: seq<Segment>, variables: Variables)
    requires Renderable(segments)
    ensures Interpolate(Render(segments), variables).Err? <==>
              exists i | 0 <= i < |segments| ::
                segments[i].Hole? && segments[i].name in variables && variables[segments[i].name].List?
  {
    hide Interpolate, Renderable, Render, RenderOne;
    RenderRoundTrip(segments, variables);
    var ts := TokensOf(segments);
    assert forall i | 0 <= i < |segments| ::
        NamesList(ts[i], variables) <==>
          segments[i].Hole? && segments[i].name in variables && variables[segments[i].name].List?;
  }

  // ---------- names and white space ----------

  /** Identifiers: letters, digits and underscores, and no digit first. */
  lemma IdentIff(name: Str)
    ensures IsIdent(name) <==>
              && name != []
              && (forall b | b in name :: 0x30 <= b <= 0x39 || 0x41 <= b <= 0x5A || b == 0x5F || 0x61 <= b <= 0x7A)
              && !(0x30 <= name[0] <= 0x39)
  {
    if IsIdent(name) {
      forall b | b in name ensures IsLetter(b) || IsDigit(b) {
        var i :| 0 <= i < |name| && name[i] == b;
      }
    } else {
      assert forall i | 0 <= i < |name| :: name[i] in name;
    }
  }

  /** Code points with the Unicode White_Space property. */
  predicate WhiteSpace(c: nat) {
    || 0x09 <= c <= 0x0D || c == 0x20 || c == 0x85 || c == 0xA0 || c == 0x1680 || 0x2000 <= c <= 0x200A
    || c == 0x2028 || c == 0x2029 || c == 0x202F || c == 0x205F || c == 0x3000
  }

  /** The table of white space is that property's. */
  lemma SpaceTable(s: Str)
    ensures IsSpace(s) <==> exists c: nat | WhiteSpace(c) :: s == Utf8.EncodeChar(c)
  {
    if IsSpace(s) {
      var c := CodeOfSpace(s);
    }
    if c: nat :| WhiteSpace(c) && s == Utf8.EncodeChar(c) {
      CodeIsSpace(c);
    }
  }

  lemma CodeIsSpace(c: nat)
    requires WhiteSpace(c)
    ensures IsSpace(Utf8.EncodeChar(c))
  {
  }

  lemma CodeOfSpace(s: Str) returns (c: nat)
    requires IsSpace(s)
    ensures WhiteSpace(c) && s == Utf8.EncodeChar(c)
  {
    if |s| == 1 {
      c := s[0];
    } else if |s| == 2 {
      c := (s[0] as int - 0xC0) * 0x40 + (s[1] - 0x80);
    } else {
      c := (s[0] as int - 0xE0) * 0x1000 + (s[1] as int - 0x80) * 0x40 + (s[2] - 0x80);
    }
  }
}
