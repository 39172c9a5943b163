/** `{{ name }}` expansion: the byte-wise definition and its basic laws. */
module Template {
  import opened Prelude
  import opened Runtime

  const OPEN: byte := 0x7B   // '{'
  const CLOSE: byte := 0x7D  // '}'

  /** Bytes of the white-space character that starts `s` (Unicode White_Space); 0 when none does. */
  function LeadingSpace(s: Str): (w: nat)
    ensures w <= |s| && w <= 3
  {
    if |s| >= 1 && IsSpace(s[..1]) then 1
    else if |s| >= 2 && IsSpace(s[..2]) then 2
    else if |s| >= 3 && IsSpace(s[..3]) then 3
    else 0
  }

  function TrailingSpace(s: Str): (w: nat)
    ensures w <= |s| && w <= 3
  {
    if |s| >= 1 && IsSpace(s[|s| - 1..]) then 1
    else if |s| >= 2 && IsSpace(s[|s| - 2..]) then 2
    else if |s| >= 3 && IsSpace(s[|s| - 3..]) then 3
    else 0
  }

  predicate IsSpace(c: Str) {
    || (|c| == 1 && (0x09 <= c[0] <= 0x0D || c[0] == 0x20))
    || (|c| == 2 && c[0] == 0xC2 && (c[1] == 0x85 || c[1] == 0xA0))
    || c == [0xE1, 0x9A, 0x80]
    || (|c| == 3 && c[0] == 0xE2 && c[1] == 0x80
        && (0x80 <= c[2] <= 0x8A || c[2] == 0xA8 || c[2] == 0xA9 || c[2] == 0xAF))
    || c == [0xE2, 0x81, 0x9F]
    || c == [0xE3, 0x80, 0x80]
  }

  function TrimStart(s: Str): (r: Str)
    ensures |r| <= |s|
    decreases |s|
  {
    if LeadingSpace(s) == 0 then s else TrimStart(s[LeadingSpace(s)..])
  }

  function TrimEnd(s: Str): (r: Str)
    ensures |r| <= |s|
    decreases |s|
  {
    if TrailingSpace(s) == 0 then s else TrimEnd(s[..|s| - TrailingSpace(s)])
  }

  function Trim(s: Str): Str { TrimEnd(TrimStart(s)) }

  predicate IsLetter(b: byte) { 0x41 <= b <= 0x5A || 0x61 <= b <= 0x7A || b == 0x5F }

  predicate IsDigit(b: byte) { 0x30 <= b <= 0x39 }

  predicate IsIdent(name: Str) {
    && |name| > 0
    && IsLetter(name[0])
    && forall i | 1 <= i < |name| :: IsLetter(name[i]) || IsDigit(name[i])
  }

  /** Offset of the first `}}`. */
  function FindClose(s: Str): (r: Option<nat>)
    ensures r.Some? ==> r.value + 2 <= |s| && s[r.value] == CLOSE && s[r.value + 1] == CLOSE
    ensures forall i | 0 <= i && i + 1 < |s| && (r.Some? ==> i < r.value) :: !(s[i] == CLOSE && s[i + 1] == CLOSE)
  {
    if |s| < 2 then None
    else if s[0] == CLOSE && s[1] == CLOSE then Some(0)
    else
      match FindClose(s[1..])
      case None =>
        assert forall i | 1 <= i && i + 1 < |s| :: s[i] == s[1..][i - 1] && s[i + 1] == s[1..][i];
        None
      case Some(k) =>
        assert forall i | 1 <= i && i + 1 < |s| :: s[i] == s[1..][i - 1] && s[i + 1] == s[1..][i];
        Some(k + 1)
  }

  datatype Placeholder = Placeholder(end: nat, name: Str)

  /** What `parse_placeholder` finds just after `{{`: the offset past the first `}}` and the name. */
  function ParsePlaceholder(rest: Str): (r: Option<Placeholder>)
    ensures r.Some? ==> 2 <= r.value.end <= |rest| && IsIdent(r.value.name)
    ensures r.Some? ==> rest[r.value.end - 2] == CLOSE && rest[r.value.end - 1] == CLOSE
  {
    match FindClose(rest)
    case None => None
    case Some(close) =>
      var name := Trim(rest[..close]);
      if IsIdent(name) then Some(Placeholder(close + 2, name)) else None
  }

  /** The first `}}` stands at offset `k`. */
  predicate ClosesFirst(s: Str, k: nat) {
    && k + 2 <= |s| && s[k] == CLOSE && s[k + 1] == CLOSE
    && forall i | 0 <= i < k :: !(s[i] == CLOSE && s[i + 1] == CLOSE)
  }

  /** A placeholder is recognised exactly when what stands before the first `}}` is an identifier once trimmed;
      it ends just past that `}}`. */
  lemma PlaceholderMeaning(rest: Str, p: Placeholder)
    ensures ParsePlaceholder(rest) == Some(p) <==>
              && p.end >= 2 && ClosesFirst(rest, p.end - 2)
              && p.name == Trim(rest[..p.end - 2]) && IsIdent(p.name)
  {
    hide FindClose, Trim, IsIdent;
    var found := FindClose(rest);
    if p.end >= 2 && ClosesFirst(rest, p.end - 2) {
      assert found.Some?;
      assert found.value == p.end - 2;
    }
  }

  /** The placeholder that starts `t`, with its end counted from the start of `t`. */
  function PlaceholderAt(t: Str): (r: Option<Placeholder>)
    ensures r.Some? ==> 4 <= r.value.end <= |t| && t[0] == OPEN && t[1] == OPEN && t[r.value.end - 1] == CLOSE
  {
    if |t| >= 2 && t[0] == OPEN && t[1] == OPEN then
      match ParsePlaceholder(t[2..])
      case Some(p) => Some(Placeholder(p.end + 2, p.name))
      case None => None
    else None
  }

  function ResolveScalar(name: Str, variables: Variables): Result<Str, RuntimeError> {
    if name in variables then
      match variables[name]
      case Text(value) => Ok(value)
      case List(_) => Err(Other(ListAsString(name)))
    else Ok([])
  }

  function Prepend(out: Str, r: Result<Str, RuntimeError>): Result<Str, RuntimeError> {
    match r
    case Ok(s) => Ok(out + s)
    case Err(e) => Err(e)
  }

  lemma PrependPrepend(a: Str, b: Str, r: Result<Str, RuntimeError>)
    ensures Prepend(a, Prepend(b, r)) == Prepend(a + b, r)
  {
    if r.Ok? {
      assert a + (b + r.value) == (a + b) + r.value;
    }
  }

  lemma PrependNothing(r: Result<Str, RuntimeError>)
    ensures Prepend([], r) == r
  {
    if r.Ok? {
      assert [] + r.value == r.value;
    }
  }

  /** Leftmost-placeholder expansion: replace the placeholder that starts here, else copy one byte. */
  function Interpolate(t: Str, variables: Variables): Result<Str, RuntimeError>
    decreases |t|
  {
    if t == [] then Ok([])
    else
      match PlaceholderAt(t)
      case Some(p) =>
        var value :- ResolveScalar(p.name, variables);
        Prepend(value, Interpolate(t[p.end..], variables))
      case None => Prepend([t[0]], Interpolate(t[1..], variables))
  }

  /** The names `t` mentions in placeholders. */
  function Names(t: Str): set<Str>
    decreases |t|
  {
    if t == [] then {}
    else
      match PlaceholderAt(t)
      case Some(p) => {p.name} + Names(t[p.end..])
      case None => Names(t[1..])
  }

  /** Frame: expansion reads nothing but the variables named in the template. */
  lemma {:induction false} InterpolateReadsOnlyNames(t: Str, v: Variables, w: Variables)
    requires forall n | n in Names(t) :: ResolveScalar(n, v) == ResolveScalar(n, w)
    ensures Interpolate(t, v) == Interpolate(t, w)
    decreases |t|
  {
    if t != [] {
      match PlaceholderAt(t)
      case Some(p) => InterpolateReadsOnlyNames(t[p.end..], v, w);
      case None => InterpolateReadsOnlyNames(t[1..], v, w);
    }
  }

  /** Expansion fails exactly when some mentioned name is bound to a list, and only in that way. */
  lemma {:induction false} InterpolateFailsOnLists(t: Str, v: Variables)
    ensures Interpolate(t, v).Err? <==> exists n | n in Names(t) :: n in v && v[n].List?
    ensures Interpolate(t, v).Err? ==> Interpolate(t, v).error.Other? && Interpolate(t, v).error.reason.ListAsString?
    decreases |t|
  {
    if t != [] {
      match PlaceholderAt(t)
      case Some(p) => InterpolateFailsOnLists(t[p.end..], v);
      case None => InterpolateFailsOnLists(t[1..], v);
    }
  }

  /** A byte other than `{` is copied. */
  lemma {:induction false} CopyRun(t: Str, k: nat, v: Variables)
    requires k <= |t| && forall i | 0 <= i < k :: t[i] != OPEN
    ensures Interpolate(t, v) == Prepend(t[..k], Interpolate(t[k..], v))
  {
    if k == 0 {
      assert t[0..] == t && t[..0] == [];
      PrependNothing(Interpolate(t, v));
    } else {
      CopyRun(t[1..], k - 1, v);
      assert t[1..][..k - 1] == t[1..k] && t[1..][k - 1..] == t[k..];
      assert t[..k] == [t[0]] + t[1..k];
      PrependPrepend([t[0]], t[1..k], Interpolate(t[k..], v));
    }
  }
}
