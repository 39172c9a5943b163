/** Sorting the elements of a finite set: byte-wise string order, and endpoint order. */
module Ordering {
  import opened Prelude

  ghost predicate TotalOrder<T(!new)>(le: (T, T) -> bool) {
    && (forall a, b :: le(a, b) || le(b, a))
    && (forall a, b :: le(a, b) && le(b, a) ==> a == b)
    && (forall a, b, c :: le(a, b) && le(b, c) ==> le(a, c))
  }

  ghost predicate Increasing<T>(le: (T, T) -> bool, s: seq<T>) {
    forall i, j | 0 <= i < j < |s| :: le(s[i], s[j]) && s[i] != s[j]
  }

  ghost function Elements<T>(s: seq<T>): set<T> { set x | x in s }

  ghost predicate IsLeast<T(!new)>(le: (T, T) -> bool, s: set<T>, m: T) {
    m in s && forall x | x in s :: le(m, x)
  }

  lemma {:induction false} LeastExists<T(!new)>(le: (T, T) -> bool, s: set<T>) returns (m: T)
    requires TotalOrder(le) && s != {}
    ensures IsLeast(le, s, m)
    decreases |s|
  {
    var first :| first in s;
    var rest := s - {first};
    m := first;
    if rest != {} {
      var k := LeastExists(le, rest);
      m := if le(first, k) then first else k;
      assert le(m, k) && le(m, first);
    }
    forall x | x in s ensures le(m, x) {
      assert x == first || x in rest;
    }
  }

  ghost function Least<T(!new)>(le: (T, T) -> bool, s: set<T>): (m: T)
    requires TotalOrder(le) && s != {}
    ensures IsLeast(le, s, m)
  {
    assert exists m :: IsLeast(le, s, m) by {
      var w := LeastExists(le, s);
      assert IsLeast(le, s, w);
    }
    var m :| IsLeast(le, s, m);
    m
  }

  lemma ConsIncreasing<T(!new)>(le: (T, T) -> bool, m: T, rest: seq<T>)
    requires Increasing(le, rest) && m !in Elements(rest) && forall x | x in Elements(rest) :: le(m, x)
    ensures Increasing(le, [m] + rest) && Elements([m] + rest) == {m} + Elements(rest)
  {
    assert forall i | 0 <= i < |rest| :: rest[i] in Elements(rest);
  }

  /** The elements of `s` in increasing order, each once. */
  ghost function Sorted<T(!new)>(le: (T, T) -> bool, s: set<T>): (r: seq<T>)
    requires TotalOrder(le)
    ensures Increasing(le, r) && Elements(r) == s && |r| == |s|
    decreases |s|
  {
    if s == {} then []
    else
      var m := Least(le, s);
      var rest := Sorted(le, s - {m});
      ConsIncreasing(le, m, rest);
      [m] + rest
  }

  lemma NoElements<T>(a: seq<T>)
    ensures Elements(a) == {} ==> a == []
  {
    if a != [] {
      assert a[0] in Elements(a);
    }
  }

  /** An increasing sequence is determined by its elements. */
  lemma {:induction false} IncreasingUnique<T(!new)>(le: (T, T) -> bool, a: seq<T>, b: seq<T>)
    requires TotalOrder(le) && Increasing(le, a) && Increasing(le, b) && Elements(a) == Elements(b)
    ensures a == b
    decreases |a|
  {
    NoElements(a);
    NoElements(b);
    if a != [] {
      assert a[0] in Elements(b);
      assert b != [];
      assert b[0] in Elements(a);
      var i :| 0 <= i < |b| && b[i] == a[0];
      var j :| 0 <= j < |a| && a[j] == b[0];
      assert a[0] == b[0];
      TailElements(le, a);
      TailElements(le, b);
      IncreasingUnique(le, a[1..], b[1..]);
    }
  }

  lemma TailElements<T(!new)>(le: (T, T) -> bool, a: seq<T>)
    requires Increasing(le, a) && a != []
    ensures Elements(a[1..]) == Elements(a) - {a[0]} && Increasing(le, a[1..])
  {
    forall x | x in Elements(a) - {a[0]} ensures x in a[1..] {
      var i :| 0 <= i < |a| && a[i] == x;
      assert a[1..][i - 1] == x;
    }
  }

  // ---------- strings, byte by byte ----------

  predicate StrLe(a: Str, b: Str) {
    a == [] || (b != [] && (a[0] < b[0] || (a[0] == b[0] && StrLe(a[1..], b[1..]))))
  }

  lemma {:induction false} StrLeTotal(a: Str, b: Str)
    ensures StrLe(a, b) || StrLe(b, a)
  {
    if a != [] && b != [] {
      StrLeTotal(a[1..], b[1..]);
    }
  }

  lemma {:induction false} StrLeAntisymmetric(a: Str, b: Str)
    requires StrLe(a, b) && StrLe(b, a)
    ensures a == b
  {
    if a != [] && b != [] {
      StrLeAntisymmetric(a[1..], b[1..]);
      assert a == [a[0]] + a[1..] && b == [b[0]] + b[1..];
    }
  }

  lemma {:induction false} StrLeTransitive(a: Str, b: Str, c: Str)
    requires StrLe(a, b) && StrLe(b, c)
    ensures StrLe(a, c)
  {
    if a != [] && a[0] == b[0] == c[0] {
      StrLeTransitive(a[1..], b[1..], c[1..]);
    }
  }

  lemma StrOrder()
    ensures TotalOrder(StrLe)
  {
    forall a, b ensures StrLe(a, b) || StrLe(b, a) { StrLeTotal(a, b); }
    forall a, b | StrLe(a, b) && StrLe(b, a) ensures a == b { StrLeAntisymmetric(a, b); }
    forall a, b, c | StrLe(a, b) && StrLe(b, c) ensures StrLe(a, c) { StrLeTransitive(a, b, c); }
  }

  /** One string stands before another when it is a beginning of it, or has the smaller byte where they first
      differ. */
  lemma {:induction false} StrLeIff(a: Str, b: Str)
    ensures StrLe(a, b) <==>
              a <= b || exists i | 0 <= i < |a| && i < |b| :: a[..i] == b[..i] && a[i] < b[i]
  {
    if a != [] && b != [] {
      var a', b' := a[1..], b[1..];
      if a[0] < b[0] {
        assert a[..0] == b[..0];
      } else if a[0] == b[0] {
        StrLeIff(a', b');
        assert a == [a[0]] + a' && b == [b[0]] + b';
        if i :| 0 <= i < |a'| && i < |b'| && a'[..i] == b'[..i] && a'[i] < b'[i] {
          assert a[..i + 1] == [a[0]] + a'[..i] && b[..i + 1] == [b[0]] + b'[..i];
        }
        if i :| 0 <= i < |a| && i < |b| && a[..i] == b[..i] && a[i] < b[i] {
          assert a'[..i - 1] == a[..i][1..] && b'[..i - 1] == b[..i][1..];
          assert a'[i - 1] < b'[i - 1];
        }
      } else if i :| 0 <= i < |a| && i < |b| && a[..i] == b[..i] && a[i] < b[i] {
        assert i > 0 && a[..i][0] == b[..i][0];
      }
    }
  }

  // ---------- endpoints ----------

  predicate EndpointLe(a: (Str, u16), b: (Str, u16)) {
    if a.0 == b.0 then a.1 <= b.1 else StrLe(a.0, b.0)
  }

  lemma EndpointOrder()
    ensures TotalOrder(EndpointLe)
  {
    StrOrder();
    forall a, b ensures EndpointLe(a, b) || EndpointLe(b, a) { StrLeTotal(a.0, b.0); }
    forall a, b | EndpointLe(a, b) && EndpointLe(b, a) ensures a == b {
      if a.0 != b.0 {
        StrLeAntisymmetric(a.0, b.0);
      }
    }
    forall a, b, c | EndpointLe(a, b) && EndpointLe(b, c) ensures EndpointLe(a, c) {
      if a.0 != b.0 && b.0 != c.0 {
        StrLeTransitive(a.0, b.0, c.0);
        if a.0 == c.0 {
          StrLeAntisymmetric(a.0, b.0);
        }
      }
    }
  }
}
