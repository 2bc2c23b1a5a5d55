/** Total orders, their lexicographic lifting, and the sorted enumeration of a finite set:
    what `sorted`, `min` and string comparison mean in the modelled code. */
module Ordering {

  ghost predicate TotalOrder<T(!new)>(le: (T, T) -> bool) {
    && (forall a :: le(a, a))
    && (forall a, b :: le(a, b) && le(b, a) ==> a == b)
    && (forall a, b, c :: le(a, b) && le(b, c) ==> le(a, c))
    && (forall a, b :: le(a, b) || le(b, a))
  }

  predicate Lex<T(==)>(le: (T, T) -> bool, a: seq<T>, b: seq<T>) {
    a == [] || (b != [] && if a[0] == b[0] then Lex(le, a[1..], b[1..]) else le(a[0], b[0]))
  }

  function LexOrder<T(==)>(le: (T, T) -> bool): (seq<T>, seq<T>) -> bool {
    (a, b) => Lex(le, a, b)
  }

  /** Code-point order on characters. */
  function CharOrder(): (char, char) -> bool { (a, b) => a <= b }

  /** Python's order on strings. */
  function StringOrder(): (string, string) -> bool { LexOrder(CharOrder()) }

  /** An identifier used as a key: a string whose characters are of no concern. */
  datatype Name = Name(text: string)

  function NameOrder(): (Name, Name) -> bool { (a: Name, b: Name) => StringOrder()(a.text, b.text) }

  lemma {:induction false} LexAntisymmetric<T(!new)>(le: (T, T) -> bool, a: seq<T>, b: seq<T>)
    requires TotalOrder(le) && Lex(le, a, b) && Lex(le, b, a)
    ensures a == b
  {
    if a == [] || b == [] {
    } else {
      assert a[0] == b[0];
      LexAntisymmetric(le, a[1..], b[1..]);
      assert a == [a[0]] + a[1..] && b == [b[0]] + b[1..];
    }
  }

  lemma {:induction false} LexTransitive<T(!new)>(le: (T, T) -> bool, a: seq<T>, b: seq<T>, c: seq<T>)
    requires TotalOrder(le) && Lex(le, a, b) && Lex(le, b, c)
    ensures Lex(le, a, c)
  {
    if a == [] {
    } else if a[0] == b[0] == c[0] {
      LexTransitive(le, a[1..], b[1..], c[1..]);
    } else {
      assert le(a[0], c[0]);
    }
  }

  lemma {:induction false} LexConnected<T(!new)>(le: (T, T) -> bool, a: seq<T>, b: seq<T>)
    requires TotalOrder(le)
    ensures Lex(le, a, b) || Lex(le, b, a)
  {
    if a == [] || b == [] {
    } else if a[0] == b[0] {
      LexConnected(le, a[1..], b[1..]);
    }
  }

  lemma LexIsTotal<T(!new)>(le: (T, T) -> bool)
    requires TotalOrder(le)
    ensures TotalOrder(LexOrder(le))
  {
    var lex := LexOrder(le);
    forall a: seq<T>, b: seq<T> ensures lex(a, b) || lex(b, a) { LexConnected(le, a, b); }
    forall a ensures lex(a, a) { LexConnected(le, a, a); }
    forall a: seq<T>, b: seq<T> | lex(a, b) && lex(b, a) ensures a == b { LexAntisymmetric(le, a, b); }
    forall a: seq<T>, b: seq<T>, c: seq<T> | lex(a, b) && lex(b, c) ensures lex(a, c) {
      LexTransitive(le, a, b, c);
    }
  }

  lemma StringOrderTotal()
    ensures TotalOrder(StringOrder())
  {
    assert TotalOrder(CharOrder());
    LexIsTotal(CharOrder());
  }

  lemma {:induction false} LexAfterPrefix<T>(le: (T, T) -> bool, p: seq<T>, a: seq<T>, b: seq<T>)
    ensures Lex(le, p + a, p + b) == Lex(le, a, b)
  {
    if p == [] {
      assert p + a == a && p + b == b;
    } else {
      assert (p + a)[1..] == p[1..] + a && (p + b)[1..] == p[1..] + b;
      LexAfterPrefix(le, p[1..], a, b);
    }
  }

  /** Strings compare as dictionaries do: a prefix comes first, and otherwise the first character in
      which two strings differ decides. */
  lemma StringsCompare(p: string, c: char, a: string, d: char, b: string)
    requires c != d
    ensures StringOrder()(p + [c] + a, p + [d] + b) <==> c < d
    ensures StringOrder()(p, p + a) && (a != "" ==> !StringOrder()(p + a, p))
  {
    assert p + [c] + a == p + ([c] + a) && p + [d] + b == p + ([d] + b);
    LexAfterPrefix(CharOrder(), p, [c] + a, [d] + b);
    LexAfterPrefix(CharOrder(), p, [], a);
    LexAfterPrefix(CharOrder(), p, a, []);
    assert p + [] == p;
  }

  lemma NameOrderTotal()
    ensures TotalOrder(NameOrder())
  {
    StringOrderTotal();
    assert forall a: Name, b: Name :: a.text == b.text ==> a == b;
  }

  ghost predicate IsLeast<T>(le: (T, T) -> bool, m: T, s: set<T>) {
    m in s && forall x | x in s :: le(m, x)
  }

  lemma {:induction false} LeastExists<T(!new)>(le: (T, T) -> bool, s: set<T>)
    requires TotalOrder(le) && s != {}
    ensures exists m :: IsLeast(le, m, s)
    decreases |s|
  {
    var k :| k in s;
    var least := k;
    if s - {k} != {} {
      LeastExists(le, s - {k});
      var m :| IsLeast(le, m, s - {k});
      least := if le(m, k) then m else k;
      forall x | x in s ensures le(least, x) {
        if x != k {
          assert le(m, x);
        }
      }
    }
    assert IsLeast(le, least, s);
  }

  /** `min` of a non-empty collection. */
  function Least<T(!new, ==)>(le: (T, T) -> bool, s: set<T>): (least: T)
    requires TotalOrder(le) && s != {}
    ensures IsLeast(le, least, s)
  {
    LeastExists(le, s);
    var m :| m in s && forall x | x in s :: le(m, x);
    m
  }

  /** Strictly increasing, hence free of duplicates. */
  ghost predicate Increasing<T>(le: (T, T) -> bool, s: seq<T>) {
    forall i, j | 0 <= i < j < |s| :: le(s[i], s[j]) && s[i] != s[j]
  }

  /** `sorted` of a set: the strictly increasing enumeration of its elements. */
  function Sorted<T(!new, ==)>(le: (T, T) -> bool, s: set<T>): (r: seq<T>)
    requires TotalOrder(le)
    ensures Increasing(le, r)
    ensures forall x :: x in r <==> x in s
    decreases |s|
  {
    if s == {} then []
    else
      var m := Least(le, s);
      [m] + Sorted(le, s - {m})
  }
}
