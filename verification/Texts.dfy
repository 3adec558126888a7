/** Byte order of texts. */
module Texts {
  import opened Decimal
  import opened Sorting

  lemma {:induction false} LexIrreflexive(a: string)
    ensures !LexLess(a, a)
  {
    if a != "" {
      LexIrreflexive(a[1..]);
    }
  }

  lemma {:induction false} LexConnected(a: string, b: string)
    requires a != b
    ensures LexLess(a, b) || LexLess(b, a)
  {
    if a != "" && b != "" && a[0] == b[0] {
      assert a == [a[0]] + a[1..] && b == [b[0]] + b[1..];
      LexConnected(a[1..], b[1..]);
    }
  }

  lemma {:induction false} LexTransitive(a: string, b: string, c: string)
    requires LexLess(a, b) && LexLess(b, c)
    ensures LexLess(a, c)
  {
    if a != "" && a[0] == b[0] == c[0] {
      LexTransitive(a[1..], b[1..], c[1..]);
    }
  }

  /** Byte order is a total order of texts. */
  lemma LexIsTotal()
    ensures TotalOrder(LexLess)
  {
    forall a
      ensures !LexLess(a, a)
    {
      LexIrreflexive(a);
    }
    forall a: string, b: string | a != b
      ensures LexLess(a, b) || LexLess(b, a)
    {
      LexConnected(a, b);
    }
    forall a, b, c | LexLess(a, b) && LexLess(b, c)
      ensures LexLess(a, c)
    {
      LexTransitive(a, b, c);
    }
  }

  /** Order of triples of texts, component by component. */
  predicate ThreeWay(a1: string, a2: string, a3: string, b1: string, b2: string, b3: string) {
    if a1 != b1 then LexLess(a1, b1) else if a2 != b2 then LexLess(a2, b2) else LexLess(a3, b3)
  }

  lemma ThreeWayOrder(a1: string, a2: string, a3: string, b1: string, b2: string, b3: string,
                      c1: string, c2: string, c3: string)
    ensures ThreeWay(a1, a2, a3, b1, b2, b3) ==> !ThreeWay(b1, b2, b3, a1, a2, a3)
    ensures !ThreeWay(b1, b2, b3, a1, a2, a3) && !ThreeWay(c1, c2, c3, b1, b2, b3) ==> !ThreeWay(c1, c2, c3, a1, a2, a3)
  {
    LexFacts(a1, b1, c1);
    LexFacts(a2, b2, c2);
    LexFacts(a3, b3, c3);
    hide LexLess;
  }

  /** The order facts of three texts. */
  lemma LexFacts(a: string, b: string, c: string)
    ensures LexLess(a, b) ==> !LexLess(b, a) && a != b
    ensures LexLess(b, c) ==> !LexLess(c, b) && b != c
    ensures LexLess(a, c) ==> !LexLess(c, a) && a != c
    ensures a == b || LexLess(a, b) || LexLess(b, a)
    ensures b == c || LexLess(b, c) || LexLess(c, b)
    ensures a == c || LexLess(a, c) || LexLess(c, a)
    ensures LexLess(a, b) && LexLess(b, c) ==> LexLess(a, c)
    ensures LexLess(c, b) && LexLess(b, a) ==> LexLess(c, a)
  {
    LexIsTotal();
    hide LexLess;
  }

  /* ---------- two parts around a mark ---------- */

  predicate Lacks(s: string, mark: char) {
    forall i | 0 <= i < |s| :: s[i] != mark
  }

  /** Neither text begins with the other and the mark. */
  predicate PartsApart(c: string, d: string, mark: char) {
    !(c + [mark] <= d) && !(d + [mark] <= c)
  }

  lemma LackingIsApart(c: string, d: string, mark: char)
    requires Lacks(c, mark) && Lacks(d, mark)
    ensures PartsApart(c, d, mark)
  {
    assert (c + [mark])[|c|] == mark && (d + [mark])[|d|] == mark;
  }

  /** Texts joined by a mark have the same parts, unless a first part begins with the other and
      the mark. */
  lemma FirstPart(a: string, s: string, b: string, t: string, mark: char)
    requires a + [mark] + s == b + [mark] + t
    ensures (a == b && s == t) || !PartsApart(a, b, mark)
  {
    var x, y := a + [mark] + s, b + [mark] + t;
    assert a + [mark] == x[..|a| + 1] && b + [mark] == y[..|b| + 1];
    assert a == x[..|a|] && b == y[..|b|] && s == x[|a| + 1..] && t == y[|b| + 1..];
    if |a| < |b| {
      assert b[..|a| + 1] == x[..|a| + 1];
    } else if |b| < |a| {
      assert a[..|b| + 1] == x[..|b| + 1];
    }
  }

  /** Conversely such first parts do meet. */
  lemma ShiftedParts(c: string, d: string, mark: char) returns (s: string, t: string)
    requires c + [mark] <= d
    ensures c + [mark] + s == d + [mark] + t
  {
    var middle := d[|c| + 1..];
    s, t := middle + [mark], "";
    assert d == c + [mark] + middle;
  }
}
