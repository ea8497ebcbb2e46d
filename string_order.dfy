/**
 * The order Firestore uses on string values and document ids: strings are
 * compared by their UTF-8 encodings, which for Unicode scalar values is the
 * lexicographic order of code points. ISO `YYYY-MM-DD` dates compare under
 * this order exactly as they do in time.
 */
module StringOrder {

  /** `a` sorts strictly before `b`. */
  predicate Below(a: string, b: string)
    decreases |a|
  {
    if |a| == 0 then |b| > 0
    else if |b| == 0 then false
    else if a[0] == b[0] then Below(a[1..], b[1..])
    else a[0] < b[0]
  }

  /** Strings with a common prefix are ordered by the first character after it. */
  lemma {:induction false} BelowAfterCommonPrefix(p: string, a: string, b: string)
    requires a != [] && b != [] && a[0] < b[0]
    ensures Below(p + a, p + b)
    decreases |p|
  {
    if p == [] {
      assert p + a == a && p + b == b;
    } else {
      assert (p + a)[1..] == p[1..] + a && (p + b)[1..] == p[1..] + b;
      BelowAfterCommonPrefix(p[1..], a, b);
    }
  }

  /** `a` sorts before `b` or is equal to it (Firestore's `<=`). */
  predicate AtMost(a: string, b: string) {
    a == b || Below(a, b)
  }

  lemma {:induction false} BelowIrreflexive(a: string)
    ensures !Below(a, a)
  {
    if |a| > 0 {
      BelowIrreflexive(a[1..]);
    }
  }

  lemma {:induction false} BelowAsymmetric(a: string, b: string)
    requires Below(a, b)
    ensures !Below(b, a)
  {
    if |a| > 0 && a[0] == b[0] {
      BelowAsymmetric(a[1..], b[1..]);
    }
  }

  lemma {:induction false} BelowTransitive(a: string, b: string, c: string)
    requires Below(a, b) && Below(b, c)
    ensures Below(a, c)
  {
    if |a| > 0 && a[0] == b[0] && b[0] == c[0] {
      BelowTransitive(a[1..], b[1..], c[1..]);
    }
  }

  /** Any two strings are comparable. */
  lemma {:induction false} BelowTotal(a: string, b: string)
    ensures a == b || Below(a, b) || Below(b, a)
  {
    if |a| > 0 && |b| > 0 && a[0] == b[0] {
      BelowTotal(a[1..], b[1..]);
      if a[1..] == b[1..] {
        assert a == [a[0]] + a[1..] && b == [b[0]] + b[1..];
      }
    }
  }

  /** `<=` fails exactly when the reverse `<` holds. */
  lemma AtMostIffNotBelow(a: string, b: string)
    ensures AtMost(a, b) <==> !Below(b, a)
  {
    BelowTotal(a, b);
    if a == b {
      BelowIrreflexive(a);
    } else if Below(a, b) {
      BelowAsymmetric(a, b);
    }
  }

  lemma AtMostBelowTransitive(a: string, b: string, c: string)
    requires AtMost(a, b) && Below(b, c)
    ensures Below(a, c)
  {
    if a != b {
      BelowTransitive(a, b, c);
    }
  }

  lemma BelowAtMostTransitive(a: string, b: string, c: string)
    requires Below(a, b) && AtMost(b, c)
    ensures Below(a, c)
  {
    if b != c {
      BelowTransitive(a, b, c);
    }
  }
}
