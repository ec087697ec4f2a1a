/**
 * The string comparisons behind `name LIKE 'p%'` and `ORDER BY name`, fixed
 * here as a case-sensitive prefix test and a binary (code point) collation.
 */
module Collation {

  /** `s LIKE p || '%'` with no wildcard in `p`: `p` is a prefix of `s`
      (`<=` on sequences is the prefix relation, not a lexicographic order). */
  predicate HasPrefix(s: string, p: string)
    ensures HasPrefix(s, p) <==> exists t :: s == p + t
  {
    if p <= s then
      assert s == p + s[|p|..];
      true
    else
      false
  }

  /** Lexicographic order by code point; a proper prefix sorts first. */
  predicate Le(a: string, b: string)
    ensures Le(a, b) && a != [] ==> b != [] && a[0] <= b[0]
    decreases |a|
  {
    a == [] || (b != [] && (a[0] < b[0] || (a[0] == b[0] && Le(a[1..], b[1..]))))
  }

  lemma {:induction false} LeReflexive(a: string)
    ensures Le(a, a)
    decreases |a|
  {
    if a != [] {
      LeReflexive(a[1..]);
    }
  }

  lemma {:induction false} LeAntisymmetric(a: string, b: string)
    requires Le(a, b) && Le(b, a)
    ensures a == b
    decreases |a|
  {
    if a != [] {
      assert b != [] && a[0] == b[0];
      LeAntisymmetric(a[1..], b[1..]);
      assert a == [a[0]] + a[1..] && b == [b[0]] + b[1..];
    }
  }

  lemma {:induction false} LeTransitive(a: string, b: string, c: string)
    requires Le(a, b) && Le(b, c)
    ensures Le(a, c)
    decreases |a|
  {
    if a != [] && a[0] == b[0] && b[0] == c[0] {
      LeTransitive(a[1..], b[1..], c[1..]);
    }
  }

  lemma {:induction false} LeTotal(a: string, b: string)
    ensures Le(a, b) || Le(b, a)
    decreases |a|
  {
    if a != [] && b != [] && a[0] == b[0] {
      LeTotal(a[1..], b[1..]);
    }
  }

  /** A prefix sorts no later than the strings it begins. */
  lemma {:induction false} PrefixIsLe(a: string, b: string)
    requires a <= b
    ensures Le(a, b)
    decreases |a|
  {
    if a != [] {
      assert a[1..] <= b[1..];
      PrefixIsLe(a[1..], b[1..]);
    }
  }

  /** Where two strings first differ, the smaller character decides. */
  lemma {:induction false} FirstDifferenceDecides(a: string, b: string, k: nat)
    requires k < |a| && k < |b| && a[..k] == b[..k] && a[k] < b[k]
    ensures Le(a, b) && !Le(b, a)
    decreases k
  {
    if k > 0 {
      assert a[0] == a[..k][0] && b[0] == b[..k][0];
      assert a[1..][..k - 1] == a[1..k] == a[..k][1..];
      assert b[1..][..k - 1] == b[1..k] == b[..k][1..];
      FirstDifferenceDecides(a[1..], b[1..], k - 1);
    }
  }
}
