/** The string comparison used to sort records by their alt text. The page
    sorts with `localeCompare`, whose order depends on the locale; here it is
    any total preorder `le`, where `le(a, b)` stands for `a.localeCompare(b) <= 0`. */
module Collation {

  type Le = (string, string) -> bool

  /** Every two strings are comparable, and the comparison is transitive. */
  ghost predicate TotalPreorder(le: Le)
  {
    && (forall a, b :: le(a, b) || le(b, a))
    && (forall a, b, c :: le(a, b) && le(b, c) ==> le(a, c))
  }

  /** `a` and `b` compare equal (`localeCompare` returns 0). */
  predicate Equivalent(le: Le, a: string, b: string)
  {
    le(a, b) && le(b, a)
  }

  /** Lexicographic order on code points (Dafny's `char` is a Unicode scalar value).
      It is one comparator the abstraction admits, not the page's collation. */
  predicate CodePointLe(a: string, b: string)
  {
    a == [] || (b != [] && (a[0] < b[0] || (a[0] == b[0] && CodePointLe(a[1..], b[1..]))))
  }

  lemma {:induction false} CodePointTotal(a: string, b: string)
    ensures CodePointLe(a, b) || CodePointLe(b, a)
  {
    if a != [] && b != [] && a[0] == b[0] {
      CodePointTotal(a[1..], b[1..]);
    }
  }

  lemma {:induction false} CodePointTransitive(a: string, b: string, c: string)
    requires CodePointLe(a, b) && CodePointLe(b, c)
    ensures CodePointLe(a, c)
  {
    if a != [] && a[0] == b[0] && b[0] == c[0] {
      CodePointTransitive(a[1..], b[1..], c[1..]);
    }
  }

  /** The code-point order is one of the comparators the model admits. */
  lemma CodePointIsTotalPreorder()
    ensures TotalPreorder(CodePointLe)
  {
    forall a, b ensures CodePointLe(a, b) || CodePointLe(b, a) {
      CodePointTotal(a, b);
    }
    forall a, b, c | CodePointLe(a, b) && CodePointLe(b, c) ensures CodePointLe(a, c) {
      CodePointTransitive(a, b, c);
    }
  }
}
