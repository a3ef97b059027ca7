/** Filtering the seed list by a search term: `DUMMY_IMAGES.filter(img =>
    img.alt.toLowerCase().includes(term.toLowerCase()))`. `toLowerCase` is any
    per-character mapping `lower`; `includes` is substring containment. */
module Filtering {
  import opened ImageRecord

  /** `s` with `lower` applied to every character. */
  function LowerStr(s: string, lower: char -> char): string
  {
    seq(|s|, i requires 0 <= i < |s| => lower(s[i]))
  }

  /** `sub` occurs in `s` starting at position `i`. */
  predicate OccursAt(s: string, sub: string, i: int)
  {
    0 <= i <= |s| - |sub| && s[i..i + |sub|] == sub
  }

  /** `String.prototype.includes`: `sub` is a prefix of `s` or of one of its suffixes. */
  predicate Contains(s: string, sub: string)
    decreases |s|
  {
    |sub| <= |s| && (s[..|sub|] == sub || Contains(s[1..], sub))
  }

  /** Contains agrees with "occurs at some position", in both directions. */
  lemma {:induction false} ContainsIffOccurs(s: string, sub: string)
    ensures Contains(s, sub) <==> exists i :: OccursAt(s, sub, i)
  {
    if |sub| <= |s| {
      if s[..|sub|] == sub {
        assert OccursAt(s, sub, 0);
      } else {
        ContainsIffOccurs(s[1..], sub);
        if Contains(s[1..], sub) {
          var i :| OccursAt(s[1..], sub, i);
          assert s[1..][i..i + |sub|] == s[i + 1..i + 1 + |sub|];
          assert OccursAt(s, sub, i + 1);
        }
        if exists i :: OccursAt(s, sub, i) {
          var i :| OccursAt(s, sub, i);
          assert i != 0;
          assert s[1..][i - 1..i - 1 + |sub|] == s[i..i + |sub|];
          assert OccursAt(s[1..], sub, i - 1);
        }
      }
    }
  }

  /** The filter condition on one record. */
  predicate MatchesTerm(r: Image, term: string, lower: char -> char)
  {
    Contains(LowerStr(r.alt, lower), LowerStr(term, lower))
  }

  /** `a` can be obtained from `b` by deleting elements. */
  predicate Subsequence<T(==)>(a: seq<T>, b: seq<T>)
    decreases |b|
  {
    a == [] || (b != [] && ((a[0] == b[0] && Subsequence(a[1..], b[1..])) || Subsequence(a, b[1..])))
  }

  /** The records of `s` that match `term`, in their order in `s`: every matching
      record with all its occurrences, and nothing else. */
  function FilterByTerm(s: seq<Image>, term: string, lower: char -> char): (r: seq<Image>)
    ensures Subsequence(r, s)
    ensures forall x :: x in r <==> x in s && MatchesTerm(x, term, lower)
    ensures forall x :: multiset(r)[x] == if MatchesTerm(x, term, lower) then multiset(s)[x] else 0
  {
    if s == [] then []
    else
      var rest := FilterByTerm(s[1..], term, lower);
      assert s == [s[0]] + s[1..];
      if MatchesTerm(s[0], term, lower) then
        assert ([s[0]] + rest)[1..] == rest;
        [s[0]] + rest
      else
        rest
  }

  /** Every string includes the empty string, so an empty term keeps every record. */
  lemma {:induction false} FilterByEmptyTerm(s: seq<Image>, lower: char -> char)
    ensures FilterByTerm(s, "", lower) == s
  {
    if s != [] {
      assert LowerStr("", lower) == "";
      assert Contains(LowerStr(s[0].alt, lower), "");
      FilterByEmptyTerm(s[1..], lower);
    }
  }

  /** A subsequence uses only ids of the list it is taken from, and keeps them unique. */
  lemma {:induction false} SubsequenceIds(a: seq<Image>, b: seq<Image>)
    requires Subsequence(a, b)
    ensures IdsOf(a) <= IdsOf(b)
    ensures UniqueIds(b) ==> UniqueIds(a)
  {
    if a != [] {
      assert b == [b[0]] + b[1..];
      IdsOfCons(b[0], b[1..]);
      if a[0] == b[0] && Subsequence(a[1..], b[1..]) {
        assert a == [a[0]] + a[1..];
        IdsOfCons(a[0], a[1..]);
        SubsequenceIds(a[1..], b[1..]);
      } else {
        SubsequenceIds(a, b[1..]);
      }
    }
  }
}
