/** Sorting the displayed records by alt text: `[...images].sort((a, b) =>
    a.alt.localeCompare(b.alt))`. `Array.prototype.sort` is stable, so the model
    is a stable insertion sort on a copy of the list. */
module Sorting {
  import opened ImageRecord
  import opened Collation

  /** Every record's alt compares at most equal to the alt of every later record. */
  predicate SortedByAlt(s: seq<Image>, le: Le)
  {
    forall i, j :: 0 <= i < j < |s| ==> le(s[i].alt, s[j].alt)
  }

  /** Places `x` just before the first record of `t` whose alt is not below `x`'s,
      so that `x` stays in front of the records that compare equal to it. */
  function Insert(x: Image, t: seq<Image>, le: Le): (r: seq<Image>)
    ensures multiset(r) == multiset([x] + t)
  {
    if t == [] || le(x.alt, t[0].alt) then [x] + t
    else
      assert t == [t[0]] + t[1..];
      [t[0]] + Insert(x, t[1..], le)
  }

  /** The list sorted by alt: a permutation of its input. */
  function SortByAlt(s: seq<Image>, le: Le): (r: seq<Image>)
    ensures multiset(r) == multiset(s)
  {
    if s == [] then []
    else
      assert s == [s[0]] + s[1..];
      Insert(s[0], SortByAlt(s[1..], le), le)
  }

  /** The records of `s` whose alt compares equal to `k`, in their order in `s`. */
  function SameKey(s: seq<Image>, k: string, le: Le): seq<Image>
  {
    if s == [] then []
    else (if Equivalent(le, s[0].alt, k) then [s[0]] else []) + SameKey(s[1..], k, le)
  }

  lemma ConsSorted(y: Image, r: seq<Image>, le: Le)
    requires SortedByAlt(r, le)
    requires forall z :: z in r ==> le(y.alt, z.alt)
    ensures SortedByAlt([y] + r, le)
  {
    var yr := [y] + r;
    forall i, j | 0 <= i < j < |yr| ensures le(yr[i].alt, yr[j].alt) {
      if i == 0 {
        assert yr[j] == r[j - 1];
      } else {
        assert yr[i] == r[i - 1] && yr[j] == r[j - 1];
      }
    }
  }

  lemma {:induction false} InsertSorted(x: Image, t: seq<Image>, le: Le)
    requires TotalPreorder(le)
    requires SortedByAlt(t, le)
    ensures SortedByAlt(Insert(x, t, le), le)
  {
    if t == [] || le(x.alt, t[0].alt) {
      forall z | z in t ensures le(x.alt, z.alt) {
        var k :| 0 <= k < |t| && t[k] == z;
        if k > 0 {
          assert le(t[0].alt, t[k].alt);
        }
      }
      ConsSorted(x, t, le);
    } else {
      var rest := Insert(x, t[1..], le);
      assert SortedByAlt(t[1..], le) by {
        forall i, j | 0 <= i < j < |t[1..]| ensures le(t[1..][i].alt, t[1..][j].alt) {
          assert t[1..][i] == t[i + 1] && t[1..][j] == t[j + 1];
        }
      }
      InsertSorted(x, t[1..], le);
      forall y | y in rest ensures le(t[0].alt, y.alt) {
        assert y in multiset(rest);
        if y != x {
          assert y in t[1..];
          var k :| 0 <= k < |t[1..]| && t[1..][k] == y;
          assert le(t[0].alt, t[k + 1].alt);
        }
      }
      ConsSorted(t[0], rest, le);
    }
  }

  /** Sorting by name yields a list that is non-decreasing by alt. */
  lemma {:induction false} SortByAltSorted(s: seq<Image>, le: Le)
    requires TotalPreorder(le)
    ensures SortedByAlt(SortByAlt(s, le), le)
  {
    if s != [] {
      SortByAltSorted(s[1..], le);
      InsertSorted(s[0], SortByAlt(s[1..], le), le);
    }
  }

  lemma SameKeyCons(x: Image, t: seq<Image>, k: string, le: Le)
    ensures SameKey([x] + t, k, le) == (if Equivalent(le, x.alt, k) then [x] else []) + SameKey(t, k, le)
  {
    assert ([x] + t)[1..] == t;
  }

  /** A record strictly above another cannot compare equal to the same key as it. */
  lemma NotBothEquivalent(x: Image, y: Image, k: string, le: Le)
    requires TotalPreorder(le)
    requires !le(x.alt, y.alt)
    ensures !(Equivalent(le, x.alt, k) && Equivalent(le, y.alt, k))
  {
  }

  lemma {:induction false} InsertStable(x: Image, t: seq<Image>, k: string, le: Le)
    requires TotalPreorder(le)
    ensures SameKey(Insert(x, t, le), k, le) == SameKey([x] + t, k, le)
  {
    if t != [] && !le(x.alt, t[0].alt) {
      var rest := Insert(x, t[1..], le);
      assert Insert(x, t, le) == [t[0]] + rest;
      assert t == [t[0]] + t[1..];
      InsertStable(x, t[1..], k, le);
      SameKeyCons(t[0], rest, k, le);
      SameKeyCons(x, t[1..], k, le);
      SameKeyCons(x, t, k, le);
      SameKeyCons(t[0], t[1..], k, le);
      NotBothEquivalent(x, t[0], k, le);
      var xs := if Equivalent(le, x.alt, k) then [x] else [];
      var ts := if Equivalent(le, t[0].alt, k) then [t[0]] else [];
      var tail := SameKey(t[1..], k, le);
      assert ts + (xs + tail) == xs + (ts + tail) by {
        if xs == [] {
          assert xs + tail == tail && ts + tail == xs + (ts + tail);
        } else {
          assert ts + (xs + tail) == xs + tail && ts + tail == tail;
        }
      }
    }
  }

  /** Stability: records whose alts compare equal keep their relative order. */
  lemma {:induction false} SortByAltStable(s: seq<Image>, k: string, le: Le)
    requires TotalPreorder(le)
    ensures SameKey(SortByAlt(s, le), k, le) == SameKey(s, k, le)
  {
    if s != [] {
      SortByAltStable(s[1..], k, le);
      InsertStable(s[0], SortByAlt(s[1..], le), k, le);
      assert ([s[0]] + SortByAlt(s[1..], le))[1..] == SortByAlt(s[1..], le);
    }
  }

  /** A list already sorted by alt is left exactly as it is. */
  lemma {:induction false} SortByAltOfSorted(s: seq<Image>, le: Le)
    requires SortedByAlt(s, le)
    ensures SortByAlt(s, le) == s
  {
    if s != [] {
      assert SortedByAlt(s[1..], le) by {
        forall i, j | 0 <= i < j < |s[1..]| ensures le(s[1..][i].alt, s[1..][j].alt) {
          assert s[1..][i] == s[i + 1] && s[1..][j] == s[j + 1];
        }
      }
      SortByAltOfSorted(s[1..], le);
      assert s == [s[0]] + s[1..];
    }
  }

  /** Sorting by name twice gives the same list as sorting once. */
  lemma SortByAltIdempotent(s: seq<Image>, le: Le)
    requires TotalPreorder(le)
    ensures SortByAlt(SortByAlt(s, le), le) == SortByAlt(s, le)
  {
    SortByAltSorted(s, le);
    SortByAltOfSorted(SortByAlt(s, le), le);
  }

  lemma {:induction false} SameKeyMembers(s: seq<Image>, k: string, le: Le)
    ensures forall x :: x in SameKey(s, k, le) <==> x in s && Equivalent(le, x.alt, k)
  {
    if s != [] {
      SameKeyMembers(s[1..], k, le);
      assert s == [s[0]] + s[1..];
    }
  }

  lemma SameKeyOfHead(s: seq<Image>, le: Le)
    requires TotalPreorder(le)
    requires s != []
    ensures SameKey(s, s[0].alt, le) != [] && SameKey(s, s[0].alt, le)[0] == s[0]
  {
  }

  lemma SortedTail(s: seq<Image>, le: Le)
    requires s != [] && SortedByAlt(s, le)
    ensures SortedByAlt(s[1..], le)
  {
    forall x, y | 0 <= x < y < |s[1..]| ensures le(s[1..][x].alt, s[1..][y].alt) {
      assert s[1..][x] == s[x + 1] && s[1..][y] == s[y + 1];
    }
  }

  /** In a list sorted by alt, the head's alt sorts before that of every record. */
  lemma SortedHeadFirst(s: seq<Image>, x: Image, le: Le)
    requires TotalPreorder(le)
    requires SortedByAlt(s, le) && x in s
    ensures le(s[0].alt, x.alt)
  {
    var j :| 0 <= j < |s| && s[j] == x;
    if j > 0 {
      assert le(s[0].alt, s[j].alt);
    }
  }

  lemma SortedSameKeysHeads(a: seq<Image>, b: seq<Image>, le: Le)
    requires TotalPreorder(le)
    requires SortedByAlt(a, le) && SortedByAlt(b, le)
    requires a != [] && b != []
    requires forall k :: SameKey(a, k, le) == SameKey(b, k, le)
    ensures a[0] == b[0]
  {
    var k := a[0].alt;
    SameKeyMembers(a, k, le);
    SameKeyMembers(b, k, le);
    assert SameKey(a, k, le) == SameKey(b, k, le);
    SortedHeadFirst(b, a[0], le);
    var kb := b[0].alt;
    SameKeyMembers(a, kb, le);
    SameKeyMembers(b, kb, le);
    assert SameKey(a, kb, le) == SameKey(b, kb, le);
    SortedHeadFirst(a, b[0], le);
    SameKeyOfHead(a, le);
    assert SameKey(b, k, le) == [b[0]] + SameKey(b[1..], k, le);
  }

  lemma SameKeysOfTails(a: seq<Image>, b: seq<Image>, le: Le)
    requires a != [] && b != [] && a[0] == b[0]
    requires forall k :: SameKey(a, k, le) == SameKey(b, k, le)
    ensures forall k :: SameKey(a[1..], k, le) == SameKey(b[1..], k, le)
  {
    forall k ensures SameKey(a[1..], k, le) == SameKey(b[1..], k, le) {
      var h := if Equivalent(le, a[0].alt, k) then [a[0]] else [];
      assert SameKey(a, k, le) == h + SameKey(a[1..], k, le);
      assert SameKey(b, k, le) == h + SameKey(b[1..], k, le);
      assert SameKey(a[1..], k, le) == SameKey(a, k, le)[|h|..];
    }
  }

  /** Two lists sorted by alt that agree on the order within every class of equal
      alts are the same list. */
  lemma {:induction false} SortedSameKeysEqual(a: seq<Image>, b: seq<Image>, le: Le)
    requires TotalPreorder(le)
    requires SortedByAlt(a, le) && SortedByAlt(b, le)
    requires forall k :: SameKey(a, k, le) == SameKey(b, k, le)
    ensures a == b
  {
    if a != [] && b != [] {
      SortedSameKeysHeads(a, b, le);
      SameKeysOfTails(a, b, le);
      SortedTail(a, le);
      SortedTail(b, le);
      SortedSameKeysEqual(a[1..], b[1..], le);
      assert a == [a[0]] + a[1..] && b == [b[0]] + b[1..];
    } else if a != [] {
      SameKeyOfHead(a, le);
    } else if b != [] {
      SameKeyOfHead(b, le);
    }
  }

  /** Whatever stable algorithm sorts the list, the result is SortByAlt: a list sorted by
      alt whose records with equal alts keep their input order is uniquely determined. */
  lemma SortByAltIsTheStableSort(s: seq<Image>, r: seq<Image>, le: Le)
    requires TotalPreorder(le)
    requires SortedByAlt(r, le)
    requires forall k :: SameKey(r, k, le) == SameKey(s, k, le)
    ensures r == SortByAlt(s, le)
  {
    SortByAltSorted(s, le);
    forall k ensures SameKey(r, k, le) == SameKey(SortByAlt(s, le), k, le) {
      SortByAltStable(s, k, le);
    }
    SortedSameKeysEqual(r, SortByAlt(s, le), le);
  }

  lemma {:induction false} InsertIds(x: Image, t: seq<Image>, le: Le)
    ensures IdsOf(Insert(x, t, le)) == {x.id} + IdsOf(t)
    ensures UniqueIds(t) && x.id !in IdsOf(t) ==> UniqueIds(Insert(x, t, le))
  {
    if t == [] || le(x.alt, t[0].alt) {
      IdsOfCons(x, t);
    } else {
      var rest := Insert(x, t[1..], le);
      assert t == [t[0]] + t[1..];
      IdsOfCons(t[0], t[1..]);
      IdsOfCons(t[0], rest);
      InsertIds(x, t[1..], le);
      assert ([t[0]] + rest)[1..] == rest;
    }
  }

  /** Sorting keeps the set of ids, and keeps them unique. */
  lemma {:induction false} SortByAltIds(s: seq<Image>, le: Le)
    ensures IdsOf(SortByAlt(s, le)) == IdsOf(s)
    ensures UniqueIds(s) ==> UniqueIds(SortByAlt(s, le))
  {
    if s != [] {
      SortByAltIds(s[1..], le);
      InsertIds(s[0], SortByAlt(s[1..], le), le);
      assert s == [s[0]] + s[1..];
      IdsOfCons(s[0], s[1..]);
    }
  }
}
