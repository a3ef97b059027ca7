/** Concrete runs on the seed list, with the ASCII case mapping standing in for
    `toLowerCase` (the seed texts are ASCII). */
module Scenarios {
  import opened ImageRecord
  import opened Filtering
  import opened AltText

  /** `toLowerCase` restricted to ASCII: 'A'..'Z' to 'a'..'z', everything else unchanged. */
  function AsciiLower(c: char): char
  {
    if 'A' <= c <= 'Z' then (c as int + 32) as char else c
  }

  /** A text that includes `sub` includes every character of `sub`. */
  lemma ContainsChar(s: string, sub: string, c: char)
    requires Contains(s, sub) && c in sub
    ensures c in s
  {
    ContainsIffOccurs(s, sub);
    var i :| OccursAt(s, sub, i);
    var k :| 0 <= k < |sub| && sub[k] == c;
    assert s[i..i + |sub|][k] == s[i + k];
  }

  /** Lowering yields a 'b' only from a 'b' or a 'B'. */
  lemma NoLowerB(s: string)
    requires 'b' !in s && 'B' !in s
    ensures 'b' !in LowerStr(s, AsciiLower)
  {
    forall i | 0 <= i < |s| ensures LowerStr(s, AsciiLower)[i] != 'b' {
      assert s[i] in s;
      assert LowerStr(s, AsciiLower)[i] == AsciiLower(s[i]);
      assert s[i] as int != 'B' as int;
    }
  }

  /** The term "abstract", lowered, is not in an alt text without the letter 'b'. */
  lemma NoMatchWithoutB(r: Image)
    requires 'b' !in r.alt && 'B' !in r.alt
    ensures !MatchesTerm(r, "abstract", AsciiLower)
  {
    NoLowerB(r.alt);
    LowerOfLowercase("abstract");
    if MatchesTerm(r, "abstract", AsciiLower) {
      ContainsChar(LowerStr(r.alt, AsciiLower), "abstract", 'b');
    }
  }

  lemma NoLetterB(s: string)
    requires forall i :: 0 <= i < |s| ==> s[i] != 'b' && s[i] != 'B'
    ensures 'b' !in s && 'B' !in s
  {
  }

  /** Lowering leaves a text without upper-case ASCII letters as it is. */
  lemma LowerOfLowercase(s: string)
    requires forall i :: 0 <= i < |s| ==> !('A' <= s[i] <= 'Z')
    ensures LowerStr(s, AsciiLower) == s
  {
    assert forall i :: 0 <= i < |s| ==> LowerStr(s, AsciiLower)[i] == AsciiLower(s[i]);
  }

  lemma LowerStrSlice(s: string, i: nat, j: nat, lower: char -> char)
    requires i <= j <= |s|
    ensures LowerStr(s, lower)[i..j] == LowerStr(s[i..j], lower)
  {
  }

  /** Record "2", "An abstract painting", matches "abstract". */
  lemma PaintingMatches()
    ensures MatchesTerm(IMAGE_2, "abstract", AsciiLower)
  {
    var painting := LowerStr(IMAGE_2.alt, AsciiLower);
    assert IMAGE_2.alt[3..11] == "abstract";
    LowerStrSlice(IMAGE_2.alt, 3, 11, AsciiLower);
    LowerOfLowercase("abstract");
    assert OccursAt(painting, "abstract", 3);
    ContainsIffOccurs(painting, "abstract");
  }

  /** When exactly the record at `k` matches, the filter shows that record alone. */
  lemma {:induction false} FilterSingleMatch(s: seq<Image>, k: nat, term: string, lower: char -> char)
    requires k < |s| && MatchesTerm(s[k], term, lower)
    requires forall j :: 0 <= j < |s| && j != k ==> !MatchesTerm(s[j], term, lower)
    ensures FilterByTerm(s, term, lower) == [s[k]]
  {
    if k > 0 {
      FilterSingleMatch(s[1..], k - 1, term, lower);
    }
  }

  /** No alt text other than record "2"'s has a 'b', so none of them matches "abstract". */
  lemma OthersDoNotMatch()
    ensures !MatchesTerm(IMAGE_1, "abstract", AsciiLower)
    ensures !MatchesTerm(IMAGE_3, "abstract", AsciiLower)
    ensures !MatchesTerm(IMAGE_4, "abstract", AsciiLower)
    ensures !MatchesTerm(IMAGE_5, "abstract", AsciiLower)
    ensures !MatchesTerm(IMAGE_6, "abstract", AsciiLower)
  {
    NoLetterB("A scenic landscape");
    NoLetterB("A portrait of a person");
    NoLetterB("A cityscape at night");
    NoLetterB("A close-up of a flower");
    NoLetterB("A group of animals in the wild");
    NoMatchWithoutB(IMAGE_1);
    NoMatchWithoutB(IMAGE_3);
    NoMatchWithoutB(IMAGE_4);
    NoMatchWithoutB(IMAGE_5);
    NoMatchWithoutB(IMAGE_6);
  }

  /** Filtering the seed list by "abstract" shows record "2" alone. */
  lemma FilterAbstract()
    ensures FilterByTerm(DUMMY_IMAGES, "abstract", AsciiLower) == [IMAGE_2]
  {
    OthersDoNotMatch();
    PaintingMatches();
    FilterSingleMatch(DUMMY_IMAGES, 1, "abstract", AsciiLower);
  }

  /** A generated text for record "3" lands on that record; the other five stay as they were. */
  lemma UpdateRecordThree()
    ensures var r := UpdateAlt(DUMMY_IMAGES, "3", "A vivid close-up portrait");
      && |r| == 6
      && r[2] == Image("3", "https://picsum.photos/id/30/800/600", "A vivid close-up portrait")
      && forall j :: 0 <= j < 6 && j != 2 ==> r[j] == DUMMY_IMAGES[j]
  {
    SeedIdsUnique();
    UpdateAltOnlyTarget(DUMMY_IMAGES, "3", "A vivid close-up portrait", 2);
  }
}
