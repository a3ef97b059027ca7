/** The image record shown by the gallery page, the fixed seed list every
    view is derived from, and the uniqueness of record ids. */
module ImageRecord {

  /** One gallery entry: `{id, src, alt}`; an empty `alt` means "missing alt text". */
  datatype Image = Image(id: string, src: string, alt: string)

  /** The hard-coded seed list the page starts from and resets to. */
  const IMAGE_1: Image := Image("1", "https://picsum.photos/id/10/800/600", "A scenic landscape")
  const IMAGE_2: Image := Image("2", "https://picsum.photos/id/20/800/600", "An abstract painting")
  const IMAGE_3: Image := Image("3", "https://picsum.photos/id/30/800/600", "A portrait of a person")
  const IMAGE_4: Image := Image("4", "https://picsum.photos/id/40/800/600", "A cityscape at night")
  const IMAGE_5: Image := Image("5", "https://picsum.photos/id/50/800/600", "A close-up of a flower")
  const IMAGE_6: Image := Image("6", "https://picsum.photos/id/60/800/600", "A group of animals in the wild")
  const DUMMY_IMAGES: seq<Image> := [IMAGE_1, IMAGE_2, IMAGE_3, IMAGE_4, IMAGE_5, IMAGE_6]

  /** The ids that occur in a list of records. */
  function IdsOf(s: seq<Image>): set<string>
  {
    set r | r in s :: r.id
  }

  /** No id occurs twice: the head's id is not among the tail's ids, recursively. */
  predicate UniqueIds(s: seq<Image>)
  {
    s == [] || (s[0].id !in IdsOf(s[1..]) && UniqueIds(s[1..]))
  }

  /** What every displayed list satisfies: seed ids only, none twice. */
  predicate SeedRecords(s: seq<Image>)
  {
    UniqueIds(s) && IdsOf(s) <= IdsOf(DUMMY_IMAGES)
  }

  lemma IdsOfCons(x: Image, t: seq<Image>)
    ensures IdsOf([x] + t) == {x.id} + IdsOf(t)
  {
    assert forall r :: r in [x] + t <==> r == x || r in t;
  }

  /** UniqueIds means that records at two distinct positions have distinct ids. */
  lemma {:induction false} UniqueIdsDistinct(s: seq<Image>, i: nat, j: nat)
    requires UniqueIds(s)
    requires i < j < |s|
    ensures s[i].id != s[j].id
  {
    if i == 0 {
      assert s[j] in s[1..];
    } else {
      UniqueIdsDistinct(s[1..], i - 1, j - 1);
    }
  }

  /** Conversely, pairwise distinct ids give UniqueIds. */
  lemma {:induction false} DistinctGivesUniqueIds(s: seq<Image>)
    requires forall i, j :: 0 <= i < j < |s| ==> s[i].id != s[j].id
    ensures UniqueIds(s)
  {
    if s != [] {
      DistinctGivesUniqueIds(s[1..]);
    }
  }

  /** The seed list has six records with the distinct ids "1" to "6". */
  lemma SeedIdsUnique()
    ensures |DUMMY_IMAGES| == 6
    ensures UniqueIds(DUMMY_IMAGES)
    ensures SeedRecords(DUMMY_IMAGES)
  {
    var s := DUMMY_IMAGES;
    forall i, j | 0 <= i < j < |s| ensures s[i].id != s[j].id {
      assert s[i].id[0] != s[j].id[0];
    }
    DistinctGivesUniqueIds(s);
  }
}
