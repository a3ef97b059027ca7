/** Writing a generated alt text into the displayed list: `images.map(img =>
    img.id === id ? {...img, alt: altText} : img)`. The text is whatever the
    generation call returned; it is not checked to be non-empty or short. */
module AltText {
  import opened ImageRecord

  /** One record after the update: its alt replaced when its id matches. */
  function WithAlt(r: Image, id: string, alt: string): Image
  {
    if r.id == id then r.(alt := alt) else r
  }

  /** The list with the alt of every record whose id is `id` set to `alt`; the length,
      the order, every id and src, and every record with another id stay as they were. */
  function UpdateAlt(s: seq<Image>, id: string, alt: string): (r: seq<Image>)
    ensures |r| == |s|
    ensures forall i :: 0 <= i < |s| ==> r[i].id == s[i].id && r[i].src == s[i].src
    ensures forall i :: 0 <= i < |s| && s[i].id == id ==> r[i].alt == alt
    ensures forall i :: 0 <= i < |s| && s[i].id != id ==> r[i] == s[i]
  {
    if s == [] then [] else [WithAlt(s[0], id, alt)] + UpdateAlt(s[1..], id, alt)
  }

  /** An id that is not displayed leaves the list equal to its input. */
  lemma UpdateAltAbsentId(s: seq<Image>, id: string, alt: string)
    requires id !in IdsOf(s)
    ensures UpdateAlt(s, id, alt) == s
  {
    forall i | 0 <= i < |s| ensures s[i].id != id {
      assert s[i] in s;
    }
  }

  /** With unique ids, the record at `k` is the only one that changes. */
  lemma UpdateAltOnlyTarget(s: seq<Image>, id: string, alt: string, k: nat)
    requires UniqueIds(s)
    requires k < |s| && s[k].id == id
    ensures UpdateAlt(s, id, alt)[k] == s[k].(alt := alt)
    ensures forall j :: 0 <= j < |s| && j != k ==> UpdateAlt(s, id, alt)[j] == s[j]
  {
    forall j | 0 <= j < |s| && j != k ensures s[j].id != id {
      if j < k {
        UniqueIdsDistinct(s, j, k);
      } else {
        UniqueIdsDistinct(s, k, j);
      }
    }
  }

  /** The update keeps the set of ids, and keeps them unique. */
  lemma {:induction false} UpdateAltIds(s: seq<Image>, id: string, alt: string)
    ensures IdsOf(UpdateAlt(s, id, alt)) == IdsOf(s)
    ensures UniqueIds(s) ==> UniqueIds(UpdateAlt(s, id, alt))
  {
    if s != [] {
      var rest := UpdateAlt(s[1..], id, alt);
      UpdateAltIds(s[1..], id, alt);
      assert s == [s[0]] + s[1..];
      IdsOfCons(s[0], s[1..]);
      IdsOfCons(WithAlt(s[0], id, alt), rest);
      assert ([WithAlt(s[0], id, alt)] + rest)[1..] == rest;
    }
  }

  /** A second update of the same id overrides the first. */
  lemma UpdateAltLastWins(s: seq<Image>, id: string, a: string, b: string)
    ensures UpdateAlt(UpdateAlt(s, id, a), id, b) == UpdateAlt(s, id, b)
  {
  }
}
