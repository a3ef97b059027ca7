/** The state of the gallery page (`Home` in src/app/page.tsx) and its event
    handlers. Each React state variable is a field; each handler is a method
    that overwrites the fields its setters touch. */
module Home {
  import opened ImageRecord
  import opened Collation
  import opened Sorting
  import opened Filtering
  import opened AltText
  import opened Carousel

  class Gallery {
    var images: seq<Image>
    var sortOrder: string
    var filterTerm: string
    var openCarousel: bool
    var selectedImageIndex: nat

    /** The runtime's `localeCompare` (as "at most") and per-character `toLowerCase`. */
    const collate: Le
    const lowerChar: char -> char

    /** The displayed records are seed records, each id at most once. */
    ghost predicate Valid()
      reads this
    {
      && TotalPreorder(collate)
      && SeedRecords(images)
    }

    /** Page load: the seed list, sort "default", no filter, carousel closed at 0. */
    constructor (collate: Le, lowerChar: char -> char)
      requires TotalPreorder(collate)
      ensures Valid()
      ensures this.collate == collate && this.lowerChar == lowerChar
      ensures images == DUMMY_IMAGES && sortOrder == "default" && filterTerm == ""
      ensures !openCarousel && selectedImageIndex == 0
    {
      this.collate := collate;
      this.lowerChar := lowerChar;
      images := DUMMY_IMAGES;
      sortOrder := "default";
      filterTerm := "";
      openCarousel := false;
      selectedImageIndex := 0;
      SeedIdsUnique();
    }

    /** `handleSortChange`: "name" sorts the displayed list, "date" only raises a
        notice, any other value restores the seed list; the value is recorded. */
    method HandleSortChange(value: string) returns (dateNotice: bool)
      requires Valid()
      modifies this`images, this`sortOrder
      ensures Valid()
      ensures sortOrder == value
      ensures dateNotice == (value == "date")
      ensures value == "name" ==> images == SortByAlt(old(images), collate)
      ensures value == "date" ==> images == old(images)
      ensures value != "name" && value != "date" ==> images == DUMMY_IMAGES
    {
      sortOrder := value;
      dateNotice := false;
      if value == "name" {
        SortByAltIds(images, collate);
        images := SortByAlt(images, collate);
      } else if value == "date" {
        dateNotice := true;
      } else {
        SeedIdsUnique();
        images := DUMMY_IMAGES;
      }
    }

    /** `handleFilterChange`: a non-empty term shows the matching seed records,
        an empty one the whole seed list; the term is recorded. */
    method HandleFilterChange(value: string)
      requires Valid()
      modifies this`images, this`filterTerm
      ensures Valid()
      ensures filterTerm == value
      ensures value != "" ==> images == FilterByTerm(DUMMY_IMAGES, value, lowerChar)
      ensures value == "" ==> images == DUMMY_IMAGES
    {
      filterTerm := value;
      SeedIdsUnique();
      if value != "" {
        var shown := FilterByTerm(DUMMY_IMAGES, value, lowerChar);
        SubsequenceIds(shown, DUMMY_IMAGES);
        images := shown;
      } else {
        images := DUMMY_IMAGES;
      }
    }

    /** The state update of `handleMissingAltText` once the generation call has
        returned `altText`: the record with that id gets the text. */
    method HandleMissingAltText(id: string, altText: string)
      requires Valid()
      modifies this`images
      ensures Valid()
      ensures images == UpdateAlt(old(images), id, altText)
    {
      UpdateAltIds(images, id, altText);
      images := UpdateAlt(images, id, altText);
    }

    /** `openImageCarousel`: select `index` and show the carousel. */
    method OpenImageCarousel(index: nat)
      modifies this`selectedImageIndex, this`openCarousel
      ensures selectedImageIndex == index && openCarousel
    {
      selectedImageIndex := index;
      openCarousel := true;
    }

    /** `closeImageCarousel`: hide the carousel; the selection and the list stay. */
    method CloseImageCarousel()
      modifies this`openCarousel
      ensures !openCarousel
      ensures images == old(images) && selectedImageIndex == old(selectedImageIndex)
    {
      openCarousel := false;
    }

    /** `goToPreviousImage`: step the selection back, wrapping around. */
    method GoToPreviousImage()
      requires |images| > 0
      modifies this`selectedImageIndex
      ensures selectedImageIndex == Prev(old(selectedImageIndex), |images|)
    {
      selectedImageIndex := Prev(selectedImageIndex, |images|);
    }

    /** `goToNextImage`: step the selection forward, wrapping around. */
    method GoToNextImage()
      requires |images| > 0
      modifies this`selectedImageIndex
      ensures selectedImageIndex == Next(old(selectedImageIndex), |images|)
    {
      selectedImageIndex := Next(selectedImageIndex, |images|);
    }
  }
}
