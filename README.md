# Aesthetica gallery: list-state model

A Dafny model of the state logic of the gallery page (`Home` in
`src/app/page.tsx`). The page shows an ordered list of image records
`{id, src, alt}`, starting from a hard-coded seed list of six records. It
lets the user sort the list by alt text, filter it by a search term, write a
generated alt text into one record, and step through the list in a modal
carousel.

The model has two layers:

- Pure functions for the list transformations the handlers compute on copies:
  - `Sorting.SortByAlt` (`[...images].sort(...)`)
  - `Filtering.FilterByTerm` (`DUMMY_IMAGES.filter(...)`)
  - `AltText.UpdateAlt` (`images.map(...)`)
  - `Carousel.Next` and `Carousel.Prev` (the wrap-around index steps)

  Lemmas about them state what the page relies on.
- A class, `Home.Gallery`. Its fields are the page's five state variables
  (`images`, `sortOrder`, `filterTerm`, `openCarousel`, `selectedImageIndex`).
  Its methods are the event handlers. Each method states the whole new state in
  terms of the old one. Each keeps the invariant `Valid()`: every displayed id is a
  seed id, and none appears twice (ids are React keys).

Two runtime services are left abstract. Both are constants of the `Gallery` object:

- `collate` is `localeCompare`, read as "at most". It is any total preorder on
  strings (`Collation.TotalPreorder`). `Collation.CodePointLe`, lexicographic order
  on code points, is proved to be one: it is one comparator the abstraction admits,
  not the page's collation.
- `lowerChar` is `toLowerCase`, taken as any per-character mapping.

`Array.prototype.sort` must be stable, so the sort is modelled as a stable
insertion sort. The model proves that its result is a sorted, stable permutation of its input,
and that it is the only list with those properties, so any stable sort gives the same result.

`Scenarios` proves two concrete scenarios on the seed list, with ASCII case mapping:
the filter term "abstract", and an alt-text update of record "3".

The model follows the code as written:

- All six seed alt texts are non-empty.
- The code does not clamp the carousel index after the list shrinks, has no
  guard against double clicks while a request is pending, has no distinct
  failure signals, and does not check that an updated id is still a seed id.
- Any string is accepted as a sort value: "name" sorts, "date" only alerts, and
  every other value restores the seed list.

## Model

| member | source | states |
|---|---|---|
| `ImageRecord.SeedIdsUnique` | src/app/page.tsx:12-19 | the seed list has six records with pairwise distinct ids, so it satisfies the displayed-list invariant |
| `ImageRecord.UniqueIdsDistinct` | src/app/page.tsx:12-19 | under UniqueIds, records at two distinct positions have distinct ids |
| `ImageRecord.DistinctGivesUniqueIds` | src/app/page.tsx:12-19 | pairwise distinct ids imply UniqueIds (the converse direction) |
| `Collation.CodePointIsTotalPreorder` | src/app/page.tsx:31 | lexicographic order on code points is total and transitive, so the comparator abstraction for `localeCompare` is inhabited (it is not the page's collation) |
| `Sorting.Insert` | src/app/page.tsx:31 | inserting one record yields a permutation of the record plus the list |
| `Sorting.SortByAlt` | src/app/page.tsx:31 | the sorted list is a permutation (same multiset) of the list it sorts |
| `Sorting.InsertSorted` | src/app/page.tsx:31 | inserting into a list sorted by alt keeps it sorted |
| `Sorting.SortByAltSorted` | src/app/page.tsx:30-31 | sorting by name gives a list in which every alt compares at most equal to every later alt |
| `Sorting.InsertStable` | src/app/page.tsx:31 | insertion keeps the relative order of records whose alts compare equal to any key |
| `Sorting.SortByAltStable` | src/app/page.tsx:31 | stability: for every key, the records comparing equal to it appear in the same order before and after sorting |
| `Sorting.SortByAltOfSorted` | src/app/page.tsx:31 | a list already sorted by alt is returned unchanged |
| `Sorting.SortByAltIdempotent` | src/app/page.tsx:30-31 | sorting by name twice gives the same sequence as sorting once |
| `Sorting.SortByAltIds` | src/app/page.tsx:31 | sorting keeps the set of ids and keeps them unique |
| `Sorting.SameKeyMembers` | src/app/page.tsx:31 | the records selected for a key are exactly the list's records whose alt compares equal to the key |
| `Sorting.SortedSameKeysEqual` | src/app/page.tsx:31 | two lists sorted by alt that order each class of equal alts alike are equal |
| `Sorting.SortByAltIsTheStableSort` | src/app/page.tsx:31 | any list sorted by alt that keeps the input order within each class of equal alts is exactly the model's sort |
| `Filtering.ContainsIffOccurs` | src/app/page.tsx:42 | `Filtering.Contains`, the model of `includes`, holds exactly when the term occurs at some position (both directions) |
| `Filtering.FilterByTerm` | src/app/page.tsx:42 | the result is a subsequence of the input; it contains exactly the records whose lowered alt includes the lowered term, each as often as in the input |
| `Filtering.FilterByEmptyTerm` | src/app/page.tsx:41-45 | an empty term keeps every record, so both branches of the handler agree on "" |
| `Filtering.SubsequenceIds` | src/app/page.tsx:42 | a subsequence uses only ids of its source list and keeps them unique |
| `AltText.UpdateAlt` | src/app/page.tsx:50-55 | `images.map` with the callback `AltText.WithAlt`: same length and order; every id and src kept; matching records get exactly the given alt; records with another id are unchanged |
| `AltText.UpdateAltAbsentId` | src/app/page.tsx:50-55 | an id that is not displayed leaves the list equal to its input |
| `AltText.UpdateAltOnlyTarget` | src/app/page.tsx:50-55 | with unique ids, only the one record carrying the id changes, and only in its alt |
| `AltText.UpdateAltIds` | src/app/page.tsx:50-55 | the update keeps the set of ids and their uniqueness |
| `AltText.UpdateAltLastWins` | src/app/page.tsx:50-56 | a second update of the same id overrides the first |
| `Carousel.Next` | src/app/page.tsx:73 | the next index is below the length; it is i + 1, or 0 after the last image |
| `Carousel.Prev` | src/app/page.tsx:69 | the previous index is below the length; it is i - 1, or the last index before the first image |
| `Carousel.PrevAfterNext` | src/app/page.tsx:68-74 | for a valid index, previous after next returns to it |
| `Carousel.NextAfterPrev` | src/app/page.tsx:68-74 | for a valid index, next after previous returns to it |
| `Carousel.NextTimesShift` | src/app/page.tsx:72-74 | k <= n presses of next move forward by k positions, wrapping once |
| `Carousel.NextCycle` | src/app/page.tsx:72-74 | n presses of next on a list of length n return to the starting index |
| `Home.Gallery.constructor` | src/app/page.tsx:22-26 | initial state: the seed list, sort "default", empty filter, carousel closed at index 0 |
| `Home.Gallery.HandleSortChange` | src/app/page.tsx:28-37 | records the value; "name" sorts the currently displayed list; "date" keeps the list and signals the notice; any other value restores the seed list; the invariant is kept |
| `Home.Gallery.HandleFilterChange` | src/app/page.tsx:39-46 | records the term; a non-empty term shows the matching seed records in seed order; an empty term restores the seed list whatever was shown before |
| `Home.Gallery.HandleMissingAltText` | src/app/page.tsx:48-57 | once the generated text is in hand, the displayed list becomes its alt update by id; the invariant is kept |
| `Home.Gallery.OpenImageCarousel` | src/app/page.tsx:59-62 | sets the selected index to the given one and opens the carousel |
| `Home.Gallery.CloseImageCarousel` | src/app/page.tsx:64-66 | closes the carousel and leaves the index and the list untouched |
| `Home.Gallery.GoToPreviousImage` | src/app/page.tsx:68-70 | the selected index becomes its wrap-around predecessor on a non-empty list |
| `Home.Gallery.GoToNextImage` | src/app/page.tsx:72-74 | the selected index becomes its wrap-around successor on a non-empty list |
| `Scenarios.FilterSingleMatch` | src/app/page.tsx:42 | when exactly one record matches, the filter shows that record alone |
| `Scenarios.FilterAbstract` | src/app/page.tsx:39-46 | filtering the seed list by "abstract" shows record "2" ("An abstract painting") alone |
| `Scenarios.UpdateRecordThree` | src/app/page.tsx:50-56 | writing "A vivid close-up portrait" for id "3" changes record "3" only; the other five records are identical |

## Left out

- The alt-text generation flow (`src/ai/flows/generate-alt-text.ts`) is not part of this model. It is a prompt to an external language model. Its result enters the model as the plain string parameter of `HandleMissingAltText`. The 100-character limit is only an instruction in the prompt and is never checked, so the model does not check it either.
- The `await` in `handleMissingAltText` is not modelled, and neither are the stale `images` its closure captures. The update is modelled as one sequential step on the list displayed when it runs. A failed or rejected request never reaches the update, so the list stays unchanged. That case is the method not being called.
- `alert` in the "date" branch is a UI side effect. It is modelled as the boolean result `dateNotice` of `HandleSortChange`, with no state change.
- React batches state setters and applies them at the next render. Each handler here reads only the previous render's values, so the model applies its assignments immediately.
- JSX rendering, `next/image`, styling and the UI components are not modelled. Neither is the unguarded `images[selectedImageIndex]` read (line 149).
- Locale collation in `localeCompare` is left abstract as a total preorder.
- `toLowerCase` is left abstract as a per-character map. Unicode mappings that change a string's length are not captured, nor context-dependent ones (capital sigma lowers to final sigma at the end of a word and to sigma elsewhere).
- The algorithm behind `Array.prototype.sort` is not modelled. Only its specified result is: a stable permutation in comparator order, which `Sorting.SortByAltIsTheStableSort` shows is unique.
- `Home.Gallery.GoToPreviousImage`: requires a non-empty list. On an empty list the source computes `% 0`, which is NaN in JavaScript.
- `Home.Gallery.GoToNextImage`: requires a non-empty list, for the same reason.
- The selected index is never negative and the length is positive in the modelled cases. So the model uses Dafny's `%`, which agrees with JavaScript's truncating `%` on these operands.
