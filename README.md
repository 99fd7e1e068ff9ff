# ChuckScore data layer in Dafny

ChuckScore is a browser page for logging rated experiences (hotels,
restaurants, colleges, ...). The user picks an experience type. The page
shows that type's five rubric dimensions, and the user gives each one 1 to 5
stars. Submitting builds a score record whose overall score is the mean of
the star counts. The record is appended to one stored collection. The list
view re-reads the collection, keeps one experience type (or all of them),
and sorts by date or by overall score. A confirmed delete removes the records
with a given id.

This project models that data layer of `script.js` and proves its contracts:

- `rubric.dfy` (module `Rubric`): the `categoryRatings` table. Every type has
  exactly five labels, and no label repeats within a rubric.
- `records.dfy` (module `Records`): the score record. A `ratings` object is a
  sequence of (label, stars) entries in insertion order, and `Put` is the JS
  property assignment. The `forEach` that fills the ratings is the loop of
  `FillRatings`. `BuildRecord` is the record built by the submit handler: its
  ratings carry exactly the rubric's labels, and its overall score is the
  exact mean of the picked values, so it lies in [1, 5].
- `store.dfy` (module `Store`): the stored collection as a class
  `ScoreStore`. Its one field `item` is the storage slot, which is absent,
  the empty string, a serialized record array, or text that does not parse.
  `GetScores` reads it. `SaveScore` appends at the end. `DeleteScore` keeps
  the records whose id differs, and only when confirmed.
- `listing.dfy` (module `Listing`): the list pipeline of `loadScores`. It is
  the category filter, the four comparators plus the default, and the in-place
  sort. The sort is an insertion sort on an `array`. It is proved equal to a
  functional stable sort `SortBy`, and `SortBy` is proved to return a
  permutation in comparator order that keeps tied records in their original
  order. With an unknown key, the order is left alone.
- `seqs.dfy` (module `Seqs`): `Array.prototype.filter` as `Filter`, with its
  membership, multiplicity, concatenation and subsequence lemmas. The delete
  step and the category filter both use it.

Modelling choices:

- `type` is a Dafny keyword, so the record's `type` field is named
  `experienceType`.
- The record's `date` is the timestamp the date string denotes, kept as an
  integer key. The overall score is an exact `real`. The comparators return
  exact differences.
- The `id` (a clock reading in the source) and the user's answer to the
  delete confirmation are parameters.
- The rubric lookup in the submit handler is a precondition: the type must be
  a table key. The form's `required` radio buttons give one value from
  5, 4, 3, 2, 1 per dimension, and that is a precondition too.
- Text that does not parse makes `JSON.parse` throw inside `getScores`
  (script.js:95). The model returns `Err(ParseError)`, and saving, deleting
  and loading all fail with nothing written. Reading such text as an empty
  collection would be a silent recovery that the code does not perform.
- ECMAScript (2019 and later) requires `Array.prototype.sort` to be stable,
  and every comparator here is a difference of keys (a total preorder). So
  the sorted array is uniquely determined, and `SortBy` is that array.

## Model

| member | source | states |
|---|---|---|
| `Rubric.RubricFor` | script.js:2-9 | every experience type's rubric has exactly five labels, pairwise distinct |
| `Rubric.TableKeys` | script.js:2-9 | the table's keys are exactly the six experience types Hotel, Sporting Event, Airport, Restaurant, College, Other |
| `Records.Labels` | script.js:63-67 | the keys of a ratings object, one per entry, in insertion order |
| `Records.Stars` | script.js:77 | `Object.values` of a ratings object: one value per entry, in insertion order |
| `Records.Put` | script.js:66 | assigning a new label appends it with its value at the end; assigning an existing label keeps the keys and their order, stores the new value, and leaves every other entry unchanged |
| `Records.Sum` | script.js:77 | the `reduce((a, b) => a + b, 0)` over the rating values, as a left fold from 0; bounded by SumBounds |
| `Records.Mean` | script.js:77 | the sum divided by the number of values, as an exact quotient; bounded by MeanBounds, evaluated by RestaurantExample |
| `Records.SumBounds` | script.js:77 | values in [1, 5] add up to between once and five times their count |
| `Records.MeanBounds` | script.js:77 | the mean of star values lies in [1, 5] |
| `Records.WellFormedScore` | script.js:63-77 | a record built from a rubric has five ratings and an overall score in [1, 5] |
| `Records.FillRatings` | script.js:63-67 | filling the ratings label by label gives keys equal to the rubric's labels, in rubric order, with the picked values in the same order |
| `Records.BuildRecord` | script.js:60-78 | the built record copies the form fields, its ratings have exactly the selected type's labels with the picked star values, its overall score is the mean of those values and lies in [1, 5] |
| `Records.RestaurantExample` | script.js:77 | the Restaurant rubric rated 5, 4, 5, 3, 4 gives an overall score of 4.2 |
| `Seqs.Filter` | script.js:118 | a filter returns no more elements than its input, each from the input and each passing the test |
| `Seqs.FilterMembership` | script.js:118 | an element is in the filter's result if and only if it is in the input and passes the test |
| `Seqs.FilterCount` | script.js:118 | an element that passes keeps its multiplicity; one that fails does not occur |
| `Seqs.FilterConcat` | script.js:118 | filtering a concatenation concatenates the filtered parts in order |
| `Seqs.FilterIsSubsequence` | script.js:101 | the filter's result is a subsequence of its input: relative order is kept |
| `Seqs.FilterKeepsAll` | script.js:101 | when every element passes, the filter returns its input unchanged |
| `Store.WithoutId` | script.js:101 | the records whose id differs from the given one, in order, as `Filter` with that test; specified by WithoutIdSpec and DeleteAfterSave |
| `Store.WithoutIdSpec` | script.js:101 | after deleting an id, a record remains if and only if it was there and has another id; others keep their multiplicity and relative order; an absent id changes nothing |
| `Store.DeleteAfterSave` | script.js:87-105 | saving a record and deleting its id removes it, leaving what deleting that id would have left before the save |
| `Store.ScoreStore.GetScores` | script.js:93-96 | an absent or empty slot reads as no records, a serialized array as its records, and only unparseable text fails |
| `Store.ScoreStore.SaveScore` | script.js:87-91 | the collection becomes the previous records, unchanged and in order, followed by the new record, and reading it back gives exactly that; on unparseable text nothing is written and the save fails |
| `Store.ScoreStore.DeleteScore` | script.js:98-105 | unconfirmed, the slot is untouched; confirmed, the slot is rewritten with the records whose id differs, so no record with that id is left and every other remains; on unparseable text nothing is written |
| `Listing.KeyOf` | script.js:123-133 | the case of the `switch` a sort selector value reaches: the four named keys, and the default for any other value; used by LoadScores |
| `Listing.Compare` | script.js:123-134 | the comparator's return value for each case: the date or score difference in the case's direction, and 0 in the default case; specified by CompareIsDifference and SortedMeaning |
| `Listing.CompareIsDifference` | script.js:122-135 | each comparator negates when its arguments swap and adds up through a middle record; the default case returns 0 for every pair |
| `Listing.FilterCategory` | script.js:116-119 | the category step: "all" leaves the records as they are, any other value keeps the records of that type; specified by FilterCategorySpec |
| `Listing.FilterCategorySpec` | script.js:116-119 | with "all" the records pass unchanged; otherwise exactly the records of that type remain, with their multiplicities and in their original relative order |
| `Listing.Insert` | script.js:122-135 | inserting one record yields one more record, ending in that record or in the previous last one |
| `Listing.InsertSorted` | script.js:122-135 | inserting into a sequence in comparator order keeps it in comparator order |
| `Listing.InsertPermutation` | script.js:122-135 | inserting adds exactly the new record to the multiset of records |
| `Listing.SortBy` | script.js:122-135 | the stable sort by the key's comparator, each record inserted after the sorted records before it; specified by SortByPermutation, SortBySorted, SortByStable and UnknownKeyKeepsOrder |
| `Listing.SortByPermutation` | script.js:122-135 | the sorted result is a permutation of its input |
| `Listing.SortBySorted` | script.js:122-135 | in the sorted result no record goes strictly after its successor under the comparator |
| `Listing.InsertKeepsTies` | script.js:122-135 | inserting does not reorder the new record among the records it ties with |
| `Listing.SortByStable` | script.js:122-135 | the sort is stable: the records tying with any given record keep their original relative order |
| `Listing.UnknownKeyKeepsOrder` | script.js:132-133 | with an unknown sort key the comparator always returns 0 and the order is unchanged |
| `Listing.SortedMeaning` | script.js:124-131 | in comparator order, score-desc gives non-increasing scores, score-asc non-decreasing scores, date-desc non-increasing dates, date-asc non-decreasing dates |
| `Listing.InsertPosition` | script.js:122-135 | insertion puts the record after the records whose last one does not go strictly after it, and before the records that all do |
| `Listing.ShiftedIsInsert` | script.js:122-135 | the array segment left by shifting the records that go strictly after the new record one place right, and writing the new record in the gap, is the insertion |
| `Listing.SortByStep` | script.js:122-135 | sorting one more record inserts it into the sorted shorter prefix |
| `Listing.InsertInPlace` | script.js:122-135 | moving the record at index i left past the records that go strictly after it leaves the first i+1 cells equal to the insertion, and the later cells unchanged |
| `Listing.SortInPlace` | script.js:122-135 | sorting the array in place leaves it equal to the stable sort of its old contents |
| `Listing.LoadScores` | script.js:111-138 | the listed records are the stored records filtered by category and then stably sorted by the chosen key: in comparator order, a permutation of the filtered records, and unchanged in order for an unknown key; unparseable text fails |

## Left out

- Rendering: `updateRatingCategories` (script.js:28-55) and `displayScores`
  (script.js:140-192) only build HTML. This includes the date formatting, the
  one-decimal score, the star strings and the empty-state placeholder.
- Event wiring and form handling: the `DOMContentLoaded` handler, `filterAndSort`,
  `preventDefault`, the form reset and the list refreshes after saving and
  deleting (script.js:12-20, 58, 81-84, 103, 107-109) are plumbing around the
  modelled operations.
- `setDefaultDateTime` (script.js:22-26) reads the system clock and the
  time-zone offset. It is not modelled.
- Id generation: `Date.now()` (script.js:70) reads a clock and is not
  guaranteed unique. The id is a parameter of `BuildRecord`.
- Storage and serialization: `localStorage` and `JSON.stringify`/`JSON.parse`
  are replaced by the in-memory slot `ScoreStore.item`. Stored records are
  kept as values, so a save followed by a read gives back the same fields.
  Text that parses to something other than a record array is not modelled.
- The `confirm` dialog (script.js:99) is the `confirmed` parameter of
  `DeleteScore`.
- Floating point and `Date` parsing: the overall score and the comparator
  differences are exact reals, and a date is an integer key. So rounding in
  the division, and NaN from an unparseable date, are not modelled.
- An unknown experience type makes the lookup at script.js:61 return
  `undefined`, and the handler then throws at `categories.forEach`
  (script.js:61-64). The model requires a table key instead.
- JavaScript lists integer-like property names of an object before the
  others. No rubric label is integer-like, so `Ratings` keeps plain
  insertion order.
