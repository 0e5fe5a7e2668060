# Quote store of the dynamic quote generator

A Dafny model of the data logic inside the browser quote widget `dom-manipulation/script.js`:
the module-level list of `{text, category}` quotes, seeded with three defaults, and the
operations that read and change it.

- **Add from the form**: both inputs are trimmed (JavaScript `trim`); if either is empty the
  add is refused and the list is unchanged, otherwise the trimmed pair is appended.
- **Load at start-up**: the stored payload replaces the list only when it parsed to an array;
  of that array only the elements with a string `text` and a string `category` are kept, in order.
- **Import from a file**: a missing file and a non-array payload are rejected; the well-formed
  elements are merged, skipping every element whose key `text + "|||" + category` is already
  present, keys added as the merge goes, and the number of appended quotes is reported.
- **Export**: the list serialized as an array of `{text, category}` objects, and the download's
  file name built from an ISO-8601 timestamp.
- **Random pick and start-up restore**: an index in range that differs from the last shown index
  when there is one and more than one quote; a stored index is reused at start-up only when in range.

Modules: `Wrappers` (Option), `Text` (trim), `Quotes` (records, parsed elements, shape filter,
key, form validation), `Merge` (a reference definition `MergeFrom` of what an import appends,
with its lemmas), `Export` (serialization, file name) and `Store` (the class `QuoteStore`,
whose field `quotes` is the list and whose methods are the operations that change it).

Parsed JSON is represented by `Document` (unparseable, not an array, or an array of `Item`s).
An `Item` is a falsy value or a truthy value together with what its `text` and `category`
lookups give (a string or something else), which is exactly what the shape check inspects.
Storage contents and the chosen file are parameters: `Option<Document>`, with `None` for an
empty storage slot or no file. The last shown index is a parameter `Option<int>`.

De-duplication compares the concatenated key `text + "|||" + category`, not the
(text, category) pair. The two differ when the separator can be split between the fields
(`Quotes.KeyCollision`, `Merge.KeyCollisionSkipsImport`); they agree when no text contains
a vertical bar (`Merge.KeySetMemberIff`).

## Model

| member | source | states |
|---|---|---|
| Store.QuoteStore.constructor | dom-manipulation/script.js:5-9 | the store starts with the three default quotes |
| Text.TrimSlice | dom-manipulation/script.js:95-96 | trim keeps one contiguous slice, drops only white space, and the kept slice has no white space at either end |
| Text.TrimEmptyIff | dom-manipulation/script.js:95-98 | a trimmed input is empty exactly when the input is all white space |
| Text.TrimIdempotent | dom-manipulation/script.js:95-96 | trimming a trimmed string changes nothing |
| Text.LeadingSpaces | dom-manipulation/script.js:95-96 | the count of leading characters trim drops: all white space, followed by a non-space or the end |
| Text.TrailingSpaces | dom-manipulation/script.js:95-96 | the count of trailing characters trim drops: all white space, preceded by a non-space or the start |
| Quotes.ValidateForm | dom-manipulation/script.js:95-104 | the form is refused exactly when a field is all white space; an accepted quote is the trimmed pair, both fields non-empty and already trimmed |
| Store.QuoteStore.AddFromForm | dom-manipulation/script.js:94-116 | a refused add leaves the list unchanged; an accepted add appends exactly the trimmed pair after the unchanged earlier quotes |
| Quotes.ValidItems | dom-manipulation/script.js:32 | the shape filter keeps at most as many quotes as there are elements |
| Quotes.ValidItemsMember | dom-manipulation/script.js:32 | a quote survives the filter exactly when some element with string text and string category stands for it |
| Quotes.ValidItemsConcat | dom-manipulation/script.js:32 | the filter distributes over concatenation, so kept quotes stay in their original order |
| Quotes.ValidItemsEmptyIff | dom-manipulation/script.js:197-201 | the filter keeps nothing exactly when no element is well formed (the "no valid quotes" case) |
| Quotes.ValidItemsAllWellFormed | dom-manipulation/script.js:32 | an array of well-formed elements is kept whole, element by element |
| Store.LoadedQuotes | dom-manipulation/script.js:26-38 | a missing, unparseable or non-array payload keeps the current quotes; an array payload yields exactly the quotes its well-formed elements stand for |
| Store.QuoteStore.Load | dom-manipulation/script.js:26-38 | reports success exactly for an array payload, which then replaces the list by its well-formed elements in order; otherwise the list is unchanged |
| Quotes.KeyCollision | dom-manipulation/script.js:204-207 | the key is not injective: two different quotes share a key when the separator can be split between text and category (text "a" + sep + "b" with category "c", against text "a" with category "b" + sep + "c") |
| Quotes.KeyInjective | dom-manipulation/script.js:204-207 | quotes whose texts contain no vertical bar have the same key only when they are equal |
| Merge.MergeFrom | dom-manipulation/script.js:204-213 | what an import appends is drawn from the batch, never has a key already present, and is no longer than the batch |
| Merge.MergeFromDistinctKeys | dom-manipulation/script.js:206-211 | no two appended quotes share a key |
| Merge.MergeFromCovers | dom-manipulation/script.js:206-211 | after the merge each batch item's key was present before or was appended |
| Merge.MergeFromEmptyIff | dom-manipulation/script.js:206-215 | the merge appends nothing exactly when every batch item's key is already present |
| Merge.MergeFromDisjoint | dom-manipulation/script.js:206-211 | a batch of pairwise key-distinct items none of whose keys is present is appended whole, in order |
| Merge.MergeFromIdempotent | dom-manipulation/script.js:204-212 | importing the same batch a second time appends nothing |
| Merge.MergedStoreHoldsAllKeys | dom-manipulation/script.js:204-212 | after an import every valid item's key occurs in the store |
| Merge.KeyCollisionSkipsImport | dom-manipulation/script.js:204-208 | an import can skip a quote the store does not hold, when its key collides with a stored quote's key |
| Merge.KeySetMemberIff | dom-manipulation/script.js:204-208 | when no text contains a vertical bar, a key is present exactly when the quote itself is |
| Store.QuoteStore.Merge | dom-manipulation/script.js:204-213 | the loop appends exactly `MergeFrom` of the pre-merge keys (so the old list is a prefix and stored duplicates stay), and the count returned equals the growth of the list |
| Store.QuoteStore.Import | dom-manipulation/script.js:186-222 | no file, a non-array payload and a batch without well-formed elements each give their own outcome and change nothing; otherwise the well-formed quotes are merged and the reported count equals the growth |
| Export.ExportItems | dom-manipulation/script.js:17-19 | serializing the list yields one well-formed element per quote, standing for that quote |
| Export.ExportLoadRoundTrip | dom-manipulation/script.js:17-32 | saving and loading back restores the list exactly |
| Export.ExportImportAddsNothing | dom-manipulation/script.js:165-212 | importing an export into a store that already holds its quotes appends nothing |
| Export.Dashed | dom-manipulation/script.js:173 | the timestamp keeps its length and every other character, and each ':' and 'T' becomes '-' |
| Export.ExportFileName | dom-manipulation/script.js:173 | the file name is "quotes_", then the first 19 timestamp characters (all of a shorter one) with each ':' and 'T' turned into '-', then ".json" |
| Export.ExportFileNameExample | dom-manipulation/script.js:173 | the timestamp 2026-10-14T09:05:03.123Z gives quotes_2026-10-14-09-05-03.json |
| Store.PickAlwaysPossible | dom-manipulation/script.js:73-89 | for every store size and last index some pick satisfies the constraints, so the choice is always possible |
| Store.QuoteStore.PickRandom | dom-manipulation/script.js:73-91 | an empty store shows nothing; otherwise the index is in range, differs from the last index when there is one and more than one quote, and is 0 for a single quote |
| Store.QuoteStore.Start | dom-manipulation/script.js:264-282 | start-up loads the stored quotes, reuses the stored index exactly when it is within 0 and the list's length, and otherwise makes a random pick |

## Left out

- Rendering (`showQuoteByIndex`, `createAddQuoteForm`, `createImportExportControls`) and event wiring: user interface only.
- `localStorage` and `sessionStorage` reads and writes and their error handling: storage I/O; the stored payload and the last index are parameters, and writing after an add or import is not modelled.
- `JSON.parse`, `JSON.stringify` text, `Blob`, the object URL, the download click and `FileReader`: library calls and asynchronous file I/O; the parsed payload is a `Document`, and the exported text is represented by the items it parses back to.
- Parsing the stored last index with `Number` and `Number.isFinite`: floating point; the last index is an `Option<int>`, so a non-integral stored index is not represented.
- `alert` and `setTimeout` notices: messaging only; the import's notices are represented by `ImportOutcome`.
- Store.QuoteStore.PickRandom: does not model the distribution of `Math.random` or the do-while retry; the loop is represented by one nondeterministic choice of an index meeting its exit condition, so its termination (which holds only with probability one) is not modelled.
- Strings are sequences of Unicode scalar values, whereas JavaScript strings are sequences of UTF-16 code units: a text or category holding a lone surrogate (as `JSON.parse` of `"\uD800"` yields) is not represented by `Item`, `Trim` or `Key`.
- Text.IsSpace: the white-space set is ECMAScript's as of current Unicode; engines built on older Unicode tables may differ (for instance on U+180E).
- Store.QuoteStore.Load: objects kept by the load keep any extra properties in the source; the model's `Quote` holds only `text` and `category`.
- The current time used for the export file name is a parameter of `Export.ExportFileName`.
- The category filter, the server sync and the other variants of the widget are not part of this model; the file modelled contains none of them.
