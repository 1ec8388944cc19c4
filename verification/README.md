# Menu catalog controller, modelled in Dafny

This project models the menu controller of a restaurant-catalog HTTP API
(`controllers/menuController.js`). The controller has seven handlers:
- `getAllMenus`, which is also exported as `searchMenu`, lists the catalog.
  It reads the `q`, `category`, `min_price`, `max_price`, `max_cal`, `sort`,
  `page` and `per_page` query parameters.
- `createMenu`, `getMenuById`, `updateMenu` and `deleteMenu` read and write
  single records.
- `groupByCategory` reports per category, as counts or as lists.

In the model the document collection is an immutable `Store`. It is a map from
a record's numeric id to the record. A listing reads a snapshot of the
collection, kept as a `seq<MenuItem>`. Every handler is a pure function. A
command returns an `Outcome`, which holds the store after the call and the
response, so "the store is unchanged" can be stated directly.

The modules follow the controller:

- `Menu`: the record, the error kinds and the store.
- `Text`: `trim`, `toLowerCase`, `includes` and `split`, with their JavaScript
  meanings. The whitespace set is the ECMAScript WhiteSpace and
  LineTerminator set.
- `JsNumber`: `Number(s)` and `isNaN(s)` on a query-string value.
- `Filters`: `isValid` and the five filters, applied in the handler's order.
  `KeepAll` is a reference filter that keeps the items satisfying every
  criterion in a single pass.
- `Sorting`: the `sort=field[:order]` parameter and the field comparator on
  the numeric fields `id`, `price` and `calories`. The sort is stable and
  treats a `NaN` comparison as "equal".
- `Pagination`: `total_pages = Math.ceil(total / limit) || 1` and
  `slice(startIndex, startIndex + limit)`. Both are modelled for every integer
  page number and page size, including 0 and negative values (but not
  `-0`; see Left out).
- `MenuQuery`: the whole `getAllMenus` pipeline.
- `Commands`: create, get, update and delete.
- `Grouping`: `groupByCategory` as intended. `GroupingAsWritten` models it as
  the code evaluates it (see Findings).

Calls outside the controller become parameters:
- the description generator is an `Option<string>` oracle, where `None` means
  the call threw;
- the clock is a `Timestamp` value `now`;
- the database is the `Store` or the snapshot.

## Model

| member | source | states |
|---|---|---|
| Filters.NumericParamOfNumeral | controllers/menuController.js:27-29 | `NumericParam`: a parameter holding the decimal numeral of an integer `n` passes `isValid` and `!isNaN` and is read as `n`. |
| JsNumber.NumeralHasNoBrace | controllers/menuController.js:7 | A decimal numeral never contains `{`, so it never trips the `{{` guard. |
| JsNumber.ParseShowRoundTrip | controllers/menuController.js:27-29 | `Number` reads back every integer written in decimal, so a numeric parameter carries the intended bound. |
| JsNumber.BlankIsZero | controllers/menuController.js:27-29 | `Number` reads a whitespace-only string, the empty one included, as 0. |
| Filters.BlankParamIsZero | controllers/menuController.js:7-29 | A non-empty whitespace-only parameter passes `isValid` and `!isNaN` and is read as 0, so `min_price=%20` filters on price at least 0. |
| JsNumber.LetterIsNaN | controllers/menuController.js:27-29 | The model reads a parameter with a lower-case letter in its trimmed text as `NaN`, so its filter is skipped. JavaScript accepts some such literals (`1e3`, `0x1f`); see Left out. |
| Text.TrimIsInfix | controllers/menuController.js:64 | `trim` keeps a stretch of the input with only whitespace before and after it. |
| Text.TrimUnpadded | controllers/menuController.js:69 | `trim` leaves alone text that neither starts nor ends with whitespace. |
| Text.TrimIdempotent | controllers/menuController.js:69 | Trimming twice changes nothing more than trimming once. |
| Text.BlankIffAllWhitespace | controllers/menuController.js:64 | `description.trim() === ""` holds exactly when the description is all whitespace. |
| Text.Lower | controllers/menuController.js:22 | Lower-casing keeps the length, maps each character separately and leaves no upper-case ASCII letter. |
| Text.LowerIdempotent | controllers/menuController.js:22 | Lower-casing an already lower-cased name changes nothing. |
| Text.ContainsFirst | controllers/menuController.js:7 | A string that includes a non-empty needle holds the needle's first character. |
| Text.ContainsIff | controllers/menuController.js:22 | `includes` holds exactly when the needle occurs at some offset of the haystack. |
| Text.IndexOf | controllers/menuController.js:33 | Gives the position of the first separator, or the length when there is none. |
| Text.IndexOfFound | controllers/menuController.js:33 | The first-separator position is inside the string exactly when the separator occurs. |
| Text.Split | controllers/menuController.js:33 | `split` returns at least one piece. The first piece is the text before the first separator, no piece holds the separator, and joining the pieces gives back the input. |
| Text.SplitJoin | controllers/menuController.js:33 | Splitting the join of separator-free pieces gives back the pieces. |
| Text.SplitWhole | controllers/menuController.js:33-35 | A string without the separator splits into itself alone. |
| Text.SplitAfterFirst | controllers/menuController.js:33-35 | The split at the first separator is the head, then the split of the rest. |
| Filters.KeepAllIsSubsequence | controllers/menuController.js:21-29 | The reference filter keeps items of the snapshot only, in snapshot order. |
| Filters.KeepIsSubsequence | controllers/menuController.js:21-29 | A single `filter` pass keeps items of its input only, in their order. |
| Filters.KeepSnoc | controllers/menuController.js:21-29 | Filtering a sequence with one more item at the end keeps what the shorter one keeps, then that item if it passes. |
| Filters.KeepAllNoCriteria | controllers/menuController.js:21-29 | With no active filter every item is kept. |
| Filters.KeepAllSound | controllers/menuController.js:21-29 | Every item the reference filter keeps satisfies every active criterion. |
| Filters.KeepAllMembers | controllers/menuController.js:21-29 | What the reference filter keeps is in the snapshot and satisfies every criterion. |
| Filters.KeepAllCounts | controllers/menuController.js:21-29 | The reference filter keeps each satisfying item as many times as it occurs and drops every other item. |
| Filters.KeepThenKeepAll | controllers/menuController.js:21-29 | One filter pass followed by several is the same as filtering by all of them at once. |
| Filters.ApplyInOrderIsKeepAll | controllers/menuController.js:21-29 | The five sequential passes keep exactly what the single-pass reference filter keeps. |
| Filters.FilteredCharacterized | controllers/menuController.js:21-29 | The filter stage is a subsequence of the snapshot. Its items satisfy every active criterion, and it keeps, with multiplicity, exactly the satisfying snapshot items. |
| Sorting.ParseSort | controllers/menuController.js:32-35 | The sort field is the text before the first colon. The sort is descending exactly when the piece after it, up to any next colon, is `desc`. |
| Sorting.ParseSortPair | controllers/menuController.js:33-35 | `field:order` sorts on `field`, descending exactly when `order` is `desc`. |
| Sorting.ParseSortForms | controllers/menuController.js:33-35 | `field` and `field:asc` sort ascending and `field:desc` sorts descending, all on `field`. |
| Sorting.PriceDesc | controllers/menuController.js:33-35 | `price:desc` parses to a descending sort on `price`. |
| Sorting.Insert | controllers/menuController.js:36 | One insertion step adds exactly the item: the multiset grows by it. |
| Sorting.InsertUnkeyed | controllers/menuController.js:36 | An item whose field is `NaN` never precedes anything, so it goes last. |
| Sorting.InsertRanked | controllers/menuController.js:36 | Inserting a keyed item into ordered keyed items keeps them ordered and keeps every lower bound. |
| Sorting.SortItems | controllers/menuController.js:36 | Sorting permutes the items. |
| Sorting.SortUnkeyed | controllers/menuController.js:36 | Sorting on a field that is `NaN` in every item leaves the order unchanged. |
| Sorting.SortItemsRanked | controllers/menuController.js:36 | When every item has a number in the field, the sorted items are in order. |
| Sorting.SortedByField | controllers/menuController.js:36 | The result is a permutation of the input. It is non-decreasing in the field for an ascending sort and non-increasing for a descending one. |
| Sorting.InFieldOrderSlice | controllers/menuController.js:36 | Any contiguous run of ordered items is in order. |
| Sorting.PriceBefore | controllers/menuController.js:36 | Under `price:desc` a dearer item comes before a cheaper one, and never the reverse. |
| Sorting.SortTwo | controllers/menuController.js:36 | Sorting two items where the second must come first swaps them. |
| Sorting.InsertMiddle | controllers/menuController.js:36 | An item that belongs between two others is inserted between them. |
| Sorting.SortThree | controllers/menuController.js:36 | The insertion order for three items whose relative order is given. |
| Sorting.PriceDescExample | controllers/menuController.js:32-36 | `sort=price:desc` on prices 10, 30, 20 gives 30, 20, 10. |
| Pagination.CeilDiv | controllers/menuController.js:43 | `Math.ceil(total / limit)` for a positive limit: the least `n` with `total <= n * limit`. |
| Pagination.TotalPages | controllers/menuController.js:43 | `total_pages` is 1 with no items. It is at least 1 for a positive limit, `Infinity` for limit 0 with items, and at most 1 for a negative limit. |
| Pagination.TotalPagesPositive | controllers/menuController.js:43 | For a positive limit, `total_pages` is the least number of `limit`-item pages that hold all items. |
| Pagination.TotalPagesNegative | controllers/menuController.js:43 | For a negative limit, `total_pages` is 1 exactly while `total < -limit`. Otherwise it is the ceiling of the negative quotient. |
| Pagination.JsSlice | controllers/menuController.js:47 | `slice`, with `SliceIndex` resolving each end: for `0 <= start <= end` it is the window clamped to the sequence, and it is empty when `0 <= end <= start`. |
| Pagination.SliceNegativeEnd | controllers/menuController.js:47 | For `0 <= start` and a negative `end`, `slice` drops the last `-end` items and returns the rest from `start` on. |
| Pagination.PageWindow | controllers/menuController.js:44-47 | For page and limit of at least 1, a page is the window of at most `limit` items from `(page-1)*limit`. It is empty past the end. |
| Pagination.FirstPagesPrefix | controllers/menuController.js:44-47 | Pages 1 to n laid end to end are the items before page n+1 starts. |
| Pagination.NextPageStart | controllers/menuController.js:44 | Page n+1 starts `limit` items after page n. |
| Pagination.PrefixThenWindow | controllers/menuController.js:44-47 | The items before a page, followed by the page, are the items before the next page. |
| Pagination.PagesCoverResult | controllers/menuController.js:43-47 | Pages 1 to `total_pages` hold every item exactly once, in order. |
| Pagination.NonEmptyPages | controllers/menuController.js:43-47 | With items to show, a page is non-empty exactly when its number is between 1 and `total_pages`. |
| Pagination.TwentyFiveItems | controllers/menuController.js:41-47 | 25 items at the default 10 per page make 3 pages. Page 3 holds the last 5 items and page 4 is empty. No items still means 1 page. |
| MenuQuery.PageParams | controllers/menuController.js:40-41 | `PageNumber` and `PageSize` through `getAllMenus`: `page=n` and `per_page=n` for an integer numeral `n` report page `n` and `n` per page. An absent or invalid parameter gives page 1 and 10 per page. |
| MenuQuery.Ordered | controllers/menuController.js:32-37 | The sort stage permutes the filtered items. Without a valid `sort` it leaves them as they are. |
| MenuQuery.PageIsSlice | controllers/menuController.js:47 | Every page is a contiguous run of the sorted items. |
| MenuQuery.PageBounds | controllers/menuController.js:44-47 | Gives the indices a page is cut between. |
| MenuQuery.RunSound | controllers/menuController.js:21-47 | `Run`, the pipeline: every item on the page is from the snapshot and satisfies every filter. `total` counts the satisfying snapshot items. |
| MenuQuery.OrderedMembers | controllers/menuController.js:32-37 | Sorting adds no item that was not in the filtered sequence. |
| MenuQuery.PageMembers | controllers/menuController.js:47 | A page holds items of what it is cut from. |
| MenuQuery.ListingSound | controllers/menuController.js:11-49 | `GetAllMenus` (and the `searchMenu` alias): every returned item is from the snapshot and satisfies every active filter, and `total` counts the snapshot items that do. |
| MenuQuery.RunWindow | controllers/menuController.js:42-47 | For page and limit of at least 1, `data` is the window of the sorted items from `(page-1)*limit`. It holds at most `limit` items and is empty past `total`. |
| MenuQuery.MetadataIndependentOfPage | controllers/menuController.js:42-48 | A different page, one past the end included, reports the same `total`, `per_page` and `total_pages`. |
| MenuQuery.InvalidParamsIgnored | controllers/menuController.js:21-41 | Any parameter that fails `isValid`, or a numeric parameter that is `NaN`, has the same effect as leaving it out. |
| MenuQuery.RunSorted | controllers/menuController.js:32-47 | With a sort on a field every filtered item has a number in, the page is in field order. |
| MenuQuery.ListingSorted | controllers/menuController.js:11-49 | The same ordering, for `getAllMenus`. |
| Commands.NextId | controllers/menuController.js:76-80 | The new id is 1 for an empty store. Otherwise it is one more than the largest stored id. |
| Commands.MaxOf | controllers/menuController.js:76 | Gives the largest stored id, which is what the descending, limit-1 query reads. |
| Commands.LargestElement | controllers/menuController.js:76 | A non-empty set of ids has a largest element. |
| Commands.FallbackNotBlank | controllers/menuController.js:71 | The fallback description is not blank. |
| Commands.DescribeBlank | controllers/menuController.js:64-73 | `Describe`: the stored description is blank only when the caller gave a blank or no description and the generator returned blank text. |
| Commands.CreateWithoutDescription | controllers/menuController.js:64-73 | With no usable description and a failing generator, the created record's description is "Delicious menu item", which is not blank. |
| Commands.CreateAddsOneRecord | controllers/menuController.js:76-94 | `Create`: on a well-keyed store a create with the required fields adds exactly one record, under a fresh key above all others. It changes no other record and keeps the store well-keyed. |
| Commands.PutFresh | controllers/menuController.js:94 | Writing under a key above every stored one adds one record and keeps the store well-keyed. |
| Commands.CreateThenGet | controllers/menuController.js:82-110 | `Create` then `GetById`: the created record reads back under its id, with the body's name, category and price, and `ingredients` of `[]` when the body has none. Every other id reads as before. |
| Commands.CreateTwice | controllers/menuController.js:76-94 | Two creates in a row get consecutive ids, on any store. |
| Commands.Update | controllers/menuController.js:116-137 | An absent id gives not-found and leaves the store unchanged. Otherwise the body's fields replace the stored ones, `id` is pinned to the path and `updated_at` is refreshed. The response is the persisted record. No other record or key changes. |
| Commands.UpdateIdempotent | controllers/menuController.js:116-133 | Repeating an update with the same body and instant changes nothing further. |
| Commands.UpdateEmptyPatch | controllers/menuController.js:124-132 | An empty body only refreshes `updated_at`. |
| Commands.UpdateThenGet | controllers/menuController.js:130-133 | After an update the record reads back as the response. |
| Commands.UpdatePriceOnly | controllers/menuController.js:124-132 | The body `{price: 99}` sets the price, keeps id 5 and every other field, and refreshes `updated_at`. |
| Commands.Delete | controllers/menuController.js:139-152 | An absent id gives not-found and leaves the store unchanged. Otherwise exactly that key is removed and no other record changes. |
| Commands.DeleteThenGet | controllers/menuController.js:103-148 | `Delete` then `GetById`: after a delete the id reads as not found and every other id reads as before. A second delete fails and changes nothing. |
| Grouping.GroupByCategoryMeaning | controllers/menuController.js:158-181 | `GroupByCategory`: `mode=count` reports, for exactly the categories some item has, the number of items in it. `mode=list` reports their `{id, name, category, price}` projections (`SummarizeAll`) in snapshot order. Any other mode, absent included, gives "Invalid mode". |
| Grouping.CountOfCategory | controllers/menuController.js:164-167 | A category has a count exactly when some item is in it, and the count is the number of such items. |
| Grouping.CountsPerCategory | controllers/menuController.js:164-167 | The same, for every category at once. |
| Grouping.ListOfCategory | controllers/menuController.js:169-175 | A category has a list exactly when some item is in it. The list is the projections of its items, in snapshot order. |
| Grouping.ListsPerCategory | controllers/menuController.js:169-175 | The same for every category, and each category's items are a subsequence of the snapshot. |
| Grouping.ModesAgree | controllers/menuController.js:164-175 | Both modes report the same categories, and each list is as long as that category's count. |
| Grouping.TotalRemove | controllers/menuController.js:164-167 | The sum of the counts does not depend on the order they are added in. |
| Grouping.TallyTotal | controllers/menuController.js:166 | Counting one more item adds one to the sum of the counts. |
| Grouping.CountsSumToSize | controllers/menuController.js:164-167 | The counts add up to the number of items in the snapshot. |
| GroupingAsWritten.Inherited | controllers/menuController.js:165-166 | A fresh `{}` answers `undefined` exactly for names that `Object.prototype` does not define. |
| GroupingAsWritten.OrZeroPlusOne | controllers/menuController.js:166 | Adding 1 to the value read, or to 0 when it is falsy, gives 1 for a falsy value and adds one to a number. Any other truthy value gives a string ending in `1`. |
| GroupingAsWritten.CountsAsWrittenOrdinary | controllers/menuController.js:164-167 | With no inherited name among the categories, the count loop as written gives the intended counts. |
| GroupingAsWritten.ListAsWrittenOrdinary | controllers/menuController.js:169-175 | With no inherited name among the categories, the list loop as written gives the intended lists and does not throw. |
| GroupingAsWritten.ListAsWrittenThrows | controllers/menuController.js:169-175 | The list loop as written throws exactly when some category is an inherited name. |
| GroupingAsWritten.InheritedNeverOwned | controllers/menuController.js:172 | With ordinary categories, no inherited name gets a list. |
| GroupingAsWritten.InCategoryMember | controllers/menuController.js:171-173 | A non-empty category contains an item of the snapshot. |
| GroupingAsWritten.ConstructorCategoryMiscounted | controllers/menuController.js:166 | One item in category `constructor` is counted as the string `"function Object() { [native code] }1"` instead of 1, and the list mode throws on it. |
| GroupingAsWritten.ProtoCategoryDropped | controllers/menuController.js:166 | A category named `__proto__` is missing from the counts, and the list mode throws on it. |

## Left out

- Firebase I/O: `get`, `set`, `update`, `delete` and the `orderBy('id', 'desc').limit(1)` query are replaced by the `Store` map, the snapshot sequence and `NextId`. Store and network failures, which give status 500, are not modelled.
- Document keys are path strings (`doc(id)`). The model keys documents by the numeric id, so `"01"` and `"1"` are not distinguished, and a non-numeric path id is not modelled.
- The description generator's client, model name and prompt are left out. It is an external, nondeterministic service, and only its answer (`Option<string>`) is modelled.
- Express routing, CORS, dotenv and `listen` are left out. HTTP status codes and JSON shaping are folded into `Result` and `MenuError`.
- Concurrent creates can read the same maximum id and write the same `newId`. Creates are modelled one after another.
- `created_at` and `updated_at` share one instant `now`. The source calls `new Date()` twice.
- Numbers are unbounded integers, while JavaScript numbers are doubles. Above 2^53 they round: `page=9007199254740993` reports page 9007199254740992 in JavaScript and 9007199254740993 in the model. Prices are integers in the body, so a string price such as `"0"` (truthy in JavaScript) is not modelled.
- JsNumber.LetterIsNaN: the model reads only optionally signed decimal integers. Fractional (`1.5`), exponent (`1e3` is 1000), hexadecimal (`0x1f` is 31), binary and octal literals and `Infinity`, which `Number` accepts, are read as `NaN`, so `min_price=1e3` filters in JavaScript and is skipped in the model.
- Negative zero: `per_page=-0` is 0 in the model, so `total_pages` is `Unbounded` (+Infinity) with items to show. In JavaScript `Math.ceil(5 / -0)` is -Infinity. The page cut is the same (`slice` of an empty window).
- Sorting.SortKey: only `id`, `price` and `calories` have a sort key; every other field sorts as `NaN`, leaving the order unchanged. JavaScript's `a[field] - b[field]` coerces strings and arrays, so `sort=name` over names `"12"` and `"9"` orders them numerically, and a blank name or an empty `ingredients` array counts as 0. That coercion is not modelled.
- Pagination.JsSlice: its contract covers `0 <= start` with `0 <= end`; a negative `end` is stated in `Pagination.SliceNegativeEnd`. A negative `start`, which counts from the end, is stated only by `SliceIndex` and the body.
- Text.Lower: lower-cases ASCII letters only. Unicode case mapping is not modelled.
- Query parameters are single strings or absent. Repeated parameters, which Express turns into arrays, are not modelled.
- A sort on a field that only some filtered items have a number in: the order among the `NaN` comparisons is left to the engine, and the model only promises a permutation (`Sorting.SortItems`).
- The update body carries only the record's own fields. Extra fields the body may add are not modelled.
- The key order of JSON objects in the reports is not modelled. Counts and lists are maps.
- Text.Trim: its contract states only that the ends of the result are not whitespace. That the result is what lies between the leading and trailing whitespace is stated in `Text.TrimIsInfix`.
- Sorting.Insert: its contract states only the multiset. The placement is stated in `Sorting.InsertRanked` and `Sorting.InsertUnkeyed`.
- Sorting.SortItems: its contract states only the permutation. The order is stated in `Sorting.SortedByField` and `Sorting.SortUnkeyed`.
- MenuQuery.Run: its contract states only the metadata. The contents of `data` are stated in `MenuQuery.RunSound`, `MenuQuery.RunWindow` and `MenuQuery.RunSorted`.
- MenuQuery.GetAllMenus: its contract states only the metadata. The contents of `data` are stated in `MenuQuery.ListingSound` and `MenuQuery.ListingSorted`.
- A description can end up blank. When the caller gives none and the generator answers with whitespace only, the trimmed text is `""` and is stored as is (`Commands.DescribeBlank`). The model follows the code here, not the documented invariant that every stored description is non-blank.

## Findings

| source | as written | input that shows it | evidently intended | confidence | as-written member | corrected member |
|---|---|---|---|---|---|---|
| controllers/menuController.js:165-173 | `counts` and `grouped` are plain `{}` objects, so `counts[m.category]` and `grouped[m.category]` read inherited `Object.prototype` members for categories such as `constructor`, `toString` or `__proto__` | one item with category `constructor`: `mode=count` reports `"function Object() { [native code] }1"` instead of 1, and `mode=list` throws (status 500). One item with category `__proto__`: the count is dropped. | each category is counted, or listed, like any other (a prototype-free map) | high; not executed | GroupingAsWritten.ConstructorCategoryMiscounted | Grouping.CountsPerCategory |
