# Product catalog core of learn-nextjs, in Dafny

This project models the product catalog of a small Next.js demo shop:

- the `Product` record and the in-memory store, which holds four records at start-up;
- the `/api/products` route handlers;
- the link-highlighting rule of the navigation bar.

GET returns a copy of the store filtered in two steps:

- first by category, an exact match after lowercasing both sides;
- then by search term, a substring test after lowercasing both sides.

It answers `success`, `count` and `data`. An absent or empty parameter switches its filter off.

POST works on a request body that has already been parsed:

- A body that failed to parse is answered with 400 "Invalid JSON body".
- A falsy name or price is answered with 400 "Name and price are required". A falsy name is absent or `""`; a falsy price is absent or `0`.
- Otherwise POST builds a record and returns 201 "Product created successfully" with it:
  - the id is the decimal rendering of the store length plus one;
  - the slug is the lowercased name with every whitespace run replaced by one `-`;
  - the description defaults to "No description provided" and the category to "general".
- The new record is then appended to the shared store.

The NavBar rule is:

- the Home link (`/`) is active only on `/` itself;
- any other link is active whenever the pathname starts with its path.

Modules:

- `Wrappers`: `Option`.
- `JsString`: the JavaScript string operations the core uses: `toLowerCase`, `\s`, `startsWith`, `includes`, and `${n}` for a natural number.
- `JsArray`: `Array.prototype.filter` and its order-preserving subsequence property.
- `Data`: the record, the seed, the id invariants and the `Store` class.
- `ProductsRoute`: GET, POST and their properties.
- `NavBar`: `isActive` and the Home test.

The handlers are modelled in two layers:

- **Specification functions.** GET is the pure function `List` over the store contents. POST is specified by `Respond`, which gives the response, and `StoreAfter`, which gives the new store contents.
- **Methods on the `Store` object.** `Get` reads the store and `Post` pushes onto it.

## Model

| member | source | states |
|---|---|---|
| JsString.ToLowerCase | app/api/products/route.ts:23 | the result has the input's length; every character is lowercased on its own (an ASCII capital becomes the character 32 code points higher, everything else is kept) |
| JsString.ToLowerCaseIdempotent | app/api/products/route.ts:23 | lowercasing an already lowercased string changes nothing |
| JsString.ToLowerCaseAppend | app/api/products/route.ts:61 | lowercasing distributes over concatenation |
| JsString.LowerCharKeepsWhitespace | app/api/products/route.ts:61 | lowercasing neither creates nor removes a `\s` character |
| JsString.StartsWithSelf | components/NavBar.tsx:15 | every string starts with itself |
| JsString.IncludesEmpty | app/api/products/route.ts:30 | every name includes the empty string |
| JsString.NotIncludesPair | app/api/products/route.ts:30 | a name in which the term's first two characters never stand side by side does not include the term |
| JsString.DecimalString | app/api/products/route.ts:60 | the rendering of a number is non-empty, is all digits, and starts with `0` exactly when the number is zero |
| JsString.DecimalRoundTrip | app/api/products/route.ts:60 | reading the rendering of a number back as decimal digits gives the number, so the id of a new record denotes the store length plus one |
| JsString.DecimalStringInjective | app/api/products/route.ts:60 | two numbers render to the same id if and only if they are equal |
| JsArray.Filter | app/api/products/route.ts:22-24 | the result is no longer than the input, and each of its elements comes from the input and is accepted by the callback |
| JsArray.FilterSelectsKept | app/api/products/route.ts:22-24 | the result is exactly the accepted elements, in input order: element k is the input element at the k-th accepted position, the positions increase, and a position is among them if and only if its element is accepted |
| JsArray.FilterComplete | app/api/products/route.ts:22-24 | every accepted element of the input is in the result |
| JsArray.FilterAll | app/api/products/route.ts:18 | a filter that accepts everything returns a copy of the input |
| JsArray.FilterCongruent | app/api/products/route.ts:22-31 | two callbacks with the same verdicts give the same result |
| JsArray.FilterFilter | app/api/products/route.ts:21-32 | filtering twice in a row is one filter by the conjunction of the two callbacks |
| JsArray.FilterSnoc | app/api/products/route.ts:22-24 | filtering an array extended at the end is filtering the prefix, then appending the last element when it is accepted |
| JsArray.FilterFour | app/api/products/route.ts:22-24 | a four-element array filters element by element, each kept exactly when accepted |
| Data.SeedShape | app/_lib/data.ts:16-49 | the seed holds four records with ids "1" to "4" in order, and every seed price is non-zero |
| Data.SequentialIdsAreUnique | app/_lib/data.ts:18 | ids that read "1".."n" in order are pairwise distinct |
| Data.Store.constructor | app/_lib/data.ts:16-49 | a fresh store holds exactly the seed records |
| ProductsRoute.List | app/api/products/route.ts:12-40 | the response is successful and its count is the length of its data; every listed product is in the store and matches every active filter; with no active filter the data is the whole store |
| ProductsRoute.ListIsOneFilter | app/api/products/route.ts:18-32 | the category filter followed by the search filter equals one filter by "matches every active filter" |
| ProductsRoute.ListSelectsMatches | app/api/products/route.ts:18-37 | GET returns exactly the matching products in store order: entry k is the store entry at an increasing position, and a position is selected if and only if its product matches |
| ProductsRoute.ListMembership | app/api/products/route.ts:18-37 | a product is listed if and only if it is in the store and matches the query |
| ProductsRoute.Get | app/api/products/route.ts:12-40 | GET modifies nothing and answers the listing of the current store contents |
| ProductsRoute.Hyphenate | app/api/products/route.ts:61 | replacing whitespace runs never lengthens the string and leaves no whitespace in it |
| ProductsRoute.HyphenateLeadingRun | app/api/products/route.ts:61 | a leading whitespace run of any length, followed by non-whitespace or nothing, becomes exactly one `-` |
| ProductsRoute.HyphenateWord | app/api/products/route.ts:61 | text without whitespace is left unchanged |
| ProductsRoute.HyphenateRun | app/api/products/route.ts:61 | in word + run + rest, the word is copied, the whole run becomes one `-`, and the rest is hyphenated in turn |
| ProductsRoute.HyphenateLower | app/api/products/route.ts:61 | hyphenating introduces no upper-case letter |
| ProductsRoute.Slug | app/api/products/route.ts:61 | the slug is no longer than the name, contains no whitespace and no upper-case letter |
| ProductsRoute.SlugOfWord | app/api/products/route.ts:61 | the slug of a word without whitespace is the lowercased word |
| ProductsRoute.SlugOfWordThen | app/api/products/route.ts:61 | the slug of a word, one space and text that starts with non-whitespace is the lowercased word, `-`, and the slug of that text |
| ProductsRoute.SlugOfTwoWords | app/api/products/route.ts:61 | the slug of two words separated by one space is the two lowercased words joined by `-` |
| ProductsRoute.SlugOfThreeWords | app/api/products/route.ts:61 | the slug of three words separated by single spaces is the three lowercased words joined by `-` |
| ProductsRoute.OrDefault | app/api/products/route.ts:64-65 | a truthy value is kept and a falsy one is replaced by the fallback |
| ProductsRoute.NewProduct | app/api/products/route.ts:59-66 | the new id is the canonical decimal of the store length plus one (all digits, no leading zero, denoting that number); name and price are copied; the slug is the name's slug; description and category are the supplied values when truthy and otherwise "No description provided" and "general" |
| ProductsRoute.Respond | app/api/products/route.ts:45-87 | POST creates if and only if the body parsed with a truthy name and a truthy price; the status is 201 for such a body and 400 for every other one; an unparseable body gets "Invalid JSON body"; a parsed but incomplete one gets "Name and price are required"; a created response carries the new record |
| ProductsRoute.StoreAfter | app/api/products/route.ts:70 | when POST creates, the store grows by exactly the new record at the end and earlier records are kept; otherwise the store is unchanged |
| ProductsRoute.PostKeepsIdsSequential | app/api/products/route.ts:59-70 | if the ids read "1".."n" before POST, they read "1".."n" or "1".."n+1" after it |
| ProductsRoute.PostIdIsFresh | app/api/products/route.ts:59-70 | under sequential ids a created record's id is taken by no earlier record, and all ids stay distinct |
| ProductsRoute.GapThenPostDuplicates | app/api/products/route.ts:60 | on a store with a gap in its ids (seed record 2 missing), POST gives the new record the id of the last record, so without sequential ids freshness is not guaranteed |
| ProductsRoute.GapButFresh | app/api/products/route.ts:60 | on a store with ids "1" and "4" only, the ids are not sequential, yet POST creates a record whose id "3" no remaining record has: sequential ids are sufficient for freshness, not necessary |
| ProductsRoute.Post | app/api/products/route.ts:45-87 | the handler answers `Respond` on the store it found, leaves the store as `StoreAfter` says, and preserves sequential ids |
| ProductsRoute.ElectronicsCategory | app/_lib/data.ts:23 | the category "Electronics" lowercases to "electronics" |
| ProductsRoute.ClothingCategory | app/_lib/data.ts:39 | the category "Clothing" lowercases to "clothing" |
| ProductsRoute.AccessoriesCategory | app/_lib/data.ts:47 | the category "Accessories" lowercases to "accessories" |
| ProductsRoute.SeedElectronics | app/api/products/route.ts:21-25 | on the seed, category "electronics" lists records 1 and 2, in that order |
| ProductsRoute.SeedCategoryIsExact | app/api/products/route.ts:23 | the category test is equality, not a substring test: "electronic" lists nothing |
| ProductsRoute.HeadsetNameHasHead | app/_lib/data.ts:19 | the lowercased headset name contains "head" |
| ProductsRoute.KeyboardNameLacksHead | app/_lib/data.ts:27 | the lowercased keyboard name does not contain "head" |
| ProductsRoute.HoodieNameLacksHead | app/_lib/data.ts:35 | the lowercased hoodie name does not contain "head" |
| ProductsRoute.DockNameLacksHead | app/_lib/data.ts:43 | the lowercased docking-station name does not contain "head" |
| ProductsRoute.SeedSearchHead | app/api/products/route.ts:28-32 | on the seed, search "head" lists only the headset |
| ProductsRoute.HeadsetSlug | app/_lib/data.ts:19-20 | the slug rule turns "Neon Gaming Headset" into "neon-gaming-headset" |
| ProductsRoute.KeyboardSlug | app/_lib/data.ts:27-28 | the slug rule turns "Mechanical Keyboard" into "mechanical-keyboard" |
| ProductsRoute.HoodieSlug | app/_lib/data.ts:35-36 | the slug rule turns "Developer Hoodie" into "developer-hoodie" |
| ProductsRoute.DockSlug | app/_lib/data.ts:43 | the slug rule turns "USB-C Docking Station" into "usb-c-docking-station" |
| ProductsRoute.SeedSlugsFollowNames | app/_lib/data.ts:17-40 | seed records 1 to 3 carry the slug their name yields |
| ProductsRoute.SeedHeadsetSlug | app/_lib/data.ts:17-24 | seed record 1 carries the slug its name yields |
| ProductsRoute.SeedKeyboardSlug | app/_lib/data.ts:25-32 | seed record 2 carries the slug its name yields |
| ProductsRoute.SeedHoodieSlug | app/_lib/data.ts:33-40 | seed record 3 carries the slug its name yields |
| ProductsRoute.SeedDockDerivedSlug | app/_lib/data.ts:41-48 | the slug rule turns seed record 4's name into "usb-c-docking-station" |
| ProductsRoute.SeedDockSlugDiffers | app/_lib/data.ts:41-48 | seed record 4's slug "usb-c-dock" is not the one its name yields |
| ProductsRoute.WidgetSlug | app/api/products/route.ts:61 | the slug rule turns "Test Widget" into "test-widget" |
| ProductsRoute.CreateTestWidget | app/api/products/route.ts:59-66 | on the seed, POST of "Test Widget" at price 10 creates record "5", "test-widget", with the default description and category |
| ProductsRoute.ZeroPriceRejected | app/api/products/route.ts:51-56 | a price of 0 is falsy: POST answers "Name and price are required" and the store is unchanged |
| NavBar.IsActive | components/NavBar.tsx:14-16 | equal paths are active; an active link's path is a prefix of the pathname; the root is active exactly on "/"; any other path is active exactly when it is a prefix |
| NavBar.HomeHighlighted | components/NavBar.tsx:32 | the Home link's own exact test agrees with `isActive("/")` |
| NavBar.ProductPageActivatesShop | components/NavBar.tsx:42 | the Shop link is active on a product detail page |
| NavBar.NoSegmentBoundary | components/NavBar.tsx:15 | there is no path-segment boundary check: "/productsale" activates "/products" |
| NavBar.RootNotActivatedByPrefix | components/NavBar.tsx:15 | the root link is not activated by a deeper path |

## Left out

- HTTP plumbing: `NextRequest`/`NextResponse`, URL parsing and JSON serialisation are not modelled. GET takes its two query parameters as `Option<string>`. POST takes the parsed body as the `Body` datatype.
- The response `timestamp` of GET: it reads the clock, so it is omitted from `ListResponse`.
- Dynamic typing of the body: fields are modelled with their intended types, a string name and a numeric price. Four cases follow from this:
  - A truthy non-string name, together with a truthy price, makes `toLowerCase` throw inside the `try`, so the source answers "Invalid JSON body". With a falsy price the check at line 51 answers "Name and price are required" first. The model has no non-string name.
  - A JSON `null` body also makes the source answer "Invalid JSON body". It is folded into `Unparseable`.
  - A body that is a JSON primitive such as a number has no `name`. It is `Parsed` with every field absent, and gets "Name and price are required".
  - A truthy non-string description or category, such as `"category": 5`, passes the `||` of lines 64-65 and is stored. A later GET with a category filter then throws at line 23, because a number has no `toLowerCase`. The model has only string descriptions and categories.
- Prices are exact `real`s rather than IEEE doubles. JSON cannot carry NaN, and no arithmetic is done on prices, so only the falsy test on zero matters.
- JsString.ToLowerCase: only ASCII letters are lowercased. Full Unicode case mapping, including mappings that change the length, is not modelled.
- The store is one process-wide array. Concurrent requests, re-initialisation on a server restart, and loss on redeploy are not modelled. Each `Post` is atomic.
- Other mutators of the store: in the source the same array is also changed by the handlers of app/api/products/[id]/route.ts. DELETE removes an entry. PATCH replaces an entry in place and keeps its id, so it does not affect the id claims below. `Post` preserves sequential ids, and `PostIdIsFresh` guarantees the new id fresh, only as long as no entry is removed. After a deletion the length-plus-one id can repeat an existing one, as `GapThenPostDuplicates` shows on a store with a gap.
- Strings are sequences of Unicode scalar values, not UTF-16 code units, so lone surrogates cannot be represented.
- app/api/products/[id]/route.ts, the middleware, the pages, and every presentational part of the NavBar are not part of this model.

## Observations

No finding is claimed against the files modelled here. Three behaviours follow from the code as written and are proved as plain facts:

- The seed's fourth record does not follow the slug rule POST uses. Its slug is "usb-c-dock", but its name would yield "usb-c-docking-station" (`ProductsRoute.SeedDockDerivedSlug`, `ProductsRoute.SeedDockSlugDiffers`).
- `isActive` has no path-segment boundary check (`NavBar.NoSegmentBoundary`).
- The id of a new record is the store length plus one, so it is guaranteed fresh while the ids are "1".."n" (`ProductsRoute.PostIdIsFresh`). After a gap it can repeat an existing id (`ProductsRoute.GapThenPostDuplicates`), though it need not (`ProductsRoute.GapButFresh`). Such a gap arises when the DELETE handler, which is not part of this model, removes a record.
