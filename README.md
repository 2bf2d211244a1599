# Product catalogue store

A model of the product controller of a small Express REST service. The service
keeps its products in one module-level array and answers six requests:

- list with filters and sorting (`getAllProducts`);
- get by id (`getProductById`);
- create (`createProduct`);
- full update (`updateProduct`);
- partial update (`patchProduct`);
- delete (`deleteProduct`).

The model has two layers:

- **Handlers.** Each mutating handler is a function from the store array (and
  the request) to a `Step`: the response and the array afterwards. The lookup
  by id is a function from the array and the raw id to a response. The
  lemmas that relate one request to the next are stated on these functions.
- **`ProductStore.Store`.** A class whose `products: seq<Product>` field is the
  shared array. Its methods do what the controller does, step by step: `push`,
  slot assignment, `Object.assign`, `splice`. Each method is proved to give
  exactly the response and new array of its handler function. Each method also
  keeps the invariant that integer ids are unique.

Listing is a read-only method that filters a copy of the array by id, category
and price, then sorts it. Its contract states the whole result:

- which records it keeps, each as often as in the store;
- that the store order is kept when there is no sort;
- that the result is ordered on the key when there is a sort;
- the three 400 errors.

The JavaScript the controller relies on is modelled too:

- **`parseInt` with one argument** (`JsParse`): leading white space, a sign,
  `0x`/`0X` switching to radix 16, the longest digit prefix, and `NaN` as
  `None`.
- **Strings** (`JsText`): truthiness, `toLowerCase`, `includes`, and `<`/`>`.
- **Ids as JavaScript numbers:** `Math.max()` of no ids is `-Infinity`, so a
  product created in an empty store gets the id `-Infinity`.
- **The sort comparator**, which never answers 0.

Where the documented behaviour of the service differs from the controller, the
model follows the controller:

- **Ids.** Creating in an empty store gives the id `-Infinity`, not 1. An id is
  not reserved once freed. After deleting the record with the largest id `m`,
  the next create gets `m` again exactly when `m - 1` is still held
  (`Handlers.DeleteLargestThenCreate`).
- **`inStock`.** `req.body.inStock || true` is `true` whatever the body says,
  including `false` (`Handlers.CreateIgnoresInStock`).
- **Price validation.** `updateProduct` and `patchProduct` do not check the
  price, so they can store a negative one.
- **Sorting.** The comparator is not a consistent comparator: equal keys give -1
  both ways. ECMAScript then leaves the whole order to the engine. The model
  claims what merge and TimSort engines deliver: a permutation that is ordered
  on the key. It claims no stability.

## Model

| member | source | states |
|---|---|---|
| ProductStore.Store.constructor | controllers/productController.js:1 | the store starts from the records the data module exports; it satisfies the unique-id invariant exactly when those records do |
| ProductStore.Store.GetAll | controllers/productController.js:3-48 | an unparsable `id` gives 400 "Invalid product ID"; then an unknown `sortBy` gives 400 "Invalid sort field"; then a bad `sortOrder` gives 400 "Invalid sort order"; otherwise 200 with every record that matches the id, contains the category case-insensitively and costs at most the price, each as often as in the store; without `sortBy` in store order, with it ordered on the field; the store is not changed |
| ProductStore.Store.GetById | controllers/productController.js:50-62 | answers as `Handlers.GetById` and leaves the store unchanged |
| ProductStore.Store.Create | controllers/productController.js:64-85 | answers and updates the array as `Handlers.Create` (append on success, unchanged on error) and keeps ids unique |
| ProductStore.Store.Update | controllers/productController.js:87-105 | answers and updates the array as `Handlers.Update` (one slot replaced on success, unchanged on error) and keeps ids unique |
| ProductStore.Store.Patch | controllers/productController.js:107-120 | answers and updates the array as `Handlers.Patch` and keeps ids unique |
| ProductStore.Store.Delete | controllers/productController.js:122-135 | answers and updates the array as `Handlers.Delete` (one record spliced out) and keeps ids unique |
| Handlers.GetById | controllers/productController.js:50-62 | 400 when the id does not parse; 404 when no record holds it; otherwise 200 with the first record holding it, which is in the store and has that id |
| Handlers.Create | controllers/productController.js:64-85 | missing name, category or price gives 400 "Name, category, and price are required" and a non-number or negative price gives 400 "Price must be a positive number", both leaving the store as it was; success (exactly when neither holds) appends one record, keeping the rest, and answers 201 with it; the record has the body's name, category and price, `inStock` true, and an id above every id in the store, which is an integer exactly when the store held one and is then one more than an id of the store, so exactly the largest id plus 1 |
| Handlers.Update | controllers/productController.js:87-105 | 400 for an unparsable id, then 404 for a missing one, then 400 when name, category or price is missing, each leaving the store as it was; otherwise only the found position changes, to the old record overlaid with the body, and the answer is that record |
| Handlers.Patch | controllers/productController.js:107-120 | 400 for an unparsable id, 404 for a missing one, store unchanged; otherwise only the found position changes, to the record overlaid with the body, and the answer is that record |
| Handlers.Delete | controllers/productController.js:122-135 | 400 for an unparsable id, 404 for a missing one, store unchanged; otherwise exactly the found record is cut out, the others keeping their order, and the answer carries "Product deleted" and that record |
| Handlers.Overlay | controllers/productController.js:103 | every field the body carries replaces the record's, every other field and the id stay |
| Handlers.LocatedWhenPresent | controllers/productController.js:93-96 | an id that parses and is held by some record is found at its first position |
| Handlers.CreateThenGet | controllers/productController.js:75-83 | when the store held an integer id, `GET` of the created id right after a successful create answers 200 with the created record |
| Handlers.CreateWithoutIntegerIds | controllers/productController.js:76 | in a store without integer ids the created record gets `-Infinity`, and no integer that the model's `parseInt` reads equals it |
| Handlers.CreateIgnoresInStock | controllers/productController.js:80 | the body's `inStock`, including `false`, makes no difference to the answer or the store |
| Handlers.DeleteThenGetNotFound | controllers/productController.js:133 | with unique ids, `GET` of an id right after its successful delete answers 404 |
| Handlers.PatchThenGet | controllers/productController.js:118 | `GET` right after a successful patch answers what the patch answered |
| Handlers.PatchWithoutChanges | controllers/productController.js:118 | a patch with an empty body answers as `GET` and changes nothing |
| Handlers.UpdateIsCompletePatch | controllers/productController.js:98-103 | once the body carries name, category and price, update and patch give the same answer and store |
| Handlers.CreateKeepsIdsUnique | controllers/productController.js:76-83 | a create keeps integer ids unique |
| Handlers.UpdateAndPatchKeepIdsUnique | controllers/productController.js:103 | update and patch keep integer ids unique |
| Handlers.DeleteKeepsIdsUnique | controllers/productController.js:133 | a delete keeps integer ids unique |
| Handlers.CreateExample | controllers/productController.js:75-83 | a store holding record 1 answers a create of B with record 2, `inStock` true, appended |
| Handlers.DeleteThenCreateReusesId | controllers/productController.js:76 | after deleting record 2 of records 1 and 2, the next create gets id 2 again |
| Handlers.DeletedPosition | controllers/productController.js:124-134 | a successful delete cuts out one position of the array and answers with the record that stood there |
| Handlers.RemovedLargest | controllers/productController.js:133 | with unique ids, cutting out the record with the largest id leaves only integer ids below it and keeps every other id |
| Handlers.CreateBelow | controllers/productController.js:76 | in a store whose integer ids are all below `m`, a create gets `m` exactly when `m - 1` is an id of the store |
| Handlers.DeleteLargestThenCreate | controllers/productController.js:76 | with unique ids, after deleting the record with the largest id `m`, the next create gets `m` again exactly when `m - 1` was an id of the store |
| Handlers.DraftComplete | controllers/productController.js:67 | the create body has a non-empty name, a non-empty category and some price |
| Handlers.PriceAccepted | controllers/productController.js:71 | the price is a JSON number and not negative |
| Handlers.ChangesComplete | controllers/productController.js:99 | the update body has a non-empty name, a non-empty category and some price |
| Products.FindIndex | controllers/productController.js:93 | the result is the first position holding the id, and there is none exactly when no record holds it |
| Products.FindIndexFinds | controllers/productController.js:128 | the first position holding an id is the one `findIndex` returns |
| Products.MaxId | controllers/productController.js:76 | no id is above the maximum, which is one of the ids unless it is `-Infinity` |
| Products.NextId | controllers/productController.js:76 | the largest id plus 1, where `-Infinity + 1` stays `-Infinity` |
| Products.NextIdAbove | controllers/productController.js:76 | the next id is above every id, is an integer exactly when some id is, and is then one more than an id of the store |
| Products.IdLess | controllers/productController.js:40 | `<` on ids: `-Infinity` is below every integer, integers compare as numbers |
| Products.FieldLess | controllers/productController.js:40-42 | `<` on the field a sort names: strings by `<` on strings, prices and ids as numbers |
| Products.FieldLessAsymmetric | controllers/productController.js:40 | `<` on a sort field never holds both ways |
| Products.FieldLessSplits | controllers/productController.js:40-42 | if `a[f] < c[f]`, any `b` has `a[f] < b[f]` or `b[f] < c[f]` |
| Sorting.Comparator | controllers/productController.js:38-44 | the comparator answers 1 or -1, never 0 |
| Sorting.ComparatorAgrees | controllers/productController.js:38-44 | the comparator puts `a` after `b` exactly when `a` may not come first in the requested order |
| Sorting.InOrderFlip | controllers/productController.js:38-44 | two records the comparator puts out of order are in order the other way round |
| Sorting.InOrderTransitive | controllers/productController.js:38-44 | "may come before" is transitive for both orders and every field |
| Sorting.Insert | controllers/productController.js:38-44 | inserting into an ordered list keeps it ordered and adds exactly that record |
| Sorting.Sort | controllers/productController.js:38-44 | the sorted list is a permutation of the input, ordered on the field in the requested order |
| Sorting.SortExample | controllers/productController.js:38-44 | sorting records 1 (price 10) and 2 (price 5) by price ascending lists 2 first |
| Listing.Filter | controllers/productController.js:11 | `filter` keeps the accepted records, each as often as in the input, in input order |
| Listing.SubsequenceTransitive | controllers/productController.js:11-23 | filtering a filtered list keeps the store order |
| Listing.ParseField | controllers/productController.js:28-29 | a field is recognised exactly for name, category, price and id, and each of these names selects the field of that name |
| Listing.Selected | controllers/productController.js:6-25 | a record passes all three filters of the query |
| Listing.IdSelected | controllers/productController.js:11 | without an `id` query every record passes; with one, exactly the records whose integer id equals what `parseInt` reads |
| Listing.CategorySelected | controllers/productController.js:15-17 | without a `category` query every record passes; with one, exactly the records whose lower-cased category contains the lower-cased query |
| Listing.PriceSelected | controllers/productController.js:20-24 | without a numeric `price` query every record passes; with one, exactly the records priced at most that number |
| Listing.IdRejected | controllers/productController.js:6-10 | an `id` query is given and `parseInt` reads `NaN` from it |
| Listing.SortFieldRejected | controllers/productController.js:27-31 | a `sortBy` query is given and names none of the four fields |
| Listing.SortOrderRejected | controllers/productController.js:27-36 | a `sortBy` query is given and `sortOrder` is neither absent, empty, "asc" nor "desc" |
| Listing.SortOrder | controllers/productController.js:33-34 | an absent or empty `sortOrder` means ascending; otherwise only "asc" and "desc" are accepted |
| JsText.Truthy | controllers/productController.js:6 | an optional string is truthy exactly when it is present and not empty |
| JsText.Includes | controllers/productController.js:16 | `t` occurs in `s` as a contiguous run starting at some position |
| JsText.StrLess | controllers/productController.js:40-42 | `<` on strings, comparing character by character with a proper prefix first |
| JsText.StrLessAtFirstDifference | controllers/productController.js:40-42 | `a < b` exactly when, after their common prefix, `a` ends while `b` goes on or `a` has the smaller character |
| JsText.ToLower | controllers/productController.js:16 | lower-casing keeps the length and lower-cases each letter A-Z |
| JsText.ToLowerIdempotent | controllers/productController.js:16 | lower-casing twice equals lower-casing once |
| JsText.ToLowerIgnoresCase | controllers/productController.js:16 | strings that differ only in the case of letters lower-case to the same string |
| JsText.StrLessIrreflexive | controllers/productController.js:40 | no string is below itself |
| JsText.StrLessTransitive | controllers/productController.js:40-42 | string `<` is transitive |
| JsText.StrLessTotal | controllers/productController.js:40-42 | of two different strings, one is below the other |
| JsText.StrLessAsymmetric | controllers/productController.js:40-42 | string `<` never holds both ways |
| JsParse.ParseInt | controllers/productController.js:7 | `parseInt` with one argument: skip white space, take a sign, read the longest digit run in radix 16 after `0x` and 10 otherwise, `NaN` when that run is empty |
| JsParse.ParseIntParts | controllers/productController.js:51 | white space, then at most one `+` or `-`, then a non-empty run of decimal digits, then text that does not continue the run and does not form a `0x` prefix: `parseInt` gives the value of the digits, negated exactly when the sign is `-` (so "+5" gives 5 and "007" gives 7) |
| JsParse.DecimalMagnitude | controllers/productController.js:51 | decimal digits followed by text that does not continue them are read as the value of the digits |
| JsParse.ParseSigned | controllers/productController.js:51 | no sign or `+` keeps the magnitude of a string that starts with a digit, and `-` negates it |
| JsParse.ParseIntRoundTrip | controllers/productController.js:51 | the decimal digits of every integer `n`, with a leading `-` when it is negative, parse as `n` |
| JsParse.ParseIntLenient | controllers/productController.js:51 | `parseInt` of an integer's digits followed by text that does not continue them (such as "12abc") is that integer |
| JsParse.ParseIntSkipsLeadingWhiteSpace | controllers/productController.js:88 | leading white space does not change what `parseInt` reads |
| JsParse.ParseIntNaN | controllers/productController.js:108 | with no digit after the white space and the sign (such as "abc" or ""), `parseInt` is `NaN` |
| JsParse.ParseIntHex | controllers/productController.js:123 | after "0x" the longest run of hexadecimal digits is read in radix 16 |
| JsParse.DecimalStringCorrect | controllers/productController.js:7 | the decimal form of a natural number is a non-empty digit string worth that number, with no leading zero |
| JsParse.TrimStart | controllers/productController.js:7 | trimming removes exactly the leading white space |
| JsParse.DigitRun | controllers/productController.js:7 | the digit run is the longest prefix of digits |

## Left out

- The HTTP server, the routing table and JSON body parsing (`app.js`, `routes/productRoutes.js`) are not part of this model. A request is modelled by its already-parsed parameters and body.
- `data/product.js` is not part of this model. The initial records are a parameter of the `ProductStore.Store` constructor.
- Prices are `real`, not IEEE-754 doubles. `parseFloat` of the `price` query is not modelled: the query arrives already read as absent, `NaN` or a number (`Listing.PriceArg`).
- Products.NextId: ids are unbounded integers, so the largest id plus 1 always grows. In JavaScript `+ 1` stops growing at 2^53, where a store holding id 2^53 gives the new record that same id. The contracts of Handlers.Create and Handlers.CreateKeepsIdsUnique (new id above every id, ids stay unique) hold only for ids below 2^53.
- JsParse.IntToString: writes every integer as its decimal digits. JavaScript's `String(n)` switches to exponent form from 10^21 on ("1e+21"), which `parseInt` reads as 1.
- JsParse.ParseInt: returns an unbounded integer. It does not model the loss of precision of JavaScript numbers above 2^53, or the `Infinity` that a very long digit string produces.
- Request bodies are typed. Update and patch bodies carry only name, category, price and `inStock`, so a body cannot overwrite the id, add unknown fields, or store a non-string name. A non-boolean truthy `inStock` is not modelled.
- JsText.ToLower: lower-cases only the letters A to Z, not the rest of Unicode.
- JsText.StrLess: compares strings by code point, where JavaScript compares UTF-16 code units. The two differ only for characters outside the Basic Multilingual Plane.
- Sorting.Sort: because the comparator never answers 0, ECMAScript leaves the whole order to the engine. The sort claims what merge and TimSort engines deliver, a permutation ordered on the key, and fixes no order among equal keys. It is modelled on a sequence value rather than in place on the array copy.
- Query parameters given more than once (arrays in Express) are not modelled. Each parameter is an optional string.
- `Math.max` with more arguments than the engine's call stack allows is not modelled.
- `Object.assign` mutates the record object that `find` returned. The model replaces the record at its position, which is observably the same because no other reference to the record escapes the handler.
