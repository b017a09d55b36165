# Wishlist and product availability core, in Dafny

This project models the part of an e-commerce catalog where state and invariants matter:

* **Product availability** (`product.dfy`, module `ProductModel`). A product document
  holds a non-empty sequence of inventory variants (`skuId`, size label, `inventory`,
  `available`). The derived `totalStock` sums the counts of the available variants,
  `inStock` is `totalStock > 0`, and the pre-save hook persists `isOutOfStock` as
  `totalStock == 0`. `decreaseInventory` finds the first variant with a SKU, rejects an
  unknown SKU or an overdraw, lowers the count, clears `available` at exactly 0 and
  saves. The static finders `findByProductIds`, `findInStock` and `searchProducts` are
  modelled as the set of documents their queries select from a catalog sequence.
* **Server wishlist handlers** (`wishlist_server.dfy`, module `WishlistServer`). Each
  user record stores its wishlist as a sequence of product references. Add and remove
  map a public `productId` to a reference through the catalog (404 when absent). Then
  they apply one MongoDB update: `$addToSet` appends only when absent, `$pull` removes
  every occurrence. Clear sets the array to `[]`. Get resolves the references and drops
  the unresolvable ones. Every handler shapes `{success, message, wishlist, wishlistCount}`.
  The class `WishlistStore` keeps the invariant that no user's list holds a reference twice.
* **Client wishlist cache** (`wishlist_client.dfy`, module `WishlistClient`). Class
  `WishlistCache` holds `wishlist` and `error`. Add appends optimistically, then
  either replaces the list wholesale with the server's or rolls the id back out and
  rethrows. Remove snapshots, filters optimistically, then replaces the list or restores
  the snapshot without rethrowing. Toggle dispatches on membership. Fetch replaces the
  list or records an error. Each asynchronous handler is split at its `await` into
  `Begin…` and `Settle…` methods. How the server call settles (`Ok(list)` or
  `Err(message)`) is a method parameter, so the network is an input.
* `collections.dfy` (module `Collections`) holds what the three share: `Option`, a
  generic `Filter` (JavaScript's `filter`), `RemoveAll` and `NoDuplicates`. `RemoveAll`
  serves as both the client's `filter(x => x !== id)` and MongoDB's `$pull`.

Where the intended design and the code differ, the model follows the code:

* A successful add never answers 201 (see Findings).
* `decreaseInventory` does not check that `quantity` is positive. A negative quantity
  passes the overdraw test and raises the count. A quantity of 0 on a variant whose
  count is already 0 clears `available`.
* The handlers look products up with `findOne({ productId })`, with no `isActive`
  condition. So inactive products can be added, and the read path returns them. Only
  references with no document at all are dropped.
* Clearing answers 200 even for a user id with no record, because the handler does not
  look at the update's result. Add and remove for such an id read `wishlist` off
  `null`. The model records that as `Unhandled` and leaves the store unchanged.
* `isOutOfStock == !inStock` holds only when no count is negative. A negative total
  would make both false. The lemma carries the schema's `min: 0` as its precondition.

## Model

| member | source | states |
|---|---|---|
| `Collections.RemoveAll` | frontend/src/Components/WishlistContext/WishlistContext.jsx:67 | no occurrence of the id remains, every other element is kept, the result is no longer than the input, removing an absent value changes nothing, and no duplicate appears; MongoDB's `$pull` (backend/controllers/wishlistController.js:51) is the same operation |
| `Collections.RemoveAllConcat` | backend/controllers/wishlistController.js:51 | removal distributes over concatenation, so the remaining members keep their order |
| `Collections.FilterConcat` | frontend/src/Components/WishlistContext/WishlistContext.jsx:67 | filtering a concatenation is the concatenation of the filtered parts, so kept elements keep their relative order |
| `Collections.FilterNoDuplicates` | backend/controllers/wishlistController.js:51 | filtering a duplicate-free list leaves it duplicate-free |
| `Collections.AppendThenRemoveAll` | frontend/src/Components/WishlistContext/WishlistContext.jsx:44-53 | appending an absent id and then removing it gives back the original list |
| `ProductModel.TotalStockIsSumOfAvailable` | backend/models/Product.js:279-283 | `TotalStock` itself has no contract; this lemma specifies it: total stock equals the plain sum of counts over exactly the available variants |
| `ProductModel.TotalStockNonNegative` | backend/models/Product.js:279-283 | with no negative count the total is never negative |
| `ProductModel.TotalStockZeroIff` | backend/models/Product.js:302-306 | with no negative count, the total is 0 if and only if every available variant has count 0 |
| `ProductModel.TotalStockUpdate` | backend/models/Product.js:280-282 | replacing one variant changes the total by the difference of the two contributions, so an unavailable variant contributes nothing |
| `ProductModel.Save` | backend/models/Product.js:301-307 | the saved flag agrees with the counters, and every other field, the variants included, is unchanged |
| `ProductModel.SavedFlagIsNotInStock` | backend/models/Product.js:286-288 | `InStock` itself has no contract; this lemma relates it to the saved flag: after saving, with no negative count, `isOutOfStock` is exactly `!inStock` |
| `ProductModel.SaveIdempotent` | backend/models/Product.js:301-307 | saving twice equals saving once |
| `ProductModel.AllZeroIsOutOfStock` | backend/models/Product.js:301-307 | a product whose variants all have count 0 is flagged out of stock by the hook |
| `ProductModel.SkuIndex` | backend/models/Product.js:379 | the index returned is the first variant with the SKU; none is returned only when no variant has it |
| `ProductModel.LabelIndex` | backend/models/Product.js:373 | the index returned is the first variant with the label; none only when no variant has it |
| `ProductModel.IsSizeAvailable` | backend/models/Product.js:372-375 | true if and only if the first variant with the label exists, is available and has count above 0 |
| `ProductModel.SizeAvailableImpliesInStock` | backend/models/Product.js:372-375 | a size reported available implies the product is in stock |
| `ProductModel.Decremented` | backend/models/Product.js:389-393 | SKU and label kept, count lowered by exactly `quantity`, `available` false if the new count is 0 and otherwise unchanged |
| `ProductModel.DecreaseInventory` | backend/models/Product.js:378-396 | unknown SKU: "SKU not found" with the product unchanged; count below `quantity`: "Insufficient inventory" with the product unchanged; otherwise the result is `AfterDecrease`, the saved product with the first matching variant decremented in place, about which `DecreasePreservesWellFormed`, `DecreaseLowersTotalStock` and `SellingLastUnitMarksOutOfStock` are proved |
| `ProductModel.DecreasePreservesWellFormed` | backend/models/Product.js:389-395 | a successful decrement keeps at least one variant and no negative count, touches no other variant, and leaves the saved flag consistent with the counters |
| `ProductModel.DecreaseLowersTotalStock` | backend/models/Product.js:389-395 | a successful decrement lowers the total by exactly `quantity` when the variant was available, and leaves it unchanged otherwise |
| `ProductModel.SellingLastUnitMarksOutOfStock` | backend/models/Product.js:391-395 | selling the whole count of the only stocked variant clears its `available` and flags the product out of stock |
| `ProductModel.FindByProductIds` | backend/models/Product.js:321-326 | a product is selected if and only if it is in the catalog, active, and its `productId` is requested |
| `ProductModel.FindInStock` | backend/models/Product.js:329-335 | a product is selected if and only if it is in the catalog, meets the caller's filter, is active and is not flagged out of stock |
| `ProductModel.FindInStockIsInStock` | backend/models/Product.js:329-335 | over saved, well-formed documents everything selected is in stock; documents written by `insertMany` (backend/scripts/seedProducts.js:17) skip the save hook, so the requires does not cover seeded data |
| `ProductModel.SearchProducts` | backend/models/Product.js:338-365 | a product is selected if and only if it is in the catalog and matches the query; spelled out, every selected product is an active catalog product meeting each truthy filter conjunctively (exact category, brand, gender, colour; inclusive price bounds; inclusive minimum rating), and every matching product is selected |
| `ProductModel.ZeroMinPriceIsIgnored` | backend/models/Product.js:353-356 | a minimum price of 0, being falsy, selects the same products as no minimum price; `MatchesSearch` (lines 339-362) has no contract of its own and is specified by this lemma, `CategoryFilterNarrows` and `SearchProducts` |
| `ProductModel.CategoryFilterNarrows` | backend/models/Product.js:347 | adding a category filter can only remove products from the selection |
| `WishlistServer.AddToSet` | backend/controllers/wishlistController.js:13-22 | the reference is present afterwards, adding a present member changes nothing, prior members keep their order as a prefix, at most one element is added, and no duplicate is introduced |
| `WishlistServer.AddToSetIdempotent` | backend/controllers/wishlistController.js:16 | adding twice equals adding once |
| `WishlistServer.AddToSetOccursOnce` | backend/controllers/wishlistController.js:16 | on a duplicate-free list the added reference occurs exactly once |
| `WishlistServer.AddThenPullRoundTrip` | backend/controllers/wishlistController.js:13-54 | on a list without the reference, add followed by remove gives back the original list |
| `WishlistServer.AddAsWrittenAlwaysAnswers200` | backend/controllers/wishlistController.js:24-30 | `AddResponseAsWritten` itself has no contract; this lemma specifies it: as written, every successful add answers 200 "Product already in wishlist"; the 201 branch is unreachable |
| `WishlistServer.AddResponseIntended` | backend/controllers/wishlistController.js:24-33 | the intended answer: 201 if and only if the reference was absent beforehand, 200 if and only if present; the count is the old length plus one exactly when it was absent |
| `WishlistServer.Populate` | backend/controllers/wishlistController.js:71-77 | one entry per stored reference, present exactly when the reference resolves, and then its document |
| `WishlistServer.DropNulls` | backend/controllers/wishlistController.js:85 | a value is kept if and only if it occurred as a present entry; order and multiplicity are fixed by `DropNullsConcat` |
| `WishlistServer.DropNullsConcat` | backend/controllers/wishlistController.js:85 | dropping nulls distributes over concatenation, so the kept values keep their order and each present entry yields exactly one value |
| `WishlistServer.Resolving` | backend/controllers/wishlistController.js:84-89 | the number of stored references that resolve: at most the number stored, and 0 exactly when none resolves |
| `WishlistServer.ResolvedDocs` | backend/controllers/wishlistController.js:84-89 | one document per resolving reference, so its length is `Resolving` |
| `WishlistServer.ReadPathIsResolvedDocs` | backend/controllers/wishlistController.js:71-89 | populate then drop nulls yields exactly `ResolvedDocs`, in stored order with one entry per resolving reference, so the reported count is `Resolving` |
| `WishlistServer.ResolvedViewIsExact` | backend/controllers/wishlistController.js:84-92 | the read path returns exactly the documents of the stored references that still resolve |
| `WishlistServer.WishlistStore.AddToWishlist` | backend/controllers/wishlistController.js:5-35 | unknown product: 404 and no update; otherwise the user's list becomes its `$addToSet` and the answer is 200 with that list and its length; duplicate-freedom is kept |
| `WishlistServer.WishlistStore.RemoveFromWishlist` | backend/controllers/wishlistController.js:36-62 | unknown product: 404 and no update; otherwise the user's list becomes its `$pull` (`Collections.RemoveAll`), no occurrence remains, and the answer is 200 with that list and its length |
| `WishlistServer.WishlistStore.GetWishlist` | backend/controllers/wishlistController.js:67-93 | unknown user: 404; otherwise 200 with exactly `ResolvedDocs` of the stored references, in stored order and multiplicity, and `wishlistCount` equal to `Resolving`, the number of references that resolve; the stored list is not modified |
| `WishlistServer.WishlistStore.ClearWishlist` | backend/controllers/wishlistController.js:98-113 | the user's list becomes empty whatever it held, and the answer is 200 with `[]` and count 0 |
| `WishlistServer.ScenarioTwoAddsTwoRemoves` | backend/controllers/wishlistController.js:13-61 | on an empty list, add, add, remove, remove give counts 1, 1, 0, 0; the first add answers 200 as written and 201 as intended |
| `WishlistClient.AddRollbackAsWrittenThrows` | frontend/src/Components/WishlistContext/WishlistContext.jsx:53 | `AddRollbackAsWritten` itself has no contract; this lemma specifies it: as written, the rollback callback throws for every list, the empty one included |
| `WishlistClient.AddRollback` | frontend/src/Components/WishlistContext/WishlistContext.jsx:53 | the intended rollback leaves no copy of the id and keeps every other id |
| `WishlistClient.AddRollbackRestores` | frontend/src/Components/WishlistContext/WishlistContext.jsx:44-57 | if the id was absent before the optimistic append, the rollback restores exactly the pre-call list |
| `WishlistClient.AddRollbackAfterDuplicateLosesCopies` | frontend/src/Components/WishlistContext/WishlistContext.jsx:44-53 | if the id was already present, the rollback does not restore the pre-call list |
| `WishlistClient.RollbackExample` | frontend/src/Components/WishlistContext/WishlistContext.jsx:52-57 | on the list {A}, a failed add of B leaves exactly {A} |
| `WishlistClient.InstallAsWritten` | frontend/src/Components/WishlistContext/WishlistContext.jsx:49 | as written, a successful answer is installed wholesale, so every element of the new list is a server entry (a reference or a product object), never a product number |
| `WishlistClient.InstalledListHidesProductAsWritten` | frontend/src/Components/WishlistContext/WishlistContext.jsx:89-91 | as written, after any successful fetch, add or remove no product number is in the list, so `isInWishlist(productId)` is false whatever the server answered |
| `WishlistClient.InstallIntended` | frontend/src/Components/WishlistContext/WishlistContext.jsx:49 | with uniform keys, the installed list holds, position by position, the product numbers of the answer |
| `WishlistClient.InstalledListShowsProductIntended` | frontend/src/Components/WishlistContext/WishlistContext.jsx:80-91 | with uniform keys, after a successful add the product is wishlisted (the next toggle removes it), after a successful remove it is not |
| `WishlistClient.WishlistCache.constructor` | frontend/src/Components/WishlistContext/WishlistContext.jsx:11-13 | the cache starts with an empty list and no error |
| `WishlistClient.WishlistCache.ClearError` | frontend/src/Components/WishlistContext/WishlistContext.jsx:93-95 | the error becomes null and the list is untouched |
| `WishlistClient.WishlistCache.FetchWishlist` | frontend/src/Components/WishlistContext/WishlistContext.jsx:15-34 | logged out: empty list and no call; success: the list is replaced wholesale by the server list or `[]`; failure: the message or "Failed to load wishlist" is recorded and the list is kept |
| `WishlistClient.WishlistCache.SessionChanged` | frontend/src/Components/WishlistContext/WishlistContext.jsx:15-34 | a change of login state re-runs the fetch with the new state |
| `WishlistClient.WishlistCache.BeginAdd` | frontend/src/Components/WishlistContext/WishlistContext.jsx:40-44 | logged out: nothing changes and the handler proceeds no further; otherwise the id is appended before any call, so `isInWishlist(id)` (lines 89-91) holds and `wishlistCount` (line 99) grows by one |
| `WishlistClient.WishlistCache.SettleAdd` | frontend/src/Components/WishlistContext/WishlistContext.jsx:46-57 | success: the list is replaced by the server's, not merged; failure: the id is filtered out, the error set, and the message rethrown |
| `WishlistClient.WishlistCache.AddToWishlist` | frontend/src/Components/WishlistContext/WishlistContext.jsx:36-59 | logged out: throws before touching the list; success: the server list; failure: the error is set and rethrown, and when the id was absent beforehand the list is exactly the pre-call one |
| `WishlistClient.WishlistCache.BeginRemove` | frontend/src/Components/WishlistContext/WishlistContext.jsx:63-67 | logged out: nothing changes; otherwise the snapshot is the pre-call list and every occurrence of the id is dropped, so `isInWishlist(id)` is false and `wishlistCount` does not grow |
| `WishlistClient.WishlistCache.SettleRemove` | frontend/src/Components/WishlistContext/WishlistContext.jsx:68-76 | success: the list is replaced by the server's; failure: the snapshot is restored exactly, the error set, and nothing is rethrown |
| `WishlistClient.WishlistCache.RemoveFromWishlist` | frontend/src/Components/WishlistContext/WishlistContext.jsx:61-78 | logged out: throws before touching the list; success: the server list; failure: the pre-call list, the error set, no rethrow |
| `WishlistClient.WishlistCache.ToggleWishlist` | frontend/src/Components/WishlistContext/WishlistContext.jsx:80-87 | remove runs if and only if `isInWishlist(id)` held beforehand (`includes`, lines 81 and 89-91), add otherwise; a failure leaves the list, `isInWishlist(id)` and `wishlistCount` as they were; a duplicate-free list stays duplicate-free when the server's answer is |

## Findings

| source | as written | input that shows it | evidently intended | confidence | as-written member | corrected member |
|---|---|---|---|---|---|---|
| backend/controllers/wishlistController.js:24-30 | `wasAdded` tests membership in the list read back after `$addToSet`, which always holds the reference | empty wishlist, add a product whose reference is 7: answers 200 "Product already in wishlist" | test membership before the update: 201 "Product added to wishlist" for a new member, 200 for an existing one | high (not executed) | `WishlistServer.AddAsWrittenAlwaysAnswers200` | `WishlistServer.AddResponseIntended` |
| frontend/src/Components/WishlistContext/WishlistContext.jsx:53 | `prev.filter(id!==productId)` evaluates the unbound name `id`, so the rollback callback throws a ReferenceError instead of filtering | list `[]`, add id 42, server call fails: the state update throws | `prev.filter(x => x !== productId)` | high (not executed) | `WishlistClient.AddRollbackAsWrittenThrows` | `WishlistClient.AddRollbackRestores` |
| frontend/src/Components/WishlistContext/WishlistContext.jsx:49 | every successful answer is installed wholesale with `setWishlist(response.data.wishlist \|\| [])`: references after add and remove (backend/controllers/wishlistController.js:31, :59), product objects after a fetch; the card asks `includes(product.productId)` with a number (frontend/src/Components/ProductCard/ProductCardP.jsx:13) | empty list, add product 7 stored as reference 500, server answers `[500]`: the card shows 7 as not wishlisted, and the next click on it runs add again instead of remove | keep one kind of key on both sides, such as product numbers in the list | medium (not executed) | `WishlistClient.InstalledListHidesProductAsWritten` | `WishlistClient.InstalledListShowsProductIntended` |

The client's `SettleAdd` uses the corrected rollback `AddRollback`. The server's
`WishlistStore.AddToWishlist` keeps the status as written, because the status is what
the handler actually answers. `AddResponseIntended` gives the corrected answer beside it,
and no other part of the model reads the status. The cache `WishlistCache` holds one
`Id` type for every element, which is the uniform-key behaviour of
`InstalledListShowsProductIntended`; `InstallAsWritten` alone records what the code installs.

## Left out

- `WishlistServer.WishlistStore.GetWishlist`: returns the resolved documents in stored order; populate's `sort: { createdAt: -1 }` and the field projection are engine behaviour and are not modelled.
- `ProductModel.SearchProducts`: the `$text` search and its relevance ranking and weights are engine internals. A non-empty search string is modelled as a caller-supplied `textMatch` predicate.
- `ProductModel.SearchProducts`: `Number(...)` coercion of filter values, and the `NaN` case, are not modelled. Filters are already numbers, and "falsy" means absent or 0 (numbers) and absent or empty (strings).
- `ProductModel.FindInStock`: the caller's filter object is modelled as a predicate. That its own `isActive`/`isOutOfStock` keys are overridden by the spread is therefore not expressible.
- `ProductModel.FindByProductIds`: the `.select(...)` projection is not modelled; whole documents are returned.
- `ProductModel.DecreaseInventory`: the asynchronous `save()` is modelled as the pre-save hook applied to the document. A rejected save, which needs a validator the model does not carry, is not modelled.
- The `discountPercentage` and `primaryImage` virtuals, the `remove` hook's warning, indexes, timestamps, and the schema validators other than `inventory >= 0` and a non-empty `inventoryInfo`. They involve floating-point rounding, logging, or storage configuration.
- JavaScript numbers are modelled as unbounded `int` (counts, ids) and `real` (prices, ratings); floating-point rounding is not modelled.
- The user model, authentication middleware, routing, and the error middleware that turns a thrown error into an HTTP answer. `Thrown(status, message)` and `Unhandled` stand for what reaches the error middleware.
- The concurrency of MongoDB updates: each handler's update is one atomic step of the model.
- `WishlistClient.WishlistCache.ToggleWishlist`: handlers run one at a time and run to completion. This is the product card's in-flight click guard taken as a precondition. Overlapping requests, stale React closures, and the snapshot being read from the render-time list rather than the latest state are not modelled.
- The client's `loading` flag: it is only ever set to false.
- `wishlistApi.clearWishlist` exists in the API client, but the cache has no handler that calls it, so the client has no clear operation.
- `WishlistClient.WishlistCache`: one identifier type. Populated product objects (read path), references (add and remove answers) and numeric product ids (optimistic insert) are all one `Id` type. So the cache does not show that, after any successful fetch, add or remove, `includes` compares a number with values of another kind and is false; that consequence is stated separately by `InstallAsWritten` and the third Findings row.
- Route parameters: `:productId` arrives as a string and is cast by `findOne`. A non-numeric id makes the cast throw, which reaches the error middleware instead of the 404 branch; with `productId: int` the model cannot express that input.
- Seeded documents: `insertMany` (backend/scripts/seedProducts.js:17) does not run the save hook, so seeded `isOutOfStock` flags need not agree with the counters. The model's lemmas about saved documents assume the hook ran.
