# Shopzify storefront core, modelled in Dafny

A functional model of the parts of the Shopzify storefront that have
behaviour of their own:

- **The wishlist API** (`routes/wishlist.js`):
  - `POST /wishlist/toggle` flips one product's membership in a user's wishlist document. Its outcomes are 404, 200 "removed", 200 "added", 404 and 500.
  - `GET /wishlists` returns that document.
- **The client's optimistic wishlist lists.**
  - The FLASH SALE carousel keys its local list on `_id`, while the server and the heart icon key on `productId`. The model keeps the two keys apart.
  - The wishlist page only ever removes from its list.
  - Both pages replace their list wholesale when server data arrives.
- **The request layer** (`apiSlice.ts`):
  - the bearer header;
  - `baseQueryWithReauth`, a pure function over a scripted response oracle that returns the call trace and the new auth state;
  - the provides/invalidates tag relation.
- **The product query builders** (`routes/products.js`):
  - the shop and admin listings;
  - the nav menu mapping;
  - search-key rewriting with the whole-word gender case;
  - the category search;
  - lookup, create, PATCH and DELETE.
- **The product document** (`models/product.js`): required paths, the lower-casing setters on `description` and `category`, and the defaults.
- **The login form** (`Login.tsx`):
  - the validation schema, including the explicit e-mail pattern, decided by a one-pass scanning method proved equal to the pattern;
  - the outcome of `onSubmit`.

## Modules and files

| file | module | models |
|---|---|---|
| wrappers.dfy | Wrappers | `Option`, `Result`, JavaScript truthiness of a string |
| http.dfy | Http | an Express reply (`status` and `{ message }` or payload); a query hook's `data` |
| seqs.dfy | Seqs | `Array.prototype.filter` / `some` and counting |
| text.dfy | Text | `toLowerCase` on ASCII, the regex classes `\s` and `\w`, case-insensitive equality |
| product_model.dfy | ProductModel | the product document, its validation, setters, defaults and `Object.assign` |
| product_routes.dfy | ProductRoutes | the MongoDB filter each product route builds, and what it selects |
| wishlist_route.dfy | WishlistRoute | the two wishlist routes over a `Store` of users, wishlists and catalog |
| notify.dfy | Notify | the toast chosen when the toggle mutation settles |
| session.dfy | Session | the client's auth state |
| flash_sale.dfy | FlashSale | the carousel's sale filter, heart, optimistic toggle and sync |
| wishlist_item.dfy | WishlistItem | the wishlist page's optimistic removal and sync |
| api_slice.dfy | ApiSlice | headers, the re-auth wrapper, cache tags, the nav URL |
| login.dfy | LoginForm | the login schema and `onSubmit` |

The model takes these as explicit parameters:

- the database fault, if any (`Fault`);
- the generated `_id` of a pushed wishlist entry and of a new product;
- the clock reading for `recordDate`;
- the server's answers to the re-auth wrapper (`respond`);
- Yup's built-in `.email()` test.

## Model

| member | source | states |
|---|---|---|
| ProductModel.Create | models/product.js:3-52 | Saving fails exactly when a required path is absent or an empty string, and reports those paths. A saved document has `description` and `category` lower-cased (equal to the input up to case), and `name`, `gender`, `badge`, `image`, both prices and `quantity` verbatim. `status` defaults to true and `recordDate` is the supplied time. |
| ProductModel.ResaveIsIdentity | models/product.js:20-37 | Re-saving a stored document's own fields gives back the same document: the lower-casing setters change nothing the second time. |
| ProductModel.Merge | routes/products.js:153 | `Object.assign` keeps every field the body lacks. `image`, `name`, both prices, `quantity`, `gender`, `badge` and `status` take the body's value verbatim. `description` and `category` take it lower-cased. A `recordDate` in the body replaces the stored date; without one the date is kept. `_id` never changes. |
| ProductModel.EmptyMergeIsIdentity | routes/products.js:153 | Assigning an empty body without a `recordDate` leaves the document unchanged. |
| ProductRoutes.ListingQuery | routes/products.js:6-31 | The shop listing selects exactly the active products; the admin listing selects every product. |
| ProductRoutes.NavQuery | routes/products.js:39-72 | Every nav result is active. "men"/"women", in any case, select gender "male"/"female". Any other menu selects its lower-cased text as the category. A sublabel condition is added exactly when the lower-cased sublabel is not the text "undefined". |
| ProductRoutes.NavGenderIgnoresSublabel | routes/products.js:55-61 | For the gender menus the sublabel does not affect the query. |
| ProductRoutes.NavFindsCategoryAnyCase | routes/products.js:62-67 | Because both sides are lower-cased, a created product is found under its category menu whatever the letter case of either. |
| ProductRoutes.EscapeWhitespace | routes/products.js:98 | The rewritten key has no white space. A key without white space is unchanged. Rewriting never shortens a key. |
| ProductRoutes.EscapedKeyMatchesLoosely | routes/products.js:98-99 | At a given position, the rewritten key under the `i` flag matches exactly when the original key occurs there, with letters compared up to case and any white space matching any white space. |
| ProductRoutes.SearchPatternMeaning | routes/products.js:98-99 | The search pattern matches a field exactly when the key occurs somewhere in it in that loose sense. |
| ProductRoutes.GenderPattern | routes/products.js:101-108 | "men"/"women", in any case, become the whole words "male"/"female". Every other key is used as the pattern itself. |
| ProductRoutes.SearchQuery | routes/products.js:110-122 | A product is selected exactly when it is active and the pattern matches its name, description or category, or the gender pattern matches its gender. |
| ProductRoutes.SearchGenderSameAsName | routes/products.js:106-107 | Outside "men"/"women", gender is searched with the same pattern as the other fields. |
| ProductRoutes.MenNeverMatchesFemale | routes/products.js:102-103 | The gender pattern of a "men" search never matches the gender "female", in any case. |
| ProductRoutes.MenSearchFindsWomensProduct | routes/products.js:113-116 | A "men" search selects every active product whose name, description or category mentions "women" in any case, because those fields use the plain pattern. |
| ProductRoutes.CategoryQuery | routes/products.js:89-94 | As written, a product is selected when it is active OR its category matches the key case-sensitively. |
| ProductRoutes.CategoryQueryIgnoresKey | routes/products.js:91 | As written, every active product is selected whatever the key. |
| ProductRoutes.CategoryQueryCounterexample | routes/products.js:91 | The key "bags" selects an active "shoes" product, whose category does not match "bags". |
| ProductRoutes.CategoryQueryIntended | routes/products.js:91 | Corrected: a product is selected exactly when it is active AND its category matches the key. |
| ProductRoutes.FindProduct | routes/products.js:171-182 | The middleware sends 404 "Cannot find product" exactly when the id is missing. Otherwise it hands the stored document under that id on to the route. |
| ProductRoutes.CreateProduct | routes/products.js:128-148 | The reply is 201 exactly when no required path is missing. The new document is then exactly the one `ProductModel.Create` builds from the body, and it is stored under its id. Otherwise the reply is 400 and the catalog is unchanged. |
| ProductRoutes.PatchProduct | routes/products.js:151-159 | A missing id gives 404 with the catalog unchanged. Otherwise the body, including any `recordDate`, is merged into the stored document. The merge is saved and returned with 200 exactly when it leaves no required string empty; otherwise the reply is 400 and nothing changes. |
| ProductRoutes.DeleteProduct | routes/products.js:161-169 | The reply is 200 "Deleted Product" exactly when the id is stored, and a missing id gives 404 with the catalog unchanged. Afterwards the id is absent; every other id keeps its document, and no other id appears or disappears. |
| ProductRoutes.CatalogWritesKeepWellKeyed | routes/products.js:128-169 | Creating, patching and deleting keep every document filed under its own `_id`, the invariant the wishlist lemmas require. |
| ProductRoutes.CreateFindDelete | routes/products.js:128-182 | A product created under a fresh id is then found under it with the saved document. Deleting it makes the lookup 404 again and restores the catalog exactly. |
| ProductRoutes.EmptyPatchKeepsCatalog | routes/products.js:153-154 | A PATCH with an empty body and no `recordDate` leaves the catalog as it was. |
| WishlistRoute.Toggle | routes/wishlist.js:7-72 | The key (`WishlistRoute.ToggleKey`, lines 8-12) is `_id`, or `productId` under `isWishList`. Users, catalog and other users' wishlists never change. An existing document is never deleted, and every 200 leaves the user with a saved document, even one emptied by a removal, and every non-200 reply leaves the store unchanged. A lookup fault gives 500, and so does a failed save, with the store unchanged. An unknown user gives 404 "User not found". A listed key removes all its entries ("Product removed from wishlist"); an unlisted catalog key appends one copied entry, `WishlistRoute.Snapshot` (lines 53-62) ("Product added to wishlist"). An unlisted unknown key gives 404 "Product not found" and creates no document. |
| WishlistRoute.GetWishlists | routes/wishlist.js:75-97 | The reply is 200 exactly when there is no fault and the user has a document, and it then returns the stored document. Otherwise it is 404 "User not found", 404 "Wishlist not found" or 500. |
| WishlistRoute.ToggleRemovalKeepsOrder | routes/wishlist.js:39-45 | Removal keeps the remaining entries in their stored order. |
| WishlistRoute.WithoutKeepsDistinct | routes/wishlist.js:41-43 | Filtering out one product keeps the other entries' `productId`s pairwise distinct. |
| WishlistRoute.TogglePreservesDistinct | routes/wishlist.js:35-66 | If the stored entries have pairwise-distinct `productId`s before a toggle, they do after it. |
| WishlistRoute.ToggleTwiceRestores | routes/wishlist.js:35-66 | Toggling an unlisted catalog product twice adds it, then removes it, and leaves exactly the original entries. |
| WishlistRoute.ToggleTwiceRestoresMembership | routes/wishlist.js:35-66 | Toggling a listed product twice removes it and adds it back, and the set of listed products is as before. |
| WishlistRoute.FirstAddCreatesDocument | routes/wishlist.js:26-32 | A user without a document who adds a catalog product gets a document holding exactly that entry. |
| WishlistRoute.AddedEntryCopiesProduct | routes/wishlist.js:53-64 | The appended entry copies the catalog record's `_id`, name, image, category, description, gender and both prices, and the list grows by one. |
| Notify.SuccessTitle | client/src/components/products/pages/WishlistItem.tsx:50 | The success title is the response message when it is non-empty, otherwise "Something went wrong". It is never empty. |
| Notify.MutationToast | client/src/components/products/pages/WishlistItem.tsx:47-68 | A resolved toggle gives a success toast with that title. A rejected one gives an error toast carrying `message` and `subMessage`. A rejection without `data` gives no toast. |
| FlashSale.ToggleLocal | client/src/components/products/productsHomeSection/FlashSale.tsx:63-70 | If an item has the product's `_id`, exactly the items without that `_id` remain and the list shrinks. Otherwise the product is appended at the end. |
| FlashSale.ToggleLocalTwice | client/src/components/products/productsHomeSection/FlashSale.tsx:63-68 | From a list without the product's `_id`, two toggles give back the original list. |
| FlashSale.ToggleLocalKeepsOrder | client/src/components/products/productsHomeSection/FlashSale.tsx:67 | Removal keeps the other items in their original relative order. |
| FlashSale.ToggleRequestFor | client/src/components/products/productsHomeSection/FlashSale.tsx:72 | The carousel sends no `isWishList`, so the server keys on the product's `_id`. |
| FlashSale.SaleProducts | client/src/components/products/productsHomeSection/FlashSale.tsx:56-58 | The sale list exists exactly when the listing does. It holds exactly the listed products with badge "sale" and active status, and it is the whole listing when all of them qualify. |
| FlashSale.SaleProductsKeepOrder | client/src/components/products/productsHomeSection/FlashSale.tsx:56-58 | The sale list keeps listing order. |
| FlashSale.IsWishlistedMeansListed | client/src/components/products/productsHomeSection/FlashSale.tsx:122-126 | The heart, `FlashSale.IsWishlisted`, is filled exactly when the fetched entries include one whose `productId` is the product's `_id`. |
| FlashSale.HeartFlipsAfterToggle | client/src/components/products/productsHomeSection/FlashSale.tsx:122-126 | After a successful carousel toggle and refetch, a catalog product's heart shows the opposite of before. |
| FlashSale.SyncLocal | client/src/components/products/productsHomeSection/FlashSale.tsx:100-104 | When wishlist data arrives (`Http.DataOf`: the payload of a successful fetch, otherwise undefined), the local list becomes the server's entries, one item per entry in order. Without data it is kept. |
| FlashSale.SyncDiscardsOptimism | client/src/components/products/productsHomeSection/FlashSale.tsx:100-104 | Data arriving after an optimistic toggle overrides it completely. |
| FlashSale.SyncedListIgnoresProductId | client/src/components/products/productsHomeSection/FlashSale.tsx:64-67 | Once the list holds server entries, whose `_id` is the entry's own, toggling a product appends it even when the server lists it. |
| WishlistItem.RemoveLocal | client/src/components/products/pages/WishlistItem.tsx:40-45 | A click never adds. Exactly the cards with a different `_id` remain, and the length drops by the number of matches. With no match the list is unchanged. |
| WishlistItem.RemoveLocalKeepsOrder | client/src/components/products/pages/WishlistItem.tsx:41-43 | The remaining cards keep their order. |
| WishlistItem.ToggleRequestFor | client/src/components/products/pages/WishlistItem.tsx:47 | The page always sends `isWishList: true`, so the server keys on the entry's `productId`. |
| WishlistItem.ServerRemovesClicked | client/src/components/products/pages/WishlistItem.tsx:47 | Clicking a stored entry removes its product from the stored wishlist. |
| WishlistItem.HandleToggle | client/src/components/products/pages/WishlistItem.tsx:40-68 | The list after a click is the optimistic removal whatever the reply. The reply only selects a success toast, or an error toast or none. |
| WishlistItem.FailureDoesNotRevert | client/src/components/products/pages/WishlistItem.tsx:59-68 | A failed request leaves the same list as a successful one. |
| WishlistItem.SyncLocal | client/src/components/products/pages/WishlistItem.tsx:75-79 | When wishlist data arrives (`Http.DataOf`: the payload of a successful fetch, otherwise undefined), the list becomes exactly the server's entries. Without data it is kept. |
| WishlistItem.ClickThenRefetchAgrees | client/src/components/products/pages/WishlistItem.tsx:75-79 | After a click is answered and refetched, the page shows the server's remaining entries, none of them for the clicked product. |
| ApiSlice.PrepareHeaders | client/src/redux/apiSliceRedux/apiSlice.ts:25-33 | With a truthy token, Content-type, Accept and `authorization: Bearer <token>` are set and other headers are kept. Otherwise the headers are untouched. |
| ApiSlice.BearerOf | client/src/redux/apiSliceRedux/apiSlice.ts:26-31 | A request carries an authorization header exactly when the token is truthy, and the header is "Bearer " followed by the token. |
| ApiSlice.WithReauth | client/src/redux/apiSliceRedux/apiSlice.ts:36-54 | A wrapped request makes one to three calls, and only the second may differ from the original request. A non-401 first result is returned after one call with the auth state unchanged. A 401 is followed by a call to "/auth/refresh". Refresh data logs in with its token and retries once, returning the retry's result. No refresh data logs out and returns the original 401 after two calls. |
| ApiSlice.RetryRefusedAgainStaysLoggedIn | client/src/redux/apiSliceRedux/apiSlice.ts:47-53 | For any refreshed token, a retry refused again with 401 is returned as it is after exactly three calls, with no second refresh and no logout. The retry carries "Bearer " followed by that token, or no header when the token is empty. |
| ApiSlice.Refetched | client/src/redux/apiSliceRedux/apiSlice.ts:79-93 | A mutation marks stale exactly the endpoints that provide a tag it invalidates. |
| ApiSlice.ToggleRefetchesOnlyWishlist | client/src/redux/apiSliceRedux/apiSlice.ts:63-165 | Among all endpoints, the wishlist toggle refetches exactly `getWishlists`. |
| ApiSlice.NavSublabelSegment | client/src/redux/apiSliceRedux/apiSlice.ts:77 | An undefined sublabel is sent as the path segment "undefined". |
| ApiSlice.NavWithoutSublabelIsCategoryOnly | client/src/redux/apiSliceRedux/apiSlice.ts:73-78 | A non-gender menu link without a sublabel queries the whole category. |
| LoginForm.MatchesEmail | client/src/components/pages/authentication/Login.tsx:33 | The one-pass scan accepts exactly the strings the e-mail pattern matches. The pattern is `LoginForm.EmailShape`: a split into local part, '@', domain, '.', and two or more letters. |
| LoginForm.EmailShapeIgnoresCase | client/src/components/pages/authentication/Login.tsx:33 | Changing letter case never changes whether an address matches. |
| LoginForm.EmailParts | client/src/components/pages/authentication/Login.tsx:33 | A matching address has exactly one '@' after a non-empty local part of `[A-Za-z0-9._%+-]`, then only `[A-Za-z0-9.-]`, and it ends in '.' and at least two letters. |
| LoginForm.Validate | client/src/components/pages/authentication/Login.tsx:30-39 | The e-mail is rejected exactly when it is empty, fails `.email()` or fails the pattern. The password is rejected exactly when it is shorter than 8 characters, so an empty one is rejected. |
| LoginForm.OnSubmit | client/src/components/pages/authentication/Login.tsx:43-69 | Success signs in with the returned token, even an undefined one, and goes to "/". A failure with a truthy message toasts it with `subMessage`; any other failure toasts "oops, please try again!". A failure without `data` throws. |
| LoginForm.LoginSetsBearer | client/src/components/pages/authentication/Login.tsx:49-50 | After a login with a non-empty token, requests carry "Bearer " followed by that token. |

## Behaviour worth noting

- The refresh call `baseQuery("/auth/refresh", ...)` also goes through `prepareHeaders`, so it carries the stale bearer header. `ApiSlice.WithReauth` states this: the second call's authorization is that of the original state.
- A "men" search also selects products whose name, description or category contains "women". The whole-word rule applies only to the gender field; the other fields use the plain pattern (`ProductRoutes.MenSearchFindsWomensProduct`).
- The nav route compares the lower-cased sublabel with the *text* "undefined", which is what the client sends for a missing sublabel, and only then leaves the sublabel condition out. The `|| undefined` fallback at routes/products.js:41 cannot fire through this route, because a `:sublabel` path parameter never matches an empty segment; `ProductRoutes.NavQuery` still models it.

## Left out

- Cart and checkout summary components: display only, with currency formatting.
- Rendering, layout, navigation on product click, and `console.log`.
- MongoDB persistence itself, `populate('products')`, and `limit(parseInt(limit))`. The listings are modelled as the filter they apply, without the limit.
- General regular-expression syntax. A search pattern is modelled as literal characters plus `\s`, compared up to ASCII case, and `\bword\b`. Keys holding other metacharacters are outside the model.
- `ProductRoutes.PatternMatches`: `\s` is JavaScript's white-space set and case is compared on ASCII letters only. MongoDB's regex engine, which runs the `$regex`, can treat `\s`, `\b` and caseless matching differently on non-ASCII characters.
- `ProductRoutes.SearchPatternMeaning`: stated only for keys without a backslash, because a backslash would start a regex escape, which is not modelled.
- `ProductRoutes.Matches`: products have no `sublabel` path. A sublabel condition is taken to hold only for an undefined value; Mongoose's `strictQuery` handling of unknown paths is not modelled.
- The dead `gender` computation at routes/products.js:46-53. Only the inner one is used.
- The 500 replies of the nav, listing and lookup routes, and of DELETE when `deleteOne` fails, and the uncaught exceptions of the search and category routes (which have no `try`). None of them changes the model's data; a failed `deleteOne` is taken to remove nothing.
- `WishlistRoute.Toggle`: a key that is not a well-formed ObjectId makes `Product.findById` throw a cast error (500). That case is reached only through the `fault` parameter; an unknown key gives 404.
- `ProductRoutes.FindProduct`: a malformed id makes `findById` throw a cast error (500). That case is not modelled; every id is either present or missing.
- `ProductRoutes.CreateProduct`: the 400 reply carries a fixed text instead of Mongoose's validation message.
- `ProductModel.Create`: Mongoose's casting of strings to numbers and booleans is not modelled. Prices, quantity and the date are integers, because they are only copied.
- `ProductRoutes.PatchProduct`: a body that sets a field to `null` or includes `_id` is not modelled. Body fields, `recordDate` included, are either absent or present with a value.
- `Text.ToLower`: only ASCII letters are case-mapped, not the full Unicode mapping of `toLowerCase`.
- `LoginForm.Validate`: Yup's `.email()` test, whose code is not part of this model, is the opaque parameter `builtinEmail`. Password length counts Unicode scalar values where JavaScript counts UTF-16 code units.
- `verifyToken`: the authenticated user id is a parameter. The server's refresh endpoint is represented by the oracle `respond`.
- `calculateSavingsPercentage` and `getBadgeColor`: their code is not part of this model.
- A toggle request whose body has no `product` throws before the handler's `try`. The model's request always carries a product reference, whose ids may be absent.
- The text of a 500 reply is always "Something went wrong". What `console.log(error)` prints is not modelled.
- Concurrency: overlapping toggles, last-write-wins saves, and concurrent refreshes. Each request is modelled on its own.
- RTK Query caching and refetch scheduling. Only the provides/invalidates relation and the wrapper's call sequence are modelled. A failed refetch is modelled as "no new data", which leaves the local list as it was.
- The contents of the auth slice are not part of this model. `setLoggedIn(t)` is taken to store `t`, and `setLoggedOut()` to clear it.

## Findings

| source | as written | input that shows it | evidently intended | confidence | as-written member | corrected member |
|---|---|---|---|---|---|---|
| routes/products.js:91 | `$or: [{ category: { $regex: key } }, { status: true }]` selects a product that is active OR whose category matches | key "bags", active product with category "shoes": it is returned | the route "Search Products by category name" should return active products whose category matches the key (`$and`) | high; not executed | ProductRoutes.CategoryQuery (shown by ProductRoutes.CategoryQueryCounterexample) | ProductRoutes.CategoryQueryIntended |
