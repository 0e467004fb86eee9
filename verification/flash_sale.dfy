/** The FLASH SALE carousel (FlashSale.tsx): which products it shows,
    when a heart is filled, and the local wishlist list it updates
    optimistically. The local list is keyed on `_id`, the server and the
    heart on `productId`; the two keys are kept apart here. */
module FlashSale {
  import opened Wrappers
  import opened Seqs
  import opened ProductModel
  import opened WishlistRoute
  import opened Http

  /** An item of the local list: a product clicked here, or an entry
      copied from the server's wishlist. */
  datatype LocalItem = Picked(product: Product) | Synced(entry: Entry)

  /** The item's `_id`: a product's id, or an entry's subdocument id. */
  function LocalId(item: LocalItem): Id {
    match item
    case Picked(p) => p.id
    case Synced(e) => e.entryId
  }

  function HasId(id: Id): LocalItem -> bool {
    (item: LocalItem) => LocalId(item) == id
  }

  function NotId(id: Id): LocalItem -> bool {
    (item: LocalItem) => LocalId(item) != id
  }

  /** The optimistic update of `handleToggleWishlist`: drop every item with
      the product's `_id` if there is one, otherwise append the product. */
  function ToggleLocal(items: seq<LocalItem>, product: Product): (r: seq<LocalItem>)
    ensures Any(items, HasId(product.id)) ==>
              && (forall x :: x in r <==> x in items && LocalId(x) != product.id)
              && |r| < |items|
    ensures !Any(items, HasId(product.id)) ==> r == items + [Picked(product)]
  {
    if Any(items, HasId(product.id)) then
      var i :| 0 <= i < |items| && HasId(product.id)(items[i]);
      assert !NotId(product.id)(items[i]);
      Filter(items, NotId(product.id))
    else items + [Picked(product)]
  }

  /** Starting from a list without the product, two toggles give it back. */
  lemma {:induction false} ToggleLocalTwice(items: seq<LocalItem>, product: Product)
    requires !Any(items, HasId(product.id))
    ensures ToggleLocal(ToggleLocal(items, product), product) == items
  {
    var once := items + [Picked(product)];
    assert HasId(product.id)(once[|items|]);
    FilterAppend(items, [Picked(product)], NotId(product.id));
    forall i | 0 <= i < |items|
      ensures NotId(product.id)(items[i])
    {
      assert !HasId(product.id)(items[i]);
    }
    assert Filter([Picked(product)], NotId(product.id)) == [];
  }

  /** Removal keeps the other items in their original relative order: on
      any split of the list, the result is the kept items of each part. */
  lemma ToggleLocalKeepsOrder(a: seq<LocalItem>, b: seq<LocalItem>, product: Product)
    requires Any(a + b, HasId(product.id))
    ensures ToggleLocal(a + b, product) == Filter(a, NotId(product.id)) + Filter(b, NotId(product.id))
  {
    FilterAppend(a, b, NotId(product.id));
  }

  /** The mutation body `{ product }`: no `isWishList`, so the server looks
      the product up by its `_id`. */
  function ToggleRequestFor(product: Product): (req: ToggleRequest)
    ensures !req.isWishList
    ensures ToggleKey(req) == Some(product.id)
  {
    ToggleRequest(ProductRef(Some(product.id), None), false)
  }

  predicate OnSale(p: Product) {
    p.badge == "sale" && p.status
  }

  function OnSaleFilter(): Product -> bool {
    (p: Product) => OnSale(p)
  }

  /** `TopPicksProducts`: the listed products with badge 'sale' and active
      status, in listing order; nothing while the listing is undefined. */
  function SaleProducts(listing: Option<seq<Product>>): (r: Option<seq<Product>>)
    ensures r.Some? <==> listing.Some?
    ensures r.Some? ==> forall p :: p in r.value <==> p in listing.value && p.badge == "sale" && p.status
    ensures r.Some? && (forall i :: 0 <= i < |listing.value| ==> OnSale(listing.value[i])) ==>
              r.value == listing.value
  {
    match listing
    case None => None
    case Some(ps) => Some(Filter(ps, OnSaleFilter()))
  }

  /** The sale list keeps listing order: on any split of the listing, the
      sale products of the first part come before those of the second. */
  lemma SaleProductsKeepOrder(a: seq<Product>, b: seq<Product>)
    ensures SaleProducts(Some(a + b)).value
            == SaleProducts(Some(a)).value + SaleProducts(Some(b)).value
  {
    FilterAppend(a, b, OnSaleFilter());
  }

  /** `isWishlisted`: the heart is filled when the fetched wishlist has an
      entry whose `productId` is this product's `_id`. */
  predicate IsWishlisted(data: Option<seq<Entry>>, product: Product) {
    data.Some? && Any(data.value, (e: Entry) => e.productId == product.id)
  }

  /** The heart and the server agree on what "listed" means: the heart is
      filled exactly when the fetched entries list the product's `_id`. */
  lemma IsWishlistedMeansListed(entries: seq<Entry>, product: Product)
    ensures IsWishlisted(Some(entries), product) <==> Lists(entries, product.id)
  {
    if Lists(entries, product.id) {
      var e :| e in entries && e.productId == product.id;
      var i :| 0 <= i < |entries| && entries[i] == e;
    }
  }

  /** After a successful toggle from the carousel and a refetch, the heart
      of a catalog product shows the opposite of what it showed before. */
  lemma HeartFlipsAfterToggle(s: Store, u: UserId, product: Product, freshId: Id)
    requires WellKeyed(s.catalog)
    requires u in s.users && product.id in s.catalog
    ensures var after := Toggle(s, u, ToggleRequestFor(product), freshId, NoFault).1;
            IsWishlisted(DataOf(GetWishlists(after, u, NoFault)), product)
            == !IsWishlisted(DataOf(GetWishlists(s, u, NoFault)), product)
  {
    var req := ToggleRequestFor(product);
    var r := Toggle(s, u, req, freshId, NoFault);
    var before := DataOf(GetWishlists(s, u, NoFault));
    var after := DataOf(GetWishlists(r.1, u, NoFault));
    assert r.0.status == 200;
    assert u in r.1.wishlists;
    assert after == Some(EntriesOf(r.1, u));
    var listedBefore := Lists(EntriesOf(s, u), product.id);
    IsWishlistedMeansListed(EntriesOf(s, u), product);
    IsWishlistedMeansListed(EntriesOf(r.1, u), product);
    assert IsWishlisted(before, product) == listedBefore;
    if listedBefore {
      assert !Lists(EntriesOf(r.1, u), product.id);
    } else {
      var added := Snapshot(s.catalog[product.id], freshId);
      assert EntriesOf(r.1, u)[|EntriesOf(r.1, u)| - 1] == added;
    }
  }

  /** `useEffect` on fresh wishlist data: the local list becomes the
      server's entries, whatever it held before. */
  function SyncLocal(items: seq<LocalItem>, data: Option<seq<Entry>>): (r: seq<LocalItem>)
    ensures data.None? ==> r == items
    ensures data.Some? ==> |r| == |data.value|
                           && forall i :: 0 <= i < |r| ==> r[i] == Synced(data.value[i])
  {
    match data
    case None => items
    case Some(entries) => seq(|entries|, i requires 0 <= i < |entries| => Synced(entries[i]))
  }

  /** Arriving data overrides any optimistic toggle made before it. */
  lemma SyncDiscardsOptimism(items: seq<LocalItem>, product: Product, entries: seq<Entry>)
    ensures SyncLocal(ToggleLocal(items, product), Some(entries)) == SyncLocal(items, Some(entries))
  {
  }

  /** The two keys differ: once the list holds server entries, whose `_id`
      is the entry's own id, toggling a product the server lists appends
      it locally instead of removing it. */
  lemma SyncedListIgnoresProductId(items: seq<LocalItem>, product: Product, entries: seq<Entry>)
    requires forall e :: e in entries ==> e.entryId != product.id
    ensures var local := SyncLocal(items, Some(entries));
            ToggleLocal(local, product) == local + [Picked(product)]
  {
    var local := SyncLocal(items, Some(entries));
    forall i | 0 <= i < |local|
      ensures !HasId(product.id)(local[i])
    {
      assert local[i] == Synced(entries[i]) && entries[i] in entries;
    }
  }
}
