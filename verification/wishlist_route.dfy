/** The wishlist routes of routes/wishlist.js: POST /wishlist/toggle flips
    one product's membership in the user's wishlist document, and
    GET /wishlists returns that document. The database is a `Store` value;
    a persistence error is the `fault` parameter. */
module WishlistRoute {
  import opened Wrappers
  import opened Seqs
  import opened ProductModel
  import opened Http

  type UserId = string

  /** A wishlist entry: a snapshot of the product's display fields, its
      `productId`, and the entry's own subdocument `_id`. */
  datatype Entry = Entry(
    entryId: Id,
    productId: Id,
    category: string,
    description: string,
    discountedPrice: int,
    gender: string,
    image: string,
    name: string,
    originalPrice: int)

  /** The collections the routes read: users, one wishlist document per
      user (absent until first saved), and the product catalog. */
  datatype Store = Store(users: set<UserId>, wishlists: map<UserId, seq<Entry>>, catalog: Catalog)

  /** The `product` object in the request body: a catalog product carries
      `_id`; a wishlist entry also carries `productId`. */
  datatype ProductRef = ProductRef(id: Option<Id>, productId: Option<Id>)

  datatype ToggleRequest = ToggleRequest(product: ProductRef, isWishList: bool)

  /** Where the database throws, if it does: while reading (user, wishlist
      or product lookup) or while saving the wishlist. */
  datatype Fault = NoFault | LookupFault | SaveFault

  const UserNotFound := "User not found"
  const ProductNotFound := "Product not found"
  const WishlistNotFound := "Wishlist not found"
  const Removed := "Product removed from wishlist"
  const Added := "Product added to wishlist"
  const ServerError := "Something went wrong"

  /** The id the handler looks for: `product._id`, or `product.productId`
      when `isWishList` is set. */
  function ToggleKey(req: ToggleRequest): Option<Id> {
    if req.isWishList then req.product.productId else req.product.id
  }

  /** The user's entries; a user without a document has none. */
  function EntriesOf(s: Store, u: UserId): seq<Entry> {
    if u in s.wishlists then s.wishlists[u] else []
  }

  /** Some entry refers to product `id`. */
  predicate Lists(entries: seq<Entry>, id: Id) {
    exists e :: e in entries && e.productId == id
  }

  /** `wishlist.products.find(item => item.productId.toString() === productId)`
      found something; an undefined key matches nothing. */
  predicate Finds(entries: seq<Entry>, key: Option<Id>) {
    key.Some? && Lists(entries, key.value)
  }

  function OtherThan(id: Id): Entry -> bool {
    (e: Entry) => e.productId != id
  }

  /** The entries left by `filter(item => item.productId.toString() !== productId)`. */
  function Without(entries: seq<Entry>, id: Id): seq<Entry> {
    Filter(entries, OtherThan(id))
  }

  /** The entry pushed for a catalog product; `entryId` is the subdocument
      `_id` Mongoose generates. */
  function Snapshot(p: Product, entryId: Id): Entry {
    Entry(entryId, p.id, p.category, p.description, p.discountedPrice,
          p.gender, p.image, p.name, p.originalPrice)
  }

  /** No two entries refer to the same product. */
  predicate DistinctProducts(entries: seq<Entry>) {
    forall i, j :: 0 <= i < j < |entries| ==> entries[i].productId != entries[j].productId
  }

  /** POST /wishlist/toggle for user `u`. Returns the reply and the store
      afterwards; `freshId` is the `_id` of a pushed entry. */
  function Toggle(s: Store, u: UserId, req: ToggleRequest, freshId: Id, fault: Fault): (r: (Reply<()>, Store))
    // Only the user's own wishlist can change; users and catalog never do.
    ensures r.1.users == s.users && r.1.catalog == s.catalog
    ensures forall v :: v != u ==> EntriesOf(r.1, v) == EntriesOf(s, v)
    ensures forall v :: v != u ==> (v in r.1.wishlists <==> v in s.wishlists)
    // A saved document stays saved, and a 200 always leaves one behind,
    // even when its last entry was removed.
    ensures u in s.wishlists ==> u in r.1.wishlists
    ensures r.0.status == 200 ==> u in r.1.wishlists
    // Every non-200 reply leaves the store exactly as it was.
    ensures r.0.status != 200 ==> r.1 == s
    ensures fault == LookupFault ==> r == (Reply(500, Message(ServerError)), s)
    ensures fault != LookupFault && u !in s.users ==> r == (Reply(404, Message(UserNotFound)), s)
    ensures r.0.status == 200 ==>
              && u in s.users
              && fault == NoFault
              && (Finds(EntriesOf(s, u), ToggleKey(req))
                  || (ToggleKey(req).Some? && ToggleKey(req).value in s.catalog))
    ensures r.0.status != 200 ==>
              || u !in s.users
              || fault != NoFault
              || !(Finds(EntriesOf(s, u), ToggleKey(req))
                   || (ToggleKey(req).Some? && ToggleKey(req).value in s.catalog))
    // A failed save answers 500 and keeps the stored document.
    ensures && fault == SaveFault && u in s.users
            && (Finds(EntriesOf(s, u), ToggleKey(req))
                || (ToggleKey(req).Some? && ToggleKey(req).value in s.catalog))
            ==> r == (Reply(500, Message(ServerError)), s)
    // The missing-product case saves nothing, not even a new empty document.
    ensures && fault != LookupFault && u in s.users
            && !Finds(EntriesOf(s, u), ToggleKey(req))
            && (ToggleKey(req).None? || ToggleKey(req).value !in s.catalog)
            ==> r == (Reply(404, Message(ProductNotFound)), s)
    ensures r.0.status == 200 && Finds(EntriesOf(s, u), ToggleKey(req)) ==>
              && r.0.body == Message(Removed)
              && !Lists(EntriesOf(r.1, u), ToggleKey(req).value)
              && (forall e :: e in EntriesOf(r.1, u) <==>
                                e in EntriesOf(s, u) && Some(e.productId) != ToggleKey(req))
              && |EntriesOf(r.1, u)| < |EntriesOf(s, u)|
    ensures r.0.status == 200 && !Finds(EntriesOf(s, u), ToggleKey(req)) ==>
              && r.0.body == Message(Added)
              && EntriesOf(r.1, u) == EntriesOf(s, u) + [Snapshot(s.catalog[ToggleKey(req).value], freshId)]
  {
    if fault == LookupFault then (Reply(500, Message(ServerError)), s)
    else if u !in s.users then (Reply(404, Message(UserNotFound)), s)
    else
      var entries := EntriesOf(s, u);
      var key := ToggleKey(req);
      if Finds(entries, key) then
        if fault == SaveFault then (Reply(500, Message(ServerError)), s)
        else
          assert fault.NoFault?;
          var kept := Without(entries, key.value);
          assert Count(entries, OtherThan(key.value)) < |entries| by {
            var e :| e in entries && e.productId == key.value;
            var i :| 0 <= i < |entries| && entries[i] == e;
            assert !OtherThan(key.value)(entries[i]);
          }
          assert Finds(EntriesOf(s, u), ToggleKey(req));
          (Reply(200, Message(Removed)), s.(wishlists := s.wishlists[u := kept]))
      else if key.None? || key.value !in s.catalog then (Reply(404, Message(ProductNotFound)), s)
      else if fault == SaveFault then (Reply(500, Message(ServerError)), s)
      else
        assert fault.NoFault?;
        var added := entries + [Snapshot(s.catalog[key.value], freshId)];
        (Reply(200, Message(Added)), s.(wishlists := s.wishlists[u := added]))
  }

  /** GET /wishlists: the stored document, or 404 when the user has none. */
  function GetWishlists(s: Store, u: UserId, fault: Fault): (r: Reply<seq<Entry>>)
    ensures r.status == 200 <==> fault == NoFault && u in s.users && u in s.wishlists
    ensures r.status == 200 ==> r.body == Payload(s.wishlists[u])
    ensures fault == NoFault && u in s.users && u !in s.wishlists ==>
              r == Reply(404, Message(WishlistNotFound))
    ensures fault == NoFault && u !in s.users ==> r == Reply(404, Message(UserNotFound))
    ensures fault != NoFault ==> r == Reply(500, Message(ServerError))
  {
    if fault != NoFault then Reply(500, Message(ServerError))
    else if u !in s.users then Reply(404, Message(UserNotFound))
    else if u !in s.wishlists then Reply(404, Message(WishlistNotFound))
    else Reply(200, Payload(s.wishlists[u]))
  }

  /** A list headed by `x` has distinct products exactly when its tail
      does and the tail does not list `x`'s product. */
  lemma DistinctCons(x: Entry, tail: seq<Entry>)
    ensures DistinctProducts([x] + tail) <==> DistinctProducts(tail) && !Lists(tail, x.productId)
  {
    var w := [x] + tail;
    if DistinctProducts(w) {
      forall i, j | 0 <= i < j < |tail|
        ensures tail[i].productId != tail[j].productId
      {
        assert tail[i] == w[i + 1] && tail[j] == w[j + 1];
      }
      forall e | e in tail
        ensures e.productId != x.productId
      {
        var j :| 0 <= j < |tail| && tail[j] == e;
        assert w[0] == x && w[j + 1] == e;
      }
    }
    if DistinctProducts(tail) && !Lists(tail, x.productId) {
      forall i, j | 0 <= i < j < |w|
        ensures w[i].productId != w[j].productId
      {
        if i == 0 {
          assert w[0] == x;
          assert w[j] == tail[j - 1] && w[j] in tail;
        } else {
          assert w[i] == tail[i - 1] && w[j] == tail[j - 1];
        }
      }
      assert DistinctProducts(w);
    }
  }

  /** Removing one product's entries keeps the others distinct. */
  lemma {:induction false} WithoutKeepsDistinct(entries: seq<Entry>, id: Id)
    requires DistinctProducts(entries)
    ensures DistinctProducts(Without(entries, id))
    decreases |entries|
  {
    if |entries| > 0 {
      var rest := entries[1..];
      assert entries == [entries[0]] + rest;
      DistinctCons(entries[0], rest);
      WithoutKeepsDistinct(rest, id);
      if OtherThan(id)(entries[0]) {
        var tail := Without(rest, id);
        assert Without(entries, id) == [entries[0]] + tail;
        assert !Lists(tail, entries[0].productId);
        DistinctCons(entries[0], tail);
      } else {
        assert Without(entries, id) == Without(rest, id);
      }
    }
  }

  /** Removal keeps the other entries in their stored order: on any split
      of the list, the result is the kept entries of each part. */
  lemma ToggleRemovalKeepsOrder(s: Store, u: UserId, req: ToggleRequest, freshId: Id, a: seq<Entry>, b: seq<Entry>)
    requires u in s.users && EntriesOf(s, u) == a + b
    requires Finds(a + b, ToggleKey(req))
    ensures var r := Toggle(s, u, req, freshId, NoFault);
            var key := ToggleKey(req).value;
            r.0 == Reply(200, Message(Removed))
            && EntriesOf(r.1, u) == Without(a, key) + Without(b, key)
  {
    FilterAppend(a, b, OtherThan(ToggleKey(req).value));
  }

  /** If no two entries share a `productId` before a toggle, none do after. */
  lemma TogglePreservesDistinct(s: Store, u: UserId, req: ToggleRequest, freshId: Id, fault: Fault)
    requires WellKeyed(s.catalog)
    requires DistinctProducts(EntriesOf(s, u))
    ensures DistinctProducts(EntriesOf(Toggle(s, u, req, freshId, fault).1, u))
  {
    var entries := EntriesOf(s, u);
    var key := ToggleKey(req);
    var r := Toggle(s, u, req, freshId, fault);
    if r.0.status == 200 {
      if Finds(entries, key) {
        WithoutKeepsDistinct(entries, key.value);
      } else {
        var added := Snapshot(s.catalog[key.value], freshId);
        assert added.productId == key.value;
        var w := entries + [added];
        assert EntriesOf(r.1, u) == w;
        forall i, j | 0 <= i < j < |w|
          ensures w[i].productId != w[j].productId
        {
          if j == |entries| {
            assert w[i] in entries;
          }
        }
      }
    }
  }

  /** With an unchanged catalog, toggling a product that is not listed and
      then toggling it again gives back the original entries (the document
      itself may now exist, holding those same entries). */
  lemma {:induction false} ToggleTwiceRestores(s: Store, u: UserId, req: ToggleRequest, id1: Id, id2: Id)
    requires WellKeyed(s.catalog)
    requires u in s.users
    requires !Finds(EntriesOf(s, u), ToggleKey(req))
    requires ToggleKey(req).Some? && ToggleKey(req).value in s.catalog
    ensures var first := Toggle(s, u, req, id1, NoFault);
            var second := Toggle(first.1, u, req, id2, NoFault);
            && first.0 == Reply(200, Message(Added))
            && second.0 == Reply(200, Message(Removed))
            && EntriesOf(second.1, u) == EntriesOf(s, u)
  {
    var key := ToggleKey(req).value;
    var entries := EntriesOf(s, u);
    var first := Toggle(s, u, req, id1, NoFault);
    var added := Snapshot(s.catalog[key], id1);
    assert EntriesOf(first.1, u) == entries + [added];
    assert added in entries + [added];
    assert Finds(EntriesOf(first.1, u), ToggleKey(req));
    FilterAppend(entries, [added], OtherThan(key));
    assert forall i :: 0 <= i < |entries| ==> OtherThan(key)(entries[i]) by {
      forall i | 0 <= i < |entries|
        ensures OtherThan(key)(entries[i])
      {
        assert entries[i] in entries;
      }
    }
    assert Without([added], key) == [];
  }

  /** A listed product toggled twice is listed again, and so is every other
      product that was listed: membership is restored, although the entry
      is re-created at the end with a fresh snapshot. */
  lemma ToggleTwiceRestoresMembership(s: Store, u: UserId, req: ToggleRequest, id1: Id, id2: Id)
    requires WellKeyed(s.catalog)
    requires u in s.users
    requires Finds(EntriesOf(s, u), ToggleKey(req))
    requires ToggleKey(req).value in s.catalog
    ensures var first := Toggle(s, u, req, id1, NoFault);
            var second := Toggle(first.1, u, req, id2, NoFault);
            && first.0 == Reply(200, Message(Removed))
            && second.0 == Reply(200, Message(Added))
            && forall id :: Lists(EntriesOf(second.1, u), id) <==> Lists(EntriesOf(s, u), id)
  {
    var key := ToggleKey(req).value;
    var first := Toggle(s, u, req, id1, NoFault);
    var second := Toggle(first.1, u, req, id2, NoFault);
    var added := Snapshot(s.catalog[key], id2);
    assert EntriesOf(second.1, u) == EntriesOf(first.1, u) + [added];
    forall id
      ensures Lists(EntriesOf(second.1, u), id) <==> Lists(EntriesOf(s, u), id)
    {
      if Lists(EntriesOf(s, u), id) && id != key {
        var e :| e in EntriesOf(s, u) && e.productId == id;
        assert e in EntriesOf(second.1, u);
      }
      if id == key {
        assert added in EntriesOf(second.1, u);
      }
    }
  }

  /** A user with no wishlist document who adds a catalog product ends up
      with a document holding exactly that one entry. */
  lemma FirstAddCreatesDocument(s: Store, u: UserId, req: ToggleRequest, freshId: Id)
    requires u in s.users && u !in s.wishlists
    requires ToggleKey(req).Some? && ToggleKey(req).value in s.catalog
    ensures var r := Toggle(s, u, req, freshId, NoFault);
            && u in r.1.wishlists
            && r.1.wishlists[u] == [Snapshot(s.catalog[ToggleKey(req).value], freshId)]
  {
  }

  /** The pushed entry copies the catalog record's display fields. */
  lemma AddedEntryCopiesProduct(s: Store, u: UserId, req: ToggleRequest, freshId: Id)
    requires WellKeyed(s.catalog)
    requires u in s.users && !Finds(EntriesOf(s, u), ToggleKey(req))
    requires ToggleKey(req).Some? && ToggleKey(req).value in s.catalog
    ensures var after := EntriesOf(Toggle(s, u, req, freshId, NoFault).1, u);
            var p := s.catalog[ToggleKey(req).value];
            var e := after[|after| - 1];
            && |after| == |EntriesOf(s, u)| + 1
            && e.productId == ToggleKey(req).value
            && e.name == p.name && e.image == p.image && e.category == p.category
            && e.description == p.description && e.gender == p.gender
            && e.discountedPrice == p.discountedPrice && e.originalPrice == p.originalPrice
  {
  }
}
