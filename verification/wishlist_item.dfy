/** The wishlist page (WishlistItem.tsx): every card is a server entry,
    clicking its heart removes it from the local list at once and asks the
    server to toggle the entry's `productId`. */
module WishlistItem {
  import opened Wrappers
  import opened Seqs
  import opened ProductModel
  import opened WishlistRoute
  import opened Notify
  import opened Http

  function SameEntry(clicked: Entry): Entry -> bool {
    (e: Entry) => e.entryId == clicked.entryId
  }

  function OtherEntry(clicked: Entry): Entry -> bool {
    (e: Entry) => e.entryId != clicked.entryId
  }

  /** The optimistic update: drop every card whose `_id` is the clicked
      entry's `_id`. Nothing is ever added. */
  function RemoveLocal(items: seq<Entry>, clicked: Entry): (r: seq<Entry>)
    ensures forall e :: e in r <==> e in items && e.entryId != clicked.entryId
    ensures |r| == |items| - Count(items, SameEntry(clicked))
    ensures !Any(items, SameEntry(clicked)) ==> r == items
  {
    CountComplement(items, SameEntry(clicked), OtherEntry(clicked));
    Filter(items, OtherEntry(clicked))
  }

  /** The remaining cards keep their order: on any split of the list, the
      result is the kept cards of each part. */
  lemma RemoveLocalKeepsOrder(a: seq<Entry>, b: seq<Entry>, clicked: Entry)
    ensures RemoveLocal(a + b, clicked) == RemoveLocal(a, clicked) + RemoveLocal(b, clicked)
  {
    FilterAppend(a, b, OtherEntry(clicked));
  }

  /** The mutation body `{ product, isWishList: true }`: the server looks
      the entry up by its `productId`. */
  function ToggleRequestFor(entry: Entry): (req: ToggleRequest)
    ensures req.isWishList
    ensures ToggleKey(req) == Some(entry.productId)
  {
    ToggleRequest(ProductRef(Some(entry.entryId), Some(entry.productId)), true)
  }

  /** Clicking a card whose entry is stored removes that product from the
      user's stored wishlist. */
  lemma ServerRemovesClicked(s: Store, u: UserId, entry: Entry, freshId: Id)
    requires u in s.users && entry in EntriesOf(s, u)
    ensures var r := Toggle(s, u, ToggleRequestFor(entry), freshId, NoFault);
            && r.0.body == Message(Removed)
            && !Lists(EntriesOf(r.1, u), entry.productId)
  {
  }

  /** What a click leaves behind: the new local list and the toast. */
  datatype ClickEffect = ClickEffect(items: seq<Entry>, toast: Option<Toast>)

  /** `handleToggleWishlist`: the list is updated before the request and
      never reverted; the reply only decides the toast. */
  function HandleToggle(items: seq<Entry>, clicked: Entry, reply: MutationReply): (r: ClickEffect)
    ensures r.items == RemoveLocal(items, clicked)
    ensures reply.Rejected? ==> r.toast.None? || r.toast.value.status == ErrorToast
    ensures reply.Resolved? ==> r.toast.Some? && r.toast.value.status == SuccessToast
  {
    ClickEffect(RemoveLocal(items, clicked), MutationToast(reply))
  }

  /** A failed request leaves the same list as a successful one. */
  lemma FailureDoesNotRevert(items: seq<Entry>, clicked: Entry, data: Option<ErrorData>, message: Option<string>)
    ensures HandleToggle(items, clicked, Rejected(data)).items
            == HandleToggle(items, clicked, Resolved(message)).items
    ensures |HandleToggle(items, clicked, Rejected(data)).items| <= |items|
  {
  }

  /** A click on a stored entry, answered and refetched: the page shows the
      server's remaining entries, and none of them is for the clicked
      product, whatever the optimistic list held. */
  lemma ClickThenRefetchAgrees(s: Store, u: UserId, items: seq<Entry>, clicked: Entry, freshId: Id)
    requires u in s.users && clicked in EntriesOf(s, u)
    ensures var after := Toggle(s, u, ToggleRequestFor(clicked), freshId, NoFault).1;
            var shown := SyncLocal(RemoveLocal(items, clicked), DataOf(GetWishlists(after, u, NoFault)));
            shown == EntriesOf(after, u) && !Lists(shown, clicked.productId)
  {
    var r := Toggle(s, u, ToggleRequestFor(clicked), freshId, NoFault);
    assert r.0.status == 200;
    assert u in r.1.wishlists;
  }

  /** `useEffect` on fresh wishlist data: the list becomes the server's. */
  function SyncLocal(items: seq<Entry>, data: Option<seq<Entry>>): (r: seq<Entry>)
    ensures data.Some? ==> r == data.value
    ensures data.None? ==> r == items
  {
    if data.Some? then data.value else items
  }
}
