/** The request layer of apiSlice.ts: the bearer header added to every
    request, the wrapper that refreshes the access token once on a 401 and
    retries once, and which cached queries a mutation invalidates. */
module ApiSlice {
  import opened Wrappers
  import opened Seqs
  import opened Session
  import ProductRoutes
  import Text

  /** Request headers, by lower-case name. */
  type Headers = map<string, string>

  const ContentType := "content-type"
  const Accept := "accept"
  const Authorization := "authorization"
  const JsonType := "application/json"

  /** `prepareHeaders`: with a truthy token, set the JSON content headers
      and `authorization: Bearer <token>`; otherwise leave them alone. */
  function PrepareHeaders(h: Headers, auth: AuthState): (r: Headers)
    ensures Truthy(TokenOf(auth)) ==>
              && r.Keys == h.Keys + {ContentType, Accept, Authorization}
              && r[Authorization] == "Bearer " + TokenOf(auth).value
              && r[ContentType] == JsonType && r[Accept] == JsonType
              && forall n :: n in h && n !in {ContentType, Accept, Authorization} ==> r[n] == h[n]
    ensures !Truthy(TokenOf(auth)) ==> r == h
  {
    match TokenOf(auth)
    case Some(token) =>
      if token != "" then h[ContentType := JsonType][Accept := JsonType][Authorization := "Bearer " + token]
      else h
    case None => h
  }

  /** The `authorization` header a request made in state `auth` carries. */
  function BearerOf(auth: AuthState): (b: Option<string>)
    ensures b.Some? <==> Truthy(TokenOf(auth))
    ensures b.Some? ==> |b.value| > 7 && b.value[..7] == "Bearer " && b.value[7..] == TokenOf(auth).value
  {
    var h := PrepareHeaders(map[], auth);
    if Authorization in h then Some(h[Authorization]) else None
  }

  /** The `args` of a base query; a plain string is a GET of that URL. */
  datatype Request = Request(url: string, verb: string)

  const RefreshRequest := Request("/auth/refresh", "GET")

  /** `error.status` of a failed base query. */
  datatype ErrorStatus = HttpStatus(code: int) | FetchError | ParsingError | TimeoutError | CustomError

  /** `data` of a successful base query, as far as the wrapper reads it. */
  datatype ResponseData = ResponseData(accessToken: Option<string>)

  /** A base query's result: `{ data }` (the data may be falsy) or `{ error }`. */
  datatype QueryResult = Data(data: Option<ResponseData>) | Error(status: ErrorStatus)

  /** One call of the base query: what was requested, with which header. */
  datatype Call = Call(request: Request, authorization: Option<string>)

  /** What a wrapped request produces: the result handed back, the calls
      made in order, and the auth state afterwards. */
  datatype Wrapped = Wrapped(result: QueryResult, calls: seq<Call>, auth: AuthState)

  predicate IsUnauthorized(r: QueryResult) {
    r.Error? && r.status == HttpStatus(401)
  }

  /** `baseQueryWithReauth`. `respond(n, call)` is the server's answer to
      the `n`-th call of this request (counting from 0). */
  function WithReauth(args: Request, auth: AuthState, respond: (nat, Call) -> QueryResult): (w: Wrapped)
    ensures 1 <= |w.calls| <= 3
    ensures w.calls[0] == Call(args, BearerOf(auth))
    // Only the second call may differ from the original request: there
    // is at most one refresh.
    ensures forall i :: 0 <= i < |w.calls| && i != 1 ==> w.calls[i].request == args
    ensures !IsUnauthorized(respond(0, w.calls[0])) ==>
              w == Wrapped(respond(0, Call(args, BearerOf(auth))), [Call(args, BearerOf(auth))], auth)
    ensures IsUnauthorized(respond(0, w.calls[0])) ==>
              |w.calls| >= 2 && w.calls[1] == Call(RefreshRequest, BearerOf(auth))
    ensures |w.calls| >= 2 ==>
              var refreshed := respond(1, w.calls[1]);
              if refreshed.Data? && refreshed.data.Some? then
                && w.auth == LoggedIn(refreshed.data.value.accessToken)
                && |w.calls| == 3
                && w.calls[2] == Call(args, BearerOf(w.auth))
                && w.result == respond(2, w.calls[2])
              else
                && w.auth == LoggedOut
                && |w.calls| == 2
                && w.result == respond(0, w.calls[0])
                && IsUnauthorized(w.result)
  {
    var first := Call(args, BearerOf(auth));
    var result := respond(0, first);
    if IsUnauthorized(result) then
      var refresh := Call(RefreshRequest, BearerOf(auth));
      var refreshed := respond(1, refresh);
      if refreshed.Data? && refreshed.data.Some? then
        var auth' := LoggedIn(refreshed.data.value.accessToken);
        var retry := Call(args, BearerOf(auth'));
        Wrapped(respond(2, retry), [first, refresh, retry], auth')
      else
        Wrapped(result, [first, refresh], LoggedOut)
    else
      Wrapped(result, [first], auth)
  }

  /** A retried request that is refused again is handed back as it is: no
      second refresh and no logout. The retry carries the refreshed token
      as its bearer, or no header when that token is empty. */
  lemma RetryRefusedAgainStaysLoggedIn(args: Request, auth: AuthState, respond: (nat, Call) -> QueryResult, t: string)
    requires IsUnauthorized(respond(0, Call(args, BearerOf(auth))))
    requires respond(1, Call(RefreshRequest, BearerOf(auth))) == Data(Some(ResponseData(Some(t))))
    requires IsUnauthorized(respond(2, Call(args, BearerOf(LoggedIn(Some(t))))))
    ensures var w := WithReauth(args, auth, respond);
            && |w.calls| == 3
            && w.result == respond(2, w.calls[2])
            && IsUnauthorized(w.result)
            && w.auth == LoggedIn(Some(t))
            && (t != "" ==> w.calls[2].authorization == Some("Bearer " + t))
            && (t == "" ==> w.calls[2].authorization.None?)
  {
    var w := WithReauth(args, auth, respond);
    assert w.calls[1] == Call(RefreshRequest, BearerOf(auth));
    assert w.auth == LoggedIn(Some(t));
    assert w.calls[2] == Call(args, BearerOf(LoggedIn(Some(t))));
    if t != "" {
      var b := BearerOf(LoggedIn(Some(t))).value;
      assert b == b[..7] + b[7..];
    }
  }

  /** The cache tags of apiSlice.ts. */
  datatype Tag = SearchTag | ProductTag | WishlistTag | CartTag | CheckoutTag | NavbarTag

  /** An endpoint with the tags it provides (queries) and invalidates
      (mutations). */
  datatype Endpoint = Endpoint(name: string, providesTags: set<Tag>, invalidatesTags: set<Tag>)

  const GetProductData := Endpoint("getProductData", {ProductTag}, {})
  const SearchProducts := Endpoint("searchProducts", {SearchTag}, {})
  const SearchNavProducts := Endpoint("searchNavProducts", {}, {})
  const AddToWishlist := Endpoint("addToWishlist", {}, {WishlistTag})
  const GetWishlists := Endpoint("getWishlists", {WishlistTag}, {})
  const AddToCart := Endpoint("addToCart", {}, {CartTag})
  const RemoveFromCart := Endpoint("removeFromCart", {}, {CartTag})
  const RemoveAllProducts := Endpoint("removeAllProducts", {}, {CartTag})
  const GetCartProducts := Endpoint("getCartProducts", {CartTag}, {})
  const CreateCheckout := Endpoint("createCheckout", {}, {CheckoutTag})
  const GetCheckout := Endpoint("getCheckout", {CheckoutTag}, {})
  const GetMenuItems := Endpoint("getMenuItems", {NavbarTag}, {})
  const Login := Endpoint("login", {}, {})
  const Signup := Endpoint("signup", {}, {})
  const Refresh := Endpoint("refresh", {}, {})
  const Logout := Endpoint("logout", {}, {})

  const Endpoints: seq<Endpoint> :=
    [GetProductData, SearchProducts, SearchNavProducts, AddToWishlist, GetWishlists,
     AddToCart, RemoveFromCart, RemoveAllProducts, GetCartProducts, CreateCheckout,
     GetCheckout, GetMenuItems, Login, Signup, Refresh, Logout]

  function RefetchedBy(mutation: Endpoint): Endpoint -> bool {
    (e: Endpoint) => e.providesTags * mutation.invalidatesTags != {}
  }

  /** The endpoints whose cached data a completed `mutation` marks stale. */
  function Refetched(mutation: Endpoint, endpoints: seq<Endpoint>): (r: seq<Endpoint>)
    ensures forall e :: e in r <==> e in endpoints && e.providesTags * mutation.invalidatesTags != {}
  {
    Filter(endpoints, RefetchedBy(mutation))
  }

  /** A wishlist toggle refetches the wishlist query and nothing else; in
      particular the product listing is not refetched. */
  lemma ToggleRefetchesOnlyWishlist()
    ensures forall e :: e in Refetched(AddToWishlist, Endpoints) <==> e == GetWishlists
  {
    forall e | e in Endpoints
      ensures e.providesTags * AddToWishlist.invalidatesTags != {} <==> e == GetWishlists
    {
      assert e.providesTags * AddToWishlist.invalidatesTags != {} <==> WishlistTag in e.providesTags;
    }
  }

  /** The sublabel path segment the client sends: `${sublabel}` prints
      an undefined sublabel as "undefined". */
  function NavSublabelSegment(sublabel: Option<string>): (seg: string)
    ensures sublabel.None? ==> seg == "undefined"
    ensures sublabel.Some? ==> seg == sublabel.value
  {
    if sublabel.Some? then sublabel.value else "undefined"
  }

  /** A menu link without a sublabel queries the whole category. */
  lemma NavWithoutSublabelIsCategoryOnly(menu: string)
    requires Text.Lower(menu) != "men" && Text.Lower(menu) != "women"
    ensures ProductRoutes.NavQuery(menu, NavSublabelSegment(None)).left
            == ProductRoutes.FieldEquals(ProductRoutes.OnCategory, Text.Lower(menu))
  {
    assert Text.Lower("undefined") == "undefined";
  }
}
