/** The query builders of routes/products.js: each route turns URL
    parameters into a `Query` value, and `Matches` says which product
    documents a query selects. Patterns are regular expressions built from
    literal characters and `\s`, or a whole word. */
module ProductRoutes {
  import opened Wrappers
  import opened Text
  import opened ProductModel
  import opened Http

  /** A `$regex` value: `source` compiled with or without the `i` flag, or
      `\bword\b` with the `i` flag. */
  datatype Pattern = Regex(source: string, ignoreCase: bool) | WholeWord(word: string)

  datatype TextField = OnName | OnDescription | OnCategory | OnGender

  /** A MongoDB filter document. */
  datatype Query =
    | MatchAll                                // {}
    | StatusIs(active: bool)                  // { status: active }
    | FieldEquals(field: TextField, value: string)
    | SublabelEquals(sublabel: Option<string>)
    | FieldMatches(field: TextField, pattern: Pattern)
    | And(left: Query, right: Query)
    | Or(left: Query, right: Query)

  function FieldText(p: Product, f: TextField): string {
    match f
    case OnName => p.name
    case OnDescription => p.description
    case OnCategory => p.category
    case OnGender => p.gender
  }

  predicate CharEq(a: char, b: char, ignoreCase: bool) {
    if ignoreCase then ToLower(a) == ToLower(b) else a == b
  }

  /** The pattern `src` matches `t` starting at index `i`. The two
      characters `\s` stand for one white-space character; every other
      character stands for itself. */
  predicate TokensAt(src: string, t: string, i: nat, ignoreCase: bool)
    decreases |src|
  {
    if |src| == 0 then i <= |t|
    else if |src| >= 2 && src[0] == '\\' && src[1] == 's' then
      i < |t| && IsSpace(t[i]) && TokensAt(src[2..], t, i + 1, ignoreCase)
    else
      i < |t| && CharEq(src[0], t[i], ignoreCase) && TokensAt(src[1..], t, i + 1, ignoreCase)
  }

  /** `word` occurs in `t` at `i`, up to case, with a word boundary on
      both sides. */
  predicate WordAt(word: string, t: string, i: nat) {
    && i + |word| <= |t|
    && SameUpToCase(word, t[i..i + |word|])
    && (i == 0 || !IsWordChar(t[i - 1]))
    && (i + |word| == |t| || !IsWordChar(t[i + |word|]))
  }

  predicate PatternMatches(pat: Pattern, t: string) {
    match pat
    case Regex(src, ic) => exists i: nat :: i <= |t| && TokensAt(src, t, i, ic)
    case WholeWord(w) => exists i: nat :: i <= |t| && WordAt(w, t, i)
  }

  /** Whether product `p` satisfies query `q`. Products have no `sublabel`
      path, so a sublabel condition holds only for an undefined value. */
  predicate Matches(q: Query, p: Product) {
    match q
    case MatchAll => true
    case StatusIs(b) => p.status == b
    case FieldEquals(f, v) => FieldText(p, f) == v
    case SublabelEquals(v) => v.None?
    case FieldMatches(f, pat) => PatternMatches(pat, FieldText(p, f))
    case And(a, b) => Matches(a, p) && Matches(b, p)
    case Or(a, b) => Matches(a, p) || Matches(b, p)
  }

  /** GET / (shop) and GET /admin/products: the shop lists active products
      only, the admin listing everything. */
  function ListingQuery(admin: bool): (q: Query)
    ensures forall p :: Matches(q, p) <==> admin || p.status
  {
    if admin then MatchAll else StatusIs(true)
  }

  /** GET /nav/:menu/:sublabel. "men" and "women" select a gender and
      ignore the sublabel; any other menu is a category, narrowed by the
      sublabel unless the sublabel is the text "undefined". */
  function NavQuery(menuParam: string, sublabelParam: string): (q: Query)
    ensures q.And? && q.right == StatusIs(true)
    ensures forall p :: Matches(q, p) ==> p.status
    ensures Lower(menuParam) == "men" ==> q.left == FieldEquals(OnGender, "male")
    ensures Lower(menuParam) == "women" ==> q.left == FieldEquals(OnGender, "female")
    ensures Lower(menuParam) != "men" && Lower(menuParam) != "women" ==>
              if Lower(sublabelParam) == "undefined" then
                q.left == FieldEquals(OnCategory, Lower(menuParam))
              else
                && q.left.And?
                && q.left.left == FieldEquals(OnCategory, Lower(menuParam))
                && q.left.right.SublabelEquals?
                && (Lower(sublabelParam) != "" ==> q.left.right.sublabel == Some(Lower(sublabelParam)))
  {
    var menu := Lower(menuParam);
    // `req.params.sublabel.toLowerCase() || undefined`
    var sublabel := if Lower(sublabelParam) == "" then None else Some(Lower(sublabelParam));
    if menu == "men" || menu == "women" then
      And(FieldEquals(OnGender, if menu == "men" then "male" else "female"), StatusIs(true))
    else if sublabel != Some("undefined") then
      And(And(FieldEquals(OnCategory, menu), SublabelEquals(sublabel)), StatusIs(true))
    else
      And(FieldEquals(OnCategory, menu), StatusIs(true))
  }

  /** For the gender menus the sublabel makes no difference. */
  lemma NavGenderIgnoresSublabel(menu: string, sub1: string, sub2: string)
    requires Lower(menu) == "men" || Lower(menu) == "women"
    ensures NavQuery(menu, sub1) == NavQuery(menu, sub2)
  {
  }

  /** Because `category` is stored lower-cased and the menu is lower-cased
      before comparing, navigation finds a created product whatever the
      letter case of either. */
  lemma NavFindsCategoryAnyCase(f: ProductFields, id: Id, now: int, menu: string)
    requires Create(f, id, now).Success?
    requires Lower(menu) != "men" && Lower(menu) != "women"
    ensures var p := Create(f, id, now).value;
            Matches(NavQuery(menu, "undefined"), p) <==> Lower(f.category.value) == Lower(menu) && p.status
  {
    var p := Create(f, id, now).value;
    assert Lower("undefined") == "undefined";
    assert p.category == Lower(f.category.value);
  }

  /** `key.replace(/\s/g, "\\s")`: every white-space character becomes
      the two characters `\s`. */
  function EscapeWhitespace(key: string): (r: string)
    ensures forall i :: 0 <= i < |r| ==> !IsSpace(r[i])
    ensures (forall i :: 0 <= i < |key| ==> !IsSpace(key[i])) ==> r == key
    ensures |r| >= |key|
    decreases |key|
  {
    if |key| == 0 then ""
    else
      var rest := EscapeWhitespace(key[1..]);
      assert key == [key[0]] + key[1..];
      (if IsSpace(key[0]) then "\\s" else [key[0]]) + rest
  }

  /** `key` occurs in `t` at `i`, where letters compare up to case and a
      white-space character of the key stands for any white space. */
  predicate LooseAt(key: string, t: string, i: nat) {
    && i + |key| <= |t|
    && forall j :: 0 <= j < |key| ==>
         if IsSpace(key[j]) then IsSpace(t[i + j]) else ToLower(key[j]) == ToLower(t[i + j])
  }

  /** The rewritten key, compiled with the `i` flag, matches at `i`
      exactly when the original key occurs loosely at `i`. */
  lemma {:induction false} EscapedKeyMatchesLoosely(key: string, t: string, i: nat)
    requires '\\' !in key
    requires i <= |t|
    ensures TokensAt(EscapeWhitespace(key), t, i, true) <==> LooseAt(key, t, i)
    decreases |key|
  {
    if |key| > 0 {
      var src := EscapeWhitespace(key);
      var rest := EscapeWhitespace(key[1..]);
      assert '\\' !in key[1..] by {
        forall c | c in key[1..] ensures c != '\\' { assert c in key; }
      }
      if i < |t| {
        EscapedKeyMatchesLoosely(key[1..], t, i + 1);
      }
      if IsSpace(key[0]) {
        assert src == "\\s" + rest;
        assert src[2..] == rest;
      } else {
        assert src == [key[0]] + rest;
        assert src[1..] == rest;
        assert src[0] == key[0] && key[0] != '\\';
      }
      if LooseAt(key, t, i) {
        assert LooseAt(key[1..], t, i + 1) by {
          forall j | 0 <= j < |key[1..]|
            ensures if IsSpace(key[1..][j]) then IsSpace(t[i + 1 + j])
                    else ToLower(key[1..][j]) == ToLower(t[i + 1 + j])
          {
            assert key[1..][j] == key[j + 1];
          }
        }
      }
      if i < |t| && LooseAt(key[1..], t, i + 1)
         && (if IsSpace(key[0]) then IsSpace(t[i]) else ToLower(key[0]) == ToLower(t[i])) {
        forall j | 0 <= j < |key|
          ensures if IsSpace(key[j]) then IsSpace(t[i + j]) else ToLower(key[j]) == ToLower(t[i + j])
        {
          if j > 0 {
            assert key[j] == key[1..][j - 1];
          }
        }
      }
    }
  }

  /** The name/description/category pattern of a search finds the key
      anywhere in a field, up to case and white-space kind. */
  lemma SearchPatternMeaning(key: string, t: string)
    requires '\\' !in key
    ensures PatternMatches(Regex(EscapeWhitespace(key), true), t)
            <==> exists i: nat :: i <= |t| && LooseAt(key, t, i)
  {
    var src := EscapeWhitespace(key);
    if exists i: nat :: i <= |t| && TokensAt(src, t, i, true) {
      var i: nat :| i <= |t| && TokensAt(src, t, i, true);
      EscapedKeyMatchesLoosely(key, t, i);
    }
    if exists i: nat :: i <= |t| && LooseAt(key, t, i) {
      var i: nat :| i <= |t| && LooseAt(key, t, i);
      EscapedKeyMatchesLoosely(key, t, i);
    }
  }

  /** The gender pattern of a search: "men" and "women" (any case) become
      the whole words "male" and "female"; any other key is used as is. */
  function GenderPattern(searchKey: string): (pat: Pattern)
    ensures Lower(searchKey) == "men" ==> pat == WholeWord("male")
    ensures Lower(searchKey) == "women" ==> pat == WholeWord("female")
    ensures Lower(searchKey) != "men" && Lower(searchKey) != "women" ==> pat == Regex(searchKey, true)
  {
    if Lower(searchKey) == "men" then WholeWord("male")
    else if Lower(searchKey) == "women" then WholeWord("female")
    else Regex(searchKey, true)
  }

  /** GET /search/:key: an active product whose name, description or
      category matches the rewritten key, or whose gender matches the
      gender pattern. */
  function SearchQuery(key: string): (q: Query)
    ensures forall p :: Matches(q, p) ==> p.status
    ensures forall p :: Matches(q, p) <==>
              && p.status
              && (|| PatternMatches(Regex(EscapeWhitespace(key), true), p.name)
                  || PatternMatches(Regex(EscapeWhitespace(key), true), p.description)
                  || PatternMatches(Regex(EscapeWhitespace(key), true), p.category)
                  || PatternMatches(GenderPattern(EscapeWhitespace(key)), p.gender))
  {
    var searchKey := EscapeWhitespace(key);
    var regex := Regex(searchKey, true);
    var anyField :=
      Or(Or(Or(FieldMatches(OnName, regex), FieldMatches(OnDescription, regex)),
            FieldMatches(OnCategory, regex)),
         FieldMatches(OnGender, GenderPattern(searchKey)));
    assert forall p :: Matches(anyField, p) <==>
              || PatternMatches(regex, p.name) || PatternMatches(regex, p.description)
              || PatternMatches(regex, p.category) || PatternMatches(GenderPattern(searchKey), p.gender)
    by {
      forall p
        ensures Matches(anyField, p) <==>
                  || PatternMatches(regex, p.name) || PatternMatches(regex, p.description)
                  || PatternMatches(regex, p.category) || PatternMatches(GenderPattern(searchKey), p.gender)
      {
        assert Matches(anyField.left, p) <==> Matches(anyField.left.left, p) || Matches(anyField.left.right, p);
        assert Matches(anyField.left.left, p)
               <==> Matches(anyField.left.left.left, p) || Matches(anyField.left.left.right, p);
      }
    }
    And(anyField, StatusIs(true))
  }

  /** Outside "men" and "women", the gender field is searched with the same
      pattern as the other fields. */
  lemma SearchGenderSameAsName(key: string)
    requires Lower(EscapeWhitespace(key)) != "men" && Lower(EscapeWhitespace(key)) != "women"
    ensures GenderPattern(EscapeWhitespace(key)) == Regex(EscapeWhitespace(key), true)
  {
  }

  /** Searching "men" (any case) never matches the gender "female" (any
      case): "male" inside it is not a whole word. */
  lemma {:induction false} MenNeverMatchesFemale(key: string, gender: string)
    requires Lower(key) == "men"
    requires SameUpToCase(gender, "female")
    ensures !PatternMatches(GenderPattern(EscapeWhitespace(key)), gender)
  {
    assert forall i :: 0 <= i < |key| ==> !IsSpace(key[i]) by {
      forall i | 0 <= i < |key| ensures !IsSpace(key[i]) {
        assert Lower(key)[i] == ToLower(key[i]);
      }
    }
    assert EscapeWhitespace(key) == key;
    forall i: nat | i <= |gender|
      ensures !WordAt("male", gender, i)
    {
      if i + 4 <= |gender| {
        var w := gender[i..i + 4];
        assert w[0] == gender[i];
        assert ToLower("male"[0]) == 'm';
        if i == 0 {
          assert ToLower(gender[0]) == ToLower("female"[0]) == 'f';
        } else if i == 1 {
          assert ToLower(gender[1]) == ToLower("female"[1]) == 'e';
        } else {
          assert ToLower(gender[1]) == ToLower("female"[1]) == 'e';
          assert IsWordChar(gender[1]);
        }
      }
    }
  }

  /** The search also reads name, description and category with the plain
      pattern, so "men" selects any active product one of whose text
      fields mentions "women" (in any case). */
  lemma MenSearchFindsWomensProduct(p: Product, f: TextField, i: nat)
    requires p.status && f != OnGender
    requires LooseAt("women", FieldText(p, f), i)
    ensures Matches(SearchQuery("men"), p)
  {
    var t := FieldText(p, f);
    assert EscapeWhitespace("men") == "men";
    assert LooseAt("men", t, i + 2) by {
      forall j | 0 <= j < 3
        ensures ToLower("men"[j]) == ToLower(t[i + 2 + j])
      {
        assert "men"[j] == "women"[j + 2];
      }
    }
    SearchPatternMeaning("men", t);
  }

  /** GET /category/:key as written: a category match (case-sensitive) OR
      an active product. */
  function CategoryQuery(key: string): (q: Query)
    ensures forall p :: Matches(q, p) <==> p.status || PatternMatches(Regex(key, false), p.category)
  {
    Or(FieldMatches(OnCategory, Regex(key, false)), StatusIs(true))
  }

  /** The route as written returns every active product, whatever the key. */
  lemma CategoryQueryIgnoresKey(key: string, p: Product)
    requires p.status
    ensures Matches(CategoryQuery(key), p)
  {
  }

  /** The same: an active "shoes" product is returned for the key "bags". */
  lemma CategoryQueryCounterexample(p: Product)
    requires p.status && p.category == "shoes"
    ensures Matches(CategoryQuery("bags"), p)
    ensures !PatternMatches(Regex("bags", false), p.category)
  {
    forall i: nat | i <= |p.category|
      ensures !TokensAt("bags", p.category, i, false)
    {
      if i < |p.category| {
        assert p.category[i] != 'b';
      }
    }
  }

  /** The category search with the two conditions combined by `$and`: an
      active product whose category matches the key. */
  function CategoryQueryIntended(key: string): (q: Query)
    ensures forall p :: Matches(q, p) <==> p.status && PatternMatches(Regex(key, false), p.category)
  {
    And(FieldMatches(OnCategory, Regex(key, false)), StatusIs(true))
  }

  const CannotFind := "Cannot find product"
  const ValidationFailed := "Product validation failed"

  /** The `getProduct` middleware: either the stored document, which it
      hands on to the route (`res.product` and `next()`), or the 404 reply
      it sends itself. */
  function FindProduct(c: Catalog, id: Id): (r: Result<Product, Reply<Product>>)
    ensures r.Failure? <==> id !in c
    ensures r.Failure? ==> r.error == Reply(404, Message(CannotFind))
    ensures r.Success? ==> r.value == c[id] && r.value in c.Values
  {
    if id in c then Success(c[id]) else Failure(Reply(404, Message(CannotFind)))
  }

  /** POST /: save a new document (201), or 400 when validation fails. */
  function CreateProduct(c: Catalog, f: ProductFields, id: Id, now: int): (r: (Reply<Product>, Catalog))
    ensures r.0.status == 201 <==> MissingPaths(f) == {}
    ensures r.0.status == 201 ==> r.0.body.Payload? && Normalised(r.0.body.value)
                                  && r.1 == c[id := r.0.body.value]
    ensures r.0.status != 201 ==> r.0 == Reply(400, Message(ValidationFailed)) && r.1 == c
    // The stored document is the one the schema builds from the body.
    ensures r.0.status == 201 ==> Create(f, id, now) == Success(r.0.body.value)
  {
    match Create(f, id, now)
    case Success(p) => (Reply(201, Payload(p)), c[id := p])
    case Failure(_) => (Reply(400, Message(ValidationFailed)), c)
  }

  /** PATCH /:id: assign the body's fields (and its `recordDate`, `date`)
      to the stored document and save it; 404 when there is no such
      document, 400 when a required string ends up empty. */
  function PatchProduct(c: Catalog, id: Id, body: ProductFields, date: Option<int>): (r: (Reply<Product>, Catalog))
    ensures id !in c ==> r == (Reply(404, Message(CannotFind)), c)
    ensures r.0.status != 200 ==> r.1 == c
    ensures r.0.status == 200 ==>
              && id in c && r.0.body == Payload(Merge(c[id], body, date))
              && EmptyPaths(Merge(c[id], body, date)) == {}
              && r.1 == c[id := Merge(c[id], body, date)]
    ensures id in c && EmptyPaths(Merge(c[id], body, date)) != {} ==>
              r == (Reply(400, Message(ValidationFailed)), c)
    ensures id in c && EmptyPaths(Merge(c[id], body, date)) == {} ==> r.0.status == 200
  {
    match FindProduct(c, id)
    case Failure(reply) => (reply, c)
    case Success(stored) =>
      var merged := Merge(stored, body, date);
      if EmptyPaths(merged) == {} then (Reply(200, Payload(merged)), c[id := merged])
      else (Reply(400, Message(ValidationFailed)), c)
  }

  const Deleted := "Deleted Product"

  /** DELETE /:id: remove the stored document; 404 when there is none. */
  function DeleteProduct(c: Catalog, id: Id): (r: (Reply<Product>, Catalog))
    ensures r.0.status == 200 <==> id in c
    ensures id in c ==> r.0 == Reply(200, Message(Deleted))
    ensures id !in c ==> r == (Reply(404, Message(CannotFind)), c)
    ensures id !in r.1
    ensures forall k :: k != id ==> (k in r.1 <==> k in c)
    ensures forall k :: k in r.1 ==> r.1[k] == c[k]
  {
    match FindProduct(c, id)
    case Failure(reply) => (reply, c)
    case Success(_) => (Reply(200, Message(Deleted)), c - {id})
  }

  /** Creating and patching and deleting keep every document filed under
      its own `_id`, the invariant the wishlist routes rely on. */
  lemma {:induction false} CatalogWritesKeepWellKeyed(c: Catalog, f: ProductFields, id: Id, now: int,
                                                      target: Id, body: ProductFields, date: Option<int>)
    requires WellKeyed(c)
    ensures WellKeyed(CreateProduct(c, f, id, now).1)
    ensures WellKeyed(PatchProduct(c, target, body, date).1)
    ensures WellKeyed(DeleteProduct(c, target).1)
  {
    var created := CreateProduct(c, f, id, now);
    if created.0.status == 201 {
      assert created.1[id].id == id;
    }
    var patched := PatchProduct(c, target, body, date);
    if patched.0.status == 200 {
      assert patched.1[target].id == c[target].id == target;
    }
  }

  /** A created product is found by its id; once deleted it is not, and
      the catalog is back to what it was before the creation. */
  lemma {:induction false} CreateFindDelete(c: Catalog, f: ProductFields, id: Id, now: int)
    requires id !in c && MissingPaths(f) == {}
    ensures var created := CreateProduct(c, f, id, now);
            && FindProduct(created.1, id) == Success(created.0.body.value)
            && FindProduct(DeleteProduct(created.1, id).1, id).Failure?
            && DeleteProduct(created.1, id).1 == c
  {
    var created := CreateProduct(c, f, id, now);
    var removed := DeleteProduct(created.1, id).1;
    assert removed.Keys == c.Keys;
  }

  /** A PATCH with an empty body changes nothing it stores. */
  lemma EmptyPatchKeepsCatalog(c: Catalog, id: Id)
    requires id in c && EmptyPaths(c[id]) == {}
    ensures PatchProduct(c, id, NoFields, None).1 == c
  {
    EmptyMergeIsIdentity(c[id]);
  }
}
