/** The product document of models/product.js: its required paths, the
    lower-casing setters on `description` and `category`, and the defaults
    for `status` and `recordDate`. */
module ProductModel {
  import opened Wrappers
  import opened Text

  /** A document identifier (`_id`), compared as its string form. */
  type Id = string

  /** A stored product document. Prices and quantity are JavaScript numbers;
      they are only copied around, so integers stand in for them. */
  datatype Product = Product(
    id: Id,
    image: string,
    name: string,
    discountedPrice: int,
    originalPrice: int,
    description: string,
    quantity: int,
    gender: string,
    category: string,
    status: bool,
    badge: string,
    recordDate: int)

  /** The product collection, keyed by `_id`. */
  type Catalog = map<Id, Product>

  /** Every document is filed under its own `_id`, which is what
      `findById` relies on. */
  predicate WellKeyed(c: Catalog) {
    forall k :: k in c ==> c[k].id == k
  }

  /** Fields a request body may carry; absent ones are `None`. Used both for
      a new document (POST) and for a partial update (PATCH). */
  datatype ProductFields = ProductFields(
    image: Option<string>,
    name: Option<string>,
    discountedPrice: Option<int>,
    originalPrice: Option<int>,
    description: Option<string>,
    quantity: Option<int>,
    gender: Option<string>,
    category: Option<string>,
    status: Option<bool>,
    badge: Option<string>)

  const NoFields := ProductFields(None, None, None, None, None, None, None, None, None, None)

  /** The schema paths marked `required` that can fail validation
      (`status` and `recordDate` have defaults). */
  datatype Path = ImagePath | NamePath | DiscountedPricePath | OriginalPricePath
                | DescriptionPath | QuantityPath | GenderPath | CategoryPath | BadgePath

  /** Mongoose's `required` check for a string path: absent or empty fails. */
  predicate HasText(v: Option<string>) {
    v.Some? && v.value != ""
  }

  /** The required paths a new document would leave unset. */
  function MissingPaths(f: ProductFields): set<Path> {
    (if HasText(f.image) then {} else {ImagePath})
    + (if HasText(f.name) then {} else {NamePath})
    + (if f.discountedPrice.Some? then {} else {DiscountedPricePath})
    + (if f.originalPrice.Some? then {} else {OriginalPricePath})
    + (if HasText(f.description) then {} else {DescriptionPath})
    + (if f.quantity.Some? then {} else {QuantityPath})
    + (if HasText(f.gender) then {} else {GenderPath})
    + (if HasText(f.category) then {} else {CategoryPath})
    + (if HasText(f.badge) then {} else {BadgePath})
  }

  /** The required string paths of a stored document that are empty. */
  function EmptyPaths(p: Product): set<Path> {
    (if p.image != "" then {} else {ImagePath})
    + (if p.name != "" then {} else {NamePath})
    + (if p.description != "" then {} else {DescriptionPath})
    + (if p.gender != "" then {} else {GenderPath})
    + (if p.category != "" then {} else {CategoryPath})
    + (if p.badge != "" then {} else {BadgePath})
  }

  /** The form every saved document has: `description` and `category`
      went through the lower-casing setters and no required string is empty. */
  predicate Normalised(p: Product) {
    IsLowered(p.description) && IsLowered(p.category) && EmptyPaths(p) == {}
  }

  /** `new Product({...}).save()`: apply the setters and defaults, then
      validate. `id` and `now` are the generated `_id` and `Date.now`. */
  function Create(f: ProductFields, id: Id, now: int): (r: Result<Product, set<Path>>)
    ensures r.Failure? <==> MissingPaths(f) != {}
    ensures r.Failure? ==> r.error == MissingPaths(f)
    ensures r.Success? ==> Normalised(r.value)
    ensures r.Success? ==> r.value.id == id && r.value.recordDate == now
    ensures r.Success? ==> SameUpToCase(r.value.description, f.description.value)
                           && SameUpToCase(r.value.category, f.category.value)
    ensures r.Success? ==> r.value.name == f.name.value && r.value.gender == f.gender.value
                           && r.value.badge == f.badge.value && r.value.image == f.image.value
    ensures r.Success? ==> r.value.status == (f.status.None? || f.status.value)
    ensures r.Success? ==> r.value.discountedPrice == f.discountedPrice.value
                           && r.value.originalPrice == f.originalPrice.value
                           && r.value.quantity == f.quantity.value
  {
    if MissingPaths(f) != {} then Failure(MissingPaths(f))
    else
      LowerIsLowered(f.description.value);
      LowerIsLowered(f.category.value);
      Success(Product(
        id, f.image.value, f.name.value, f.discountedPrice.value, f.originalPrice.value,
        Lower(f.description.value), f.quantity.value, f.gender.value, Lower(f.category.value),
        if f.status.Some? then f.status.value else true,
        f.badge.value, now))
  }

  /** The fields of a stored document, as a body that would recreate it. */
  function FieldsOf(p: Product): ProductFields {
    ProductFields(Some(p.image), Some(p.name), Some(p.discountedPrice), Some(p.originalPrice),
                  Some(p.description), Some(p.quantity), Some(p.gender), Some(p.category),
                  Some(p.status), Some(p.badge))
  }

  /** Saving an unchanged document again reproduces it: lower-casing is
      idempotent, so the setters do not alter `description` or `category`. */
  lemma {:induction false} ResaveIsIdentity(p: Product)
    requires Normalised(p)
    ensures Create(FieldsOf(p), p.id, p.recordDate) == Success(p)
  {
    LoweredIsFixed(p.description);
    LoweredIsFixed(p.category);
  }

  /** `Object.assign(product, body)`: every field present in the body is
      assigned through its setter; every other field keeps its value.
      `date` is the body's `recordDate`, a path a PATCH body may carry
      although the create route never copies it. */
  function Merge(p: Product, body: ProductFields, date: Option<int>): (r: Product)
    ensures r.id == p.id
    ensures date.None? ==> r.recordDate == p.recordDate
    ensures date.Some? ==> r.recordDate == date.value
    ensures body.image.None? ==> r.image == p.image
    ensures body.name.None? ==> r.name == p.name
    ensures body.discountedPrice.None? ==> r.discountedPrice == p.discountedPrice
    ensures body.originalPrice.None? ==> r.originalPrice == p.originalPrice
    ensures body.description.None? ==> r.description == p.description
    ensures body.quantity.None? ==> r.quantity == p.quantity
    ensures body.gender.None? ==> r.gender == p.gender
    ensures body.category.None? ==> r.category == p.category
    ensures body.status.None? ==> r.status == p.status
    ensures body.badge.None? ==> r.badge == p.badge
    ensures body.image.Some? ==> r.image == body.image.value
    ensures body.name.Some? ==> r.name == body.name.value
    ensures body.discountedPrice.Some? ==> r.discountedPrice == body.discountedPrice.value
    ensures body.originalPrice.Some? ==> r.originalPrice == body.originalPrice.value
    ensures body.quantity.Some? ==> r.quantity == body.quantity.value
    ensures body.gender.Some? ==> r.gender == body.gender.value
    ensures body.badge.Some? ==> r.badge == body.badge.value
    ensures body.status.Some? ==> r.status == body.status.value
    ensures body.description.Some? ==> IsLowered(r.description)
                                       && SameUpToCase(r.description, body.description.value)
    ensures body.category.Some? ==> IsLowered(r.category)
                                    && SameUpToCase(r.category, body.category.value)
  {
    LowerIsLowered(Pick(body.description, ""));
    LowerIsLowered(Pick(body.category, ""));
    Product(
      p.id,
      Pick(body.image, p.image),
      Pick(body.name, p.name),
      Pick(body.discountedPrice, p.discountedPrice),
      Pick(body.originalPrice, p.originalPrice),
      if body.description.Some? then Lower(body.description.value) else p.description,
      Pick(body.quantity, p.quantity),
      Pick(body.gender, p.gender),
      if body.category.Some? then Lower(body.category.value) else p.category,
      Pick(body.status, p.status),
      Pick(body.badge, p.badge),
      Pick(date, p.recordDate))
  }

  function Pick<T>(v: Option<T>, otherwise: T): T {
    if v.Some? then v.value else otherwise
  }

  /** A body with no fields leaves the document as it was. */
  lemma EmptyMergeIsIdentity(p: Product)
    ensures Merge(p, NoFields, None) == p
  {
  }
}
