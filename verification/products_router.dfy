/**
 * The logic the product routes hold themselves: loading the catalogue at
 * start-up, the field-by-field merge of an update, the required-field check
 * and `status` default of a creation, and the create and delete handlers.
 */
module ProductsRouter {
  import opened Js
  import opened Products

  /**
   * The product fields of a request body, each `None` (or `Absent`) when the
   * body leaves it out.
   */
  datatype ProductBody = ProductBody(
    title: Option<string>,
    description: Option<string>,
    code: Option<string>,
    price: Option<int>,
    stock: Option<int>,
    category: Option<string>,
    thumbnails: Thumbnail,
    status: Option<bool>)

  /** The arguments the create handler passes on to `addProduct`. */
  datatype NewProduct = NewProduct(
    title: string,
    description: string,
    price: int,
    thumbnail: Thumbnail,
    code: string,
    stock: int,
    category: string,
    status: bool)

  datatype UpdateOutcome = UpdateNotFound | Updated

  datatype PostOutcome = MissingFields | DuplicateCode | Created

  /**
   * The catalogue as the routes module sets it up: a manager bound to the
   * products file, then initialised.
   */
  method LoadCatalogue(file: Option<seq<Product>>) returns (pm: ProductManager)
    ensures fresh(pm) && pm.Valid()
    ensures file.Some? ==>
      pm.products == file.value && pm.lastId == LoadedLastId(file.value) && pm.stored == file
    ensures file.None? ==> pm.products == [] && pm.lastId == 0 && pm.stored == Some([])
  {
    pm := new ProductManager(file);
    pm.Init();
  }

  /**
   * The update rule: every field but `status` takes the request's value only
   * when that value is truthy, so an absent field, `""` or `0` keeps the old
   * value; `status` takes any defined value, `false` included. The id and the
   * `thumbnail` stored at creation are never touched.
   */
  function ApplyUpdate(p: Product, body: ProductBody): (q: Product)
    ensures q.id == p.id && q.thumbnail == p.thumbnail
    ensures q.title != p.title ==> TruthyString(body.title) && q.title == body.title.value
    ensures q.description != p.description ==> TruthyString(body.description) && q.description == body.description.value
    ensures q.code != p.code ==> TruthyString(body.code) && q.code == body.code.value
    ensures q.price != p.price ==> TruthyNumber(body.price) && q.price == body.price.value
    ensures q.stock != p.stock ==> TruthyNumber(body.stock) && q.stock == body.stock.value
    ensures q.category != p.category ==> TruthyString(body.category) && q.category == body.category.value
    ensures q.thumbnails != p.thumbnails ==> body.thumbnails.Truthy() && q.thumbnails == body.thumbnails
    ensures TruthyString(body.title) ==> q.title == body.title.value
    ensures TruthyString(body.description) ==> q.description == body.description.value
    ensures TruthyString(body.code) ==> q.code == body.code.value
    ensures TruthyNumber(body.price) ==> q.price == body.price.value
    ensures TruthyNumber(body.stock) ==> q.stock == body.stock.value
    ensures TruthyString(body.category) ==> q.category == body.category.value
    ensures body.thumbnails.Truthy() ==> q.thumbnails == body.thumbnails
    ensures q.status == if body.status.Some? then body.status.value else p.status
  {
    p.(title := OrString(body.title, p.title),
       description := OrString(body.description, p.description),
       code := OrString(body.code, p.code),
       price := OrNumber(body.price, p.price),
       stock := OrNumber(body.stock, p.stock),
       category := OrString(body.category, p.category),
       thumbnails := body.thumbnails.Or(p.thumbnails),
       status := DefinedOr(body.status, p.status))
  }

  /** Sending the same update twice changes nothing the first did not. */
  lemma UpdateIsIdempotent(p: Product, body: ProductBody)
    ensures ApplyUpdate(ApplyUpdate(p, body), body) == ApplyUpdate(p, body)
  {
  }

  /** A body of empty strings and zeros, without `status`, leaves the product as it was. */
  lemma UpdateCannotClearFields(p: Product)
    ensures ApplyUpdate(p, ProductBody(Some(""), Some(""), Some(""), Some(0), Some(0), Some(""), Path(""), None)) == p
  {
  }

  /**
   * Updating one product keeps the bound on ids and their distinctness, since
   * the id is not touched.
   */
  lemma UpdateKeepsIdInvariants(ps: seq<Product>, i: nat, body: ProductBody, bound: int)
    requires i < |ps|
    ensures IdsAtMost(ps, bound) ==> IdsAtMost(ps[i := ApplyUpdate(ps[i], body)], bound)
    ensures IdsDistinct(ps) ==> IdsDistinct(ps[i := ApplyUpdate(ps[i], body)])
  {
  }

  /**
   * The update does not check codes: giving the second of two products the
   * first one's code leaves two products with the same code.
   */
  lemma UpdateCanDuplicateCode(a: Product, b: Product)
    requires a.code == "A" && b.code == "B"
    ensures CodesDistinct([a, b])
    ensures !CodesDistinct([a, b][1 := ApplyUpdate(b, ProductBody(None, None, Some("A"), None, None, None, Absent, None))])
  {
    var qs := [a, b][1 := ApplyUpdate(b, ProductBody(None, None, Some("A"), None, None, None, Absent, None))];
    assert qs[0].code == qs[1].code;
  }

  /**
   * The update handler: reports a missing id and changes nothing; otherwise
   * overwrites the fields of the first product with that id one by one, by
   * the update rule, and saves the catalogue.
   */
  method UpdateProduct(pm: ProductManager, productId: int, body: ProductBody) returns (outcome: UpdateOutcome)
    requires pm.Valid()
    modifies pm
    ensures pm.Valid() && pm.lastId == old(pm.lastId)
    ensures outcome == UpdateNotFound <==> !HasId(old(pm.products), productId)
    ensures outcome == UpdateNotFound ==> unchanged(pm)
    ensures outcome == Updated ==>
      var i := IndexOfId(old(pm.products), productId);
      pm.products == old(pm.products)[i := ApplyUpdate(old(pm.products)[i], body)] &&
      pm.stored == Some(pm.products)
    ensures old(IdsDistinct(pm.products)) ==> IdsDistinct(pm.products)
  {
    var existingProduct := pm.GetProductById(productId);
    if existingProduct.None? {
      return UpdateNotFound;
    }
    var i := IndexOfId(pm.products, productId);
    var p := pm.products[i];
    ghost var target := ApplyUpdate(p, body);
    p := p.(title := OrString(body.title, p.title));
    p := p.(description := OrString(body.description, p.description));
    p := p.(code := OrString(body.code, p.code));
    p := p.(price := OrNumber(body.price, p.price));
    p := p.(stock := OrNumber(body.stock, p.stock));
    p := p.(category := OrString(body.category, p.category));
    p := p.(thumbnails := body.thumbnails.Or(p.thumbnails));
    p := p.(status := DefinedOr(body.status, p.status));
    assert p == target;
    UpdateKeepsIdInvariants(pm.products, i, body, pm.lastId);
    pm.products := pm.products[i := p];
    pm.SaveData();
    outcome := Updated;
  }

  /** Whether the six fields a creation requires are all truthy (`price` and `stock` of 0 are not). */
  predicate HasRequiredFields(body: ProductBody) {
    TruthyString(body.title) && TruthyString(body.description) && TruthyString(body.code) &&
    TruthyNumber(body.price) && TruthyNumber(body.stock) && TruthyString(body.category)
  }

  /**
   * The create handler's check: a body missing any required field is refused;
   * otherwise its fields become the arguments of `addProduct`, with `status`
   * true when the body leaves it out.
   */
  function ValidateCreate(body: ProductBody): (r: Option<NewProduct>)
    ensures r.Some? <==> HasRequiredFields(body)
    ensures r.Some? ==>
      r.value.title == body.title.value && r.value.title != "" &&
      r.value.description == body.description.value && r.value.description != "" &&
      r.value.code == body.code.value && r.value.code != "" &&
      r.value.price == body.price.value && r.value.price != 0 &&
      r.value.stock == body.stock.value && r.value.stock != 0 &&
      r.value.category == body.category.value && r.value.category != "" &&
      r.value.thumbnail == body.thumbnails
    ensures r.Some? ==> r.value.status == (body.status.None? || body.status.value)
  {
    var status := if body.status.Some? then body.status.value else true;
    if !HasRequiredFields(body) then None
    else Some(NewProduct(body.title.value, body.description.value, body.price.value, body.thumbnails,
                         body.code.value, body.stock.value, body.category.value, status))
  }

  /**
   * The create handler as written: after the field check it tests the result
   * of the asynchronous `getProducts(code)`, a Promise, which is always truthy,
   * so every complete body is refused as a duplicate.
   */
  function PostAsWritten(body: ProductBody): (r: PostOutcome)
    ensures r != Created
    ensures r == MissingFields <==> !HasRequiredFields(body)
  {
    if ValidateCreate(body).None? then MissingFields else DuplicateCode
  }

  /**
   * The create handler's intended decision: refuse an incomplete body, refuse
   * a code the catalogue already holds, create otherwise.
   */
  function PostDecision(ps: seq<Product>, body: ProductBody): (r: PostOutcome)
    ensures r == MissingFields <==> !HasRequiredFields(body)
    ensures r == DuplicateCode <==> HasRequiredFields(body) && HasCode(ps, body.code.value)
    ensures r == Created <==> HasRequiredFields(body) && !HasCode(ps, body.code.value)
  {
    match ValidateCreate(body)
    case None => MissingFields
    case Some(n) => if HasCode(ps, n.code) then DuplicateCode else Created
  }

  /** A complete body with a new code, on an empty catalogue: refused as written, created as intended. */
  lemma PostAsWrittenRefusesNewCode()
    ensures var body := ProductBody(Some("T-Shirt"), Some("desc"), Some("CODE1"), Some(100), Some(10),
                                    Some("apparel"), Path("img.jpg"), None);
      PostAsWritten(body) == DuplicateCode && PostDecision([], body) == Created
  {
  }

  /**
   * The create handler with the intended duplicate check: an incomplete body
   * or a code already in the catalogue is refused and nothing changes;
   * otherwise the product is added with the next id and saved.
   */
  method CreateProduct(pm: ProductManager, body: ProductBody) returns (outcome: PostOutcome)
    requires pm.Valid()
    modifies pm
    ensures pm.Valid()
    ensures outcome == PostDecision(old(pm.products), body)
    ensures outcome != Created ==> unchanged(pm)
    ensures outcome == Created ==>
      var n := ValidateCreate(body).value;
      pm.lastId == old(pm.lastId) + 1 &&
      pm.products == old(pm.products) +
        [Product(pm.lastId, n.title, n.description, n.price, n.thumbnail, n.code, n.stock, n.category, n.status, Absent)] &&
      pm.stored == Some(pm.products)
    ensures old(IdsDistinct(pm.products)) ==> IdsDistinct(pm.products)
    ensures old(CodesDistinct(pm.products)) ==> CodesDistinct(pm.products)
  {
    var request := ValidateCreate(body);
    if request.None? {
      return MissingFields;
    }
    var n := request.value;
    if HasCode(pm.products, n.code) {
      return DuplicateCode;
    }
    pm.AddProduct(n.title, n.description, n.price, n.thumbnail, n.code, n.stock, n.category, n.status);
    outcome := Created;
  }

  /**
   * The delete handler as written: it passes the asynchronous result of
   * `getProducts(productId)`, a Promise, to `splice` as the start index; a
   * Promise converts to NaN and NaN to index 0, so the handler always removes
   * the first product, whatever id it was given, and reports success.
   */
  function DeleteAsWritten(ps: seq<Product>, productId: int): (r: seq<Product>)
    ensures |ps| > 0 ==> r == RemoveAt(ps, 0)
    ensures |ps| == 0 ==> r == []
  {
    if |ps| == 0 then ps else ps[1..]
  }

  /**
   * Deleting id 2 from a catalogue holding ids 1 and 2: as written the product
   * with id 1 goes and id 2 stays; as intended (`deleteProduct`) id 2 goes.
   */
  lemma DeleteAsWrittenRemovesWrongProduct(p1: Product, p2: Product)
    requires p1.id == 1 && p2.id == 2
    ensures DeleteAsWritten([p1, p2], 2) == [p2]
    ensures RemoveAt([p1, p2], IndexOfId([p1, p2], 2)) == [p1]
  {
  }
}
