/** The express-validator chains of the product routes: what a request body
    must satisfy before a controller acts on it, and how the `trim()`
    sanitisers rewrite the body. Every failing field is reported at once. */
module ProductRoutes {
  import opened Wrappers
  import opened Text
  import opened Models

  /** The body of `POST /` (create product); numbers are JSON numbers. */
  datatype CreateBody = CreateBody(
    name: string,
    description: Option<string>,
    sku: string,
    price: real,
    initialStock: Option<real>,
    category: Option<string>)

  /** A create body that passed validation, after sanitising. */
  datatype NewProduct = NewProduct(
    name: string,
    description: Option<string>,
    sku: string,
    price: real,
    initialStock: Option<int>,
    category: Option<string>)

  /** The body of `POST /update` (change stock). */
  datatype UpdateBody = UpdateBody(productId: string, quantity: real, changeType: string, reason: Option<string>)

  /** An update body that passed validation, after sanitising. */
  datatype StockRequest = StockRequest(productId: ProductId, quantity: int, changeType: string, reason: Option<string>)

  /** `isInt({ min })` on a JSON number. */
  predicate IsIntAtLeast(x: real, min: int) {
    x == x.Floor as real && x.Floor >= min
  }

  /** A whole number passes `isInt` for any lower bound it meets. */
  lemma WholeIsInt(n: int, min: int)
    requires n >= min
    ensures IsIntAtLeast(n as real, min) && (n as real).Floor == n
  {
  }

  /** The fields of a create body its validators reject. */
  function CreateErrors(b: CreateBody): (errs: set<Field>)
    ensures NameField in errs <==> AllSpace(b.name)
    ensures SkuField in errs <==> AllSpace(b.sku)
    ensures PriceField in errs <==> b.price < 0.0
    ensures InitialStockField in errs <==> b.initialStock.Some? && !IsIntAtLeast(b.initialStock.value, 0)
    ensures errs <= {NameField, SkuField, PriceField, InitialStockField}
    ensures errs == {} <==> !AllSpace(b.name) && !AllSpace(b.sku) && b.price >= 0.0
                            && (b.initialStock.Some? ==> IsIntAtLeast(b.initialStock.value, 0))
  {
    TrimEmptyIff(b.name);
    TrimEmptyIff(b.sku);
    set f | f in {NameField, SkuField, PriceField, InitialStockField} && CreateFieldRejected(b, f)
  }

  predicate CreateFieldRejected(b: CreateBody, f: Field) {
    match f
    case NameField => Trim(b.name) == ""
    case SkuField => Trim(b.sku) == ""
    case PriceField => b.price < 0.0
    case InitialStockField => b.initialStock.Some? && !IsIntAtLeast(b.initialStock.value, 0)
    case _ => false
  }

  /** The create route's validators followed by the controller's
      `validationResult` check. */
  function ValidateCreate(b: CreateBody): (r: Result<NewProduct, Error>)
    ensures r.Failure? <==> CreateErrors(b) != {}
    ensures r.Failure? ==> r.error == ValidationFailed(CreateErrors(b))
    ensures r.Success? ==>
      && r.value.name == Trim(b.name) && r.value.name != ""
      && r.value.sku == Trim(b.sku) && r.value.sku != ""
      && r.value.price == b.price && b.price >= 0.0
      && r.value.description == b.description && r.value.category == b.category
      && r.value.initialStock.Some? == b.initialStock.Some?
      && (b.initialStock.Some? ==>
            r.value.initialStock.value >= 0 && r.value.initialStock.value as real == b.initialStock.value)
  {
    var errs := CreateErrors(b);
    if errs != {} then Failure(ValidationFailed(errs))
    else
      assert NameField !in errs && SkuField !in errs;
      TrimEmptyIff(b.name);
      TrimEmptyIff(b.sku);
      var initialStock := if b.initialStock.Some? then Some(b.initialStock.value.Floor) else None;
      Success(NewProduct(Trim(b.name), b.description, Trim(b.sku), b.price, initialStock, b.category))
  }

  /** The fields of an update body its validators reject. */
  function UpdateErrors(b: UpdateBody): (errs: set<Field>)
    ensures ProductIdField in errs <==> AllSpace(b.productId)
    ensures QuantityField in errs <==> !IsIntAtLeast(b.quantity, 1)
    ensures ChangeTypeField in errs <==> b.changeType != "increase" && b.changeType != "decrease"
    ensures errs <= {ProductIdField, QuantityField, ChangeTypeField}
    ensures errs == {} <==> !AllSpace(b.productId) && IsIntAtLeast(b.quantity, 1)
                            && (b.changeType == "increase" || b.changeType == "decrease")
  {
    TrimEmptyIff(b.productId);
    set f | f in {ProductIdField, QuantityField, ChangeTypeField} && UpdateFieldRejected(b, f)
  }

  predicate UpdateFieldRejected(b: UpdateBody, f: Field) {
    match f
    case ProductIdField => Trim(b.productId) == ""
    case QuantityField => !IsIntAtLeast(b.quantity, 1)
    case ChangeTypeField => b.changeType != "increase" && b.changeType != "decrease"
    case _ => false
  }

  /** The update route's validators followed by the controller's
      `validationResult` check. */
  function ValidateUpdate(b: UpdateBody): (r: Result<StockRequest, Error>)
    ensures r.Failure? <==> UpdateErrors(b) != {}
    ensures r.Failure? ==> r.error == ValidationFailed(UpdateErrors(b))
    ensures r.Success? ==>
      && r.value.productId == Trim(b.productId) && r.value.productId != ""
      && r.value.quantity >= 1 && r.value.quantity as real == b.quantity
      && r.value.changeType == b.changeType
      && (b.changeType == "increase" || b.changeType == "decrease")
      && r.value.reason == TrimOption(b.reason)
  {
    var errs := UpdateErrors(b);
    if errs != {} then Failure(ValidationFailed(errs))
    else
      assert ProductIdField !in errs;
      TrimEmptyIff(b.productId);
      Success(StockRequest(Trim(b.productId), b.quantity.Floor, b.changeType, TrimOption(b.reason)))
  }
}
