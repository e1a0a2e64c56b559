/** The product controller's handlers that touch the ledger: create a
    product (with its optional initial stock entry), change stock through
    StockManager, read a product's history, and list products page by page.
    Each handler runs after its route's validators. */
module ProductController {
  import opened Wrappers
  import opened Text
  import opened Models
  import opened Ledger
  import opened ProductRoutes
  import StockManager

  const DefaultHistoryLimit: int := 50
  const DefaultPage: int := 1
  const DefaultPageSize: int := 10
  const DefaultActiveFilter: string := "true"

  /** The log entry recording a new product's opening stock: an `initial`
      change from 0 to the product's stock, by the creating user, in the
      product's company. */
  function InitialEntry(product: Product, userId: UserId): (e: StockLogEntry)
    ensures Consistent(e) && e.changeType == Initial && e.productId == product.id
    ensures e.quantity == product.currentStock && e.newStock == product.currentStock
    ensures e.companyId == product.companyId && e.performedBy == userId
  {
    StockLogEntry(product.id, product.companyId, Initial, product.currentStock, 0,
                  product.currentStock, "Initial stock", userId)
  }

  /** `createProduct`: validate, reject a SKU the company already uses (the
      lookup's filter is cast through the SKU's setters, so it compares the
      trimmed, upper-cased SKU, in whatever case the request spelled it),
      then insert the product with `currentStock = initialStock` (0 when
      absent), and log an `initial` entry only when that stock is positive.
      The insert can still fail on the schema's validators or on the `_id`
      unique index. */
  function CreateProduct(s: Store, body: CreateBody, userId: UserId, companyId: CompanyId, newId: ProductId)
    : (r: Step<Product>)
    ensures r.outcome.Failure? ==> r.store == s
    ensures r.outcome.Failure? ==>
      r.outcome.error in {ValidationFailed(CreateErrors(body)), DuplicateSku, SchemaViolation, DuplicateKey}
    ensures r.outcome == Failure(ValidationFailed(CreateErrors(body))) <==> CreateErrors(body) != {}
    ensures r.outcome == Failure(DuplicateSku)
        <==> CreateErrors(body) == {} && SkuTaken(s, companyId, Upper(Trim(body.sku)))
    ensures r.outcome == Failure(SchemaViolation)
        <==> CreateErrors(body) == {} && !SkuTaken(s, companyId, Upper(Trim(body.sku)))
             && (userId == "" || companyId == "")
    ensures r.outcome == Failure(DuplicateKey)
        <==> CreateErrors(body) == {} && !SkuTaken(s, companyId, Upper(Trim(body.sku)))
             && userId != "" && companyId != "" && newId in s.products
    ensures r.outcome.Success? ==>
      var p := r.outcome.value;
      && p.id == newId && newId !in s.products
      && p.sku == Upper(Trim(body.sku)) && IsStoredSku(p.sku)
      && !SkuTaken(s, companyId, p.sku)
      && p.name == Trim(body.name)
      && p.description == TrimOption(body.description)
      && p.category == TrimOption(body.category)
      && p.price == body.price
      && p.currentStock as real == body.initialStock.GetOr(0.0)
      && p.isActive
      && p.companyId == companyId && p.createdBy == userId
      && ProductSchemaOk(p)
      && r.store.products == s.products[newId := p]
      && r.store.catalog == s.catalog + [newId]
      && r.store.log == s.log + (if p.currentStock > 0 then [InitialEntry(p, userId)] else [])
  {
    var v := ValidateCreate(body);
    if v.Failure? then Step(s, Failure(v.error))
    else
      NewDocumentOf(body, v.value, userId, companyId, newId);
      Insert(s, v.value, userId, companyId, newId)
  }

  /** What the stored document keeps of a valid body. */
  lemma NewDocumentOf(body: CreateBody, req: NewProduct, userId: UserId, companyId: CompanyId, newId: ProductId)
    requires ValidateCreate(body) == Success(req)
    ensures var p := NewDocument(req, userId, companyId, newId);
      && req.sku == Trim(body.sku)
      && Upper(Trim(req.sku)) == p.sku
      && p.id == newId
      && p.sku == Upper(Trim(body.sku)) && IsStoredSku(p.sku)
      && p.name == Trim(body.name)
      && p.description == TrimOption(body.description)
      && p.category == TrimOption(body.category)
      && p.price == body.price
      && p.currentStock as real == body.initialStock.GetOr(0.0)
      && p.isActive
      && p.companyId == companyId && p.createdBy == userId
      && (ProductSchemaOk(p) <==> userId != "" && companyId != "")
  {
    var p := NewDocument(req, userId, companyId, newId);
    assert req.sku == Trim(body.sku) && req.name == Trim(body.name);
    assert p.sku == Upper(Trim(Upper(req.sku)));
    StoredFormSku(body.sku);
    TrimIdempotent(body.sku);
    assert p.name == Trim(Trim(body.name));
    TrimIdempotent(body.name);
    assert p.currentStock == req.initialStock.GetOr(0);
    assert req.name != "" && req.sku != "" && req.price >= 0.0;
    assert p.sku != "" by {
      assert |p.sku| == |req.sku|;
    }
  }

  /** createProduct once the body is valid: the duplicate lookup (its `sku`
      filter cast through the trim and upper-case setters), then the insert
      with its validators and unique indexes, then the initial entry. */
  function Insert(s: Store, req: NewProduct, userId: UserId, companyId: CompanyId, newId: ProductId)
    : (r: Step<Product>)
    requires req.initialStock.Some? ==> req.initialStock.value >= 0
    ensures r.outcome.Failure? ==> r.store == s
    ensures r.outcome.Failure? ==> r.outcome.error in {DuplicateSku, SchemaViolation, DuplicateKey}
    ensures r.outcome == Failure(DuplicateSku) <==> SkuTaken(s, companyId, Upper(Trim(req.sku)))
    ensures r.outcome == Failure(SchemaViolation)
        <==> !SkuTaken(s, companyId, Upper(Trim(req.sku))) && !ProductSchemaOk(NewDocument(req, userId, companyId, newId))
    ensures r.outcome == Failure(DuplicateKey)
        <==> !SkuTaken(s, companyId, Upper(Trim(req.sku))) && ProductSchemaOk(NewDocument(req, userId, companyId, newId))
             && (newId in s.products || SkuTaken(s, companyId, Upper(Trim(Upper(req.sku)))))
    ensures r.outcome.Success? ==>
      && r.outcome.value == NewDocument(req, userId, companyId, newId)
      && newId !in s.products
      && !SkuTaken(s, companyId, r.outcome.value.sku)
      && ProductSchemaOk(r.outcome.value)
      && r.store.products == s.products[newId := r.outcome.value]
      && r.store.catalog == s.catalog + [newId]
      && r.store.log == s.log + (if r.outcome.value.currentStock > 0 then [InitialEntry(r.outcome.value, userId)] else [])
  {
    if SkuTaken(s, companyId, Upper(Trim(req.sku))) then Step(s, Failure(DuplicateSku))
    else
      var product := NewDocument(req, userId, companyId, newId);
      if !ProductSchemaOk(product) then Step(s, Failure(SchemaViolation))
      else if newId in s.products || SkuTaken(s, companyId, product.sku) then Step(s, Failure(DuplicateKey))
      else
        var log := if product.currentStock > 0 then s.log + [InitialEntry(product, userId)] else s.log;
        Step(Store(s.products[newId := product], s.catalog + [newId], log), Success(product))
  }

  /** The document `Product.create` stores for a valid request, after the
      schema's setters. */
  function NewDocument(req: NewProduct, userId: UserId, companyId: CompanyId, newId: ProductId): Product {
    NormalizeProduct(Product(newId, req.name, req.description, Upper(req.sku), req.price,
                             req.initialStock.GetOr(0), req.category, companyId, true, userId))
  }

  /** `updateStock`: validate, refuse a non-positive quantity, then hand the
      sanitised request to StockManager (an absent reason becomes ""). After
      validation neither the quantity guard nor StockManager's change-type
      check can fire. */
  function UpdateStock(s: Store, body: UpdateBody, userId: UserId, companyId: CompanyId)
    : (r: Step<StockManager.StockChange>)
    ensures r.outcome.Failure? ==> r.store == s
    ensures r.outcome == Failure(ValidationFailed(UpdateErrors(body))) <==> UpdateErrors(body) != {}
    ensures r.outcome != Failure(QuantityNotPositive) && r.outcome != Failure(InvalidChangeType)
    ensures UpdateErrors(body) == {} ==>
      r == StockManager.UpdateStock(s, Trim(body.productId), body.quantity.Floor, body.changeType,
                                    userId, companyId, TrimOption(body.reason).GetOr(""))
    ensures r.outcome.Success? ==>
      r.outcome.value.change >= 1 && r.outcome.value.newStock != r.outcome.value.previousStock
  {
    var v := ValidateUpdate(body);
    if v.Failure? then Step(s, Failure(v.error))
    else
      var req := v.value;
      if req.quantity <= 0 then Step(s, Failure(QuantityNotPositive))
      else
        assert StockManager.MutationKind(req.changeType).Some?;
        StockManager.UpdateStock(s, req.productId, req.quantity, req.changeType, userId, companyId,
                                 req.reason.GetOr(""))
  }

  /** `getStockHistory`: the `limit` query parameter defaults to 50. */
  method GetStockHistory(s: Store, productId: ProductId, companyId: CompanyId, limit: Option<int>)
    returns (r: seq<StockLogEntry>)
    ensures r == StockManager.Take(NewestFirst(s.log, productId, companyId),
                                   StockManager.ResultBound(limit.GetOr(DefaultHistoryLimit)))
    ensures limit.None? ==> |r| <= DefaultHistoryLimit
    ensures forall i :: 0 <= i < |r| ==> Matches(r[i], productId, companyId)
  {
    r := StockManager.GetStockHistory(s.log, productId, companyId, limit.GetOr(DefaultHistoryLimit));
    NewestFirstIsReverse(s.log, productId, companyId);
    ReverseMatches(Matching(s.log, productId, companyId), productId, companyId);
  }

  lemma {:induction false} ReverseMatches(h: seq<StockLogEntry>, productId: ProductId, companyId: CompanyId)
    requires forall i :: 0 <= i < |h| ==> Matches(h[i], productId, companyId)
    ensures forall i :: 0 <= i < |Reverse(h)| ==> Matches(Reverse(h)[i], productId, companyId)
    decreases |h|
  {
    if |h| > 0 {
      ReverseMatches(h[..|h| - 1], productId, companyId);
    }
  }

  /** The `isActive` query filter: "all" keeps every product, "true" the
      active ones, anything else the inactive ones. */
  predicate Listed(p: Product, companyId: CompanyId, isActive: string) {
    p.companyId == companyId && (isActive == "all" || p.isActive == (isActive == "true"))
  }

  /** The company's products that pass the filter, newest first
      (`sort({ createdAt: -1 })` over the catalog's creation order). Every
      catalogued product that passes the filter is listed. */
  function Listing(products: map<ProductId, Product>, ids: seq<ProductId>, companyId: CompanyId, isActive: string)
    : (r: seq<Product>)
    ensures |r| <= |ids|
    ensures forall i :: 0 <= i < |r| ==> Listed(r[i], companyId, isActive)
    ensures forall id :: id in ids && id in products && Listed(products[id], companyId, isActive) ==> products[id] in r
    decreases |ids|
  {
    if |ids| == 0 then []
    else
      var id := ids[|ids| - 1];
      assert ids == ids[..|ids| - 1] + [id];
      (if id in products && Listed(products[id], companyId, isActive) then [products[id]] else [])
      + Listing(products, ids[..|ids| - 1], companyId, isActive)
  }

  /** `find(query)` read front to back: the catalogued products that pass
      the filter, in the order of `ids`. */
  function Found(products: map<ProductId, Product>, ids: seq<ProductId>, companyId: CompanyId, isActive: string)
    : (r: seq<Product>)
    ensures forall i :: 0 <= i < |r| ==> Listed(r[i], companyId, isActive)
    decreases |ids|
  {
    if |ids| == 0 then []
    else
      (if ids[0] in products && Listed(products[ids[0]], companyId, isActive) then [products[ids[0]]] else [])
      + Found(products, ids[1..], companyId, isActive)
  }

  /** The listing is the filter read over the catalog newest first: the
      order of the `createdAt` descending sort. */
  lemma {:induction false} ListingIsNewestFirst(products: map<ProductId, Product>, ids: seq<ProductId>,
                                                companyId: CompanyId, isActive: string)
    ensures Listing(products, ids, companyId, isActive) == Found(products, Reverse(ids), companyId, isActive)
    decreases |ids|
  {
    if |ids| > 0 {
      var prefix := ids[..|ids| - 1];
      ListingIsNewestFirst(products, prefix, companyId, isActive);
      assert Reverse(ids)[0] == ids[|ids| - 1];
      assert Reverse(ids)[1..] == Reverse(prefix);
    }
  }

  /** `Math.ceil(total / limit)` for a non-zero limit. */
  function CeilDiv(total: nat, limit: int): (q: int)
    requires limit != 0
    ensures limit > 0 ==> (q - 1) * limit < total <= q * limit
    ensures limit < 0 ==> q * limit <= total < (q - 1) * limit
  {
    if limit > 0 then
      var q := (total + limit - 1) / limit;
      assert total + limit - 1 == q * limit + (total + limit - 1) % limit;
      q
    else
      var q := total / -limit;
      assert total == q * -limit + total % -limit;
      -q
  }

  datatype Pagination = Pagination(total: nat, page: int, pages: Option<int>, limit: int)

  datatype ProductPage = ProductPage(items: seq<Product>, pagination: Pagination)

  /** `getProducts` without its search and category filters: `page` defaults
      to 1, `limit` to 10 and `isActive` to "true"; `skip = (page - 1) * limit`
      (MongoDB refuses a negative skip) and `pages = ceil(total / limit)`,
      which is not a number when `limit` is 0 (serialised as null). */
  function GetProducts(s: Store, companyId: CompanyId, page: Option<int>, limit: Option<int>, isActive: Option<string>)
    : (r: Result<ProductPage, Error>)
    ensures r.Failure? <==> (page.GetOr(DefaultPage) - 1) * limit.GetOr(DefaultPageSize) < 0
    ensures r.Failure? ==> r.error == NegativeSkip
    ensures r.Success? ==>
      var all := Listing(s.products, s.catalog, companyId, isActive.GetOr(DefaultActiveFilter));
      var lim := limit.GetOr(DefaultPageSize);
      && r.value.pagination.total == |all|
      && r.value.pagination.page == page.GetOr(DefaultPage)
      && r.value.pagination.limit == lim
      && (lim == 0 <==> r.value.pagination.pages.None?)
      && (lim > 0 ==> (r.value.pagination.pages.value - 1) * lim < |all| <= r.value.pagination.pages.value * lim)
      && (lim < 0 ==> r.value.pagination.pages.value * lim <= |all| < (r.value.pagination.pages.value - 1) * lim)
      && (forall i :: 0 <= i < |r.value.items| ==> r.value.items[i].companyId == companyId)
      && (lim != 0 ==> |r.value.items| <= if lim < 0 then -lim else lim)
  {
    var pg := page.GetOr(DefaultPage);
    var lim := limit.GetOr(DefaultPageSize);
    var all := Listing(s.products, s.catalog, companyId, isActive.GetOr(DefaultActiveFilter));
    var skip := (pg - 1) * lim;
    if skip < 0 then Failure(NegativeSkip)
    else
      var rest := if skip <= |all| then all[skip..] else [];
      var pages := if lim == 0 then None else Some(CeilDiv(|all|, lim));
      Success(ProductPage(StockManager.Take(rest, StockManager.ResultBound(lim)), Pagination(|all|, pg, pages, lim)))
  }

  /** With `pages = ceil(total / limit)`, page `page` starts inside the
      listing exactly when it is one of the pages. */
  lemma PageStartsInside(total: nat, page: int, limit: int, pages: int)
    requires page >= 1 && limit >= 1
    requires (pages - 1) * limit < total <= pages * limit
    ensures (page - 1) * limit < total <==> page <= pages
  {
  }

  /** For positive page sizes, page `page` shows the listing's entries
      `(page - 1) * limit` up to `page * limit`, and it is non-empty exactly
      when `page` is one of the `pages` pages. */
  lemma PageWindow(s: Store, companyId: CompanyId, page: int, limit: int, isActive: string)
    requires page >= 1 && limit >= 1
    ensures
      var r := GetProducts(s, companyId, Some(page), Some(limit), Some(isActive));
      var all := Listing(s.products, s.catalog, companyId, isActive);
      var lo := (page - 1) * limit;
      && r.Success?
      && (lo < |all| ==> r.value.items == all[lo..if lo + limit < |all| then lo + limit else |all|])
      && (|r.value.items| > 0 <==> page <= r.value.pagination.pages.value)
  {
    var r := GetProducts(s, companyId, Some(page), Some(limit), Some(isActive));
    var all := Listing(s.products, s.catalog, companyId, isActive);
    var lo := (page - 1) * limit;
    assert 0 <= page - 1 && 0 <= lo;
    var rest := if lo <= |all| then all[lo..] else [];
    assert r.value.items == StockManager.Take(rest, Some(limit));
    assert |r.value.items| > 0 <==> lo < |all|;
    PageStartsInside(|all|, page, limit, r.value.pagination.pages.value);
  }
}
