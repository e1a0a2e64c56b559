/** StockManager: the only writer of `currentStock`. One call to UpdateStock
    is one MongoDB transaction: the product update and the log append commit
    together, and any error aborts both. */
module StockManager {
  import opened Wrappers
  import opened Text
  import opened Models
  import opened Ledger

  /** What a successful update reports back. */
  datatype StockChange = StockChange(product: Product, previousStock: int, newStock: int, change: int)

  /** The change types UpdateStock acts on; `initial`, although a valid log
      kind, is not one of them. */
  function MutationKind(changeType: string): (r: Option<ChangeKind>)
    ensures r.Some? <==> changeType == "increase" || changeType == "decrease"
    ensures r.Some? ==> r.value != Initial && KindName(r.value) == changeType
  {
    if changeType == "increase" then Some(Increase)
    else if changeType == "decrease" then Some(Decrease)
    else None
  }

  /** The entry UpdateStock appends for a change of `product`. */
  function ChangeEntry(productId: ProductId, companyId: CompanyId, kind: ChangeKind, quantity: int,
                       previousStock: int, newStock: int, reason: string, userId: UserId): StockLogEntry
  {
    StockLogEntry(productId, companyId, kind, quantity, previousStock, newStock, Trim(reason), userId)
  }

  /** The stock the change would leave (meaningful for increase and decrease). */
  function TargetStock(kind: ChangeKind, previousStock: int, quantity: int): int {
    if kind == Decrease then previousStock - quantity else previousStock + quantity
  }

  /** `StockManager.updateStock(productId, quantity, changeType, userId, companyId, reason)`.
      The checks run in the source's order: existence, tenant, change type,
      sufficient stock; then the product's and the entry's schema validators,
      whose failure aborts the transaction like any other error. */
  function UpdateStock(s: Store, productId: ProductId, quantity: int, changeType: string,
                       userId: UserId, companyId: CompanyId, reason: string): (r: Step<StockChange>)
    ensures r.outcome.Failure? ==> r.store == s
    ensures r.outcome.Failure? ==>
      r.outcome.error in {ProductNotFound, Unauthorized, InvalidChangeType, InsufficientStock, SchemaViolation}
    ensures r.outcome == Failure(ProductNotFound) <==> productId !in s.products
    ensures r.outcome == Failure(Unauthorized)
        <==> productId in s.products && s.products[productId].companyId != companyId
    ensures r.outcome == Failure(InvalidChangeType)
        <==> Owns(s, companyId, productId) && MutationKind(changeType).None?
    ensures r.outcome == Failure(InsufficientStock)
        <==> Owns(s, companyId, productId) && changeType == "decrease"
             && s.products[productId].currentStock - quantity < 0
    ensures r.outcome == Failure(SchemaViolation)
        <==> Owns(s, companyId, productId) && MutationKind(changeType).Some?
             && var p := s.products[productId];
                var newStock := TargetStock(MutationKind(changeType).value, p.currentStock, quantity);
                && !(changeType == "decrease" && newStock < 0)
                && (!ProductSchemaOk(p.(currentStock := newStock)) || userId == "" || companyId == "")
    ensures r.outcome.Success? ==>
      && Owns(s, companyId, productId)
      && MutationKind(changeType).Some?
      && Committed(s, productId, MutationKind(changeType).value, quantity, userId, companyId, reason, r)
  {
    if productId !in s.products then Step(s, Failure(ProductNotFound))
    else if s.products[productId].companyId != companyId then Step(s, Failure(Unauthorized))
    else ChangeOwned(s, productId, quantity, changeType, userId, companyId, reason)
  }

  /** A successful change: the product's stock moves from its current value
      by `quantity` in the direction of `kind` and stays non-negative, the
      product is saved with it, the catalog is untouched, and exactly one
      entry recording the change is appended to the log. */
  predicate Committed(s: Store, productId: ProductId, kind: ChangeKind, quantity: int,
                      userId: UserId, companyId: CompanyId, reason: string, r: Step<StockChange>)
    requires productId in s.products
  {
    && r.outcome.Success?
    && var p := s.products[productId];
       var c := r.outcome.value;
       var entry := ChangeEntry(productId, companyId, kind, quantity, c.previousStock, c.newStock, reason, userId);
    && c.previousStock == p.currentStock
    && c.change == quantity
    && c.newStock == TargetStock(kind, p.currentStock, quantity)
    && c.newStock >= 0
    && c.product == p.(currentStock := c.newStock)
    && r.store.products == s.products[productId := c.product]
    && r.store.catalog == s.catalog
    && ProductSchemaOk(c.product)
    && EntrySchemaOk(entry)
    && Consistent(entry)
    && r.store.log == s.log + [entry]
  }

  /** The part of updateStock after the existence and tenant checks:
      `increase` adds the quantity, `decrease` subtracts it and refuses a
      negative result, any other change type is refused; then the commit. */
  function ChangeOwned(s: Store, productId: ProductId, quantity: int, changeType: string,
                       userId: UserId, companyId: CompanyId, reason: string): (r: Step<StockChange>)
    requires productId in s.products
    ensures r.outcome.Failure? ==> r.store == s
    ensures r.outcome.Failure? ==> r.outcome.error in {InvalidChangeType, InsufficientStock, SchemaViolation}
    ensures r.outcome == Failure(InvalidChangeType) <==> MutationKind(changeType).None?
    ensures r.outcome == Failure(InsufficientStock)
        <==> changeType == "decrease" && s.products[productId].currentStock - quantity < 0
    ensures r.outcome == Failure(SchemaViolation)
        <==> MutationKind(changeType).Some?
             && var p := s.products[productId];
                var newStock := TargetStock(MutationKind(changeType).value, p.currentStock, quantity);
                && !(changeType == "decrease" && newStock < 0)
                && (!ProductSchemaOk(p.(currentStock := newStock)) || userId == "" || companyId == "")
    ensures r.outcome.Success? ==>
      MutationKind(changeType).Some?
      && Committed(s, productId, MutationKind(changeType).value, quantity, userId, companyId, reason, r)
  {
    match MutationKind(changeType)
    case None => Step(s, Failure(InvalidChangeType))
    case Some(kind) =>
      var newStock := TargetStock(kind, s.products[productId].currentStock, quantity);
      if kind == Decrease && newStock < 0 then Step(s, Failure(InsufficientStock))
      else Commit(s, productId, kind, quantity, userId, companyId, reason)
  }

  /** Save the product with its new stock and append the entry, unless a
      schema validator rejects either document; the stock a saved product
      carries is never negative. */
  function Commit(s: Store, productId: ProductId, kind: ChangeKind, quantity: int,
                  userId: UserId, companyId: CompanyId, reason: string): (r: Step<StockChange>)
    requires productId in s.products && kind != Initial
    ensures var p := s.products[productId];
      && (r.outcome.Failure? <==>
            !ProductSchemaOk(p.(currentStock := TargetStock(kind, p.currentStock, quantity)))
            || userId == "" || companyId == "")
      && (r.outcome.Failure? ==> r == Step(s, Failure(SchemaViolation)))
      && (r.outcome.Success? ==> Committed(s, productId, kind, quantity, userId, companyId, reason, r))
  {
    var product := s.products[productId];
    var newStock := TargetStock(kind, product.currentStock, quantity);
    var updated := product.(currentStock := newStock);
    var entry := ChangeEntry(productId, companyId, kind, quantity, product.currentStock, newStock, reason, userId);
    if !ProductSchemaOk(updated) || !EntrySchemaOk(entry) then Step(s, Failure(SchemaViolation))
    else
      Step(Store(s.products[productId := updated], s.catalog, s.log + [entry]),
           Success(StockChange(updated, product.currentStock, newStock, quantity)))
  }

  /** MongoDB's `limit(n)`: 0 means no limit, and a negative limit returns
      at most its absolute value. */
  function ResultBound(limit: int): (b: Option<nat>)
    ensures b.None? <==> limit == 0
    ensures b.Some? ==> b.value > 0 && (b.value == limit || b.value == -limit)
  {
    if limit == 0 then None else if limit < 0 then Some(-limit) else Some(limit)
  }

  /** The first `bound` elements of `s`, or all of them. */
  function Take<T>(s: seq<T>, bound: Option<nat>): (r: seq<T>)
    ensures bound.None? ==> r == s
    ensures bound.Some? ==> |r| == if bound.value < |s| then bound.value else |s|
    ensures r == s[..|r|]
  {
    if bound.None? || bound.value >= |s| then s else s[..bound.value]
  }

  /** `StockManager.getStockHistory(productId, companyId, limit)`: the
      entries of the product within the company, newest first, at most
      `limit` of them. An unknown product gives an empty history, not an
      error. The scan walks the log from its newest end and stops once the
      limit is reached. */
  method GetStockHistory(log: seq<StockLogEntry>, productId: ProductId, companyId: CompanyId, limit: int)
    returns (r: seq<StockLogEntry>)
    ensures r == Take(NewestFirst(log, productId, companyId), ResultBound(limit))
  {
    var bound := ResultBound(limit);
    r := [];
    var i := |log|;
    assert log[..i] == log;
    while i > 0 && (bound.None? || |r| < bound.value)
      invariant 0 <= i <= |log|
      invariant r + NewestFirst(log[..i], productId, companyId) == NewestFirst(log, productId, companyId)
      invariant bound.Some? ==> |r| <= bound.value
    {
      var e := log[i - 1];
      var rest := NewestFirst(log[..i - 1], productId, companyId);
      NewestFirstPrefix(log, i, productId, companyId);
      if Matches(e, productId, companyId) {
        assert r + NewestFirst(log[..i], productId, companyId) == (r + [e]) + rest;
        r := r + [e];
      } else {
        assert NewestFirst(log[..i], productId, companyId) == rest;
      }
      i := i - 1;
    }
    var all := NewestFirst(log, productId, companyId);
    if i == 0 {
      assert log[..0] == [];
      assert r == all;
    } else {
      assert all[..|r|] == r;
    }
  }
}
