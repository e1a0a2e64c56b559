/** The invariant every reachable store satisfies, its preservation by each
    operation, and what it implies: stock never negative, each product's log
    entries chaining from 0 to its current stock, `(companyId, sku)` unique,
    and a tenant never seeing another tenant's history. */
module StoreInvariant {
  import opened Wrappers
  import opened Text
  import opened Models
  import opened Ledger
  import opened ProductRoutes
  import StockManager
  import ProductController

  /** The catalog lists every product exactly once. */
  predicate CatalogOk(s: Store) {
    && (forall id :: id in s.products ==> id in s.catalog)
    && (forall i :: 0 <= i < |s.catalog| ==> s.catalog[i] in s.products)
    && (forall i, j :: 0 <= i < j < |s.catalog| ==> s.catalog[i] != s.catalog[j])
  }

  /** A stored product is keyed by its id, passes its schema and holds its
      SKU trimmed and upper-cased. */
  predicate ProductOk(s: Store, id: ProductId)
    requires id in s.products
  {
    var p := s.products[id];
    p.id == id && ProductSchemaOk(p) && IsStoredSku(p.sku)
  }

  predicate ProductsOk(s: Store) {
    forall id :: id in s.products ==> ProductOk(s, id)
  }

  /** The compound unique index on `(companyId, sku)`. */
  predicate SkuUnique(s: Store) {
    forall a, b ::
      a in s.products && b in s.products
      && s.products[a].companyId == s.products[b].companyId
      && s.products[a].sku == s.products[b].sku
      ==> a == b
  }

  /** A logged entry refers to a stored product of its own company, passed
      its schema, and records consistent, non-negative stock. */
  predicate EntryOk(s: Store, e: StockLogEntry) {
    && e.productId in s.products
    && e.companyId == s.products[e.productId].companyId
    && EntrySchemaOk(e)
    && Consistent(e)
    && e.newStock >= 0
  }

  predicate EntriesOk(s: Store) {
    forall i :: 0 <= i < |s.log| ==> EntryOk(s, s.log[i])
  }

  /** The ledger property of one product: its entries chain from 0, the
      last one ends at the current stock, and only the first may be the
      `initial` entry. */
  predicate LedgerMatches(h: seq<StockLogEntry>, stock: int) {
    && Chains(h, 0)
    && Final(h, 0) == stock
    && (forall i :: 0 < i < |h| ==> h[i].changeType != Initial)
  }

  predicate StocksOk(s: Store) {
    forall id :: id in s.products ==> LedgerMatches(EntriesOf(s.log, id), s.products[id].currentStock)
  }

  predicate Valid(s: Store) {
    CatalogOk(s) && ProductsOk(s) && SkuUnique(s) && EntriesOk(s) && StocksOk(s)
  }

  /** The store after a successful stock update: one product's stock
      replaced by the new entry's `newStock`, and that entry appended. */
  function AfterChange(s: Store, productId: ProductId, e: StockLogEntry): Store
    requires productId in s.products
  {
    Store(s.products[productId := s.products[productId].(currentStock := e.newStock)], s.catalog, s.log + [e])
  }

  lemma ChangeKeepsCatalog(s: Store, productId: ProductId, e: StockLogEntry)
    requires productId in s.products && CatalogOk(s)
    ensures CatalogOk(AfterChange(s, productId, e))
  {
    assert AfterChange(s, productId, e).products.Keys == s.products.Keys;
  }

  lemma ChangeKeepsProducts(s: Store, productId: ProductId, e: StockLogEntry)
    requires productId in s.products && ProductsOk(s) && e.newStock >= 0
    ensures ProductsOk(AfterChange(s, productId, e))
  {
    var t := AfterChange(s, productId, e);
    forall id | id in t.products
      ensures ProductOk(t, id)
    {
      assert ProductOk(s, id);
    }
  }

  lemma ChangeKeepsSkus(s: Store, productId: ProductId, e: StockLogEntry)
    requires productId in s.products && SkuUnique(s)
    ensures SkuUnique(AfterChange(s, productId, e))
  {
    var t := AfterChange(s, productId, e);
    forall a, b | a in t.products && b in t.products
                  && t.products[a].companyId == t.products[b].companyId
                  && t.products[a].sku == t.products[b].sku
      ensures a == b
    {
      assert s.products[a].companyId == s.products[b].companyId && s.products[a].sku == s.products[b].sku;
    }
  }

  lemma ChangeKeepsEntries(s: Store, productId: ProductId, e: StockLogEntry)
    requires productId in s.products && EntriesOk(s)
    requires e.productId == productId && e.companyId == s.products[productId].companyId
    requires EntrySchemaOk(e) && Consistent(e) && e.newStock >= 0
    ensures EntriesOk(AfterChange(s, productId, e))
  {
    var t := AfterChange(s, productId, e);
    forall i | 0 <= i < |t.log|
      ensures EntryOk(t, t.log[i])
    {
      if i < |s.log| {
        assert t.log[i] == s.log[i];
        assert EntryOk(s, s.log[i]);
      }
    }
  }

  /** One product's ledger after an entry is appended to the log: the
      changed product's ledger gains the entry, every other is untouched. */
  lemma {:induction false} ChangeKeepsLedger(log: seq<StockLogEntry>, e: StockLogEntry, id: ProductId, stock: int)
    requires LedgerMatches(EntriesOf(log, id), stock)
    requires e.productId == id ==> e.changeType != Initial && e.previousStock == stock
    ensures LedgerMatches(EntriesOf(log + [e], id), if e.productId == id then e.newStock else stock)
  {
    EntriesOfAppend(log, e, id);
    if e.productId == id {
      ChainsAppend(EntriesOf(log, id), 0, e);
    }
  }

  lemma ChangeKeepsStocks(s: Store, productId: ProductId, e: StockLogEntry)
    requires productId in s.products && StocksOk(s)
    requires e.productId == productId && e.changeType != Initial
    requires e.previousStock == s.products[productId].currentStock
    ensures StocksOk(AfterChange(s, productId, e))
  {
    var t := AfterChange(s, productId, e);
    forall id | id in t.products
      ensures LedgerMatches(EntriesOf(t.log, id), t.products[id].currentStock)
    {
      ChangeKeepsLedger(s.log, e, id, s.products[id].currentStock);
    }
  }

  /** A successful stock update keeps the store valid. */
  lemma StockChangePreservesValid(s: Store, productId: ProductId, e: StockLogEntry)
    requires Valid(s)
    requires e.productId == productId && productId in s.products
    requires e.companyId == s.products[productId].companyId && e.performedBy != ""
    requires Consistent(e) && e.changeType != Initial && e.newStock >= 0
    requires e.previousStock == s.products[productId].currentStock
    ensures Valid(AfterChange(s, productId, e))
  {
    assert ProductOk(s, productId);
    ChangeKeepsCatalog(s, productId, e);
    ChangeKeepsProducts(s, productId, e);
    ChangeKeepsSkus(s, productId, e);
    ChangeKeepsEntries(s, productId, e);
    ChangeKeepsStocks(s, productId, e);
  }

  /** StockManager.updateStock keeps the store valid, whatever its
      arguments. */
  lemma UpdatePreservesValid(s: Store, productId: ProductId, quantity: int, changeType: string,
                             userId: UserId, companyId: CompanyId, reason: string)
    requires Valid(s)
    ensures Valid(StockManager.UpdateStock(s, productId, quantity, changeType, userId, companyId, reason).store)
  {
    var r := StockManager.UpdateStock(s, productId, quantity, changeType, userId, companyId, reason);
    if r.outcome.Success? {
      var c := r.outcome.value;
      var kind := StockManager.MutationKind(changeType).value;
      var e := StockManager.ChangeEntry(productId, companyId, kind, quantity, c.previousStock, c.newStock, reason, userId);
      assert r.store == AfterChange(s, productId, e);
      StockChangePreservesValid(s, productId, e);
    }
  }

  /** Every entry of the log refers to a stored product, so a product id not
      in the store has no entries. */
  lemma NoEntriesForUnknown(s: Store, id: ProductId)
    requires EntriesOk(s) && id !in s.products
    ensures EntriesOf(s.log, id) == []
  {
    forall i | 0 <= i < |s.log|
      ensures s.log[i].productId != id
    {
      assert EntryOk(s, s.log[i]);
    }
    EntriesOfAbsent(s.log, id);
  }

  /** The store after a successful creation: a new product under a fresh
      id, appended to the catalog, with an `initial` entry exactly when its
      stock is positive. */
  function AfterInsert(s: Store, p: Product, userId: UserId): Store {
    Store(s.products[p.id := p], s.catalog + [p.id], s.log + Opening(p, userId))
  }

  function Opening(p: Product, userId: UserId): seq<StockLogEntry> {
    if p.currentStock > 0 then [ProductController.InitialEntry(p, userId)] else []
  }

  lemma InsertKeepsCatalog(s: Store, p: Product, userId: UserId)
    requires CatalogOk(s) && p.id !in s.products
    ensures CatalogOk(AfterInsert(s, p, userId))
  {
    var t := AfterInsert(s, p, userId);
    assert p.id !in s.catalog;
    forall i, j | 0 <= i < j < |t.catalog|
      ensures t.catalog[i] != t.catalog[j]
    {
      if j == |s.catalog| {
        assert t.catalog[i] == s.catalog[i];
      } else {
        assert t.catalog[i] == s.catalog[i] && t.catalog[j] == s.catalog[j];
      }
    }
    forall i | 0 <= i < |t.catalog|
      ensures t.catalog[i] in t.products
    {
      if i < |s.catalog| {
        assert t.catalog[i] == s.catalog[i];
      }
    }
  }

  lemma InsertKeepsProducts(s: Store, p: Product, userId: UserId)
    requires ProductsOk(s) && SkuUnique(s) && p.id !in s.products
    requires ProductSchemaOk(p) && IsStoredSku(p.sku) && !SkuTaken(s, p.companyId, p.sku)
    ensures var t := AfterInsert(s, p, userId);
      ProductsOk(t) && SkuUnique(t)
  {
    var t := AfterInsert(s, p, userId);
    forall id | id in t.products
      ensures ProductOk(t, id)
    {
      if id != p.id {
        assert ProductOk(s, id);
      }
    }
    forall a, b | a in t.products && b in t.products
                  && t.products[a].companyId == t.products[b].companyId
                  && t.products[a].sku == t.products[b].sku
      ensures a == b
    {
      if a != p.id && b != p.id {
        assert s.products[a].companyId == s.products[b].companyId && s.products[a].sku == s.products[b].sku;
      }
    }
  }

  lemma InsertKeepsEntries(s: Store, p: Product, userId: UserId)
    requires EntriesOk(s) && p.id !in s.products
    requires p.companyId != "" && p.currentStock >= 0 && userId != ""
    ensures EntriesOk(AfterInsert(s, p, userId))
  {
    var t := AfterInsert(s, p, userId);
    forall i | 0 <= i < |t.log|
      ensures EntryOk(t, t.log[i])
    {
      if i < |s.log| {
        assert t.log[i] == s.log[i];
        assert EntryOk(s, s.log[i]);
      }
    }
  }

  lemma EntriesOfOpening(log: seq<StockLogEntry>, p: Product, userId: UserId, id: ProductId)
    ensures EntriesOf(log + Opening(p, userId), id)
         == EntriesOf(log, id) + (if id == p.id then Opening(p, userId) else [])
  {
    if p.currentStock > 0 {
      EntriesOfAppend(log, ProductController.InitialEntry(p, userId), id);
    } else {
      assert log + [] == log;
    }
  }

  /** A new product's ledger is its opening entry, or nothing at stock 0. */
  lemma OpeningMatches(p: Product, userId: UserId)
    requires p.currentStock >= 0
    ensures LedgerMatches(Opening(p, userId), p.currentStock)
  {
  }

  lemma {:induction false} InsertKeepsStocks(s: Store, p: Product, userId: UserId)
    requires StocksOk(s) && p.id !in s.products && p.currentStock >= 0
    requires EntriesOf(s.log, p.id) == []
    ensures StocksOk(AfterInsert(s, p, userId))
  {
    var t := AfterInsert(s, p, userId);
    forall id | id in t.products
      ensures LedgerMatches(EntriesOf(t.log, id), t.products[id].currentStock)
    {
      EntriesOfOpening(s.log, p, userId, id);
      if id == p.id {
        assert EntriesOf(t.log, id) == Opening(p, userId);
        OpeningMatches(p, userId);
      } else {
        assert EntriesOf(t.log, id) == EntriesOf(s.log, id);
        assert LedgerMatches(EntriesOf(s.log, id), s.products[id].currentStock);
      }
    }
  }

  /** A successful creation keeps the store valid. */
  lemma InsertPreservesValid(s: Store, p: Product, userId: UserId)
    requires Valid(s)
    requires p.id !in s.products && ProductSchemaOk(p) && IsStoredSku(p.sku)
    requires !SkuTaken(s, p.companyId, p.sku) && userId != ""
    ensures Valid(AfterInsert(s, p, userId))
  {
    InsertKeepsCatalog(s, p, userId);
    InsertKeepsProducts(s, p, userId);
    InsertKeepsEntries(s, p, userId);
    NoEntriesForUnknown(s, p.id);
    InsertKeepsStocks(s, p, userId);
  }

  /** createProduct keeps the store valid, whatever its arguments. */
  lemma CreatePreservesValid(s: Store, body: CreateBody, userId: UserId, companyId: CompanyId, newId: ProductId)
    requires Valid(s)
    ensures Valid(ProductController.CreateProduct(s, body, userId, companyId, newId).store)
  {
    var r := ProductController.CreateProduct(s, body, userId, companyId, newId);
    if r.outcome.Success? {
      InsertPreservesValid(s, r.outcome.value, userId);
      assert r.store == AfterInsert(s, r.outcome.value, userId);
    }
  }

  /** The three ways the store changes. Commands reach StockManager through
      the controller; `Adjust` calls it directly, as other server code may,
      bypassing the route validators and the quantity guard. */
  datatype Command =
    | Create(body: CreateBody, userId: UserId, companyId: CompanyId, newId: ProductId)
    | Update(update: UpdateBody, userId: UserId, companyId: CompanyId)
    | Adjust(productId: ProductId, quantity: int, changeType: string, userId: UserId, companyId: CompanyId, reason: string)

  function Apply(s: Store, c: Command): Store {
    match c
    case Create(body, userId, companyId, newId) =>
      ProductController.CreateProduct(s, body, userId, companyId, newId).store
    case Update(update, userId, companyId) =>
      ProductController.UpdateStock(s, update, userId, companyId).store
    case Adjust(productId, quantity, changeType, userId, companyId, reason) =>
      StockManager.UpdateStock(s, productId, quantity, changeType, userId, companyId, reason).store
  }

  /** The commands applied one after another, each as one atomic step. */
  function Run(s: Store, cmds: seq<Command>): Store
    decreases |cmds|
  {
    if |cmds| == 0 then s else Run(Apply(s, cmds[0]), cmds[1..])
  }

  lemma ApplyPreservesValid(s: Store, c: Command)
    requires Valid(s)
    ensures Valid(Apply(s, c))
  {
    match c
    case Create(body, userId, companyId, newId) =>
      CreatePreservesValid(s, body, userId, companyId, newId);
    case Update(update, userId, companyId) =>
      var v := ValidateUpdate(update);
      if v.Success? {
        UpdatePreservesValid(s, v.value.productId, v.value.quantity, v.value.changeType, userId, companyId,
                             v.value.reason.GetOr(""));
      }
    case Adjust(productId, quantity, changeType, userId, companyId, reason) =>
      UpdatePreservesValid(s, productId, quantity, changeType, userId, companyId, reason);
  }

  /** Any sequence of operations keeps a valid store valid. */
  lemma {:induction false} RunPreservesValid(s: Store, cmds: seq<Command>)
    requires Valid(s)
    ensures Valid(Run(s, cmds))
    decreases |cmds|
  {
    if |cmds| > 0 {
      ApplyPreservesValid(s, cmds[0]);
      RunPreservesValid(Apply(s, cmds[0]), cmds[1..]);
    }
  }

  /** Every store reachable from the empty one is valid. */
  lemma ReachableValid(cmds: seq<Command>)
    ensures Valid(Run(EmptyStore, cmds))
  {
    assert Valid(EmptyStore);
    RunPreservesValid(EmptyStore, cmds);
  }

  /** In a valid store a product's stock is non-negative and equals the sum
      of its logged changes: initial + increases - decreases. */
  lemma StockIsNetChange(s: Store, id: ProductId)
    requires Valid(s) && id in s.products
    ensures s.products[id].currentStock == NetChange(EntriesOf(s.log, id))
    ensures s.products[id].currentStock >= 0
  {
    LogConsistent(s);
    LedgerNetChange(s.log, id, s.products[id].currentStock);
    assert ProductOk(s, id);
  }

  lemma LedgerNetChange(log: seq<StockLogEntry>, id: ProductId, stock: int)
    requires forall e :: e in log ==> Consistent(e)
    requires LedgerMatches(EntriesOf(log, id), stock)
    ensures stock == NetChange(EntriesOf(log, id))
  {
    var h := EntriesOf(log, id);
    assert forall i :: 0 <= i < |h| ==> Consistent(h[i]);
    ChainNetChange(h, 0);
  }

  /** Every logged entry records consistent arithmetic. */
  lemma LogConsistent(s: Store)
    requires EntriesOk(s)
    ensures forall e :: e in s.log ==> Consistent(e)
  {
    forall e | e in s.log
      ensures Consistent(e)
    {
      var k :| 0 <= k < |s.log| && s.log[k] == e;
      assert EntryOk(s, s.log[k]);
    }
  }

  /** Tenant isolation of the history: the owning company sees the
      product's whole ledger newest first, every other company (and every
      caller, for an unknown product) sees nothing. */
  lemma HistoryIsLedger(s: Store, productId: ProductId, companyId: CompanyId)
    requires Valid(s)
    ensures NewestFirst(s.log, productId, companyId)
         == if Owns(s, companyId, productId) then Reverse(EntriesOf(s.log, productId)) else []
  {
    NewestFirstIsReverse(s.log, productId, companyId);
    if productId in s.products {
      var owner := s.products[productId].companyId;
      forall i | 0 <= i < |s.log| && s.log[i].productId == productId
        ensures s.log[i].companyId == owner
      {
        assert EntryOk(s, s.log[i]);
      }
      MatchingOfOwner(s.log, productId, owner, companyId);
    } else {
      NoEntriesForUnknown(s, productId);
      MatchingOfOwner(s.log, productId, companyId, companyId);
    }
  }

  /** On a valid store, StockManager.updateStock succeeds exactly when the
      company owns the product, the change type is increase or decrease,
      the resulting stock is not negative and an actor is named. */
  lemma UpdateSucceedsIff(s: Store, productId: ProductId, quantity: int, changeType: string,
                          userId: UserId, companyId: CompanyId, reason: string)
    requires Valid(s)
    ensures StockManager.UpdateStock(s, productId, quantity, changeType, userId, companyId, reason).outcome.Success?
        <==> && Owns(s, companyId, productId)
             && StockManager.MutationKind(changeType).Some?
             && StockManager.TargetStock(StockManager.MutationKind(changeType).value,
                                         s.products[productId].currentStock, quantity) >= 0
             && userId != ""
  {
    if Owns(s, companyId, productId) && StockManager.MutationKind(changeType).Some? {
      var n := StockManager.TargetStock(StockManager.MutationKind(changeType).value,
                                        s.products[productId].currentStock, quantity);
      if n >= 0 {
        SchemaAfterChange(s, productId, n);
      }
    }
  }

  /** A stored product with a non-negative stock still passes its schema. */
  lemma SchemaAfterChange(s: Store, productId: ProductId, stock: int)
    requires ProductsOk(s) && productId in s.products && stock >= 0
    ensures ProductSchemaOk(s.products[productId].(currentStock := stock))
  {
    assert ProductOk(s, productId);
  }

  /** Over a valid store, the duplicate-SKU rule ignores case: a valid
      create request from a named actor and company, with an unused id,
      succeeds exactly when no product of the company has the same SKU up to
      upper-casing. Different companies may share a SKU. */
  lemma CreateSucceedsIff(s: Store, body: CreateBody, userId: UserId, companyId: CompanyId, newId: ProductId)
    requires Valid(s)
    requires CreateErrors(body) == {} && userId != "" && companyId != "" && newId !in s.products
    ensures ProductController.CreateProduct(s, body, userId, companyId, newId).outcome.Success?
        <==> forall id :: id in s.products && s.products[id].companyId == companyId ==>
               Upper(s.products[id].sku) != Upper(Trim(body.sku))
  {
    var key := Upper(Trim(body.sku));
    UpperProperties(Trim(body.sku));
    if SkuTaken(s, companyId, key) {
      var id :| id in s.products && s.products[id].companyId == companyId && s.products[id].sku == key;
      assert Upper(s.products[id].sku) == key;
    } else {
      forall id | id in s.products && s.products[id].companyId == companyId
        ensures Upper(s.products[id].sku) != key
      {
        assert ProductOk(s, id);
        UpperProperties(s.products[id].sku);
      }
    }
  }

  /** A request whose SKU differs from a stored one of the company only in
      case (or in surrounding white space) is refused by the duplicate
      lookup, with the store untouched: the stored SKU is upper-case, and the
      lookup's filter is upper-cased before it is compared. */
  lemma CaseVariantDuplicateRefused(s: Store, body: CreateBody, userId: UserId, companyId: CompanyId,
                                    newId: ProductId, id: ProductId)
    requires Valid(s)
    requires CreateErrors(body) == {}
    requires id in s.products && s.products[id].companyId == companyId
    requires Upper(s.products[id].sku) == Upper(Trim(body.sku))
    ensures ProductController.CreateProduct(s, body, userId, companyId, newId) == Step(s, Failure(DuplicateSku))
  {
    assert ProductOk(s, id);
    UpperProperties(s.products[id].sku);
    assert SkuTaken(s, companyId, Upper(Trim(body.sku)));
  }

  /** K identical controller requests `increase 1` on one product. */
  function Increments(productId: ProductId, userId: UserId, companyId: CompanyId, k: nat): (cmds: seq<Command>)
    ensures |cmds| == k
    ensures forall i :: 0 <= i < k ==> cmds[i] == Increment(productId, userId, companyId)
    decreases k
  {
    if k == 0 then [] else [Increment(productId, userId, companyId)] + Increments(productId, userId, companyId, k - 1)
  }

  /** The request body `{ productId, quantity: 1, changeType: "increase" }`. */
  function Increment(productId: ProductId, userId: UserId, companyId: CompanyId): Command {
    Update(UpdateBody(productId, 1.0, "increase", None), userId, companyId)
  }

  /** An `increase 1` body for a trimmed, non-empty id passes validation
      unchanged. */
  lemma IncrementBodyValid(productId: ProductId)
    requires productId != "" && Trimmed(productId)
    ensures ValidateUpdate(UpdateBody(productId, 1.0, "increase", None))
         == Success(StockRequest(productId, 1, "increase", None))
  {
    var body := UpdateBody(productId, 1.0, "increase", None);
    assert !AllSpace(productId) by {
      assert !IsSpace(productId[0]);
    }
    assert Trim(productId) == productId by {
      TrimOfTrimmed(productId);
    }
    assert UpdateErrors(body) == {} by {
      WholeIsInt(1, 1);
    }
    assert (1.0).Floor == 1 by {
      WholeIsInt(1, 1);
    }
  }

  /** ... and so reaches StockManager as it was sent. */
  lemma IncrementReachesManager(s: Store, productId: ProductId, userId: UserId, companyId: CompanyId)
    requires productId != "" && Trimmed(productId)
    ensures ProductController.UpdateStock(s, UpdateBody(productId, 1.0, "increase", None), userId, companyId)
         == StockManager.UpdateStock(s, productId, 1, "increase", userId, companyId, "")
  {
    IncrementBodyValid(productId);
  }

  /** Applying the increment command is running the controller on its body. */
  lemma ApplyIncrement(s: Store, productId: ProductId, userId: UserId, companyId: CompanyId)
    ensures Apply(s, Increment(productId, userId, companyId))
         == ProductController.UpdateStock(s, UpdateBody(productId, 1.0, "increase", None), userId, companyId).store
  {
  }

  /** On a valid store an owned product's `increase 1` by a named actor
      commits. */
  lemma IncrementCommits(s: Store, productId: ProductId, userId: UserId, companyId: CompanyId)
    requires Valid(s) && Owns(s, companyId, productId) && userId != ""
    ensures var stock := s.products[productId].currentStock;
      StockManager.UpdateStock(s, productId, 1, "increase", userId, companyId, "").store
      == AfterChange(s, productId, StockManager.ChangeEntry(productId, companyId, Increase, 1, stock, stock + 1, "", userId))
  {
    UpdateSucceedsIff(s, productId, 1, "increase", userId, companyId, "");
  }

  /** One `increase 1` request through the controller on an owned product. */
  lemma OneIncrement(s: Store, productId: ProductId, userId: UserId, companyId: CompanyId)
    requires Valid(s) && Owns(s, companyId, productId) && userId != ""
    requires productId != "" && Trimmed(productId)
    ensures var t := Apply(s, Increment(productId, userId, companyId));
      Valid(t) && Incremented(s, t, productId, companyId, 1)
  {
    var stock := s.products[productId].currentStock;
    var e := StockManager.ChangeEntry(productId, companyId, Increase, 1, stock, stock + 1, "", userId);
    ApplyIncrement(s, productId, userId, companyId);
    IncrementReachesManager(s, productId, userId, companyId);
    UpdatePreservesValid(s, productId, 1, "increase", userId, companyId, "");
    IncrementCommits(s, productId, userId, companyId);
    EntriesOfAppend(s.log, e, productId);
  }

  lemma RunIncrementsStep(s: Store, productId: ProductId, userId: UserId, companyId: CompanyId, k: nat)
    requires k > 0
    ensures Run(s, Increments(productId, userId, companyId, k))
         == Run(Apply(s, Increment(productId, userId, companyId)),
                Increments(productId, userId, companyId, k - 1))
  {
    var cmds := Increments(productId, userId, companyId, k);
    assert cmds[0] == Increment(productId, userId, companyId);
    assert cmds[1..] == Increments(productId, userId, companyId, k - 1);
  }

  /** `t` is `s` after `k` more units of stock and `k` more entries on the
      product, which the company still owns. */
  predicate Incremented(s: Store, t: Store, productId: ProductId, companyId: CompanyId, k: nat)
    requires Owns(s, companyId, productId)
  {
    && Owns(t, companyId, productId)
    && t.products[productId].currentStock == s.products[productId].currentStock + k
    && |EntriesOf(t.log, productId)| == |EntriesOf(s.log, productId)| + k
  }

  /** K requests `increase 1` on one product, applied one after another:
      the stock goes up by exactly K and exactly K entries are added, none
      lost, none doubled. */
  lemma {:induction false} IncrementsCounted(s: Store, productId: ProductId, userId: UserId, companyId: CompanyId, k: nat)
    requires Valid(s) && Owns(s, companyId, productId) && userId != ""
    requires productId != "" && Trimmed(productId)
    ensures Incremented(s, Run(s, Increments(productId, userId, companyId, k)), productId, companyId, k)
    decreases k
  {
    if k == 0 {
      assert Increments(productId, userId, companyId, k) == [];
    } else {
      var s1 := Apply(s, Increment(productId, userId, companyId));
      OneIncrement(s, productId, userId, companyId);
      IncrementsCounted(s1, productId, userId, companyId, k - 1);
      RunIncrementsStep(s, productId, userId, companyId, k);
      IncrementedStep(s, s1, Run(s1, Increments(productId, userId, companyId, k - 1)), productId, companyId, k);
    }
  }

  /** One more increment in front of `k - 1` counted ones makes `k`. */
  lemma IncrementedStep(s: Store, s1: Store, t: Store, productId: ProductId, companyId: CompanyId, k: nat)
    requires k > 0 && Owns(s, companyId, productId)
    requires Incremented(s, s1, productId, companyId, 1)
    requires Incremented(s1, t, productId, companyId, k - 1)
    ensures Incremented(s, t, productId, companyId, k)
  {
  }
}
