/** The two persisted records of the product service, Product and StockLog,
    with what their schemas normalise and reject, the store that holds them,
    and the errors the operations report. */
module Models {
  import opened Wrappers
  import opened Text

  type ProductId = string
  type CompanyId = string
  type UserId = string

  /** The `changeType` enum of a stock log entry. */
  datatype ChangeKind = Increase | Decrease | Initial

  /** The name under which each kind travels in requests and is stored. */
  function KindName(k: ChangeKind): string {
    match k
    case Increase => "increase"
    case Decrease => "decrease"
    case Initial => "initial"
  }

  /** A product document. Timestamps are not kept: the store's catalog order
      stands for `createdAt`. */
  datatype Product = Product(
    id: ProductId,
    name: string,
    description: Option<string>,
    sku: string,
    price: real,
    currentStock: int,
    category: Option<string>,
    companyId: CompanyId,
    isActive: bool,
    createdBy: UserId)

  function TrimOption(s: Option<string>): Option<string> {
    match s
    case Some(v) => Some(Trim(v))
    case None => None
  }

  /** An optional text field that is absent or has no white space at its ends. */
  predicate TrimmedOption(s: Option<string>) {
    s.Some? ==> Trimmed(s.value)
  }

  /** A product whose text fields are in the form the schema's setters leave
      them: trimmed, with a trimmed upper-case SKU. */
  predicate NormalForm(p: Product) {
    Trimmed(p.name) && IsStoredSku(p.sku) && TrimmedOption(p.description) && TrimmedOption(p.category)
  }

  /** The schema's setters: `trim` on the text fields, `trim` then `uppercase`
      on the SKU. They bring every product into normal form, keep every
      field they do not set, and change the text fields only by trimming
      (and, for the SKU, upper-casing) the given value. */
  function NormalizeProduct(p: Product): (q: Product)
    ensures NormalForm(q)
    ensures q.name == Trim(p.name) && q.sku == Upper(Trim(p.sku))
    ensures q.description == TrimOption(p.description) && q.category == TrimOption(p.category)
    ensures q.(name := p.name, sku := p.sku, description := p.description, category := p.category) == p
  {
    TrimIsInfix(p.name);
    StoredFormSku(p.sku);
    TrimOptionTrimmed(p.description);
    TrimOptionTrimmed(p.category);
    p.(name := Trim(p.name), description := TrimOption(p.description),
       sku := Upper(Trim(p.sku)), category := TrimOption(p.category))
  }

  lemma TrimOptionTrimmed(s: Option<string>)
    ensures TrimmedOption(TrimOption(s))
  {
    if s.Some? {
      TrimIsInfix(s.value);
    }
  }

  /** The SKU a product is stored under: the controller upper-cases the
      sanitised SKU, then the schema trims and upper-cases it again, which
      changes nothing more; the result is in stored form. */
  lemma StoredFormSku(raw: string)
    ensures IsStoredSku(Upper(Trim(raw)))
    ensures Upper(Trim(Upper(Trim(raw)))) == Upper(Trim(raw))
  {
    var t := Trim(raw);
    TrimIsInfix(raw);
    UpperProperties(t);
    TrimOfTrimmed(Upper(t));
    UpperProperties(Upper(t));
  }

  /** A trimmed optional field is its own trim. */
  lemma TrimOptionOfTrimmed(s: Option<string>)
    requires TrimmedOption(s)
    ensures TrimOption(s) == s
  {
    if s.Some? {
      TrimOfTrimmed(s.value);
    }
  }

  /** The setters are idempotent: a product in normal form is stored as is,
      so normalising a second time changes nothing. */
  lemma NormalizeIdempotent(p: Product)
    ensures NormalForm(p) ==> NormalizeProduct(p) == p
    ensures NormalizeProduct(NormalizeProduct(p)) == NormalizeProduct(p)
  {
    NormalFormFixed(NormalizeProduct(p));
    if NormalForm(p) {
      NormalFormFixed(p);
    }
  }

  lemma NormalFormFixed(p: Product)
    requires NormalForm(p)
    ensures NormalizeProduct(p) == p
  {
    TrimOfTrimmed(p.name);
    TrimOfTrimmed(p.sku);
    UpperProperties(p.sku);
    TrimOptionOfTrimmed(p.description);
    TrimOptionOfTrimmed(p.category);
  }

  /** The schema's validators on a normalised product: the required strings
      are non-empty, and neither price nor stock is negative. */
  predicate ProductSchemaOk(p: Product) {
    && p.name != ""
    && p.sku != ""
    && p.price >= 0.0
    && p.currentStock >= 0
    && p.companyId != ""
    && p.createdBy != ""
  }

  /** A SKU in the form the schema stores it. */
  predicate IsStoredSku(sku: string) {
    Trimmed(sku) && IsUpper(sku)
  }

  /** A stock log document; its position in the log stands for `createdAt`.
      `quantity` carries no lower bound in the schema. */
  datatype StockLogEntry = StockLogEntry(
    productId: ProductId,
    companyId: CompanyId,
    changeType: ChangeKind,
    quantity: int,
    previousStock: int,
    newStock: int,
    reason: string,
    performedBy: UserId)

  /** The schema's `required` validators that a well-typed entry can still
      fail: the required strings must be non-empty. */
  predicate EntrySchemaOk(e: StockLogEntry) {
    e.companyId != "" && e.performedBy != ""
  }

  /** The product collection (keyed by `_id`, with `catalog` listing ids in
      creation order) and the stock log in commit order. */
  datatype Store = Store(
    products: map<ProductId, Product>,
    catalog: seq<ProductId>,
    log: seq<StockLogEntry>)

  const EmptyStore: Store := Store(map[], [], [])

  /** The product exists and belongs to the company. */
  predicate Owns(s: Store, companyId: CompanyId, productId: ProductId) {
    productId in s.products && s.products[productId].companyId == companyId
  }

  /** Some product of the company already stores this SKU. */
  predicate SkuTaken(s: Store, companyId: CompanyId, sku: string) {
    exists id :: id in s.products && s.products[id].companyId == companyId && s.products[id].sku == sku
  }

  /** Request fields the route validators check. */
  datatype Field =
    | NameField | SkuField | PriceField | InitialStockField
    | ProductIdField | QuantityField | ChangeTypeField

  datatype Error =
    | ValidationFailed(fields: set<Field>)   // route validators (HTTP 400)
    | QuantityNotPositive                    // controller guard (HTTP 400)
    | DuplicateSku                           // controller lookup (HTTP 400)
    | ProductNotFound
    | Unauthorized
    | InvalidChangeType
    | InsufficientStock
    | SchemaViolation                        // a mongoose validator rejected a document
    | DuplicateKey                           // a unique index rejected an insert
    | NegativeSkip                           // MongoDB refuses a negative skip

  /** The store after an operation together with its outcome. A failed
      operation hands back the store it was given. */
  datatype Step<+T> = Step(store: Store, outcome: Result<T, Error>)
}
