# Product service stock ledger

A Dafny model of the product service's stock ledger. The ledger has two parts:

- a per-company product store, keyed by product id;
- an append-only log of stock changes (`StockLog` entries).

The model covers the operations that change or read the ledger:

- `StockManager.updateStock`, the only writer of `currentStock`;
- `StockManager.getStockHistory`;
- the controller handlers `createProduct`, `updateStock`, `getStockHistory` and `getProducts` (pagination);
- the route validators of `POST /` and `POST /update`;
- the Mongoose schema constraints of `Product` and `StockLog`.

The model is pure and functional. A `Store` holds:

- the product map;
- `catalog`, the ids in creation order, which stands for `createdAt` on products;
- `log`, the entries in commit order, which stands for `createdAt` on entries.

The operations that write (`createProduct`, both `updateStock`s) return a `Step`: the new store plus a `Result` outcome. `getProducts` returns a `Result`, and both `getStockHistory`s return a sequence of entries. One call of `StockManager.updateStock` is one MongoDB transaction, so a failure returns the store unchanged.

Files and modules:

- `wrappers.dfy` (`Wrappers`): `Option` and `Result`.
- `text.dfy` (`Text`): JavaScript `trim` and ASCII `toUpperCase`.
- `models.dfy` (`Models`): the `Product` and `StockLogEntry` records, the schema setters and validators, the store, and the error values.
- `ledger.dfy` (`Ledger`): per-product views of the log, entry chaining, and the newest-first tenant view.
- `stock_manager.dfy` (`StockManager`): `updateStock` and `getStockHistory`.
- `product_routes.dfy` (`ProductRoutes`): the express-validator chains.
- `product_controller.dfy` (`ProductController`): the handlers.
- `store_invariant.dfy` (`StoreInvariant`): the global invariant, its preservation by every operation, and its consequences.
- `quantity_coercion.dfy` (`QuantityCoercion`): `updateStock` with a `quantity` sent as a JSON string, as the code is written and as evidently intended (see "## Findings").

Behaviours the model follows:

- **Check order in `updateStock`.** The checks run in the code's order: existence, then tenant, then change type, then insufficient stock. So "Invalid change type" is only reached for an existing product of the caller's company.
- **Quantity positivity.** `StockManager.updateStock` does not check that the quantity is positive. Positivity comes only from the route validator (`isInt({ min: 1 })`) and the controller guard. So a direct `increase` by a negative amount is refused only when the schema's `min: 0` on `currentStock` rejects the save. `StoreInvariant.Command.Adjust` models such direct calls.
- **Schema validators refuse the write.** Every field the schemas mark `required` must be present, and a required string also rejects `""`. An accepted request can still leave three required strings empty: `performedBy`, `companyId` and `createdBy`. The model checks those, and `ProductSchemaOk` also checks `name` and `sku`. `currentStock` and `price` have `min: 0`. A validator failure makes the save or create throw, and the write is refused (`SchemaViolation`). In `updateStock` that aborts the transaction, so neither the product nor the log changes. In `createProduct` there is no transaction: `Product.create` throws before it inserts anything.
- **Duplicate SKU.** The lookup `Product.findOne({ sku, companyId })` in `createProduct` casts its filter through the schema. That applies the `sku` path's `trim` and `uppercase` setters, so it compares the trimmed, upper-cased SKU, the same form the product is stored under. A SKU that differs from a stored one only in case therefore gets the "already exists" answer (`DuplicateSku`). In the model the unique index on `(companyId, sku)` can then never fire, and `DuplicateKey` comes only from a reused `_id`. In the service, the field-level `unique: true` on `sku` also raises a duplicate-key error when another company holds the SKU. That index is not modelled (see "## Left out").
- **Query limits.** MongoDB's `limit(0)` means no limit, and a negative limit returns at most its absolute value. A negative `skip` is an error.

## Model

| member | source | states |
|---|---|---|
| `Text.TrimStart` | services/product-service/src/routes/productRoutes.js:12-13 | the result is a suffix of the input, the removed prefix is all white space, and the result does not start with white space |
| `Text.TrimEnd` | services/product-service/src/routes/productRoutes.js:12-13 | the result is a prefix of the input, the removed suffix is all white space, and the result does not end with white space |
| `Text.TrimIsInfix` | services/product-service/src/routes/productRoutes.js:12-13 | `trim` returns the infix left after removing a white-space prefix and suffix, with no white space at either end |
| `Text.TrimOfTrimmed` | services/product-service/src/models/Product.js:7 | trimming a string with no white space at its ends changes nothing |
| `Text.TrimIdempotent` | services/product-service/src/models/Product.js:7 | the schema's `trim` setter applied to an already sanitised value changes nothing |
| `Text.TrimEmptyIff` | services/product-service/src/routes/productRoutes.js:12-13 | `trim().notEmpty()` fails exactly when the raw value is nothing but white space |
| `Text.UpperProperties` | services/product-service/src/models/Product.js:17-18 | an upper-cased string has no lower-case letter, upper-casing is idempotent and keeps a trimmed string trimmed, and an upper-case string is its own upper case |
| `Models.NormalizeProduct` | services/product-service/src/models/Product.js:4-34 | the setters leave every product in stored form: `name`, `description` and `category` have no white space at their ends, and `sku` is trimmed and upper-case. Each text field is the trim of the value given (the SKU also upper-cased), and every other field is kept |
| `Models.StoredFormSku` | services/product-service/src/models/Product.js:13-19 | the controller's upper-casing followed by the schema's trim and upper-case setters stores `Upper(Trim(sku))`; that SKU is in stored form, and the setters applied to it again change nothing |
| `Models.NormalizeIdempotent` | services/product-service/src/models/Product.js:4-34 | the setters are idempotent: a product already in stored form is saved unchanged, so a second save through the setters changes nothing |
| `Ledger.EntriesOf` | services/product-service/src/models/StockLog.js:44 | a product's entries are log entries of that product, and there are no more of them than log entries |
| `Ledger.EntriesOfAppend` | services/product-service/src/utils/stockManager.js:42-51 | appending an entry to the log appends it to its own product's entries and to no other product's |
| `Ledger.EntriesOfAbsent` | services/product-service/src/utils/stockManager.js:72-75 | a product that no entry mentions has no entries |
| `Ledger.ChainsAppend` | services/product-service/src/utils/stockManager.js:22-28 | an entry that starts where a chain ends extends the chain, which then ends where the entry does |
| `Ledger.ChainNetChange` | services/product-service/src/utils/stockManager.js:22-28 | a chain of consistent entries ends at its start plus the increases and initial quantities minus the decreases |
| `Ledger.NewestFirstIsReverse` | services/product-service/src/utils/stockManager.js:72-76 | the `createdAt`-descending view is the commit-order view reversed |
| `Ledger.MatchingOfOwner` | services/product-service/src/utils/stockManager.js:72-75 | when every entry of a product carries one company, that company sees all of the product's entries and any other company sees none |
| `StockManager.MutationKind` | services/product-service/src/utils/stockManager.js:25-35 | only `increase` and `decrease` change stock; every other change type, `initial` included, is refused |
| `StockManager.UpdateStock` | services/product-service/src/utils/stockManager.js:6-67 | a failure leaves store and log unchanged. Not found, Unauthorized, invalid change type, insufficient stock and a schema rejection each happen exactly under their condition, in the code's order. On success: `previousStock` is the old stock, `change` is the quantity, `newStock` is the old stock plus or minus the quantity and is non-negative, only this product changes, and exactly one consistent entry is appended |
| `StockManager.ChangeOwned` | services/product-service/src/utils/stockManager.js:22-39 | for an owned product: the change-type, insufficient-stock and schema outcomes each happen exactly under their condition, and success commits the computed stock |
| `StockManager.ResultBound` | services/product-service/src/utils/stockManager.js:77 | `limit(0)` means no bound; any other limit bounds the result by its absolute value |
| `StockManager.Take` | services/product-service/src/utils/stockManager.js:77 | the result is the longest prefix within the bound |
| `StockManager.GetStockHistory` | services/product-service/src/utils/stockManager.js:71-80 | the scan returns exactly the product's entries within the company, newest first, cut to the limit; an unknown product gives an empty result |
| `ProductRoutes.CreateErrors` | services/product-service/src/routes/productRoutes.js:11-15 | each create field is rejected exactly when its validator fails: blank `name`, blank `sku`, negative `price`, present `initialStock` that is not an integer of at least 0; there are no errors exactly when all pass |
| `ProductRoutes.ValidateCreate` | services/product-service/src/routes/productRoutes.js:11-16 | a create body is refused exactly when some field fails. An accepted body yields trimmed, non-empty `name` and `sku`, a non-negative price, and the integer `initialStock` it carried |
| `ProductRoutes.UpdateErrors` | services/product-service/src/routes/productRoutes.js:21-25 | each update field is rejected exactly when its validator fails: blank `productId`, `quantity` not an integer of at least 1, `changeType` not `increase` or `decrease` |
| `ProductRoutes.ValidateUpdate` | services/product-service/src/routes/productRoutes.js:21-26 | an update body is refused exactly when some field fails. An accepted body yields the trimmed non-empty id, a whole quantity of at least 1, an allowed change type and the trimmed reason |
| `ProductController.InitialEntry` | services/product-service/src/controllers/productController.js:42-53 | the opening entry is a consistent `initial` entry of the product whose quantity and new stock are the product's stock, recorded under the product's company and the creating user |
| `ProductController.CreateProduct` | services/product-service/src/controllers/productController.js:7-63 | a failure changes nothing and is one of validation failure, duplicate SKU, schema rejection or unique-index rejection. Validation failure, duplicate SKU within the company, schema rejection and unique-index rejection each happen exactly under their condition. The duplicate lookup compares the trimmed, upper-cased SKU, and `DuplicateKey` arises only from a reused id. On success the product has the upper-cased SKU, `currentStock = initialStock` (0 when absent) and `isActive`; it is added to the store and catalog, and an `initial` entry is logged exactly when the stock is positive |
| `ProductController.NewDocumentOf` | services/product-service/src/controllers/productController.js:31-40 | the stored document of a valid body keeps its trimmed fields, price and initial stock; its SKU is the stored form, the same SKU the cast duplicate lookup compares; it passes the schema exactly when user and company are named |
| `ProductController.Insert` | services/product-service/src/controllers/productController.js:21-53 | after validation: the lookup with its SKU filter trimmed and upper-cased, then create with validators and unique indexes, then the optional `initial` entry. A failure is a duplicate SKU, a schema rejection or a unique-index rejection, each exactly under its condition and with no effect, so the insert succeeds when none of them applies |
| `ProductController.UpdateStock` | services/product-service/src/controllers/productController.js:113-159 | invalid bodies fail with their field errors and no effect. The quantity guard and the invalid-change-type branch are never reached. A valid body is exactly `StockManager.updateStock` on the sanitised request, and a success changes stock by at least one unit |
| `ProductController.GetStockHistory` | services/product-service/src/controllers/productController.js:162-177 | the history is cut to the given limit, or to 50 when none is given, and holds only the caller's entries of that product |
| `ProductController.Listing` | services/product-service/src/controllers/productController.js:71-75 | the listed products all belong to the company and pass the `isActive` filter, and every catalogued product that passes the filter is listed |
| `ProductController.ListingIsNewestFirst` | services/product-service/src/controllers/productController.js:89-91 | the listing is the `find` filter read over the catalog newest first, the order of `sort({ createdAt: -1 })` |
| `ProductController.CeilDiv` | services/product-service/src/controllers/productController.js:103 | `Math.ceil(total / limit)` for positive and for negative limits |
| `ProductController.GetProducts` | services/product-service/src/controllers/productController.js:66-110 | fails exactly on a negative skip. Otherwise: `total` counts the filtered products, `pages` is the ceiling of total over limit for positive and negative limits (absent for limit 0), every item belongs to the caller's company, and a page holds at most `abs(limit)` items |
| `ProductController.PageStartsInside` | services/product-service/src/controllers/productController.js:89-103 | with `pages = ceil(total / limit)`, page `page` starts inside the listing exactly when `page <= pages` |
| `ProductController.PageWindow` | services/product-service/src/controllers/productController.js:89-104 | for positive page and limit, page `page` is the listing's slice from `(page-1)*limit` of at most `limit` items, and it is non-empty exactly when `page <= pages` |
| `StoreInvariant.ChangeKeepsLedger` | services/product-service/src/utils/stockManager.js:38-51 | appending a non-initial entry that starts at a product's stock extends that product's ledger to the new stock and leaves every other ledger alone |
| `StoreInvariant.StockChangePreservesValid` | services/product-service/src/utils/stockManager.js:37-53 | committing one consistent change of an owned product keeps the store valid |
| `StoreInvariant.UpdatePreservesValid` | services/product-service/src/utils/stockManager.js:6-67 | `updateStock` keeps the store valid for any arguments |
| `StoreInvariant.NoEntriesForUnknown` | services/product-service/src/models/StockLog.js:4-9 | in a valid store a product id not in the store has no entries |
| `StoreInvariant.InsertPreservesValid` | services/product-service/src/controllers/productController.js:31-53 | inserting a fresh, valid product with its opening entry keeps the store valid |
| `StoreInvariant.CreatePreservesValid` | services/product-service/src/controllers/productController.js:7-63 | `createProduct` keeps the store valid for any arguments |
| `StoreInvariant.ApplyPreservesValid` | services/product-service/src/controllers/productController.js:113-141 | each of create, controller update and direct `updateStock` keeps the store valid |
| `StoreInvariant.RunPreservesValid` | services/product-service/src/utils/stockManager.js:7-65 | any sequence of atomic operations keeps a valid store valid |
| `StoreInvariant.ReachableValid` | services/product-service/src/models/Product.js:25-53 | every store reachable from the empty one is valid. Stock is never negative, `(companyId, sku)` is unique, SKUs are stored trimmed and upper-case, and each product's entries chain from 0 to its current stock |
| `StoreInvariant.StockIsNetChange` | services/product-service/src/utils/stockManager.js:22-28 | in a valid store a product's stock is the sum of its logged changes and is non-negative |
| `StoreInvariant.HistoryIsLedger` | services/product-service/src/utils/stockManager.js:71-80 | in a valid store the owning company's history is the product's whole ledger newest first; every other company, and every caller for an unknown product, sees nothing |
| `StoreInvariant.UpdateSucceedsIff` | services/product-service/src/utils/stockManager.js:12-39 | on a valid store `updateStock` succeeds exactly when the company owns the product, the change type is `increase` or `decrease`, the resulting stock is non-negative and an actor is named |
| `StoreInvariant.CreateSucceedsIff` | services/product-service/src/controllers/productController.js:21-40 | on a valid store, a valid create request with named user and company and an unused id succeeds exactly when no product of the company has the same SKU up to upper-casing |
| `StoreInvariant.CaseVariantDuplicateRefused` | services/product-service/src/controllers/productController.js:21-27 | a SKU that differs from one the company stores only in case or in surrounding white space is refused by the duplicate lookup with the "already exists" error, and nothing changes |
| `StoreInvariant.OneIncrement` | services/product-service/src/controllers/productController.js:113-141 | one `increase 1` request on an owned product keeps the store valid, adds exactly one unit and exactly one entry |
| `StoreInvariant.IncrementsCounted` | services/product-service/src/utils/stockManager.js:22-51 | `k` requests of `increase 1` raise the stock by exactly `k` and add exactly `k` entries: none lost, none doubled |
| `QuantityCoercion.DecimalText` | services/product-service/src/utils/stockManager.js:26 | `String(n)` of a non-negative integer is a non-empty run of digits that reads back as `n` |
| `QuantityCoercion.DigitsValueAppend` | services/product-service/src/utils/stockManager.js:26 | two digit runs written one after the other read as the first shifted by the second's length plus the second |
| `QuantityCoercion.IncreasedAsWritten` | services/product-service/src/utils/stockManager.js:25-26 | as written, a numeric quantity adds, and a digit-string quantity `q` turns stock `p` into `p * 10^len(q) + q` |
| `QuantityCoercion.AsWrittenConsistentIff` | services/product-service/src/utils/stockManager.js:22-51 | as written, the logged `increase` entry is consistent exactly when the quantity was a JSON number or the stock was 0 |
| `QuantityCoercion.TenPlusStringFive` | services/product-service/src/routes/productRoutes.js:23 | `"5"` passes `isInt({ min: 1 })`, and on stock 10 the code as written stores 105 |
| `QuantityCoercion.IncreasedCorrected` | services/product-service/src/utils/stockManager.js:25-26 | with the quantity converted to its number, an increase is StockManager's numeric target stock and always raises the stock |
| `QuantityCoercion.CorrectedIncreaseConsistent` | services/product-service/src/utils/stockManager.js:22-51 | with the conversion every `increase` entry is consistent whatever JSON type carried the quantity, and numeric quantities behave exactly as written |

## Left out

- Concurrency, locking and the session API (`startSession`, `commitTransaction`, `abortTransaction`, `endSession`) are left out. Each call is one atomic step, so the "with lock" comment has nothing to model.
- `getProducts`'s regex `search` and its `category` filter are left out. They rely on MongoDB `$regex` semantics.
- Express plumbing is left out: `validationResult`, status codes, `next(error)` and the response bodies. Outcomes are `Result` values; error messages are `Error` constructors.
- The auth service and the API gateway are not part of this model. The caller's `user_id` and `company_id` are plain parameters.
- Timestamps are positions. `createdAt` is the position in `catalog` or `log`, so "newest first" is reverse commit order.
- Product ids are not generated. `CreateProduct` takes the new id as a parameter, and a reused id fails on the `_id` unique index (`DuplicateKey`). ObjectId casting errors for malformed ids are not modelled: an unknown id is just a missing key.
- The field-level `unique: true` on `sku` (global uniqueness across companies) is not modelled. Only the per-company compound index is modelled, so two companies may share a SKU in the model.
- `ProductController.CreateProduct`: the `initial` log insert is not in a transaction in the code. If it failed, a product would exist without its entry. With a named user and company the entry always passes its schema, so that failure cannot arise in the model.
- `ProductController.Insert`: the duplicate lookup is modelled with Mongoose's query casting, which applies the `sku` setters to the filter. A driver that sent the filter uncast would compare the SKU as typed. A lower-case duplicate would then get past the lookup and be refused by the `(companyId, sku)` index as `DuplicateKey`. That reading is not modelled.
- `Text.Upper` upper-cases ASCII letters only. JavaScript's `toUpperCase` also maps other scripts, and some characters expand to two (`ß` to `SS`).
- `Text.IsSpace` is the ECMAScript WhiteSpace and LineTerminator set. There is no Unicode normalisation.
- Request numbers are exact `real`s. Apart from the `quantity` case under "## Findings", the model does not cover:
  - string-typed numbers in JSON bodies;
  - `NaN`;
  - floating-point rounding;
  - `parseInt` on query strings. `page` and `limit` arrive as integers or absent.
- `ProductController.GetProducts`: the model has no `NaN` page count for a non-numeric `limit`. `limit = 0` gives an absent `pages`, which the JSON response serialises as `null`.
- `StockManager.UpdateStock` takes an integer quantity. A fractional quantity from a direct call (the controller only passes whole numbers) is not modelled.
- `StoreInvariant.StockIsNetChange`, `StoreInvariant.ReachableValid` and `StoreInvariant.IncrementsCounted` hold for numeric quantities only, which is the intended behaviour. The service as written accepts `{"quantity": "5", "changeType": "increase"}`, because `isInt({ min: 1 })` does not convert and there is no `toInt()`. On stock 10 it saves 105 and logs an `increase` of 5 from 10 to 105. That entry is not consistent, the stock is no longer the sum of the logged changes, and `"1"` requests do not add one unit each. `QuantityCoercion.AsWrittenConsistentIff` models this (see "## Findings").
- `QuantityCoercion.PassesQuantityValidator`: quantity strings with a `+` or `-` sign, which `isInt` also admits, are counted as failing.
- `ProductRoutes.CreateErrors` and `ProductRoutes.UpdateErrors` test the number itself, while the validators test `String(value)`. A number whose text uses exponent notation, such as `price: 1e-7` or `quantity: 1e21`, is refused by the service but accepted by the model.

## Findings

| source | as written | input that shows it | evidently intended | confidence | as-written member | corrected member |
|---|---|---|---|---|---|---|
| services/product-service/src/utils/stockManager.js:26 | `newStock = previousStock + quantity` with `quantity` as the request sent it. The route's `isInt({ min: 1 })` (productRoutes.js:23) tests the text and converts nothing, and the `quantity <= 0` guard compares numerically, so a JSON string reaches this line and is concatenated | stock 10, body `{"quantity": "5", "changeType": "increase"}`: the service saves stock 105 and logs an `increase` of 5 from 10 to 105 | the quantity converted to a number before the addition (a `toInt()` on the route), so stock 10 becomes 15 and every entry is consistent | high that a JSON string passes the validator and is concatenated; not executed | `QuantityCoercion.AsWrittenConsistentIff` (with `QuantityCoercion.TenPlusStringFive`) | `QuantityCoercion.CorrectedIncreaseConsistent` (the numeric addition that `StockManager.UpdateStock` and `StoreInvariant.StockIsNetChange` use) |
