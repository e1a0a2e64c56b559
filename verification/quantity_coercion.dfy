/** What `updateStock` does with a `quantity` that arrives as a JSON string.
    The route's `isInt({ min: 1 })` tests the value's text and converts
    nothing, and the controller's `quantity <= 0` guard compares numerically,
    so a digit string such as "5" reaches StockManager unchanged. There
    `previousStock + quantity` appends it to the stock's decimal text, and
    the schema casts the result back to a number. This module models that
    path as the code is written, next to the numeric addition the rest of the
    model performs. */
module QuantityCoercion {
  import opened Models
  import opened Ledger
  import StockManager

  /** A request's `quantity` as the JSON body delivers it. */
  datatype JsonQuantity = JsonNumber(n: int) | JsonString(s: string)

  predicate IsDigit(c: char) {
    '0' <= c <= '9'
  }

  predicate AllDigits(s: string) {
    forall i :: 0 <= i < |s| ==> IsDigit(s[i])
  }

  /** The number a run of decimal digits denotes, as `Number(s)` and the
      schema's Number cast read it (leading zeros allowed). */
  function DigitsValue(s: string): nat
    requires AllDigits(s)
    decreases |s|
  {
    if |s| == 0 then 0 else DigitsValue(s[..|s| - 1]) * 10 + (s[|s| - 1] as int - '0' as int)
  }

  /** `String(n)` for a non-negative integer: its decimal text, which reads
      back as `n`. */
  function DecimalText(n: nat): (s: string)
    ensures |s| >= 1 && AllDigits(s) && DigitsValue(s) == n
    decreases n
  {
    if n < 10 then [('0' as int + n) as char]
    else
      var p := DecimalText(n / 10);
      var s := p + [('0' as int + n % 10) as char];
      assert s[..|s| - 1] == p;
      s
  }

  function Pow10(k: nat): (r: nat)
    ensures k >= 1 ==> r >= 10
  {
    if k == 0 then 1 else 10 * Pow10(k - 1)
  }

  /** Reading two digit runs written one after the other: the first is
      shifted by the length of the second. */
  lemma {:induction false} DigitsValueAppend(a: string, b: string)
    requires AllDigits(a) && AllDigits(b)
    ensures AllDigits(a + b)
    ensures DigitsValue(a + b) == DigitsValue(a) * Pow10(|b|) + DigitsValue(b)
    decreases |b|
  {
    if |b| == 0 {
      assert a + b == a;
    } else {
      var c := b[..|b| - 1];
      assert (a + b)[..|a + b| - 1] == a + c;
      DigitsValueAppend(a, c);
      ShiftOneDigit(DigitsValue(a), Pow10(|c|), DigitsValue(c), b[|b| - 1] as int - '0' as int);
    }
  }

  /** One more digit after a shifted run shifts it once more. */
  lemma ShiftOneDigit(x: int, p: int, y: int, d: int)
    ensures (x * p + y) * 10 + d == x * (10 * p) + (y * 10 + d)
  {
  }

  /** `isInt({ min: 1 })` on the value's text: a number passes when it is a
      whole number of at least 1, a string when it is a run of digits worth
      at least 1. Strings with a sign, which the validator also admits, are
      counted as failing here. */
  predicate PassesQuantityValidator(q: JsonQuantity) {
    match q
    case JsonNumber(n) => n >= 1
    case JsonString(s) => |s| >= 1 && AllDigits(s) && DigitsValue(s) >= 1
  }

  /** The number a passing quantity stands for: what the `<= 0` guard
      compares and what the log's Number field stores. */
  function QuantityValue(q: JsonQuantity): (v: int)
    requires PassesQuantityValidator(q)
    ensures v >= 1
  {
    match q
    case JsonNumber(n) => n
    case JsonString(s) => DigitsValue(s)
  }

  /** `previousStock + quantity` as JavaScript evaluates it, then cast to a
      Number on save: a number adds, a string is appended to the stock's
      decimal text. */
  function IncreasedAsWritten(previousStock: nat, q: JsonQuantity): (n: nat)
    requires PassesQuantityValidator(q)
    ensures q.JsonString? ==> n == previousStock * Pow10(|q.s|) + QuantityValue(q)
  {
    match q
    case JsonNumber(n) => previousStock + n
    case JsonString(s) =>
      DigitsValueAppend(DecimalText(previousStock), s);
      DigitsValue(DecimalText(previousStock) + s)
  }

  /** The `increase` entry the code as written logs: the quantity and the
      previous stock as numbers, the new stock as computed above. */
  function EntryAsWritten(productId: ProductId, companyId: CompanyId, previousStock: nat, q: JsonQuantity,
                          reason: string, userId: UserId): StockLogEntry
    requires PassesQuantityValidator(q)
  {
    StockLogEntry(productId, companyId, Increase, QuantityValue(q), previousStock,
                  IncreasedAsWritten(previousStock, q), reason, userId)
  }

  /** As written, an `increase` entry is consistent exactly when the quantity
      came as a JSON number or the stock was 0: any digit string on a
      positive stock logs a new stock that is not old stock plus quantity. */
  lemma AsWrittenConsistentIff(productId: ProductId, companyId: CompanyId, previousStock: nat, q: JsonQuantity,
                               reason: string, userId: UserId)
    requires PassesQuantityValidator(q)
    ensures Consistent(EntryAsWritten(productId, companyId, previousStock, q, reason, userId))
        <==> q.JsonNumber? || previousStock == 0
  {
    if q.JsonString? && previousStock >= 1 {
      var p := Pow10(|q.s|);
      assert previousStock * p >= previousStock * 10;
    }
  }

  /** The concrete case: stock 10 and `"quantity": "5"` store 105, not 15. */
  lemma TenPlusStringFive()
    ensures PassesQuantityValidator(JsonString("5"))
    ensures IncreasedAsWritten(10, JsonString("5")) == 105
  {
    assert DigitsValue("5") == 5 by {
      assert "5"[..0] == [];
    }
  }

  /** The evidently intended increase: the quantity converted to its number
      before it is added, as the rest of the model does. */
  function IncreasedCorrected(previousStock: nat, q: JsonQuantity): (n: nat)
    requires PassesQuantityValidator(q)
    ensures n == StockManager.TargetStock(Increase, previousStock, QuantityValue(q))
    ensures n > previousStock
  {
    previousStock + QuantityValue(q)
  }

  /** With the conversion every `increase` entry is consistent, whichever
      JSON type carried the quantity, and numbers are handled as before. */
  lemma CorrectedIncreaseConsistent(productId: ProductId, companyId: CompanyId, previousStock: nat,
                                    q: JsonQuantity, reason: string, userId: UserId)
    requires PassesQuantityValidator(q)
    ensures Consistent(StockLogEntry(productId, companyId, Increase, QuantityValue(q), previousStock,
                                     IncreasedCorrected(previousStock, q), reason, userId))
    ensures q.JsonNumber? ==> IncreasedCorrected(previousStock, q) == IncreasedAsWritten(previousStock, q)
  {
  }
}
