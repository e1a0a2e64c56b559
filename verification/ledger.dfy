/** Views of the append-only stock log: the entries of one product in commit
    order, the chaining property that ties them to the product's stock, and
    the newest-first, tenant-scoped view the history query returns. */
module Ledger {
  import opened Models

  /** The arithmetic of a committed entry: increase and initial add the
      quantity, decrease subtracts it, and an initial entry starts from 0. */
  predicate Consistent(e: StockLogEntry) {
    match e.changeType
    case Increase => e.newStock == e.previousStock + e.quantity
    case Decrease => e.newStock == e.previousStock - e.quantity
    case Initial => e.previousStock == 0 && e.newStock == e.quantity
  }

  /** The signed change an entry records. */
  function Delta(e: StockLogEntry): int {
    if e.changeType == Decrease then -e.quantity else e.quantity
  }

  /** The entries of product `id`, oldest first. */
  function EntriesOf(log: seq<StockLogEntry>, id: ProductId): (h: seq<StockLogEntry>)
    ensures |h| <= |log|
    ensures forall i :: 0 <= i < |h| ==> h[i].productId == id && h[i] in log
    decreases |log|
  {
    if |log| == 0 then []
    else
      var last := log[|log| - 1];
      assert log == log[..|log| - 1] + [last];
      EntriesOf(log[..|log| - 1], id) + (if last.productId == id then [last] else [])
  }

  /** Appending to the log appends to exactly one product's entries. */
  lemma EntriesOfAppend(log: seq<StockLogEntry>, e: StockLogEntry, id: ProductId)
    ensures EntriesOf(log + [e], id) == EntriesOf(log, id) + (if e.productId == id then [e] else [])
  {
    assert (log + [e])[..|log|] == log;
  }

  /** A product no entry mentions has no entries. */
  lemma {:induction false} EntriesOfAbsent(log: seq<StockLogEntry>, id: ProductId)
    requires forall i :: 0 <= i < |log| ==> log[i].productId != id
    ensures EntriesOf(log, id) == []
    decreases |log|
  {
    if |log| > 0 {
      EntriesOfAbsent(log[..|log| - 1], id);
    }
  }

  /** The entries chain from `start`: the first begins at `start` and each
      later one begins where its predecessor ended. */
  predicate Chains(h: seq<StockLogEntry>, start: int) {
    && (|h| > 0 ==> h[0].previousStock == start)
    && (forall i :: 0 < i < |h| ==> h[i].previousStock == h[i - 1].newStock)
  }

  /** Where a chain starting at `start` ends. */
  function Final(h: seq<StockLogEntry>, start: int): int {
    if |h| == 0 then start else h[|h| - 1].newStock
  }

  /** An entry that begins where the chain ends extends it, and the chain
      then ends where the entry does. */
  lemma ChainsAppend(h: seq<StockLogEntry>, start: int, e: StockLogEntry)
    requires Chains(h, start)
    requires e.previousStock == Final(h, start)
    ensures Chains(h + [e], start)
    ensures Final(h + [e], start) == e.newStock
  {
  }

  /** The sum of the signed changes of a sequence of entries. */
  function NetChange(h: seq<StockLogEntry>): int
    decreases |h|
  {
    if |h| == 0 then 0 else NetChange(h[..|h| - 1]) + Delta(h[|h| - 1])
  }

  /** A chain of consistent entries ends at its start plus the net change:
      stock = initial + sum of increases - sum of decreases. */
  lemma {:induction false} ChainNetChange(h: seq<StockLogEntry>, start: int)
    requires Chains(h, start)
    requires forall i :: 0 <= i < |h| ==> Consistent(h[i])
    ensures Final(h, start) == start + NetChange(h)
    decreases |h|
  {
    if |h| > 0 {
      var p := h[..|h| - 1];
      assert Chains(p, start);
      ChainNetChange(p, start);
      if |p| > 0 {
        assert h[|h| - 1].previousStock == p[|p| - 1].newStock;
      }
    }
  }

  /** The entry belongs to the product and to the company. */
  predicate Matches(e: StockLogEntry, productId: ProductId, companyId: CompanyId) {
    e.productId == productId && e.companyId == companyId
  }

  /** The entries of the product within the company, oldest first. */
  function Matching(log: seq<StockLogEntry>, productId: ProductId, companyId: CompanyId): (h: seq<StockLogEntry>)
    ensures forall i :: 0 <= i < |h| ==> Matches(h[i], productId, companyId)
    decreases |log|
  {
    if |log| == 0 then []
    else
      var last := log[|log| - 1];
      Matching(log[..|log| - 1], productId, companyId) + (if Matches(last, productId, companyId) then [last] else [])
  }

  /** The same entries, newest first: the order of the `createdAt` descending
      sort. */
  function NewestFirst(log: seq<StockLogEntry>, productId: ProductId, companyId: CompanyId): (h: seq<StockLogEntry>)
    decreases |log|
  {
    if |log| == 0 then []
    else
      var last := log[|log| - 1];
      (if Matches(last, productId, companyId) then [last] else []) + NewestFirst(log[..|log| - 1], productId, companyId)
  }

  /** Scanning the log from its newest end: the view of a prefix is its last
      entry, if it matches, followed by the view of the shorter prefix. */
  lemma NewestFirstPrefix(log: seq<StockLogEntry>, i: nat, productId: ProductId, companyId: CompanyId)
    requires 0 < i <= |log|
    ensures NewestFirst(log[..i], productId, companyId)
         == (if Matches(log[i - 1], productId, companyId) then [log[i - 1]] else [])
            + NewestFirst(log[..i - 1], productId, companyId)
  {
    assert log[..i][..i - 1] == log[..i - 1];
  }

  function Reverse<T>(s: seq<T>): (r: seq<T>)
    ensures |r| == |s|
    decreases |s|
  {
    if |s| == 0 then [] else [s[|s| - 1]] + Reverse(s[..|s| - 1])
  }

  /** Newest first is the commit order reversed. */
  lemma {:induction false} NewestFirstIsReverse(log: seq<StockLogEntry>, productId: ProductId, companyId: CompanyId)
    ensures NewestFirst(log, productId, companyId) == Reverse(Matching(log, productId, companyId))
    decreases |log|
  {
    if |log| > 0 {
      var prefix := log[..|log| - 1];
      var last := log[|log| - 1];
      NewestFirstIsReverse(prefix, productId, companyId);
      if Matches(last, productId, companyId) {
        var m := Matching(prefix, productId, companyId);
        assert (m + [last])[..|m|] == m;
        assert Reverse(m + [last]) == [last] + Reverse(m);
        assert Matching(log, productId, companyId) == m + [last];
        assert NewestFirst(log, productId, companyId) == [last] + NewestFirst(prefix, productId, companyId);
      } else {
        assert Matching(log, productId, companyId) == Matching(prefix, productId, companyId);
        assert NewestFirst(log, productId, companyId) == NewestFirst(prefix, productId, companyId);
      }
    }
  }

  /** When every entry of a product carries one company, that company sees
      all of the product's entries and any other company sees none. */
  lemma {:induction false} MatchingOfOwner(log: seq<StockLogEntry>, productId: ProductId, owner: CompanyId, companyId: CompanyId)
    requires forall i :: 0 <= i < |log| && log[i].productId == productId ==> log[i].companyId == owner
    ensures Matching(log, productId, companyId) == if companyId == owner then EntriesOf(log, productId) else []
    decreases |log|
  {
    if |log| > 0 {
      MatchingOfOwner(log[..|log| - 1], productId, owner, companyId);
    }
  }
}
