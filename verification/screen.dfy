/** The whole screen of `main()`: batch the symbols, build one request
    string per batch, turn each batch response into rows, rank them, and
    size every kept position against the budget. The gateway responses
    (one per batch, in batch order) and the budget are inputs. */
module Screen {
  import opened Results
  import opened Table
  import Batcher
  import Numbers
  import BatchStrings
  import Ranking
  import Allocator

  /** Symbols per batch request. */
  const BatchSize: int := 100

  /** The request strings, one per chunk of `BatchSize` symbols. */
  function Batches(symbols: seq<string>): seq<string> {
    BatchStrings.BatchStringsOf(Batcher.Chunks(symbols, BatchSize))
  }

  /** The recommended-trades table, or the error that stops the script. */
  function Run(symbols: seq<string>, responses: seq<Response>, budget: real): Result<seq<Row>>
    requires |responses| == |Batcher.Chunks(symbols, BatchSize)|
  {
    var merged :- MergeBatches(Batches(symbols), responses);
    Allocator.Allocate(Ranking.Rank(merged), budget)
  }

  /** Every symbol of a chunk is a symbol of the list. */
  lemma ChunkSymbolFrom(symbols: seq<string>, n: int, b: nat, s: string)
    requires n > 0
    requires b < |Batcher.Chunks(symbols, n)| && s in Batcher.Chunks(symbols, n)[b]
    ensures s in symbols
  {
    var groups := Batcher.Chunks(symbols, n);
    var j :| 0 <= j < |groups[b]| && groups[b][j] == s;
    Batcher.FlattenContains(groups, b, j);
  }

  /** Splitting every request string recovers the chunks exactly, provided
      no symbol contains the separator. */
  lemma BatchesRoundTrip(symbols: seq<string>, n: int)
    requires n > 0
    requires BatchStrings.AllCommaFree(symbols)
    ensures SplitAll(BatchStrings.BatchStringsOf(Batcher.Chunks(symbols, n))) == Batcher.Chunks(symbols, n)
  {
    var groups := Batcher.Chunks(symbols, n);
    var strings := BatchStrings.BatchStringsOf(groups);
    forall b | 0 <= b < |groups|
      ensures BatchStrings.Split(strings[b]) == groups[b]
    {
      assert BatchStrings.AllCommaFree(groups[b]) by {
        forall s | s in groups[b]
          ensures BatchStrings.CommaFree(s)
        {
          ChunkSymbolFrom(symbols, n, b, s);
        }
      }
      BatchStrings.SplitJoin(groups[b]);
    }
  }

  /** When each response covers its own batch, the merged table has one row
      per symbol, in the order of the symbol list, each still awaiting its
      share count. */
  lemma RowsFollowSymbols(symbols: seq<string>, responses: seq<Response>)
    requires BatchStrings.AllCommaFree(symbols)
    requires |responses| == |Batcher.Chunks(symbols, BatchSize)|
    requires forall b :: 0 <= b < |responses| ==> Covers(responses[b], Batcher.Chunks(symbols, BatchSize)[b])
    ensures MergeBatches(Batches(symbols), responses).Success?
    ensures Tickers(MergeBatches(Batches(symbols), responses).value) == symbols
  {
    BatchesRoundTrip(symbols, BatchSize);
    var groups := Batcher.Chunks(symbols, BatchSize);
    assert SplitAll(Batches(symbols)) == groups;
    assert forall b :: 0 <= b < |groups| ==> BatchStrings.Split(Batches(symbols)[b]) == groups[b];
  }

  /** The gateway quotes a positive price for everything it returns. */
  predicate PositivePrices(responses: seq<Response>) {
    forall b, s :: 0 <= b < |responses| && s in responses[b] ==> responses[b][s].price > 0.0
  }

  /** With a non-negative budget, positive prices and every symbol quoted by
      its own batch's response, the script produces a table of
      `min(50, |symbols|)` rows, best return first. With the share column
      reset, the table is drawn from the merged rows (one per screened
      symbol), and no merged row left out has a higher return than a kept
      one. Each row carries the price and return its batch's response quotes
      for its ticker, and a share count the budget covers exactly. */
  lemma RunProducesTable(symbols: seq<string>, responses: seq<Response>, budget: real)
    requires BatchStrings.AllCommaFree(symbols)
    requires |responses| == |Batcher.Chunks(symbols, BatchSize)|
    requires forall b :: 0 <= b < |responses| ==> Covers(responses[b], Batcher.Chunks(symbols, BatchSize)[b])
    requires PositivePrices(responses)
    requires budget >= 0.0
    ensures MergeBatches(Batches(symbols), responses).Success?
    ensures Run(symbols, responses, budget).Success?
    ensures var t := Run(symbols, responses, budget).value;
      && |t| == Numbers.Min(Ranking.TopCount, |symbols|)
      && Ranking.SortedByReturn(t)
      && (forall i :: 0 <= i < |t| ==> t[i].ticker in symbols)
      && (forall i :: 0 <= i < |t| ==> t[i].shares.Whole? && Allocator.Affordable(t[i].shares.count, budget, t[i].price))
    ensures var t := Run(symbols, responses, budget).value;
      forall i :: 0 <= i < |t| ==> QuotedByItsBatch(t[i], Batches(symbols), responses)
    ensures var merged := MergeBatches(Batches(symbols), responses).value;
      var kept := Allocator.Unallocated(Run(symbols, responses, budget).value);
      && multiset(kept) <= multiset(merged)
      && forall x, y :: x in multiset(kept) && y in multiset(merged) - multiset(kept) ==>
                          x.oneYearReturn >= y.oneYearReturn
  {
    RowsFollowSymbols(symbols, responses);
    var merged := MergeBatches(Batches(symbols), responses).value;
    var ranked := Ranking.Rank(merged);
    RankedRowsQuoted(symbols, responses, merged, ranked);
    Allocator.AllocationBracket(ranked, budget);
    AllocateKeepsOrder(ranked, budget);
    AllocateKeepsQuotes(symbols, responses, ranked, budget);
    Allocator.AllocateOnlySetsShares(ranked, budget);
  }

  /** The kept rows are quoted rows of screened symbols, still awaiting
      their share counts. */
  lemma RankedRowsQuoted(symbols: seq<string>, responses: seq<Response>, merged: seq<Row>, ranked: seq<Row>)
    requires |responses| == |Batcher.Chunks(symbols, BatchSize)|
    requires PositivePrices(responses)
    requires Tickers(merged) == symbols
    requires forall k :: 0 <= k < |merged| ==> merged[k].shares == NotComputed
    requires forall k :: 0 <= k < |merged| ==> QuotedByItsBatch(merged[k], Batches(symbols), responses)
    requires multiset(ranked) <= multiset(merged)
    ensures forall i :: 0 <= i < |ranked| ==> ranked[i].price > 0.0 && ranked[i].ticker in symbols
    ensures forall i :: 0 <= i < |ranked| ==> ranked[i].shares == NotComputed
    ensures forall i :: 0 <= i < |ranked| ==> QuotedByItsBatch(ranked[i], Batches(symbols), responses)
  {
    forall i | 0 <= i < |ranked|
      ensures ranked[i].price > 0.0 && ranked[i].ticker in symbols
      ensures ranked[i].shares == NotComputed
      ensures QuotedByItsBatch(ranked[i], Batches(symbols), responses)
    {
      assert ranked[i] in multiset(ranked);
      var k :| 0 <= k < |merged| && merged[k] == ranked[i];
      assert QuotedByItsBatch(merged[k], Batches(symbols), responses);
      assert Tickers(merged)[k] == merged[k].ticker;
    }
  }

  /** Allocation keeps every row's quote. */
  lemma AllocateKeepsQuotes(symbols: seq<string>, responses: seq<Response>, rows: seq<Row>, budget: real)
    requires |responses| == |Batcher.Chunks(symbols, BatchSize)|
    requires forall i :: 0 <= i < |rows| ==> QuotedByItsBatch(rows[i], Batches(symbols), responses)
    requires Allocator.Allocate(rows, budget).Success?
    ensures var t := Allocator.Allocate(rows, budget).value;
      forall i :: 0 <= i < |t| ==> QuotedByItsBatch(t[i], Batches(symbols), responses)
  {
    var t := Allocator.Allocate(rows, budget).value;
    forall i | 0 <= i < |t|
      ensures QuotedByItsBatch(t[i], Batches(symbols), responses)
    {
      assert QuotedByItsBatch(rows[i], Batches(symbols), responses);
      assert t[i].ticker == rows[i].ticker;
    }
  }

  /** Allocation leaves the ranking order intact. */
  lemma AllocateKeepsOrder(rows: seq<Row>, budget: real)
    requires Ranking.SortedByReturn(rows)
    requires Allocator.Allocate(rows, budget).Success?
    ensures Ranking.SortedByReturn(Allocator.Allocate(rows, budget).value)
  {
    var t := Allocator.Allocate(rows, budget).value;
    forall i, j | 0 <= i < j < |t|
      ensures t[i].oneYearReturn >= t[j].oneYearReturn
    {
      assert rows[i].oneYearReturn >= rows[j].oneYearReturn;
    }
  }

  /** A screened symbol that its batch's response lacks stops the script
      with a missing-quote error, and no table is produced. */
  lemma MissingQuoteStopsRun(symbols: seq<string>, responses: seq<Response>, budget: real, b: nat, s: string)
    requires BatchStrings.AllCommaFree(symbols)
    requires |responses| == |Batcher.Chunks(symbols, BatchSize)|
    requires b < |responses| && s in Batcher.Chunks(symbols, BatchSize)[b] && s !in responses[b]
    ensures Run(symbols, responses, budget).Failure?
    ensures Run(symbols, responses, budget).error.MissingQuote?
  {
    BatchesRoundTrip(symbols, BatchSize);
    var groups := Batcher.Chunks(symbols, BatchSize);
    assert BatchStrings.Split(Batches(symbols)[b]) == SplitAll(Batches(symbols))[b] == groups[b];
    var j :| 0 <= j < |groups[b]| && groups[b][j] == s;
    assert !Covers(responses[b], BatchStrings.Split(Batches(symbols)[b]));
  }

  /** Only a kept row can stop the allocation: the script fails on a zero
      price exactly when one of the top rows is priced at zero. */
  lemma ZeroPriceStopsRun(symbols: seq<string>, responses: seq<Response>, budget: real)
    requires |responses| == |Batcher.Chunks(symbols, BatchSize)|
    requires MergeBatches(Batches(symbols), responses).Success?
    ensures var kept := Ranking.Rank(MergeBatches(Batches(symbols), responses).value);
      Run(symbols, responses, budget).Failure? <==> exists i :: 0 <= i < |kept| && kept[i].price == 0.0
    ensures Run(symbols, responses, budget).Failure? ==> Run(symbols, responses, budget).error.ZeroPrice?
  {
  }
}
