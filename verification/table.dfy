/** The rows of `final_dataframe` and their construction from the batch
    responses of the market-data gateway. */
module Table {
  import opened Results
  import BatchStrings
  import Batcher

  /** The 'Number of Shares to Buy' cell: the `'N/A'` placeholder until the
      allocation pass writes a whole number into it. */
  datatype Shares = NotComputed | Whole(count: int)

  /** One dataframe row: 'Ticker', 'Stock Price', 'One-Year Price Return',
      'Number of Shares to Buy'. */
  datatype Row = Row(ticker: string, price: real, oneYearReturn: real, shares: Shares)

  /** The fields the gateway returns for one symbol: `price` and
      `stats.year1ChangePercent`. */
  datatype Quote = Quote(price: real, year1ChangePercent: real)

  /** One batch response: symbol to quote. */
  type Response = map<string, Quote>

  function Tickers(rows: seq<Row>): (r: seq<string>)
    ensures |r| == |rows|
    ensures forall i :: 0 <= i < |rows| ==> r[i] == rows[i].ticker
  {
    seq(|rows|, i requires 0 <= i < |rows| => rows[i].ticker)
  }

  /** The row appended for `symbol`, looked up in its batch's response. */
  function RowFor(symbol: string, data: Response): Row
    requires symbol in data
  {
    Row(symbol, data[symbol].price, data[symbol].year1ChangePercent, NotComputed)
  }

  predicate Covers(data: Response, symbols: seq<string>) {
    forall i :: 0 <= i < |symbols| ==> symbols[i] in data
  }

  /** The inner loop over the symbols of one batch: one row per symbol in
      order; the first symbol the response lacks stops the run. */
  function RowsFor(symbols: seq<string>, data: Response): (r: Result<seq<Row>>)
    ensures r.Success? <==> Covers(data, symbols)
    ensures r.Success? ==> |r.value| == |symbols|
    ensures r.Success? ==> forall i :: 0 <= i < |symbols| ==> r.value[i] == RowFor(symbols[i], data)
    ensures r.Failure? ==>
      exists j :: 0 <= j < |symbols| && FirstMissing(data, symbols, j) && r.error == MissingQuote(symbols[j])
  {
    if |symbols| == 0 then Success([])
    else if symbols[0] !in data then
      assert FirstMissing(data, symbols, 0);
      Failure(MissingQuote(symbols[0]))
    else
      var rest := RowsFor(symbols[1..], data);
      if rest.Failure? then
        var j :| 0 <= j < |symbols[1..]| && FirstMissing(data, symbols[1..], j)
          && rest.error == MissingQuote(symbols[1..][j]);
        assert symbols[..j + 1] == [symbols[0]] + symbols[1..][..j];
        assert FirstMissing(data, symbols, j + 1);
        rest
      else Success([RowFor(symbols[0], data)] + rest.value)
  }

  /** `symbols[j]` is the first symbol the response lacks. */
  predicate FirstMissing(data: Response, symbols: seq<string>, j: nat)
    requires j < |symbols|
  {
    symbols[j] !in data && Covers(data, symbols[..j])
  }

  /** The symbols of every request string, batch by batch. */
  function SplitAll(batches: seq<string>): seq<seq<string>> {
    seq(|batches|, b requires 0 <= b < |batches| => BatchStrings.Split(batches[b]))
  }

  /** The outer loop over the request strings: each string is split back into
      symbols, looked up in the response of its own batch, and the rows are
      appended in batch order. */
  function MergeBatches(batches: seq<string>, responses: seq<Response>): (r: Result<seq<Row>>)
    requires |responses| == |batches|
    ensures r.Success? <==>
      forall b :: 0 <= b < |batches| ==> Covers(responses[b], BatchStrings.Split(batches[b]))
    ensures r.Success? ==> Tickers(r.value) == Batcher.Flatten(SplitAll(batches))
    ensures r.Success? ==> forall k :: 0 <= k < |r.value| ==> r.value[k].shares == NotComputed
    ensures r.Success? ==> forall b, i :: 0 <= b < |batches| && 0 <= i < |BatchStrings.Split(batches[b])| ==>
      RowOfBatch(r.value, batches, responses, b, i)
    ensures r.Success? ==> forall k :: 0 <= k < |r.value| ==> QuotedByItsBatch(r.value[k], batches, responses)
    ensures r.Failure? ==> r.error.MissingQuote? && MissingFromItsBatch(batches, responses, r.error.symbol)
  {
    if |batches| == 0 then Success([])
    else
      var symbols := BatchStrings.Split(batches[0]);
      var first := RowsFor(symbols, responses[0]);
      if first.Failure? then Failure(first.error)
      else
        var rest := MergeBatches(batches[1..], responses[1..]);
        assert SplitAll(batches) == [symbols] + SplitAll(batches[1..]);
        if rest.Failure? then
          rest
        else
          assert Tickers(first.value) == symbols;
          TickersAppend(first.value, rest.value);
          var rows := first.value + rest.value;
          ProvenanceOfMerge(batches, responses, first.value, rest.value);
          PositionsOfMerge(batches, responses, first.value, rest.value);
          Success(rows)
  }

  /** The rows of the first batch followed by the merged rows of the later
      batches all come from their own batch's response. */
  lemma ProvenanceOfMerge(batches: seq<string>, responses: seq<Response>, first: seq<Row>, rest: seq<Row>)
    requires |responses| == |batches| > 0
    requires |first| == |BatchStrings.Split(batches[0])|
    requires forall i :: 0 <= i < |first| ==>
      BatchStrings.Split(batches[0])[i] in responses[0]
      && first[i] == RowFor(BatchStrings.Split(batches[0])[i], responses[0])
    requires forall k :: 0 <= k < |rest| ==> QuotedByItsBatch(rest[k], batches[1..], responses[1..])
    ensures forall k :: 0 <= k < |first + rest| ==> QuotedByItsBatch((first + rest)[k], batches, responses)
  {
    var symbols := BatchStrings.Split(batches[0]);
    var rows := first + rest;
    forall k | 0 <= k < |rows|
      ensures QuotedByItsBatch(rows[k], batches, responses)
    {
      if k < |first| {
        assert rows[k] == RowFor(symbols[k], responses[0]);
        assert rows[k].ticker == symbols[k];
      } else {
        var row := rest[k - |first|];
        assert rows[k] == row;
        var b :| 0 <= b < |batches| - 1 && row.ticker in BatchStrings.Split(batches[1..][b])
          && row.ticker in responses[1..][b]
          && row.price == responses[1..][b][row.ticker].price
          && row.oneYearReturn == responses[1..][b][row.ticker].year1ChangePercent;
        assert batches[b + 1] == batches[1..][b] && responses[b + 1] == responses[1..][b];
      }
    }
  }

  /** `row` is for a symbol of some batch, and its price and return are the
      ones that batch's own response quotes for it. */
  predicate QuotedByItsBatch(row: Row, batches: seq<string>, responses: seq<Response>)
    requires |responses| == |batches|
  {
    exists b :: 0 <= b < |batches| && row.ticker in BatchStrings.Split(batches[b])
      && row.ticker in responses[b]
      && row.price == responses[b][row.ticker].price
      && row.oneYearReturn == responses[b][row.ticker].year1ChangePercent
  }

  /** The row at the position of symbol `i` of batch `b` in the merged table
      is built from that symbol's quote in batch `b`'s own response. */
  predicate RowOfBatch(rows: seq<Row>, batches: seq<string>, responses: seq<Response>, b: nat, i: nat)
    requires b < |batches| == |responses| && i < |BatchStrings.Split(batches[b])|
  {
    var symbols := BatchStrings.Split(batches[b]);
    var k := Batcher.Offset(SplitAll(batches), b) + i;
    symbols[i] in responses[b] && k < |rows| && rows[k] == RowFor(symbols[i], responses[b])
  }

  /** Positions in the merged table: the first batch's rows come first, then
      every later batch's rows shifted by their number. */
  lemma PositionsOfMerge(batches: seq<string>, responses: seq<Response>, first: seq<Row>, rest: seq<Row>)
    requires |responses| == |batches| > 0
    requires |first| == |BatchStrings.Split(batches[0])|
    requires forall i :: 0 <= i < |first| ==>
      BatchStrings.Split(batches[0])[i] in responses[0]
      && first[i] == RowFor(BatchStrings.Split(batches[0])[i], responses[0])
    requires forall b, i :: 0 <= b < |batches| - 1 && 0 <= i < |BatchStrings.Split(batches[1..][b])| ==>
      RowOfBatch(rest, batches[1..], responses[1..], b, i)
    ensures forall b, i :: 0 <= b < |batches| && 0 <= i < |BatchStrings.Split(batches[b])| ==>
      RowOfBatch(first + rest, batches, responses, b, i)
  {
    var rows := first + rest;
    assert SplitAll(batches)[1..] == SplitAll(batches[1..]);
    forall b, i | 0 <= b < |batches| && 0 <= i < |BatchStrings.Split(batches[b])|
      ensures RowOfBatch(rows, batches, responses, b, i)
    {
      if b == 0 {
        assert SplitAll(batches)[..0] == [];
        assert rows[i] == first[i];
      } else {
        Batcher.OffsetCons(SplitAll(batches), b);
        assert batches[1..][b - 1] == batches[b] && responses[1..][b - 1] == responses[b];
        assert RowOfBatch(rest, batches[1..], responses[1..], b - 1, i);
        var k := Batcher.Offset(SplitAll(batches[1..]), b - 1) + i;
        assert rows[|first| + k] == rest[k];
      }
    }
  }

  /** `symbol` is requested by some batch whose response lacks it. */
  predicate MissingFromItsBatch(batches: seq<string>, responses: seq<Response>, symbol: string)
    requires |responses| == |batches|
  {
    exists b :: 0 <= b < |batches| && symbol in BatchStrings.Split(batches[b]) && symbol !in responses[b]
  }

  lemma TickersAppend(a: seq<Row>, b: seq<Row>)
    ensures Tickers(a + b) == Tickers(a) + Tickers(b)
  {
  }
}
