# Momentum screen pipeline, modelled in Dafny

The script `main.py` screens a universe of ticker symbols for one-year price
momentum. It splits the symbols into batches of 100, sends one request per
batch (the symbols joined with commas), splits each request string back
into its symbols and looks every one of them up in that batch's response to
build a row (ticker, price, one-year return, and a share count that starts
as `'N/A'`), sorts the rows by one-year return with the best first,
keeps the first 50, and finally sizes each kept position against the whole
portfolio budget as `floor(budget / price)` whole shares.

This project models that pipeline as pure Dafny functions over sequences and
proves what it computes:

- `batcher.dfy` (`Batcher`): the `chunks(lst, n)` generator, with the
  round trip (concatenating the chunks gives the list back), chunk bounds,
  the chunk count `ceil(|lst| / n)`, the length of the last chunk, and the
  agreement of the recursive definition with a literal reading of the
  source's `range(0, len(lst), n)` loop.
- `batch_strings.dfy` (`BatchStrings`): `','.join(...)` and `split(',')` with
  Python's semantics (`"".split(',') == [""]`), and exactly when the
  join/split round trip gives the chunk back.
- `table.dfy` (`Table`): rows, quotes and the construction of the merged
  table from the batch responses, including the `KeyError` path.
- `ranking.dfy` (`Ranking`): the descending sort by one-year return and the
  truncation to 50 rows.
- `allocator.dfy` (`Allocator`): `math.floor(position_size / price)` per row,
  including the `ZeroDivisionError` path.
- `screen.dfy` (`Screen`): the whole pipeline and its end-to-end properties.
- `results.dfy` (`Results`): the `Result` type and the two error kinds.

Inputs that the script obtains by I/O are parameters: the symbol list, one
gateway response per batch (a map from symbol to price and one-year return),
and the budget as a real number. Prices, returns and the budget are exact
reals; floating point is not modelled.

Behaviour the model keeps from the code:

- A symbol that is absent from its batch's response stops the run: the
  lookup `data[stock]` (main.py:57-58) raises `KeyError`. The model returns
  `Failure(MissingQuote(symbol))`.
- Only a price of exactly zero stops the allocation (`ZeroDivisionError`
  at main.py:73); a negative price is divided like any other and gives a negative share count.
  `Allocator.SharesFor` states both sign cases.
- Rows with equal returns have no promised order (pandas' default sort is
  not stable). The model sorts with one concrete order, but every contract
  about the ranking holds for any descending order, and
  `Ranking.RankReturnsIndependentOfTies` shows that the return column of the
  kept rows is the same for every such order.
- Joining a chunk with commas and splitting the result gives the chunk back
  exactly when the chunk is non-empty and no symbol contains a comma; an
  empty symbol survives the round trip.

## Model

| member | source | states |
|---|---|---|
| Batcher.Chunks | main.py:30-33 | concatenating the chunks gives the list back; every chunk has between 1 and `n` symbols; every chunk but the last has exactly `n`; there are no chunks exactly when the list is empty; a negative step yields no chunks |
| Batcher.ChunkCount | main.py:32 | the number of chunks is `ceil(len(lst) / n)`: `(count - 1) * n < len(lst) <= count * n` and `count == (len(lst) + n - 1) / n` |
| Batcher.LastChunkLength | main.py:32-33 | the last chunk holds `len(lst) mod n` symbols, or `n` when `n` divides `len(lst)` |
| Batcher.ChunksAreRangeSlices | main.py:32-33 | the batcher yields exactly the slices `lst[i:i + n]` of the literal loop over `i in range(0, len(lst), n)`, with Python's clamping of the slice end |
| BatchStrings.Split | main.py:53 | `split(',')` always yields at least one piece and no piece contains a comma |
| BatchStrings.SplitJoin | main.py:43-53 | splitting the joined request string of a non-empty, comma-free chunk gives the chunk back |
| BatchStrings.SplitJoinExactly | main.py:43-53 | the join/split round trip holds if and only if the chunk is non-empty and no symbol contains a comma |
| BatchStrings.JoinSplit | main.py:44-53 | joining the pieces of any string split on commas gives the string back |
| Table.RowsFor | main.py:53-62 | for one batch: success exactly when the response has every symbol; then one row per symbol in order with the quoted price and return and `'N/A'` shares; otherwise the error names the first missing symbol |
| Table.MergeBatches | main.py:49-62 | success exactly when every batch's response covers its symbols; the tickers are the split symbols batch by batch; the row at the position of symbol `i` of batch `b` is built from that symbol's quote in batch `b`'s own response, so a ticker repeated across batches carries each batch's own quote; every row is `'N/A'`; a failure names a symbol its batch's response lacks |
| Screen.BatchesRoundTrip | main.py:41-53 | splitting every request string built from the chunks recovers the chunks, when no symbol contains a comma |
| Screen.RowsFollowSymbols | main.py:41-62 | when each response covers its batch, the merged table has exactly one row per symbol, in the order of the symbol list |
| Screen.MissingQuoteStopsRun | main.py:53-58 | a screened symbol missing from its batch's response stops the run with a missing-quote error |
| Ranking.SortByReturn | main.py:64 | the sorted rows are a permutation of the input with non-increasing returns |
| Ranking.Rank | main.py:64-65 | the table is sorted by return descending, has `min(50, n)` rows, is a sub-multiset of the merged rows, and every kept row's return is at least every dropped row's return |
| Ranking.SortedPermutationsAgree | main.py:64 | any two descending orders of the same rows have the same return column |
| Ranking.RankReturnsIndependentOfTies | main.py:64-65 | the returns of the kept rows do not depend on how the sort orders ties |
| Allocator.SharesFor | main.py:73 | the share count is the floor of `budget / price`; for a positive price `n * price <= budget < (n + 1) * price`, reversed for a negative price; non-negative for a non-negative budget and positive price |
| Allocator.SharesForUnique | main.py:73 | any whole number bracketed by the budget at a positive price is the computed share count |
| Allocator.Allocate | main.py:71-73 | success exactly when no row is priced at zero; then each row keeps ticker, price, return and position and gets the floor of `budget / price` shares; otherwise the error names the first zero-priced row |
| Allocator.AllocationBracket | main.py:71-73 | with a non-negative budget and positive prices, every row gets a non-negative count that the full budget covers and one more share would exceed |
| Allocator.AllocateOnlySetsShares | main.py:71-73 | allocation changes nothing but the share column: resetting it to `'N/A'` gives back the ranked rows |
| Screen.RunProducesTable | main.py:41-73 | with comma-free symbols, covering responses, positive prices and a non-negative budget, the run yields `min(50, len(symbols))` rows sorted by return; with the share column reset they are a sub-multiset of the merged rows (one per screened symbol) and no merged row left out has a higher return than a kept one; each row carries its batch's quoted price and return for its ticker and a share count the budget covers exactly |
| Screen.ZeroPriceStopsRun | main.py:64-73 | once the rows are merged, the run fails, always with a zero-price error, exactly when a kept row is priced at zero |

## Left out

- `get_stock_data` (main.py:11-15) and the batch HTTP request (main.py:50-52): network I/O. Each batch response is an input map from symbol to price and one-year return.
- `portfolio_input` (main.py:18-25): console I/O through a global variable, with one unvalidated re-prompt. The budget is a real-number parameter; parsing it with `float` is not modelled.
- Loading the symbol list from CSV (main.py:37), the `tabulate` printout (main.py:76) and the spreadsheet export and formatting (main.py:80-139): file and presentation I/O.
- A response entry that lacks the nested `price` or `stats` fields, and a null `year1ChangePercent` (a `NaN` return that pandas sorts last): every quote is assumed to carry both numbers.
- Floating-point rounding in `float(...)` and in the division: the model uses exact reals.
- The order among rows with equal returns: the source makes no promise, so no contract depends on it.
- A chunk step of zero, which makes `range` raise: `Batcher.Chunks` requires a non-zero step; the script always passes 100.
- Table.MergeBatches: on failure it states that the error names some symbol missing from its batch's response, not that it is the first such symbol across batches (`Table.RowsFor` states the first one within a batch).
