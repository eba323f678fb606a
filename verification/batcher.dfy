/** The batcher: `chunks(lst, n)` splits the symbol universe into consecutive
    slices of at most `n` symbols, one slice per batch request. */
module Batcher {
  import opened Numbers

  /** Concatenation of a sequence of chunks, in order. */
  function Flatten<T>(chunks: seq<seq<T>>): seq<T> {
    if |chunks| == 0 then [] else chunks[0] + Flatten(chunks[1..])
  }

  /** Where chunk `b` starts in the concatenation: the total length of the
      chunks before it. */
  function Offset<T>(chunks: seq<seq<T>>, b: nat): nat
    requires b <= |chunks|
  {
    |Flatten(chunks[..b])|
  }

  /** Past the first chunk, offsets shift by that chunk's length. */
  lemma OffsetCons<T>(chunks: seq<seq<T>>, b: nat)
    requires 0 < b <= |chunks|
    ensures Offset(chunks, b) == |chunks[0]| + Offset(chunks[1..], b - 1)
  {
    assert chunks[..b][0] == chunks[0];
    assert chunks[..b][1..] == chunks[1..][..b - 1];
  }

  /** Python's `lst[i:j]` for `0 <= i`: the upper bound is clamped to the length. */
  function Slice<T>(lst: seq<T>, i: nat, j: int): seq<T>
    requires i <= |lst| && i <= j
  {
    lst[i..Min(|lst|, j)]
  }

  /** The generator `chunks(lst, n)`, collected into a list. A step of zero
      makes `range` raise, so callers must not pass it; a negative step makes
      `range(0, len(lst), n)` empty, so no chunk is produced. */
  function Chunks<T>(lst: seq<T>, n: int): (r: seq<seq<T>>)
    requires n != 0
    ensures n > 0 ==> Flatten(r) == lst
    ensures n > 0 ==> forall k :: 0 <= k < |r| ==> 0 < |r[k]| <= n
    ensures forall k :: 0 <= k < |r| - 1 ==> |r[k]| == n
    ensures n > 0 ==> (|r| == 0 <==> |lst| == 0)
    ensures n < 0 ==> r == []
    decreases |lst|
  {
    if n < 0 || |lst| == 0 then []
    else if |lst| <= n then [lst]
    else [lst[..n]] + Chunks(lst[n..], n)
  }

  /** The number of chunks is the ceiling of `|lst| / n`: there are enough
      of them to hold every symbol, and one fewer would not be. */
  lemma ChunkCount<T>(lst: seq<T>, n: int)
    requires n > 0
    ensures var q := |Chunks(lst, n)|;
      (q - 1) * n < |lst| <= q * n || q == |lst| == 0
    ensures |Chunks(lst, n)| == (|lst| + n - 1) / n
  {
    var r := Chunks(lst, n);
    var q := |r|;
    if q == 0 {
      DivUnique(n - 1, n, 0);
    } else {
      FlattenLength(r, n);
      var m := |r[q - 1]|;
      assert |lst| == (q - 1) * n + m && 0 < m <= n;
      assert (q - 1) * n + n == q * n;
      DivUnique(|lst| + n - 1, n, q);
    }
  }

  /** Integer division and remainder are determined by the bracket
      `x == q * n + m` with `0 <= m < n`. */
  lemma DivMod(x: int, n: int, q: int, m: int)
    requires n > 0 && 0 <= m < n
    requires x == q * n + m
    ensures x / n == q && x % n == m
  {
    DivUnique(x, n, q);
    assert x == n * (x / n) + x % n;
  }

  lemma DivUnique(x: int, n: int, q: int)
    requires n > 0
    requires q * n <= x < q * n + n
    ensures x / n == q
  {
    var d := x / n;
    assert d * n <= x < d * n + n;
    assert (d - q) * n == d * n - q * n;
    assert (d - q) * n < n && (q - d) * n < n;
    MulLessThanFactor(d - q, n);
    MulLessThanFactor(q - d, n);
  }

  lemma MulLessThanFactor(a: int, n: int)
    requires n > 0 && a * n < n
    ensures a <= 0
  {
    if a >= 1 {
      assert a * n == (a - 1) * n + n;
      IntMulNonneg(a - 1, n);
    }
  }

  lemma IntMulNonneg(a: int, n: int)
    requires a >= 0 && n >= 0
    ensures a * n >= 0
  {
  }

  /** The last chunk holds what remains after the full chunks: `|lst| mod n`
      symbols, or `n` when `n` divides `|lst|`. */
  lemma LastChunkLength<T>(lst: seq<T>, n: int)
    requires n > 0
    requires |lst| > 0
    ensures var r := Chunks(lst, n);
      |r[|r| - 1]| == (if |lst| % n == 0 then n else |lst| % n)
  {
    var r := Chunks(lst, n);
    var q := |r|;
    var m := |r[q - 1]|;
    FlattenLength(r, n);
    assert |lst| == (q - 1) * n + m;
    if m == n {
      assert (q - 1) * n + n == q * n;
      DivMod(|lst|, n, q, 0);
    } else {
      DivMod(|lst|, n, q - 1, m);
    }
  }

  /** The length of a flattened sequence, given the lengths of its pieces
      (all but the last of length `n`). */
  lemma {:induction false} FlattenLength<T>(r: seq<seq<T>>, n: int)
    requires |r| > 0
    requires forall k :: 0 <= k < |r| - 1 ==> |r[k]| == n
    ensures |Flatten(r)| == (|r| - 1) * n + |r[|r| - 1]|
  {
    if |r| > 1 {
      FlattenLength(r[1..], n);
    }
  }

  /** The source's loop read literally: `for i in range(0, len(lst), n):
      yield lst[i:i + n]`, from range value `i` on. */
  function RangeChunks<T>(lst: seq<T>, n: int, i: nat): seq<seq<T>>
    requires n > 0
    decreases |lst| - i
  {
    if i >= |lst| then [] else [Slice(lst, i, i + n)] + RangeChunks(lst, n, i + n)
  }

  /** The recursive batcher yields exactly the slices of the range loop. */
  lemma ChunksAreRangeSlices<T>(lst: seq<T>, n: int)
    requires n > 0
    ensures Chunks(lst, n) == RangeChunks(lst, n, 0)
  {
    ChunksFrom(lst, n, 0);
    assert lst[0..] == lst;
  }

  /** One step of the batcher on a non-empty list. */
  lemma ChunksUnfold<T>(tail: seq<T>, n: int)
    requires n > 0 && |tail| > 0
    ensures |tail| <= n ==> Chunks(tail, n) == [tail]
    ensures |tail| > n ==> Chunks(tail, n) == [tail[..n]] + Chunks(tail[n..], n)
  {
  }

  lemma {:induction false} ChunksFrom<T>(lst: seq<T>, n: int, i: nat)
    requires n > 0 && i <= |lst|
    ensures Chunks(lst[i..], n) == RangeChunks(lst, n, i)
    decreases |lst| - i
  {
    if i < |lst| {
      var tail := lst[i..];
      var later := RangeChunks(lst, n, i + n);
      assert RangeChunks(lst, n, i) == [Slice(lst, i, i + n)] + later;
      ChunksUnfold(tail, n);
      if |tail| <= n {
        assert later == [];
        assert Slice(lst, i, i + n) == tail;
      } else {
        ChunksFrom(lst, n, i + n);
        assert Slice(lst, i, i + n) == tail[..n];
        assert tail[n..] == lst[i + n..];
      }
    }
  }

  /** Every element of every chunk is an element of the concatenation. */
  lemma {:induction false} FlattenContains<T>(chunks: seq<seq<T>>, b: nat, j: nat)
    requires b < |chunks| && j < |chunks[b]|
    ensures chunks[b][j] in Flatten(chunks)
  {
    assert Flatten(chunks) == chunks[0] + Flatten(chunks[1..]);
    if b == 0 {
      assert Flatten(chunks)[j] == chunks[0][j];
    } else {
      FlattenContains(chunks[1..], b - 1, j);
    }
  }
}
