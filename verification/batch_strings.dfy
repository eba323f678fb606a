/** The request strings of the batch loop: each chunk of symbols is joined
    with `','` into one string (`','.join(group)`), and the per-symbol loop
    later recovers the symbols with `stock_string.split(',')`. */
module BatchStrings {

  const Separator: char := ','

  predicate CommaFree(symbol: string) {
    Separator !in symbol
  }

  predicate AllCommaFree(symbols: seq<string>) {
    forall s :: s in symbols ==> CommaFree(s)
  }

  /** Python's `','.join(parts)`: the parts with one separator between
      neighbours; the empty list joins to the empty string. */
  function Join(parts: seq<string>): string {
    if |parts| == 0 then ""
    else if |parts| == 1 then parts[0]
    else parts[0] + [Separator] + Join(parts[1..])
  }

  /** Python's `s.split(',')`: the maximal separator-free pieces of `s`, in
      order. There is always at least one piece: `"".split(',')` is `[""]`. */
  function Split(s: string): (r: seq<string>)
    ensures |r| >= 1
    ensures AllCommaFree(r)
  {
    if |s| == 0 then [""]
    else
      var rest := Split(s[1..]);
      if s[0] == Separator then [""] + rest
      else
        assert rest[0] in rest && forall p :: p in rest[1..] ==> p in rest;
        [[s[0]] + rest[0]] + rest[1..]
  }

  /** The request strings built from the chunks, one per chunk, in order
      (the `stock_strings` loop). */
  function BatchStringsOf(groups: seq<seq<string>>): seq<string> {
    seq(|groups|, i requires 0 <= i < |groups| => Join(groups[i]))
  }

  /** Splitting a separator-free prefix followed by a separator peels off
      exactly that prefix. */
  lemma {:induction false} SplitAfterWord(w: string, t: string)
    requires CommaFree(w)
    ensures Split(w + [Separator] + t) == [w] + Split(t)
  {
    if |w| == 0 {
      assert w + [Separator] + t == [Separator] + t;
      assert ([Separator] + t)[1..] == t;
    } else {
      var s := w + [Separator] + t;
      assert s[1..] == w[1..] + [Separator] + t;
      SplitAfterWord(w[1..], t);
      assert [s[0]] + w[1..] == w;
    }
  }

  /** A separator-free string splits into itself alone. */
  lemma {:induction false} SplitWord(w: string)
    requires CommaFree(w)
    ensures Split(w) == [w]
  {
    if |w| > 0 {
      SplitWord(w[1..]);
      assert [w[0]] + w[1..] == w;
    }
  }

  /** Joining a chunk and splitting the request string gives the chunk back,
      provided the chunk is non-empty and no symbol contains the separator. */
  lemma {:induction false} SplitJoin(parts: seq<string>)
    requires |parts| >= 1
    requires AllCommaFree(parts)
    ensures Split(Join(parts)) == parts
  {
    if |parts| == 1 {
      SplitWord(parts[0]);
    } else {
      SplitJoin(parts[1..]);
      SplitAfterWord(parts[0], Join(parts[1..]));
      assert [parts[0]] + parts[1..] == parts;
    }
  }

  /** The round trip holds exactly when the chunk is non-empty and no symbol
      contains the separator: an empty chunk comes back as `[""]`, and a
      symbol holding a comma comes back in pieces. */
  lemma SplitJoinExactly(parts: seq<string>)
    ensures Split(Join(parts)) == parts <==> |parts| >= 1 && AllCommaFree(parts)
  {
    if |parts| >= 1 && AllCommaFree(parts) {
      SplitJoin(parts);
    }
  }

  /** Splitting then joining gives back any string at all. */
  lemma {:induction false} JoinSplit(s: string)
    ensures Join(Split(s)) == s
  {
    if |s| > 0 {
      var rest := Split(s[1..]);
      JoinSplit(s[1..]);
      if s[0] == Separator {
        assert ([""] + rest)[1..] == rest;
      } else {
        var head := [s[0]] + rest[0];
        var parts := [head] + rest[1..];
        assert parts[1..] == rest[1..];
        if |rest| == 1 {
        } else {
          assert Join(rest) == rest[0] + [Separator] + Join(rest[1..]);
        }
        assert [s[0]] + s[1..] == s;
      }
    }
  }
}
