/** The allocation pass: every kept row is sized against the whole budget,
    `math.floor(position_size / price)` shares, independently of the other
    rows. */
module Allocator {
  import opened Results
  import opened Table

  /** `n` is the floor of `budget / price`: the greatest whole number not
      above the quotient. */
  predicate IsFloorOfQuotient(n: int, budget: real, price: real)
    requires price != 0.0
  {
    n as real <= budget / price < n as real + 1.0
  }

  /** Whole shares bought with `budget` at `price`. For a positive price the
      budget covers `n` shares and not `n + 1`; for a negative price (which
      the division does not reject) the inequalities turn round. */
  function SharesFor(budget: real, price: real): (n: int)
    requires price != 0.0
    ensures IsFloorOfQuotient(n, budget, price)
    ensures price > 0.0 ==> n as real * price <= budget < (n + 1) as real * price
    ensures price < 0.0 ==> n as real * price >= budget > (n + 1) as real * price
    ensures price > 0.0 && budget >= 0.0 ==> n >= 0
  {
    FloorTimesPrice(budget, price);
    (budget / price).Floor
  }

  lemma FloorTimesPrice(budget: real, price: real)
    requires price != 0.0
    ensures var n := (budget / price).Floor;
      && (price > 0.0 ==> n as real * price <= budget < (n + 1) as real * price)
      && (price < 0.0 ==> n as real * price >= budget > (n + 1) as real * price)
      && (price > 0.0 && budget >= 0.0 ==> n >= 0)
  {
    var q := budget / price;
    var k := q.Floor;
    assert (k + 1) as real == k as real + 1.0;
    ScaleBracket(k as real, q, price, budget);
    if price > 0.0 && budget >= 0.0 {
      assert q >= 0.0;
    }
  }

  /** Multiplying `lo <= q < lo + 1` by a non-zero factor `p`, where `q * p == b`. */
  lemma ScaleBracket(lo: real, q: real, p: real, b: real)
    requires lo <= q < lo + 1.0 && p != 0.0 && q * p == b
    ensures p > 0.0 ==> lo * p <= b < (lo + 1.0) * p
    ensures p < 0.0 ==> lo * p >= b > (lo + 1.0) * p
  {
    Distributes(q, lo, p);
    Distributes(lo + 1.0, q, p);
    if p > 0.0 {
      RealMulNonneg(q - lo, p);
      MulPositive(lo + 1.0 - q, p);
    } else {
      RealMulNonneg(q - lo, -p);
      MulPositive(lo + 1.0 - q, -p);
      Distributes(0.0, q - lo, p);
      Distributes(0.0, lo + 1.0 - q, p);
    }
  }

  lemma RealMulNonneg(a: real, b: real)
    requires a >= 0.0 && b >= 0.0
    ensures a * b >= 0.0
  {
  }

  lemma MulPositive(a: real, b: real)
    requires a > 0.0 && b > 0.0
    ensures a * b > 0.0
  {
  }

  lemma Distributes(a: real, c: real, p: real)
    ensures (a - c) * p == a * p - c * p
  {
  }

  /** The sign of a product with a positive factor is the sign of the other factor. */
  lemma PositiveFactor(a: real, p: real)
    requires p > 0.0
    ensures a * p >= 0.0 ==> a >= 0.0
    ensures a * p > 0.0 ==> a > 0.0
  {
    if a < 0.0 {
      MulPositive(-a, p);
      Distributes(0.0, a, p);
    } else if a == 0.0 {
      assert a * p == 0.0;
    }
  }

  /** Two whole numbers that both bracket a quotient are the same number. */
  lemma FloorUnique(n: int, m: int, q: real)
    requires n as real <= q < n as real + 1.0
    requires m as real <= q < m as real + 1.0
    ensures n == m
  {
  }

  /** The share count is the only whole number the budget covers at this
      price but not once more: the floor bracket alone determines it. */
  lemma SharesForUnique(budget: real, price: real, m: int)
    requires price > 0.0
    requires m as real * price <= budget < (m + 1) as real * price
    ensures SharesFor(budget, price) == m
  {
    var q := budget / price;
    assert q * price == budget;
    assert (m + 1) as real == m as real + 1.0;
    Distributes(q, m as real, price);
    Distributes(m as real + 1.0, q, price);
    PositiveFactor(q - m as real, price);
    PositiveFactor(m as real + 1.0 - q, price);
    FloorUnique(SharesFor(budget, price), m, q);
  }

  /** `rows[j]` is the first row priced at zero. */
  predicate FirstZeroPrice(rows: seq<Row>, j: nat)
    requires j < |rows|
  {
    rows[j].price == 0.0 && forall i :: 0 <= i < j ==> rows[i].price != 0.0
  }

  /** The loop over the kept rows. Every row gets `SharesFor(budget, price)`
      whole shares and keeps its ticker, price and return; the first zero
      price stops the run (the division raises), so no table comes out. */
  function Allocate(rows: seq<Row>, budget: real): (r: Result<seq<Row>>)
    ensures r.Success? <==> forall i :: 0 <= i < |rows| ==> rows[i].price != 0.0
    ensures r.Success? ==> |r.value| == |rows|
    ensures r.Success? ==> forall i :: 0 <= i < |rows| ==>
      && r.value[i].ticker == rows[i].ticker
      && r.value[i].price == rows[i].price
      && r.value[i].oneYearReturn == rows[i].oneYearReturn
      && r.value[i].shares.Whole?
      && IsFloorOfQuotient(r.value[i].shares.count, budget, rows[i].price)
    ensures r.Failure? ==> exists j :: 0 <= j < |rows| && FirstZeroPrice(rows, j) && r.error == ZeroPrice(rows[j].ticker)
  {
    if |rows| == 0 then Success([])
    else if rows[0].price == 0.0 then
      assert FirstZeroPrice(rows, 0);
      Failure(ZeroPrice(rows[0].ticker))
    else
      var rest := Allocate(rows[1..], budget);
      if rest.Failure? then
        var j :| 0 <= j < |rows[1..]| && FirstZeroPrice(rows[1..], j) && rest.error == ZeroPrice(rows[1..][j].ticker);
        assert FirstZeroPrice(rows, j + 1);
        rest
      else
        var row := rows[0].(shares := Whole(SharesFor(budget, rows[0].price)));
        Success([row] + rest.value)
  }

  /** The table with every share count reset to `'N/A'`. */
  function Unallocated(rows: seq<Row>): (r: seq<Row>)
    ensures |r| == |rows|
    ensures forall i :: 0 <= i < |rows| ==> r[i] == rows[i].(shares := NotComputed)
  {
    seq(|rows|, i requires 0 <= i < |rows| => rows[i].(shares := NotComputed))
  }

  /** Allocation only fills in the share column: resetting it gives back the
      ranked rows, whose counts were all `'N/A'`. */
  lemma AllocateOnlySetsShares(rows: seq<Row>, budget: real)
    requires forall i :: 0 <= i < |rows| ==> rows[i].shares == NotComputed
    requires Allocate(rows, budget).Success?
    ensures Unallocated(Allocate(rows, budget).value) == rows
  {
    var t := Allocate(rows, budget).value;
    assert forall i :: 0 <= i < |rows| ==> Unallocated(t)[i] == rows[i];
  }

  /** For a positive price and a non-negative budget every allocated count is
      non-negative and the budget buys exactly that many shares: one more
      would overspend it. */
  lemma AllocationBracket(rows: seq<Row>, budget: real)
    requires budget >= 0.0
    requires forall i :: 0 <= i < |rows| ==> rows[i].price > 0.0
    ensures Allocate(rows, budget).Success?
    ensures var t := Allocate(rows, budget).value;
      forall i :: 0 <= i < |t| ==> t[i].shares.Whole? && Affordable(t[i].shares.count, budget, t[i].price)
  {
    var t := Allocate(rows, budget).value;
    forall i | 0 <= i < |t|
      ensures t[i].shares.Whole? && Affordable(t[i].shares.count, budget, t[i].price)
    {
      var p := rows[i].price;
      var n := t[i].shares.count;
      FloorUnique(n, SharesFor(budget, p), budget / p);
    }
  }

  /** `n` whole shares at `price` fit in `budget`, and `n + 1` do not. */
  predicate Affordable(n: int, budget: real, price: real) {
    n >= 0 && n as real * price <= budget < (n + 1) as real * price
  }
}
