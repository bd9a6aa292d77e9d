/** The price grid of the Q-learning sellers: prices 100, 105, ..., 200,
    one row of a 3-column table per price, a price mapped to its row by
    `int((price - 100) / 5)`. Prices are floats in the source and reals
    here; numpy's indexing rules decide which row an index reaches. */
module QRows {
  import opened Outcomes

  /** Python's `int(x)` on a float: truncation toward zero. */
  function Trunc(x: real): (n: int)
    ensures 0.0 <= x ==> 0 <= n && n as real <= x < n as real + 1.0
    ensures x < 0.0 ==> n <= 0 && n as real - 1.0 < x <= n as real
  {
    if x >= 0.0 then x.Floor else -((-x).Floor)
  }

  /** Indexing an axis of length `n` in numpy: an index in [0, n) reaches
      itself, one in [-n, 0) counts from the end, any other raises
      `IndexError`. */
  function PyIndex(i: int, n: nat): (r: Result<nat>)
    ensures r.Ok? <==> -(n as int) <= i < n
    ensures r.Err? ==> r.fault == IndexError
    ensures r.Ok? ==> r.value < n && r.value % n == i % n
  {
    if 0 <= i < n then Ok(i)
    else if -(n as int) <= i < 0 then Ok(i + n)
    else Err(IndexError)
  }

  /** Rows and actions of the Q tables. */
  const Rows: nat := 21
  const Actions: nat := 3

  /** `observation_to_table(offer)`: the number of whole 5-steps from 100 to
      the offer, counted toward 100. Offers from 100 up fall in their row's
      5-wide band, and the row is non-negative exactly above 95. */
  function QRow(offer: real): (r: int)
    ensures offer >= 100.0 ==> QRowPrice(r) <= offer < QRowPrice(r) + 5.0
    ensures r >= 0 <==> offer > 95.0
  {
    Trunc((offer - 100.0) / 5.0)
  }

  /** The price row `k` stands for. */
  function QRowPrice(k: int): real
  {
    100.0 + 5.0 * (k as real)
  }

  /** Rows and prices are inverse on the grid, and every offer in
      [100, 205) falls in the 5-wide band of its row, a row of the table. */
  lemma QRowRoundTrip(offer: real, k: int)
    ensures QRow(QRowPrice(k)) == k
    ensures 100.0 <= offer < 205.0 ==>
              0 <= QRow(offer) < Rows &&
              QRowPrice(QRow(offer)) <= offer < QRowPrice(QRow(offer)) + 5.0
  {
    assert (QRowPrice(k) - 100.0) / 5.0 == k as real;
  }

  /** The offers whose row index numpy accepts: exactly (-10, 205). */
  lemma QRowIndexable(offer: real)
    ensures PyIndex(QRow(offer), Rows).Ok? <==> -10.0 < offer < 205.0
  {
    var x := (offer - 100.0) / 5.0;
    assert offer == 100.0 + 5.0 * x;
  }

  /** Offers a little below 100 still land in row 0, because `int(...)`
      truncates toward zero; flooring would have given row -1. */
  lemma QRowTruncatesTowardZero(offer: real)
    requires 95.0 < offer < 100.0
    ensures QRow(offer) == 0
    ensures ((offer - 100.0) / 5.0).Floor == -1
  {
  }

  /** An offer far below the grid is not rejected: its negative row counts
      from the end of the table. Offer 50 reads the row of price 155. */
  lemma LowOfferWrapsAround()
    ensures QRow(50.0) == -10
    ensures PyIndex(QRow(50.0), Rows) == Ok(11)
    ensures QRowPrice(11) == 155.0
  {
    assert (50.0 - 100.0) / 5.0 == -10.0;
  }

  /** How far action 0, 1 and 2 lower the last offer. */
  function Concession(action: int): (d: real)
    ensures d == 25.0 <==> action == 0
    ensures d == 5.0 <==> action == 1
    ensures d == 0.0 <==> action != 0 && action != 1
  {
    if action == 0 then 25.0 else if action == 1 then 5.0 else 0.0
  }

  function MaxReal(a: real, b: real): (m: real)
    ensures m >= a && m >= b && (m == a || m == b)
  {
    if a >= b then a else b
  }

  function MinReal(a: real, b: real): (m: real)
    ensures m <= a && m <= b && (m == a || m == b)
  {
    if a <= b then a else b
  }

  /** The two `if`s of `table_to_offer` that keep an offer in [lo, hi]. */
  function Clamp(v: real, lo: real, hi: real): (r: real)
    requires lo <= hi
    ensures lo <= r <= hi
    ensures lo <= v <= hi ==> r == v
    ensures v < lo ==> r == lo
    ensures v > hi ==> r == hi
  {
    if v < lo then lo else if v > hi then hi else v
  }

  /** A possible value of `random.uniform(a, b)`: a number between the two
      ends, whichever is larger. */
  predicate UniformDraw(u: real, a: real, b: real)
  {
    MinReal(a, b) <= u <= MaxReal(a, b)
  }

  /** A possible value of `random.randint(0, 2)`: an action. */
  predicate ActionDraw(k: int)
  {
    0 <= k < Actions
  }
}
