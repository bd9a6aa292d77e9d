/** The price lattice of the Monte Carlo agents: prices 0, 10, ..., 100,
    a price indexed by `price // 10`. */
module Lattice {

  /** Python's `price // 10`. With a positive divisor Dafny's `/` rounds
      down, exactly like Python's floor division. */
  function Bucket(price: int): int
  {
    price / 10
  }

  /** The representative price of bucket `k`, as in `argmax(...) * 10`. */
  function BucketPrice(k: int): int
  {
    k * 10
  }

  predicate OnLattice(price: int)
  {
    price % 10 == 0
  }

  /** `Bucket` and `BucketPrice` form a Galois connection: a bucket
      representative lies at or below a price exactly when its index lies at
      or below the price's bucket. Both round trips follow. */
  lemma BucketGalois(price: int, k: int)
    ensures BucketPrice(k) <= price <==> k <= Bucket(price)
    ensures Bucket(BucketPrice(k)) == k
    ensures BucketPrice(Bucket(price)) <= price < BucketPrice(Bucket(price)) + 10
    ensures OnLattice(price) <==> BucketPrice(Bucket(price)) == price
  {
  }

  /** The number of lattice prices (multiples of 10) in [s, 100]. */
  function LatticeCount(s: int): nat
    decreases 101 - s
  {
    if s > 100 then 0
    else (if OnLattice(s) then 1 else 0) + LatticeCount(s + 1)
  }

  /** Counting the lattice prices in [s, 100] gives `(100 - s) // 10 + 1`. */
  lemma {:induction false} LatticeCountClosedForm(s: int)
    requires 0 <= s <= 100
    ensures LatticeCount(s) == (100 - s) / 10 + 1
    decreases 100 - s
  {
    if s < 100 {
      LatticeCountClosedForm(s + 1);
      if OnLattice(s) {
        assert (100 - s) / 10 == (99 - s) / 10 + 1;
      } else {
        assert (100 - s) / 10 == (99 - s) / 10;
      }
    }
  }
}
