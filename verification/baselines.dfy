/** The scripted opponents of the Q-learning examples. Each `update_offer`
    reads the last offer from the state, picks an offer, and writes it under
    its own id into the `next_step` dict. The random draws they make are
    parameters, constrained to the values the draw can return. */
module Baselines {
  import opened Outcomes
  import opened Lattice
  import opened MarketAgent
  import opened QRows

  /** The `next_step` dict of offers, by agent id. */
  type Book = map<string, real>

  /** `next_step.update({id: offer})`. */
  function Post(book: Book, id: string, offer: real): (b: Book)
    ensures b.Keys == book.Keys + {id}
    ensures id in b && b[id] == offer
    ensures forall key :: key in book && key != id ==> b[key] == book[key]
  {
    book[id := offer]
  }

  /** Posting twice under the same id keeps only the second offer. */
  lemma PostOverwrites(book: Book, id: string, x: real, y: real)
    ensures Post(Post(book, id, x), id, y) == Post(book, id, y)
  {
  }

  /** The draw of `AutomaticSeller.update_offer`, made when the last offer
      is above the reservation price: a value of
      `random.uniform(res + (last - res) * 2/3, last)`. */
  predicate SellerDraw(reservation: real, last: real, u: real)
  {
    last != 0.0 && last > reservation ==>
      UniformDraw(u, reservation + (last - reservation) * (2.0 / 3.0), last)
  }

  /** `AutomaticSeller.update_offer`: twice the reservation price to open,
      the reservation price once the last offer is at or below it, and
      otherwise a step down that gives up at most a third of the gap. */
  function SellerOffer(reservation: real, last: real, u: real): (o: real)
    requires SellerDraw(reservation, last, u)
    ensures last == 0.0 ==> o == 2.0 * reservation
    ensures last != 0.0 && last <= reservation ==> o == reservation
    ensures last != 0.0 && last > reservation ==>
              reservation < o <= last && last - o <= (last - reservation) / 3.0
  {
    if last == 0.0 then 2.0 * reservation
    else if last <= reservation then reservation
    else u
  }

  /** The draw of `AutomaticBuyer.update_offer`, made when the last offer is
      below the reservation price: a value of `random.uniform(0, last / 5)`. */
  predicate BuyerDraw(reservation: real, last: real, u: real)
  {
    last != 0.0 && last < reservation ==> UniformDraw(u, 0.0, last * (1.0 / 5.0))
  }

  /** `AutomaticBuyer.update_offer`: half the reservation price to open, the
      reservation price once the last offer is at or above it, and otherwise
      a raise of up to a fifth of the last offer. */
  function BuyerOffer(reservation: real, last: real, u: real): (o: real)
    requires BuyerDraw(reservation, last, u)
    ensures last == 0.0 ==> o == reservation / 2.0
    ensures last != 0.0 && last >= reservation ==> o == reservation
    ensures 0.0 < last < reservation ==> last <= o <= last * (6.0 / 5.0)
  {
    if last == 0.0 then reservation / 2.0
    else if last >= reservation then reservation
    else u + last
  }

  /** The buyer's raise is not capped at its reservation price: a buyer
      with reservation 100 answering 90 may bid 108. */
  lemma BuyerMayBidAboveReservation()
    ensures BuyerDraw(100.0, 90.0, 18.0)
    ensures BuyerOffer(100.0, 90.0, 18.0) == 108.0
  {
  }

  /** The seller, by contrast, never offers below its reservation price
      after opening. */
  lemma SellerNeverUndercuts(reservation: real, last: real, u: real)
    requires SellerDraw(reservation, last, u) && last != 0.0
    ensures SellerOffer(reservation, last, u) >= reservation
  {
  }

  /** Python's `price // 10` on a float price, as the integer it equals:
      the floor of a tenth of the price. */
  function RealBucket(price: real): int
  {
    (price / 10.0).Floor
  }

  /** `RealBucket` and `BucketPrice` form a Galois connection, like
      `Bucket` does on integers, and the two agree on integral prices. */
  lemma RealBucketGalois(price: real, k: int)
    ensures (BucketPrice(k) as real) <= price <==> k <= RealBucket(price)
    ensures (BucketPrice(RealBucket(price)) as real) <= price
  {
    var f := RealBucket(price);
    assert f as real <= price / 10.0 < f as real + 1.0;
    assert price == 10.0 * (price / 10.0);
    if k <= f {
      assert (k as real) <= f as real;
    }
    if (BucketPrice(k) as real) <= price {
      assert (k as real) <= price / 10.0;
    }
  }

  lemma RealBucketOfInt(n: int)
    ensures RealBucket(n as real) == Bucket(n)
  {
    var q, m := n / 10, n % 10;
    assert n == 10 * q + m && 0 <= m < 10;
    assert (n as real) / 10.0 == q as real + (m as real) / 10.0;
  }

  /** An interval-halving agent: its id, its reservation price and whether
      it has yet to make its opening offer. */
  datatype Halving = Halving(id: string, reservation: real, initial: bool)

  function NewHalving(id: string, reservation: real): (ag: Halving)
    ensures ag.initial && ag.id == id && ag.reservation == reservation
  {
    Halving(id, reservation, true)
  }

  /** The draw of `np.random.random_integers(low, high)`, which exists only
      when the range is not empty. */
  predicate RangeDraw(k: int, low: int, high: int)
  {
    low <= high ==> DrawIn(k, low, high)
  }

  /** The bucket a random integer between `low` and `high` lands on, or
      `EmptyRange` when `low > high`. */
  function DrawBucket(low: int, high: int, k: int): (r: Result<int>)
    requires RangeDraw(k, low, high)
    ensures r.Err? <==> low > high
    ensures r.Err? ==> r.fault == EmptyRange
    ensures r.Ok? ==> OnLattice(r.value) && BucketPrice(low) <= r.value <= BucketPrice(high)
  {
    if low > high then Err(EmptyRange) else Ok(BucketPrice(k))
  }

  /** A price on the 10-lattice: an integral multiple of 10. */
  predicate OnRealLattice(x: real)
  {
    x == x.Floor as real && OnLattice(x.Floor)
  }

  /** `IntervallHalbierungBuyer.update_offer`'s choice of offer: 0 to open,
      the reservation price once the last offer equals it, and otherwise a
      lattice price drawn uniformly between the last offer's bucket and the
      reservation price's. A last offer in a higher bucket than the
      reservation price leaves numpy an empty range. */
  function HalvingBuyerOffer(ag: Halving, last: real, k: int): (r: Result<real>)
    requires !ag.initial && last != ag.reservation ==> RangeDraw(k, RealBucket(last), RealBucket(ag.reservation))
    ensures r.Err? <==> !ag.initial && last != ag.reservation && RealBucket(last) > RealBucket(ag.reservation)
    ensures r.Err? ==> r.fault == EmptyRange
    ensures ag.initial ==> r == Ok(0.0)
    ensures !ag.initial && last == ag.reservation ==> r == Ok(ag.reservation)
    ensures !ag.initial && last != ag.reservation && r.Ok? ==>
              && OnRealLattice(r.value)
              && (BucketPrice(RealBucket(last)) as real) <= r.value <= ag.reservation
  {
    if ag.initial then Ok(0.0)
    else if last == ag.reservation then Ok(ag.reservation)
    else
      RealBucketGalois(ag.reservation, RealBucket(ag.reservation));
      match DrawBucket(RealBucket(last), RealBucket(ag.reservation), k)
      case Err(f) => Err(f)
      case Ok(p) => Ok(p as real)
  }

  /** `IntervallHalbierungSeller.update_offer`'s choice of offer: 100 to
      open, the reservation price once the last offer equals it, and
      otherwise a lattice price drawn uniformly between the reservation
      price's bucket and the last offer's. */
  function HalvingSellerOffer(ag: Halving, last: real, k: int): (r: Result<real>)
    requires !ag.initial && last != ag.reservation ==> RangeDraw(k, RealBucket(ag.reservation), RealBucket(last))
    ensures r.Err? <==> !ag.initial && last != ag.reservation && RealBucket(ag.reservation) > RealBucket(last)
    ensures r.Err? ==> r.fault == EmptyRange
    ensures ag.initial ==> r == Ok(100.0)
    ensures !ag.initial && last == ag.reservation ==> r == Ok(ag.reservation)
    ensures !ag.initial && last != ag.reservation && r.Ok? ==>
              && OnRealLattice(r.value)
              && (BucketPrice(RealBucket(ag.reservation)) as real) <= r.value <= last
  {
    if ag.initial then Ok(100.0)
    else if last == ag.reservation then Ok(ag.reservation)
    else
      RealBucketGalois(last, RealBucket(last));
      match DrawBucket(RealBucket(ag.reservation), RealBucket(last), k)
      case Err(f) => Err(f)
      case Ok(p) => Ok(p as real)
  }

  /** One `update_offer` call of an interval-halving agent given its choice
      of offer: the agent leaves its opening state and its own entry of the
      dict becomes the offer; no other entry changes. */
  function HalvingUpdate(ag: Halving, book: Book, offer: Result<real>): (r: Result<(Halving, Book)>)
    ensures r.Err? <==> offer.Err?
    ensures r.Err? ==> r.fault == offer.fault
    ensures r.Ok? ==> !r.value.0.initial && r.value.0 == ag.(initial := false)
    ensures r.Ok? ==> r.value.1.Keys == book.Keys + {ag.id}
    ensures r.Ok? ==> r.value.1[ag.id] == offer.value
    ensures r.Ok? ==> forall key :: key in book && key != ag.id ==> r.value.1[key] == book[key]
  {
    match offer
    case Err(f) => Err(f)
    case Ok(o) => Ok((ag.(initial := false), Post(book, ag.id, o)))
  }

  /** On integral prices, after the opening offer, both interval-halving
      agents draw exactly as `get_new_offer` of the Monte Carlo experiment
      does on their side of the reservation price. */
  lemma HalvingIsTheRandomWalk(id: string, reservation: int, last: int, k: int)
    ensures var ag := Halving(id, reservation as real, false);
            last < reservation && NewOfferDraw(last, reservation, k) ==>
              RangeDraw(k, RealBucket(last as real), RealBucket(ag.reservation)) &&
              HalvingBuyerOffer(ag, last as real, k) == Ok(NewOffer(last, reservation, k) as real)
    ensures var ag := Halving(id, reservation as real, false);
            last > reservation && NewOfferDraw(last, reservation, k) ==>
              RangeDraw(k, RealBucket(ag.reservation), RealBucket(last as real)) &&
              HalvingSellerOffer(ag, last as real, k) == Ok(NewOffer(last, reservation, k) as real)
  {
    RealBucketOfInt(last);
    RealBucketOfInt(reservation);
  }

  /** Every lattice price between the buckets is a possible buyer offer. */
  lemma HalvingBuyerCoversRange(ag: Halving, last: real, p: int)
    requires !ag.initial && last != ag.reservation && OnLattice(p)
    requires BucketPrice(RealBucket(last)) <= p <= BucketPrice(RealBucket(ag.reservation))
    ensures RangeDraw(Bucket(p), RealBucket(last), RealBucket(ag.reservation))
    ensures HalvingBuyerOffer(ag, last, Bucket(p)) == Ok(p as real)
  {
    BucketGalois(p, Bucket(p));
    BucketGalois(p, RealBucket(last));
    BucketGalois(BucketPrice(RealBucket(ag.reservation)), Bucket(p));
    BucketGalois(BucketPrice(RealBucket(ag.reservation)), RealBucket(ag.reservation));
  }

  /** Every lattice price between the buckets is a possible seller offer. */
  lemma HalvingSellerCoversRange(ag: Halving, last: real, p: int)
    requires !ag.initial && last != ag.reservation && OnLattice(p)
    requires BucketPrice(RealBucket(ag.reservation)) <= p <= BucketPrice(RealBucket(last))
    ensures RangeDraw(Bucket(p), RealBucket(ag.reservation), RealBucket(last))
    ensures HalvingSellerOffer(ag, last, Bucket(p)) == Ok(p as real)
  {
    BucketGalois(p, Bucket(p));
    BucketGalois(p, RealBucket(ag.reservation));
    BucketGalois(BucketPrice(RealBucket(last)), Bucket(p));
    BucketGalois(BucketPrice(RealBucket(last)), RealBucket(last));
  }

  /** The name promises bisection, but the draw is uniform over the whole
      range: a buyer with reservation 100 whose last offer was 0 may jump
      straight to 100 rather than to the midpoint 50. */
  lemma HalvingDoesNotBisect()
    ensures HalvingBuyerOffer(Halving("Buyer", 100.0, false), 0.0, 10) == Ok(100.0)
  {
    RealBucketOfInt(0);
    RealBucketOfInt(100);
  }

  /** A fractional last offer is floored to its bucket first: a seller with
      reservation 100 answering 152.5 draws from 100, 110, ..., 150, and the
      draw 15 gives 150, below the last offer. */
  lemma HalvingFloorsFractionalOffers()
    ensures RealBucket(152.5) == 15
    ensures HalvingSellerOffer(Halving("Seller", 100.0, false), 152.5, 15) == Ok(150.0)
  {
    assert 152.5 / 10.0 == 15.25;
    RealBucketOfInt(100);
  }

  /** `SpecialRandomSeller.update_offer`: a value of `random.uniform(120, 200)`. */
  function SpecialRandomSellerOffer(u: real): (o: real)
    requires UniformDraw(u, 120.0, 200.0)
    ensures 120.0 <= o <= 200.0
  {
    u
  }

  /** `SpecialRandomBuyer.update_offer`: a value of `random.uniform(100, 180)`. */
  function SpecialRandomBuyerOffer(u: real): (o: real)
    requires UniformDraw(u, 100.0, 180.0)
    ensures 100.0 <= o <= 180.0
  {
    u
  }

  /** The two special random agents can meet: every price in [120, 180] is
      a possible offer of both. */
  lemma SpecialRandomRangesOverlap(p: real)
    requires 120.0 <= p <= 180.0
    ensures UniformDraw(p, 120.0, 200.0) && UniformDraw(p, 100.0, 180.0)
    ensures SpecialRandomSellerOffer(p) == SpecialRandomBuyerOffer(p) == p
  {
  }

  /** Once the last offer equals the reservation price, every automatic and
      interval-halving agent answers with its reservation price. The
      special random agents do not: they draw whatever the last offer was. */
  lemma OpponentsHoldAtReservation(res: real, u: real, ag: Halving, k: int)
    requires !ag.initial
    ensures SellerDraw(res, res, u) && SellerOffer(res, res, u) == res
    ensures BuyerDraw(res, res, u) && BuyerOffer(res, res, u) == res
    ensures HalvingBuyerOffer(ag, ag.reservation, k) == Ok(ag.reservation)
    ensures HalvingSellerOffer(ag, ag.reservation, k) == Ok(ag.reservation)
  {
  }
}
