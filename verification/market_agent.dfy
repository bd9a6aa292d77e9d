/** The base market agent of the single-agent Monte Carlo experiment: its
    per-episode record and the two non-learning offer policies used in the
    black-box setting (a random walk toward the reservation price and a draw
    over the whole lattice). */
module MarketAgent {
  import opened Lattice

  /** The Python class an agent was built from. `isinstance(self, Seller)` is
      true only for `SellerAgent`; a Monte Carlo agent is neither a `Buyer`
      nor a `Seller`. */
  datatype AgentClass = PlainAgent | BuyerAgent | SellerAgent | MonteCarloAgent

  /** Per-agent episode record: trajectory of offers and rewards, score, the
      done flag set by the market, and the evaluation-mode flag. */
  datatype Agent = Agent(
    id: string,
    kind: AgentClass,
    reservation: int,
    actions: seq<int>,
    rewards: seq<real>,
    done: bool,
    totalRewards: real,
    eval: bool)

  /** `MarketAgent.__init__`: an empty trajectory, not done, not evaluating. */
  function NewAgent(id: string, kind: AgentClass, reservation: int): (a: Agent)
    ensures a.id == id && a.kind == kind && a.reservation == reservation
    ensures a.actions == [] && a.rewards == []
    ensures !a.done && !a.eval && a.totalRewards == 0.0
  {
    Agent(id, kind, reservation, [], [], false, 0.0, false)
  }

  /** `evaluate`: switches evaluation mode on and changes nothing else. */
  function Evaluate(a: Agent): (a': Agent)
    ensures a'.eval
    ensures a'.(eval := a.eval) == a
  {
    a.(eval := true)
  }

  /** `reset`: a new episode. The trajectory is emptied and `done` cleared;
      identity, reservation price, score and evaluation mode survive. */
  function Reset(a: Agent): (a': Agent)
    ensures a'.actions == [] && a'.rewards == [] && !a'.done
    ensures a'.(actions := a.actions, rewards := a.rewards, done := a.done) == a
  {
    a.(actions := [], rewards := [], done := false)
  }

  /** `MarketAgent.set_done`: a non-learning agent only records that the
      market has finished with it. */
  function SetDone(a: Agent): (a': Agent)
    ensures a'.done
    ensures a'.(done := a.done) == a
  {
    a.(done := true)
  }

  function Min(x: int, y: int): int { if x <= y then x else y }
  function Max(x: int, y: int): int { if x <= y then y else x }

  /** `k` is a possible result of `np.random.random_integers(low, high)`. */
  predicate DrawIn(k: int, low: int, high: int)
  {
    low <= k <= high
  }

  /** The draw `get_new_offer` makes: a bucket between the buckets of the last
      offer and the reservation price. No draw is made when they are equal. */
  predicate NewOfferDraw(last: int, reservation: int, k: int)
  {
    last == reservation ||
    DrawIn(k, Bucket(Min(last, reservation)), Bucket(Max(last, reservation)))
  }

  /** `get_new_offer`: a random walk toward the reservation price on the
      10-lattice. A buyer (`last <= reservation`) draws between its last offer
      and its reservation price, a seller between the reservation price and
      its last offer. */
  function NewOffer(last: int, reservation: int, k: int): (r: int)
    requires NewOfferDraw(last, reservation, k)
    ensures last == reservation ==> r == reservation
    ensures last != reservation ==>
              && OnLattice(r)
              && BucketPrice(Bucket(Min(last, reservation))) <= r
              && r <= BucketPrice(Bucket(Max(last, reservation)))
    ensures last < reservation ==> r <= reservation
    ensures last > reservation ==> r <= last
  {
    if last == reservation then reservation
    else BucketPrice(k)
  }

  /** Every lattice price of the range is a possible outcome of
      `get_new_offer`, so the range in its contract is exact. */
  lemma NewOfferCoversRange(last: int, reservation: int, v: int)
    requires last != reservation && OnLattice(v)
    requires BucketPrice(Bucket(Min(last, reservation))) <= v
    requires v <= BucketPrice(Bucket(Max(last, reservation)))
    ensures exists k :: NewOfferDraw(last, reservation, k) && NewOffer(last, reservation, k) == v
  {
    var k := Bucket(v);
    BucketGalois(v, k);
    BucketGalois(v, Bucket(Min(last, reservation)));
    BucketGalois(Max(last, reservation), k);
    assert NewOfferDraw(last, reservation, k);
    assert NewOffer(last, reservation, k) == v;
  }

  /** The lowest bucket `get_random_offer` can draw for an agent: sellers
      never offer below 20. */
  function RandomOfferLow(kind: AgentClass): int
  {
    if kind == SellerAgent then 2 else 0
  }

  /** `get_random_offer` of the Monte Carlo experiment: a uniform lattice
      price, from [20, 100] for an instance of `Seller` and from [0, 100] for
      every other agent, whatever the last offer was. */
  function RandomOffer(a: Agent, last: int, k: int): (r: int)
    requires DrawIn(k, RandomOfferLow(a.kind), 10)
    ensures OnLattice(r) && r <= 100
    ensures a.kind == SellerAgent ==> 20 <= r
    ensures a.kind != SellerAgent ==> 0 <= r
  {
    BucketPrice(k)
  }

  /** The last offer plays no part in `get_random_offer`: the same draw
      gives the same offer whatever the last offer was. */
  lemma RandomOfferIgnoresLast(a: Agent, last1: int, last2: int, k: int)
    requires DrawIn(k, RandomOfferLow(a.kind), 10)
    ensures RandomOffer(a, last1, k) == RandomOffer(a, last2, k)
  {
  }

  lemma RandomOfferCoversRange(a: Agent, last: int, v: int)
    requires OnLattice(v) && BucketPrice(RandomOfferLow(a.kind)) <= v <= 100
    ensures exists k :: DrawIn(k, RandomOfferLow(a.kind), 10) && RandomOffer(a, last, k) == v
  {
    var k := Bucket(v);
    BucketGalois(v, k);
    assert DrawIn(k, RandomOfferLow(a.kind), 10);
    assert RandomOffer(a, last, k) == v;
  }

  /** `get_random_offer_p`: the probability the behaviour policy assigns to
      any action in any state. */
  function RandomOfferP(action: int, state: int): (p: real)
    ensures 0.0 < p <= 1.0
  {
    1.0 / 11.0
  }

  /** `get_random_offer_p` is the uniform probability over the lattice prices
      a non-seller draws from; for a `Seller`, which draws from only nine
      prices, it is not the probability of its own draw. */
  lemma RandomOfferPIsUniformForBuyers(action: int, state: int)
    ensures RandomOfferP(action, state) * (LatticeCount(0) as real) == 1.0
    ensures LatticeCount(BucketPrice(RandomOfferLow(SellerAgent))) == 9
  {
    LatticeCountClosedForm(0);
    LatticeCountClosedForm(20);
  }

  // ---------------------------------------------------------------------------
  // Repeated get_new_offer: the offers of one agent over an episode
  // ---------------------------------------------------------------------------

  /** `draws` are valid draws for a run of `get_new_offer` calls starting from
      `start`, each call seeing the previous offer. */
  predicate WalkDrawsOk(start: int, reservation: int, draws: seq<int>)
    decreases |draws|
  {
    |draws| == 0 ||
    (NewOfferDraw(start, reservation, draws[0]) &&
     WalkDrawsOk(NewOffer(start, reservation, draws[0]), reservation, draws[1..]))
  }

  /** The offers of such a run, the starting offer first. */
  function Walk(start: int, reservation: int, draws: seq<int>): (w: seq<int>)
    requires WalkDrawsOk(start, reservation, draws)
    ensures |w| == |draws| + 1 && w[0] == start
    decreases |draws|
  {
    if |draws| == 0 then [start]
    else [start] + Walk(NewOffer(start, reservation, draws[0]), reservation, draws[1..])
  }

  /** Where a seller's walk can be: at or above its reservation price, or at
      the lattice price just below it, where the walk stops. */
  predicate SellerSide(v: int, reservation: int)
  {
    v >= reservation || v == BucketPrice(Bucket(reservation))
  }

  /** Where a buyer's walk can be: on the lattice at or below its
      reservation price, or exactly at it. */
  predicate BuyerSide(v: int, reservation: int)
  {
    v == reservation || (OnLattice(v) && v <= reservation)
  }

  lemma SellerStep(v: int, reservation: int, k: int)
    requires SellerSide(v, reservation) && NewOfferDraw(v, reservation, k)
    ensures NewOffer(v, reservation, k) <= v
    ensures SellerSide(NewOffer(v, reservation, k), reservation)
  {
    BucketGalois(reservation, k);
    BucketGalois(v, k);
  }

  lemma BuyerStep(v: int, reservation: int, k: int)
    requires BuyerSide(v, reservation) && NewOfferDraw(v, reservation, k)
    ensures NewOffer(v, reservation, k) >= v
    ensures BuyerSide(NewOffer(v, reservation, k), reservation)
  {
    BucketGalois(reservation, k);
    BucketGalois(v, k);
  }

  predicate NonIncreasing(s: seq<int>)
  {
    forall i, j :: 0 <= i <= j < |s| ==> s[j] <= s[i]
  }

  predicate NonDecreasing(s: seq<int>)
  {
    forall i, j :: 0 <= i <= j < |s| ==> s[i] <= s[j]
  }

  /** A seller that starts at or above its reservation price never raises
      its offer and never goes below the lattice price at or under its
      reservation price. */
  lemma {:induction false} SellerWalkNonIncreasing(start: int, reservation: int, draws: seq<int>)
    requires SellerSide(start, reservation) && WalkDrawsOk(start, reservation, draws)
    ensures NonIncreasing(Walk(start, reservation, draws))
    ensures forall v :: v in Walk(start, reservation, draws) ==> BucketPrice(Bucket(reservation)) <= v
    decreases |draws|
  {
    BucketGalois(reservation, Bucket(reservation));
    if |draws| > 0 {
      var next := NewOffer(start, reservation, draws[0]);
      SellerStep(start, reservation, draws[0]);
      SellerWalkNonIncreasing(next, reservation, draws[1..]);
      var t := Walk(next, reservation, draws[1..]);
      var w := Walk(start, reservation, draws);
      assert w == [start] + t;
      forall i, j | 0 <= i <= j < |w| ensures w[j] <= w[i] {
        if 0 < i {
          assert w[i] == t[i - 1] && w[j] == t[j - 1];
        } else if 0 < j {
          assert w[j] == t[j - 1] && t[j - 1] <= t[0];
        }
      }
    }
  }

  /** A buyer that starts on the lattice at or below its reservation price
      never lowers its offer and never offers above its reservation price. */
  lemma {:induction false} BuyerWalkNonDecreasing(start: int, reservation: int, draws: seq<int>)
    requires BuyerSide(start, reservation) && WalkDrawsOk(start, reservation, draws)
    ensures NonDecreasing(Walk(start, reservation, draws))
    ensures forall v :: v in Walk(start, reservation, draws) ==> v <= reservation
    decreases |draws|
  {
    if |draws| > 0 {
      var next := NewOffer(start, reservation, draws[0]);
      BuyerStep(start, reservation, draws[0]);
      BuyerWalkNonDecreasing(next, reservation, draws[1..]);
      var t := Walk(next, reservation, draws[1..]);
      var w := Walk(start, reservation, draws);
      assert w == [start] + t;
      forall i, j | 0 <= i <= j < |w| ensures w[i] <= w[j] {
        if 0 < i {
          assert w[i] == t[i - 1] && w[j] == t[j - 1];
        } else if 0 < j {
          assert w[j] == t[j - 1] && t[0] <= t[j - 1];
        }
      }
    }
  }

  /** The sellers of the training script have reservation price 20, open
      at 100 and then answer with `get_new_offer`. Taking the state each
      call sees to be the seller's own previous offer, whatever the draws,
      their offers never rise and stay within [20, 100]. What the black-box
      information setting actually reports is not part of this model. */
  lemma TrainingSellersWalkDown(draws: seq<int>)
    requires WalkDrawsOk(100, 20, draws)
    ensures NonIncreasing(Walk(100, 20, draws))
    ensures forall i :: 0 <= i < |Walk(100, 20, draws)| ==> 20 <= Walk(100, 20, draws)[i] <= 100
  {
    SellerWalkNonIncreasing(100, 20, draws);
    var w := Walk(100, 20, draws);
    assert forall i :: 0 <= i < |w| ==> w[i] in w;
  }
}
