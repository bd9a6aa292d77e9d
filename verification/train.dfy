/** The learning half of the training script: the greedy policy, the two
    behaviour distributions, and the loop that runs the off-policy Monte
    Carlo sweep over every buyer's episode into one shared `Q` and `C`
    (discount 0.9, greedy policy reading row `S_t` directly). */
module Train {
  import opened Outcomes
  import opened Lattice
  import opened Tables
  import opened MarketAgent
  import opened OffPolicyMc

  /** `policy(S_t, Q)`: ten times the first maximising index of row `S_t`. */
  function Policy(s: int, q: Table): (r: int)
    requires IsTable(q) && 0 <= s < 11
    ensures OnLattice(r) && 0 <= r <= 100
    ensures forall j :: 0 <= j < |q[s]| ==> q[s][j] <= q[s][Bucket(r)]
  {
    GreedyActionIsFirstMax(q, DirectRow, s);
    GreedyAction(q, DirectRow, s)
  }

  lemma PolicyIsGreedy(s: int, q: Table)
    requires IsTable(q) && 0 <= s < 11
    ensures var r := Policy(s, q);
            && OnLattice(r) && 0 <= r <= 100
            && IsFirstMax(q[s], Bucket(r))
  {
    GreedyActionIsFirstMax(q, DirectRow, s);
  }

  /** `behavior_p(A, S) = 1 / ((100 - S) // 10 + 1)`. The action is ignored.
      For S in 101..110 the denominator is 0 and Python raises
      `ZeroDivisionError`; above 110 the "probability" is negative. */
  function BehaviorP(a: int, s: int): (r: Result<real>)
    ensures r.Err? <==> 100 < s <= 110
    ensures r.Err? ==> r.fault == ZeroDivision
    ensures 0 <= s <= 100 ==> r.Ok? && 1.0 / 11.0 <= r.value <= 1.0
    ensures s > 110 ==> r.Ok? && r.value < 0.0
  {
    var d := (100 - s) / 10 + 1;
    if d == 0 then Err(ZeroDivision) else Ok(Reciprocal(d))
  }

  /** `1 / d` for a non-zero integer `d`. */
  function Reciprocal(d: int): (r: real)
    requires d != 0
    ensures r * (d as real) == 1.0
    ensures 1 <= d <= 11 ==> 1.0 / 11.0 <= r <= 1.0
    ensures d < 0 ==> r < 0.0
  {
    if 1 <= d <= 11 then ReciprocalBetween(d); 1.0 / (d as real)
    else 1.0 / (d as real)
  }

  lemma ReciprocalBetween(d: int)
    requires 1 <= d <= 11
    ensures 1.0 / 11.0 <= 1.0 / (d as real) <= 1.0
  {
    var x := 1.0 / (d as real);
    assert x * (d as real) == 1.0;
    NonNegProduct(x, 11.0 - d as real);
    NonNegProduct(x, d as real - 1.0);
  }

  /** On the prices 0..100, `behavior_p` is the uniform probability over the
      lattice prices from S up to 100. */
  lemma {:induction false} BehaviorPIsUniformAbove(a: int, s: int)
    requires 0 <= s <= 100
    ensures BehaviorP(a, s).Ok?
    ensures BehaviorP(a, s).value * (LatticeCount(s) as real) == 1.0
  {
    LatticeCountClosedForm(s);
  }

  /** `behavior_random_p`: 1/11 for every action and state. */
  function BehaviorRandomP(a: int, s: int): (p: real)
    ensures 0.0 < p <= 1.0
  {
    1.0 / 11.0
  }

  /** The behaviour probability the learning loop divides by is the one the
      sweep assumes, and the same as `get_random_offer_p`. */
  lemma BehaviorRandomPIsSweepProbability(a: int, s: int)
    ensures BehaviorRandomP(a, s) == BehaviourP == RandomOfferP(a, s)
    ensures WeightFactor == 1.0 / BehaviorRandomP(a, s)
  {
  }

  /** The discount of the training script. */
  const TrainGamma: real := 0.9

  const TrainConfig: Config := Config(TrainGamma, DirectRow)

  /** With `gamma = 0.9` the return used at step t is
      sum over k > t of 0.9^(k - t - 1) * rewards[k]. */
  lemma TrainReturnIsDiscountedSum(rewards: seq<real>, t: nat)
    requires t < |rewards|
    ensures Return(rewards, t + 1, TrainGamma) == Discounted(rewards, t + 1, 0, TrainGamma)
  {
    ReturnClosedForm(rewards, t + 1, TrainGamma);
  }

  /** A buyer's recorded episode. */
  datatype Episode = Episode(actions: seq<int>, rewards: seq<real>)

  predicate AllReadable(buyers: seq<Episode>)
  {
    forall i :: 0 <= i < |buyers| ==> Readable(buyers[i].actions, buyers[i].rewards)
  }

  /** The shared tables after the buyers from index `i` on have been learned
      from, in order, starting from `q` and `c`. */
  function LearnFrom(buyers: seq<Episode>, i: nat, q: Table, c: Table): (r: (Table, Table))
    requires i <= |buyers| && AllReadable(buyers)
    requires IsTable(q) && IsTable(c) && NonNegative(c)
    ensures IsTable(r.0) && IsTable(r.1) && NonNegative(r.1)
    decreases |buyers| - i
  {
    if i == |buyers| then (q, c)
    else
      var b := buyers[i];
      var st := Prefix(b.actions, b.rewards, State(q, c, 1.0), Steps(b.rewards), TrainConfig);
      LearnFrom(buyers, i + 1, st.q, st.c)
  }

  /** The cells the sweeps of the first `i` buyers may visit. */
  function TouchedBy(buyers: seq<Episode>, i: nat): set<(int, int)>
    requires i <= |buyers| && AllReadable(buyers)
  {
    if i == 0 then {}
    else TouchedBy(buyers, i - 1) + Touched(buyers[i - 1].actions, buyers[i - 1].rewards, 1)
  }

  lemma SameOutsideCompose(t0: Table, t1: Table, t2: Table, a: set<(int, int)>, b: set<(int, int)>)
    requires IsTable(t0) && IsTable(t1) && IsTable(t2)
    requires SameOutside(t0, t1, a) && SameOutside(t1, t2, b)
    ensures SameOutside(t0, t2, a + b)
  {
  }

  lemma NoneDecreasedCompose(t0: Table, t1: Table, t2: Table)
    requires IsTable(t0) && IsTable(t1) && IsTable(t2)
    requires NoneDecreased(t0, t1) && NoneDecreased(t1, t2)
    ensures NoneDecreased(t0, t2)
  {
  }

  /** The learning loop of the training script: for each buyer in turn, the
      backward sweep over its episode updates the shared `Q` and `C`. Only
      the cells some buyer's sweep visits change, no weight decreases, and
      buyers with at most two rewards change nothing. */
  method LearnFromBuyers(buyers: seq<Episode>, q: Table, c: Table) returns (q': Table, c': Table)
    requires AllReadable(buyers) && IsTable(q) && IsTable(c) && NonNegative(c)
    ensures (q', c') == LearnFrom(buyers, 0, q, c)
    ensures IsTable(q') && IsTable(c') && NonNegative(c')
    ensures SameOutside(q, q', TouchedBy(buyers, |buyers|))
    ensures SameOutside(c, c', TouchedBy(buyers, |buyers|))
    ensures NoneDecreased(c, c')
    ensures (forall i :: 0 <= i < |buyers| ==> |buyers[i].rewards| <= 2) ==> q' == q && c' == c
  {
    q', c' := q, c;
    var i := 0;
    while i < |buyers|
      invariant 0 <= i <= |buyers|
      invariant IsTable(q') && IsTable(c') && NonNegative(c')
      invariant LearnFrom(buyers, i, q', c') == LearnFrom(buyers, 0, q, c)
      invariant SameOutside(q, q', TouchedBy(buyers, i))
      invariant SameOutside(c, c', TouchedBy(buyers, i))
      invariant NoneDecreased(c, c')
      invariant (forall j :: 0 <= j < i ==> |buyers[j].rewards| <= 2) ==> q' == q && c' == c
    {
      var b := buyers[i];
      var q2, c2 := Sweep(b.actions, b.rewards, q', c', TrainConfig);
      SameOutsideCompose(q, q', q2, TouchedBy(buyers, i), Touched(b.actions, b.rewards, 1));
      SameOutsideCompose(c, c', c2, TouchedBy(buyers, i), Touched(b.actions, b.rewards, 1));
      NoneDecreasedCompose(c, c', c2);
      q', c' := q2, c2;
      i := i + 1;
    }
  }
}
