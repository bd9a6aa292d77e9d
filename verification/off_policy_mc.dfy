/** Off-policy every-visit Monte Carlo control with weighted importance
    sampling over the 11 x 11 (state, action) lattice table: the backward
    sweep shared by `MonteCarlo_MarketAgent.set_done` and the learning loop
    of the training script.

    The sweep is modelled twice: `Sweep` is the loop as written, with a
    running return `G` and weight `W`; `Prefix` is a recursive definition of
    the state after the first `k` steps that takes each step's return from
    its closed form `Return`. `Sweep` is proved to compute `Prefix`, and the
    frame and monotonicity facts are proved about `Prefix`. */
module OffPolicyMc {
  import opened Lattice
  import opened Tables

  /** The learned tables are 11 x 11: states and actions are lattice buckets
      0..10 of the prices 0..100. */
  predicate IsTable(t: Table)
  {
    Shaped(t, 11, 11)
  }

  predicate InTable(x: int, y: int)
  {
    0 <= x < 11 && 0 <= y < 11
  }

  /** Which row of `Q` the greedy policy reads for the bucketed state `S_t`.
      `target_policy` divides its argument by 10 again (it expects a price),
      the training script's `policy` reads row `S_t` itself. */
  datatype TargetRule = RebucketedRow | DirectRow

  function TargetRow(rule: TargetRule, s: int): int
  {
    match rule
    case RebucketedRow => s / 10
    case DirectRow => s
  }

  /** The greedy policy: 10 times the first maximising index of the row, a
      lattice PRICE. The sweep compares it with the action BUCKET `A_t`. */
  function GreedyAction(q: Table, rule: TargetRule, s: int): int
    requires IsTable(q) && 0 <= TargetRow(rule, s) < 11
  {
    BucketPrice(Argmax(q[TargetRow(rule, s)]))
  }

  /** The greedy action is a lattice price in 0..100 whose bucket is the first
      maximising column of the row it reads. */
  lemma GreedyActionIsFirstMax(q: Table, rule: TargetRule, s: int)
    requires IsTable(q) && 0 <= TargetRow(rule, s) < 11
    ensures var r := GreedyAction(q, rule, s);
            && OnLattice(r) && 0 <= r <= 100
            && IsFirstMax(q[TargetRow(rule, s)], Bucket(r))
  {
    var k := Argmax(q[TargetRow(rule, s)]);
    ArgmaxIsFirstMax(q[TargetRow(rule, s)]);
    BucketGalois(BucketPrice(k), k);
  }

  /** Discount factor and target rule of a sweep. */
  datatype Config = Config(gamma: real, rule: TargetRule)

  /** The behaviour policy's probability of the action taken is 1/11 in
      both sweeps (`get_random_offer_p`, `behavior_random_p`), so a match
      multiplies `W` by 1 / (1/11) = 11. */
  const BehaviourP: real := 1.0 / 11.0
  const WeightFactor: real := 11.0

  lemma WeightFactorInvertsBehaviourP()
    ensures WeightFactor == 1.0 / BehaviourP
  {
  }

  /** What the sweep reads: it looks at `actions[1 .. len(rewards) - 1]` and
      uses each as a row or column index, so those offers must bucket into
      0..10. With at most two rewards it reads nothing. */
  predicate Readable(actions: seq<int>, rewards: seq<real>)
  {
    |rewards| <= 2 ||
    (|actions| >= |rewards| &&
     forall i :: 1 <= i < |rewards| ==> 0 <= actions[i] < 110)
  }

  /** The discounted return from index `i`:
      rewards[i] + gamma * rewards[i+1] + gamma^2 * rewards[i+2] + ... */
  function Return(rewards: seq<real>, i: nat, gamma: real): real
    decreases |rewards| - i
  {
    if i >= |rewards| then 0.0
    else rewards[i] + gamma * Return(rewards, i + 1, gamma)
  }

  /** The loop's update `G = gamma * G + rewards[i]` turns the return from
      `i + 1` into the return from `i`. */
  lemma ReturnAccumulates(rewards: seq<real>, i: nat, gamma: real, g: real)
    requires i < |rewards| && g == Return(rewards, i + 1, gamma)
    ensures gamma * g + rewards[i] == Return(rewards, i, gamma)
  {
  }

  function Pow(x: real, n: nat): real
  {
    if n == 0 then 1.0 else x * Pow(x, n - 1)
  }

  /** sum over k >= i of gamma^(e + k - i) * rewards[k], each term weighted
      by its own power of gamma, summed from the left. */
  function Discounted(rewards: seq<real>, i: nat, e: nat, gamma: real): real
    decreases |rewards| - i
  {
    if i >= |rewards| then 0.0
    else Pow(gamma, e) * rewards[i] + Discounted(rewards, i + 1, e + 1, gamma)
  }

  /** gamma^e times the return from `i` is the discounted sum from `i` with
      weights starting at gamma^e. */
  lemma {:induction false} ScaledReturn(rewards: seq<real>, i: nat, e: nat, gamma: real)
    ensures Pow(gamma, e) * Return(rewards, i, gamma) == Discounted(rewards, i, e, gamma)
    decreases |rewards| - i
  {
    if i < |rewards| {
      ScaledReturn(rewards, i + 1, e + 1, gamma);
      ScaledStep(rewards, i, e, gamma);
    }
  }

  /** The inductive step of `ScaledReturn`. */
  lemma ScaledStep(rewards: seq<real>, i: nat, e: nat, gamma: real)
    requires i < |rewards|
    requires Pow(gamma, e + 1) * Return(rewards, i + 1, gamma) == Discounted(rewards, i + 1, e + 1, gamma)
    ensures Pow(gamma, e) * Return(rewards, i, gamma) == Discounted(rewards, i, e, gamma)
  {
    Distribute(Pow(gamma, e), rewards[i], gamma, Return(rewards, i + 1, gamma), Pow(gamma, e + 1),
               Return(rewards, i, gamma), Discounted(rewards, i, e, gamma),
               Discounted(rewards, i + 1, e + 1, gamma));
  }

  /** The regrouping behind `ScaledStep`, on plain reals. */
  lemma Distribute(p: real, r: real, g: real, rest: real, p1: real, ret: real, d: real, d1: real)
    requires p1 == g * p
    requires ret == r + g * rest
    requires p1 * rest == d1
    requires d == p * r + d1
    ensures p * ret == d
  {
    calc {
      p * ret;
      p * r + p * (g * rest);
      p * r + (g * p) * rest;
    }
  }

  /** The accumulated return is the closed-form discounted sum
      sum over k >= i of gamma^(k - i) * rewards[k]. */
  lemma ReturnClosedForm(rewards: seq<real>, i: nat, gamma: real)
    ensures Return(rewards, i, gamma) == Discounted(rewards, i, 0, gamma)
  {
    ScaledReturn(rewards, i, 0, gamma);
    assert Pow(gamma, 0) == 1.0;
  }

  function Sum(s: seq<real>): real
  {
    if |s| == 0 then 0.0 else s[0] + Sum(s[1..])
  }

  /** Undiscounted (gamma = 1), the return is the plain sum of the rewards
      from index `i` on. */
  lemma {:induction false} ReturnUndiscounted(rewards: seq<real>, i: nat)
    requires i <= |rewards|
    ensures Return(rewards, i, 1.0) == Sum(rewards[i..])
    decreases |rewards| - i
  {
    if i < |rewards| {
      ReturnUndiscounted(rewards, i + 1);
      assert rewards[i..][1..] == rewards[i + 1..];
    }
  }

  /** One cell of the weighted importance-sampling update:
      C += W, then Q += (W / C) * (G - Q). */
  datatype Cell = Cell(q: real, c: real)

  function WeightedUpdate(q: real, c: real, g: real, w: real): (r: Cell)
    requires c >= 0.0 && w >= 1.0
    ensures r.c >= c && r.c >= 1.0
  {
    var c' := c + w;
    Cell(q + (w / c') * (g - q), c')
  }

  /** The new value lies between the old value and the return, equals the
      return when the weight was 0, and stays put exactly when it already
      equalled the return. */
  lemma WeightedUpdateMoves(q: real, c: real, g: real, w: real)
    requires c >= 0.0 && w >= 1.0
    ensures var r := WeightedUpdate(q, c, g, w);
            && Between(r.q, q, g)
            && (c == 0.0 ==> r.q == g)
            && (r.q == q <==> q == g)
  {
    var lam := w / (c + w);
    assert 0.0 < lam <= 1.0;
    ConvexStep(q, g, lam);
  }

  /** Sweep state: both tables and the importance-sampling weight. */
  datatype State = State(q: Table, c: Table, w: real)

  predicate Inv(st: State)
  {
    IsTable(st.q) && IsTable(st.c) && NonNegative(st.c) && st.w >= 1.0
  }

  /** One iteration of the sweep at state bucket `s`, action bucket `a`, with
      return `g`: update the cell, then multiply `W` by 1 / (1/11) if the
      greedy policy of the UPDATED table equals `a`, and leave `W` alone
      otherwise (the loop continues rather than stopping). */
  function Visit(st: State, s: int, a: int, g: real, cfg: Config): (r: State)
    requires Inv(st) && InTable(s, a)
    ensures Inv(r)
  {
    var cell := WeightedUpdate(st.q[s][a], st.c[s][a], g, st.w);
    var q' := Set2(st.q, s, a, cell.q);
    var c' := Set2(st.c, s, a, cell.c);
    var w' := if a != GreedyAction(q', cfg.rule, s) then st.w else st.w * 11.0;
    State(q', c', w')
  }

  /** One visit changes only cell (s, a): its weight grows to at least 1, its
      value moves toward the return `g` (reaching it when the weight was 0),
      and `W` is kept on a mismatch and multiplied by 11 on a match. */
  lemma VisitChangesOneCell(st: State, s: int, a: int, g: real, cfg: Config)
    requires Inv(st) && InTable(s, a)
    ensures var r := Visit(st, s, a, g, cfg);
            && r.w >= st.w
            && OnlyCellChanged(st.q, r.q, (s, a)) && OnlyCellChanged(st.c, r.c, (s, a))
            && r.c[s][a] >= st.c[s][a] && r.c[s][a] >= 1.0
            && Between(r.q[s][a], st.q[s][a], g)
            && (st.c[s][a] == 0.0 ==> r.q[s][a] == g)
            && (a != GreedyAction(r.q, cfg.rule, s) ==> r.w == st.w)
            && (a == GreedyAction(r.q, cfg.rule, s) ==> r.w == st.w * WeightFactor)
  {
    var r := Visit(st, s, a, g, cfg);
    WeightedUpdateMoves(st.q[s][a], st.c[s][a], g, st.w);
  }

  /** The greedy action is a price (a multiple of 10) while `a` is a bucket
      in 0..10, so the comparison can only succeed for the buckets 0 and 10:
      for every other action `W` is left unchanged. */
  lemma MatchOnlyAtZeroOrTen(q: Table, rule: TargetRule, s: int, a: int)
    requires IsTable(q) && 0 <= TargetRow(rule, s) < 11 && 0 <= a < 11
    ensures a == GreedyAction(q, rule, s) ==> a == 0 || a == 10
    ensures a == 0 ==> (a == GreedyAction(q, rule, s) <==> Argmax(q[TargetRow(rule, s)]) == 0)
    ensures a == 10 ==> (a == GreedyAction(q, rule, s) <==> Argmax(q[TargetRow(rule, s)]) == 1)
  {
  }

  /** The sweep state after its first `k` steps, which process
      t = len(rewards) - 2 down to t = len(rewards) - 1 - k, each step using
      the closed-form return of the rewards after it. */
  function Prefix(actions: seq<int>, rewards: seq<real>, st: State, k: nat, cfg: Config): (r: State)
    requires Inv(st) && Readable(actions, rewards)
    requires k == 0 || k <= |rewards| - 2
    ensures Inv(r)
  {
    if k == 0 then st
    else
      var t := |rewards| - 1 - k;
      Visit(Prefix(actions, rewards, st, k - 1, cfg), Bucket(actions[t]), Bucket(actions[t + 1]),
            Return(rewards, t + 1, cfg.gamma), cfg)
  }

  /** One more loop iteration turns the state after `k` steps into the state
      after `k + 1`. */
  lemma PrefixAdvance(actions: seq<int>, rewards: seq<real>, start: State, k: nat, st: State, g: real, cfg: Config)
    requires Inv(start) && Readable(actions, rewards)
    requires k + 1 <= |rewards| - 2
    requires st == Prefix(actions, rewards, start, k, cfg)
    requires g == Return(rewards, |rewards| - 1 - k, cfg.gamma)
    ensures Inv(st)
    ensures InTable(Bucket(actions[|rewards| - 2 - k]), Bucket(actions[|rewards| - 1 - k]))
    ensures Visit(st, Bucket(actions[|rewards| - 2 - k]), Bucket(actions[|rewards| - 1 - k]), g, cfg)
            == Prefix(actions, rewards, start, k + 1, cfg)
  {
  }

  /** The number of steps of the whole sweep: t runs from len(rewards) - 2
      down to 1, and never reaches 0. */
  function Steps(rewards: seq<real>): nat
  {
    if |rewards| <= 2 then 0 else |rewards| - 2
  }

  /** The cell (S_t, A_t) = (actions[t] // 10, actions[t+1] // 10). */
  function CellAt(actions: seq<int>, t: int): (int, int)
    requires 0 <= t < |actions| - 1
  {
    (Bucket(actions[t]), Bucket(actions[t + 1]))
  }

  /** The cells visited for t from `lo` to len(rewards) - 2. */
  function Touched(actions: seq<int>, rewards: seq<real>, lo: int): set<(int, int)>
    requires Readable(actions, rewards)
  {
    set t | 1 <= t && lo <= t <= |rewards| - 2 :: CellAt(actions, t)
  }

  /** `t` differs from `t0` only in `cells`. */
  ghost predicate SameOutside(t0: Table, t: Table, cells: set<(int, int)>)
    requires IsTable(t0) && IsTable(t)
  {
    forall x, y :: InTable(x, y) && (x, y) !in cells ==> t[x][y] == t0[x][y]
  }

  ghost predicate OnlyCellChanged(before: Table, after: Table, cell: (int, int))
    requires IsTable(before) && IsTable(after)
  {
    SameOutside(before, after, {cell})
  }

  ghost predicate NoneDecreased(before: Table, after: Table)
    requires IsTable(before) && IsTable(after)
  {
    forall x, y :: InTable(x, y) ==> before[x][y] <= after[x][y]
  }

  ghost predicate AllAtLeastOne(t: Table, cells: set<(int, int)>)
    requires IsTable(t)
  {
    forall x, y :: InTable(x, y) && (x, y) in cells ==> t[x][y] >= 1.0
  }

  lemma TouchedExtends(actions: seq<int>, rewards: seq<real>, t: int)
    requires Readable(actions, rewards) && 1 <= t <= |rewards| - 2
    ensures Touched(actions, rewards, t) == Touched(actions, rewards, t + 1) + {CellAt(actions, t)}
  {
  }

  /** Changing one more cell widens the set of changed cells by that cell. */
  lemma FrameExtends(t0: Table, before: Table, after: Table, cells: set<(int, int)>, cell: (int, int))
    requires IsTable(t0) && IsTable(before) && IsTable(after)
    requires SameOutside(t0, before, cells) && OnlyCellChanged(before, after, cell)
    ensures SameOutside(t0, after, cells + {cell})
  {
  }

  /** Raising one more cell to at least 1 keeps `C` monotone and extends the
      cells known to hold at least 1. */
  lemma GrowthExtends(c0: Table, before: Table, after: Table, cells: set<(int, int)>, cell: (int, int))
    requires IsTable(c0) && IsTable(before) && IsTable(after) && InTable(cell.0, cell.1)
    requires NoneDecreased(c0, before) && AllAtLeastOne(before, cells)
    requires OnlyCellChanged(before, after, cell)
    requires after[cell.0][cell.1] >= before[cell.0][cell.1] && after[cell.0][cell.1] >= 1.0
    ensures NoneDecreased(c0, after) && AllAtLeastOne(after, cells + {cell})
  {
  }

  /** After the first `k` steps: `W` has not dropped below its start, only
      the cells those steps visited differ from the start in `Q` and `C`, no
      weight in `C` has decreased, and every visited cell holds weight at
      least 1. */
  lemma {:induction false} PrefixEffect(actions: seq<int>, rewards: seq<real>, st: State, k: nat, cfg: Config, r: State)
    requires Inv(st) && Readable(actions, rewards)
    requires k == 0 || k <= |rewards| - 2
    requires r == Prefix(actions, rewards, st, k, cfg)
    ensures Inv(r) && r.w >= st.w
    ensures SameOutside(st.q, r.q, Touched(actions, rewards, |rewards| - 1 - k))
    ensures SameOutside(st.c, r.c, Touched(actions, rewards, |rewards| - 1 - k))
    ensures NoneDecreased(st.c, r.c)
    ensures AllAtLeastOne(r.c, Touched(actions, rewards, |rewards| - 1 - k))
  {
    if k > 0 {
      var t := |rewards| - 1 - k;
      var cell := CellAt(actions, t);
      var before := Prefix(actions, rewards, st, k - 1, cfg);
      PrefixEffect(actions, rewards, st, k - 1, cfg, before);
      VisitChangesOneCell(before, cell.0, cell.1, Return(rewards, t + 1, cfg.gamma), cfg);
      TouchedExtends(actions, rewards, t);
      FrameExtends(st.q, before.q, r.q, Touched(actions, rewards, t + 1), cell);
      FrameExtends(st.c, before.c, r.c, Touched(actions, rewards, t + 1), cell);
      GrowthExtends(st.c, before.c, r.c, Touched(actions, rewards, t + 1), cell);
    }
  }

  /** One iteration of the loop body: accumulate `G`, then visit the cell
      (S_t, A_t) with t = len(rewards) - 2 - i. */
  method SweepStep(actions: seq<int>, rewards: seq<real>, ghost start: State, i: nat,
                   st: State, g: real, cfg: Config)
    returns (st': State, g': real)
    requires Inv(start) && Readable(actions, rewards)
    requires i + 1 <= |rewards| - 2
    requires st == Prefix(actions, rewards, start, i, cfg)
    requires g == Return(rewards, |rewards| - i, cfg.gamma)
    ensures st' == Prefix(actions, rewards, start, i + 1, cfg)
    ensures g' == Return(rewards, |rewards| - i - 1, cfg.gamma)
  {
    var t := |rewards| - 2 - i;
    var s := Bucket(actions[t]);
    var a := Bucket(actions[t + 1]);
    ReturnAccumulates(rewards, t + 1, cfg.gamma, g);
    g' := cfg.gamma * g + rewards[t + 1];
    PrefixAdvance(actions, rewards, start, i, st, g', cfg);
    st' := Visit(st, s, a, g', cfg);
  }

  /** The backward sweep as written: for i in range(0, len(rewards) - 2),
      t = len(rewards) - 2 - i, with running return G and weight W starting
      at 0 and 1. It computes `Prefix` over all its steps, so nothing
      happens with at most two rewards; otherwise only the cells
      (actions[t] // 10, actions[t+1] // 10) for t = len(rewards) - 2 down to
      1 change, no weight in `C` decreases, and every one of those cells
      ends with weight at least 1. */
  method Sweep(actions: seq<int>, rewards: seq<real>, q: Table, c: Table, cfg: Config)
    returns (q': Table, c': Table)
    requires IsTable(q) && IsTable(c) && NonNegative(c)
    requires Readable(actions, rewards)
    ensures IsTable(q') && IsTable(c') && NonNegative(c')
    ensures var r := Prefix(actions, rewards, State(q, c, 1.0), Steps(rewards), cfg);
            q' == r.q && c' == r.c
    ensures |rewards| <= 2 ==> q' == q && c' == c
    ensures SameOutside(q, q', Touched(actions, rewards, 1))
    ensures SameOutside(c, c', Touched(actions, rewards, 1))
    ensures NoneDecreased(c, c')
    ensures AllAtLeastOne(c', Touched(actions, rewards, 1))
  {
    ghost var start := State(q, c, 1.0);
    var g := 0.0;
    var st := State(q, c, 1.0);
    var i := 0;
    while i < |rewards| - 2
      invariant 0 <= i <= Steps(rewards)
      invariant g == Return(rewards, |rewards| - i, cfg.gamma)
      invariant st == Prefix(actions, rewards, start, i, cfg)
    {
      st, g := SweepStep(actions, rewards, start, i, st, g, cfg);
      i := i + 1;
    }
    assert i == Steps(rewards);
    PrefixEffect(actions, rewards, start, i, cfg, st);
    q', c' := st.q, st.c;
  }
}
