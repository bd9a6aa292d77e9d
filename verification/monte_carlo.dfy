/** `MonteCarlo_MarketAgent` of the single-agent experiment: a market agent
    that owns an 11 x 11 action-value table `Q` and cumulative-weight table
    `C`, acts greedily on `Q`, and learns from each finished episode with the
    off-policy Monte Carlo sweep (undiscounted, behaviour probability 1/11). */
module MonteCarloAgent {
  import opened Lattice
  import opened Tables
  import opened MarketAgent
  import opened OffPolicyMc

  /** The base agent record together with the two learned tables. The
      discount `self.gamma` is the constant 1. */
  datatype McAgent = McAgent(base: Agent, q: Table, c: Table)

  const McGamma: real := 1.0

  /** The sweep `set_done` runs: undiscounted, with `target_policy`, which
      divides the already bucketed state by 10 again. */
  const McConfig: Config := Config(McGamma, RebucketedRow)

  /** `q0` is a possible value of `np.random.rand(11, 11)`. */
  predicate UniformTableDraw(q0: Table)
  {
    IsTable(q0) && forall i, j :: 0 <= i < 11 && 0 <= j < 11 ==> 0.0 <= q0[i][j] < 1.0
  }

  predicate Valid(ag: McAgent)
  {
    IsTable(ag.q) && IsTable(ag.c) && NonNegative(ag.c)
  }

  /** `MonteCarlo_MarketAgent.__init__` with the random initial `Q` given as
      `q0`: a fresh agent record, `Q = q0` and `C` all zero. */
  function NewMcAgent(id: string, reservation: int, q0: Table): (ag: McAgent)
    requires UniformTableDraw(q0)
    ensures Valid(ag)
    ensures ag.base == NewAgent(id, MonteCarloAgent, reservation)
    ensures ag.q == q0
    ensures forall i, j :: 0 <= i < 11 && 0 <= j < 11 ==> ag.c[i][j] == 0.0
  {
    McAgent(NewAgent(id, MonteCarloAgent, reservation), q0, Zeros(11, 11))
  }

  /** `target_policy(S_t)`: ten times the first maximising index of row
      `S_t // 10`. */
  function TargetPolicy(ag: McAgent, s: int): (r: int)
    requires Valid(ag) && 0 <= s < 110
    ensures OnLattice(r) && 0 <= r <= 100
    ensures forall j :: 0 <= j < |ag.q[Bucket(s)]| ==> ag.q[Bucket(s)][j] <= ag.q[Bucket(s)][Bucket(r)]
  {
    GreedyActionIsFirstMax(ag.q, RebucketedRow, s);
    GreedyAction(ag.q, RebucketedRow, s)
  }

  /** Given a price, `target_policy` returns a lattice price in 0..100 whose
      bucket is the first maximising column of the price's bucket row. */
  lemma TargetPolicyIsGreedy(ag: McAgent, s: int)
    requires Valid(ag) && 0 <= s < 110
    ensures var r := TargetPolicy(ag, s);
            && OnLattice(r) && 0 <= r <= 100
            && IsFirstMax(ag.q[Bucket(s)], Bucket(r))
  {
    GreedyActionIsFirstMax(ag.q, RebucketedRow, s);
  }

  /** `set_done` hands `target_policy` a bucket `S_t` in 0..10, which it
      divides by 10 again: the greedy action then comes from row 0, or from
      row 1 when `S_t` is 10. */
  lemma SetDoneReadsRowZeroOrOne(s: int)
    requires 0 <= s < 11
    ensures TargetRow(RebucketedRow, s) == (if s == 10 then 1 else 0)
  {
  }

  /** `MonteCarlo_MarketAgent.set_done`: marks the agent done; outside
      evaluation mode it also runs the sweep over the episode, so
      `Q` and `C` become the sweep's result. In evaluation mode it returns
      before reading the trajectory, whatever the trajectory holds. */
  method SetDone(ag: McAgent) returns (ag': McAgent)
    requires Valid(ag) && (!ag.base.eval ==> Readable(ag.base.actions, ag.base.rewards))
    ensures Valid(ag')
    ensures ag'.base == ag.base.(done := true)
    ensures ag.base.eval ==> ag'.q == ag.q && ag'.c == ag.c
    ensures !ag.base.eval ==>
              var r := Prefix(ag.base.actions, ag.base.rewards, State(ag.q, ag.c, 1.0),
                              Steps(ag.base.rewards), McConfig);
              ag'.q == r.q && ag'.c == r.c
    ensures |ag.base.rewards| <= 2 ==> ag'.q == ag.q && ag'.c == ag.c
    ensures !ag.base.eval ==> SameOutside(ag.q, ag'.q, Touched(ag.base.actions, ag.base.rewards, 1))
    ensures !ag.base.eval ==> SameOutside(ag.c, ag'.c, Touched(ag.base.actions, ag.base.rewards, 1))
    ensures NoneDecreased(ag.c, ag'.c)
  {
    var base := MarketAgent.SetDone(ag.base);
    if ag.base.eval {
      ag' := ag.(base := base);
      return;
    }
    var q, c := Sweep(ag.base.actions, ag.base.rewards, ag.q, ag.c, McConfig);
    ag' := McAgent(base, q, c);
  }

  /** An episode with three rewards is a single step of the sweep, at t = 1:
      the cell (actions[1] // 10, actions[2] // 10) gains weight 1 and,
      if it had no weight before, takes the value rewards[2]. */
  lemma ThreeRewardEpisode(actions: seq<int>, rewards: seq<real>, q: Table, c: Table)
    requires IsTable(q) && IsTable(c) && NonNegative(c)
    requires |rewards| == 3 && Readable(actions, rewards)
    ensures var r := Prefix(actions, rewards, State(q, c, 1.0), Steps(rewards), McConfig);
            var s, a := Bucket(actions[1]), Bucket(actions[2]);
            && r.c[s][a] == c[s][a] + 1.0
            && (c[s][a] == 0.0 ==> r.q[s][a] == rewards[2])
            && SameOutside(q, r.q, {(s, a)})
            && SameOutside(c, r.c, {(s, a)})
  {
    var st := State(q, c, 1.0);
    var s, a := Bucket(actions[1]), Bucket(actions[2]);
    assert Return(rewards, 2, McConfig.gamma) == rewards[2];
    assert Prefix(actions, rewards, st, 0, McConfig) == st;
    var r := Prefix(actions, rewards, st, 1, McConfig);
    assert r == Visit(st, s, a, rewards[2], McConfig);
    VisitChangesOneCell(st, s, a, rewards[2], McConfig);
    Set2Cells(c, s, a, WeightedUpdate(q[s][a], c[s][a], rewards[2], 1.0).c);
  }

  /** With `gamma = 1` the return used at step t is the plain sum of
      rewards[t + 1 ..]. */
  lemma McReturnIsSumOfLaterRewards(rewards: seq<real>, t: nat)
    requires t < |rewards|
    ensures Return(rewards, t + 1, McGamma) == Sum(rewards[t + 1..])
  {
    ReturnUndiscounted(rewards, t + 1);
  }
}
