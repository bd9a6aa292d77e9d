# RLFM agents in Dafny

This project models the agents of the RLFM double-auction simulator, which
learn and choose offers. It covers three groups of agents:

- **Monte Carlo experiment.** This group has two parts:
  - the market agent of the single-agent Monte Carlo experiment, with its two
    non-learning offer policies (a random walk toward the reservation price
    and a uniform draw over the price lattice 0, 10, ..., 100);
  - `MonteCarlo_MarketAgent`, which learns from each finished episode by
    off-policy every-visit Monte Carlo control with weighted importance
    sampling.

  The training script runs the same backward sweep over every buyer's
  episode, into one shared pair of tables `Q` and `C`. The repository's root
  `agents.py` is a second version of the market agent. It tells sellers
  apart by the first word of the agent id.
- **Q-learning example.** The seller `QAgent` learns with a 21 x 3 table over
  the price grid 100, 105, ..., 200. `RLSeller` is a similar seller with its
  table supplied by the caller. It measures its row from its own
  reservation price rather than from 100, and never caps its offer at 200.
- **Scripted opponents.** These are the automatic, interval-halving,
  stochastic-descending and special-random agents of the Q-learning example.

Every random draw is a parameter of the operation. A `requires` clause
limits it to the values the draw can return:

- `np.random.random_integers(low, high)` gives an integer in [low, high];
- `random.uniform(a, b)` gives a real between the two ends;
- `random.randint(0, 2)` gives an action in 0..2;
- `np.random.rand` gives a table of entries in [0, 1).

Where Python raises, or returns `None`, the model returns `Err(fault)` or
`None`. A few preconditions do exclude inputs on which Python would raise
or read a row it wraps around to. Each is named, with its member, under
"## Left out".

Module layout, one file each:

- `Outcomes`: `Option` and `Result`.
- `Lattice`: the 10-lattice `price // 10`.
- `Tables`: 2-d tables, `np.argmax` and `np.max`.
- `MarketAgent`: the base agent.
- `OffPolicyMc`: the shared sweep.
- `MonteCarloAgent`: the learning agent.
- `Train`: the training script's policies and learning loop.
- `AgentIds`: the root `agents.py`.
- `QRows`: the Q-learning price grid and numpy indexing.
- `Baselines`: the scripted opponents.
- `QLearn`: `Q_Learn.py`.
- `RlSeller`: `rl_agents.py`.

The sweep is modelled twice:

- `OffPolicyMc.Sweep` is the loop as written, with a running return `G` and
  weight `W`.
- `OffPolicyMc.Prefix` is a recursive definition that takes each step's
  return in closed form.

The loop is proved to compute the recursive definition. The frame,
monotonicity and closed-form facts are proved about that definition.

Where a class name or a reading of the code suggests otherwise, the model
follows the code:

- **Halving agents.** `IntervallHalbierungBuyer` and
  `IntervallHalbierungSeller` do not bisect. Each draws uniformly over every
  lattice price between the last offer's bucket and the reservation price's
  bucket, both ends included (`Baselines.HalvingDoesNotBisect`). When the
  buyer's last offer is in a higher bucket than its reservation price, the
  range is empty and numpy raises.
- **Sweep on a mismatch.** The sweep does not stop when the taken action
  differs from the greedy one. It `continue`s with the weight unchanged. The
  greedy action is a price (a multiple of 10) and is compared with an action
  bucket (0..10), so the two match only for the buckets 0 and 10.
- **Automatic buyer.** `AutomaticBuyer` may bid above its reservation
  price.

## Model

| member | source | states |
|---|---|---|
| `Lattice.BucketGalois` | code/report-specific/single_agent_random_interval_mcc/old_code/agents.py:55 | `price // 10` and `k * 10` are adjoint. A bucket's price is the lattice price at or below the price, and bucketing a lattice price gives its index back. |
| `Lattice.LatticeCountClosedForm` | train.py:27-28 | The `behavior_p` denominator `(100 - S) // 10 + 1` counts the lattice prices in [S, 100]. |
| `Tables.Zeros` | code/report-specific/single_agent_random_interval_mcc/old_code/agents.py:105 | `np.zeros` has the requested shape, and every cell is 0. |
| `Tables.ArgmaxIsFirstMax` | code/report-specific/single_agent_random_interval_mcc/old_code/agents.py:143 | `np.argmax` returns the first index of the row's largest value. |
| `Tables.FirstMaxUnique` | train.py:25 | At most one index is the first maximiser, so the argmax is fully determined. |
| `Tables.RowMax` | code/examples/Q_Learning_examples/Q_Learn.py:100 | `np.max` of a row is one of its entries, and no entry exceeds it. |
| `MarketAgent.NewAgent` | code/report-specific/single_agent_random_interval_mcc/old_code/agents.py:11-25 | A new agent has an empty trajectory and score 0. It is neither done nor in evaluation mode. |
| `MarketAgent.Evaluate` | code/report-specific/single_agent_random_interval_mcc/old_code/agents.py:33-38 | `evaluate` switches evaluation mode on and changes nothing else. |
| `MarketAgent.Reset` | code/report-specific/single_agent_random_interval_mcc/old_code/agents.py:84-87 | `reset` empties actions and rewards and clears `done`. Identity, reservation, score and mode survive. |
| `MarketAgent.SetDone` | code/report-specific/single_agent_random_interval_mcc/old_code/agents.py:75-81 | The base `set_done` sets `done` and nothing else. |
| `MarketAgent.NewOffer` | code/report-specific/single_agent_random_interval_mcc/old_code/agents.py:40-55 | `get_new_offer` holds at the reservation price once reached. Otherwise it returns a lattice price between the buckets of the last offer and the reservation price, on the buyer's or the seller's side. |
| `MarketAgent.NewOfferCoversRange` | code/report-specific/single_agent_random_interval_mcc/old_code/agents.py:55 | Some draw produces every lattice price of that range, so the range is exact. |
| `MarketAgent.RandomOffer` | code/report-specific/single_agent_random_interval_mcc/old_code/agents.py:57-66 | `get_random_offer` returns a lattice price in [20, 100] for a `Seller` and in [0, 100] for any other class. The last offer plays no part. |
| `MarketAgent.RandomOfferIgnoresLast` | code/report-specific/single_agent_random_interval_mcc/old_code/agents.py:57-66 | The same draw gives the same offer whatever the last offer was. |
| `MarketAgent.RandomOfferCoversRange` | code/report-specific/single_agent_random_interval_mcc/old_code/agents.py:63-66 | Some draw produces every lattice price of the class's range. |
| `MarketAgent.RandomOfferP` | code/report-specific/single_agent_random_interval_mcc/old_code/agents.py:69-73 | `get_random_offer_p` is a probability in (0, 1]. |
| `MarketAgent.RandomOfferPIsUniformForBuyers` | code/report-specific/single_agent_random_interval_mcc/old_code/agents.py:63-73 | 1/11 is the uniform probability over the 11 prices a non-seller draws from. A seller draws from only 9 prices. |
| `MarketAgent.SellerWalkNonIncreasing` | code/report-specific/single_agent_random_interval_mcc/old_code/agents.py:45-55 | Repeated `get_new_offer` calls from at or above the reservation price never raise the offer, and never go below the lattice price at or under the reservation price. |
| `MarketAgent.BuyerWalkNonDecreasing` | code/report-specific/single_agent_random_interval_mcc/old_code/agents.py:45-55 | Repeated calls from a lattice price at or below the reservation price never lower the offer and never exceed the reservation price. |
| `MarketAgent.TrainingSellersWalkDown` | train.py:105-109 | The training script's sellers (reservation 20, opening at 100, answering with `get_new_offer`) never raise their offers, and every offer stays within [20, 100]. This assumes each call sees the seller's own previous offer; what `get_state` reports in the black-box setting is not modelled. |
| `MonteCarloAgent.NewMcAgent` | code/report-specific/single_agent_random_interval_mcc/old_code/agents.py:101-111 | The constructor gives a fresh agent record, `Q` equal to the random draw, and `C` all zero on 11 x 11 tables. |
| `MonteCarloAgent.TargetPolicy` | code/report-specific/single_agent_random_interval_mcc/old_code/agents.py:138-143 | `target_policy(S)` is a lattice price in 0..100, and its bucket holds the largest value of row `S // 10`. |
| `MonteCarloAgent.TargetPolicyIsGreedy` | code/report-specific/single_agent_random_interval_mcc/old_code/agents.py:138-143 | `target_policy` returns a lattice price in 0..100 whose bucket is the first maximising column of the row `S // 10`. |
| `MonteCarloAgent.SetDoneReadsRowZeroOrOne` | code/report-specific/single_agent_random_interval_mcc/old_code/agents.py:126-143 | `set_done` passes a bucket to `target_policy`, which divides it by 10 again. Only rows 0 and 1 are read. |
| `MonteCarloAgent.SetDone` | code/report-specific/single_agent_random_interval_mcc/old_code/agents.py:113-136 | `set_done` marks the agent done and changes nothing else about the record. In evaluation mode the tables stay as they are, whatever the trajectory holds. Otherwise they become the sweep's result: only the visited cells change, and no weight in `C` drops. |
| `MonteCarloAgent.ThreeRewardEpisode` | code/report-specific/single_agent_random_interval_mcc/old_code/agents.py:122-131 | A three-reward episode updates exactly one cell, `(actions[1] // 10, actions[2] // 10)`. Its weight grows by 1, and a fresh cell takes the value `rewards[2]`. |
| `MonteCarloAgent.McReturnIsSumOfLaterRewards` | code/report-specific/single_agent_random_interval_mcc/old_code/agents.py:106-129 | With `gamma = 1`, the return at step t is the plain sum of the later rewards. |
| `OffPolicyMc.GreedyActionIsFirstMax` | train.py:24-25 | The greedy policy returns ten times the first maximising column of the row it reads. |
| `OffPolicyMc.WeightFactorInvertsBehaviourP` | train.py:147 | On a match, `W` is multiplied by 11, which is 1 / (1/11). |
| `OffPolicyMc.ReturnAccumulates` | train.py:142 | `G = gamma * G + rewards[t + 1]` turns the return from t + 2 into the return from t + 1. |
| `OffPolicyMc.ScaledReturn` | train.py:142 | gamma^e times the return from i is the sum of the rewards from i, weighted by gamma^e, gamma^(e+1), and so on. |
| `OffPolicyMc.ReturnClosedForm` | train.py:142 | The accumulated return equals the closed-form sum of gamma^(k - i) * rewards[k]. |
| `OffPolicyMc.ReturnUndiscounted` | code/report-specific/single_agent_random_interval_mcc/old_code/agents.py:129 | With gamma 1, the return is the plain sum of the remaining rewards. |
| `OffPolicyMc.WeightedUpdate` | train.py:143-144 | After `C += W`, the cell's weight is at least its old weight and at least 1. |
| `OffPolicyMc.WeightedUpdateMoves` | train.py:143-144 | `Q += (W / C) * (G - Q)` lands between the old value and `G`. It reaches `G` on a fresh cell, and stays put exactly when the old value already equalled `G`. |
| `OffPolicyMc.Visit` | train.py:143-147 | One iteration of the sweep keeps its invariant: both tables stay 11 x 11, no weight in `C` is negative, and `W` stays at least 1. |
| `OffPolicyMc.VisitChangesOneCell` | train.py:143-147 | One iteration changes only the cell (S_t, A_t) in `Q` and in `C`. `W` is kept on a mismatch and multiplied by 11 on a match. |
| `OffPolicyMc.MatchOnlyAtZeroOrTen` | train.py:145-147 | A greedy price equals the action bucket only for the buckets 0 and 10, and then exactly when the argmax is 0 or 1. |
| `OffPolicyMc.PrefixEffect` | train.py:137-147 | After k steps, `W` is at least its start value. Only the visited cells differ in `Q` and `C`, no weight drops, and every visited cell has weight at least 1. |
| `OffPolicyMc.SweepStep` | train.py:138-147 | One loop iteration advances both the running return and the state by one step of the recursive definition. |
| `OffPolicyMc.Sweep` | train.py:134-147 | The loop computes the recursive sweep, and changes nothing when there are at most two rewards. Only the visited cells (t = len - 2 down to 1) change, `C` never decreases, and every visited cell ends with weight at least 1. |
| `Train.Policy` | train.py:24-25 | `policy(S, Q)` is a lattice price in 0..100, and its bucket holds the largest value of row S. |
| `Train.PolicyIsGreedy` | train.py:24-25 | `policy(S, Q)` is ten times the first maximising column of row S. |
| `Train.BehaviorP` | train.py:27-28 | `behavior_p` raises `ZeroDivisionError` exactly for S in 101..110. It is in [1/11, 1] for S in 0..100 and negative above 110. |
| `Train.BehaviorPIsUniformAbove` | train.py:27-28 | For S in 0..100, `behavior_p` is the uniform probability over the lattice prices in [S, 100]. |
| `Train.BehaviorRandomP` | train.py:30-31 | `behavior_random_p` is a probability in (0, 1]. |
| `Train.BehaviorRandomPIsSweepProbability` | train.py:30-31 | `behavior_random_p` equals `get_random_offer_p` and the sweep's 1/11, and its inverse is the factor 11. |
| `Train.TrainReturnIsDiscountedSum` | train.py:142 | With gamma 0.9, the return at step t is the sum of 0.9^(k - t - 1) * rewards[k] over k > t. |
| `Train.LearnFromBuyers` | train.py:134-147 | Learning from the buyers in turn gives the composed sweeps. Only the cells some buyer's sweep visits change, no weight decreases, and buyers with at most two rewards change nothing. |
| `AgentIds.FirstWord` | agents.py:54 | `split()[0]` is `None` exactly for an empty or all-whitespace id. Otherwise it is the first maximal non-whitespace run, after leading whitespace. |
| `AgentIds.FirstWordOfRoleId` | train.py:49-59 | The ids "Seller name" and "Buyer name" have the role as their first word, whatever the name is. |
| `AgentIds.RandomOfferById` | agents.py:48-57 | An empty or all-whitespace id is an error. Otherwise the result is a lattice price in [20, 100] when the first word is "Seller", and in [0, 100] for any other id. |
| `AgentIds.RandomOfferByIdIgnoresLast` | agents.py:48-57 | The same id and draw give the same result, offer or error, whatever the last offer was. |
| `AgentIds.RandomOfferByIdMatchesClass` | agents.py:54-57 | For the ids the training script builds, reading the role from the id gives the same offer as the class check of the Monte Carlo experiment: for every buyer draw in 0..10 and every seller draw in 2..10. |
| `AgentIds.NewOfferBranches` | agents.py:31-46 | The root `get_new_offer` stays in the bucket range on its buyer branch (last <= reservation) and on its seller branch, and never passes the reservation price or the last offer. |
| `QRows.Trunc` | code/examples/Q_Learning_examples/Q_Learn.py:74 | `int(x)` truncates toward zero. |
| `QRows.PyIndex` | code/examples/Q_Learning_examples/Q_Learn.py:79 | numpy accepts an index exactly in [-n, n) and reaches the row that agrees with it modulo n. Any other index raises `IndexError`. |
| `QRows.QRow` | code/examples/Q_Learning_examples/Q_Learn.py:73-74 | `observation_to_table` puts an offer of at least 100 into the row whose 5-wide price band holds it. The row is non-negative exactly for offers above 95. |
| `QRows.QRowRoundTrip` | code/examples/Q_Learning_examples/Q_Learn.py:73-74 | `observation_to_table` inverts the grid's row-to-price map. Every offer in [100, 205) falls in its row's 5-wide band. |
| `QRows.QRowIndexable` | code/examples/Q_Learning_examples/Q_Learn.py:73-79 | The offers whose row index numpy accepts are exactly (-10, 205). |
| `QRows.QRowTruncatesTowardZero` | code/examples/Q_Learning_examples/Q_Learn.py:74 | Offers just below 100 land in row 0, where flooring would give row -1. |
| `QRows.LowOfferWrapsAround` | code/examples/Q_Learning_examples/Q_Learn.py:74-79 | Offer 50 gives row -10, which numpy reads as row 11 (price 155). |
| `QRows.Concession` | code/examples/Q_Learning_examples/Q_Learn.py:82-87 | Action 0 lowers the offer by 25, action 1 by 5, and any other action by 0. |
| `QRows.Clamp` | code/examples/Q_Learning_examples/Q_Learn.py:91-94 | The two `if`s keep the offer in [100, 200] and leave an in-range offer alone. |
| `Baselines.Post` | code/examples/Q_Learning_examples/automatic_agents.py:20 | `next_step.update({id: offer})` sets that entry and keeps every other one. |
| `Baselines.PostOverwrites` | code/examples/Q_Learning_examples/automatic_agents.py:58 | A second post under the same id replaces the first. |
| `Baselines.SellerOffer` | code/examples/Q_Learning_examples/automatic_agents.py:10-20 | `AutomaticSeller` opens at twice its reservation price and holds at the reservation price once the last offer is at or below it. Otherwise it gives up at most a third of the gap and stays above the reservation price. |
| `Baselines.BuyerOffer` | code/examples/Q_Learning_examples/automatic_agents.py:28-39 | `AutomaticBuyer` opens at half its reservation price and holds at the reservation price once the last offer is at or above it. Otherwise it raises the last offer by at most a fifth. |
| `Baselines.BuyerMayBidAboveReservation` | code/examples/Q_Learning_examples/automatic_agents.py:35-38 | Reservation 100 and last offer 90 can give a bid of 108. |
| `Baselines.SellerNeverUndercuts` | code/examples/Q_Learning_examples/automatic_agents.py:14-19 | After opening, the automatic seller never offers below its reservation price. |
| `Baselines.NewHalving` | code/examples/Q_Learning_examples/automatic_agents.py:41-45 | A new halving agent is in its opening state. |
| `Baselines.DrawBucket` | code/examples/Q_Learning_examples/automatic_agents.py:55-56 | `random_integers(low, high) * 10` raises exactly on an empty range. Otherwise it is a lattice price between the two bucket prices. |
| `Baselines.HalvingBuyerOffer` | code/examples/Q_Learning_examples/automatic_agents.py:47-58 | The halving buyer opens at 0 and holds at the reservation price. Otherwise it draws a lattice price from the last offer's bucket (`last // 10` of a real price) up to the reservation price. The draw fails exactly when the last offer's bucket is above the reservation price's. |
| `Baselines.HalvingSellerOffer` | code/examples/Q_Learning_examples/automatic_agents.py:66-77 | The halving seller opens at 100 and holds at the reservation price. Otherwise it draws from the reservation price's bucket up to the last offer, and fails exactly on an empty range. |
| `Baselines.HalvingUpdate` | code/examples/Q_Learning_examples/automatic_agents.py:49-58 | A halving agent's update leaves the opening state and posts its offer under its own id. No other entry changes, and a failed draw is passed on. |
| `Baselines.HalvingIsTheRandomWalk` | code/examples/Q_Learning_examples/automatic_agents.py:54-56 | On integral prices, after opening, both halving agents draw exactly as `get_new_offer` does on their side of the reservation price. |
| `Baselines.HalvingFloorsFractionalOffers` | code/examples/Q_Learning_examples/automatic_agents.py:74-75 | A fractional last offer is floored to its bucket: a seller with reservation 100 answering 152.5 can offer 150, below the last offer. |
| `Baselines.RealBucketGalois` | code/examples/Q_Learning_examples/automatic_agents.py:55 | `last // 10 * 10` on a real price is the largest lattice price at or below it. |
| `Baselines.RealBucketOfInt` | code/examples/Q_Learning_examples/automatic_agents.py:55 | On an integral price, floor division of the real price gives the integer bucket. |
| `Baselines.HalvingBuyerCoversRange` | code/examples/Q_Learning_examples/automatic_agents.py:55-56 | Every lattice price of the halving buyer's range is a possible offer. |
| `Baselines.HalvingSellerCoversRange` | code/examples/Q_Learning_examples/automatic_agents.py:74-75 | Every lattice price of the halving seller's range is a possible offer. |
| `Baselines.HalvingDoesNotBisect` | code/examples/Q_Learning_examples/automatic_agents.py:55-56 | Reservation 100 and last offer 0 can give a jump straight to 100. |
| `Baselines.SpecialRandomSellerOffer` | code/examples/Q_Learning_examples/automatic_agents.py:84-87 | The special random seller offers a value in [120, 200]. |
| `Baselines.SpecialRandomBuyerOffer` | code/examples/Q_Learning_examples/automatic_agents.py:95-98 | The special random buyer offers a value in [100, 180]. |
| `Baselines.SpecialRandomRangesOverlap` | code/examples/Q_Learning_examples/automatic_agents.py:84-98 | Both special random agents can offer every price in [120, 180]. |
| `Baselines.OpponentsHoldAtReservation` | code/examples/Q_Learning_examples/automatic_agents.py:10-77 | Once the last offer equals the reservation price, every automatic and interval-halving agent answers with its reservation price. |
| `QLearn.StochasticDescendingHoldsAtReservation` | code/examples/Q_Learning_examples/Q_Learn.py:12-31 | The stochastic-descending agent, as written and corrected, also answers a last offer equal to its reservation price with that price, except that a seller reads a zero last offer as its opening. |
| `QLearn.NewQAgent` | code/examples/Q_Learning_examples/Q_Learn.py:47-56 | A new `QAgent` stores its role, reservation price and training flag. It has a 21 x 3 zero table, no offers, reward 0 and action 0. |
| `QLearn.TableToOffer` | code/examples/Q_Learning_examples/Q_Learn.py:77-95 | In training mode the action is the draw. In evaluation mode it comes from the row, and an unreachable row raises `IndexError`. The offer is in [100, 200] and never above the earlier offer (or 100). Whenever the earlier offer is at most 200 and the concession leaves at least 100, the offer is exactly the earlier offer minus the concession. Only the action changes. |
| `QLearn.TableToOfferIsGreedy` | code/examples/Q_Learning_examples/Q_Learn.py:78-79 | In evaluation mode the action is the first best column of the row. |
| `QLearn.GetOffer` | code/examples/Q_Learning_examples/Q_Learn.py:59-70 | A seller opens at twice its reservation price with action 2. After that it remembers the last offer and answers in [100, min(max(last, 100), 200)]. It fails exactly when it is evaluating and the last offer is outside (-10, 205). An answering seller changes only its earlier offer, action and new offer. When training, the action is the draw. Whenever the last offer is at most 200 and the concession leaves at least 100, the offer is exactly the last offer minus the concession. Any other role gets `None` and no change. The table is never touched. |
| `QLearn.GetOfferReadsOwnRow` | code/examples/Q_Learning_examples/Q_Learn.py:69-79 | An evaluating seller answering a grid price uses that price's own row greedily. |
| `QLearn.UpdateTable` | code/examples/Q_Learning_examples/Q_Learn.py:97-102 | `update_table` raises exactly when either row is out of numpy's reach. Otherwise it changes only the table and the stored reward. |
| `QLearn.UpdateTableMovesOneCell` | code/examples/Q_Learning_examples/Q_Learn.py:99-102 | Only the cell (earlier row, earlier action) changes. It moves between its old value and `gamma * max(next row) + reward`, and stays put exactly when it already held that target. |
| `QLearn.OpeningUpdateReadsRowOne` | code/examples/Q_Learning_examples/Q_Learn.py:63-66 | After the opening turn `new_offer` is still 0. Its row -20 is read as row 1 (price 105). |
| `QLearn.StochasticDescendingAsWritten` | code/examples/Q_Learning_examples/Q_Learn.py:12-31 | As written, a seller returns twice its reservation price to open and its reservation price on every later call. The buyer behaves like `AutomaticBuyer`. |
| `QLearn.StochasticSellerDropsItsDraw` | code/examples/Q_Learning_examples/Q_Learn.py:20-22 | Reservation 100, last offer 160 and draw 150 give 100 as written, where the intended answer is 150. |
| `QLearn.StochasticDescendingOffer` | code/examples/Q_Learning_examples/Q_Learn.py:12-31 | Corrected: on the concession branch the seller answers strictly above its reservation price and at most the last offer. The buyer raises by at most a fifth. |
| `QLearn.StochasticDescendingDiffersOnlyThere` | code/examples/Q_Learning_examples/Q_Learn.py:15-22 | The two versions differ exactly on the seller's concession branch. There the corrected one gives up at most a third of the gap. |
| `QLearn.SpecialRandomOffer` | code/examples/Q_Learning_examples/Q_Learn.py:36-40 | A buyer offers in [100, 180] and a seller in [120, 200]. Any other role gets `None`. |
| `QLearn.SpecialRandomMatchesBaselines` | code/examples/Q_Learning_examples/Q_Learn.py:36-40 | `SpecialRandomAgent` draws exactly as `SpecialRandomBuyer` and `SpecialRandomSeller` do. |
| `RlSeller.UpdateOffer` | code/examples/Q_Learning_examples/rl_agents.py:11-70 | The seller opens at twice its reservation price with action 2. After that it posts the last offer minus the concession, never below 100 and never above a last offer of at least 100. It uses the draw when exploring. Exploiting fails with `NoTable` when no table is passed and `IndexError` when the row is unreachable. Only its own entry changes. |
| `RlSeller.ChooseAction` | code/examples/Q_Learning_examples/rl_agents.py:41-51 | When exploring, the action is the draw. When exploiting, it is a column of the row `int((last - res) / 5)`, and it fails exactly when that row is unreachable. |
| `RlSeller.ChooseActionIsGreedy` | code/examples/Q_Learning_examples/rl_agents.py:51 | When exploiting, the action is the first best column of the row. |
| `RlSeller.RlSellerHasNoCeiling` | code/examples/Q_Learning_examples/rl_agents.py:59-61 | Unlike `QAgent`, a last offer of 300 answered with action 2 is posted as 300. |
| `RlSeller.RlSellerAgreesWithQAgent` | code/examples/Q_Learning_examples/rl_agents.py:41-61 | On offers in [100, 200], `RLSeller` and a `QAgent` seller make the same choice and offer. When exploiting, this needs reservation 100, so that both read the same row. |

## Left out

- Randomness is not modelled as a distribution. Each draw is a parameter that may take any value the draw can return. Statements about probabilities are about the probability functions the code defines.
- Floating point is not modelled. Prices and table values of the Q-learning agents and the learned tables are reals, without rounding. The Monte Carlo experiment's prices are integers, as its lattice arithmetic assumes. The interval-halving agents take real prices and floor them to a bucket.
- File I/O, printing, plotting, `np.save`, the market environment, the matchers and the episode driver of the training script (lines 82-132) are left out. The model starts from the recorded `actions` and `rewards` of an episode.
- The `dmarket` base class that `Q_Learn.py` extends is not part of this model. Its `role` string is modelled as seller, buyer or any other role.
- `__repr__` and `__str__` are left out. They only format the agent.
- `OffPolicyMc.Sweep`: its precondition `Readable` excludes two kinds of trajectory. In the first, `actions` is shorter than `rewards`, and Python raises `IndexError` on `actions[t + 1]`. In the second, an offer lies outside [0, 110), and numpy either reads a row from the end or raises. The experiment records one action per reward, and its offers are lattice prices in 0..100.
- `MonteCarloAgent.SetDone`: outside evaluation mode it inherits the `Readable` precondition of `OffPolicyMc.Sweep`. In evaluation mode it accepts any trajectory.
- `Train.LearnFromBuyers`: every buyer's episode must satisfy `Readable`, for the same reason.
- `MonteCarloAgent.TargetPolicy`: it requires a state in [0, 110). Python would wrap a negative state to a row from the end and raise on 110 or more.
- `Train.Policy`: it requires a state bucket in 0..10. Python would wrap a negative bucket and raise on 11 or more.
- `RlSeller.UpdateOffer`: the caller's table must have non-empty rows (`Usable`). `np.argmax` raises `ValueError` on an empty row.
- `MonteCarloAgent.SetDone`: `b_policy_dist` is taken to be one of the two distributions the code passes. Both return 1/11 for every argument, so `W` grows by 11 on a match.
- `RlSeller.UpdateOffer`: an action below 3 is stated only for the opening call and for exploration. The caller's table may have more than three columns, and every action from 2 up is treated as action 2.
- The `name` argument of the `Q_Learn.py` constructors is not modelled. It plays no part in any offer.

## Findings

| source | as written | input that shows it | evidently intended | confidence | as-written member | corrected member |
|---|---|---|---|---|---|---|
| code/examples/Q_Learning_examples/Q_Learn.py:20-22 | The seller's concession branch stores its draw in `offer_value` and returns `offer`, which still holds the reservation price. | Seller with reservation 100, last offer 160, draw 150: the offer is 100. | Return the draw, as the buyer branch and `AutomaticSeller` do. The offer is then 150. | high; not executed | `QLearn.StochasticDescendingAsWritten` | `QLearn.StochasticDescendingOffer` |
