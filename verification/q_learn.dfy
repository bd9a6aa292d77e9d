/** The agents of the Q-learning example (`Q_Learn.py`): the tabular
    Q-learning seller with its 21 x 3 table, the stochastic descending agent
    and the special random agent. */
module QLearn {
  import opened Outcomes
  import opened Tables
  import opened QRows
  import opened Baselines

  /** The `role` string of a dmarket agent. */
  datatype Role = SellerRole | BuyerRole | OtherRole

  const Alpha: real := 0.2
  const Gamma: real := 0.95

  /** A `QAgent`: role, reservation price, training flag, the table and the
      bookkeeping `update_table` reads (offer and action of the last turn,
      the offer made, the last reward). */
  datatype QAgent = QAgent(
    role: Role,
    reservation: real,
    train: bool,
    q: Table,
    earlierOffer: real,
    newOffer: real,
    reward: real,
    earlierAction: int)

  predicate Valid(ag: QAgent)
  {
    Shaped(ag.q, Rows, Actions) && 0 <= ag.earlierAction < Actions
  }

  /** `QAgent.__init__`: a zero table, no offers, action 0. */
  function NewQAgent(role: Role, reservation: real, train: bool): (ag: QAgent)
    ensures Valid(ag)
    ensures ag.role == role && ag.reservation == reservation && ag.train == train
    ensures forall i, j :: 0 <= i < Rows && 0 <= j < Actions ==> ag.q[i][j] == 0.0
    ensures ag.earlierOffer == 0.0 && ag.newOffer == 0.0 && ag.reward == 0.0 && ag.earlierAction == 0
  {
    QAgent(role, reservation, train, Zeros(Rows, Actions), 0.0, 0.0, 0.0, 0)
  }

  /** What `table_to_offer` leaves behind: the agent with its new action,
      and the offer. */
  datatype Choice = Choice(agent: QAgent, offer: real)

  /** `table_to_offer(row)`: in training mode the action is the draw `k`; in
      evaluation mode it is the first best action of the row numpy reaches,
      or `IndexError`. The earlier offer lowered by the action's concession
      is kept in [100, 200]. */
  function TableToOffer(ag: QAgent, row: int, k: int): (r: Result<Choice>)
    requires Valid(ag) && ActionDraw(k)
    ensures r.Err? <==> !ag.train && PyIndex(row, Rows).Err?
    ensures r.Err? ==> r.fault == IndexError
    ensures r.Ok? ==> Valid(r.value.agent)
    ensures r.Ok? ==> r.value.agent == ag.(earlierAction := r.value.agent.earlierAction)
    ensures r.Ok? && ag.train ==> r.value.agent.earlierAction == k
    ensures r.Ok? ==> 100.0 <= r.value.offer <= 200.0
    ensures r.Ok? ==> r.value.offer <= MaxReal(ag.earlierOffer, 100.0)
    ensures r.Ok? && ag.earlierOffer <= 200.0 && ag.earlierOffer - Concession(r.value.agent.earlierAction) >= 100.0 ==>
              r.value.offer == ag.earlierOffer - Concession(r.value.agent.earlierAction)
  {
    if ag.train then
      var ag' := ag.(earlierAction := k);
      Ok(Choice(ag', Clamp(ag.earlierOffer - Concession(k), 100.0, 200.0)))
    else
      match PyIndex(row, Rows)
      case Err(f) => Err(f)
      case Ok(i) =>
        var a := Argmax(ag.q[i]);
        var ag' := ag.(earlierAction := a);
        Ok(Choice(ag', Clamp(ag.earlierOffer - Concession(a), 100.0, 200.0)))
  }

  /** In evaluation mode the action is the first best one of the row. */
  lemma TableToOfferIsGreedy(ag: QAgent, row: int, k: int)
    requires Valid(ag) && ActionDraw(k) && !ag.train && PyIndex(row, Rows).Ok?
    ensures TableToOffer(ag, row, k).Ok?
    ensures IsFirstMax(ag.q[PyIndex(row, Rows).value], TableToOffer(ag, row, k).value.agent.earlierAction)
  {
    ArgmaxIsFirstMax(ag.q[PyIndex(row, Rows).value]);
  }

  /** The agent after a turn, and its offer (`None` where `get_offer` falls
      off its end). */
  datatype Turn = Turn(agent: QAgent, offer: Option<real>)

  /** `QAgent.get_offer(observation)` with `last = observation[0]`. A seller
      opens at twice its reservation price with action 2; afterwards it
      remembers the last offer and answers through its table, changing
      only the earlier offer, the action and the new offer. Any other
      role returns `None` and changes nothing. The table is never touched. */
  function GetOffer(ag: QAgent, last: real, k: int): (r: Result<Turn>)
    requires Valid(ag) && ActionDraw(k)
    ensures r.Err? <==> ag.role == SellerRole && last != 0.0 && !ag.train && !(-10.0 < last < 205.0)
    ensures r.Err? ==> r.fault == IndexError
    ensures r.Ok? ==> Valid(r.value.agent) && r.value.agent.q == ag.q
    ensures r.Ok? ==> (r.value.offer.Some? <==> ag.role == SellerRole)
    ensures r.Ok? && ag.role != SellerRole ==> r.value.agent == ag
    ensures r.Ok? && ag.role == SellerRole && last == 0.0 ==>
              && r.value.offer == Some(2.0 * ag.reservation)
              && r.value.agent == ag.(earlierOffer := 2.0 * ag.reservation, earlierAction := 2)
    ensures r.Ok? && ag.role == SellerRole && last != 0.0 ==>
              && r.value.agent.earlierOffer == last
              && r.value.offer == Some(r.value.agent.newOffer)
              && 100.0 <= r.value.agent.newOffer <= MaxReal(last, 100.0)
              && r.value.agent.newOffer <= 200.0
    ensures r.Ok? && ag.role == SellerRole && last != 0.0 ==>
              && r.value.agent == ag.(earlierOffer := last, newOffer := r.value.agent.newOffer,
                                      earlierAction := r.value.agent.earlierAction)
              && (ag.train ==> r.value.agent.earlierAction == k)
              && (last <= 200.0 && last - Concession(r.value.agent.earlierAction) >= 100.0 ==>
                    r.value.agent.newOffer == last - Concession(r.value.agent.earlierAction))
  {
    if ag.role != SellerRole then Ok(Turn(ag, None))
    else if last == 0.0 then
      var ag' := ag.(earlierOffer := 2.0 * ag.reservation, earlierAction := 2);
      Ok(Turn(ag', Some(ag'.earlierOffer)))
    else
      QRowIndexable(last);
      match TableToOffer(ag.(earlierOffer := last), QRow(last), k)
      case Err(f) => Err(f)
      case Ok(ch) => Ok(Turn(ch.agent.(newOffer := ch.offer), Some(ch.offer)))
  }

  /** A seller's table answer to an offer on the price grid reads that
      price's own row. */
  lemma GetOfferReadsOwnRow(ag: QAgent, row: int, k: int)
    requires Valid(ag) && ActionDraw(k) && ag.role == SellerRole && !ag.train
    requires 0 <= row < Rows
    ensures GetOffer(ag, QRowPrice(row), k).Ok?
    ensures IsFirstMax(ag.q[row], GetOffer(ag, QRowPrice(row), k).value.agent.earlierAction)
  {
    QRowRoundTrip(QRowPrice(row), row);
    TableToOfferIsGreedy(ag.(earlierOffer := QRowPrice(row)), row, k);
  }

  /** The target of the Q-learning update: the discounted best value of the
      next row plus the reward. */
  function Target(q: Table, next: nat, reward: real): real
    requires next < |q| && |q[next]| > 0
  {
    Gamma * RowMax(q[next]) + reward
  }

  /** `update_table(reward)`: moves the value of the cell (row of the earlier
      offer, earlier action) a fifth of the way to the target built on the
      row of the new offer. A row numpy cannot reach raises `IndexError`. */
  function UpdateTable(ag: QAgent, reward: real): (r: Result<QAgent>)
    requires Valid(ag)
    ensures r.Err? <==> PyIndex(QRow(ag.earlierOffer), Rows).Err? || PyIndex(QRow(ag.newOffer), Rows).Err?
    ensures r.Err? ==> r.fault == IndexError
    ensures r.Ok? ==> Valid(r.value) && r.value == ag.(q := r.value.q, reward := reward)
  {
    match PyIndex(QRow(ag.earlierOffer), Rows)
    case Err(f) => Err(f)
    case Ok(i) =>
      match PyIndex(QRow(ag.newOffer), Rows)
      case Err(f) => Err(f)
      case Ok(j) =>
        var prev := ag.q[i][ag.earlierAction];
        var v := (1.0 - Alpha) * prev + Alpha * Target(ag.q, j, reward);
        Set2Cells(ag.q, i, ag.earlierAction, v);
        Ok(ag.(reward := reward, q := Set2(ag.q, i, ag.earlierAction, v)))
  }

  /** The update writes one cell and no other; the new value lies between
      the old one and the target, and equals the old one exactly when the
      old one already was the target. */
  lemma UpdateTableMovesOneCell(ag: QAgent, reward: real)
    requires Valid(ag)
    requires PyIndex(QRow(ag.earlierOffer), Rows).Ok? && PyIndex(QRow(ag.newOffer), Rows).Ok?
    ensures var r := UpdateTable(ag, reward).value;
            var i, a := PyIndex(QRow(ag.earlierOffer), Rows).value, ag.earlierAction;
            var t := Target(ag.q, PyIndex(QRow(ag.newOffer), Rows).value, reward);
            && (forall x, y :: 0 <= x < Rows && 0 <= y < Actions && (x, y) != (i, a) ==>
                  r.q[x][y] == ag.q[x][y])
            && Between(r.q[i][a], ag.q[i][a], t)
            && (r.q[i][a] == ag.q[i][a] <==> ag.q[i][a] == t)
  {
    var i, a := PyIndex(QRow(ag.earlierOffer), Rows).value, ag.earlierAction;
    var t := Target(ag.q, PyIndex(QRow(ag.newOffer), Rows).value, reward);
    var prev := ag.q[i][a];
    var v := (1.0 - Alpha) * prev + Alpha * t;
    assert v == prev + Alpha * (t - prev);
    ConvexStep(prev, t, Alpha);
    Set2Cells(ag.q, i, a, v);
  }

  /** After a fresh seller's opening turn the new offer is still 0, whose
      row index -20 counts from the end: the first update takes its target
      from row 1, the row of price 105. */
  lemma OpeningUpdateReadsRowOne(reservation: real, train: bool, k: int)
    requires ActionDraw(k)
    ensures var t := GetOffer(NewQAgent(SellerRole, reservation, train), 0.0, k);
            && t.Ok?
            && t.value.agent.newOffer == 0.0
            && PyIndex(QRow(t.value.agent.newOffer), Rows) == Ok(1)
  {
    assert (0.0 - 100.0) / 5.0 == -20.0;
  }

  /** The draw `StochasticDescendingAgent.get_offer` makes on the branch
      that makes one: `random.uniform(res + (last - res) * 2/3, last)` for a
      seller above its reservation price, `random.uniform(0, last / 5)` for
      a buyer below it. */
  predicate StochasticDraw(role: Role, reservation: real, last: real, u: real)
  {
    && (role == SellerRole ==> SellerDraw(reservation, last, u))
    && (role == BuyerRole ==> BuyerDraw(reservation, last, u))
  }

  /** `StochasticDescendingAgent.get_offer` as written. The seller's
      concession branch stores its draw in `offer_value` and returns
      `offer`, which still holds the reservation price. */
  function StochasticDescendingAsWritten(role: Role, reservation: real, last: real, u: real): (o: real)
    requires StochasticDraw(role, reservation, last, u)
    ensures role == SellerRole ==> o == (if last == 0.0 then 2.0 * reservation else reservation)
    ensures role == BuyerRole ==> o == BuyerOffer(reservation, last, u)
    ensures role == OtherRole ==> o == reservation
  {
    match role
    case SellerRole => if last == 0.0 then 2.0 * reservation else reservation
    case BuyerRole =>
      if last == 0.0 then reservation / 2.0
      else if last >= reservation then reservation
      else u + last
    case OtherRole => reservation
  }

  /** The seller as written drops to its reservation price on its first
      answer whatever it drew: reservation 100, last offer 160 and draw 150
      give 100, not 150. */
  lemma StochasticSellerDropsItsDraw()
    ensures StochasticDraw(SellerRole, 100.0, 160.0, 150.0)
    ensures SellerOffer(100.0, 160.0, 150.0) == 150.0
    ensures StochasticDescendingAsWritten(SellerRole, 100.0, 160.0, 150.0) == 100.0
  {
  }

  /** `StochasticDescendingAgent.get_offer` with the seller's draw used, as
      the buyer's branch and `AutomaticSeller` use theirs. */
  function StochasticDescendingOffer(role: Role, reservation: real, last: real, u: real): (o: real)
    requires StochasticDraw(role, reservation, last, u)
    ensures role == SellerRole && last != 0.0 && last > reservation ==> reservation < o <= last
    ensures role == BuyerRole && 0.0 < last < reservation ==> last <= o <= last * (6.0 / 5.0)
    ensures role == OtherRole ==> o == reservation
  {
    match role
    case SellerRole => SellerOffer(reservation, last, u)
    case BuyerRole => BuyerOffer(reservation, last, u)
    case OtherRole => reservation
  }

  /** The two versions differ exactly on a seller's concession branch, and
      the intended one there gives up at most a third of the gap. */
  lemma StochasticDescendingDiffersOnlyThere(role: Role, reservation: real, last: real, u: real)
    requires StochasticDraw(role, reservation, last, u)
    ensures StochasticDescendingOffer(role, reservation, last, u) != StochasticDescendingAsWritten(role, reservation, last, u)
            <==> role == SellerRole && last != 0.0 && last > reservation
    ensures role == SellerRole && last != 0.0 && last > reservation ==>
              last - StochasticDescendingOffer(role, reservation, last, u) <= (last - reservation) / 3.0
  {
  }

  /** Like the automatic agents, the stochastic-descending agent holds at
      its reservation price once the last offer equals it, as written and
      corrected alike; a zero last offer is the seller's opening instead. */
  lemma StochasticDescendingHoldsAtReservation(role: Role, res: real, u: real)
    ensures StochasticDraw(role, res, res, u)
    ensures role != SellerRole || res != 0.0 ==>
              StochasticDescendingAsWritten(role, res, res, u) == res &&
              StochasticDescendingOffer(role, res, res, u) == res
  {
  }

  /** `SpecialRandomAgent.get_offer`: a value of `random.uniform(100, 180)`
      for a buyer, of `random.uniform(120, 200)` for a seller, `None` for any
      other role. `u` is the value drawn. */
  function SpecialRandomOffer(role: Role, u: real): (r: Option<real>)
    requires role == BuyerRole ==> UniformDraw(u, 100.0, 180.0)
    requires role == SellerRole ==> UniformDraw(u, 120.0, 200.0)
    ensures r.None? <==> role == OtherRole
    ensures r.Some? && role == BuyerRole ==> 100.0 <= r.value <= 180.0
    ensures r.Some? && role == SellerRole ==> 120.0 <= r.value <= 200.0
  {
    match role
    case BuyerRole => Some(u)
    case SellerRole => Some(u)
    case OtherRole => None
  }

  /** The special random agent draws as the special random buyer and
      seller of the automatic agents do. */
  lemma SpecialRandomMatchesBaselines(u: real)
    ensures UniformDraw(u, 100.0, 180.0) ==> SpecialRandomOffer(BuyerRole, u) == Some(SpecialRandomBuyerOffer(u))
    ensures UniformDraw(u, 120.0, 200.0) ==> SpecialRandomOffer(SellerRole, u) == Some(SpecialRandomSellerOffer(u))
  {
  }
}
