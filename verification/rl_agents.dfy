/** `RLSeller.update_offer` of the Q-learning example: a seller that is
    handed a Q table by its caller, picks one of three concessions at random
    or greedily from the table, and posts the resulting offer. */
module RlSeller {
  import opened Outcomes
  import opened Tables
  import opened QRows
  import opened Baselines
  import opened QLearn

  /** The row `RLSeller` reads: `int((last_offer - reservation_price) / 5)`,
      measured from its own reservation price rather than from 100. */
  function RlRow(last: real, reservation: real): int
  {
    Trunc((last - reservation) / 5.0)
  }

  /** The caller's table, a 2-d numpy array with at least one column. A
      table with more than three columns may yield an action above 2, which
      the source treats like action 2. */
  predicate Usable(q: Table)
  {
    forall i :: 0 <= i < |q| ==> |q[i]| > 0
  }

  /** The dict after the call and the pair `update_offer` returns. */
  datatype RlStep = RlStep(book: Book, last: real, action: int)

  /** `RLSeller.update_offer(next_step, state, q_table, epsilon_decision)`
      with `last = state[0]` and `k` the value of `random.randint(0, 2)`,
      drawn on every call. */
  function UpdateOffer(id: string, reservation: real, book: Book, last: real,
                       q: Option<Table>, epsilon: bool, k: int): (r: Result<RlStep>)
    requires ActionDraw(k)
    requires q.Some? ==> Usable(q.value)
    ensures r.Err? <==> last != 0.0 && !epsilon && (q.None? || PyIndex(RlRow(last, reservation), |q.value|).Err?)
    ensures r.Err? ==> r.fault == (if q.None? then NoTable else IndexError)
    ensures r.Ok? ==> r.value.last == last && 0 <= r.value.action
    ensures r.Ok? && (last == 0.0 || epsilon) ==> r.value.action < Actions
    ensures r.Ok? ==> id in r.value.book && r.value.book == Post(book, id, r.value.book[id])
    ensures r.Ok? && last == 0.0 ==> r.value.book[id] == 2.0 * reservation && r.value.action == 2
    ensures r.Ok? && last != 0.0 ==> r.value.book[id] >= 100.0
    ensures r.Ok? && last != 0.0 && last - Concession(r.value.action) >= 100.0 ==>
              r.value.book[id] == last - Concession(r.value.action)
    ensures r.Ok? && last >= 100.0 ==> r.value.book[id] <= last
    ensures r.Ok? && last != 0.0 && epsilon ==> r.value.action == k
  {
    if last == 0.0 then
      Ok(RlStep(Post(book, id, 2.0 * reservation), last, 2))
    else
      match ChooseAction(reservation, last, q, epsilon, k)
      case Err(f) => Err(f)
      case Ok(action) =>
        var o := MaxReal(last - Concession(action), 100.0);
        Ok(RlStep(Post(book, id, o), last, action))
  }

  /** The action of a non-opening call: the draw when exploring, otherwise
      the first best action of the row the last offer reaches. */
  function ChooseAction(reservation: real, last: real, q: Option<Table>, epsilon: bool, k: int): (r: Result<int>)
    requires ActionDraw(k)
    requires q.Some? ==> Usable(q.value)
    ensures r.Err? <==> !epsilon && (q.None? || PyIndex(RlRow(last, reservation), |q.value|).Err?)
    ensures r.Err? ==> r.fault == (if q.None? then NoTable else IndexError)
    ensures r.Ok? && epsilon ==> r.value == k
    ensures r.Ok? && !epsilon ==> r.value < |q.value[PyIndex(RlRow(last, reservation), |q.value|).value]|
    ensures r.Ok? && !epsilon ==> 0 <= r.value
  {
    if epsilon then Ok(k)
    else
      match q
      case None => Err(NoTable)
      case Some(t) =>
        match PyIndex(RlRow(last, reservation), |t|)
        case Err(f) => Err(f)
        case Ok(i) => Ok(Argmax(t[i]))
  }

  /** When exploiting, the action is the first best one of the row. */
  lemma ChooseActionIsGreedy(reservation: real, last: real, t: Table, k: int)
    requires ActionDraw(k) && Usable(t)
    requires PyIndex(RlRow(last, reservation), |t|).Ok?
    ensures ChooseAction(reservation, last, Some(t), false, k).Ok?
    ensures IsFirstMax(t[PyIndex(RlRow(last, reservation), |t|).value],
                       ChooseAction(reservation, last, Some(t), false, k).value)
  {
    ArgmaxIsFirstMax(t[PyIndex(RlRow(last, reservation), |t|).value]);
  }

  /** Unlike the Q agent, `RLSeller` has no ceiling: a last offer of 300
      answered with action 2 is posted as 300. */
  lemma RlSellerHasNoCeiling(id: string, book: Book)
    ensures UpdateOffer(id, 100.0, book, 300.0, None, true, 2).Ok?
    ensures UpdateOffer(id, 100.0, book, 300.0, None, true, 2).value.book[id] == 300.0
  {
  }

  /** On offers in [100, 200] `RLSeller` and a Q agent seller in the same
      mode make the same choice: with the same draw when exploring, and from
      the same row of the same table when exploiting, provided the
      reservation price is 100 so that both measure rows from 100. */
  lemma RlSellerAgreesWithQAgent(ag: QAgent, id: string, book: Book, last: real, k: int)
    requires QLearn.Valid(ag) && ag.role == SellerRole && ActionDraw(k)
    requires 100.0 <= last <= 200.0
    requires !ag.train ==> ag.reservation == 100.0
    ensures var t := GetOffer(ag, last, k);
            var s := UpdateOffer(id, ag.reservation, book, last, Some(ag.q), ag.train, k);
            && t.Ok? && s.Ok?
            && s.value.action == t.value.agent.earlierAction
            && s.value.book[id] == t.value.offer.value
  {
    QRowIndexable(last);
    QRowRoundTrip(last, 0);
  }
}
