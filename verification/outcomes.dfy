/** Option and Result values for the places where the Python code returns
    `None` or raises instead of producing an offer. */
module Outcomes {

  datatype Option<+T> = None | Some(value: T)

  /** The exceptions the modelled code can raise on inputs it accepts. */
  datatype Fault =
    | EmptyRange    // numpy's random_integers(low, high) with low > high
    | ZeroDivision  // a probability whose denominator is 0
    | EmptySplit    // `agent_id.split()[0]` on an id with no word in it
    | IndexError    // a table row index outside [-rows, rows)
    | NoTable       // subscripting the default `q_table = None`

  datatype Result<+T> = Ok(value: T) | Err(fault: Fault)
}
