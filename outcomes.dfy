/** Failure-carrying results shared by the whole model. Every exception the
    source raises (or lets numpy / networkx raise) becomes an `Error` value. */
module Outcomes {

  datatype Option<+T> = None | Some(value: T)

  /** The exceptions of the modelled code, one constructor per raise site. */
  datatype Error =
    | EmptyDeclaration          // numpy `min()` of the zero-size lag tensor of an empty declaration
    | InvalidVariable(v: int)   // __check_node: the variable is not a key of the declaration
    | LagBeyondHorizon(lag: int)// __check_node: the lag is larger than taumax
    | NodeNotInGraph            // networkx: a node id outside range(nnodes) is looked up
    | NotAGraphIndex            // transitive_reduction: range(nnodes).index of an unknown id
    | UndefinedCondition        // search_bundled_components: `pwlist` unbound for an unknown level
    | DataNotMatrix             // info: the data has more than two dimensions
    | ShapeNotUnpackable        // info: `npts, ndimdata = data.shape` fails
    | CaseExceedsColumns        // info: case > number of data columns
    | XYIndexIncorrect(dims: int) // info: the list xyindex does not fit the case
    | UnknownXYIndexType        // info: xyindex is neither None nor a list

  datatype Result<+T> = Ok(value: T) | Err(error: Error) {
    predicate IsFailure() { Err? }
    function PropagateFailure<U>(): Result<U>
      requires Err?
    {
      Err(error)
    }
    function Extract(): T
      requires Ok?
    {
      value
    }
  }
}
