/** Small value types shared by every module of the model: optional values,
    the Python exceptions the modelled code can raise, and results that carry them. */
module Common {

  datatype Option<+T> = None | Some(value: T)

  /** The exception kinds the modelled Python code raises on its error paths. */
  datatype PyError =
    | ValueError        // int()/float() of a malformed token, unpacking too few fields, unknown collector
    | KeyError          // lookup of a missing dictionary key
    | IndexError        // indexing past the end of a split record
    | UnboundLocalError // a local never assigned because no branch matched
    | ZeroDivisionError // division by a zero interval
    | AttributeError    // access to an attribute the object does not have
    | NotImplementedError // a hook the observer base class leaves unimplemented
    | TypeError         // an operator applied to an operand of the wrong type

  datatype Result<+T> = Ok(value: T) | Err(error: PyError)

  /** Python truthiness of an optional list: `None` and `[]` are false. */
  predicate Truthy<T>(o: Option<seq<T>>) {
    o.Some? && o.value != []
  }
}
