/** Optional values and results shared by the modules of this model. */
module Results {

  datatype Option<+T> = None | Some(value: T)

  /** The errors the modelled code throws. */
  datatype Error =
    | UnregisteredElement   // the element registry has no box class for the element type
    | TypeMismatch          // "type mismatch" in insertNode, deleteNode, updateNode
    | ExpectingBlockBox     // the registry built something that is not a block box
    | ExpectingInlineBox
    | ExpectingAtomicBox
    | ChildNotFound         // deleteChild of a child that is not there

  datatype Result<+T> = Ok(value: T) | Err(error: Error)

  /** The outcome of an operation that returns nothing but may throw. */
  datatype Outcome = Pass | Fail(error: Error)

  /**
   * How a reflow loop ends: normally; on reading a child that is not there
   * (a TypeError in the source); or on exhausting the fuel that bounds its
   * `while (true)`, which stands for a loop that would not end.
   */
  datatype Ending = Finished | Undefined | OutOfFuel
}
