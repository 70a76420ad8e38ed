/** Optional values and error-carrying results used across the model.
    Every exception the modelled Python code can raise on its own is an `Error`. */
module Results {

  datatype Option<+T> = None | Some(value: T)

  /** The exceptions that the modelled code raises itself (not those of its collaborators). */
  datatype Error =
    | IndexOutOfRange   // pandas `iloc` past the last row
    | EmptySequence     // `max()` of an empty sequence or array
    | ZeroSliceStep     // a slice `start::0`
    | NothingToStack    // `np.vstack([])`
    | BadReshape        // `reshape(-1, 0)`: the `-1` axis cannot be inferred

  datatype Result<+T> = Ok(value: T) | Err(error: Error)
}
