/** A value that may be absent: a keyword argument the caller did not pass,
    or the cost of a walk through the table that is not legal. */
module Maybe {

  datatype Option<T> = None | Some(value: T)
}
