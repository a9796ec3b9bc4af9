/** An optional value: a null pointer, an absent handle, a foreign call that
    was not made. */
module Options {

  datatype Option<+T> = None | Some(value: T)
}
