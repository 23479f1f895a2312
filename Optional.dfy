/** Python's `None` next to a value: the quiz starts out as `None`, and an
    answer slot is `None` until the user picks an option. */
module Optional {

  datatype Option<+T> = None | Some(value: T)
}
