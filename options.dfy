/** The usual optional value: a failed market-data load, or a bar sequence too short to play. */
module Options {

  datatype Option<T> = None | Some(value: T)
}
