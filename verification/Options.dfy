/** The optional values that the durable rows carry (SQL NULL, JSON null). */
module Options {
  datatype Option<+T> = None | Some(value: T)
}
