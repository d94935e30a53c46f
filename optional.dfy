/** A nullable value: the source's `null` references and nullable structs. */
module Optional {
  datatype Option<+T> = None | Some(value: T)
}
