/** The optional value used wherever the modelled code returns std::optional or None. */
module Options {

  datatype Option<+T> = None | Some(value: T)
}
