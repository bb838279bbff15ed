/** The optional-value wrapper used across the model. */
module Optional {

  datatype Option<+T> = None | Some(value: T)
}
