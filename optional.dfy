/** The optional value word_wrap and create_titlecard return (Python's `None` or a value). */
module Optional {

  datatype Option<+T> = None | Some(value: T)
}
