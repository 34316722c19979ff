/** The optional value used where the assembler keeps a Java `null`. */
module Options {

  datatype Option<T> = None | Some(value: T)
}
