/** An optional value, shared by the bootloader and planning models. */
module Options {

  datatype Option<+T> = None | Some(value: T)

}
