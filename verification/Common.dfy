/** Types that several parts of the model share. */
module Common {

  datatype Option<T> = None | Some(value: T)

  /** The two events of a descriptor. */
  datatype Event = READ | WRITE
}
