/** Types that several components share. */
module Types {
  type IP = string
  type EniId = string

  datatype Option<T> = None | Some(value: T)
}
