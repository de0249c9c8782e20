/** Types that several parts share. */
module Common {

  datatype Option<T> = None | Some(value: T)

  type byte = x: nat | x < 0x100

  type uint32 = x: nat | x < 0x1_0000_0000
}
