/** Values used by several components. */
module Common {

  type Byte = x: int | 0 <= x < 256

  datatype Option<+T> = None | Some(value: T)

  // errno values
  const ENOMEM := 12
  const EFAULT := 14
  const ENOTTY := 25
}
