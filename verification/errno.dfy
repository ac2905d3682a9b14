/** Status codes shared by every component: zero for success, a negative errno otherwise. */
module Errno {
  const ENOENT := -2
  const EIO := -5
  const ENXIO := -6
  const EAGAIN := -11
  const ENOMEM := -12
  const EACCES := -13
  const EBUSY := -16
  const EEXIST := -17
  const EINVAL := -22
  const ENOSPC := -28
  const ERANGE := -34
  const EDEADLK := -35
  const EPROTO := -71
  const EOVERFLOW := -75
  const EMSGSIZE := -90
  const ETIMEDOUT := -110
  const EALREADY := -114
  const ESTALE := -116
  const ECANCELED := -125

  const U32_LIMIT: nat := 0x1_0000_0000
  const U64_LIMIT: nat := 0x1_0000_0000_0000_0000
  const U64_MAX: nat := U64_LIMIT - 1
}
