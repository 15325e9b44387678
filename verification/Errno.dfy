/** Error numbers; the driver returns them negated. */
module Errno {
  const EIO: int := 5
  const EBUSY: int := 16
  const EINVAL: int := 22
  const ERANGE: int := 34
}
