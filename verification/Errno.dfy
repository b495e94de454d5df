/** The kernel's result codes: 0 for success, or an error from errno.h. */
module Errno {
  datatype Errno =
    | OK
    | ENOENT
    | EEXIST
    | ENOSPC
    | EFBIG
    | ENAMETOOLONG
    | EBUSY
    | EINVAL
    | ENXIO
    | ENOMEM
    | EFAULT
    | ENOTDIR
    | EISDIR
}
