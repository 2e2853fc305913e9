/** The error numbers that system calls return, negated. */
module Errno {
  const EBADF: int := 9
  const ECHILD: int := 10
  const EAGAIN: int := 11
  const ENOMEM: int := 12
  const EFAULT: int := 14
  const EINVAL: int := 22
  const EPIPE: int := 32
  const ENOSYS: int := 38
  const ETIMEDOUT: int := 110
}
