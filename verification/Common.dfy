/** What several parts of the kernel share: bytes, page directories and error numbers. */
module Common {
  type Byte = b: int | 0 <= b < 256

  /** Page directories: one for each task structure, in the array `dir_pages` and the counts `refs_DIR`. */
  const NR_DIRS := 15

  type Dir = d: int | 0 <= d < 15

  const EPERM := 1
  const EBADF := 9
  const ENOMEM := 12
  const EACCES := 13
  const EFAULT := 14
  const EBUSY := 16
  const EINVAL := 22

  /** The numbers that programs see are those of errno.h. */
  lemma ErrorNumbers()
    ensures EPERM == 1 && EBADF == 9 && ENOMEM == 12 && EACCES == 13 && EFAULT == 14 && EBUSY == 16 && EINVAL == 22
  {
  }
}
