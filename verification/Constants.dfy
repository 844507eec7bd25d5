/** Error numbers, which functions return negated, and the size of a request's list of aliases (mctools.h). */
module Constants {
  const ENOENT := 2
  const EIO := 5
  const ENOMEM := 12
  const EINVAL := 22

  const MAX_RPC_FILE_ENTRIES := 8
}
