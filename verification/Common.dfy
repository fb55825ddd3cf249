/** What several modules share: optional values and the limits of param.h. */
module Common {
  datatype Option<+T> = None | Some(value: T)

  const NPROC: nat := 64
  const NOFILE: nat := 16
  const NFILE: nat := 100
  const NINODE: nat := 50
  const MAXOPBLOCKS: nat := 10
  const LOGSIZE: nat := 3 * MAXOPBLOCKS
}
