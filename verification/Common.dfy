/** Constants that several parts of the system share. */
module Common {

  const UINT: nat := 0x1_0000_0000   // a uint counts modulo this
  const MAXOPBLOCKS: nat := 10       // blocks one operation may log
  const LOGSIZE: nat := 30           // data blocks in the log
  type Byte = x: int | 0 <= x < 256
  type Block = seq<Byte>             // a disk block

  const NUL: char := '\0'
  const FREE: int := -1              // the holder of a lock nobody holds
}
