/** Constants and small notions that several parts share. */
module Common {

  /** Bytes in a sector, and sectors in the chunk one dirty bit stands for (block.h). */
  const SECTOR: nat := 512
  const CHUNK: nat := 2048

  /** Error numbers; functions return them negated. */
  const EIO: int := 5
  const EAGAIN: int := 11
  const EACCES: int := 13
  const EINVAL: int := 22
  const ENOTSUP: int := 95
  const ENOMEDIUM: int := 123

  /** C division truncates toward zero. */
  function CDiv(a: int, b: int): int
    requires b > 0
  {
    if a >= 0 then a / b else -(-a / b)
  }

  ghost predicate Distinct<T>(l: seq<T>) {
    forall i, j :: 0 <= i < j < |l| ==> l[i] != l[j]
  }
}
