/** Small types shared by every model in this project. */
module Types {

  datatype Option<+T> = None | Some(value: T)

  /** A Redis key. Wrapped so that keys are compared as atoms. */
  datatype Key = Key(text: string)

  /** Durations and instants are counted in nanoseconds, as in Go's time.Duration. */
  const MILLISECOND: int := 1_000_000

  /** What Go's signed 64-bit arithmetic leaves of an exact integer. */
  function Wrap64(n: int): (r: int)
    ensures -0x8000_0000_0000_0000 <= r < 0x8000_0000_0000_0000
    ensures -0x8000_0000_0000_0000 <= n < 0x8000_0000_0000_0000 ==> r == n
    ensures (r - n) % 0x1_0000_0000_0000_0000 == 0
  {
    (n + 0x8000_0000_0000_0000) % 0x1_0000_0000_0000_0000 - 0x8000_0000_0000_0000
  }
}
