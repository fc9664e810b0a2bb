/** Machine words of the kernel code, and the option type used for a lock holder. */
module Words {
  const WORD: int := 0x1_0000_0000

  /** A C `unsigned int`. */
  type u32 = x: int | 0 <= x < 0x1_0000_0000

  /** `x++` on an unsigned int: wraps to zero. */
  function Inc(x: u32): u32 {
    if x == WORD - 1 then 0 else x + 1
  }

  /** `x--` on an unsigned int: wraps to the largest word. */
  function Dec(x: u32): u32 {
    if x == 0 then WORD - 1 else x - 1
  }

  datatype Option<+T> = None | Some(value: T)
}
