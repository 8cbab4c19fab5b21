/** Machine words, and physical memory as the kernel's pointer code sees it:
    64-bit words at 8-aligned byte addresses below the end of RAM. */
module Ram {
  /** A `u64` / `usize` value. */
  type Word = x: int | 0 <= x < 0x1_0000_0000_0000_0000

  /** 32-bit wrapping arithmetic. */
  function Mod32(x: int): (r: int)
    ensures 0 <= r < 0x1_0000_0000
  {
    x % 0x1_0000_0000
  }

  /** 64-bit wrapping arithmetic. */
  function Mod64(x: int): (r: int)
    ensures 0 <= r < 0x1_0000_0000_0000_0000
  {
    x % 0x1_0000_0000_0000_0000
  }

  datatype Option<+T> = None | Some(value: T)

  const MAX_TASKS: int := 4

  /** End of QEMU `virt` RAM: 128 MiB from 0x8000_0000. */
  const RAM_END: int := 0x8800_0000
  const RAM_WORDS: int := 0x1100_0000
  const RAM_FRAMES: int := 0x8_8000

  /** Word `i` holds the eight bytes at address `8 * i`, so frame `f` (byte
      address `4096 * f`) is words `512 * f` up to `512 * f + 511`. */
  type Mem = m: seq<Word> | |m| == RAM_WORDS witness seq(RAM_WORDS, _ => 0)

  /** A panic stops the kernel; every panicking operation returns this. */
  datatype Outcome<+T> = Done(value: T) | Panic

  /** `ptr::write_bytes(pa, 0, PAGE_SIZE)`. */
  function Zeroed(m: Mem, pa: int): (r: Mem)
    ensures forall w | 0 <= w < RAM_WORDS :: r[w] == if pa <= 8 * w < pa + 4096 then 0 else m[w]
  {
    seq(RAM_WORDS, w requires 0 <= w < RAM_WORDS => if pa <= 8 * w < pa + 4096 then 0 else m[w])
  }
}
