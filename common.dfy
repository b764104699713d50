/** Types and failure values shared by every component of the emulator. */
module Common {
  /** Rust's `u8` and `u16`, as bit-vectors so that shifts and masks mean what they mean in the source. */
  type u8 = bv8
  type u16 = bv16

  /** Rust's `u32`: the tick counter and the configured cycle rate. */
  newtype u32 = x: int | 0 <= x < 0x1_0000_0000

  /** The kinds of failure the core reports: a memory access outside RAM, or the renderer giving up. */
  datatype Error = OutOfBounds | RenderFailed

  /** `anyhow::Result<()>` with the message replaced by its kind. */
  datatype Outcome = Pass | Fail(error: Error)

  /** `anyhow::Result<T>` with the message replaced by its kind. */
  datatype Result<T> = Ok(value: T) | Err(error: Error)

  datatype Option<T> = None | Some(value: T)

  function Max(a: int, b: int): int
  {
    if a >= b then a else b
  }
}
