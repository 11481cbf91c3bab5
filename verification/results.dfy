/** Failure-carrying return types shared by every module of the model. */
module Results {

  /** A value that may be absent: a storage lookup, a parse that can fail without a reason. */
  datatype Option<+T> = None | Some(value: T)

  /** The outcome of a fallible operation: Rust's `Result<T, E>`. */
  datatype Result<+T, +E> = Ok(value: T) | Err(error: E)
}

/** Rust's bytes and the integer bounds the model relies on, declared once for every module. */
module RustTypes {

  /** A `u8` held in a byte buffer. */
  type Byte = x: int | 0 <= x < 256
  type Bytes = seq<Byte>

  /** `u64::MAX`. */
  const U64_MAX: nat := 0xFFFF_FFFF_FFFF_FFFF

  /** A `u64`. */
  type U64 = x: nat | x <= U64_MAX

  /** 2^64, one more than `usize::MAX` on the 64-bit targets: a Rust slice or `Vec` never holds this many bytes. */
  const USIZE_LIMIT: nat := 0x1_0000_0000_0000_0000

  /** The contents of a Rust `Vec<u8>`, `&[u8]` or `String`. */
  type RustBytes = b: Bytes | |b| < USIZE_LIMIT
}
