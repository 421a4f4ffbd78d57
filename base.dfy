/** Shared value types: an optional value and the fixed-width integers the
    Rust code declares its fields with. */
module Base {

  /** Rust's `Option<T>` and JavaScript's `null`/`undefined` results. */
  datatype Option<+T> = None | Some(value: T)

  newtype i32 = x: int | -0x8000_0000 <= x < 0x8000_0000
  newtype i64 = x: int | -0x8000_0000_0000_0000 <= x < 0x8000_0000_0000_0000
  newtype u8 = x: int | 0 <= x < 0x100
  newtype u16 = x: int | 0 <= x < 0x1_0000
  newtype u64 = x: int | 0 <= x < 0x1_0000_0000_0000_0000

  /** `p` is a prefix of `s`. */
  predicate IsPrefix(p: string, s: string) {
    |p| <= |s| && s[..|p|] == p
  }
}
