/** Machine integers, optional values and outcomes shared by every component. */
module Common {

  const U64_MAX: int := 0xFFFF_FFFF_FFFF_FFFF

  type u64 = x: int | 0 <= x <= 0xFFFF_FFFF_FFFF_FFFF
  type u32 = x: int | 0 <= x <= 0xFFFF_FFFF
  type u16 = x: int | 0 <= x <= 0xFFFF
  type u8 = x: int | 0 <= x <= 0xFF

  datatype Option<+T> = None | Some(value: T)

  datatype Result<+T, +E> = Ok(value: T) | Err(error: E)

  /** The outcome of a checked operation that produces no value. */
  datatype Outcome<+E> = Pass | Fail(error: E)

  function Min(a: int, b: int): int { if a < b then a else b }

  function Max(a: int, b: int): int { if a < b then b else a }

  /** Stable error codes: one to sixty-four upper-case letters, digits or underscores. */
  predicate ValidErrorCode(code: string) {
    && 1 <= |code| <= 64
    && forall i :: 0 <= i < |code| ==> 'A' <= code[i] <= 'Z' || '0' <= code[i] <= '9' || code[i] == '_'
  }

  /** The interface generation that every observation engine is bound to. */
  datatype Identity = Identity(ifindex: u32, generation: u64)

  predicate ValidIdentity(id: Identity) { id.ifindex != 0 && id.generation != 0 }
}
