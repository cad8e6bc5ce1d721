/** What every part of the model shares: optional values, bytes, and the machine's sizes. */
module Common {

  datatype Option<T> = None | Some(value: T)

  type byte = x: int | 0 <= x < 256

  const TWO_32 := 0x1_0000_0000
  const PAGE_SIZE := 4096

  /** One past the highest 64-bit address. */
  const ADDRESS_LIMIT: int := 0x1_0000_0000_0000_0000

  function Min(a: int, b: int): int { if a < b then a else b }

  function Max(a: int, b: int): int { if a < b then b else a }
}
