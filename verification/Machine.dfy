/** Machine arithmetic of the 16-bit target: `int`, `size_t` and pointers are one word wide. */
module Machine {

  const WORD: int := 0x1_0000

  /** A byte of memory. */
  type Byte = b: int | 0 <= b < 256

  /** An unsigned 16-bit word. */
  type Word = w: int | 0 <= w < WORD

  datatype Option<+T> = None | Some(value: T)

  /** Unsigned wrap-around. */
  function U16(x: int): Word {
    x % WORD
  }

  /** Wrapping once or twice is the same. */
  lemma U16Twice(a: int, b: int)
    ensures U16(U16(a) + b) == U16(a + b)
  {}

  function Min(a: int, b: int): int {
    if a < b then a else b
  }

  function Max(a: int, b: int): int {
    if a < b then b else a
  }

  /** The sum of a list of lengths. */
  function Sum(lens: seq<nat>): nat {
    if lens == [] then 0 else lens[0] + Sum(lens[1..])
  }
}
