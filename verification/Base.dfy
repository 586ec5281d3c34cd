/** Types shared by every module. */
module Base {

  type byte = b: int | 0 <= b < 256

  const PAGE_SIZE: nat := 4096

  /** One more than the largest 64-bit value. */
  const WORD: nat := 0x1_0000_0000_0000_0000

  datatype Option<+T> = None | Some(value: T)

  function Min(a: nat, b: nat): nat {
    if a < b then a else b
  }

  /** The effect of memcpy(base + at, data, |data|) on a buffer. */
  function Overwrite<T>(base: seq<T>, at: nat, data: seq<T>): (r: seq<T>)
    requires at + |data| <= |base|
    ensures |r| == |base|
  {
    base[..at] + data + base[at + |data|..]
  }
}
