/** Machine words, optional values and a few sequence helpers shared by the whole project. */
module Basics {

  datatype Option<+T> = None | Some(value: T) {
    function GetOr(default: T): T {
      if Some? then value else default
    }
  }

  /** The program's uint32_t: block numbers, water marks, millisecond counters. */
  type u32 = n: int | 0 <= n < 0x1_0000_0000

  function Inc32(n: u32): u32 {
    if n == 0xffff_ffff then 0 else n + 1
  }

  /** `n - 1` in unsigned 32-bit arithmetic: 0 wraps to the largest word. */
  function Dec32(n: u32): u32 {
    if n == 0 then 0xffff_ffff else n - 1
  }

  /** `a - b` in unsigned 32-bit arithmetic. */
  function Sub32(a: u32, b: u32): u32 {
    if b <= a then a - b else a - b + 0x1_0000_0000
  }

  function Min(a: int, b: int): int {
    if a <= b then a else b
  }

  function Max(a: int, b: int): int {
    if a <= b then b else a
  }

  function Last<T>(s: seq<T>): T
    requires s != []
  {
    s[|s| - 1]
  }

  function Front<T>(s: seq<T>): seq<T>
    requires s != []
  {
    s[..|s| - 1]
  }
}
