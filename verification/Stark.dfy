/** Error codes, integer widths and the small bit helpers the components share. */
module Stark {

  /** components/stark_err/include/stark_err.h */
  datatype Err = Ok | InvalidArg | NoMem | Timeout | NotFound | NotSupported | Busy | Io | State | NoSpace

  datatype Option<+T> = None | Some(value: T)

  type byte = x: int | 0 <= x < 0x100
  type uint16 = x: int | 0 <= x < 0x1_0000
  type uint32 = x: int | 0 <= x < 0x1_0000_0000

  const TWO32 := 0x1_0000_0000

  function Min(a: int, b: int): int {
    if a < b then a else b
  }

  function Max(a: int, b: int): int {
    if a > b then a else b
  }

  /** Addition and subtraction of uint32_t values, which wrap. */
  function Add32(a: uint32, b: uint32): uint32 {
    if a + b < TWO32 then a + b else a + b - TWO32
  }

  function Sub32(a: uint32, b: uint32): uint32 {
    if a >= b then a - b else a - b + TWO32
  }

  lemma {:induction false} SubSlice<T>(s: seq<T>, a: nat, b: nat, c: nat, d: nat)
    requires a <= b <= |s| && c <= d <= b - a
    ensures s[a..b][c..d] == s[a + c..a + d]
  {
    forall k | 0 <= k < d - c
      ensures s[a..b][c..d][k] == s[a + c..a + d][k]
    {
      assert s[a..b][c..d][k] == s[a..b][c + k] == s[a + (c + k)];
    }
  }

  lemma {:induction false} MulGrows(a: nat, b: nat, c: nat)
    requires a <= b
    ensures 0 <= a * c <= b * c && c * a <= c * b
  {
    assert b * c - a * c == (b - a) * c;
  }
}
