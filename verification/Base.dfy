/** Shared value types and machine-integer bounds. */
module Base {

  datatype Option<+T> = None | Some(value: T)

  type byte = b: int | 0 <= b < 0x100

  type Bytes = seq<byte>

  /** 20-byte addresses and 32-byte hashes are only ever compared, so their bytes are left out. */
  type Address = nat

  type Hash = nat

  const TWO_TO_64: nat := 0x1_0000_0000_0000_0000

  const TWO_TO_256: nat :=
    0x1_0000_0000_0000_0000_0000_0000_0000_0000_0000_0000_0000_0000_0000_0000_0000_0000

  /** Unsigned 256-bit arithmetic wraps around. */
  function Wrap256(x: int): (r: nat)
    ensures r < TWO_TO_256
    ensures 0 <= x < TWO_TO_256 ==> r == x
  {
    if 0 <= x < TWO_TO_256 then x else x % TWO_TO_256
  }

  const TWO_TO_32: nat := 0x1_0000_0000

  /** Unsigned 32-bit arithmetic wraps around. */
  function Wrap32(x: nat): (r: nat)
    ensures r < TWO_TO_32
    ensures x < TWO_TO_32 ==> r == x
  {
    if x < TWO_TO_32 then x else x % TWO_TO_32
  }

  /** Unsigned 64-bit arithmetic wraps around. */
  function Wrap64(x: int): (r: nat)
    ensures r < TWO_TO_64
    ensures 0 <= x < TWO_TO_64 ==> r == x
  {
    if 0 <= x < TWO_TO_64 then x else x % TWO_TO_64
  }

  lemma Regroup<T>(a: seq<T>, b: seq<T>, c: seq<T>)
    ensures a + (b + c) == (a + b) + c
  {
  }

  lemma {:induction false} Multiples(a: nat, b: nat, step: nat)
    requires a < b
    ensures a * step + step <= b * step
    decreases b
  {
    assert b * step == (b - 1) * step + step;
    if a + 1 < b {
      Multiples(a, b - 1, step);
    }
  }
}
