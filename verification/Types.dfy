/** Machine words, saturating arithmetic and small datatypes shared by every component. */
module Types {
  type u32 = x: int | 0 <= x < 0x1_0000_0000
  type u64 = x: int | 0 <= x < 0x1_0000_0000_0000_0000
  type u128 = x: int | 0 <= x < 0x1_0000_0000_0000_0000_0000_0000_0000_0000

  const U64_MAX: u64 := 0xFFFF_FFFF_FFFF_FFFF
  const U128_MAX: u128 := 0xFFFF_FFFF_FFFF_FFFF_FFFF_FFFF_FFFF_FFFF

  /** A 32-byte hash, read as a big-endian number, so that `<` is the byte-wise order. */
  type Hash = nat

  /** The all-zero hash, the code's "no block" sentinel. */
  const ZERO: Hash := 0

  /** One of the five mining lanes. */
  type LaneId = x: int | 0 <= x < 5

  datatype Option<+T> = None | Some(value: T)

  function Min(a: int, b: int): int { if a <= b then a else b }

  function Max(a: int, b: int): int { if a <= b then b else a }

  /** What an unbounded sum becomes when every addition saturates at the u64 maximum. */
  function Cap64(x: nat): u64 { Min(x, U64_MAX) }

  function Cap128(x: nat): u128 { Min(x, U128_MAX) }

  /** Saturating subtraction. */
  function Minus(x: nat, y: nat): nat { if y <= x then x - y else 0 }

  function SeqSet<T(==)>(s: seq<T>): set<T> { set x | x in s }

  ghost predicate NoRepeats<T>(s: seq<T>) { forall i, j :: 0 <= i < j < |s| ==> s[i] != s[j] }
}
