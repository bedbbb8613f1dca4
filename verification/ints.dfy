/**
 Go's fixed-width integers. The model computes on unbounded `int`s and
 keeps each Go value inside its type's range with a subset type; the
 validator's numeric helpers switch on the kind of an integer, so the
 kinds and their ranges are listed here as well (a 64-bit platform, so
 `int` and `uint` are 64 bits wide).
 */
module Ints {

  const TwoTo32: int := 0x1_0000_0000
  const MinInt64: int := -0x8000_0000_0000_0000
  const MaxInt64: int := 0x7fff_ffff_ffff_ffff

  /** Go's `uint8`: colour channels and estimation points. */
  type uint8 = x: int | 0 <= x < 0x100

  /** Go's `uint32`: the validator's string lengths and bounds. */
  type uint32 = x: int | 0 <= x < TwoTo32

  /** Go's `int64`: the representation of `time.Duration`. */
  type int64 = x: int | MinInt64 <= x <= MaxInt64

  datatype IntKind = Int | Int8 | Int16 | Int32 | Int64 | Uint | Uint8 | Uint16 | Uint32 | Uint64 {

    predicate Signed() {
      Int? || Int8? || Int16? || Int32? || Int64?
    }

    function Min(): int {
      match this
      case Int => MinInt64
      case Int8 => -0x80
      case Int16 => -0x8000
      case Int32 => -0x8000_0000
      case Int64 => MinInt64
      case _ => 0
    }

    function Max(): int {
      match this
      case Int => MaxInt64
      case Int8 => 0x7f
      case Int16 => 0x7fff
      case Int32 => 0x7fff_ffff
      case Int64 => MaxInt64
      case Uint => 0xffff_ffff_ffff_ffff
      case Uint8 => 0xff
      case Uint16 => 0xffff
      case Uint32 => 0xffff_ffff
      case Uint64 => 0xffff_ffff_ffff_ffff
    }
  }
}
