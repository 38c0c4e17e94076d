/** The two outcome shapes shared by every module, and the integer widths the
    database columns impose on values bound from Rust's `u64`. */
module Outcomes {

  datatype Option<+T> = None | Some(value: T) {
    /** Rust's `unwrap_or`. */
    function GetOr(default: T): T {
      match this
      case Some(v) => v
      case None => default
    }
  }

  datatype Result<+R, +E> = Ok(value: R) | Err(error: E)

  const I64_MAX: int := 0x7FFF_FFFF_FFFF_FFFF
  const U64_MAX: int := 0xFFFF_FFFF_FFFF_FFFF

  /** `u64_to_i64`: binding to an `INTEGER` column saturates. */
  function ToI64(value: nat): int {
    if value <= I64_MAX then value else I64_MAX
  }

  /** What fits 63 bits is kept; anything above reads as the greatest such number. */
  lemma ColumnSaturates(value: nat)
    ensures ToI64(value) == value <==> value < 0x8000_0000_0000_0000
    ensures value >= 0x8000_0000_0000_0000 ==> ToI64(value) == 0x7FFF_FFFF_FFFF_FFFF
  {
  }
}
