/** Machine integers of the configuration modelled here (LP64, 64-bit Lua integers).
    A C `int` is `int32`, a `lua_Integer` is `int64`. Arithmetic on these newtypes is
    checked by the verifier for overflow, which is how signed overflow (undefined in C)
    shows up in the model: as an obligation, or as a precondition of the operation. */
module CInt {

  newtype int32 = x: int | -0x8000_0000 <= x < 0x8000_0000

  newtype int64 = x: int | -0x8000_0000_0000_0000 <= x < 0x8000_0000_0000_0000

  /** x is in the range of C `int`. */
  predicate IsInt32(x: int) {
    -0x8000_0000 <= x < 0x8000_0000
  }

  /** x is in the range of `lua_Integer`. */
  predicate IsInt64(x: int) {
    -0x8000_0000_0000_0000 <= x < 0x8000_0000_0000_0000
  }

  /** The conversion of an integer to C `int`: the low 32 bits, read as two's complement
      (implementation-defined in C; what every mainstream compiler does). */
  function Narrow32(x: int): (r: int32)
    ensures (r as int - x) % 0x1_0000_0000 == 0
    ensures IsInt32(x) ==> r as int == x
  {
    var m := x % 0x1_0000_0000;
    if m < 0x8000_0000 then m as int32 else (m - 0x1_0000_0000) as int32
  }

  /** The conversion of an integer to a 64-bit signed integer (`lua_Integer`). */
  function Narrow64(x: int): (r: int64)
    ensures (r as int - x) % 0x1_0000_0000_0000_0000 == 0
    ensures IsInt64(x) ==> r as int == x
  {
    var m := x % 0x1_0000_0000_0000_0000;
    if m < 0x8000_0000_0000_0000 then m as int64 else (m - 0x1_0000_0000_0000_0000) as int64
  }
}
