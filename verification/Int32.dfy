/**
 Java's int arithmetic, which wraps around.
 */
module Int32 {
  const TWO_31 := 0x8000_0000
  const TWO_32 := 0x1_0000_0000

  function ToInt32(x: int): int {
    var low := x % TWO_32;
    if low >= TWO_31 then low - TWO_32 else low
  }
}
