/** What all parts share: optional values, octets and the sizes of machine words. */
module Machine {
  datatype Option<+T> = None | Some(value: T)

  type Octet = x: int | 0 <= x < 256

  const U32 := 0x1_0000_0000
  const U64 := 0x1_0000_0000_0000_0000

  /** What a number becomes in a signed 32-bit integer. */
  function Signed32(x: int): int {
    var v := x % U32;
    if v < U32 / 2 then v else v - U32
  }
}
