/** Unsigned 64-bit arithmetic, which wraps around. */
module MachineWords {
  const TWO64 := 0x1_0000_0000_0000_0000

  type u64 = x: int | 0 <= x < TWO64

  function Wrap(x: int): (r: u64)
    ensures 0 <= x < TWO64 ==> r == x
  {
    x % TWO64
  }

  function Add(a: u64, b: u64): (r: u64)
    ensures r == a + b || r == a + b - TWO64
  {
    Wrap(a + b)
  }

  function Sub(a: u64, b: u64): (r: u64)
    ensures r == a - b || r == a - b + TWO64
  {
    Wrap(a - b)
  }
}
