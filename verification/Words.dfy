/** Machine words, and the modular order of 32-bit packet sequence numbers.

    Rust's fixed-width integers are subset types here; every wrap-around or
    saturation of the source is written out as one of the functions below. */
module Words {

  type u8 = x: int | 0 <= x < 0x100
  type u32 = x: int | 0 <= x < 0x1_0000_0000
  type i32 = x: int | -0x8000_0000 <= x < 0x8000_0000
  type u64 = x: int | 0 <= x < 0x1_0000_0000_0000_0000

  const U32_MAX := 0xffff_ffff
  const I32_MAX := 0x7fff_ffff
  const U64_MAX := 0xffff_ffff_ffff_ffff

  datatype Option<+T> = None | Some(value: T)

  datatype Result<+T, +E> = Ok(value: T) | Err(error: E)

  function WrappingAdd(a: u32, b: u32): u32 {
    (a + b) % 0x1_0000_0000
  }

  function WrappingSub(a: u32, b: u32): u32 {
    (a - b) % 0x1_0000_0000
  }

  function SaturatingAdd(a: u64, b: u64): u64 {
    if a + b > U64_MAX then U64_MAX else a + b
  }

  function SaturatingSub(a: u64, b: u64): u64 {
    if a < b then 0 else a - b
  }

  /** The order test that bridge and interpreter both apply to a new packet. */
  predicate Later(current: u32, previous: u32) {
    var delta := WrappingSub(current, previous);
    !(delta == 0 || delta > I32_MAX)
  }

  /** The firmware tool's signed difference, on Python's unbounded integers. */
  function SignedInt32Delta(current: int, previous: int): int {
    (current - previous + 0x8000_0000) % 0x1_0000_0000 - 0x8000_0000
  }

  /** The two languages order every pair of 32-bit sequence numbers alike. */
  lemma LaterIffSignedDeltaPositive(current: u32, previous: u32)
    ensures Later(current, previous) <==> SignedInt32Delta(current, previous) > 0
  {
    var d := current - previous;
    if d >= 0 {
      assert WrappingSub(current, previous) == d;
      if d < 0x8000_0000 {
        assert (d + 0x8000_0000) % 0x1_0000_0000 == d + 0x8000_0000;
      } else {
        assert (d + 0x8000_0000) % 0x1_0000_0000 == d + 0x8000_0000 - 0x1_0000_0000;
      }
    } else {
      assert WrappingSub(current, previous) == d + 0x1_0000_0000;
      if d >= -0x8000_0000 {
        assert (d + 0x8000_0000) % 0x1_0000_0000 == d + 0x8000_0000;
      } else {
        assert (d + 0x8000_0000) % 0x1_0000_0000 == d + 0x8000_0000 + 0x1_0000_0000;
      }
    }
  }

  /** The signed difference is the one representative in [-2^31, 2^31) of the
      true difference modulo 2^32. */
  lemma SignedDeltaIsTheRepresentative(current: int, previous: int, d: int)
    ensures SignedInt32Delta(current, previous) == d <==>
            -0x8000_0000 <= d < 0x8000_0000 && (current - previous - d) % 0x1_0000_0000 == 0
  {
    var x := current - previous + 0x8000_0000;
    var r := x % 0x1_0000_0000;
    var q := x / 0x1_0000_0000;
    assert x == q * 0x1_0000_0000 + r;
    if -0x8000_0000 <= d < 0x8000_0000 && (current - previous - d) % 0x1_0000_0000 == 0 {
      var k := (current - previous - d) / 0x1_0000_0000;
      assert current - previous - d == k * 0x1_0000_0000;
      assert x == k * 0x1_0000_0000 + (d + 0x8000_0000);
      assert k == q;
    }
    if SignedInt32Delta(current, previous) == d {
      assert current - previous - d == q * 0x1_0000_0000;
    }
  }
}
