/** The journal's CRC-32 (section 8 of RFC 1952), and the corruption it must notice. */
module Crc32 {
  import opened Words
  import opened Bitwise

  const POLYNOMIAL: u32 := 0xedb8_8320

  /** One bit step: shift, and subtract the polynomial if a one fell out. */
  function Bit(c: nat): nat {
    if c % 2 == 1 then Xor(c / 2, POLYNOMIAL) else c / 2
  }

  function Bits(c: nat, n: nat): nat {
    if n == 0 then c else Bit(Bits(c, n - 1))
  }

  function Feed(c: nat, b: u8): nat {
    Bits(Xor(c, b), 8)
  }

  function FeedAll(c: nat, bytes: seq<u8>): nat
    decreases |bytes|
  {
    if bytes == [] then c else FeedAll(Feed(c, bytes[0]), bytes[1..])
  }

  function Crc(bytes: seq<u8>): nat {
    Xor(FeedAll(U32_MAX, bytes), U32_MAX)
  }

  method Checksum(bytes: seq<u8>) returns (r: nat)
    ensures r == Crc(bytes)
  {
    hide Xor, Bit;
    var crc: nat := U32_MAX;
    for i := 0 to |bytes|
      invariant crc == FeedAll(U32_MAX, bytes[..i])
    {
      assert bytes[..i + 1] == bytes[..i] + [bytes[i]];
      FeedAllConcat(U32_MAX, bytes[..i], [bytes[i]]);
      crc := Xor(crc, bytes[i]);
      ghost var start := crc;
      for j := 0 to 8
        invariant crc == Bits(start, j)
      {
        var mask: nat := if crc % 2 == 0 then 0 else U32_MAX;
        MaskedStep(crc);
        crc := Xor(crc / 2, if mask == 0 then 0 else POLYNOMIAL);
      }
    }
    assert bytes[..|bytes|] == bytes;
    return Xor(crc, U32_MAX);
  }

  lemma MaskedStep(c: nat)
    ensures Bit(c) == Xor(c / 2, if c % 2 == 0 then 0 else POLYNOMIAL)
  {
    XorZero(c / 2);
  }

  // ------------------------------------------------ each step is a linear bijection

  lemma XorSwaps(a: nat, b: nat, x: nat)
    ensures Xor(Xor(a, x), Xor(b, x)) == Xor(a, b)
    ensures Xor(Xor(a, x), b) == Xor(Xor(a, b), x) == Xor(a, Xor(b, x))
  {
    XorCommutes(b, x);
    XorAssociates(a, x, Xor(x, b));
    XorAssociates(x, x, b);
    XorSelf(x);
    XorCommutes(0, b);
    XorZero(b);
    XorAssociates(a, x, b);
    XorAssociates(a, b, x);
  }

  lemma BitIsLinear(a: nat, b: nat)
    ensures Bit(Xor(a, b)) == Xor(Bit(a), Bit(b))
  {
    XorStep(a, b);
    XorSwaps(a / 2, b / 2, POLYNOMIAL);
  }

  lemma {:induction false} BitsAreLinear(a: nat, b: nat, n: nat)
    ensures Bits(Xor(a, b), n) == Xor(Bits(a, n), Bits(b, n))
  {
    if n > 0 {
      BitsAreLinear(a, b, n - 1);
      BitIsLinear(Bits(a, n - 1), Bits(b, n - 1));
    }
  }

  lemma Pow2BySixteen(k: nat)
    ensures Pow2(k + 16) == 0x1_0000 * Pow2(k)
  {
    Pow2ByFour(k);
    Pow2ByFour(k + 4);
    Pow2ByFour(k + 8);
    Pow2ByFour(k + 12);
  }

  lemma Pow2ByFour(k: nat)
    ensures Pow2(k + 4) == 0x10 * Pow2(k)
  {
    assert Pow2(k + 1) == 2 * Pow2(k);
    assert Pow2(k + 2) == 2 * Pow2(k + 1);
    assert Pow2(k + 3) == 2 * Pow2(k + 2);
    assert Pow2(k + 4) == 2 * Pow2(k + 3);
  }

  lemma Words32()
    ensures Pow2(31) == 0x8000_0000 && Pow2(32) == 0x1_0000_0000
  {
    Pow2BySixteen(0);
    Pow2BySixteen(16);
    assert 2 * Pow2(31) == Pow2(32);
  }

  /** On 32-bit words a bit step stays in range, and shows in its top bit which
      way it went. */
  lemma BitRange(c: nat)
    requires c <= U32_MAX
    ensures Bit(c) <= U32_MAX && (Bit(c) >= 0x8000_0000 <==> c % 2 == 1)
  {
    Words32();
    XorTopBit(c / 2, POLYNOMIAL, 31);
    XorBound(c / 2, POLYNOMIAL, 32);
  }

  lemma BitIsInjective(a: nat, b: nat)
    requires a <= U32_MAX && b <= U32_MAX && Bit(a) == Bit(b)
    ensures a == b
  {
    BitRange(a);
    BitRange(b);
    if a % 2 == 1 {
      XorCancels(a / 2, b / 2, POLYNOMIAL);
    }
  }

  lemma {:induction false} BitsRange(c: nat, n: nat)
    requires c <= U32_MAX
    ensures Bits(c, n) <= U32_MAX
  {
    if n > 0 {
      BitsRange(c, n - 1);
      BitRange(Bits(c, n - 1));
    }
  }

  lemma {:induction false} BitsAreInjective(a: nat, b: nat, n: nat)
    requires a <= U32_MAX && b <= U32_MAX && Bits(a, n) == Bits(b, n)
    ensures a == b
  {
    if n > 0 {
      BitsRange(a, n - 1);
      BitsRange(b, n - 1);
      BitIsInjective(Bits(a, n - 1), Bits(b, n - 1));
      BitsAreInjective(a, b, n - 1);
    }
  }

  lemma XorRange(a: nat, b: nat)
    requires a <= U32_MAX && b <= U32_MAX
    ensures Xor(a, b) <= U32_MAX
  {
    Words32();
    XorBound(a, b, 32);
  }

  lemma {:induction false} FeedAllRange(c: nat, bytes: seq<u8>)
    requires c <= U32_MAX
    ensures FeedAll(c, bytes) <= U32_MAX
    decreases |bytes|
  {
    if bytes != [] {
      XorRange(c, bytes[0]);
      BitsRange(Xor(c, bytes[0]), 8);
      FeedAllRange(Feed(c, bytes[0]), bytes[1..]);
    }
  }

  /** No later byte can undo a difference in the register. */
  lemma {:induction false} FeedAllIsInjective(c: nat, d: nat, bytes: seq<u8>)
    requires c <= U32_MAX && d <= U32_MAX && FeedAll(c, bytes) == FeedAll(d, bytes)
    ensures c == d
    decreases |bytes|
  {
    if bytes != [] {
      var b := bytes[0];
      XorRange(c, b);
      XorRange(d, b);
      BitsRange(Xor(c, b), 8);
      BitsRange(Xor(d, b), 8);
      FeedAllIsInjective(Feed(c, b), Feed(d, b), bytes[1..]);
      BitsAreInjective(Xor(c, b), Xor(d, b), 8);
      XorCancels(c, d, b);
    }
  }

  lemma {:induction false} FeedAllConcat(c: nat, x: seq<u8>, y: seq<u8>)
    ensures FeedAll(c, x + y) == FeedAll(FeedAll(c, x), y)
    decreases |x|
  {
    if x == [] {
      assert x + y == y;
    } else {
      FeedAllConcat(Feed(c, x[0]), x[1..], y);
      assert (x + y)[1..] == x[1..] + y;
    }
  }

  // ------------------------------------------- a few bytes are one word, low first

  function Pack(w: seq<u8>): nat {
    if w == [] then 0 else w[0] + 0x100 * Pack(w[1..])
  }

  lemma PackRange(w: seq<u8>)
    requires |w| <= 4
    ensures Pack(w) <= U32_MAX
  {
    PackBelow(w, 4);
    assert Power256(1) == 0x100 && Power256(3) == 0x100_0000;
  }

  function Power256(n: nat): nat {
    if n == 0 then 1 else 0x100 * Power256(n - 1)
  }

  lemma {:induction false} PackBelow(w: seq<u8>, n: nat)
    requires |w| <= n
    ensures Pack(w) < Power256(n)
  {
    if w != [] {
      PackBelow(w[1..], n - 1);
    } else if n > 0 {
      PackBelow(w, n - 1);
    }
  }

  lemma {:induction false} PackIsInjective(v: seq<u8>, w: seq<u8>)
    requires |v| == |w| && Pack(v) == Pack(w)
    ensures v == w
  {
    if v != [] {
      PackIsInjective(v[1..], w[1..]);
      assert v == [v[0]] + v[1..] && w == [w[0]] + w[1..];
    }
  }

  /** A value above n zero bits is only shifted down by n steps. */
  lemma {:induction false} ShiftsDown(x: nat, n: nat)
    ensures Bits(Shift(x, n), n) == x
    decreases n
  {
    if n > 0 {
      DoublesShift(x, n - 1);
      ShiftsDown(2 * x, n - 1);
    }
  }

  lemma {:induction false} DoublesShift(x: nat, n: nat)
    ensures Shift(x, n + 1) == Shift(2 * x, n) && Shift(x, n + 1) % 2 == 0
  {
    if n > 0 {
      DoublesShift(x, n - 1);
      assert Shift(2 * x, n) == 2 * Shift(2 * x, n - 1);
    }
    assert Shift(x, n + 1) == 2 * Shift(x, n);
    IsEven(Shift(x, n));
  }

  lemma IsEven(k: nat)
    ensures 2 * k % 2 == 0
  {
  }

  lemma {:induction false} BitsAdd(c: nat, m: nat, n: nat)
    ensures Bits(c, m + n) == Bits(Bits(c, m), n)
  {
    if n > 0 {
      BitsAdd(c, m, n - 1);
    }
  }

  /** Feeding bytes one by one is feeding their word at once. */
  lemma {:induction false} FeedAllAtOnce(c: nat, w: seq<u8>)
    ensures FeedAll(c, w) == Bits(Xor(c, Pack(w)), 8 * |w|)
    decreases |w|
  {
    hide Xor, Bits;
    if w == [] {
      XorZero(c);
      assert Pack(w) == 0;
      NoBits(c);
    } else {
      var rest := Pack(w[1..]);
      FeedAllAtOnce(Feed(c, w[0]), w[1..]);
      FirstByte(c, w[0], rest);
      BitsAdd(Xor(c, Pack(w)), 8, 8 * |w[1..]|);
    }
  }

  lemma NoBits(c: nat)
    ensures Bits(c, 0) == c
  {
  }

  lemma ShiftByFour(x: nat, k: nat)
    ensures Shift(x, k + 4) == 0x10 * Shift(x, k)
  {
    assert Shift(x, k + 1) == 2 * Shift(x, k);
    assert Shift(x, k + 2) == 2 * Shift(x, k + 1);
    assert Shift(x, k + 3) == 2 * Shift(x, k + 2);
    assert Shift(x, k + 4) == 2 * Shift(x, k + 3);
  }

  lemma ShiftByEight(x: nat)
    ensures Shift(x, 8) == 0x100 * x
  {
    ShiftByFour(x, 0);
    ShiftByFour(x, 4);
    assert Shift(x, 0) == x;
  }

  lemma FirstByte(c: nat, b: u8, rest: nat)
    ensures Bits(Xor(c, b + 0x100 * rest), 8) == Xor(Feed(c, b), rest)
  {
    assert Pow2(8) == 0x100 by { assert Pow2(4) == 0x10; }
    ShiftByEight(rest);
    XorDisjoint(b, rest, 8);
    XorAssociates(c, b, 0x100 * rest);
    BitsAreLinear(Xor(c, b), 0x100 * rest, 8);
    ShiftsDown(rest, 8);
  }

  // ------------------------------------------------------------------- the theorem

  /** Two messages of one length whose differences all lie within four consecutive
      bytes never share a checksum. */
  lemma CrcDetectsShortBursts(x: seq<u8>, y: seq<u8>, i: nat)
    requires |x| == |y| && x != y
    requires forall k | 0 <= k < |x| && !(i <= k < i + 4) :: x[k] == y[k]
    ensures Crc(x) != Crc(y)
  {
    hide FeedAll;
    var j := if i + 4 <= |x| then i + 4 else |x|;
    var h := if i <= j then i else j;
    var c := FeedAll(U32_MAX, x[..h]);
    var u, v, tail := x[h..j], y[h..j], x[j..];
    assert y[..h] == x[..h] && y[j..] == tail;
    assert x == x[..h] + u + tail && y == x[..h] + v + tail;
    FeedAllConcat(U32_MAX, x[..h] + u, tail);
    FeedAllConcat(U32_MAX, x[..h], u);
    FeedAllConcat(U32_MAX, x[..h] + v, tail);
    FeedAllConcat(U32_MAX, x[..h], v);
    FeedAllRange(U32_MAX, x[..h]);
    WordsReachDifferentStates(c, u, v);
    FeedAllRange(c, u);
    FeedAllRange(c, v);
    if FeedAll(FeedAll(c, u), tail) == FeedAll(FeedAll(c, v), tail) {
      FeedAllIsInjective(FeedAll(c, u), FeedAll(c, v), tail);
    }
    if Crc(x) == Crc(y) {
      XorCancels(FeedAll(U32_MAX, x), FeedAll(U32_MAX, y), U32_MAX);
    }
  }

  lemma WordsReachDifferentStates(c: nat, u: seq<u8>, v: seq<u8>)
    requires c <= U32_MAX && |u| == |v| <= 4 && u != v
    ensures FeedAll(c, u) != FeedAll(c, v)
  {
    FeedAllAtOnce(c, u);
    FeedAllAtOnce(c, v);
    PackRange(u);
    PackRange(v);
    XorRange(c, Pack(u));
    XorRange(c, Pack(v));
    if FeedAll(c, u) == FeedAll(c, v) {
      BitsAreInjective(Xor(c, Pack(u)), Xor(c, Pack(v)), 8 * |u|);
      XorCommutes(c, Pack(u));
      XorCommutes(c, Pack(v));
      XorCancels(Pack(u), Pack(v), c);
      PackIsInjective(u, v);
    }
  }

  lemma CrcIsAWord(bytes: seq<u8>)
    ensures Crc(bytes) <= U32_MAX
  {
    FeedAllRange(U32_MAX, bytes);
    XorRange(FeedAll(U32_MAX, bytes), U32_MAX);
  }

  // ------------------------------------------------------------ the standard's CRC-32

  /** The polynomial is x^32 + x^26 + x^23 + x^22 + x^16 + x^12 + x^11 + x^10 + x^8 + x^7
      + x^5 + x^4 + x^2 + x + 1, the coefficient of x^e at bit 31 - e. */
  lemma PolynomialIsStandard()
    ensures POLYNOMIAL ==
            Pow2(31 - 26) + Pow2(31 - 23) + Pow2(31 - 22) + Pow2(31 - 16) + Pow2(31 - 12) + Pow2(31 - 11)
            + Pow2(31 - 10) + Pow2(31 - 8) + Pow2(31 - 7) + Pow2(31 - 5) + Pow2(31 - 4) + Pow2(31 - 2)
            + Pow2(31 - 1) + Pow2(31 - 0)
  {
    PowersOfTwo();
  }

  /** Complementing before and after: a lone byte of ones leaves its own complement on top. */
  lemma ByteOfOnes()
    ensures Crc([0xff]) == 0xff00_0000
  {
    hide Crc, Xor, Shift, Pow2;
    ShiftIs(0xff_ffff, 8);
    ShiftIs(0xff, 24);
    PowersOfTwo();
    LowByte(0xff, 0xff_ffff);
  }

  lemma LowByte(low: u8, high: nat)
    requires low < Pow2(8) && high < Pow2(24) && low + Shift(high, 8) == U32_MAX == high + Shift(low, 24)
    ensures Crc([low]) == Shift(low, 24)
  {
    XorDisjoint(low, high, 8);
    XorDisjoint(high, low, 24);
    XorReturns(low, Shift(high, 8));
    XorReturns(high, Shift(low, 24));
    ShiftsDown(high, 8);
    OneByte(U32_MAX, low);
    hide Xor, Bits, Shift, Pow2, FeedAll;
  }

  lemma OneByte(c: nat, b: u8)
    ensures FeedAll(c, [b]) == Bits(Xor(c, b), 8)
  {
    hide Xor, Bits;
    assert [b][1..] == [];
  }

  /** Any message followed by its own checksum, low byte first, has one and the same
      checksum: that of four zero bytes. */
  lemma ChecksumLeavesResidue(message: seq<u8>, sum: seq<u8>)
    requires |sum| == 4 && Pack(sum) == Crc(message)
    ensures Crc(message + sum) == Crc([0, 0, 0, 0])
  {
    var c, zeros: seq<u8> := FeedAll(U32_MAX, message), [0, 0, 0, 0];
    FeedAllConcat(U32_MAX, message, sum);
    FeedAllAtOnce(c, sum);
    FeedAllAtOnce(U32_MAX, zeros);
    XorReturns(c, U32_MAX);
    XorZero(U32_MAX);
    assert Pack(zeros) == 0 by { PackZeros(4); }
    hide Xor, Bits, FeedAll, Pack;
  }

  lemma {:induction false} PackZeros(n: nat)
    ensures Pack(seq(n, _ => 0)) == 0
  {
    if n > 0 {
      PackZeros(n - 1);
      assert seq(n, _ => 0)[1..] == seq(n - 1, _ => 0);
    }
  }
}
