/** FNV-1a with 64 bits (draft-eastlake-fnv, section 2), as the command line tool
    streams it and as the AXIS reader folds it. */
module Fnv {
  import opened Words
  import opened Bitwise

  const OFFSET_BASIS: u64 := 0xcbf29ce484222325
  const PRIME := 0x100000001b3
  // PRIME * INVERSE == 1 + QUOTIENT * 2^64
  const INVERSE := 0xce965057aff6957b
  const QUOTIENT := 0xce9650590f

  function Mix(h: nat, b: u8): u64 {
    Xor(h, b) * PRIME % 0x1_0000_0000_0000_0000
  }

  function Hash(h: u64, bytes: seq<u8>): u64
    decreases |bytes|
  {
    if bytes == [] then h else Hash(Mix(h, bytes[0]), bytes[1..])
  }

  function Fnv1a(bytes: seq<u8>): u64 {
    Hash(OFFSET_BASIS, bytes)
  }

  lemma {:induction false} HashConcat(h: u64, x: seq<u8>, y: seq<u8>)
    ensures Hash(h, x + y) == Hash(Hash(h, x), y)
    decreases |x|
  {
    if x == [] {
      assert x + y == y;
    } else {
      HashConcat(Mix(h, x[0]), x[1..], y);
      assert (x + y)[1..] == x[1..] + y;
    }
  }

  lemma HashSnoc(h: u64, x: seq<u8>, b: u8)
    ensures Hash(h, x + [b]) == Mix(Hash(h, x), b)
  {
    HashConcat(h, x, [b]);
  }

  // ---------------------------------------------------------- the two programs

  /** The reader that hashes what passes through it, buffer by buffer. */
  class RevisionReader {
    var bytes: nat
    var fnv1a64: u64
    ghost var content: seq<u8>

    ghost predicate Valid()
      reads this
    {
      bytes == |content| && fnv1a64 == Fnv1a(content)
    }

    constructor ()
      ensures Valid() && content == []
    {
      bytes := 0;
      fnv1a64 := OFFSET_BASIS;
      content := [];
    }

    /** One successful read of the underlying file into a buffer. */
    method Read(buffer: seq<u8>)
      requires Valid()
      modifies this
      ensures Valid() && content == old(content) + buffer
    {
      hide Mix;
      bytes := bytes + |buffer|;
      for i := 0 to |buffer|
        invariant fnv1a64 == Hash(Fnv1a(content), buffer[..i])
        invariant content == old(content) && bytes == |content| + |buffer|
      {
        HashSnoc(Fnv1a(content), buffer[..i], buffer[i]);
        assert buffer[..i + 1] == buffer[..i] + [buffer[i]];
        fnv1a64 := Mix(fnv1a64, buffer[i]);
      }
      assert buffer[..|buffer|] == buffer;
      HashConcat(OFFSET_BASIS, content, buffer);
      content := content + buffer;
    }
  }

  function Concat(chunks: seq<seq<u8>>): seq<u8> {
    if chunks == [] then [] else Concat(chunks[..|chunks| - 1]) + chunks[|chunks| - 1]
  }

  /** However a file is split into reads, its revision is its length and hash. */
  method ReviseInChunks(chunks: seq<seq<u8>>) returns (bytes: nat, fnv1a64: u64)
    ensures bytes == |Concat(chunks)| && fnv1a64 == Fnv1a(Concat(chunks))
  {
    var reader := new RevisionReader();
    for i := 0 to |chunks|
      invariant fresh(reader) && reader.Valid() && reader.content == Concat(chunks[..i])
    {
      assert chunks[..i + 1][..i] == chunks[..i];
      reader.Read(chunks[i]);
    }
    assert chunks[..|chunks|] == chunks;
    return reader.bytes, reader.fnv1a64;
  }

  /** Python's fold on unbounded integers, masked to 64 bits after each product. */
  method Fnv64(data: seq<u8>) returns (result: nat)
    ensures result == Fnv1a(data)
  {
    hide Xor;
    result := OFFSET_BASIS;
    for i := 0 to |data|
      invariant result == Fnv1a(data[..i])
    {
      HashSnoc(OFFSET_BASIS, data[..i], data[i]);
      assert data[..i + 1] == data[..i] + [data[i]];
      result := Xor(result, data[i]) * PRIME % 0x1_0000_0000_0000_0000;
    }
    assert data[..|data|] == data;
  }

  // -------------------------------------------------------------- what it detects

  lemma Bound64(h: u64, b: u8)
    ensures Xor(h, b) < 0x1_0000_0000_0000_0000
  {
    Power64();
    XorBound(h, b, 64);
  }

  lemma Power64()
    ensures Pow2(64) == 0x1_0000_0000_0000_0000
  {
    Pow2ByEight(0);
    Pow2ByEight(8);
    Pow2ByEight(16);
    Pow2ByEight(24);
    Pow2ByEight(32);
    Pow2ByEight(40);
    Pow2ByEight(48);
    Pow2ByEight(56);
  }

  lemma Pow2ByEight(k: nat)
    ensures Pow2(k + 8) == 0x100 * Pow2(k)
  {
    assert Pow2(k + 2) == 4 * Pow2(k);
    assert Pow2(k + 4) == 4 * Pow2(k + 2);
    assert Pow2(k + 6) == 4 * Pow2(k + 4);
    assert Pow2(k + 8) == 4 * Pow2(k + 6);
  }

  /** Multiplication by the odd prime is invertible modulo 2^64. */
  lemma PrimeIsInvertible(x: u64, y: u64)
    requires x * PRIME % 0x1_0000_0000_0000_0000 == y * PRIME % 0x1_0000_0000_0000_0000
    ensures x == y
  {
    Remainder(x * PRIME);
    Remainder(y * PRIME);
    var k := x * PRIME / 0x1_0000_0000_0000_0000 - y * PRIME / 0x1_0000_0000_0000_0000;
    OnlyZeroIsKilled(x - y, k);
  }

  lemma Remainder(a: int)
    ensures a == a / 0x1_0000_0000_0000_0000 * 0x1_0000_0000_0000_0000 + a % 0x1_0000_0000_0000_0000
  {
  }

  lemma OnlyZeroIsKilled(d: int, k: int)
    requires -0x1_0000_0000_0000_0000 < d < 0x1_0000_0000_0000_0000
    requires d * PRIME == k * 0x1_0000_0000_0000_0000
    ensures d == 0
  {
    var q := k * INVERSE - d * QUOTIENT;
    assert d * PRIME * INVERSE == d + d * QUOTIENT * 0x1_0000_0000_0000_0000;
    assert d == q * 0x1_0000_0000_0000_0000;
  }

  lemma MixIsInjective(g: u64, h: u64, b: u8, c: u8)
    requires Mix(g, b) == Mix(h, c)
    ensures b == c ==> g == h
    ensures g == h ==> b == c
  {
    Bound64(g, b);
    Bound64(h, c);
    PrimeIsInvertible(Xor(g, b), Xor(h, c));
    if b == c {
      XorCancels(g, h, b);
    }
    if g == h {
      XorCommutes(g, b);
      XorCommutes(g, c);
      XorCancels(b, c, g);
    }
  }

  lemma {:induction false} HashIsInjective(g: u64, h: u64, bytes: seq<u8>)
    requires Hash(g, bytes) == Hash(h, bytes)
    ensures g == h
    decreases |bytes|
  {
    if bytes != [] {
      HashIsInjective(Mix(g, bytes[0]), Mix(h, bytes[0]), bytes[1..]);
      MixIsInjective(g, h, bytes[0], bytes[0]);
    }
  }

  /** Contents of one length that differ in exactly one byte never share a revision. */
  lemma OneByteChangesTheHash(x: seq<u8>, y: seq<u8>, i: nat)
    requires |x| == |y| && i < |x| && x[i] != y[i]
    requires forall k | 0 <= k < |x| && k != i :: x[k] == y[k]
    ensures Fnv1a(x) != Fnv1a(y)
  {
    var before, tail := Fnv1a(x[..i]), x[i + 1..];
    assert y[..i] == x[..i] && y[i + 1..] == tail;
    assert x == x[..i] + [x[i]] + tail && y == x[..i] + [y[i]] + tail;
    HashConcat(OFFSET_BASIS, x[..i] + [x[i]], tail);
    HashConcat(OFFSET_BASIS, x[..i] + [y[i]], tail);
    HashSnoc(OFFSET_BASIS, x[..i], x[i]);
    HashSnoc(OFFSET_BASIS, x[..i], y[i]);
    if Fnv1a(x) == Fnv1a(y) {
      HashIsInjective(Mix(before, x[i]), Mix(before, y[i]), tail);
      MixIsInjective(before, before, x[i], y[i]);
    }
  }

  /** The hash of nothing, and of the byte that clears the basis's own low byte. */
  lemma KnownHashes()
    ensures Fnv1a([]) == 0xcbf2_9ce4_8422_2325
    ensures Fnv1a([0x25]) == 0xaf63_984c_8601_7900
  {
    hide Xor, Shift, Pow2, Hash;
    ShiftIs(0xcb_f29c_e484_2223, 8);
    PowersOfTwo();
    LowByteClears(0x25, 0xcb_f29c_e484_2223);
    HashOfNothing();
  }

  lemma HashOfNothing()
    ensures Fnv1a([]) == OFFSET_BASIS
  {
  }

  lemma LowByteClears(low: u8, high: nat)
    requires low < Pow2(8) && low + Shift(high, 8) == OFFSET_BASIS
    ensures Fnv1a([low]) == Shift(high, 8) * PRIME % 0x1_0000_0000_0000_0000
  {
    XorDisjoint(low, high, 8);
    XorReturns(low, Shift(high, 8));
    hide Xor, Shift, Pow2;
    assert [] + [low] == [low];
    HashSnoc(OFFSET_BASIS, [], low);
  }
}
