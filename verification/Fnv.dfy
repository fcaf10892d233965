/** FNV-1a with 64-bit wrap-around, and why it does not collide where the kernel relies on it. */
module Fnv {
  import opened Words

  const FNV_OFFSET: u64 := 0xcbf2_9ce4_8422_2325
  /** 2^40 + 435. */
  const FNV_PRIME: u64 := 0x0000_0100_0000_01b3
  const U48: int := 0x1_0000_0000_0000
  /** The inverse of the prime modulo 2^48. */
  const PRIME_INVERSE_48: int := 0x5057aff6957b

  /** `h ^ b`: only the low byte of `h` changes. */
  function XorLow(h: u64, b: byte): u64 { h - h % 256 + Xor8(h % 256, b) }

  /** One round of FNV-1a. */
  function Mix(h: u64, b: byte): u64 { Wrap64(XorLow(h, b) * FNV_PRIME) }

  function MixAll(h: u64, bytes: seq<byte>): u64
    decreases |bytes|
  {
    if bytes == [] then h else MixAll(Mix(h, bytes[0]), bytes[1..])
  }

  /** The hash of a byte string. */
  function Fnv1a(bytes: seq<byte>): u64 { MixAll(FNV_OFFSET, bytes) }

  lemma {:induction false} MixAllAppend(h: u64, a: seq<byte>, b: seq<byte>)
    ensures MixAll(h, a + b) == MixAll(MixAll(h, a), b)
    decreases |a|
  {
    if a == [] {
      assert a + b == b;
    } else {
      assert (a + b)[1..] == a[1..] + b;
      MixAllAppend(Mix(h, a[0]), a[1..], b);
    }
  }

  method Fnv1aLoop(bytes: seq<byte>) returns (h: u64)
    ensures h == Fnv1a(bytes)
  {
    h := FNV_OFFSET;
    for i := 0 to |bytes|
      invariant MixAll(h, bytes[i..]) == Fnv1a(bytes)
    {
      h := XorLow(h, bytes[i]);
      h := Wrap64(h * FNV_PRIME);
    }
  }

  /** One round on given words: the low byte is `x` before and `y` after the exclusive or. */
  lemma MixIs(h: u64, b: byte, x: byte, y: byte, next: u64)
    requires h % 256 == x && Xor8(x, b) == y && (h - x + y) * 0x100_0000_01b3 % 0x1_0000_0000_0000_0000 == next
    ensures Mix(h, b) == next
  {
  }

  /** Published values of 64-bit FNV-1a: those of the empty text and of "a". */
  lemma KnownHashes()
    ensures Fnv1a([]) == 14695981039346656037
    ensures Fnv1a([97]) == 0xaf63_dc4c_8601_ec8c
  {
    KnownXor();
    hide Mix, Xor8;
    MixIs(14695981039346656037, 97, 0x25, 0x44, 0xaf63_dc4c_8601_ec8c);
    var a: seq<byte> := [97];
    assert a[1..] == [];
    assert MixAll(FNV_OFFSET, a) == MixAll(Mix(FNV_OFFSET, 97), []);
  }

  lemma KnownXor()
    ensures Xor8(0x25, 97) == 0x44
  {
    hide Pow2;
    assert Xor(1, 3, 3) == 2;
    assert Xor(4, 12, 5) == 8;
    assert Xor(18, 48, 7) == 34;
    assert Xor(0x25, 97, 8) == 0x44;
  }

  // ----- injectivity

  lemma XorStep(a: nat, b: nat, bits: nat)
    requires bits > 0
    ensures Xor(a, b, bits) % 2 == (a + b) % 2 && Xor(a, b, bits) / 2 == Xor(a / 2, b / 2, bits - 1)
  {
  }

  lemma SameParity(a: nat, b: nat, c: nat)
    requires (a + b) % 2 == (a + c) % 2 || (b + a) % 2 == (c + a) % 2
    ensures b / 2 == c / 2 ==> b == c
  {
  }

  lemma {:induction false} XorCancels(a: nat, b: nat, c: nat, bits: nat)
    requires b < Pow2(bits) && c < Pow2(bits)
    requires Xor(a, b, bits) == Xor(a, c, bits) || Xor(b, a, bits) == Xor(c, a, bits)
    ensures b == c
    decreases bits
  {
    if bits > 0 {
      XorStep(a, b, bits);
      XorStep(a, c, bits);
      XorStep(b, a, bits);
      XorStep(c, a, bits);
      hide Xor;
      XorCancels(a / 2, b / 2, c / 2, bits - 1);
      SameParity(a, b, c);
    }
  }

  lemma Xor8Cancels(a: byte, b: byte, c: byte)
    ensures Xor8(a, b) == Xor8(a, c) ==> b == c
    ensures Xor8(b, a) == Xor8(c, a) ==> b == c
  {
    assert Pow2(8) == 256;
    if Xor8(a, b) == Xor8(a, c) || Xor8(b, a) == Xor8(c, a) {
      XorCancels(a, b, c, 8);
    }
  }

  lemma MultiplesVanish(x: int, k: int)
    ensures (x + k * U48) % U48 == x % U48
  {
    var q, r := x / U48, x % U48;
    assert x + k * U48 == (q + k) * U48 + r;
  }

  /** Wrapping at 64 bits keeps the low 48. */
  lemma WrapKeepsLow48(x: int)
    ensures Wrap64(x) % U48 == x % U48
  {
    MultiplesVanish(x, -(x / U64) * 65536);
    assert Wrap64(x) == x + -(x / U64) * 65536 * U48;
  }

  /** Multiplying by the odd prime loses nothing of the low 48 bits. */
  lemma PrimeCancels(x: u64, y: u64)
    requires Wrap64(x * FNV_PRIME) % U48 == Wrap64(y * FNV_PRIME) % U48
    ensures x % U48 == y % U48
  {
    WrapKeepsLow48(x * FNV_PRIME);
    WrapKeepsLow48(y * FNV_PRIME);
    var a, b := x * FNV_PRIME, y * FNV_PRIME;
    var k := a / U48 - b / U48;
    assert a - b == k * U48;
    assert FNV_PRIME * PRIME_INVERSE_48 == 1 + 345068533534 * U48;
    assert (x - y) * FNV_PRIME * PRIME_INVERSE_48 == x - y + (x - y) * 345068533534 * U48;
    var m := k * PRIME_INVERSE_48 - (x - y) * 345068533534;
    assert x == y + m * U48;
    MultiplesVanish(y, m);
  }

  /** States with equal low 48 bits differ by a multiple of 2^48 and share their low byte. */
  lemma Difference(x: int, y: int) returns (k: int)
    requires x % U48 == y % U48
    ensures x - y == k * U48
    ensures x % 256 == y % 256
  {
    k := x / U48 - y / U48;
    LowByteVanish(y, k * 0x100_0000_0000);
  }

  lemma LowByteVanish(y: int, m: int)
    ensures (y + m * 256) % 256 == y % 256
  {
    var q, r := y / 256, y % 256;
    assert y + m * 256 == (q + m) * 256 + r;
  }

  lemma LowByteOfXor(h: u64, b: byte)
    ensures XorLow(h, b) % 256 == Xor8(h % 256, b)
  {
    hide Xor8;
    QuotientIs(XorLow(h, b), 256, h / 256, Xor8(h % 256, b));
  }

  /** Multiplying after the exclusive or: equal low 48 bits come from equal xored states. */
  lemma MixCancels(h: u64, a: byte, g: u64, b: byte) returns (k: int)
    requires Mix(h, a) % U48 == Mix(g, b) % U48
    ensures XorLow(h, a) - XorLow(g, b) == k * U48
    ensures Xor8(h % 256, a) == Xor8(g % 256, b)
  {
    PrimeCancels(XorLow(h, a), XorLow(g, b));
    k := Difference(XorLow(h, a), XorLow(g, b));
    LowByteOfXor(h, a);
    LowByteOfXor(g, b);
  }

  /** A round keeps different states different, even in their low 48 bits. */
  lemma MixKeepsApart(h: u64, g: u64, b: byte)
    requires h % U48 != g % U48
    ensures Mix(h, b) % U48 != Mix(g, b) % U48
  {
    if Mix(h, b) % U48 == Mix(g, b) % U48 {
      var k := MixCancels(h, b, g, b);
      Xor8Cancels(b, h % 256, g % 256);
      assert h == g + k * U48;
      MultiplesVanish(g, k);
    }
  }

  lemma {:induction false} MixAllKeepsApart(h: u64, g: u64, bytes: seq<byte>)
    requires h % U48 != g % U48
    ensures MixAll(h, bytes) % U48 != MixAll(g, bytes) % U48
    decreases |bytes|
  {
    if bytes != [] {
      MixKeepsApart(h, g, bytes[0]);
      MixAllKeepsApart(Mix(h, bytes[0]), Mix(g, bytes[0]), bytes[1..]);
    }
  }

  /** Two different pairs of bytes take any state to states that differ in their low 48 bits. */
  lemma PairsKeepApart(h: u64, a0: byte, a1: byte, b0: byte, b1: byte)
    requires a0 != b0 || a1 != b1
    ensures Mix(Mix(h, a0), a1) % U48 != Mix(Mix(h, b0), b1) % U48
  {
    if Mix(Mix(h, a0), a1) % U48 == Mix(Mix(h, b0), b1) % U48 {
      // the states before the second byte agree above their low byte, modulo 2^48
      var k, small := SecondRound(Mix(h, a0), a1, Mix(h, b0), b1);
      if a0 != b0 {
        Xor8Cancels(h % 256, a0, b0);
        FirstBytesSpread(h, a0, b0, k, small);
      }
    }
  }

  lemma SecondRound(s: u64, a: byte, t: u64, b: byte) returns (k: int, small: int)
    requires Mix(s, a) % U48 == Mix(t, b) % U48
    ensures s - t == k * U48 + small && -256 < small < 256
    ensures s == t ==> a == b
  {
    k := MixCancels(s, a, t, b);
    small := s % 256 - t % 256;
    Xor8Cancels(s % 256, a, b);
  }

  /** After one round on different bytes, states do not agree above their low byte. */
  lemma FirstBytesSpread(h: u64, a: byte, b: byte, k: int, small: int)
    requires Xor8(h % 256, a) != Xor8(h % 256, b) && -256 < small < 256
    ensures Mix(h, a) - Mix(h, b) != k * U48 + small
  {
    var x, y := XorLow(h, a), XorLow(h, b);
    var m := (x * FNV_PRIME) / U64 - (y * FNV_PRIME) / U64;
    assert Mix(h, a) - Mix(h, b) == (x - y) * FNV_PRIME - m * 65536 * U48;
    var d, n := x - y, k + m * 65536;
    assert -256 < d < 256 && d != 0;
    NotAMultiple(d, small, n);
  }

  lemma NotAMultiple(d: int, small: int, n: int)
    requires -256 < d < 256 && d != 0 && -256 < small < 256
    ensures d * FNV_PRIME - small != n * U48
  {
    if n >= 2 {
      assert n * U48 >= 2 * U48;
    } else if n <= -2 {
      assert n * U48 <= -2 * U48;
    }
  }

  lemma MixPair(h: u64, x: seq<byte>)
    requires |x| == 2
    ensures MixAll(h, x) == Mix(Mix(h, x[0]), x[1])
  {
    hide Mix;
    assert x[1..] == [x[1]] && x[1..][1..] == [];
    assert MixAll(Mix(h, x[0]), x[1..]) == MixAll(Mix(Mix(h, x[0]), x[1]), []);
  }

  lemma PairInContext(prefix: seq<byte>, x: seq<byte>, suffix: seq<byte>)
    requires |x| == 2
    ensures Fnv1a(prefix + x + suffix) == MixAll(Mix(Mix(MixAll(FNV_OFFSET, prefix), x[0]), x[1]), suffix)
  {
    MixPair(MixAll(FNV_OFFSET, prefix), x);
    hide Mix, MixAll;
    MixAllAppend(FNV_OFFSET, prefix, x);
    MixAllAppend(FNV_OFFSET, prefix + x, suffix);
  }

  /** Byte strings that differ in one adjacent pair of bytes only never collide. */
  lemma OnePairApart(prefix: seq<byte>, a: seq<byte>, b: seq<byte>, suffix: seq<byte>)
    requires |a| == |b| == 2 && a != b
    ensures Fnv1a(prefix + a + suffix) % U48 != Fnv1a(prefix + b + suffix) % U48
  {
    var h := MixAll(FNV_OFFSET, prefix);
    PairInContext(prefix, a, suffix);
    PairInContext(prefix, b, suffix);
    PairsKeepApart(h, a[0], a[1], b[0], b[1]);
    MixAllKeepsApart(Mix(Mix(h, a[0]), a[1]), Mix(Mix(h, b[0]), b[1]), suffix);
  }
}
