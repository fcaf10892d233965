/** SHA-256 as FIPS 180-4 defines it, for byte strings. */
module Sha256Spec {
  import opened Words

  // ----- constants, sections 4.2.2 and 5.3.3

  function K(t: nat): u32
    requires t < 64
  {
    match t
    case 0 => 0x428a2f98
    case 1 => 0x71374491
    case 2 => 0xb5c0fbcf
    case 3 => 0xe9b5dba5
    case 4 => 0x3956c25b
    case 5 => 0x59f111f1
    case 6 => 0x923f82a4
    case 7 => 0xab1c5ed5
    case 8 => 0xd807aa98
    case 9 => 0x12835b01
    case 10 => 0x243185be
    case 11 => 0x550c7dc3
    case 12 => 0x72be5d74
    case 13 => 0x80deb1fe
    case 14 => 0x9bdc06a7
    case 15 => 0xc19bf174
    case 16 => 0xe49b69c1
    case 17 => 0xefbe4786
    case 18 => 0x0fc19dc6
    case 19 => 0x240ca1cc
    case 20 => 0x2de92c6f
    case 21 => 0x4a7484aa
    case 22 => 0x5cb0a9dc
    case 23 => 0x76f988da
    case 24 => 0x983e5152
    case 25 => 0xa831c66d
    case 26 => 0xb00327c8
    case 27 => 0xbf597fc7
    case 28 => 0xc6e00bf3
    case 29 => 0xd5a79147
    case 30 => 0x06ca6351
    case 31 => 0x14292967
    case 32 => 0x27b70a85
    case 33 => 0x2e1b2138
    case 34 => 0x4d2c6dfc
    case 35 => 0x53380d13
    case 36 => 0x650a7354
    case 37 => 0x766a0abb
    case 38 => 0x81c2c92e
    case 39 => 0x92722c85
    case 40 => 0xa2bfe8a1
    case 41 => 0xa81a664b
    case 42 => 0xc24b8b70
    case 43 => 0xc76c51a3
    case 44 => 0xd192e819
    case 45 => 0xd6990624
    case 46 => 0xf40e3585
    case 47 => 0x106aa070
    case 48 => 0x19a4c116
    case 49 => 0x1e376c08
    case 50 => 0x2748774c
    case 51 => 0x34b0bcb5
    case 52 => 0x391c0cb3
    case 53 => 0x4ed8aa4a
    case 54 => 0x5b9cca4f
    case 55 => 0x682e6ff3
    case 56 => 0x748f82ee
    case 57 => 0x78a5636f
    case 58 => 0x84c87814
    case 59 => 0x8cc70208
    case 60 => 0x90befffa
    case 61 => 0xa4506ceb
    case 62 => 0xbef9a3f7
    case _ => 0xc67178f2
  }

  function H0(t: nat): u32
    requires t < 8
  {
    match t
    case 0 => 0x6a09e667
    case 1 => 0xbb67ae85
    case 2 => 0x3c6ef372
    case 3 => 0xa54ff53a
    case 4 => 0x510e527f
    case 5 => 0x9b05688c
    case 6 => 0x1f83d9ab
    case _ => 0x5be0cd19
  }

  function Prime(t: nat): nat
    requires t < 64
  {
    match t
    case 0 => 2
    case 1 => 3
    case 2 => 5
    case 3 => 7
    case 4 => 11
    case 5 => 13
    case 6 => 17
    case 7 => 19
    case 8 => 23
    case 9 => 29
    case 10 => 31
    case 11 => 37
    case 12 => 41
    case 13 => 43
    case 14 => 47
    case 15 => 53
    case 16 => 59
    case 17 => 61
    case 18 => 67
    case 19 => 71
    case 20 => 73
    case 21 => 79
    case 22 => 83
    case 23 => 89
    case 24 => 97
    case 25 => 101
    case 26 => 103
    case 27 => 107
    case 28 => 109
    case 29 => 113
    case 30 => 127
    case 31 => 131
    case 32 => 137
    case 33 => 139
    case 34 => 149
    case 35 => 151
    case 36 => 157
    case 37 => 163
    case 38 => 167
    case 39 => 173
    case 40 => 179
    case 41 => 181
    case 42 => 191
    case 43 => 193
    case 44 => 197
    case 45 => 199
    case 46 => 211
    case 47 => 223
    case 48 => 227
    case 49 => 229
    case 50 => 233
    case 51 => 239
    case 52 => 241
    case 53 => 251
    case 54 => 257
    case 55 => 263
    case 56 => 269
    case 57 => 271
    case 58 => 277
    case 59 => 281
    case 60 => 283
    case 61 => 293
    case 62 => 307
    case _ => 311
  }

  // ----- functions on words, section 4.1.2

  function Ch(x: u32, y: u32, z: u32): u32 { Xor32(And32(x, y), And32(Not32(x), z)) }

  function Maj(x: u32, y: u32, z: u32): u32 { Xor32(Xor32(And32(x, y), And32(x, z)), And32(y, z)) }

  function BigSigma0(x: u32): u32 {
    Xor32(Xor32(RotateRight32(x, 2), RotateRight32(x, 13)), RotateRight32(x, 22))
  }

  function BigSigma1(x: u32): u32 {
    Xor32(Xor32(RotateRight32(x, 6), RotateRight32(x, 11)), RotateRight32(x, 25))
  }

  function SmallSigma0(x: u32): u32 {
    Xor32(Xor32(RotateRight32(x, 7), RotateRight32(x, 18)), ShiftRight(x, 3))
  }

  function SmallSigma1(x: u32): u32 {
    Xor32(Xor32(RotateRight32(x, 17), RotateRight32(x, 19)), ShiftRight(x, 10))
  }

  // ----- padding, section 5.1.1

  /** Whole zero bytes between the byte of the one bit and the length. */
  function ZeroBytes(n: nat): nat { (119 - n % 64) % 64 }

  function Pad(m: seq<byte>): seq<byte> {
    m + [0x80] + seq(ZeroBytes(|m|), i => 0) + BigEndian(8 * |m|, 8)
  }

  // ----- hash computation, section 6.2; addition is modulo 2^32

  datatype Vars = Vars(a: u32, b: u32, c: u32, d: u32, e: u32, f: u32, g: u32, h: u32)

  function Initial(): Vars { Vars(H0(0), H0(1), H0(2), H0(3), H0(4), H0(5), H0(6), H0(7)) }

  function Word(b0: byte, b1: byte, b2: byte, b3: byte): u32 { ((b0 * 256 + b1) * 256 + b2) * 256 + b3 }

  /** Word `j` of the 64-byte block that starts at `off`. */
  function BlockWord(m: seq<byte>, off: nat, j: nat): u32
    requires off + 64 <= |m| && j < 16
  {
    Word(m[off + 4 * j], m[off + 4 * j + 1], m[off + 4 * j + 2], m[off + 4 * j + 3])
  }

  function Sum4(a: u32, b: u32, c: u32, d: u32): u32 { Add32(Add32(Add32(a, b), c), d) }

  /** The message schedule. */
  function W(m: seq<byte>, off: nat, t: nat): u32
    requires off + 64 <= |m| && t < 64
  {
    if t < 16 then BlockWord(m, off, t)
    else Sum4(SmallSigma1(W(m, off, t - 2)), W(m, off, t - 7), SmallSigma0(W(m, off, t - 15)), W(m, off, t - 16))
  }

  function T1(v: Vars, k: u32, w: u32): u32 { Add32(Sum4(v.h, BigSigma1(v.e), Ch(v.e, v.f, v.g), k), w) }

  function T2(v: Vars): u32 { Add32(BigSigma0(v.a), Maj(v.a, v.b, v.c)) }

  function Round(v: Vars, k: u32, w: u32): Vars {
    Vars(Add32(T1(v, k, w), T2(v)), v.a, v.b, v.c, Add32(v.d, T1(v, k, w)), v.e, v.f, v.g)
  }

  /** The working variables after the first `t` rounds on a block. */
  function Rounds(v: Vars, m: seq<byte>, off: nat, t: nat): Vars
    requires off + 64 <= |m| && t <= 64
  {
    if t == 0 then v else Round(Rounds(v, m, off, t - 1), K(t - 1), W(m, off, t - 1))
  }

  function Add(x: Vars, y: Vars): Vars {
    Vars(Add32(x.a, y.a), Add32(x.b, y.b), Add32(x.c, y.c), Add32(x.d, y.d),
         Add32(x.e, y.e), Add32(x.f, y.f), Add32(x.g, y.g), Add32(x.h, y.h))
  }

  /** The hash value after the first `blocks` blocks. */
  function Chain(m: seq<byte>, blocks: nat): Vars
    requires 64 * blocks <= |m|
  {
    if blocks == 0 then Initial()
    else
      var h := Chain(m, blocks - 1);
      Add(h, Rounds(h, m, 64 * (blocks - 1), 64))
  }

  function VarsBytes(v: Vars): (bs: seq<byte>)
    ensures |bs| == 32
  {
    BigEndian(v.a, 4) + BigEndian(v.b, 4) + BigEndian(v.c, 4) + BigEndian(v.d, 4)
    + BigEndian(v.e, 4) + BigEndian(v.f, 4) + BigEndian(v.g, 4) + BigEndian(v.h, 4)
  }

  function Sha256(m: seq<byte>): (digest: seq<byte>)
    ensures |digest| == 32
  {
    PadFillsBlocks(m);
    VarsBytes(Chain(Pad(m), |Pad(m)| / 64))
  }

  // ----- the definitions above against the prose of the standard

  /** `whole * 2^32 + frac` is the cube root of `p` times 2^32, rounded down. */
  ghost predicate CubeRootBits(p: nat, whole: nat, frac: nat) {
    var m := whole * 0x1_0000_0000 + frac;
    frac < 0x1_0000_0000 && m * m * m <= p * 0x1_0000_0000_0000_0000_0000_0000 < (m + 1) * (m + 1) * (m + 1)
  }

  /** `whole * 2^32 + frac` is the square root of `p` times 2^32, rounded down. */
  ghost predicate SquareRootBits(p: nat, whole: nat, frac: nat) {
    var m := whole * 0x1_0000_0000 + frac;
    frac < 0x1_0000_0000 && m * m <= p * 0x1_0000_0000_0000_0000 < (m + 1) * (m + 1)
  }

  /** The initial hash value: 32 fractional bits of the square roots of the first 8 primes. */
  lemma InitialValue(i: nat)
    requires i < 8
    ensures exists whole :: SquareRootBits(Prime(i), whole, H0(i))
  {
    if i == 0 { assert SquareRootBits(Prime(i), 1, H0(i)); }
    if i == 1 { assert SquareRootBits(Prime(i), 1, H0(i)); }
    if i == 2 { assert SquareRootBits(Prime(i), 2, H0(i)); }
    if i == 3 { assert SquareRootBits(Prime(i), 2, H0(i)); }
    if i == 4 { assert SquareRootBits(Prime(i), 3, H0(i)); }
    if i == 5 { assert SquareRootBits(Prime(i), 3, H0(i)); }
    if i == 6 { assert SquareRootBits(Prime(i), 4, H0(i)); }
    if i == 7 { assert SquareRootBits(Prime(i), 4, H0(i)); }
  }

  /** The round constants: 32 fractional bits of the cube roots of the first 64 primes. */
  lemma RoundConstants(i: nat)
    requires i < 64
    ensures exists whole :: CubeRootBits(Prime(i), whole, K(i))
  {
    if i < 8 {
      RoundConstants0(i);
    } else if i < 16 {
      RoundConstants8(i);
    } else if i < 24 {
      RoundConstants16(i);
    } else if i < 32 {
      RoundConstants24(i);
    } else if i < 40 {
      RoundConstants32(i);
    } else if i < 48 {
      RoundConstants40(i);
    } else if i < 56 {
      RoundConstants48(i);
    } else {
      RoundConstants56(i);
    }
  }

  lemma RoundConstants0(i: nat)
    requires 0 <= i < 8
    ensures exists whole :: CubeRootBits(Prime(i), whole, K(i))
  {
    if i == 0 { assert CubeRootBits(Prime(i), 1, K(i)); }
    if i == 1 { assert CubeRootBits(Prime(i), 1, K(i)); }
    if i == 2 { assert CubeRootBits(Prime(i), 1, K(i)); }
    if i == 3 { assert CubeRootBits(Prime(i), 1, K(i)); }
    if i == 4 { assert CubeRootBits(Prime(i), 2, K(i)); }
    if i == 5 { assert CubeRootBits(Prime(i), 2, K(i)); }
    if i == 6 { assert CubeRootBits(Prime(i), 2, K(i)); }
    if i == 7 { assert CubeRootBits(Prime(i), 2, K(i)); }
  }

  lemma RoundConstants8(i: nat)
    requires 8 <= i < 16
    ensures exists whole :: CubeRootBits(Prime(i), whole, K(i))
  {
    if i == 8 { assert CubeRootBits(Prime(i), 2, K(i)); }
    if i == 9 { assert CubeRootBits(Prime(i), 3, K(i)); }
    if i == 10 { assert CubeRootBits(Prime(i), 3, K(i)); }
    if i == 11 { assert CubeRootBits(Prime(i), 3, K(i)); }
    if i == 12 { assert CubeRootBits(Prime(i), 3, K(i)); }
    if i == 13 { assert CubeRootBits(Prime(i), 3, K(i)); }
    if i == 14 { assert CubeRootBits(Prime(i), 3, K(i)); }
    if i == 15 { assert CubeRootBits(Prime(i), 3, K(i)); }
  }

  lemma RoundConstants16(i: nat)
    requires 16 <= i < 24
    ensures exists whole :: CubeRootBits(Prime(i), whole, K(i))
  {
    if i == 16 { assert CubeRootBits(Prime(i), 3, K(i)); }
    if i == 17 { assert CubeRootBits(Prime(i), 3, K(i)); }
    if i == 18 { assert CubeRootBits(Prime(i), 4, K(i)); }
    if i == 19 { assert CubeRootBits(Prime(i), 4, K(i)); }
    if i == 20 { assert CubeRootBits(Prime(i), 4, K(i)); }
    if i == 21 { assert CubeRootBits(Prime(i), 4, K(i)); }
    if i == 22 { assert CubeRootBits(Prime(i), 4, K(i)); }
    if i == 23 { assert CubeRootBits(Prime(i), 4, K(i)); }
  }

  lemma RoundConstants24(i: nat)
    requires 24 <= i < 32
    ensures exists whole :: CubeRootBits(Prime(i), whole, K(i))
  {
    if i == 24 { assert CubeRootBits(Prime(i), 4, K(i)); }
    if i == 25 { assert CubeRootBits(Prime(i), 4, K(i)); }
    if i == 26 { assert CubeRootBits(Prime(i), 4, K(i)); }
    if i == 27 { assert CubeRootBits(Prime(i), 4, K(i)); }
    if i == 28 { assert CubeRootBits(Prime(i), 4, K(i)); }
    if i == 29 { assert CubeRootBits(Prime(i), 4, K(i)); }
    if i == 30 { assert CubeRootBits(Prime(i), 5, K(i)); }
    if i == 31 { assert CubeRootBits(Prime(i), 5, K(i)); }
  }

  lemma RoundConstants32(i: nat)
    requires 32 <= i < 40
    ensures exists whole :: CubeRootBits(Prime(i), whole, K(i))
  {
    if i == 32 { assert CubeRootBits(Prime(i), 5, K(i)); }
    if i == 33 { assert CubeRootBits(Prime(i), 5, K(i)); }
    if i == 34 { assert CubeRootBits(Prime(i), 5, K(i)); }
    if i == 35 { assert CubeRootBits(Prime(i), 5, K(i)); }
    if i == 36 { assert CubeRootBits(Prime(i), 5, K(i)); }
    if i == 37 { assert CubeRootBits(Prime(i), 5, K(i)); }
    if i == 38 { assert CubeRootBits(Prime(i), 5, K(i)); }
    if i == 39 { assert CubeRootBits(Prime(i), 5, K(i)); }
  }

  lemma RoundConstants40(i: nat)
    requires 40 <= i < 48
    ensures exists whole :: CubeRootBits(Prime(i), whole, K(i))
  {
    if i == 40 { assert CubeRootBits(Prime(i), 5, K(i)); }
    if i == 41 { assert CubeRootBits(Prime(i), 5, K(i)); }
    if i == 42 { assert CubeRootBits(Prime(i), 5, K(i)); }
    if i == 43 { assert CubeRootBits(Prime(i), 5, K(i)); }
    if i == 44 { assert CubeRootBits(Prime(i), 5, K(i)); }
    if i == 45 { assert CubeRootBits(Prime(i), 5, K(i)); }
    if i == 46 { assert CubeRootBits(Prime(i), 5, K(i)); }
    if i == 47 { assert CubeRootBits(Prime(i), 6, K(i)); }
  }

  lemma RoundConstants48(i: nat)
    requires 48 <= i < 56
    ensures exists whole :: CubeRootBits(Prime(i), whole, K(i))
  {
    if i == 48 { assert CubeRootBits(Prime(i), 6, K(i)); }
    if i == 49 { assert CubeRootBits(Prime(i), 6, K(i)); }
    if i == 50 { assert CubeRootBits(Prime(i), 6, K(i)); }
    if i == 51 { assert CubeRootBits(Prime(i), 6, K(i)); }
    if i == 52 { assert CubeRootBits(Prime(i), 6, K(i)); }
    if i == 53 { assert CubeRootBits(Prime(i), 6, K(i)); }
    if i == 54 { assert CubeRootBits(Prime(i), 6, K(i)); }
    if i == 55 { assert CubeRootBits(Prime(i), 6, K(i)); }
  }

  lemma RoundConstants56(i: nat)
    requires 56 <= i < 64
    ensures exists whole :: CubeRootBits(Prime(i), whole, K(i))
  {
    if i == 56 { assert CubeRootBits(Prime(i), 6, K(i)); }
    if i == 57 { assert CubeRootBits(Prime(i), 6, K(i)); }
    if i == 58 { assert CubeRootBits(Prime(i), 6, K(i)); }
    if i == 59 { assert CubeRootBits(Prime(i), 6, K(i)); }
    if i == 60 { assert CubeRootBits(Prime(i), 6, K(i)); }
    if i == 61 { assert CubeRootBits(Prime(i), 6, K(i)); }
    if i == 62 { assert CubeRootBits(Prime(i), 6, K(i)); }
    if i == 63 { assert CubeRootBits(Prime(i), 6, K(i)); }
  }

  // ----- the table lists the first 64 primes

  ghost predicate IsPrime(n: nat) { n >= 2 && forall d: nat | 2 <= d < n :: n % d != 0 }

  /** Divisible by one of the primes up to 17, as every composite below 18 * 18 is. */
  predicate HasSmallFactor(n: nat) {
    n % 2 == 0 || n % 3 == 0 || n % 5 == 0 || n % 7 == 0 || n % 11 == 0 || n % 13 == 0 || n % 17 == 0
  }

  lemma FactorOf(n: nat, d: nat) returns (q: nat)
    requires d > 0 && n % d == 0
    ensures n == d * q
  {
    q := n / d;
  }

  /** A divisor between 2 and 17 shows a small factor. */
  lemma SmallDivisor(n: nat, d: nat, q: nat)
    requires 2 <= d <= 17 && n == d * q
    ensures HasSmallFactor(n)
  {
    if d % 2 == 0 {
      MultipleOf(n, 2, d / 2 * q) by { assert n == 2 * (d / 2) * q == 2 * (d / 2 * q); }
    } else if d % 3 == 0 {
      MultipleOf(n, 3, d / 3 * q) by { assert n == 3 * (d / 3) * q == 3 * (d / 3 * q); }
    } else {
      MultipleOf(n, d, q);
    }
  }

  lemma MultipleOf(n: nat, d: nat, q: nat)
    requires d > 0 && n == d * q
    ensures n % d == 0
  {
    QuotientIs(n, d, q, 0);
  }

  lemma PrimeIffNoSmallFactor(n: nat)
    requires 17 < n < 324
    ensures IsPrime(n) <==> !HasSmallFactor(n)
  {
    if !HasSmallFactor(n) {
      forall d: nat | 2 <= d < n ensures n % d != 0 {
        if n % d == 0 {
          var q := FactorOf(n, d);
          NoLargePair(n, d, q);
        }
      }
    }
  }

  lemma NoLargePair(n: nat, d: nat, q: nat)
    requires n == d * q && 2 <= d < n < 324
    ensures HasSmallFactor(n)
  {
    if q <= 1 {
      MulMonotone(q, 1, d);
      assert false;
    }
    if d <= 17 {
      SmallDivisor(n, d, q);
    } else if q <= 17 {
      SmallDivisor(n, q, d);
    } else {
      MulMonotone(18, d, q);
      assert false;
    }
  }

  lemma SmallPrimes(t: nat)
    requires t < 7
    ensures IsPrime(Prime(t))
  {
    forall d: nat | 2 <= d < Prime(t) ensures Prime(t) % d != 0 {
      if Prime(t) % d == 0 {
        var q := FactorOf(Prime(t), d);
        NoSmallPair(Prime(t), d, q);
      }
    }
  }

  lemma NoSmallPair(p: nat, d: nat, q: nat)
    requires p == 2 || p == 3 || p == 5 || p == 7 || p == 11 || p == 13 || p == 17
    requires 2 <= d < p
    ensures p != d * q
  {
    if d == 2 { assert 2 * q != p; }
    if d == 3 { assert 3 * q != p; }
    if d == 4 { assert 4 * q != p; }
    if d == 5 { assert 5 * q != p; }
    if d == 6 { assert 6 * q != p; }
    if d == 7 { assert 7 * q != p; }
    if d == 8 { assert 8 * q != p; }
    if d == 9 { assert 9 * q != p; }
    if d == 10 { assert 10 * q != p; }
    if d == 11 { assert 11 * q != p; }
    if d == 12 { assert 12 * q != p; }
    if d == 13 { assert 13 * q != p; }
    if d == 14 { assert 14 * q != p; }
    if d == 15 { assert 15 * q != p; }
    if d == 16 { assert 16 * q != p; }
  }

  lemma SmallFactorIsComposite(n: nat)
    requires n >= 2 && HasSmallFactor(n)
    requires n != 2 && n != 3 && n != 5 && n != 7 && n != 11 && n != 13 && n != 17
    ensures !IsPrime(n)
  {
  }

  predicate AllHaveSmallFactor(from: nat, to: nat)
    decreases if from < to then to - from else 0
  {
    from >= to || (HasSmallFactor(from) && AllHaveSmallFactor(from + 1, to))
  }

  lemma {:induction false} SmallFactorInRange(from: nat, to: nat, n: nat)
    requires from <= n < to && AllHaveSmallFactor(from, to)
    ensures HasSmallFactor(n)
    decreases if from < to then to - from else 0
  {
    hide HasSmallFactor;
    if from < n {
      SmallFactorInRange(from + 1, to, n);
    }
  }

  /** Entry `t` has no small factor, and every number up to the next entry has one. */
  predicate EntryOk(t: nat)
    requires t < 64
  {
    && (t >= 7 ==> 17 < Prime(t) < 324 && !HasSmallFactor(Prime(t)))
    && (t < 63 ==> Prime(t) < Prime(t + 1) && AllHaveSmallFactor(Prime(t) + 1, Prime(t + 1)))
  }

  lemma Entries0(t: nat)
    requires 0 <= t < 8
    ensures EntryOk(t)
  {
    if t == 0 { assert AllHaveSmallFactor(3, 3); }
    if t == 1 { assert AllHaveSmallFactor(4, 5); }
    if t == 2 { assert AllHaveSmallFactor(6, 7); }
    if t == 3 { assert AllHaveSmallFactor(8, 11); }
    if t == 4 { assert AllHaveSmallFactor(12, 13); }
    if t == 5 { assert AllHaveSmallFactor(14, 17); }
    if t == 6 { assert AllHaveSmallFactor(18, 19); }
    if t == 7 { assert !HasSmallFactor(19) && AllHaveSmallFactor(20, 23); }
  }

  lemma Entries8(t: nat)
    requires 8 <= t < 16
    ensures EntryOk(t)
  {
    if t == 8 { assert !HasSmallFactor(23) && AllHaveSmallFactor(24, 29); }
    if t == 9 { assert !HasSmallFactor(29) && AllHaveSmallFactor(30, 31); }
    if t == 10 { assert !HasSmallFactor(31) && AllHaveSmallFactor(32, 37); }
    if t == 11 { assert !HasSmallFactor(37) && AllHaveSmallFactor(38, 41); }
    if t == 12 { assert !HasSmallFactor(41) && AllHaveSmallFactor(42, 43); }
    if t == 13 { assert !HasSmallFactor(43) && AllHaveSmallFactor(44, 47); }
    if t == 14 { assert !HasSmallFactor(47) && AllHaveSmallFactor(48, 53); }
    if t == 15 { assert !HasSmallFactor(53) && AllHaveSmallFactor(54, 59); }
  }

  lemma Entries16(t: nat)
    requires 16 <= t < 24
    ensures EntryOk(t)
  {
    if t == 16 { assert !HasSmallFactor(59) && AllHaveSmallFactor(60, 61); }
    if t == 17 { assert !HasSmallFactor(61) && AllHaveSmallFactor(62, 67); }
    if t == 18 { assert !HasSmallFactor(67) && AllHaveSmallFactor(68, 71); }
    if t == 19 { assert !HasSmallFactor(71) && AllHaveSmallFactor(72, 73); }
    if t == 20 { assert !HasSmallFactor(73) && AllHaveSmallFactor(74, 79); }
    if t == 21 { assert !HasSmallFactor(79) && AllHaveSmallFactor(80, 83); }
    if t == 22 { assert !HasSmallFactor(83) && AllHaveSmallFactor(84, 89); }
    if t == 23 { assert !HasSmallFactor(89) && AllHaveSmallFactor(90, 97); }
  }

  lemma Entries24(t: nat)
    requires 24 <= t < 32
    ensures EntryOk(t)
  {
    if t == 24 { assert !HasSmallFactor(97) && AllHaveSmallFactor(98, 101); }
    if t == 25 { assert !HasSmallFactor(101) && AllHaveSmallFactor(102, 103); }
    if t == 26 { assert !HasSmallFactor(103) && AllHaveSmallFactor(104, 107); }
    if t == 27 { assert !HasSmallFactor(107) && AllHaveSmallFactor(108, 109); }
    if t == 28 { assert !HasSmallFactor(109) && AllHaveSmallFactor(110, 113); }
    if t == 29 { assert !HasSmallFactor(113) && AllHaveSmallFactor(114, 127); }
    if t == 30 { assert !HasSmallFactor(127) && AllHaveSmallFactor(128, 131); }
    if t == 31 { assert !HasSmallFactor(131) && AllHaveSmallFactor(132, 137); }
  }

  lemma Entries32(t: nat)
    requires 32 <= t < 40
    ensures EntryOk(t)
  {
    if t == 32 { assert !HasSmallFactor(137) && AllHaveSmallFactor(138, 139); }
    if t == 33 { assert !HasSmallFactor(139) && AllHaveSmallFactor(140, 149); }
    if t == 34 { assert !HasSmallFactor(149) && AllHaveSmallFactor(150, 151); }
    if t == 35 { assert !HasSmallFactor(151) && AllHaveSmallFactor(152, 157); }
    if t == 36 { assert !HasSmallFactor(157) && AllHaveSmallFactor(158, 163); }
    if t == 37 { assert !HasSmallFactor(163) && AllHaveSmallFactor(164, 167); }
    if t == 38 { assert !HasSmallFactor(167) && AllHaveSmallFactor(168, 173); }
    if t == 39 { assert !HasSmallFactor(173) && AllHaveSmallFactor(174, 179); }
  }

  lemma Entries40(t: nat)
    requires 40 <= t < 48
    ensures EntryOk(t)
  {
    if t == 40 { assert !HasSmallFactor(179) && AllHaveSmallFactor(180, 181); }
    if t == 41 { assert !HasSmallFactor(181) && AllHaveSmallFactor(182, 191); }
    if t == 42 { assert !HasSmallFactor(191) && AllHaveSmallFactor(192, 193); }
    if t == 43 { assert !HasSmallFactor(193) && AllHaveSmallFactor(194, 197); }
    if t == 44 { assert !HasSmallFactor(197) && AllHaveSmallFactor(198, 199); }
    if t == 45 { assert !HasSmallFactor(199) && AllHaveSmallFactor(200, 211); }
    if t == 46 { assert !HasSmallFactor(211) && AllHaveSmallFactor(212, 223); }
    if t == 47 { assert !HasSmallFactor(223) && AllHaveSmallFactor(224, 227); }
  }

  lemma Entries48(t: nat)
    requires 48 <= t < 56
    ensures EntryOk(t)
  {
    if t == 48 { assert !HasSmallFactor(227) && AllHaveSmallFactor(228, 229); }
    if t == 49 { assert !HasSmallFactor(229) && AllHaveSmallFactor(230, 233); }
    if t == 50 { assert !HasSmallFactor(233) && AllHaveSmallFactor(234, 239); }
    if t == 51 { assert !HasSmallFactor(239) && AllHaveSmallFactor(240, 241); }
    if t == 52 { assert !HasSmallFactor(241) && AllHaveSmallFactor(242, 251); }
    if t == 53 { assert !HasSmallFactor(251) && AllHaveSmallFactor(252, 257); }
    if t == 54 { assert !HasSmallFactor(257) && AllHaveSmallFactor(258, 263); }
    if t == 55 { assert !HasSmallFactor(263) && AllHaveSmallFactor(264, 269); }
  }

  lemma Entries56(t: nat)
    requires 56 <= t < 64
    ensures EntryOk(t)
  {
    if t == 56 { assert !HasSmallFactor(269) && AllHaveSmallFactor(270, 271); }
    if t == 57 { assert !HasSmallFactor(271) && AllHaveSmallFactor(272, 277); }
    if t == 58 { assert !HasSmallFactor(277) && AllHaveSmallFactor(278, 281); }
    if t == 59 { assert !HasSmallFactor(281) && AllHaveSmallFactor(282, 283); }
    if t == 60 { assert !HasSmallFactor(283) && AllHaveSmallFactor(284, 293); }
    if t == 61 { assert !HasSmallFactor(293) && AllHaveSmallFactor(294, 307); }
    if t == 62 { assert !HasSmallFactor(307) && AllHaveSmallFactor(308, 311); }
    if t == 63 { assert !HasSmallFactor(311); }
  }

  /** The entries are prime and increasing, and no number between two of them is prime. */
  lemma PrimesAndGaps(t: nat, n: nat)
    requires t < 64
    ensures IsPrime(Prime(t))
    ensures t < 63 ==> Prime(t) < Prime(t + 1)
    ensures t < 63 && Prime(t) < n < Prime(t + 1) ==> !IsPrime(n)
  {
    if t < 8 {
      Entries0(t);
    } else if t < 16 {
      Entries8(t);
    } else if t < 24 {
      Entries16(t);
    } else if t < 32 {
      Entries24(t);
    } else if t < 40 {
      Entries32(t);
    } else if t < 48 {
      Entries40(t);
    } else if t < 56 {
      Entries48(t);
    } else {
      Entries56(t);
    }
    hide Prime, HasSmallFactor, IsPrime;
    if t < 7 {
      SmallPrimes(t);
    } else {
      PrimeIffNoSmallFactor(Prime(t));
    }
    if t < 63 && Prime(t) < n < Prime(t + 1) {
      InGap(t, n);
      SmallFactorInRange(Prime(t) + 1, Prime(t + 1), n);
      SmallFactorIsComposite(n);
    }
  }

  lemma InGap(t: nat, n: nat)
    requires t < 63 && Prime(t) < n < Prime(t + 1) && (t >= 7 ==> Prime(t) > 17)
    ensures n > 2 && n != 3 && n != 5 && n != 7 && n != 11 && n != 13 && n != 17
  {
  }

  lemma Increasing(s: nat, t: nat)
    requires s <= t < 64
    ensures Prime(s) <= Prime(t)
    decreases t
  {
    if s < t {
      Increasing(s, t - 1);
      PrimesAndGaps(t - 1, 0);
    }
  }

  lemma FirstAndLast()
    ensures Prime(0) == 2 && Prime(63) == 311
  {
  }

  /** The place of a number in the table. */
  lemma Bracket(n: nat, top: nat) returns (t: nat)
    requires top < 64 && 2 <= n <= 311 && (top == 63 || n < Prime(top + 1))
    ensures t < 64 && Prime(t) <= n && (t < 63 ==> n < Prime(t + 1))
    ensures t == 63 ==> n == 311
    decreases top
  {
    FirstAndLast();
    hide Prime;
    if Prime(top) <= n {
      t := top;
    } else {
      t := Bracket(n, top - 1);
    }
  }

  /** The table holds exactly the primes up to 311, which are the first 64, in order. */
  lemma TableHoldsFirstPrimes(n: nat)
    requires n <= 311
    ensures IsPrime(n) <==> exists t: nat | t < 64 :: Prime(t) == n
    ensures forall s: nat, t: nat | s < t < 64 :: Prime(s) < Prime(t)
  {
    hide IsPrime;
    forall s: nat, t: nat | s < t < 64 ensures Prime(s) < Prime(t) {
      PrimesAndGaps(s, 0);
      Increasing(s + 1, t);
    }
    if n < 2 {
      NotPrimeBelow2(n);
    } else {
      var t := Bracket(n, 63);
      PrimesAndGaps(t, n);
    }
    forall t: nat | t < 64 ensures IsPrime(Prime(t)) && Prime(t) >= 2 {
      PrimesAndGaps(t, 0);
      Increasing(0, t);
    }
  }

  lemma NotPrimeBelow2(n: nat)
    requires n < 2
    ensures !IsPrime(n)
  {
  }

  // ----- the padding

  /** After `n` bytes, the one bit and `k` zero bits, 64 bits are left in the last block. */
  predicate LeavesRoomForLength(n: nat, k: nat) { (8 * n + 1 + k) % 512 == 448 }

  /** The padding is the shortest that fits, counted in bits as in the standard. */
  lemma PaddingIsShortest(n: nat)
    ensures LeavesRoomForLength(n, 7 + 8 * ZeroBytes(n))
    ensures forall k: nat | k < 7 + 8 * ZeroBytes(n) :: !LeavesRoomForLength(n, k)
  {
    PadFillsBlocks(seq(n, i => 0));
    var top, q := 7 + 8 * ZeroBytes(n), (n + 9 + ZeroBytes(n)) / 64 - 1;
    Remainder(8 * n + 1 + top, q, 448);
    forall k: nat | k < top ensures !LeavesRoomForLength(n, k) {
      var d := top - k;
      if d <= 448 {
        Remainder(8 * n + 1 + k, q, 448 - d);
      } else {
        Remainder(8 * n + 1 + k, q - 1, 960 - d);
      }
    }
  }

  lemma Remainder(x: int, q: int, r: nat)
    requires x == 512 * q + r && r < 512
    ensures x % 512 == r
  {
  }

  lemma PadFillsBlocks(m: seq<byte>)
    ensures |Pad(m)| % 64 == 0 && |Pad(m)| == |m| + 9 + ZeroBytes(|m|) < |m| + 73
  {
    var n := |m|;
    var q, r := n / 64, n % 64;
    ZeroBytesFill(n, q, r);
    MultipleOf(n + 9 + ZeroBytes(n), 64, if r < 56 then q + 1 else q + 2);
  }

  lemma ZeroBytesFill(n: nat, q: nat, r: nat)
    requires n == 64 * q + r && r < 64
    ensures ZeroBytes(n) < 64
    ensures n + 9 + ZeroBytes(n) == 64 * (if r < 56 then q + 1 else q + 2)
  {
    QuotientIs(n, 64, q, r);
    assert ZeroBytes(n) == (119 - r) % 64;
    QuotientIs(119 - r, 64, if r < 56 then 1 else 0, if r < 56 then 55 - r else 119 - r);
  }
}

/** The boot crate's SHA-256 with fixed buffers. */
module BootSha256 {
  import opened Words
  import opened Sha256Spec

  const TUPLE_CAP: nat := 512
  const MSG_BYTES: nat := 640

  function Clip(data: seq<byte>): seq<byte> { if |data| > TUPLE_CAP then data[..TUPLE_CAP] else data }

  /** Hashes at most the first 512 bytes, inside the 640-byte buffer. */
  method Sha256InPlace(data: seq<byte>) returns (out: array<byte>)
    ensures fresh(out) && out[..] == Sha256(Clip(data))
  {
    var msg, total := PadInPlace(data);
    PadFillsBlocks(Clip(data));
    var h := HashBlocks(msg, total, Pad(Clip(data)));
    out := WriteWords(h);
  }

  method HashBlocks(msg: array<byte>, total: nat, ghost m: seq<byte>) returns (h: array<u32>)
    requires total == |m| <= msg.Length && msg[..total] == m && |m| % 64 == 0
    ensures fresh(h) && h.Length == 8 && VarsOf(h[..]) == Chain(m, |m| / 64)
  {
    hide Initial, VarsOf, Rounds, Add;
    h := InitialWords();
    var off := 0;
    while off < total
      modifies h
      invariant off <= total && off % 64 == 0
      invariant msg[..total] == m
      invariant VarsOf(h[..]) == Chain(m, off / 64)
    {
      HashBlock(msg, off, h, m);
      off := off + 64;
    }
  }

  /** The body of the block loop. */
  method HashBlock(msg: array<byte>, off: nat, h: array<u32>, ghost m: seq<byte>)
    requires off < |m| <= msg.Length && msg[..|m|] == m && off % 64 == |m| % 64 == 0
    requires h.Length == 8 && VarsOf(h[..]) == Chain(m, off / 64)
    modifies h
    ensures off + 64 <= |m| && VarsOf(h[..]) == Chain(m, (off + 64) / 64)
    ensures msg[..] == old(msg[..])
  {
    hide W, Rounds, Add, VarsOf;
    ChainStep(m, off / 64);
    var w := ScheduleInPlace(msg, off, m);
    var v := RunRounds(VarsOf(h[..]), w, m, off);
    AddInto(h, v);
  }

  method InitialWords() returns (h: array<u32>)
    ensures fresh(h) && h.Length == 8 && VarsOf(h[..]) == Initial()
  {
    hide H0;
    h := new u32[8] [H0(0), H0(1), H0(2), H0(3), H0(4), H0(5), H0(6), H0(7)];
  }

  lemma ChainStep(m: seq<byte>, blocks: nat)
    requires 64 * blocks + 64 <= |m|
    ensures Chain(m, blocks + 1) == Add(Chain(m, blocks), Rounds(Chain(m, blocks), m, 64 * blocks, 64))
  {
    hide Rounds, Add;
  }

  method AddInto(h: array<u32>, v: Vars)
    requires h.Length == 8
    modifies h
    ensures VarsOf(h[..]) == Add(VarsOf(old(h[..])), v)
  {
    hide Add32;
    h[0] := Add32(h[0], v.a);
    h[1] := Add32(h[1], v.b);
    h[2] := Add32(h[2], v.c);
    h[3] := Add32(h[3], v.d);
    h[4] := Add32(h[4], v.e);
    h[5] := Add32(h[5], v.f);
    h[6] := Add32(h[6], v.g);
    h[7] := Add32(h[7], v.h);
  }

  function VarsOf(h: seq<u32>): Vars
    requires |h| == 8
  {
    Vars(h[0], h[1], h[2], h[3], h[4], h[5], h[6], h[7])
  }

  method ScheduleInPlace(msg: array<byte>, off: nat, ghost m: seq<byte>) returns (w: array<u32>)
    requires off + 64 <= |m| <= msg.Length && msg[..|m|] == m
    ensures fresh(w) && w.Length == 64
    ensures forall t | 0 <= t < 64 :: w[t] == W(m, off, t)
  {
    hide SmallSigma0, SmallSigma1, Sum4, BlockWord;
    w := LoadBlock(msg, off, m);
    for i := 16 to 64
      modifies w
      invariant forall t | 0 <= t < i :: w[t] == W(m, off, t)
    {
      w[i] := ScheduleWord(w[i - 16], w[i - 15], w[i - 7], w[i - 2]);
    }
  }

  /** The first 16 words of the schedule are those of the block. */
  method LoadBlock(msg: array<byte>, off: nat, ghost m: seq<byte>) returns (w: array<u32>)
    requires off + 64 <= |m| <= msg.Length && msg[..|m|] == m
    ensures fresh(w) && w.Length == 64
    ensures forall t | 0 <= t < 16 :: w[t] == W(m, off, t)
  {
    hide Word;
    w := new u32[64](i => 0);
    for i := 0 to 16
      modifies w
      invariant forall t | 0 <= t < i :: w[t] == W(m, off, t)
    {
      var j := off + i * 4;
      assert forall k | 0 <= k < |m| :: msg[k] == m[k];
      w[i] := Word(msg[j], msg[j + 1], msg[j + 2], msg[j + 3]);
    }
  }

  /** The program wraps after each addition and adds in another order than the standard. */
  method ScheduleWord(w16: u32, w15: u32, w7: u32, w2: u32) returns (w: u32)
    ensures w == Sum4(SmallSigma1(w2), w7, SmallSigma0(w15), w16)
  {
    hide Xor32, RotateRight32, ShiftRight, Add32;
    var s0 := Xor32(Xor32(RotateRight32(w15, 7), RotateRight32(w15, 18)), ShiftRight(w15, 3));
    var s1 := Xor32(Xor32(RotateRight32(w2, 17), RotateRight32(w2, 19)), ShiftRight(w2, 10));
    SumReversed(w16, s0, w7, s1);
    w := Add32(Add32(Add32(w16, s0), w7), s1);
  }

  lemma SumReversed(a: u32, b: u32, c: u32, d: u32)
    ensures Sum4(a, b, c, d) == Sum4(d, c, b, a)
  {
    hide Add32;
    Add32Laws(a, b, c);
    Add32Laws(c, Add32(a, b), d);
    Add32Laws(Add32(a, b), c, d);
    Add32Laws(c, d, a);
    Add32Laws(Add32(c, d), b, a);
    Add32Laws(c, d, b);
    Add32Laws(Add32(c, d), Add32(a, b), d);
    Add32Laws(b, a, c);
  }

  method RunRounds(v: Vars, w: array<u32>, ghost m: seq<byte>, ghost off: nat) returns (r: Vars)
    requires off + 64 <= |m| && w.Length == 64
    requires forall t | 0 <= t < 64 :: w[t] == W(m, off, t)
    ensures r == Rounds(v, m, off, 64)
  {
    var a, b, c, d, e, f, g, hh := v.a, v.b, v.c, v.d, v.e, v.f, v.g, v.h;
    for i := 0 to 64
      invariant Vars(a, b, c, d, e, f, g, hh) == Rounds(v, m, off, i)
    {
      a, b, c, d, e, f, g, hh := OneRound(a, b, c, d, e, f, g, hh, K(i), w[i]);
    }
    r := Vars(a, b, c, d, e, f, g, hh);
  }

  /** The body of the round loop. */
  method OneRound(a0: u32, b0: u32, c0: u32, d0: u32, e0: u32, f0: u32, g0: u32, hh0: u32, k: u32, w: u32)
    returns (a: u32, b: u32, c: u32, d: u32, e: u32, f: u32, g: u32, hh: u32)
    ensures Vars(a, b, c, d, e, f, g, hh) == Round(Vars(a0, b0, c0, d0, e0, f0, g0, hh0), k, w)
  {
    hide T1, T2, Add32;
    a, b, c, d, e, f, g, hh := a0, b0, c0, d0, e0, f0, g0, hh0;
    var t1 := FirstSum(a, b, c, d, e, f, g, hh, k, w);
    var t2 := SecondSum(a, b, c, d, e, f, g, hh);
    hh := g;
    g := f;
    f := e;
    e := Add32(d, t1);
    d := c;
    c := b;
    b := a;
    a := Add32(t1, t2);
  }

  method FirstSum(ghost a: u32, ghost b: u32, ghost c: u32, ghost d: u32, e: u32, f: u32, g: u32, hh: u32, k: u32, w: u32)
    returns (t1: u32)
    ensures t1 == T1(Vars(a, b, c, d, e, f, g, hh), k, w)
  {
    hide Xor32, And32, RotateRight32, Not32, Add32;
    var s1 := Xor32(Xor32(RotateRight32(e, 6), RotateRight32(e, 11)), RotateRight32(e, 25));
    var ch := Xor32(And32(e, f), And32(Not32(e), g));
    t1 := Add32(Add32(Add32(Add32(hh, s1), ch), k), w);
  }

  method SecondSum(a: u32, b: u32, c: u32, ghost d: u32, ghost e: u32, ghost f: u32, ghost g: u32, ghost hh: u32)
    returns (t2: u32)
    ensures t2 == T2(Vars(a, b, c, d, e, f, g, hh))
  {
    hide Xor32, And32, RotateRight32, Add32;
    var s0 := Xor32(Xor32(RotateRight32(a, 2), RotateRight32(a, 13)), RotateRight32(a, 22));
    var maj := Xor32(Xor32(And32(a, b), And32(a, c)), And32(b, c));
    t2 := Add32(s0, maj);
  }

  function WordsBytes(h: seq<u32>): (bs: seq<byte>)
    ensures |bs| == 4 * |h|
  {
    if h == [] then [] else WordsBytes(h[..|h| - 1]) + BigEndian(h[|h| - 1], 4)
  }

  lemma NextWord(h: seq<u32>, i: nat)
    requires |h| == i || |h| == i + 1
    ensures WordsBytes([]) == []
    ensures |h| == i + 1 ==> WordsBytes(h) == WordsBytes(h[..i]) + BigEndian(h[i], 4)
  {
  }

  lemma EightWords(h: seq<u32>)
    requires |h| == 8
    ensures WordsBytes(h) == VarsBytes(VarsOf(h))
  {
    assert h[..7][..6] == h[..6] && h[..6][..5] == h[..5] && h[..5][..4] == h[..4];
    assert h[..4][..3] == h[..3] && h[..3][..2] == h[..2] && h[..2][..1] == h[..1] && h[..1][..0] == [];
    assert WordsBytes(h[..1]) == BigEndian(h[0], 4);
    assert WordsBytes(h[..2]) == WordsBytes(h[..1]) + BigEndian(h[1], 4);
    assert WordsBytes(h[..3]) == WordsBytes(h[..2]) + BigEndian(h[2], 4);
    assert WordsBytes(h[..4]) == WordsBytes(h[..3]) + BigEndian(h[3], 4);
    assert WordsBytes(h[..5]) == WordsBytes(h[..4]) + BigEndian(h[4], 4);
    assert WordsBytes(h[..6]) == WordsBytes(h[..5]) + BigEndian(h[5], 4);
    assert WordsBytes(h[..7]) == WordsBytes(h[..6]) + BigEndian(h[6], 4);
  }

  method WriteWords(h: array<u32>) returns (out: array<byte>)
    requires h.Length == 8
    ensures fresh(out) && out[..] == VarsBytes(VarsOf(h[..]))
  {
    hide WordsBytes, VarsBytes, BigEndian;
    out := new byte[32](i => 0);
    NextWord([], 0);
    for i := 0 to 8
      modifies out
      invariant out[..4 * i] == WordsBytes(h[..i])
    {
      WriteWord(out, 4 * i, h[i]);
      NextWord(h[..i + 1], i);
      assert h[..i + 1][..i] == h[..i];
    }
    assert h[..8] == h[..] && out[..32] == out[..];
    EightWords(h[..]);
  }

  /** `copy_from_slice` of the four big-endian bytes of a word. */
  method WriteWord(out: array<byte>, at: nat, word: u32)
    requires at + 4 <= out.Length
    modifies out
    ensures out[..at + 4] == old(out[..at]) + BigEndian(word, 4)
  {
    hide BigEndian;
    var bs := BigEndian(word, 4);
    for j := 0 to 4
      invariant out[..at + j] == old(out[..at]) + bs[..j]
    {
      out[at + j] := bs[j];
    }
    assert bs[..4] == bs;
  }

  method PadInPlace(data: seq<byte>) returns (msg: array<byte>, total: nat)
    ensures fresh(msg) && msg.Length == MSG_BYTES
    ensures total == |Pad(Clip(data))| <= MSG_BYTES && msg[..total] == Pad(Clip(data))
  {
    var n := if |data| > TUPLE_CAP then TUPLE_CAP else |data|;
    msg := CopyAndMark(data, n);
    PadFillsBlocks(Clip(data));
    total := FindTotal(n);
    ghost var front := Clip(data) + [0x80] + seq(ZeroBytes(n), k => 0);
    assert msg[..total] == front by {
      assert msg[..total] == msg[..n + 1] + msg[n + 1..total];
      assert msg[n + 1..total] == seq(ZeroBytes(n), k => 0);
    }
    WriteLength(msg, total, 8 * n, front);
    total := total + 8;
  }

  method FindTotal(n: nat) returns (total: nat)
    ensures total == n + 1 + ZeroBytes(n)
  {
    TotalsInBlock(n);
    hide ZeroBytes;
    total := n + 1;
    while total % 64 != 56
      invariant n + 1 <= total <= n + 1 + ZeroBytes(n)
      decreases n + 1 + ZeroBytes(n) - total
    {
      total := total + 1;
    }
  }

  /** The first total past the one bit that leaves eight bytes in its block is the standard's. */
  lemma TotalsInBlock(n: nat)
    ensures (n + 1 + ZeroBytes(n)) % 64 == 56
    ensures forall t: nat | n + 1 <= t < n + 1 + ZeroBytes(n) :: t % 64 != 56
  {
    var q, r := n / 64, n % 64;
    assert ZeroBytes(n) == if r < 56 then 55 - r else 119 - r;
    var last := n + 1 + ZeroBytes(n);
    assert last == 64 * (if r < 56 then q else q + 1) + 56;
    forall t: nat | n + 1 <= t < last ensures t % 64 != 56 {
      var d := last - t;
      assert 0 < d < 64;
      assert t == last - d;
    }
  }

  method CopyAndMark(data: seq<byte>, n: nat) returns (msg: array<byte>)
    requires n <= |data| && n <= TUPLE_CAP
    ensures fresh(msg) && msg.Length == MSG_BYTES
    ensures msg[..n + 1] == data[..n] + [0x80]
    ensures forall k | n + 1 <= k < MSG_BYTES :: msg[k] == 0
  {
    msg := new byte[MSG_BYTES](i => 0);
    for i := 0 to n
      invariant msg[..i] == data[..i]
      invariant forall k | i <= k < MSG_BYTES :: msg[k] == 0
    {
      msg[i] := data[i];
    }
    msg[n] := 0x80;
  }

  method WriteLength(msg: array<byte>, total: nat, bits: nat, ghost front: seq<byte>)
    requires total + 8 <= msg.Length && msg[..total] == front
    modifies msg
    ensures msg[..total + 8] == front + BigEndian(bits, 8)
  {
    var bitLen := BigEndian(bits, 8);
    for i := 0 to 8
      invariant msg[..total + i] == front + bitLen[..i]
    {
      msg[total + i] := bitLen[i];
    }
  }
}
