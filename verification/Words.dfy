/** Machine words and the text and byte encodings shared by the kernel modules. */
module Words {

  datatype Option<+T> = None | Some(value: T)

  datatype Result<+T, +E> = Ok(value: T) | Err(error: E)

  const U16: int := 0x1_0000
  const U32: int := 0x1_0000_0000
  const U64: int := 0x1_0000_0000_0000_0000

  type byte = x: int | 0 <= x < 256
  type u16 = x: int | 0 <= x < U16
  type u32 = x: int | 0 <= x < U32
  type u64 = x: int | 0 <= x < U64

  function Wrap32(x: int): u32 { x % U32 }

  function Wrap64(x: int): u64 { x % U64 }

  lemma WrapKeepsSmall(x: nat)
    requires x < U64
    ensures Wrap64(x) == x
  {
  }

  function SaturatingAdd(a: u64, b: nat): u64 { if a + b < U64 then a + b else U64 - 1 }

  function Min(a: nat, b: nat): nat { if a < b then a else b }

  // ----- bitwise operations

  function Pow2(n: nat): (p: nat)
    ensures p > 0
  {
    if n == 0 then 1 else 2 * Pow2(n - 1)
  }

  /** Bitwise exclusive or of the low `bits` bits. */
  function Xor(a: nat, b: nat, bits: nat): (x: nat)
    ensures x < Pow2(bits)
  {
    if bits == 0 then 0 else (a + b) % 2 + 2 * Xor(a / 2, b / 2, bits - 1)
  }

  /** Bitwise and of the low `bits` bits. */
  function And(a: nat, b: nat, bits: nat): (x: nat)
    ensures x < Pow2(bits)
  {
    if bits == 0 then 0 else (if a % 2 == 1 && b % 2 == 1 then 1 else 0) + 2 * And(a / 2, b / 2, bits - 1)
  }

  lemma {:induction false} Pow2Add(m: nat, n: nat)
    ensures Pow2(m + n) == Pow2(m) * Pow2(n)
    decreases m
  {
    if m > 0 {
      Pow2Add(m - 1, n);
      Pow2Step(m);
      Pow2Step(m + n);
      hide Pow2;
      Associates(2, Pow2(m - 1), Pow2(n));
    }
  }

  lemma Pow2Step(n: nat)
    requires n > 0
    ensures Pow2(n) == 2 * Pow2(n - 1)
  {
  }

  lemma Associates(a: int, b: int, c: int)
    ensures a * (b * c) == a * b * c
  {
  }

  lemma Pow2Of32()
    ensures Pow2(32) == U32
  {
    assert Pow2(8) == 256;
    Pow2Add(8, 8);
    Pow2Add(16, 16);
  }

  function Xor8(a: byte, b: byte): byte {
    assert Pow2(8) == 256;
    Xor(a, b, 8)
  }

  function Xor32(a: u32, b: u32): u32 {
    Pow2Of32();
    Xor(a, b, 32)
  }

  function And32(a: u32, b: u32): u32 {
    Pow2Of32();
    And(a, b, 32)
  }

  /** `wrapping_add`. */
  function Add32(a: u32, b: u32): u32 { Wrap32(a as int + b as int) }

  lemma Add32Laws(a: u32, b: u32, c: u32)
    ensures Add32(a, b) == Add32(b, a)
    ensures Add32(Add32(a, b), c) == Add32(a, Add32(b, c))
  {
    AddWrapped(a + b, c);
    AddWrapped(b + c, a);
  }

  lemma AddWrapped(x: nat, y: nat)
    ensures Wrap32(Wrap32(x) + y) == Wrap32(x + y)
  {
    var q, r := (Wrap32(x) + y) / U32, (Wrap32(x) + y) % U32;
    assert x + y == U32 * (x / U32 + q) + r;
    QuotientIs(x + y, U32, x / U32 + q, r);
  }

  function Not32(a: u32): u32 { U32 - 1 - a }

  function RotateRight32(a: u32, n: nat): u32
    requires n <= 32
  {
    RotateFits(a, n);
    a / Pow2(n) + a % Pow2(n) * Pow2(32 - n)
  }

  lemma RotateFits(a: u32, n: nat)
    requires n <= 32
    ensures 0 <= a / Pow2(n) + a % Pow2(n) * Pow2(32 - n) < U32
  {
    Pow2Complement(n);
    DivModSwap(a, Pow2(n), Pow2(32 - n));
  }

  lemma Pow2Complement(n: nat)
    requires n <= 32
    ensures Pow2(n) * Pow2(32 - n) == U32
  {
    Pow2Of32();
    Pow2Add(n, 32 - n);
  }

  lemma DivModSwap(a: nat, p: nat, q: nat)
    requires p > 0 && q > 0 && a < p * q
    ensures 0 <= a / p + a % p * q < p * q
  {
    var d, r := a / p, a % p;
    assert a == d * p + r;
    MulMonotone(r, p - 1, q);
    if d >= q {
      MulMonotone(q, d, p);
      assert false;
    }
  }

  lemma MulMonotone(x: nat, y: nat, z: nat)
    requires x <= y
    ensures x * z <= y * z
  {
    assert y * z == x * z + (y - x) * z;
  }

  lemma NoMultipleBetween(a: nat, d: int)
    ensures !(0 < a * d < a)
  {
    if d >= 1 {
      MulMonotone(1, d, a);
    }
  }

  lemma QuotientIs(x: nat, a: nat, q: nat, r: nat)
    requires a > 0 && x == a * q + r && r < a
    ensures x / a == q && x % a == r
  {
    var d := x / a - q;
    assert x == a * (x / a) + x % a;
    assert a * (x / a) - a * q == a * d;
    NoMultipleBetween(a, d);
    NoMultipleBetween(a, -d);
    assert a * d == 0;
  }

  function ShiftRight(a: u32, n: nat): u32 {
    ShiftFits(a, Pow2(n));
    a / Pow2(n)
  }

  lemma ShiftFits(a: nat, p: nat)
    requires p > 0
    ensures 0 <= a / p <= a
  {
    var d := a / p;
    assert a == d * p + a % p;
    MulMonotone(1, p, d);
  }

  // ----- big-endian integers

  function Pow256(width: nat): (p: nat)
    ensures p > 0
  {
    if width == 0 then 1 else 256 * Pow256(width - 1)
  }

  /** The `to_be_bytes` of a `width`-byte integer. */
  function BigEndian(n: nat, width: nat): (bs: seq<byte>)
    ensures |bs| == width
  {
    if width == 0 then [] else BigEndian(n / 256, width - 1) + [n % 256]
  }

  function FromBigEndian(bs: seq<byte>): nat {
    if bs == [] then 0 else 256 * FromBigEndian(bs[..|bs| - 1]) + bs[|bs| - 1]
  }

  lemma {:induction false} BigEndianRoundTrip(n: nat, width: nat)
    requires n < Pow256(width)
    ensures FromBigEndian(BigEndian(n, width)) == n
  {
    if width > 0 {
      BigEndianRoundTrip(n / 256, width - 1);
      var bs := BigEndian(n, width);
      assert bs[..|bs| - 1] == BigEndian(n / 256, width - 1);
    }
  }

  /** Two integers that fit in `width` bytes have the same bytes only if they are equal. */
  lemma BigEndianInjective(m: nat, n: nat, width: nat)
    requires m < Pow256(width) && n < Pow256(width)
    requires BigEndian(m, width) == BigEndian(n, width)
    ensures m == n
  {
    BigEndianRoundTrip(m, width);
    BigEndianRoundTrip(n, width);
  }

  lemma ConcatInjective<T>(a: seq<T>, b: seq<T>, c: seq<T>, d: seq<T>)
    requires |a| == |c| && a + b == c + d
    ensures a == c && b == d
  {
    assert a == (a + b)[..|a|] == c;
    assert b == (a + b)[|a|..] == d;
  }

  // ----- a digest input fed chunk by chunk

  function Flatten<T>(chunks: seq<seq<T>>): seq<T> {
    if chunks == [] then [] else chunks[0] + Flatten(chunks[1..])
  }

  ghost predicate SameWidths<T>(a: seq<seq<T>>, b: seq<seq<T>>) {
    |a| == |b| && forall i | 0 <= i < |a| :: |a[i]| == |b[i]|
  }

  /** Feeding fixed-width chunks one after another loses nothing. */
  lemma {:induction false} FlattenInjective<T>(a: seq<seq<T>>, b: seq<seq<T>>)
    requires SameWidths(a, b) && Flatten(a) == Flatten(b)
    ensures a == b
  {
    if a != [] {
      assert a[0] == Flatten(a)[..|a[0]|] == b[0];
      assert Flatten(a[1..]) == Flatten(a)[|a[0]|..] == Flatten(b[1..]);
      FlattenInjective(a[1..], b[1..]);
      assert a == [a[0]] + a[1..] && b == [b[0]] + b[1..];
    }
  }

  // ----- decimal text

  function Digit(d: nat): char
    requires d < 10
  {
    '0' + d as char
  }

  /** The text `format!("{}", n)` prints for an unsigned integer. */
  function Decimal(n: nat): (s: string)
    ensures s != []
  {
    if n < 10 then [Digit(n)] else Decimal(n / 10) + [Digit(n % 10)]
  }

  predicate IsDigit(c: char) { '0' <= c <= '9' }

  function ReadDecimal(s: string): int {
    if s == [] then 0 else 10 * ReadDecimal(s[..|s| - 1]) + s[|s| - 1] as int - '0' as int
  }

  /** Printed decimals consist of digits and read back as their value. */
  lemma {:induction false} DecimalReadsBack(n: nat)
    ensures forall c | c in Decimal(n) :: IsDigit(c)
    ensures ReadDecimal(Decimal(n)) == n
  {
    var s := Decimal(n);
    if n < 10 {
      assert s[..|s| - 1] == [];
    } else {
      DecimalReadsBack(n / 10);
      assert s[..|s| - 1] == Decimal(n / 10);
    }
  }

  // ----- hexadecimal text

  function UpperHexDigit(d: nat): char
    requires d < 16
  {
    if d < 10 then '0' + d as char else 'A' + (d - 10) as char
  }

  /** The text `format!("{:0width$X}", n)` prints for a value that fits in `width` digits. */
  function UpperHex(n: nat, width: nat): (s: string)
    ensures |s| == width
  {
    if width == 0 then [] else UpperHex(n / 16, width - 1) + [UpperHexDigit(n % 16)]
  }

  function Pow16(width: nat): nat { if width == 0 then 1 else 16 * Pow16(width - 1) }

  /** The place of a character among the sixteen digits. */
  function HexValue(c: char): int { if '0' <= c <= '9' then c as int - '0' as int else c as int - 'A' as int + 10 }

  function ReadHex(s: string): int {
    if s == [] then 0 else 16 * ReadHex(s[..|s| - 1]) + HexValue(s[|s| - 1])
  }

  /** Printed hexadecimals consist of the sixteen digits, highest first, and read back as their value. */
  lemma {:induction false} UpperHexReadsBack(n: nat, width: nat)
    requires n < Pow16(width)
    ensures forall c | c in UpperHex(n, width) :: c in "0123456789ABCDEF"
    ensures ReadHex(UpperHex(n, width)) == n
  {
    if width > 0 {
      UpperHexReadsBack(n / 16, width - 1);
      var s := UpperHex(n, width);
      assert s[..width - 1] == UpperHex(n / 16, width - 1);
      HexDigitOf(n % 16);
    }
  }

  lemma HexDigitOf(d: nat)
    requires d < 16
    ensures UpperHexDigit(d) == "0123456789ABCDEF"[d] && HexValue(UpperHexDigit(d)) == d
  {
  }

  lemma UpperHexInjective(m: nat, n: nat, width: nat)
    requires m < Pow16(width) && n < Pow16(width)
    requires UpperHex(m, width) == UpperHex(n, width)
    ensures m == n
  {
    UpperHexReadsBack(m, width);
    UpperHexReadsBack(n, width);
  }
}
