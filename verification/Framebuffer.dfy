/** Painting the boot screen: the index arithmetic over the linear framebuffer. */
module Framebuffer {
  import opened Words

  const TEXT: string := "ASOLARIA ASI OS"

  /** The pixel index of column `x`, row `y`, computed on 32 bits. */
  function At(pps: nat, x: nat, y: nat): u32 { Wrap32(y * pps + x) }

  lemma AtBelow(pps: nat, x: nat, y: nat, yMax: nat)
    requires y <= yMax
    ensures At(pps, x, y) <= y * pps + x <= yMax * pps + x
  {
    MulMonotone(y, yMax, pps);
    WrapBelow(y * pps + x);
  }

  lemma WrapBelow(n: nat)
    ensures Wrap32(n) <= n
  {
  }

  // ----- glyphs

  /** The 8 rows of a glyph; the most significant bit is the leftmost pixel. */
  function Glyph(c: char): (rows: seq<byte>)
    ensures |rows| == 8
  {
    match c
    case 'A' => [0x38, 0x6C, 0xC6, 0xC6, 0xFE, 0xC6, 0xC6, 0x00]
    case 'S' => [0x7C, 0xC6, 0xC0, 0x7C, 0x06, 0xC6, 0x7C, 0x00]
    case 'O' => [0x7C, 0xC6, 0xC6, 0xC6, 0xC6, 0xC6, 0x7C, 0x00]
    case 'L' => [0xC0, 0xC0, 0xC0, 0xC0, 0xC0, 0xC6, 0xFE, 0x00]
    case 'R' => [0xFC, 0xC6, 0xC6, 0xFC, 0xD8, 0xCC, 0xC6, 0x00]
    case 'I' => [0x7C, 0x18, 0x18, 0x18, 0x18, 0x18, 0x7C, 0x00]
    case _ => [0, 0, 0, 0, 0, 0, 0, 0]
  }

  function ColumnBit(col: nat): nat
    requires col < 8
  {
    match col
    case 0 => 128
    case 1 => 64
    case 2 => 32
    case 3 => 16
    case 4 => 8
    case 5 => 4
    case 6 => 2
    case _ => 1
  }

  predicate Lit(c: char, row: nat, col: nat)
    requires row < 8 && col < 8
  {
    Glyph(c)[row] / ColumnBit(col) % 2 == 1
  }

  // ----- what the loops hit

  /** The first `n` pixels of a `w`-wide rectangle at (x0, y0), row by row, include index `i`. */
  predicate RectHits(pps: nat, x0: nat, y0: nat, w: nat, n: nat, i: int)
    requires w > 0
  {
    n > 0 && (RectHits(pps, x0, y0, w, n - 1, i) || At(pps, x0 + (n - 1) % w, y0 + (n - 1) / w) == i)
  }

  predicate BoxHits(pps: nat, x0: nat, y0: nat, w: nat, h: nat, i: int)
    requires w > 0
  {
    RectHits(pps, x0, y0, w, w * h, i)
  }

  function Offset(q: nat, scale: nat): nat { q * scale }

  /** The first `n` cells of a glyph at (x0, y0), row by row, include index `i`. */
  predicate GlyphHits(c: char, pps: nat, x0: nat, y0: nat, scale: nat, n: nat, i: int)
    requires scale > 0 && n <= 64
  {
    n > 0 && (GlyphHits(c, pps, x0, y0, scale, n - 1, i)
              || (Lit(c, (n - 1) / 8, (n - 1) % 8) && CellHits(pps, x0, y0, scale, n - 1, i)))
  }

  predicate CellHits(pps: nat, x0: nat, y0: nat, scale: nat, m: nat, i: int)
    requires scale > 0
  {
    BoxHits(pps, x0 + Offset(m % 8, scale), y0 + Offset(m / 8, scale), scale, scale, i)
  }

  predicate TextHits(s: string, pps: nat, x0: nat, y0: nat, scale: nat, k: nat, i: int)
    requires scale > 0 && k <= |s|
  {
    k > 0 && (TextHits(s, pps, x0, y0, scale, k - 1, i)
              || GlyphHits(s[k - 1], pps, x0 + 9 * scale * (k - 1), y0, scale, 64, i))
  }

  /** The first `y` rows of the background include index `i`. */
  predicate FillHits(pps: nat, w: nat, y: nat, i: int) {
    y > 0 && (FillHits(pps, w, y - 1, i) || Wrap32((y - 1) * pps) <= i < Wrap32((y - 1) * pps) + w)
  }

  // ----- the loops

  method FbFill(fb: array<u32>, pps: u32, w: u32, h: u32, color: u32)
    requires w <= pps && (pps * h <= fb.Length || 2 * U32 <= fb.Length)
    modifies fb
    ensures forall i | 0 <= i < fb.Length :: fb[i] == if FillHits(pps, w, h, i) then color else old(fb[i])
  {
    for y := 0 to h
      invariant forall i | 0 <= i < fb.Length :: fb[i] == if FillHits(pps, w, y, i) then color else old(fb[i])
    {
      var row := Wrap32(y * pps);
      RowInside(pps, w, h, y);
      FillRow(fb, row, w, color);
    }
  }

  method FillRow(fb: array<u32>, row: nat, w: nat, color: u32)
    requires row + w <= fb.Length
    modifies fb
    ensures forall i | 0 <= i < fb.Length :: fb[i] == if row <= i < row + w then color else old(fb[i])
  {
    for x := 0 to w
      invariant forall i | 0 <= i < fb.Length :: fb[i] == if row <= i < row + x then color else old(fb[i])
    {
      fb[row + x] := color;
    }
  }

  lemma RowInside(pps: nat, w: nat, h: nat, y: nat)
    requires w <= pps && y < h
    ensures Wrap32(y * pps) + w <= pps * h
  {
    WrapBelow(y * pps);
    MulMonotone(y + 1, h, pps);
    assert (y + 1) * pps == y * pps + pps;
  }

  /** The accent bar, and one lit glyph pixel scaled up. */
  method FillRect(fb: array<u32>, pps: u32, x0: nat, y0: nat, w: nat, h: nat, color: u32)
    requires w > 0 && h > 0 && ((y0 + h - 1) * pps + x0 + w <= fb.Length || U32 <= fb.Length)
    modifies fb
    ensures forall i | 0 <= i < fb.Length :: fb[i] == if BoxHits(pps, x0, y0, w, h, i) then color else old(fb[i])
  {
    hide RectHits, At;
    ghost var n: nat := 0;
    NothingHitYet(pps, x0, y0, w);
    for dy := 0 to h
      invariant n == w * dy
      invariant forall i | 0 <= i < fb.Length :: fb[i] == if RectHits(pps, x0, y0, w, n, i) then color else old(fb[i])
    {
      for dx := 0 to w
        invariant n == w * dy + dx
        invariant forall i | 0 <= i < fb.Length :: fb[i] == if RectHits(pps, x0, y0, w, n, i) then color else old(fb[i])
      {
        AtBelow(pps, x0 + dx, y0 + dy, y0 + h - 1);
        NextHit(pps, x0, y0, w, dy, dx, n);
        fb[At(pps, x0 + dx, y0 + dy)] := color;
        n := n + 1;
      }
      assert n == w * (dy + 1);
    }
  }

  lemma NothingHitYet(pps: nat, x0: nat, y0: nat, w: nat)
    requires w > 0
    ensures forall i: int :: !RectHits(pps, x0, y0, w, 0, i)
  {
  }

  lemma NextHit(pps: nat, x0: nat, y0: nat, w: nat, dy: nat, dx: nat, n: nat)
    requires dx < w && n == w * dy + dx
    ensures forall i: int :: RectHits(pps, x0, y0, w, n + 1, i)
                             <==> RectHits(pps, x0, y0, w, n, i) || At(pps, x0 + dx, y0 + dy) == i
  {
    QuotientIs(n, w, dy, dx);
  }

  method DrawGlyph(fb: array<u32>, pps: u32, c: char, x0: nat, y0: nat, scale: nat, color: u32)
    requires scale > 0 && ((y0 + 8 * scale - 1) * pps + x0 + 8 * scale <= fb.Length || U32 <= fb.Length)
    modifies fb
    ensures forall i | 0 <= i < fb.Length ::
              fb[i] == if GlyphHits(c, pps, x0, y0, scale, 64, i) then color else old(fb[i])
  {
    hide BoxHits, GlyphHits, Lit, Offset;
    ghost var n: nat := 0;
    NoCellYet(c, pps, x0, y0, scale);
    for row := 0 to 8
      invariant n == 8 * row
      invariant forall i | 0 <= i < fb.Length ::
          fb[i] == if GlyphHits(c, pps, x0, y0, scale, n, i) then color else old(fb[i])
    {
      for col := 0 to 8
        invariant n == 8 * row + col
        invariant forall i | 0 <= i < fb.Length ::
            fb[i] == if GlyphHits(c, pps, x0, y0, scale, n, i) then color else old(fb[i])
      {
        NextCell(c, pps, x0, y0, scale, row, col, n);
        if Lit(c, row, col) {
          CellInside(pps, x0, y0, scale, row, col);
          FillRect(fb, pps, x0 + Offset(col, scale), y0 + Offset(row, scale), scale, scale, color);
        }
        n := n + 1;
      }
    }
  }

  lemma NoCellYet(c: char, pps: nat, x0: nat, y0: nat, scale: nat)
    requires scale > 0
    ensures forall i: int :: !GlyphHits(c, pps, x0, y0, scale, 0, i)
  {
  }

  lemma NextCell(c: char, pps: nat, x0: nat, y0: nat, scale: nat, row: nat, col: nat, n: nat)
    requires scale > 0 && row < 8 && col < 8 && n == 8 * row + col
    ensures forall i: int :: GlyphHits(c, pps, x0, y0, scale, n + 1, i)
                             <==> GlyphHits(c, pps, x0, y0, scale, n, i)
                                  || (Lit(c, row, col)
                                      && BoxHits(pps, x0 + Offset(col, scale), y0 + Offset(row, scale), scale, scale, i))
  {
    hide BoxHits, Lit, Offset;
    forall i: int
      ensures GlyphHits(c, pps, x0, y0, scale, n + 1, i)
              <==> GlyphHits(c, pps, x0, y0, scale, n, i)
                   || (Lit(c, row, col)
                       && BoxHits(pps, x0 + Offset(col, scale), y0 + Offset(row, scale), scale, scale, i))
    {
      GlyphStep(c, pps, x0, y0, scale, row, col, n + 1, i);
    }
  }

  lemma GlyphStep(c: char, pps: nat, x0: nat, y0: nat, scale: nat, row: nat, col: nat, n: nat, i: int)
    requires scale > 0 && row < 8 && col < 8 && n == 8 * row + col + 1
    ensures GlyphHits(c, pps, x0, y0, scale, n, i)
            <==> GlyphHits(c, pps, x0, y0, scale, n - 1, i)
                 || (Lit(c, row, col)
                     && BoxHits(pps, x0 + Offset(col, scale), y0 + Offset(row, scale), scale, scale, i))
  {
    hide BoxHits, Lit, Offset;
    assert (n - 1) / 8 == row && (n - 1) % 8 == col;
  }

  lemma CellInside(pps: nat, x0: nat, y0: nat, scale: nat, row: nat, col: nat)
    requires row < 8 && col < 8 && scale > 0
    ensures (y0 + Offset(row, scale) + scale - 1) * pps + (x0 + Offset(col, scale)) + scale
            <= (y0 + 8 * scale - 1) * pps + x0 + 8 * scale
  {
    MulMonotone(row + 1, 8, scale);
    MulMonotone(col + 1, 8, scale);
    MulMonotone(y0 + Offset(row, scale) + scale - 1, y0 + 8 * scale - 1, pps);
  }

  /** Each glyph is 8 cells wide and followed by one empty cell. */
  method FbString(fb: array<u32>, pps: u32, s: string, x0: nat, y0: nat, scale: nat, color: u32)
    requires scale > 0 && ((y0 + 8 * scale - 1) * pps + x0 + 9 * scale * |s| <= fb.Length || U32 <= fb.Length)
    modifies fb
    ensures forall i | 0 <= i < fb.Length ::
              fb[i] == if TextHits(s, pps, x0, y0, scale, |s|, i) then color else old(fb[i])
  {
    hide GlyphHits;
    var cx := x0;
    for k := 0 to |s|
      invariant cx == x0 + 9 * scale * k
      invariant forall i | 0 <= i < fb.Length ::
          fb[i] == if TextHits(s, pps, x0, y0, scale, k, i) then color else old(fb[i])
    {
      MulMonotone(k + 1, |s|, 9 * scale);
      assert (k + 1) * (9 * scale) == 9 * scale * k + 9 * scale;
      DrawGlyph(fb, pps, s[k], cx, y0, scale, color);
      cx := cx + 9 * scale;
    }
  }

  // ----- the boot screen

  function Pack(fmt: u32, r: byte, g: byte, b: byte): u32 {
    if fmt == 0 then b * 65536 + g * 256 + r else r * 65536 + g * 256 + b
  }

  function SaturatingMul(a: nat, b: nat): u64 { if a * b < U64 then a * b else U64 - 1 }

  function MinFramebufferBytes(pps: u32, h: u32): u64 { SaturatingMul(SaturatingMul(pps, h), 4) }

  /** The modes that are painted: a verified layout, a direct pixel format (0 to 2), and a minimal size. */
  predicate Accepted(w: u32, h: u32, pps: u32, fmt: u32, fbSize: u64) {
    pps >= w && fbSize >= MinFramebufferBytes(pps, h) && fmt <= 2 && w >= 320 && h >= 200
  }

  function Scale(w: u32): nat { if w >= 1024 then 8 else 4 }

  function TextWidth(w: u32): nat { 15 * 9 * Scale(w) }

  function TextLeft(w: u32): nat { if w < TextWidth(w) then 0 else (w - TextWidth(w)) / 2 }

  function TextTop(w: u32, h: u32): int { h / 2 - 4 * Scale(w) }

  function BarTop(w: u32, h: u32): int { TextTop(w, h) - 3 * Scale(w) }

  /** Title and bar are centred: the margins of the title differ by at most one pixel, and two cells part it from the bar. */
  lemma TitleIsCentred(w: u32, h: u32)
    requires w >= TextWidth(w) && h >= 200
    ensures 0 <= w - (TextLeft(w) + TextWidth(w)) - TextLeft(w) <= 1
    ensures 0 <= h - (TextTop(w, h) + 8 * Scale(w)) - TextTop(w, h) <= 1
    ensures TextTop(w, h) - (BarTop(w, h) + Scale(w)) == 2 * Scale(w)
    ensures TextWidth(w) == |TEXT| * 9 * Scale(w) && Scale(w) in {4, 8} && (Scale(w) == 8 <==> w >= 1024)
  {
  }

  /** In memory the lowest byte is red for the first format and blue for the others, and green is between. */
  lemma PackedChannels(fmt: u32, r: byte, g: byte, b: byte)
    ensures var p := Pack(fmt, r, g, b);
            && p % 256 == (if fmt == 0 then r else b)
            && p / 256 % 256 == g
            && p / 65536 == (if fmt == 0 then b else r)
  {
    if fmt == 0 {
      ThreeBytes(b, g, r);
    } else {
      ThreeBytes(r, g, b);
    }
  }

  lemma ThreeBytes(x: byte, y: byte, z: byte)
    ensures var p: int := x * 65536 + y * 256 + z; p % 256 == z && p / 256 % 256 == y && p / 65536 == x
  {
    var p: int := x * 65536 + y * 256 + z;
    assert p / 256 == x * 256 + y;
  }

  predicate TitleHits(w: u32, h: u32, pps: u32, i: int)
    requires h >= 200
  {
    TextHits(TEXT, pps, TextLeft(w), TextTop(w, h), Scale(w), 15, i)
  }

  predicate BarHits(w: u32, h: u32, pps: u32, i: int)
    requires h >= 200
  {
    BoxHits(pps, TextLeft(w), BarTop(w, h), TextWidth(w), Scale(w), i)
  }

  /** What an accepted mode shows: the title over the bar over the background. */
  function Painted(w: u32, h: u32, pps: u32, fmt: u32, i: int, before: u32): u32
    requires h >= 200
  {
    if TitleHits(w, h, pps, i) then Pack(fmt, 0x43, 0xE8, 0xD8)
    else if BarHits(w, h, pps, i) then Pack(fmt, 0xFF, 0xB4, 0x54)
    else if FillHits(pps, w, h, i) then Pack(fmt, 0x05, 0x07, 0x0D)
    else before
  }

  /** Unless the size check saturates, an accepted framebuffer has the pixels of all its rows. */
  lemma AcceptedHasPixels(w: u32, h: u32, pps: u32, fmt: u32, fbSize: u64)
    requires Accepted(w, h, pps, fmt, fbSize)
    ensures pps * h <= fbSize / 4 <==> 4 * (pps * h) < U64
  {
  }

  /** Where the size check saturates, the framebuffer still has every pixel 32-bit indexes can reach. */
  lemma AcceptedIsLongEnough(w: u32, h: u32, pps: u32, fmt: u32, fbSize: u64)
    requires Accepted(w, h, pps, fmt, fbSize)
    ensures pps * h <= fbSize / 4 || 2 * U32 <= fbSize / 4
  {
  }

  /** The lowest row of bar and title, and their overrun of the row end, still lie inside the rows. */
  lemma TitleReach(w: u32, h: u32, pps: u32)
    requires pps >= w >= 320 && h >= 200
    ensures TextTop(w, h) > BarTop(w, h) > 0
    ensures (TextTop(w, h) + 8 * Scale(w) - 1) * pps + TextLeft(w) + TextWidth(w) <= pps * h
    ensures (BarTop(w, h) + Scale(w) - 1) * pps + TextLeft(w) + TextWidth(w) <= pps * h
  {
    var last := TextTop(w, h) + 8 * Scale(w) - 1;
    assert last + 2 <= h && TextLeft(w) + TextWidth(w) <= 2 * pps;
    MulMonotone(last + 2, h, pps);
    assert (last + 2) * pps == last * pps + 2 * pps;
    MulMonotone(BarTop(w, h) + Scale(w) - 1, last, pps);
  }

  /** Paints an accepted mode; every index it writes is inside the framebuffer. */
  method PaintBootScreen(fb: array<u32>, fbSize: u64, w: u32, h: u32, pps: u32, fmt: u32) returns (done: bool)
    requires fb.Length == fbSize / 4
    modifies fb
    ensures done <==> Accepted(w, h, pps, fmt, fbSize)
    ensures done <==> pps >= w >= 320 && h >= 200 && fmt in {0, 1, 2} && fbSize >= Min(4 * (pps * h), U64 - 1)
    ensures done ==> forall i | 0 <= i < fb.Length :: fb[i] == Painted(w, h, pps, fmt, i, old(fb[i]))
    ensures !done ==> fb[..] == old(fb[..])
  {
    hide BoxHits, TextHits, FillHits;
    if !(pps >= w && fbSize >= MinFramebufferBytes(pps, h) && fmt <= 2 && w >= 320 && h >= 200) {
      return false;
    }
    AcceptedIsLongEnough(w, h, pps, fmt, fbSize);
    TitleReach(w, h, pps);
    var bg, cyan, amber := Pack(fmt, 0x05, 0x07, 0x0D), Pack(fmt, 0x43, 0xE8, 0xD8), Pack(fmt, 0xFF, 0xB4, 0x54);
    FbFill(fb, pps, w, h, bg);
    var scale := if w >= 1024 then 8 else 4;
    var tw := |TEXT| * 9 * scale;
    var tx := (if w < tw then 0 else w - tw) / 2;
    var ty := h / 2 - 4 * scale;
    var barTop := if ty < 3 * scale then 0 else ty - 3 * scale;
    FillRect(fb, pps, tx, barTop, tw, scale, amber);
    FbString(fb, pps, TEXT, tx, ty, scale, cyan);
    return true;
  }

  // ----- every index is below pps * h

  lemma Locate(n: nat, w: nat, h: nat) returns (dy: nat, dx: nat)
    requires w > 0 && n < w * h
    ensures dx < w && dy < h && n == w * dy + dx == Place(w, dx, dy)
  {
    dy, dx := n / w, n % w;
    assert n == w * dy + dx;
    if dy >= h {
      MulMonotone(h, dy, w);
      assert false;
    }
  }

  lemma RectStep(pps: nat, x0: nat, y0: nat, w: nat, dy: nat, dx: nat, n: nat, i: int)
    requires dx < w && n == w * dy + dx + 1
    ensures RectHits(pps, x0, y0, w, n, i) <==> RectHits(pps, x0, y0, w, n - 1, i) || At(pps, x0 + dx, y0 + dy) == i
  {
    QuotientIs(n - 1, w, dy, dx);
  }

  lemma {:induction false} RectInside(pps: nat, x0: nat, y0: nat, w: nat, h: nat, n: nat, i: int)
    requires 0 < w && 0 < h && n <= w * h && RectHits(pps, x0, y0, w, n, i)
    ensures 0 <= i < (y0 + h - 1) * pps + x0 + w
  {
    var dy, dx := Locate(n - 1, w, h);
    RectStep(pps, x0, y0, w, dy, dx, n, i);
    hide RectHits, At;
    if RectHits(pps, x0, y0, w, n - 1, i) {
      RectInside(pps, x0, y0, w, h, n - 1, i);
    } else {
      AtBelow(pps, x0 + dx, y0 + dy, y0 + h - 1);
    }
  }

  lemma BoxInside(pps: nat, x0: nat, y0: nat, w: nat, h: nat, i: int)
    requires 0 < w && 0 < h && BoxHits(pps, x0, y0, w, h, i)
    ensures 0 <= i < (y0 + h - 1) * pps + x0 + w
  {
    hide RectHits;
    RectInside(pps, x0, y0, w, h, w * h, i);
  }

  lemma CellHitsInside(pps: nat, x0: nat, y0: nat, scale: nat, m: nat, i: int)
    requires scale > 0 && m < 64 && CellHits(pps, x0, y0, scale, m, i)
    ensures 0 <= i < (y0 + 8 * scale - 1) * pps + x0 + 8 * scale
  {
    hide BoxHits, Offset;
    var row, col := m / 8, m % 8;
    BoxInside(pps, x0 + Offset(col, scale), y0 + Offset(row, scale), scale, scale, i);
    CellInside(pps, x0, y0, scale, row, col);
  }

  lemma {:induction false} GlyphInside(c: char, pps: nat, x0: nat, y0: nat, scale: nat, n: nat, i: int)
    requires scale > 0 && n <= 64 && GlyphHits(c, pps, x0, y0, scale, n, i)
    ensures 0 <= i < (y0 + 8 * scale - 1) * pps + x0 + 8 * scale
  {
    hide CellHits, Lit;
    if GlyphHits(c, pps, x0, y0, scale, n - 1, i) {
      GlyphInside(c, pps, x0, y0, scale, n - 1, i);
    } else {
      CellHitsInside(pps, x0, y0, scale, n - 1, i);
    }
  }

  lemma {:induction false} TextInside(s: string, pps: nat, x0: nat, y0: nat, scale: nat, k: nat, i: int)
    requires scale > 0 && k <= |s| && TextHits(s, pps, x0, y0, scale, k, i)
    ensures 0 <= i < (y0 + 8 * scale - 1) * pps + x0 + 9 * scale * k
  {
    hide GlyphHits;
    assert 9 * scale * k == 9 * scale * (k - 1) + 9 * scale;
    if TextHits(s, pps, x0, y0, scale, k - 1, i) {
      TextInside(s, pps, x0, y0, scale, k - 1, i);
    } else {
      GlyphInside(s[k - 1], pps, x0 + 9 * scale * (k - 1), y0, scale, 64, i);
    }
  }

  lemma {:induction false} FillInside(pps: nat, w: nat, h: nat, y: nat, i: int)
    requires w <= pps && y <= h && FillHits(pps, w, y, i)
    ensures 0 <= i < pps * h
  {
    if FillHits(pps, w, y - 1, i) {
      FillInside(pps, w, h, y - 1, i);
    } else {
      RowInside(pps, w, h, y - 1);
    }
  }

  /** For every accepted mode, whatever `pps * h` is: fill, bar and title stay below `pps * h`. */
  lemma PaintStaysInside(w: u32, h: u32, pps: u32, i: int)
    requires pps >= w >= 320 && h >= 200
    ensures FillHits(pps, w, h, i) || BarHits(w, h, pps, i) || TitleHits(w, h, pps, i) ==> 0 <= i < pps * h
  {
    hide FillHits, BoxHits, TextHits;
    TitleReach(w, h, pps);
    if FillHits(pps, w, h, i) {
      FillInside(pps, w, h, h, i);
    }
    if BarHits(w, h, pps, i) {
      BoxInside(pps, TextLeft(w), BarTop(w, h), TextWidth(w), Scale(w), i);
    }
    if TitleHits(w, h, pps, i) {
      TextInside(TEXT, pps, TextLeft(w), TextTop(w, h), Scale(w), 15, i);
    }
  }

  // ----- what is seen, in columns and rows

  /** Without wrap-around an index has one column below `pps` and one row. */
  lemma AtIsExact(pps: nat, x: nat, y: nat, x': nat, y': nat, rows: nat)
    requires x < pps && x' < pps && y' < rows && pps * rows <= U32
    ensures At(pps, x', y') == y' * pps + x'
    ensures At(pps, x', y') == y * pps + x <==> x == x' && y == y'
  {
    var i := y' * pps + x';
    MulMonotone(y' + 1, rows, pps);
    assert (y' + 1) * pps == y' * pps + pps;
    Wrap32Keeps(i);
    QuotientIs(i, pps, y', x');
    QuotientIs(y * pps + x, pps, y, x);
  }

  lemma Wrap32Keeps(i: nat)
    requires i < U32
    ensures Wrap32(i) == i
  {
  }

  lemma QuotientIff(u: nat, a: nat, q: nat)
    requires a > 0
    ensures u / a == q <==> a * q <= u < a * q + a
  {
    if a * q <= u < a * q + a {
      QuotientIs(u, a, q, u - a * q);
    } else {
      assert u == a * (u / a) + u % a;
    }
  }

  /** The position of column `u`, row `v` when a `w`-wide rectangle is filled row by row. */
  function Place(w: nat, u: nat, v: nat): nat { w * v + u }

  lemma SamePlace(w: nat, u: nat, v: nat, dx: nat, dy: nat)
    requires u < w && dx < w
    ensures Place(w, u, v) == Place(w, dx, dy) <==> u == dx && v == dy
  {
    QuotientIs(Place(w, u, v), w, v, u);
    QuotientIs(Place(w, dx, dy), w, dy, dx);
  }

  lemma {:induction false} RectShows(pps: nat, x0: nat, y0: nat, w: nat, h: nat, n: nat, x: nat, y: nat, rows: nat)
    requires 0 < w && x0 + w <= pps && y0 + h <= rows && pps * rows <= U32 && x < pps && n <= w * h
    ensures RectHits(pps, x0, y0, w, n, y * pps + x)
            <==> x0 <= x < x0 + w && y0 <= y && Place(w, x - x0, y - y0) < n
  {
    hide RectHits, At, Place;
    if n == 0 {
      NothingHitYet(pps, x0, y0, w);
    } else {
      RectShows(pps, x0, y0, w, h, n - 1, x, y, rows);
      var dy, dx := Locate(n - 1, w, h);
      RectStep(pps, x0, y0, w, dy, dx, n, y * pps + x);
      AtIsExact(pps, x, y, x0 + dx, y0 + dy, rows);
      if x0 <= x < x0 + w && y0 <= y {
        SamePlace(w, x - x0, y - y0, dx, dy);
      }
    }
  }

  /** A filled rectangle is seen as that rectangle. */
  lemma WholeRectShows(pps: nat, x0: nat, y0: nat, w: nat, h: nat, x: nat, y: nat, rows: nat)
    requires 0 < w && x0 + w <= pps && y0 + h <= rows && pps * rows <= U32 && x < pps
    ensures BoxHits(pps, x0, y0, w, h, y * pps + x) <==> x0 <= x < x0 + w && y0 <= y < y0 + h
  {
    RectShows(pps, x0, y0, w, h, w * h, x, y, rows);
    if x0 <= x < x0 + w && y0 <= y {
      if y - y0 < h {
        MulMonotone(y - y0 + 1, h, w);
        assert (y - y0 + 1) * w == w * (y - y0) + w;
      } else {
        MulMonotone(h, y - y0, w);
      }
    }
  }

  predicate CellLit(c: char, row: nat, col: nat) { row < 8 && col < 8 && Lit(c, row, col) }

  lemma CellShows(pps: nat, x0: nat, y0: nat, scale: nat, m: nat, x: nat, y: nat, rows: nat)
    requires scale > 0 && m < 64 && x < pps && pps * rows <= U32
    requires x0 + 8 * scale <= pps && y0 + 8 * scale <= rows
    ensures CellHits(pps, x0, y0, scale, m, y * pps + x)
            <==> x0 <= x && y0 <= y && Quot(x - x0, scale) == m % 8 && Quot(y - y0, scale) == m / 8
  {
    hide BoxHits, Quot, Offset;
    var row, col := m / 8, m % 8;
    EighthFits(col, scale);
    EighthFits(row, scale);
    WholeRectShows(pps, x0 + Offset(col, scale), y0 + Offset(row, scale), scale, scale, x, y, rows);
    OnAxis(x, x0, scale, col);
    OnAxis(y, y0, scale, row);
  }

  lemma EighthFits(q: nat, scale: nat)
    requires q < 8
    ensures Offset(q, scale) + scale <= 8 * scale
  {
    MulMonotone(q + 1, 8, scale);
  }

  lemma OnAxis(x: nat, x0: nat, scale: nat, q: nat)
    requires scale > 0
    ensures x0 + Offset(q, scale) <= x < x0 + Offset(q, scale) + scale <==> x0 <= x && Quot(x - x0, scale) == q
  {
    MulMonotone(0, q, scale);
    if x0 <= x {
      QuotientIff(x - x0, scale, q);
    }
  }

  lemma {:induction false} GlyphShows(c: char, pps: nat, x0: nat, y0: nat, scale: nat, n: nat, x: nat, y: nat, rows: nat)
    requires scale > 0 && n <= 64 && x < pps && pps * rows <= U32
    requires x0 + 8 * scale <= pps && y0 + 8 * scale <= rows
    ensures GlyphHits(c, pps, x0, y0, scale, n, y * pps + x)
            <==> x0 <= x && y0 <= y && CellLit(c, Quot(y - y0, scale), Quot(x - x0, scale))
                 && 8 * Quot(y - y0, scale) + Quot(x - x0, scale) < n
  {
    hide CellHits, Lit, Quot;
    if n > 0 {
      GlyphShows(c, pps, x0, y0, scale, n - 1, x, y, rows);
      hide GlyphHits;
      GlyphStep(c, pps, x0, y0, scale, (n - 1) / 8, (n - 1) % 8, n, y * pps + x);
      CellShows(pps, x0, y0, scale, n - 1, x, y, rows);
      if x0 <= x && y0 <= y {
        EighthPlace(Quot(y - y0, scale), Quot(x - x0, scale), n - 1);
      }
    }
  }

  lemma EighthPlace(row: nat, col: nat, m: nat)
    ensures col < 8 ==> (col == m % 8 && row == m / 8 <==> m == 8 * row + col)
  {
  }

  function Quot(u: nat, a: nat): nat
    requires a > 0
  {
    u / a
  }

  function Rem(u: nat, a: nat): nat
    requires a > 0
  {
    u % a
  }

  /** Column `u`, row `v` of the first `k` scaled characters is lit; each is 9 cells wide. */
  predicate TextPixel(s: string, scale: nat, k: nat, u: int, v: int)
    requires scale > 0 && k <= |s|
  {
    && u >= 0 && v >= 0
    && Quot(u, 9 * scale) < k
    && CellLit(s[Quot(u, 9 * scale)], Quot(v, scale), Quot(Rem(u, 9 * scale), scale))
  }

  lemma TextPixelStep(s: string, scale: nat, k: nat, u: int, v: int, left: nat)
    requires scale > 0 && 0 < k <= |s| && left == 9 * scale * (k - 1)
    ensures TextPixel(s, scale, k, u, v)
            <==> TextPixel(s, scale, k - 1, u, v)
                 || (u >= left && v >= 0 && CellLit(s[k - 1], Quot(v, scale), Quot(u - left, scale)))
  {
    hide CellLit, Quot, Rem;
    if u >= 0 {
      CharOf(u, scale, k - 1, left);
      if u >= left && v >= 0 && CellLit(s[k - 1], Quot(v, scale), Quot(u - left, scale)) {
        ColumnBelow8(s[k - 1], Quot(v, scale), Quot(u - left, scale));
      }
    }
  }

  lemma ColumnBelow8(c: char, row: nat, col: nat)
    requires CellLit(c, row, col)
    ensures col < 8
  {
    hide Lit;
  }

  lemma CharOf(u: nat, scale: nat, q: nat, left: nat)
    requires scale > 0 && left == 9 * scale * q
    ensures Quot(u, 9 * scale) == q <==> left <= u < left + 9 * scale
    ensures Quot(u, 9 * scale) == q ==> Rem(u, 9 * scale) == u - left
    ensures u >= left && Quot(u - left, scale) < 8 ==> Quot(u, 9 * scale) == q
  {
    QuotientIff(u, 9 * scale, q);
    if left <= u < left + 9 * scale {
      QuotientIs(u, 9 * scale, q, u - left);
    } else if u >= left {
      MulMonotone(0, q, 9 * scale);
      QuotientIff(u - left, scale, Quot(u - left, scale));
      NineColumns(u - left, scale, Quot(u - left, scale));
    }
  }

  lemma NineColumns(d: nat, scale: nat, q: nat)
    requires scale > 0 && d >= 9 * scale && scale * q <= d < scale * q + scale
    ensures q >= 9
  {
    if q < 9 {
      MulMonotone(q + 1, 9, scale);
      assert false;
    }
  }

  lemma {:induction false} TextShows(s: string, pps: nat, x0: nat, y0: nat, scale: nat, k: nat, x: nat, y: nat, rows: nat)
    requires scale > 0 && k <= |s| && x < pps && pps * rows <= U32
    requires x0 + 9 * scale * k <= pps && y0 + 8 * scale <= rows
    ensures TextHits(s, pps, x0, y0, scale, k, y * pps + x) <==> TextPixel(s, scale, k, x - x0, y - y0)
  {
    hide GlyphHits, CellLit, Quot, Rem;
    if k > 0 {
      var left := 9 * scale * (k - 1);
      assert 9 * scale * k == left + 9 * scale;
      MulMonotone(0, k - 1, 9 * scale);
      TextShows(s, pps, x0, y0, scale, k - 1, x, y, rows);
      CellInside64(s[k - 1], pps, x0 + left, y0, scale, x, y, rows);
      TextPixelStep(s, scale, k, x - x0, y - y0, left);
    }
  }

  lemma CellInside64(c: char, pps: nat, x0: nat, y0: nat, scale: nat, x: nat, y: nat, rows: nat)
    requires scale > 0 && x < pps && pps * rows <= U32 && x0 + 8 * scale <= pps && y0 + 8 * scale <= rows
    ensures GlyphHits(c, pps, x0, y0, scale, 64, y * pps + x)
            <==> x0 <= x && y0 <= y && CellLit(c, Quot(y - y0, scale), Quot(x - x0, scale))
  {
    hide GlyphHits, Lit, Quot;
    GlyphShows(c, pps, x0, y0, scale, 64, x, y, rows);
  }

  lemma {:induction false} FillShows(pps: nat, w: nat, n: nat, x: nat, y: nat, rows: nat)
    requires w <= pps && x < pps && n <= rows && pps * rows <= U32
    ensures FillHits(pps, w, n, y * pps + x) <==> x < w && y < n
  {
    if n > 0 {
      FillShows(pps, w, n - 1, x, y, rows);
      hide FillHits;
      FillStep(pps, w, n, y * pps + x);
      RowShows(pps, w, n - 1, x, y, rows);
    }
  }

  lemma FillStep(pps: nat, w: nat, n: nat, i: int)
    requires n > 0
    ensures FillHits(pps, w, n, i)
            <==> FillHits(pps, w, n - 1, i) || Wrap32((n - 1) * pps) <= i < Wrap32((n - 1) * pps) + w
  {
  }

  lemma RowShows(pps: nat, w: nat, row: nat, x: nat, y: nat, rows: nat)
    requires w <= pps && x < pps && row < rows && pps * rows <= U32
    ensures Wrap32(row * pps) <= y * pps + x < Wrap32(row * pps) + w <==> x < w && y == row
  {
    var i := y * pps + x;
    AtIsExact(pps, x, y, 0, row, rows);
    QuotientIs(i, pps, y, x);
    if row * pps <= i < row * pps + w {
      QuotientIs(i, pps, row, i - row * pps);
    }
  }

  /**
   * A mode whose rows hold the title shows, at column `x` of row `y`: the title where its scaled
   * glyphs are lit, the bar in its rectangle, the background in the visible columns.
   */
  lemma ScreenShows(w: u32, h: u32, pps: u32, x: nat, y: nat)
    requires pps >= w >= 320 && h >= 200 && pps * h <= U32 && TextLeft(w) + TextWidth(w) <= pps
    requires x < pps
    ensures TitleHits(w, h, pps, y * pps + x)
            <==> TextPixel(TEXT, Scale(w), 15, x - TextLeft(w), y - TextTop(w, h))
    ensures BarHits(w, h, pps, y * pps + x)
            <==> TextLeft(w) <= x < TextLeft(w) + TextWidth(w) && BarTop(w, h) <= y < BarTop(w, h) + Scale(w)
    ensures FillHits(pps, w, h, y * pps + x) <==> x < w && y < h
  {
    hide TextHits, BoxHits, FillHits, TextPixel;
    TextShows(TEXT, pps, TextLeft(w), TextTop(w, h), Scale(w), 15, x, y, h);
    WholeRectShows(pps, TextLeft(w), BarTop(w, h), TextWidth(w), Scale(w), x, y, h);
    FillShows(pps, w, h, x, y, h);
  }

  /** So the title is cyan, over the amber bar, over the dark visible columns, in the byte order of the format. */
  lemma ScreenColours(w: u32, h: u32, pps: u32, fmt: u32, x: nat, y: nat, before: u32)
    requires pps >= w >= 320 && h >= 200 && pps * h <= U32 && TextLeft(w) + TextWidth(w) <= pps
    requires x < pps
    ensures Painted(w, h, pps, fmt, y * pps + x, before)
            == if TextPixel(TEXT, Scale(w), 15, x - TextLeft(w), y - TextTop(w, h)) then
                 if fmt == 0 then 0xD8E843 else 0x43E8D8
               else if TextLeft(w) <= x < TextLeft(w) + TextWidth(w) && BarTop(w, h) <= y < BarTop(w, h) + Scale(w) then
                 if fmt == 0 then 0x54B4FF else 0xFFB454
               else if x < w && y < h then
                 if fmt == 0 then 0x0D0705 else 0x05070D
               else before
  {
    ScreenShows(w, h, pps, x, y);
    hide TitleHits, BarHits, FillHits, TextPixel, TextTop, BarTop, TextLeft, TextWidth, Scale;
  }

  lemma {:induction false} RectGrows(pps: nat, x0: nat, y0: nat, w: nat, n: nat, m: nat, i: int)
    requires w > 0 && n <= m && RectHits(pps, x0, y0, w, n, i)
    ensures RectHits(pps, x0, y0, w, m, i)
    decreases m - n
  {
    if n < m {
      RectGrows(pps, x0, y0, w, n + 1, m, i);
    }
  }

  // ----- which indexes are painted, in every mode

  ghost predicate BoxPixel(pps: nat, x0: nat, y0: nat, w: nat, h: nat, u: nat, v: nat, i: int) {
    u < w && v < h && At(pps, x0 + u, y0 + v) == i
  }

  lemma {:induction false} RectHitsAt(pps: nat, x0: nat, y0: nat, w: nat, n: nat, i: int) returns (u: nat, v: nat)
    requires w > 0 && RectHits(pps, x0, y0, w, n, i)
    ensures u < w && Place(w, u, v) < n && At(pps, x0 + u, y0 + v) == i
  {
    v, u := Quot(n - 1, w), Rem(n - 1, w);
    RowAndColumn(n - 1, w);
    RectStep(pps, x0, y0, w, v, u, n, i);
    hide RectHits, At, Place, Quot, Rem;
    if RectHits(pps, x0, y0, w, n - 1, i) {
      u, v := RectHitsAt(pps, x0, y0, w, n - 1, i);
    }
  }

  lemma RowAndColumn(n: nat, w: nat)
    requires w > 0
    ensures Rem(n, w) < w && n == w * Quot(n, w) + Rem(n, w) == Place(w, Rem(n, w), Quot(n, w))
  {
  }

  lemma RectCovers(pps: nat, x0: nat, y0: nat, w: nat, n: nat, u: nat, v: nat)
    requires u < w && Place(w, u, v) < n
    ensures RectHits(pps, x0, y0, w, n, At(pps, x0 + u, y0 + v))
  {
    var i, m := At(pps, x0 + u, y0 + v), Place(w, u, v) + 1;
    RectStep(pps, x0, y0, w, v, u, m, i);
    hide RectHits, At, Place;
    RectGrows(pps, x0, y0, w, m, n, i);
  }

  lemma PlaceBelow(w: nat, u: nat, v: nat, h: nat)
    requires u < w
    ensures Place(w, u, v) < w * h <==> v < h
  {
    if v < h {
      MulMonotone(v + 1, h, w);
      assert (v + 1) * w == w * v + w;
    } else {
      MulMonotone(h, v, w);
    }
  }

  /** A filled rectangle paints the indexes of its pixels and no other, wherever they wrap. */
  lemma BoxHitsIff(pps: nat, x0: nat, y0: nat, w: nat, h: nat, i: int)
    requires w > 0
    ensures BoxHits(pps, x0, y0, w, h, i) <==> exists u: nat, v: nat :: BoxPixel(pps, x0, y0, w, h, u, v, i)
  {
    hide RectHits, At, Place;
    if BoxHits(pps, x0, y0, w, h, i) {
      var u, v := RectHitsAt(pps, x0, y0, w, w * h, i);
      PlaceBelow(w, u, v, h);
      assert BoxPixel(pps, x0, y0, w, h, u, v, i);
    }
    forall u: nat, v: nat | BoxPixel(pps, x0, y0, w, h, u, v, i) ensures BoxHits(pps, x0, y0, w, h, i) {
      PlaceBelow(w, u, v, h);
      RectCovers(pps, x0, y0, w, w * h, u, v);
    }
  }

  predicate GlyphPixel(c: char, scale: nat, u: nat, v: nat)
    requires scale > 0
  {
    CellLit(c, Quot(v, scale), Quot(u, scale))
  }

  lemma InCell(q: nat, scale: nat, d: nat)
    requires d < scale
    ensures Quot(Offset(q, scale) + d, scale) == q
  {
    QuotientIs(Offset(q, scale) + d, scale, q, d);
  }

  lemma CellOf(u: nat, scale: nat) returns (d: nat)
    requires scale > 0
    ensures d < scale && u == Offset(Quot(u, scale), scale) + d
  {
    d := Rem(u, scale);
    RowAndColumn(u, scale);
  }

  ghost predicate GlyphPixelAt(c: char, pps: nat, x0: nat, y0: nat, scale: nat, u: nat, v: nat, i: int)
    requires scale > 0
  {
    GlyphPixel(c, scale, u, v) && At(pps, x0 + u, y0 + v) == i
  }

  lemma CellHitsAt(c: char, pps: nat, x0: nat, y0: nat, scale: nat, row: nat, col: nat, i: int) returns (u: nat, v: nat)
    requires scale > 0 && CellLit(c, row, col)
    requires BoxHits(pps, x0 + Offset(col, scale), y0 + Offset(row, scale), scale, scale, i)
    ensures GlyphPixelAt(c, pps, x0, y0, scale, u, v, i)
  {
    hide BoxHits, Offset, Quot, At, CellLit;
    BoxHitsIff(pps, x0 + Offset(col, scale), y0 + Offset(row, scale), scale, scale, i);
    var du: nat, dv: nat :| BoxPixel(pps, x0 + Offset(col, scale), y0 + Offset(row, scale), scale, scale, du, dv, i);
    u, v := Offset(col, scale) + du, Offset(row, scale) + dv;
    InCell(col, scale, du);
    InCell(row, scale, dv);
  }

  lemma LastCell(c: char, pps: nat, x0: nat, y0: nat, scale: nat, n: nat, i: int) returns (row: nat, col: nat)
    requires scale > 0 && 0 < n <= 64
    ensures GlyphHits(c, pps, x0, y0, scale, n, i)
            <==> (n > 1 && GlyphHits(c, pps, x0, y0, scale, n - 1, i))
                 || (CellLit(c, row, col)
                     && BoxHits(pps, x0 + Offset(col, scale), y0 + Offset(row, scale), scale, scale, i))
  {
    NoCellYet(c, pps, x0, y0, scale);
    hide GlyphHits, BoxHits, Lit, Offset;
    row, col := (n - 1) / 8, (n - 1) % 8;
    GlyphStep(c, pps, x0, y0, scale, row, col, n, i);
  }

  lemma {:induction false} GlyphHitsAt(c: char, pps: nat, x0: nat, y0: nat, scale: nat, n: nat, i: int)
    returns (u: nat, v: nat)
    requires scale > 0 && 0 < n <= 64 && GlyphHits(c, pps, x0, y0, scale, n, i)
    ensures GlyphPixelAt(c, pps, x0, y0, scale, u, v, i)
    decreases n
  {
    hide GlyphHits, BoxHits, CellLit, GlyphPixelAt, Offset;
    var row, col := LastCell(c, pps, x0, y0, scale, n, i);
    if n > 1 && GlyphHits(c, pps, x0, y0, scale, n - 1, i) {
      u, v := GlyphHitsAt(c, pps, x0, y0, scale, n - 1, i);
    } else {
      u, v := CellHitsAt(c, pps, x0, y0, scale, row, col, i);
    }
  }

  lemma GlyphCovers(c: char, pps: nat, x0: nat, y0: nat, scale: nat, u: nat, v: nat)
    requires scale > 0 && GlyphPixel(c, scale, u, v)
    ensures GlyphHits(c, pps, x0, y0, scale, 64, At(pps, x0 + u, y0 + v))
  {
    hide GlyphHits, BoxHits, Lit, Offset, Quot, At;
    var row, col, i := Quot(v, scale), Quot(u, scale), At(pps, x0 + u, y0 + v);
    var du := CellOf(u, scale);
    var dv := CellOf(v, scale);
    BoxHitsIff(pps, x0 + Offset(col, scale), y0 + Offset(row, scale), scale, scale, i);
    assert BoxPixel(pps, x0 + Offset(col, scale), y0 + Offset(row, scale), scale, scale, du, dv, i);
    GlyphStep(c, pps, x0, y0, scale, row, col, 8 * row + col + 1, i);
    GlyphGrows(c, pps, x0, y0, scale, 8 * row + col + 1, 64, i);
  }

  lemma {:induction false} GlyphGrows(c: char, pps: nat, x0: nat, y0: nat, scale: nat, n: nat, m: nat, i: int)
    requires scale > 0 && n <= m <= 64 && GlyphHits(c, pps, x0, y0, scale, n, i)
    ensures GlyphHits(c, pps, x0, y0, scale, m, i)
    decreases m - n
  {
    hide CellHits, Lit;
    if n < m {
      GlyphGrows(c, pps, x0, y0, scale, n + 1, m, i);
    }
  }

  ghost predicate TextPixelAt(s: string, pps: nat, x0: nat, y0: nat, scale: nat, k: nat, u: nat, v: nat, i: int)
    requires scale > 0 && k <= |s|
  {
    TextPixel(s, scale, k, u, v) && At(pps, x0 + u, y0 + v) == i
  }

  lemma {:induction false} TextHitsAt(s: string, pps: nat, x0: nat, y0: nat, scale: nat, k: nat, i: int)
    returns (u: nat, v: nat)
    requires scale > 0 && k <= |s| && TextHits(s, pps, x0, y0, scale, k, i)
    ensures TextPixelAt(s, pps, x0, y0, scale, k, u, v, i)
  {
    hide GlyphHits, TextPixel, GlyphPixel, At;
    var left := Left(scale, k);
    if TextHits(s, pps, x0, y0, scale, k - 1, i) {
      u, v := TextHitsAt(s, pps, x0, y0, scale, k - 1, i);
    } else {
      u, v := GlyphHitsAt(s[k - 1], pps, x0 + left, y0, scale, 64, i);
      PixelOfGlyph(s[k - 1], scale, u, v);
      u := left + u;
    }
    TextPixelStep(s, scale, k, u, v, left);
  }

  lemma PixelOfGlyph(c: char, scale: nat, u: nat, v: nat)
    requires scale > 0
    ensures GlyphPixel(c, scale, u, v) <==> CellLit(c, Quot(v, scale), Quot(u, scale))
  {
  }

  lemma {:induction false} TextCovers(s: string, pps: nat, x0: nat, y0: nat, scale: nat, k: nat, u: nat, v: nat)
    requires scale > 0 && k <= |s| && TextPixel(s, scale, k, u, v)
    ensures TextHits(s, pps, x0, y0, scale, k, At(pps, x0 + u, y0 + v))
  {
    if k > 0 {
      hide GlyphHits, TextPixel, GlyphPixel, At;
      var left := Left(scale, k);
      TextPixelStep(s, scale, k, u, v, left);
      if TextPixel(s, scale, k - 1, u, v) {
        TextCovers(s, pps, x0, y0, scale, k - 1, u, v);
      } else {
        PixelOfGlyph(s[k - 1], scale, u - left, v);
        GlyphCovers(s[k - 1], pps, x0 + left, y0, scale, u - left, v);
      }
    }
  }

  /** Painting a text paints the indexes of its lit pixels and no other, wherever they wrap or overrun. */
  lemma TextHitsIff(s: string, pps: nat, x0: nat, y0: nat, scale: nat, k: nat, i: int)
    requires scale > 0 && k <= |s|
    ensures TextHits(s, pps, x0, y0, scale, k, i)
            <==> exists u: nat, v: nat :: TextPixelAt(s, pps, x0, y0, scale, k, u, v, i)
  {
    hide TextHits, TextPixel, At;
    if TextHits(s, pps, x0, y0, scale, k, i) {
      var u, v := TextHitsAt(s, pps, x0, y0, scale, k, i);
    }
    forall u: nat, v: nat | TextPixelAt(s, pps, x0, y0, scale, k, u, v, i)
      ensures TextHits(s, pps, x0, y0, scale, k, i)
    {
      TextCovers(s, pps, x0, y0, scale, k, u, v);
    }
  }

  /** Where character `k` of a text starts. */
  lemma Left(scale: nat, k: nat) returns (left: nat)
    requires k > 0
    ensures left == 9 * scale * (k - 1)
  {
    MulMonotone(0, k - 1, 9 * scale);
    left := 9 * scale * (k - 1);
  }

  ghost predicate FillPixel(pps: nat, w: nat, rows: nat, x: nat, y: nat, i: int) {
    x < w && y < rows && Wrap32(y * pps) + x == i
  }

  lemma {:induction false} FillHitsIff(pps: nat, w: nat, n: nat, i: int)
    ensures FillHits(pps, w, n, i) <==> exists x: nat, y: nat :: FillPixel(pps, w, n, x, y, i)
  {
    if n > 0 {
      FillHitsIff(pps, w, n - 1, i);
      FillStep(pps, w, n, i);
      hide FillHits, Wrap32;
      var start := Wrap32((n - 1) * pps);
      if FillHits(pps, w, n - 1, i) {
        var x: nat, y: nat :| FillPixel(pps, w, n - 1, x, y, i);
        assert FillPixel(pps, w, n, x, y, i);
      } else if start <= i < start + w {
        assert FillPixel(pps, w, n, i - start, n - 1, i);
      }
      if exists x: nat, y: nat :: FillPixel(pps, w, n, x, y, i) {
        var x: nat, y: nat :| FillPixel(pps, w, n, x, y, i);
        assert y < n - 1 ==> FillPixel(pps, w, n - 1, x, y, i);
      }
    }
  }

  /**
   * In every accepted mode, whatever wraps or overruns: title, bar and background paint the indexes of
   * their pixels, computed on 32 bits, and no other.
   */
  lemma PaintedIndexes(w: u32, h: u32, pps: u32, i: int)
    requires h >= 200
    ensures TitleHits(w, h, pps, i)
            <==> exists u: nat, v: nat :: TextPixelAt(TEXT, pps, TextLeft(w), TextTop(w, h), Scale(w), 15, u, v, i)
    ensures BarHits(w, h, pps, i)
            <==> exists u: nat, v: nat :: BoxPixel(pps, TextLeft(w), BarTop(w, h), TextWidth(w), Scale(w), u, v, i)
    ensures FillHits(pps, w, h, i) <==> exists x: nat, y: nat :: FillPixel(pps, w, h, x, y, i)
  {
    hide TextHits, BoxHits, FillHits;
    TextHitsIff(TEXT, pps, TextLeft(w), TextTop(w, h), Scale(w), 15, i);
    BoxHitsIff(pps, TextLeft(w), BarTop(w, h), TextWidth(w), Scale(w), i);
    FillHitsIff(pps, w, h, i);
  }

  // ----- overruns

  /** A lit pixel of the title in a column past the row end. */
  predicate TitleOverrun(w: u32, pps: u32, u: nat, v: nat) {
    TextPixel(TEXT, Scale(w), 15, u, v) && TextLeft(w) + u >= pps
  }

  /**
   * The title runs past the row end, in every mode, exactly if the row is shorter than its lit part:
   * 14 characters of nine cells, and seven columns of the last one.
   */
  lemma TitleOverrunsIff(w: u32, pps: u32)
    ensures (exists u: nat, v: nat :: TitleOverrun(w, pps, u, v)) <==> TextLeft(w) + 133 * Scale(w) > pps
  {
    LastLitColumn(w);
    if TextLeft(w) + 133 * Scale(w) > pps {
      assert TitleOverrun(w, pps, 133 * Scale(w) - 1, Scale(w));
    }
    hide TextPixel;
    forall u: nat, v: nat | TitleOverrun(w, pps, u, v) ensures TextLeft(w) + 133 * Scale(w) > pps {
      LitColumnsBelow(Scale(w), u, v);
    }
  }

  lemma LastLitColumn(w: u32)
    ensures TextPixel(TEXT, Scale(w), 15, 133 * Scale(w) - 1, Scale(w))
  {
    assert TEXT[14] == 'S';
  }

  lemma LitColumnsBelow(scale: nat, u: nat, v: nat)
    requires scale > 0 && TextPixel(TEXT, scale, 15, u, v)
    ensures u < 133 * scale
  {
    var left := 9 * scale * 14;
    TextPixelStep(TEXT, scale, 15, u, v, left);
    CharOf(u, scale, 14, left);
    if Quot(u, 9 * scale) < 14 {
      RowAndColumn(u, 9 * scale);
      MulMonotone(Quot(u, 9 * scale), 13, 9 * scale);
    } else {
      NoLastColumn(Quot(v, scale), Quot(u - left, scale));
      RowAndColumn(u - left, scale);
      MulMonotone(Quot(u - left, scale), 6, scale);
    }
  }

  lemma NoLastColumn(row: nat, col: nat)
    requires CellLit(TEXT[14], row, col)
    ensures col <= 6
  {
    assert TEXT[14] == 'S';
  }

  /** A pixel of the bar in a column past the row end. */
  predicate BarOverrun(w: u32, pps: u32, u: nat) { u < TextWidth(w) && TextLeft(w) + u >= pps }

  /**
   * The bar runs past the row end exactly if the row is shorter than the title's 15 nine-cell slots;
   * below 2^32 pixels that is seen at the start of the row below the bar.
   */
  lemma BarOverrunsIff(w: u32, h: u32, pps: u32)
    requires pps >= w >= 320 && h >= 200
    ensures (exists u: nat :: BarOverrun(w, pps, u)) <==> TextLeft(w) + TextWidth(w) > pps
    ensures pps * h <= U32 ==>
              (BarHits(w, h, pps, (BarTop(w, h) + Scale(w)) * pps) <==> TextLeft(w) + TextWidth(w) > pps)
  {
    if TextLeft(w) + TextWidth(w) > pps {
      assert BarOverrun(w, pps, TextWidth(w) - 1);
    }
    if pps * h <= U32 {
      BarIsSeenBelowIff(w, h, pps);
    }
  }

  lemma BarIsSeenBelowIff(w: u32, h: u32, pps: u32)
    requires pps >= w >= 320 && h >= 200 && pps * h <= U32
    ensures BarHits(w, h, pps, (BarTop(w, h) + Scale(w)) * pps) <==> TextLeft(w) + TextWidth(w) > pps
  {
    hide RectHits, TextHits, FillHits, At;
    var below, tw, scale := BarTop(w, h) + Scale(w), TextWidth(w), Scale(w);
    if TextLeft(w) + tw <= pps {
      ScreenShows(w, h, pps, 0, below);
    } else {
      assert TextLeft(w) == 0 && pps < tw;
      var n := tw * (scale - 1) + pps + 1;
      RectStep(pps, 0, BarTop(w, h), tw, scale - 1, pps, n, below * pps);
      OverrunIndex(pps, below, h);
      RectGrows(pps, 0, BarTop(w, h), tw, n, tw * scale, below * pps);
    }
  }

  lemma OverrunIndex(pps: nat, below: nat, rows: nat)
    requires 0 < below < rows && 0 < pps && pps * rows <= U32
    ensures At(pps, pps, below - 1) == below * pps
  {
    MulMonotone(below + 1, rows, pps);
    assert (below - 1) * pps + pps == below * pps;
    Wrap32Keeps(below * pps);
  }

  /** The smallest accepted mode overruns, and so does the common row of 1,024 pixels. */
  lemma NarrowModesOverrun()
    ensures Accepted(320, 200, 320, 1, 4 * 320 * 200) && Accepted(1024, 768, 1024, 1, 4 * 1024 * 768)
    ensures BarHits(320, 200, 320, (BarTop(320, 200) + Scale(320)) * 320)
    ensures BarHits(1024, 768, 1024, (BarTop(1024, 768) + Scale(1024)) * 1024)
    ensures (exists u: nat, v: nat :: TitleOverrun(320, 320, u, v))
            && (exists u: nat, v: nat :: TitleOverrun(1024, 1024, u, v))
  {
    hide BoxHits, TextPixel;
    BarOverrunsIff(320, 200, 320);
    BarOverrunsIff(1024, 768, 1024);
    TitleOverrunsIff(320, 320);
    TitleOverrunsIff(1024, 1024);
  }
}
