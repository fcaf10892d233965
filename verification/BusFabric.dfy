/** Port labels and the 64-bit handles they resolve to. */
module BusFabric {
  import opened Words
  import opened Fnv

  const BEHCS1024_ALPHABET_SIZE: nat := 1024
  const PREFIX_TREE_MAX_DEPTH: nat := 20
  const RESERVED_HANDLE_ZERO: u64 := 0
  const FOLDED_ZERO: u64 := 0x8000_0000_0000_0000

  datatype BusFabricErr = LabelTooDeep | GlyphOutOfRange

  /** Glyph indices, most significant first. */
  datatype PortLabel = PortLabel(levels: seq<u16>)

  predicate InAlphabet(levels: seq<u16>) { forall i | 0 <= i < |levels| :: levels[i] < BEHCS1024_ALPHABET_SIZE }

  method FromLevels(levels: seq<u16>) returns (r: Result<PortLabel, BusFabricErr>)
    ensures r == Err(LabelTooDeep) <==> |levels| > 20
    ensures r == Err(GlyphOutOfRange) <==> |levels| <= 20 && exists i | 0 <= i < |levels| :: levels[i] >= 1024
    ensures r.Ok? ==> r.value == PortLabel(levels)
  {
    if |levels| > PREFIX_TREE_MAX_DEPTH {
      return Err(LabelTooDeep);
    }
    for i := 0 to |levels|
      invariant InAlphabet(levels[..i])
    {
      if levels[i] >= BEHCS1024_ALPHABET_SIZE {
        return Err(GlyphOutOfRange);
      }
    }
    assert levels[..|levels|] == levels;
    return Ok(PortLabel(levels));
  }

  /** Two big-endian bytes per level. */
  function GlyphBytes(levels: seq<u16>): seq<byte> {
    if levels == [] then [] else BigEndian(levels[0], 2) + GlyphBytes(levels[1..])
  }

  lemma {:induction false} GlyphBytesAppend(a: seq<u16>, b: seq<u16>)
    ensures GlyphBytes(a + b) == GlyphBytes(a) + GlyphBytes(b)
  {
    if a == [] {
      assert a + b == b;
    } else {
      assert (a + b)[1..] == a[1..] + b;
      GlyphBytesAppend(a[1..], b);
    }
  }

  lemma TwoBytes(g: u16)
    ensures BigEndian(g, 2) == [g / 256, g % 256]
  {
    assert BigEndian(g / 256, 1) == BigEndian(g / 256 / 256, 0) + [g / 256 % 256];
  }

  method CanonicalGlyphBytes(port: PortLabel) returns (out: seq<byte>)
    ensures out == GlyphBytes(port.levels)
  {
    out := [];
    for i := 0 to |port.levels|
      invariant out == GlyphBytes(port.levels[..i])
    {
      var g := port.levels[i];
      GlyphBytesAppend(port.levels[..i], [g]);
      assert port.levels[..i + 1] == port.levels[..i] + [g];
      assert GlyphBytes([g]) == BigEndian(g, 2) + GlyphBytes([g][1..]);
      TwoBytes(g);
      out := out + [g / 256];
      out := out + [g % 256];
    }
    assert port.levels[..|port.levels|] == port.levels;
  }

  /** The handle of a label: its hash, with zero moved out of the way unless the label is empty. */
  function Handle(levels: seq<u16>): u64 {
    var h := Fnv1a(GlyphBytes(levels));
    if h == RESERVED_HANDLE_ZERO && levels != [] then FOLDED_ZERO else h
  }

  method ResolveLabel(port: PortLabel) returns (r: Result<u64, BusFabricErr>)
    ensures r == Err(LabelTooDeep) <==> |port.levels| > 20
    ensures r == Err(GlyphOutOfRange) <==>
            |port.levels| <= 20 && exists i | 0 <= i < |port.levels| :: port.levels[i] >= 1024
    ensures r.Ok? ==> r.value == Handle(port.levels)
    ensures r.Ok? && r.value != Fnv1a(GlyphBytes(port.levels)) ==>
              port.levels != [] && r.value == 0x8000_0000_0000_0000 && Fnv1a(GlyphBytes(port.levels)) == 0
  {
    if |port.levels| > PREFIX_TREE_MAX_DEPTH {
      return Err(LabelTooDeep);
    }
    for i := 0 to |port.levels|
      invariant InAlphabet(port.levels[..i])
    {
      if port.levels[i] >= BEHCS1024_ALPHABET_SIZE {
        return Err(GlyphOutOfRange);
      }
    }
    assert port.levels[..|port.levels|] == port.levels;
    var bytes := CanonicalGlyphBytes(port);
    var h := Fnv1aLoop(bytes);
    if h == RESERVED_HANDLE_ZERO && bytes != [] {
      h := FOLDED_ZERO;
    }
    assert port.levels != [] ==> |GlyphBytes(port.levels)| >= 2;
    return Ok(h);
  }

  /** Labels that differ in exactly one level hash differently, even in the low 48 bits. */
  lemma OneLevelApart(levels: seq<u16>, i: nat, g: u16)
    requires i < |levels| && levels[i] != g
    ensures Fnv1a(GlyphBytes(levels)) % U48 != Fnv1a(GlyphBytes(levels[i := g])) % U48
  {
    var a, b := levels[..i], levels[i + 1..];
    LevelInContext(a, levels[i], b);
    LevelInContext(a, g, b);
    assert levels == a + [levels[i]] + b && levels[i := g] == a + [g] + b;
    TwoBytes(levels[i]);
    TwoBytes(g);
    assert BigEndian(g, 2) != BigEndian(levels[i], 2) by {
      assert BigEndian(g, 2)[0] == g / 256 && BigEndian(g, 2)[1] == g % 256;
      assert BigEndian(levels[i], 2)[0] == levels[i] / 256 && BigEndian(levels[i], 2)[1] == levels[i] % 256;
    }
    OnePairApart(GlyphBytes(a), BigEndian(levels[i], 2), BigEndian(g, 2), GlyphBytes(b));
  }

  lemma LevelInContext(a: seq<u16>, g: u16, b: seq<u16>)
    ensures GlyphBytes(a + [g] + b) == GlyphBytes(a) + BigEndian(g, 2) + GlyphBytes(b)
  {
    hide BigEndian;
    GlyphBytesAppend(a, [g]);
    GlyphBytesAppend(a + [g], b);
    assert GlyphBytes([g]) == BigEndian(g, 2) + GlyphBytes([g][1..]);
  }

  /** A non-empty label never gets the reserved handle, and labels that differ in one level never share a handle. */
  lemma NeighboursResolveApart(levels: seq<u16>, i: nat, g: u16)
    requires i < |levels| && levels[i] != g
    ensures Handle(levels) != RESERVED_HANDLE_ZERO
    ensures Handle(levels) != Handle(levels[i := g])
  {
    OneLevelApart(levels, i, g);
    hide Fnv1a, GlyphBytes;
    assert RESERVED_HANDLE_ZERO % U48 == FOLDED_ZERO % U48 == 0;
  }
}
