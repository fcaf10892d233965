/** Early-boot PCI inventory: the hardware tuple, its 60D projection and the device identity. */
module HwInventory {
  import opened Words
  import opened Sha256Spec
  import opened BootSha256

  // ----- the hardware tuple

  datatype DeviceFn = DeviceFn(vendor: u16, device: u16, class_: byte, subclass: byte, progIf: byte)

  function Entry(f: DeviceFn): (bs: seq<byte>)
    ensures |bs| == 6
  {
    [f.vendor / 256, f.vendor % 256, f.device / 256, f.device % 256, f.class_, f.subclass]
  }

  function Entries(fs: seq<DeviceFn>): (bs: seq<byte>)
    ensures |bs| == 6 * |fs|
  {
    if fs == [] then [] else Entries(fs[..|fs| - 1]) + Entry(fs[|fs| - 1])
  }

  predicate IsRstVmd(f: DeviceFn) { f.vendor == 0x8086 && f.device == 0x282A }

  predicate IsAhci(f: DeviceFn) { f.class_ == 0x01 && f.subclass == 0x06 && f.progIf == 0x01 }

  class HwTuple {
    const buf: array<byte>
    var len: nat
    var count: nat
    var rstVmd: bool
    var ahci: bool
    var storage: bool

    /** The tuple describes exactly `fs`, in order, and all of it fits. */
    ghost predicate Describes(fs: seq<DeviceFn>)
      reads this, buf
    {
      && buf.Length == TUPLE_CAP
      && count == |fs|
      && len == 6 * |fs| <= TUPLE_CAP
      && buf[..len] == Entries(fs)
      && (rstVmd <==> exists f | f in fs :: IsRstVmd(f))
      && (ahci <==> exists f | f in fs :: IsAhci(f))
      && (storage <==> exists f | f in fs :: f.class_ == 0x01)
    }

    constructor ()
      ensures Describes([]) && fresh(buf)
    {
      buf := new byte[TUPLE_CAP](i => 0);
      len, count, rstVmd, ahci, storage := 0, 0, false, false, false;
    }

    /** Appends six bytes if they fit; the count and the flags change either way. */
    method Push(f: DeviceFn)
      requires buf.Length == TUPLE_CAP && len <= TUPLE_CAP
      modifies this, buf
      ensures len == (if old(len) + 6 <= TUPLE_CAP then old(len) + 6 else old(len)) <= TUPLE_CAP
      ensures buf[..len] == old(buf[..len]) + (if old(len) + 6 <= TUPLE_CAP then Entry(f) else [])
      ensures count == old(count) + 1
      ensures rstVmd == (old(rstVmd) || (f.vendor == 0x8086 && f.device == 0x282A))
      ensures ahci == (old(ahci) || (f.class_ == 0x01 && f.subclass == 0x06 && f.progIf == 0x01))
      ensures storage == (old(storage) || f.class_ == 0x01)
    {
      var b := Entry(f);
      if len + |b| <= TUPLE_CAP {
        for i := 0 to |b|
          modifies buf
          invariant buf[..len + i] == old(buf[..len]) + b[..i]
        {
          buf[len + i] := b[i];
        }
        len := len + |b|;
      }
      count := count + 1;
      if f.vendor == 0x8086 && f.device == 0x282A {
        rstVmd := true;
      }
      if f.class_ == 0x01 && f.subclass == 0x06 && f.progIf == 0x01 {
        ahci := true;
      }
      if f.class_ == 0x01 {
        storage := true;
      }
    }
  }

  /** The tuple tells vendor, device, class and subclass of every function, high bytes before low ones. */
  lemma {:induction false} TupleReadsBack(fs: seq<DeviceFn>, k: nat)
    requires k < |fs|
    ensures var bs: seq<int> := Entries(fs)[6 * k..6 * k + 6];
            && 256 * bs[0] + bs[1] == fs[k].vendor && 256 * bs[2] + bs[3] == fs[k].device
            && bs[4] == fs[k].class_ && bs[5] == fs[k].subclass
  {
    var n := |fs| - 1;
    if k == n {
      assert Entries(fs)[6 * k..6 * k + 6] == Entry(fs[k]);
    } else {
      TupleReadsBack(fs[..n], k);
      assert Entries(fs)[6 * k..6 * k + 6] == Entries(fs[..n])[6 * k..6 * k + 6];
    }
  }

  lemma EntriesAppend(fs: seq<DeviceFn>, f: DeviceFn)
    ensures Entries(fs + [f]) == Entries(fs) + Entry(f)
  {
    assert (fs + [f])[..|fs|] == fs;
  }

  // ----- the PCI configuration space

  /** What a configuration read of (bus, device, function, offset) answers. */
  type ConfigSpace = (nat, nat, nat, nat) -> u32

  const MAX_FUNCTIONS: nat := 64
  /** Every function address: 256 buses of 32 devices of 8 functions. */
  const ADDRESSES: nat := 65536

  predicate SlotPresent(cfg: ConfigSpace, bus: nat, dev: nat) { cfg(bus, dev, 0, 0) % 65536 != 0xFFFF }

  /** Bit 7 of the header type. */
  predicate MultiFunction(cfg: ConfigSpace, bus: nat, dev: nat) { cfg(bus, dev, 0, 0x0C) / 65536 % 256 >= 128 }

  /** A function is seen if its slot is present, its device has that many functions, and it answers. */
  predicate Seen(cfg: ConfigSpace, bus: nat, dev: nat, func: nat) {
    SlotPresent(cfg, bus, dev) && (func == 0 || MultiFunction(cfg, bus, dev)) && cfg(bus, dev, func, 0) % 65536 != 0xFFFF
  }

  function ReadFn(cfg: ConfigSpace, bus: nat, dev: nat, func: nat): DeviceFn {
    var id, c := cfg(bus, dev, func, 0), cfg(bus, dev, func, 0x08);
    DeviceFn(id % 65536, id / 65536, c / 16777216, c / 65536 % 256, c / 256 % 256)
  }

  // ----- what a machine answers

  /** The header of a function, as the PCI specification lays it out. */
  datatype Header = Header(fn: DeviceFn, revision: byte, headerType: byte)

  /** The functions of a machine, by bus, device and function. */
  type Machine = (nat, nat, nat) -> Option<Header>

  /** An absent function answers with all bits set. */
  function Answer(m: Machine, bus: nat, dev: nat, func: nat, offset: nat): u32 {
    match m(bus, dev, func)
    case None => U32 - 1
    case Some(h) =>
      if offset == 0x00 then h.fn.device * 65536 + h.fn.vendor
      else if offset == 0x08 then
        h.fn.class_ * 16777216 + h.fn.subclass * 65536 + h.fn.progIf * 256 + h.revision
      else if offset == 0x0C then h.headerType * 65536
      else 0
  }

  /**
   * On a machine whose vendors are real ones, a function is seen exactly if it and function 0 of its
   * device are there, and it is function 0 or that one says there are more; and its header is read as is.
   */
  lemma MachineIsSeen(m: Machine, bus: nat, dev: nat, func: nat)
    requires m(bus, dev, func).Some? ==> m(bus, dev, func).value.fn.vendor != 0xFFFF
    requires m(bus, dev, 0).Some? ==> m(bus, dev, 0).value.fn.vendor != 0xFFFF
    ensures var cfg: ConfigSpace := (b, d, f, offset) => Answer(m, b, d, f, offset);
            && (SlotPresent(cfg, bus, dev) <==> m(bus, dev, 0).Some?)
            && (Seen(cfg, bus, dev, func) <==>
                && m(bus, dev, 0).Some? && m(bus, dev, func).Some?
                && (func == 0 || m(bus, dev, 0).value.headerType >= 128))
            && (m(bus, dev, func).Some? ==> ReadFn(cfg, bus, dev, func) == m(bus, dev, func).value.fn)
  {
    AnswerReadsBack(m, bus, dev, func);
    AnswerReadsBack(m, bus, dev, 0);
    hide Answer;
  }

  lemma AnswerReadsBack(m: Machine, bus: nat, dev: nat, func: nat)
    ensures var id, c, t := Answer(m, bus, dev, func, 0), Answer(m, bus, dev, func, 0x08), Answer(m, bus, dev, func, 0x0C);
            match m(bus, dev, func)
            case None => id % 65536 == 0xFFFF
            case Some(h) =>
              && id % 65536 == h.fn.vendor && id / 65536 == h.fn.device
              && c / 16777216 == h.fn.class_ && c / 65536 % 256 == h.fn.subclass && c / 256 % 256 == h.fn.progIf
              && t / 65536 % 256 == h.headerType
  {
    if m(bus, dev, func).Some? {
      var h := m(bus, dev, func).value;
      FourBytes(h.fn.class_, h.fn.subclass, h.fn.progIf, h.revision);
    }
  }

  lemma FourBytes(a: byte, b: byte, c: byte, d: byte)
    ensures var w: int := a * 16777216 + b * 65536 + c * 256 + d;
            w / 16777216 == a && w / 65536 % 256 == b && w / 256 % 256 == c
  {
    var w: int := a * 16777216 + b * 65536 + c * 256 + d;
    assert w / 256 == a * 65536 + b * 256 + c;
    assert w / 65536 == a * 256 + b;
  }

  predicate SeenAt(cfg: ConfigSpace, k: nat) { Seen(cfg, k / 256, k / 8 % 32, k % 8) }

  /** The functions seen at the first `k` addresses, in bus, device, function order. */
  function FoundBelow(cfg: ConfigSpace, k: nat): seq<DeviceFn> {
    if k == 0 then []
    else FoundBelow(cfg, k - 1)
         + (if SeenAt(cfg, k - 1) then [ReadFn(cfg, (k - 1) / 256, (k - 1) / 8 % 32, (k - 1) % 8)] else [])
  }

  function First64(fs: seq<DeviceFn>): seq<DeviceFn> { if |fs| > MAX_FUNCTIONS then fs[..MAX_FUNCTIONS] else fs }

  lemma {:induction false} FoundGrows(cfg: ConfigSpace, k: nat, n: nat)
    requires k <= n
    ensures FoundBelow(cfg, k) <= FoundBelow(cfg, n)
    decreases n
  {
    if k < n {
      FoundGrows(cfg, k, n - 1);
    }
  }

  lemma {:induction false} NothingSeen(cfg: ConfigSpace, k: nat, n: nat)
    requires k <= n && forall j: nat | k <= j < n :: !SeenAt(cfg, j)
    ensures FoundBelow(cfg, n) == FoundBelow(cfg, k)
    decreases n
  {
    if k < n {
      NothingSeen(cfg, k, n - 1);
    }
  }

  lemma Address(bus: nat, dev: nat, func: nat)
    requires dev < 32 && func < 8
    ensures var k := 256 * bus + 8 * dev + func; k / 256 == bus && k / 8 % 32 == dev && k % 8 == func
  {
    var k, m := 256 * bus + 8 * dev + func, 32 * bus + dev;
    assert k == 8 * m + func;
    assert k / 8 == m;
    assert m % 32 == dev && m / 32 == bus;
  }

  /** An absent slot, or the upper functions of a single-function device, add nothing. */
  lemma SlotRestUnseen(cfg: ConfigSpace, bus: nat, dev: nat, from: nat)
    requires dev < 32 && from <= 8
    requires !SlotPresent(cfg, bus, dev) || (from >= 1 && !MultiFunction(cfg, bus, dev))
    ensures FoundBelow(cfg, 256 * bus + 8 * dev + 8) == FoundBelow(cfg, 256 * bus + 8 * dev + from)
  {
    var base := 256 * bus + 8 * dev;
    forall j: nat | base + from <= j < base + 8 ensures !SeenAt(cfg, j) {
      Address(bus, dev, j - base);
    }
    hide FoundBelow;
    NothingSeen(cfg, base + from, base + 8);
  }

  lemma FoundNext(cfg: ConfigSpace, bus: nat, dev: nat, func: nat)
    requires dev < 32 && func < 8
    ensures var k := 256 * bus + 8 * dev + func;
            && (Seen(cfg, bus, dev, func) ==> FoundBelow(cfg, k + 1) == FoundBelow(cfg, k) + [ReadFn(cfg, bus, dev, func)])
            && (!Seen(cfg, bus, dev, func) ==> FoundBelow(cfg, k + 1) == FoundBelow(cfg, k))
  {
    Address(bus, dev, func);
  }

  /** Pushes the functions of one present device; stops after 64 functions in all. */
  method ScanDevice(cfg: ConfigSpace, bus: nat, dev: nat, tuple: HwTuple) returns (full: bool)
    requires bus < 256 && dev < 32 && SlotPresent(cfg, bus, dev) && tuple.count < MAX_FUNCTIONS
    requires tuple.Describes(FoundBelow(cfg, 256 * bus + 8 * dev))
    modifies tuple, tuple.buf
    ensures full ==> tuple.Describes(First64(FoundBelow(cfg, ADDRESSES)))
    ensures !full ==> tuple.count < MAX_FUNCTIONS && tuple.Describes(FoundBelow(cfg, 256 * bus + 8 * dev + 8))
  {
    hide HwTuple.Describes, ReadFn, FoundBelow, First64;
    CountOf(tuple, FoundBelow(cfg, 256 * bus + 8 * dev));
    var headerType := cfg(bus, dev, 0, 0x0C) / 65536 % 256;
    var maxFunc := if headerType >= 128 then 8 else 1;
    for func := 0 to maxFunc
      invariant tuple.count == |FoundBelow(cfg, 256 * bus + 8 * dev + func)| < MAX_FUNCTIONS
      invariant tuple.Describes(FoundBelow(cfg, 256 * bus + 8 * dev + func))
    {
      ghost var k := 256 * bus + 8 * dev + func;
      FoundNext(cfg, bus, dev, func);
      if cfg(bus, dev, func, 0x00) % 65536 == 0xFFFF {
        continue;
      }
      var f := ReadFn(cfg, bus, dev, func);
      PushFound(tuple, f, FoundBelow(cfg, k));
      if tuple.count >= MAX_FUNCTIONS {
        FullIsFirst64(cfg, k + 1);
        return true;
      }
    }
    if maxFunc == 1 {
      SlotRestUnseen(cfg, bus, dev, 1);
    }
    return false;
  }

  /** Scans the 32 slots of one bus. */
  method ScanBus(cfg: ConfigSpace, bus: nat, tuple: HwTuple) returns (full: bool)
    requires bus < 256 && tuple.Describes(FoundBelow(cfg, 256 * bus)) && tuple.count < MAX_FUNCTIONS
    modifies tuple, tuple.buf
    ensures full ==> tuple.Describes(First64(FoundBelow(cfg, ADDRESSES)))
    ensures !full ==> tuple.count < MAX_FUNCTIONS && tuple.Describes(FoundBelow(cfg, 256 * bus + 256))
  {
    hide HwTuple.Describes, FoundBelow, First64;
    for dev := 0 to 32
      invariant tuple.Describes(FoundBelow(cfg, 256 * bus + 8 * dev)) && tuple.count < MAX_FUNCTIONS
    {
      if cfg(bus, dev, 0, 0x00) % 65536 == 0xFFFF {
        SlotRestUnseen(cfg, bus, dev, 0);
        continue;
      }
      full := ScanDevice(cfg, bus, dev, tuple);
      if full {
        return;
      }
    }
    return false;
  }

  /** Enumerates the configuration space; stops after 64 functions. */
  method PciScan(cfg: ConfigSpace) returns (tuple: HwTuple)
    ensures fresh(tuple) && tuple.Describes(First64(FoundBelow(cfg, ADDRESSES)))
  {
    hide HwTuple.Describes, FoundBelow, First64, Entries;
    tuple := new HwTuple();
    CountOf(tuple, []);
    NothingBelowZero(cfg);
    for bus := 0 to 256
      invariant fresh(tuple) && fresh(tuple.buf)
      invariant tuple.Describes(FoundBelow(cfg, 256 * bus)) && tuple.count < MAX_FUNCTIONS
    {
      var full := ScanBus(cfg, bus, tuple);
      if full {
        return;
      }
    }
    CountOf(tuple, FoundBelow(cfg, ADDRESSES));
    FewAreFirst64(cfg);
  }

  lemma NothingBelowZero(cfg: ConfigSpace)
    ensures FoundBelow(cfg, 0) == []
  {
  }

  lemma CountOf(tuple: HwTuple, fs: seq<DeviceFn>)
    requires tuple.Describes(fs)
    ensures tuple.count == |fs|
  {
  }

  lemma FewAreFirst64(cfg: ConfigSpace)
    requires |FoundBelow(cfg, ADDRESSES)| < MAX_FUNCTIONS
    ensures First64(FoundBelow(cfg, ADDRESSES)) == FoundBelow(cfg, ADDRESSES)
  {
    hide FoundBelow;
  }

  lemma FullIsFirst64(cfg: ConfigSpace, k: nat)
    requires k <= ADDRESSES && |FoundBelow(cfg, k)| == MAX_FUNCTIONS
    ensures First64(FoundBelow(cfg, ADDRESSES)) == FoundBelow(cfg, k)
  {
    FoundGrows(cfg, k, ADDRESSES);
  }

  method PushFound(tuple: HwTuple, f: DeviceFn, ghost fs: seq<DeviceFn>)
    requires tuple.Describes(fs) && |fs| < MAX_FUNCTIONS
    modifies tuple, tuple.buf
    ensures tuple.Describes(fs + [f]) && tuple.count == |fs| + 1
  {
    EntriesAppend(fs, f);
    tuple.Push(f);
    assert forall g :: g in fs + [f] <==> g in fs || g == f;
    assert IsRstVmd(f) <==> f.vendor == 0x8086 && f.device == 0x282A;
    assert IsAhci(f) <==> f.class_ == 0x01 && f.subclass == 0x06 && f.progIf == 0x01;
  }

  // ----- the 60D projection

  /** What is hashed for one counter value: tuple and counter, cut at the hash's 512 bytes. */
  function Salted(tuple: seq<byte>, counter: nat): seq<byte> { Clip(Clip(tuple) + BigEndian(counter, 4)) }

  function GlyphOf(hi: byte, lo: byte): nat { (256 * hi + lo) % 1024 }

  /** Glyph `k`: pair `k % 16` of the digest for counter `k / 16`. */
  function Glyph(tuple: seq<byte>, k: nat): (g: nat)
    ensures g < 1024
  {
    var h := Sha256(Salted(tuple, k / 16));
    GlyphOf(h[2 * (k % 16)], h[2 * (k % 16) + 1])
  }

  /** One digest's worth of glyphs, from `16 * counter` on. */
  method FillGlyphs(tuple: seq<byte>, counter: nat, h: array<byte>, sel: array<nat>)
    requires counter < 4 && sel.Length == 60 && h[..] == Sha256(Salted(tuple, counter))
    modifies sel
    ensures forall k | 0 <= k < 16 * counter :: sel[k] == old(sel[k])
    ensures forall k | 16 * counter <= k < Min(16 * counter + 16, 60) :: sel[k] == Glyph(tuple, k)
  {
    hide Sha256, Salted;
    var i, j := 16 * counter, 0;
    while j + 1 < 32 && i < 60
      invariant j <= 32 && i <= 60 && 2 * i == 32 * counter + j
      invariant forall k | 0 <= k < 16 * counter :: sel[k] == old(sel[k])
      invariant forall k | 16 * counter <= k < i :: sel[k] == Glyph(tuple, k)
      decreases 32 - j
    {
      GlyphIsPair(tuple, counter, i, h[..]);
      sel[i] := GlyphOf(h[j], h[j + 1]);
      i := i + 1;
      j := j + 2;
    }
  }

  lemma GlyphIsPair(tuple: seq<byte>, counter: nat, k: nat, digest: seq<byte>)
    requires 16 * counter <= k < 16 * counter + 16 && digest == Sha256(Salted(tuple, counter))
    ensures var j := 2 * k - 32 * counter; Glyph(tuple, k) == GlyphOf(digest[j], digest[j + 1])
  {
    hide Sha256, Salted;
    assert k / 16 == counter && k % 16 == k - 16 * counter;
  }

  method Project60d(tuple: seq<byte>) returns (sel: array<nat>)
    ensures fresh(sel) && sel.Length == 60
    ensures forall k | 0 <= k < 60 :: sel[k] == Glyph(tuple, k) < 1024
  {
    hide Sha256, Glyph;
    sel := new nat[60](i => 0);
    var n := if |tuple| > TUPLE_CAP then TUPLE_CAP else |tuple|;
    var i, counter := 0, 0;
    while i < 60
      invariant i == Min(16 * counter, 60) && counter <= 4
      invariant forall k | 0 <= k < i :: sel[k] == Glyph(tuple, k)
      decreases 60 - i
    {
      var h := Sha256InPlace(tuple[..n] + BigEndian(counter, 4));
      assert tuple[..n] == Clip(tuple);
      FillGlyphs(tuple, counter, h, sel);
      i := if i + 16 < 60 then i + 16 else 60;
      counter := counter + 1;
    }
  }

  /** The counter reaches the hash whole exactly for tuples of at most 508 bytes. */
  lemma SaltUntruncatedIff(tuple: seq<byte>, counter: nat)
    ensures Salted(tuple, counter) == tuple + BigEndian(counter, 4) <==> |tuple| <= TUPLE_CAP - 4
  {
    if |tuple| > TUPLE_CAP - 4 {
      assert |Salted(tuple, counter)| <= TUPLE_CAP < |tuple + BigEndian(counter, 4)|;
    }
  }

  lemma CounterBytes(counter: nat)
    requires counter < 256
    ensures BigEndian(counter, 4) == [0, 0, 0, counter]
  {
    assert BigEndian(0, 3) == [0, 0, 0] by { assert BigEndian(0, 2) == [0, 0]; }
    assert BigEndian(counter, 4) == BigEndian(0, 3) + [counter];
  }

  /** Different counters below 256 are told apart exactly for tuples of at most 508 bytes. */
  lemma CountersDistinguishedIff(tuple: seq<byte>, c: nat, d: nat)
    requires c < 256 && d < 256 && c != d
    ensures Salted(tuple, c) != Salted(tuple, d) <==> |tuple| <= TUPLE_CAP - 4
  {
    CounterBytes(c);
    CounterBytes(d);
    hide BigEndian;
    if |tuple| <= TUPLE_CAP - 4 {
      assert Salted(tuple, c)[|tuple| + 3] == c && Salted(tuple, d)[|tuple| + 3] == d;
    } else {
      var t, zeros: seq<byte> := Clip(tuple), [0, 0, 0];
      assert Salted(tuple, c) == (t + zeros)[..TUPLE_CAP] == Salted(tuple, d);
    }
  }

  /** From 509 bytes on only zero bytes of the counter are hashed, and the coordinate repeats every 16 glyphs. */
  lemma LongTuplesRepeat(tuple: seq<byte>, k: nat)
    requires |tuple| > TUPLE_CAP - 4 && k + 16 < 60
    ensures Glyph(tuple, k + 16) == Glyph(tuple, k)
  {
    CountersDistinguishedIff(tuple, k / 16, (k + 16) / 16);
    hide Sha256, Salted;
    assert (k + 16) % 16 == k % 16;
  }

  /**
   * Whatever the configuration space answers, the scanned tuple is at most 384 bytes long, so every
   * digest of the projection is over the whole tuple and the whole counter.
   */
  lemma ScanIsProjectedWhole(cfg: ConfigSpace, k: nat)
    requires k < 60
    ensures var t := Entries(First64(FoundBelow(cfg, ADDRESSES)));
            && |t| <= 384
            && Salted(t, k / 16) == t + BigEndian(k / 16, 4)
            && Glyph(t, k) < 1024
  {
    SaltUntruncatedIff(Entries(First64(FoundBelow(cfg, ADDRESSES))), k / 16);
  }

  // ----- the device identity

  function GlyphBytes(g: nat): (bs: seq<byte>)
    requires g < 1024
    ensures |bs| == 2
  {
    [g / 256, g % 256]
  }

  function CoordinateBytes(tuple: seq<byte>, n: nat): (bs: seq<byte>)
    ensures |bs| == 2 * n
  {
    if n == 0 then [] else CoordinateBytes(tuple, n - 1) + GlyphBytes(Glyph(tuple, n - 1))
  }

  /** Glyph `k` is the low ten bits of pair `k % 16`, high byte first, of the digest salted with `k / 16`. */
  lemma GlyphOfDigest(tuple: seq<byte>, k: nat)
    ensures var h: seq<int> := Sha256(Salted(tuple, k / 16));
            Glyph(tuple, k) == (256 * h[2 * (k % 16)] + h[2 * (k % 16) + 1]) % 1024
  {
    hide Sha256, Salted;
  }

  /** The hashed bytes tell every glyph of the coordinate. */
  lemma {:induction false} BytesOfCoordinate(tuple: seq<byte>, n: nat, k: nat)
    requires k < n
    ensures var bs: seq<int> := CoordinateBytes(tuple, n); 256 * bs[2 * k] + bs[2 * k + 1] == Glyph(tuple, k)
  {
    hide Glyph;
    if k < n - 1 {
      BytesOfCoordinate(tuple, n - 1, k);
    }
  }

  /** The device PID is the hash of the coordinate, not of the raw tuple. */
  method MintDeviceDigest(tuple: HwTuple, ghost fs: seq<DeviceFn>) returns (digest: array<byte>)
    requires tuple.Describes(fs)
    ensures digest[..] == Sha256(CoordinateBytes(Entries(fs), 60))
  {
    hide Sha256, Glyph;
    var raw := tuple.buf[..tuple.len];
    var coord := Project60d(raw);
    var bytes := new byte[120](i => 0);
    for k := 0 to 60
      modifies bytes
      invariant bytes[..2 * k] == CoordinateBytes(raw, k)
    {
      var g := coord[k];
      bytes[2 * k] := g / 256;
      bytes[2 * k + 1] := g % 256;
      assert bytes[..2 * k + 2] == bytes[..2 * k] + GlyphBytes(g);
    }
    assert bytes[..120] == bytes[..];
    digest := Sha256InPlace(bytes[..]);
  }
}
