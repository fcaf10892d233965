/** What the two bump allocators compute from the watermark they last read. */
module BumpPlans {
  import opened Words

  const PAGE_BYTES: nat := 4096
  const POOL_BYTES: nat := 16384 * PAGE_BYTES
  const VIRTUAL_BASE_START: nat := 0x1000
  const VIRTUAL_BASE_END: nat := VIRTUAL_BASE_START + POOL_BYTES

  // ----- page rounding

  /** `(len + 4095) / 4096 * 4096` on 64 bits; the sum wraps for lengths near the top. */
  function PageBytes(len: u64): nat { Wrap64(len + PAGE_BYTES - 1) / PAGE_BYTES * PAGE_BYTES }

  predicate LeastMultiple(m: int, x: nat, a: nat)
    requires a > 0
  {
    m % a == 0 && x <= m < x + a
  }

  lemma LeastMultipleIsLeast(m: int, x: nat, a: nat, other: int)
    requires a > 0 && LeastMultiple(m, x, a) && other % a == 0 && other >= x
    ensures m <= other
  {
    var d := m / a - other / a;
    assert m == a * (m / a) && other == a * (other / a);
    assert m - other == a * d;
    NoMultipleBetween(a, d);
  }

  /**
   * The request is rounded up to the least whole number of pages exactly if the sum does not wrap;
   * the 4,095 longest lengths are rounded to nothing.
   */
  lemma PageRounding(len: u64)
    requires len > 0
    ensures LeastMultiple(PageBytes(len), len, PAGE_BYTES) <==> len <= U64 - PAGE_BYTES
    ensures PageBytes(len) >= len <==> len <= U64 - PAGE_BYTES
    ensures len > U64 - PAGE_BYTES ==> PageBytes(len) == 0
    ensures PageBytes(len) % PAGE_BYTES == 0
  {
    var n := Wrap64(len + PAGE_BYTES - 1);
    Multiple(n / PAGE_BYTES, PAGE_BYTES);
    if len <= U64 - PAGE_BYTES {
      WrapKeepsSmall(len + PAGE_BYTES - 1);
    } else {
      assert n == len + PAGE_BYTES - 1 - U64;
      assert n < PAGE_BYTES;
    }
  }

  lemma Multiple(q: nat, a: nat)
    requires a > 0
    ensures q * a % a == 0
  {
    if q > 0 {
      Multiple(q - 1, a);
      assert q * a == (q - 1) * a + a;
      AddModulus((q - 1) * a, a);
    }
  }

  lemma AddModulus(x: nat, a: nat)
    requires a > 0 && x % a == 0
    ensures (x + a) % a == 0
  {
    var q := x / a;
    assert x + a == a * (q + 1);
    QuotientIs(x + a, a, q + 1, 0);
  }

  // ----- mask rounding

  function Not64(x: u64): u64 { U64 - 1 - x }

  lemma Pow2Of64()
    ensures Pow2(64) == U64
  {
    Pow2Of32();
    Pow2Add(32, 32);
  }

  function And64(a: u64, b: u64): u64 {
    Pow2Of64();
    And(a, b, 64)
  }

  /** `(current + align - 1) & !(align - 1)` on 64 bits. */
  function MaskUp(current: u64, align: u64): u64
    requires align > 0
  {
    And64(Wrap64(current + align - 1), Not64(align - 1))
  }

  lemma {:induction false} AndAllOnes(x: nat, n: nat)
    requires x < Pow2(n)
    ensures And(x, Pow2(n) - 1, n) == x
  {
    if n > 0 {
      AndAllOnes(x / 2, n - 1);
      OddHalf(Pow2(n - 1), x);
    }
  }

  lemma OddHalf(p: nat, x: nat)
    requires p > 0
    ensures (2 * p - 1) / 2 == p - 1 && (2 * p - 1) % 2 == 1
    ensures x == x % 2 + 2 * (x / 2)
  {
  }

  /** Clearing the low `k` bits takes the remainder away. */
  lemma {:induction false} AndHighMask(x: nat, k: nat, n: nat)
    requires k <= n && x < Pow2(n)
    ensures Pow2(k) <= Pow2(n) && And(x, Pow2(n) - Pow2(k), n) == x - x % Pow2(k)
  {
    if k == 0 {
      AndAllOnes(x, n);
    } else {
      AndHighMask(x / 2, k - 1, n - 1);
      MaskHalves(Pow2(n - 1), Pow2(k - 1));
      ModuloDouble(x, Pow2(k - 1));
    }
  }

  lemma MaskHalves(m: nat, p: nat)
    requires p <= m
    ensures (2 * m - 2 * p) % 2 == 0 && (2 * m - 2 * p) / 2 == m - p
  {
  }

  lemma ModuloDouble(x: nat, p: nat)
    requires p > 0
    ensures x % (2 * p) == 2 * (x / 2 % p) + x % 2
  {
    var q, r := x / 2 / p, x / 2 % p;
    assert x / 2 == p * q + r;
    assert x == 2 * p * q + (2 * r + x % 2) by { assert 2 * (p * q) == 2 * p * q; }
    QuotientIs(x, 2 * p, q, 2 * r + x % 2);
  }

  /** For a power of two, the mask gives the least multiple of `align` at or above `current`. */
  lemma MaskIsLeastMultiple(current: u64, align: u64, k: nat)
    requires k < 64 && align == Pow2(k) && current + align - 1 < U64
    ensures LeastMultiple(MaskUp(current, align), current, align)
  {
    hide Pow2, And;
    Pow2Of64();
    var x := current + align - 1;
    WrapKeepsSmall(x);
    AndHighMask(x, k, 64);
    var q, r := x / align, x % align;
    assert x == align * q + r;
    assert MaskUp(current, align) == x - r == align * q;
    QuotientIs(align * q, align, q, 0);
  }

  // ----- one attempt

  datatype Allocator = Frames | Heap(start: u64, end: u64)

  datatype Request = Request(size: u64, align: u64)

  datatype Plan = Plan(start: u64, next: u64)

  function Base(a: Allocator): nat { if a.Frames? then VIRTUAL_BASE_START else a.start }

  function Limit(a: Allocator): nat { if a.Frames? then VIRTUAL_BASE_END else a.end }

  /** What an attempt would return and store after reading `current`, or `None` if it gives up. */
  function Attempt(a: Allocator, current: u64, req: Request): Option<Plan>
    requires req.align > 0
  {
    match a
    case Frames =>
      var newNext := SaturatingAdd(current, PageBytes(req.size));
      if newNext > VIRTUAL_BASE_END then None else Some(Plan(current, newNext))
    case Heap(_, end) =>
      var aligned := MaskUp(current, req.align);
      var newNext := Wrap64(aligned + req.size);
      if newNext > end then None else Some(Plan(aligned, newNext))
  }

  /** Every `Layout`: a power-of-two alignment, and a size that rounded up to it is at most 2^63 - 1. */
  ghost predicate LayoutOk(req: Request) {
    (exists k: nat | k < 64 :: req.align == Pow2(k)) && req.size + req.align <= U64 / 2
  }

  /** The heap lies in the lower half of the address space, so that the rounding sums do not wrap. */
  predicate HeapOk(a: Allocator) { a.Heap? ==> a.start <= a.end <= U64 / 2 }

  ghost predicate RequestOk(a: Allocator, req: Request) {
    req.align > 0 && (a.Heap? ==> LayoutOk(req)) && (a.Frames? ==> req.size > 0)
  }

  /** The alignment an allocator promises. */
  function Alignment(a: Allocator, req: Request): nat
    requires req.align > 0
  {
    if a.Frames? then PAGE_BYTES else req.align
  }

  /** The size an allocator grants. */
  function Granted(a: Allocator, req: Request): nat { if a.Frames? then PageBytes(req.size) else req.size }

  predicate WatermarkOk(a: Allocator, current: u64) {
    Base(a) <= current <= Limit(a) && (a.Frames? ==> current % PAGE_BYTES == 0)
  }

  /** A successful attempt takes an aligned region at the watermark, inside the pool. */
  lemma AttemptTakesRegion(a: Allocator, current: u64, req: Request)
    requires HeapOk(a) && RequestOk(a, req) && WatermarkOk(a, current) && Attempt(a, current, req).Some?
    ensures var p := Attempt(a, current, req).value;
            && LeastMultiple(p.start, current, Alignment(a, req))
            && p.next == p.start + Granted(a, req)
            && WatermarkOk(a, p.next)
  {
    hide MaskUp, PageBytes;
    var p := Attempt(a, current, req).value;
    if a.Frames? {
      PageRounding(req.size);
      var b := PageBytes(req.size);
      assert p.start == current && p.next == current + b;
      var q, d := current / PAGE_BYTES, b / PAGE_BYTES;
      QuotientIs(current + b, PAGE_BYTES, q + d, 0);
    } else {
      var k: nat :| k < 64 && req.align == Pow2(k);
      MaskIsLeastMultiple(current, req.align, k);
      WrapKeepsSmall(p.start + req.size);
    }
  }

  /** An attempt gives up exactly if no aligned region of the granted size is left. */
  lemma AttemptFailsIff(a: Allocator, current: u64, req: Request, m: int)
    requires HeapOk(a) && RequestOk(a, req) && WatermarkOk(a, current)
    requires LeastMultiple(m, current, Alignment(a, req))
    ensures Attempt(a, current, req) == None <==> m + Granted(a, req) > Limit(a)
  {
    hide MaskUp, PageBytes;
    if a.Frames? {
      QuotientIs(current, PAGE_BYTES, current / PAGE_BYTES, 0);
      LeastMultipleIsLeast(m, current, PAGE_BYTES, current);
    } else {
      var k: nat :| k < 64 && req.align == Pow2(k);
      MaskIsLeastMultiple(current, req.align, k);
      var up := MaskUp(current, req.align);
      LeastMultipleIsLeast(up, current, req.align, m);
      LeastMultipleIsLeast(m, current, req.align, up);
      WrapKeepsSmall(up + req.size);
    }
  }
}

/** Both allocators under any number of threads: one load or compare-and-exchange per step. */
module BumpSteps {
  import opened Words
  import opened BumpPlans

  datatype Pc = Idle | Load(req: Request) | Exchange(req: Request, current: u64)

  datatype Region = Region(start: nat, size: nat, req: Request)

  /** `regions` records what successful calls returned, in the order of their exchanges. */
  datatype Sys = Sys(alloc: Allocator, next: u64, pcs: seq<Pc>, regions: seq<Region>)

  /** `spurious` makes a weak exchange fail although the watermark is unchanged. */
  datatype Action = Call(t: nat, req: Request) | Step(t: nat, spurious: bool)

  function Start(a: Allocator, threads: nat): Sys
    requires HeapOk(a)
  {
    Sys(a, Base(a), seq(threads, i => Idle), [])
  }

  /** The frame allocator uses the strong exchange, which does not fail spuriously. */
  ghost predicate Enabled(s: Sys, a: Action) {
    && a.t < |s.pcs|
    && (a.Step? <==> s.pcs[a.t] != Idle)
    && (a.Step? ==> s.pcs[a.t].req.align > 0 && (a.spurious ==> s.alloc.Heap?))
    && (a.Call? ==> a.req.align > 0 && (s.alloc.Heap? ==> LayoutOk(a.req)))
  }

  /** With a fresh reading of the watermark, a call gives up or goes on to the exchange. */
  function AfterReading(a: Allocator, current: u64, req: Request): Pc
    requires req.align > 0
  {
    if Attempt(a, current, req) == None then Idle else Exchange(req, current)
  }

  predicate Succeeds(s: Sys, a: Action)
    requires a.t < |s.pcs|
  {
    a.Step? && s.pcs[a.t].Exchange? && s.next == s.pcs[a.t].current && !a.spurious
    && s.pcs[a.t].req.align > 0 && Attempt(s.alloc, s.next, s.pcs[a.t].req).Some?
  }

  ghost function Apply(s: Sys, a: Action): Sys
    requires Enabled(s, a)
  {
    match a
    case Call(t, req) =>
      if s.alloc.Frames? && req.size == 0 then s else s.(pcs := s.pcs[t := Load(req)])
    case Step(t, _) =>
      var req := s.pcs[t].req;
      if Succeeds(s, a) then
        var p := Attempt(s.alloc, s.next, req).value;
        Sys(s.alloc, p.next, s.pcs[t := Idle], s.regions + [Region(p.start, Granted(s.alloc, req), req)])
      else s.(pcs := s.pcs[t := AfterReading(s.alloc, s.next, req)])
  }

  ghost predicate RegionOk(a: Allocator, r: Region) {
    && RequestOk(a, r.req)
    && r.size == Granted(a, r.req)
    && r.start % Alignment(a, r.req) == 0
    && Base(a) <= r.start && r.start + r.size <= Limit(a)
  }

  ghost predicate PcOk(s: Sys, pc: Pc) {
    match pc
    case Idle => true
    case Load(req) => RequestOk(s.alloc, req)
    case Exchange(req, current) =>
      && RequestOk(s.alloc, req)
      && WatermarkOk(s.alloc, current) && current <= s.next
      && Attempt(s.alloc, current, req).Some?
  }

  ghost predicate Ordered(regions: seq<Region>) {
    forall i, j | 0 <= i < j < |regions| :: regions[i].start + regions[i].size <= regions[j].start
  }

  function TotalSize(regions: seq<Region>): nat {
    if regions == [] then 0 else TotalSize(regions[..|regions| - 1]) + regions[|regions| - 1].size
  }

  /** Where the first `i` frame regions end. */
  function EndOf(regions: seq<Region>, i: nat): nat
    requires i <= |regions|
  {
    if i == 0 then VIRTUAL_BASE_START else regions[i - 1].start + regions[i - 1].size
  }

  ghost predicate Abuts(regions: seq<Region>, i: nat) { i < |regions| && regions[i].start == EndOf(regions, i) }

  /** Frame regions follow one another without a gap, up to the watermark. */
  ghost predicate Packed(regions: seq<Region>, next: nat) {
    (forall i: nat | i < |regions| :: Abuts(regions, i)) && EndOf(regions, |regions|) == next
  }

  lemma PackedExtends(regions: seq<Region>, next: nat, r: Region)
    requires Packed(regions, next) && r.start == next
    ensures Packed(regions + [r], next + r.size)
  {
    forall i: nat | i < |regions + [r]| ensures Abuts(regions + [r], i) {
      assert i < |regions| ==> Abuts(regions, i);
    }
  }

  ghost predicate Inv(s: Sys) {
    && HeapOk(s.alloc)
    && WatermarkOk(s.alloc, s.next)
    && (forall i | 0 <= i < |s.regions| ::
          RegionOk(s.alloc, s.regions[i]) && s.regions[i].start + s.regions[i].size <= s.next)
    && Ordered(s.regions)
    && (s.alloc.Frames? ==> TotalSize(s.regions) == s.next - VIRTUAL_BASE_START && Packed(s.regions, s.next))
    && (forall t | 0 <= t < |s.pcs| :: PcOk(s, s.pcs[t]))
  }

  /** One atomic step of any thread keeps the invariant, and the watermark never moves back. */
  lemma StepKeepsInv(s: Sys, a: Action)
    requires Inv(s) && Enabled(s, a)
    ensures Inv(Apply(s, a)) && Apply(s, a).next >= s.next
    ensures Apply(s, a).alloc == s.alloc && |Apply(s, a).pcs| == |s.pcs|
  {
    hide Attempt, RequestOk, WatermarkOk, Granted, Alignment, HeapOk, Packed;
    var s', pc := Apply(s, a), s.pcs[a.t];
    assert PcOk(s, pc);
    if Succeeds(s, a) {
      AttemptTakesRegion(s.alloc, s.next, pc.req);
      var p := Attempt(s.alloc, s.next, pc.req).value;
      var r := Region(p.start, Granted(s.alloc, pc.req), pc.req);
      assert s'.regions == s.regions + [r] && s'.regions[..|s.regions|] == s.regions;
      assert RegionOk(s.alloc, r) by { BoundsOf(s.alloc, s.next, p); }
      FramesTakeAll(s.alloc, s.next, pc.req);
      if s.alloc.Frames? {
        PackedExtends(s.regions, s.next, r);
      }
    } else if a.Call? {
      CallIsOk(s, a);
    }
    forall t | 0 <= t < |s'.pcs| ensures PcOk(s', s'.pcs[t]) {
      assert PcOk(s, s.pcs[t]);
    }
  }

  lemma BoundsOf(a: Allocator, current: u64, p: Plan)
    requires WatermarkOk(a, current) && WatermarkOk(a, p.next) && current <= p.start
    ensures Base(a) <= p.start && p.next <= Limit(a)
  {
  }

  lemma FramesTakeAll(a: Allocator, current: u64, req: Request)
    requires req.align > 0 && Attempt(a, current, req).Some?
    ensures a.Frames? ==> Attempt(a, current, req).value.start == current
  {
  }

  lemma CallIsOk(s: Sys, a: Action)
    requires Enabled(s, a) && a.Call?
    ensures (s.alloc.Frames? && a.req.size == 0) || RequestOk(s.alloc, a.req)
  {
  }

  // ----- whole runs

  ghost predicate Runs(s: Sys, acts: seq<Action>)
    decreases acts
  {
    acts == [] || (Enabled(s, acts[0]) && Runs(Apply(s, acts[0]), acts[1..]))
  }

  ghost function Exec(s: Sys, acts: seq<Action>): Sys
    requires Runs(s, acts)
    decreases acts
  {
    if acts == [] then s else Exec(Apply(s, acts[0]), acts[1..])
  }

  lemma {:induction false} RunKeepsInv(s: Sys, acts: seq<Action>)
    requires Inv(s) && Runs(s, acts)
    ensures Inv(Exec(s, acts)) && Exec(s, acts).alloc == s.alloc && Exec(s, acts).next >= s.next
    decreases acts
  {
    hide Inv, Apply, Enabled;
    if acts != [] {
      StepKeepsInv(s, acts[0]);
      RunKeepsInv(Apply(s, acts[0]), acts[1..]);
    }
  }

  lemma StartIsInv(a: Allocator, threads: nat)
    requires HeapOk(a)
    ensures Inv(Start(a, threads))
  {
  }

  /**
   * Both allocators, any number of threads, any interleaving, any spurious failures: every region
   * handed out is aligned and inside the pool, and a later one lies entirely above an earlier one.
   */
  lemma RegionsAreDisjoint(a: Allocator, threads: nat, acts: seq<Action>, i: nat, j: nat)
    requires HeapOk(a) && Runs(Start(a, threads), acts)
    requires i < j < |Exec(Start(a, threads), acts).regions|
    ensures var rs := Exec(Start(a, threads), acts).regions;
            && RegionOk(a, rs[i]) && RegionOk(a, rs[j])
            && rs[i].start + rs[i].size <= rs[j].start
  {
    StartIsInv(a, threads);
    RunKeepsInv(Start(a, threads), acts);
  }

  /** The frame pool is split without loss into what was handed out and what is free. */
  lemma PagesAreConserved(threads: nat, acts: seq<Action>)
    requires Runs(Start(Frames, threads), acts)
    ensures var s := Exec(Start(Frames, threads), acts);
            && TotalSize(s.regions) == s.next - VIRTUAL_BASE_START <= POOL_BYTES
            && TotalSize(s.regions) + (VIRTUAL_BASE_END - s.next) == POOL_BYTES
  {
    StartIsInv(Frames, threads);
    RunKeepsInv(Start(Frames, threads), acts);
  }

  /**
   * A region is as long as the caller asked for, except that the frame allocator hands out nothing
   * for the 4,095 lengths whose rounding wraps.
   */
  lemma GrantCoversRequest(a: Allocator, threads: nat, acts: seq<Action>, i: nat)
    requires HeapOk(a) && Runs(Start(a, threads), acts)
    requires i < |Exec(Start(a, threads), acts).regions|
    ensures var r := Exec(Start(a, threads), acts).regions[i];
            && (r.size >= r.req.size <==> a.Heap? || r.req.size <= U64 - PAGE_BYTES)
            && (r.size < r.req.size ==> r.size == 0)
  {
    StartIsInv(a, threads);
    RunKeepsInv(Start(a, threads), acts);
    var r := Exec(Start(a, threads), acts).regions[i];
    if a.Frames? {
      PageRounding(r.req.size);
    }
  }

  /** Two frame regions share an address exactly if every length from the first up to the second wraps. */
  lemma {:induction false} PackedShareIff(regions: seq<Region>, next: nat, i: nat, j: nat)
    requires Packed(regions, next) && i < j < |regions|
    requires forall k | 0 <= k < |regions| :: RegionOk(Frames, regions[k])
    ensures regions[i].start <= regions[j].start
    ensures regions[i].start == regions[j].start
            <==> forall k | i <= k < j :: regions[k].req.size > U64 - PAGE_BYTES
  {
    hide PageBytes;
    assert Abuts(regions, j) && RegionOk(Frames, regions[j - 1]);
    PageRounding(regions[j - 1].req.size);
    if i < j - 1 {
      PackedShareIff(regions, next, i, j - 1);
    }
  }

  lemma RegionsShareAnAddressIff(threads: nat, acts: seq<Action>, i: nat, j: nat)
    requires Runs(Start(Frames, threads), acts)
    requires i < j < |Exec(Start(Frames, threads), acts).regions|
    ensures var rs := Exec(Start(Frames, threads), acts).regions;
            rs[i].start == rs[j].start <==> forall k | i <= k < j :: rs[k].req.size > U64 - PAGE_BYTES
  {
    StartIsInv(Frames, threads);
    RunKeepsInv(Start(Frames, threads), acts);
    hide RegionOk, Packed;
    var s := Exec(Start(Frames, threads), acts);
    PackedShareIff(s.regions, s.next, i, j);
  }

  /** A length of 2^64 - 1 is granted twice at the same address. */
  lemma WrappedLengthsShareAnAddress()
    ensures exists acts ::
              && Runs(Start(Frames, 1), acts)
              && var rs := Exec(Start(Frames, 1), acts).regions;
                 |rs| == 2 && rs[0].req.size == U64 - 1 && rs[0] == rs[1]
  {
    var req := Request(U64 - 1, 1);
    PageRounding(req.size);
    var s0 := Start(Frames, 1);
    var s1 := AfterCall(s0, req);
    var s2 := AfterCall(s1, req);
    var once := [Call(0, req), Step(0, false), Step(0, false)];
    CallAlone(s0, 0, req);
    CallAlone(s1, 0, req);
    assert s0.pcs[0 := Idle] == s0.pcs && s1.pcs[0 := Idle] == s1.pcs;
    RunsConcat(s0, once, once);
    assert Exec(s0, once + once).regions == [s1.regions[0], s1.regions[0]];
  }

  lemma {:induction false} RunsConcat(s: Sys, a: seq<Action>, b: seq<Action>)
    requires Runs(s, a) && Runs(Exec(s, a), b)
    ensures Runs(s, a + b) && Exec(s, a + b) == Exec(Exec(s, a), b)
    decreases a
  {
    if a == [] {
      assert a + b == b;
    } else {
      RunsConcat(Apply(s, a[0]), a[1..], b);
      assert (a + b)[0] == a[0] && (a + b)[1..] == a[1..] + b;
    }
  }

  /** An exchange fails for no other reason than a spurious failure or another thread's success. */
  lemma FailureIsAnothersProgress(s: Sys, a: Action)
    requires Inv(s) && Enabled(s, a) && a.Step? && s.pcs[a.t].Exchange? && !a.spurious
    ensures Succeeds(s, a) <==> s.next == s.pcs[a.t].current
    ensures !Succeeds(s, a) ==> s.next > s.pcs[a.t].current
    ensures !Succeeds(s, a) && Attempt(s.alloc, s.next, s.pcs[a.t].req).Some?
            ==> Apply(s, a).pcs[a.t] == Exchange(s.pcs[a.t].req, s.next)
  {
    hide Attempt;
    assert PcOk(s, s.pcs[a.t]);
  }

  // ----- what a call is answered

  /** A call starts at once, except that a frame request of no length is refused. */
  lemma CallStarts(s: Sys, a: Action)
    requires Enabled(s, a) && a.Call?
    ensures Apply(s, a) == if s.alloc.Frames? && a.req.size == 0 then s else s.(pcs := s.pcs[a.t := Load(a.req)])
  {
  }

  /**
   * Every operation of a pending call has one of three outcomes, `m` being the least aligned address
   * at or above the watermark: an exchange that meets the watermark it expects takes the region at `m`;
   * otherwise the call ends with nothing exactly if no such region is left, and goes on if one is.
   */
  lemma OperationOutcomes(s: Sys, a: Action, m: int)
    requires Inv(s) && Enabled(s, a) && a.Step? && LeastMultiple(m, s.next, Alignment(s.alloc, s.pcs[a.t].req))
    ensures var s', pc := Apply(s, a), s.pcs[a.t];
            var size := Granted(s.alloc, pc.req);
            if pc.Exchange? && pc.current == s.next && !a.spurious then
              && m >= 0
              && s' == Sys(s.alloc, m + size, s.pcs[a.t := Idle], s.regions + [Region(m, size, pc.req)])
            else s' == s.(pcs := s.pcs[a.t := if m + size > Limit(s.alloc) then Idle else Exchange(pc.req, s.next)])
  {
    hide Attempt, WatermarkOk, RequestOk, Granted;
    var req := s.pcs[a.t].req;
    assert PcOk(s, s.pcs[a.t]);
    AttemptFailsIff(s.alloc, s.next, req, m);
    if Attempt(s.alloc, s.next, req).Some? {
      AttemptTakesRegion(s.alloc, s.next, req);
      SameLeastMultiple(m, Attempt(s.alloc, s.next, req).value.start, s.next, Alignment(s.alloc, req));
    }
  }

  lemma SameLeastMultiple(m: int, n: int, x: nat, a: nat)
    requires a > 0 && LeastMultiple(m, x, a) && LeastMultiple(n, x, a)
    ensures m == n
  {
    LeastMultipleIsLeast(m, x, a, n);
    LeastMultipleIsLeast(n, x, a, m);
  }

  /** The state after one undisturbed call that finds room. */
  ghost function AfterCall(s: Sys, req: Request): Sys {
    if req.align > 0 && Attempt(s.alloc, s.next, req).Some? then
      var p := Attempt(s.alloc, s.next, req).value;
      s.(next := p.next, regions := s.regions + [Region(p.start, Granted(s.alloc, req), req)])
    else s
  }

  lemma CallAlone(s: Sys, t: nat, req: Request)
    requires Enabled(s, Call(t, req)) && !(s.alloc.Frames? && req.size == 0) && Attempt(s.alloc, s.next, req).Some?
    ensures var acts := [Call(t, req), Step(t, false), Step(t, false)];
            Runs(s, acts) && Exec(s, acts) == AfterCall(s, req).(pcs := s.pcs[t := Idle])
  {
    hide Attempt, Granted, LayoutOk;
    var acts := [Call(t, req), Step(t, false), Step(t, false)];
    var s1 := Apply(s, acts[0]);
    assert s1 == s.(pcs := s.pcs[t := Load(req)]);
    var s2 := Apply(s1, acts[1]);
    assert s2 == s.(pcs := s.pcs[t := Exchange(req, s.next)]);
    var s3 := Apply(s2, acts[2]);
    assert s2.pcs[t := Idle] == s.pcs[t := Idle];
    assert s3 == AfterCall(s, req).(pcs := s.pcs[t := Idle]);
    assert acts[1..] == [acts[1], acts[2]] && acts[1..][1..] == [acts[2]] && acts[1..][1..][1..] == [];
    assert Runs(s3, []) && Exec(s3, []) == s3;
    assert Runs(s2, acts[1..][1..]) && Exec(s2, acts[1..][1..]) == s3;
    assert Runs(s1, acts[1..]) && Exec(s1, acts[1..]) == s3;
  }

  /**
   * An undisturbed call of either allocator takes the region at the least aligned address if it fits
   * into the pool, and otherwise leaves everything as it was.
   */
  lemma AllocateAlone(s: Sys, t: nat, req: Request, m: int) returns (acts: seq<Action>, s': Sys)
    requires Inv(s) && Enabled(s, Call(t, req)) && (s.alloc.Frames? ==> req.size > 0)
    requires LeastMultiple(m, s.next, Alignment(s.alloc, req))
    ensures Runs(s, acts) && Exec(s, acts) == s' && forall a | a in acts :: a.t == t
    ensures var size := Granted(s.alloc, req);
            if m + size > Limit(s.alloc) then s' == s
            else m >= 0 && s' == Sys(s.alloc, m + size, s.pcs, s.regions + [Region(m, size, req)])
  {
    hide Attempt, WatermarkOk, Granted, LayoutOk;
    assert RequestOk(s.alloc, req);
    AttemptFailsIff(s.alloc, s.next, req, m);
    assert s.pcs[t := Idle] == s.pcs;
    if Attempt(s.alloc, s.next, req).Some? {
      AttemptTakesRegion(s.alloc, s.next, req);
      SameLeastMultiple(m, Attempt(s.alloc, s.next, req).value.start, s.next, Alignment(s.alloc, req));
      CallAlone(s, t, req);
      acts, s' := [Call(t, req), Step(t, false), Step(t, false)], AfterCall(s, req);
    } else {
      acts, s' := [Call(t, req), Step(t, false)], s;
      var s1 := Apply(s, acts[0]);
      assert s1 == s.(pcs := s.pcs[t := Load(req)]);
      assert s1.pcs[t := Idle] == s.pcs;
      assert acts[1..] == [acts[1]] && acts[1..][1..] == [];
      assert Runs(s, []) && Exec(s, []) == s;
      assert Runs(s1, acts[1..]) && Exec(s1, acts[1..]) == s;
    }
  }

  // ----- every call ends

  /** The least distance by which another thread's success can move the watermark. */
  function Unit(a: Allocator): nat { if a.Frames? then PAGE_BYTES else 1 }

  /** Bounds the operations, spurious failures aside, that a call at `pc` still performs. */
  function Remaining(a: Allocator, pc: Pc): int {
    match pc
    case Idle => 0
    case Load(_) => (Limit(a) - Base(a)) / Unit(a) + 2
    case Exchange(_, current) => (Limit(a) - current) / Unit(a) + 1
  }

  /** The operations of thread `t` in a run, not counting exchanges that fail spuriously. */
  function Operations(acts: seq<Action>, t: nat): nat {
    if acts == [] then 0 else (if acts[0] == Step(t, false) then 1 else 0) + Operations(acts[1..], t)
  }

  /** A watermark that has moved since it was read has moved by at least one unit. */
  lemma MovedByUnit(a: Allocator, current: u64, next: u64)
    requires WatermarkOk(a, current) && WatermarkOk(a, next) && current <= next
    ensures (Limit(a) - next) / Unit(a) <= (Limit(a) - current) / Unit(a)
    ensures current < next ==> (Limit(a) - next) / Unit(a) < (Limit(a) - current) / Unit(a)
    ensures 0 <= (Limit(a) - next) / Unit(a) <= (Limit(a) - Base(a)) / Unit(a)
  {
  }

  lemma OperationSpends(s: Sys, a: Action, t: nat)
    requires Inv(s) && Enabled(s, a) && t < |s.pcs| && (a.t == t ==> a.Step?)
    ensures |Apply(s, a).pcs| == |s.pcs|
    ensures Remaining(s.alloc, Apply(s, a).pcs[t]) + (if a == Step(t, false) then 1 else 0) <= Remaining(s.alloc, s.pcs[t])
  {
    hide Attempt, WatermarkOk, RequestOk;
    assert PcOk(s, s.pcs[t]);
    MovedByUnit(s.alloc, s.next, s.next);
    if s.pcs[t].Exchange? {
      MovedByUnit(s.alloc, s.pcs[t].current, s.next);
      if a == Step(t, false) {
        FailureIsAnothersProgress(s, a);
      }
    }
  }

  /**
   * However the other threads run, a call ends: a frame allocation after at most 16,386 operations, a
   * heap allocation after at most the heap size plus 2, exchanges that fail spuriously not counted.
   */
  lemma {:induction false} CallEnds(s: Sys, acts: seq<Action>, t: nat)
    requires Inv(s) && Runs(s, acts) && t < |s.pcs|
    requires forall i | 0 <= i < |acts| :: acts[i].t == t ==> acts[i].Step?
    ensures |Exec(s, acts).pcs| == |s.pcs|
    ensures Operations(acts, t) + Remaining(s.alloc, Exec(s, acts).pcs[t]) <= Remaining(s.alloc, s.pcs[t])
    decreases acts
  {
    hide Inv, Apply, Enabled, Remaining;
    if acts != [] {
      StepKeepsInv(s, acts[0]);
      OperationSpends(s, acts[0], t);
      CallEnds(Apply(s, acts[0]), acts[1..], t);
    }
  }

  lemma CallEndsWithin(s: Sys, acts: seq<Action>, t: nat)
    requires Inv(s) && Runs(s, acts) && t < |s.pcs|
    requires forall i | 0 <= i < |acts| :: acts[i].t == t ==> acts[i].Step?
    ensures Operations(acts, t) <= if s.alloc.Frames? then 16386 else s.alloc.end - s.alloc.start + 2
  {
    assert PcOk(s, s.pcs[t]);
    CallEnds(s, acts, t);
    RunKeepsInv(s, acts);
    hide Attempt, RequestOk;
    assert PcOk(Exec(s, acts), Exec(s, acts).pcs[t]);
  }
}

/** The allocators driven by one caller at a time. */
module Allocators {
  import opened Words
  import opened BumpPlans

  datatype FrameErr = PoolExhausted | InvalidLen | InvalidPointer | NotPageAligned

  class FrameAllocator {
    var nextVirtualBase: u64

    ghost predicate Valid()
      reads this
    {
      WatermarkOk(Frames, nextVirtualBase)
    }

    constructor ()
      ensures Valid() && nextVirtualBase == VIRTUAL_BASE_START
    {
      nextVirtualBase := VIRTUAL_BASE_START;
    }

    /** Fails exactly if the rounded length exceeds what is free. */
    method AllocPages(len: u64) returns (r: Result<u64, FrameErr>)
      requires Valid()
      modifies this
      ensures Valid()
      ensures len == 0 <==> r == Err(InvalidLen)
      ensures r == Err(PoolExhausted) <==> len > 0 && PageBytes(len) > VIRTUAL_BASE_END - old(nextVirtualBase)
      ensures r.Ok? ==> r.value == old(nextVirtualBase) && nextVirtualBase == old(nextVirtualBase) + PageBytes(len)
      ensures r.Err? ==> nextVirtualBase == old(nextVirtualBase)
      ensures len > 0 ==> r == (match Attempt(Frames, old(nextVirtualBase), Request(len, 1))
                                case None => Err(PoolExhausted) case Some(p) => Ok(p.start))
    {
      if len == 0 {
        return Err(InvalidLen);
      }
      ghost var req := Request(len, 1);
      var pagesNeeded := Wrap64(len + PAGE_BYTES - 1) / PAGE_BYTES;
      var bytesNeeded := pagesNeeded * PAGE_BYTES;
      var current := nextVirtualBase;
      var newNext := SaturatingAdd(current, bytesNeeded);
      if newNext > VIRTUAL_BASE_END {
        return Err(PoolExhausted);
      }
      AttemptTakesRegion(Frames, current, req);
      nextVirtualBase := newNext;
      return Ok(current);
    }

    /** A validity check only: nothing is reclaimed. */
    method FreePages(p: u64, len: u64) returns (r: Result<(), FrameErr>)
      ensures r == FreeReply(p, len)
      ensures r.Ok? <==> len > 0 && p % PAGE_BYTES == 0 && VIRTUAL_BASE_START <= p < VIRTUAL_BASE_END
      ensures r == Err(InvalidLen) <==> p != 0 && len == 0
      ensures r == Err(InvalidPointer) <==>
              p == 0 || (len > 0 && !(VIRTUAL_BASE_START <= p < VIRTUAL_BASE_END))
    {
      if p == 0 {
        return Err(InvalidPointer);
      }
      if len == 0 {
        return Err(InvalidLen);
      }
      if p < VIRTUAL_BASE_START || p >= VIRTUAL_BASE_END {
        return Err(InvalidPointer);
      }
      if p % PAGE_BYTES != 0 {
        return Err(NotPageAligned);
      }
      return Ok(());
    }

    method UsedBytes() returns (n: u64)
      requires Valid()
      ensures VIRTUAL_BASE_START + n == nextVirtualBase && n <= POOL_BYTES
    {
      n := nextVirtualBase - VIRTUAL_BASE_START;
    }

    method FreeBytes() returns (n: u64)
      requires Valid()
      ensures nextVirtualBase + n == VIRTUAL_BASE_END && n <= POOL_BYTES
    {
      n := VIRTUAL_BASE_END - nextVirtualBase;
    }
  }

  function FreeReply(p: u64, len: u64): Result<(), FrameErr> {
    if p == 0 then Err(InvalidPointer)
    else if len == 0 then Err(InvalidLen)
    else if p < VIRTUAL_BASE_START || p >= VIRTUAL_BASE_END then Err(InvalidPointer)
    else if p % PAGE_BYTES != 0 then Err(NotPageAligned)
    else Ok(())
  }

  /** Whatever an allocation returned can be freed, unless its length wrapped on a full pool. */
  lemma AllocatedCanBeFreed(current: u64, len: u64, freed: u64)
    requires WatermarkOk(Frames, current) && len > 0 && freed > 0
    requires Attempt(Frames, current, Request(len, 1)).Some?
    ensures FreeReply(Attempt(Frames, current, Request(len, 1)).value.start, freed).Ok?
            <==> len <= U64 - PAGE_BYTES || current < VIRTUAL_BASE_END
  {
    PageRounding(len);
    AttemptTakesRegion(Frames, current, Request(len, 1));
  }

  class BumpAllocator {
    const heapStart: u64
    const heapEnd: u64
    var next: u64

    ghost predicate Valid()
      reads this
    {
      HeapOk(Heap(heapStart, heapEnd)) && heapStart <= next <= heapEnd
    }

    constructor Init(start: u64, size: u64)
      requires start + size <= U64 / 2
      ensures Valid() && heapStart == next == start && heapEnd == start + size
    {
      heapStart, heapEnd, next := start, start + size, start;
    }

    /** Returns the least aligned address at or above the watermark, or null (`None`) if the heap ends before. */
    method Alloc(size: u64, align: u64) returns (r: Option<u64>)
      requires Valid() && LayoutOk(Request(size, align)) && align > 0
      modifies this
      ensures Valid()
      ensures r.Some? ==> LeastMultiple(r.value, old(next), align) && next == r.value + size
      ensures r == None ==> next == old(next)
                            && forall m | LeastMultiple(m, next, align) :: m + size > heapEnd
    {
      hide And64, LayoutOk, LeastMultiple;
      ghost var a, req := Heap(heapStart, heapEnd), Request(size, align);
      var current := next;
      var aligned := And64(Wrap64(current + align - 1), Not64(align - 1));
      var newNext := Wrap64(aligned + size);
      if newNext > heapEnd {
        assert Attempt(a, current, req) == None;
        forall m | LeastMultiple(m, current, align) ensures m + size > heapEnd {
          AttemptFailsIff(a, current, req, m);
        }
        return None;
      }
      AttemptTakesRegion(a, current, req);
      next := newNext;
      return Some(aligned);
    }
  }
}
