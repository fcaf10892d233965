/** Agent identities: how a PID is minted from a handle, a role, a vantage and a tier. */
module AgentPid {
  import opened Words
  import opened Fnv

  datatype AgentRole = Hermes | SpaceDeckDriver | SpaceAgent | Pi | Omnispindle | Omniflywheel | BigPickle | SubAgent {
    function Code(): byte {
      match this
      case Hermes => 0
      case SpaceDeckDriver => 1
      case SpaceAgent => 2
      case Pi => 3
      case Omnispindle => 4
      case Omniflywheel => 5
      case BigPickle => 6
      case SubAgent => 7
    }

    function Tag(): string {
      match this
      case Hermes => "HRM"
      case SpaceDeckDriver => "SDD"
      case SpaceAgent => "SPA"
      case Pi => "PI"
      case Omnispindle => "SPN"
      case Omniflywheel => "FLY"
      case BigPickle => "BPK"
      case SubAgent => "SUB"
    }
  }

  datatype VantageId = Acer | Liris | Falcon | Aether {
    function Code(): byte { match this case Acer => 0 case Liris => 1 case Falcon => 2 case Aether => 3 }

    function Tag(): string {
      match this
      case Acer => "ACER"
      case Liris => "LIRIS"
      case Falcon => "FALCON"
      case Aether => "AETHER"
    }
  }

  datatype AccessTier = Public | Restricted | Stealth | Hidden | Shadow | Secret | Sovereignty {
    function Code(): byte {
      match this
      case Public => 0
      case Restricted => 1
      case Stealth => 2
      case Hidden => 3
      case Shadow => 4
      case Secret => 5
      case Sovereignty => 6
    }
  }

  /** `to_le_bytes` of a 64-bit integer. */
  function LittleEndian(n: nat, width: nat): (bs: seq<byte>)
    ensures |bs| == width
  {
    if width == 0 then [] else [n % 256] + LittleEndian(n / 256, width - 1)
  }

  function SeedBytes(parts: seq<u64>): seq<byte> {
    if parts == [] then [] else LittleEndian(parts[0], 8) + SeedBytes(parts[1..])
  }

  /** The seed hash keeps its low 48 bits in the PID. */
  function Seed48(handle: u64, role: AgentRole, vantage: VantageId, tier: AccessTier): nat {
    Fnv1a(SeedBytes([handle, role.Code(), vantage.Code(), tier.Code()])) % U48
  }

  function MintAgentPid(handle: u64, role: AgentRole, vantage: VantageId, tier: AccessTier): string {
    PidText(vantage, role, UpperHex(Seed48(handle, role, vantage, tier), 12))
  }

  /** `fnv1a64` over parts, eight little-endian bytes each. */
  method Fnv1a64(parts: seq<u64>) returns (h: u64)
    ensures h == Fnv1a(SeedBytes(parts))
  {
    h := FNV_OFFSET;
    for p := 0 to |parts|
      invariant MixAll(h, SeedBytes(parts[p..])) == Fnv1a(SeedBytes(parts))
    {
      var bytes := LittleEndian(parts[p], 8);
      assert SeedBytes(parts[p..]) == bytes + SeedBytes(parts[p + 1..]);
      for i := 0 to 8
        invariant MixAll(h, bytes[i..] + SeedBytes(parts[p + 1..])) == Fnv1a(SeedBytes(parts))
      {
        var rest := bytes[i..] + SeedBytes(parts[p + 1..]);
        assert rest[0] == bytes[i] && rest[1..] == bytes[i + 1..] + SeedBytes(parts[p + 1..]);
        h := XorLow(h, bytes[i]);
        h := Wrap64(h * FNV_PRIME);
      }
      assert bytes[8..] + SeedBytes(parts[p + 1..]) == SeedBytes(parts[p + 1..]);
    }
  }

  /** A handle below 65,536 changes only the first two bytes of the seed. */
  lemma SmallHandleBytes(handle: u64)
    requires handle < 65536
    ensures LittleEndian(handle, 8) == [handle % 256, handle / 256] + [0, 0, 0, 0, 0, 0]
  {
    assert LittleEndian(handle, 8) == [handle % 256] + LittleEndian(handle / 256, 7);
    assert LittleEndian(handle / 256, 7) == [handle / 256] + LittleEndian(0, 6);
    assert LittleEndian(0, 6) == [0, 0] + LittleEndian(0, 4);
    assert LittleEndian(0, 4) == [0, 0] + LittleEndian(0, 2);
    assert LittleEndian(0, 2) == [0, 0];
  }

  lemma SeedBytesSplit(handle: u64, rest: seq<u64>)
    requires handle < 65536
    ensures SeedBytes([handle] + rest) == [handle % 256, handle / 256] + ([0, 0, 0, 0, 0, 0] + SeedBytes(rest))
  {
    SmallHandleBytes(handle);
    assert ([handle] + rest)[1..] == rest;
  }

  lemma HandleHashesDiffer(m: u64, n: u64, rest: seq<u64>)
    requires m < 65536 && n < 65536 && m != n
    ensures Fnv1a(SeedBytes([m] + rest)) % U48 != Fnv1a(SeedBytes([n] + rest)) % U48
  {
    hide Fnv1a, SeedBytes;
    var suffix := [0, 0, 0, 0, 0, 0] + SeedBytes(rest);
    var a, b: seq<byte> := [m % 256, m / 256], [n % 256, n / 256];
    SeedBytesSplit(m, rest);
    SeedBytesSplit(n, rest);
    assert a != b by { assert a[0] == m % 256 && a[1] == m / 256 && b[0] == n % 256 && b[1] == n / 256; }
    assert [] + a + suffix == a + suffix && [] + b + suffix == b + suffix;
    OnePairApart([], a, b, suffix);
  }

  /** The truncated seed hashes of two handles below 65,536 differ. */
  lemma SeedsDiffer(m: u64, n: u64, role: AgentRole, vantage: VantageId, tier: AccessTier)
    requires m < 65536 && n < 65536 && m != n
    ensures Seed48(m, role, vantage, tier) != Seed48(n, role, vantage, tier)
  {
    hide SeedBytes, Fnv1a;
    var rest: seq<u64> := [role.Code(), vantage.Code(), tier.Code()];
    HandleHashesDiffer(m, n, rest);
    assert [m, role.Code(), vantage.Code(), tier.Code()] == [m] + rest;
    assert [n, role.Code(), vantage.Code(), tier.Code()] == [n] + rest;
  }

  /** The text of a PID around its 12 hexadecimal digits. */
  function PidText(v: VantageId, r: AgentRole, hex: string): string {
    "AGT-" + (v.Tag() + ("-" + (r.Tag() + ("-H" + hex))))
  }

  lemma PidTextInjective(v: VantageId, r: AgentRole, hex: string, v': VantageId, r': AgentRole, hex': string)
    requires |hex| == |hex'| && PidText(v, r, hex) == PidText(v', r', hex')
    ensures v == v' && r == r' && hex == hex'
  {
    var x, y := r.Tag() + ("-H" + hex), r'.Tag() + ("-H" + hex');
    ConcatInjective("AGT-", v.Tag() + ("-" + x), "AGT-", v'.Tag() + ("-" + y));
    assert v == v' by {
      var p, q := v.Tag() + ("-" + x), v'.Tag() + ("-" + y);
      assert p[0] == v.Tag()[0] && q[0] == v'.Tag()[0] && p[1] == v.Tag()[1] && q[1] == v'.Tag()[1];
    }
    ConcatInjective(v.Tag(), "-" + x, v.Tag(), "-" + y);
    ConcatInjective("-", x, "-", y);
    assert |x| == |y| ==> |r.Tag()| == |r'.Tag()|;
    ConcatInjective(r.Tag(), "-H" + hex, r'.Tag(), "-H" + hex');
    assert r == r' by {
      assert r.Tag()[0] == r'.Tag()[0] && r.Tag()[1] == r'.Tag()[1] && (|r.Tag()| == 3 ==> r.Tag()[2] == r'.Tag()[2]);
    }
    ConcatInjective("-H", hex, "-H", hex');
  }

  /** The beginnings of PIDs that the original's tests expect. */
  lemma KnownPrefixes(handle: u64, tier: AccessTier)
    ensures |MintAgentPid(handle, Hermes, Acer, tier)| == |MintAgentPid(handle, SubAgent, Acer, tier)| == 26
    ensures "AGT-ACER-HRM-H" <= MintAgentPid(handle, Hermes, Acer, tier)
    ensures "AGT-ACER-SUB-H" <= MintAgentPid(handle, SubAgent, Acer, tier)
  {
    hide Seed48, UpperHex;
  }

  lemma Hex12Injective(m: nat, n: nat)
    requires m < U48 && n < U48 && UpperHex(m, 12) == UpperHex(n, 12)
    ensures m == n
  {
    assert Pow16(4) == 65536;
    assert Pow16(8) == 65536 * Pow16(4);
    assert Pow16(12) == 65536 * Pow16(8);
    UpperHexInjective(m, n, 12);
  }

  /** PIDs of one tier minted from handles below 65,536 tell handle, role and vantage apart. */
  lemma PidsIdentifyAgents(m: u64, r: AgentRole, v: VantageId, n: u64, r': AgentRole, v': VantageId, tier: AccessTier)
    requires m < 65536 && n < 65536
    requires MintAgentPid(m, r, v, tier) == MintAgentPid(n, r', v', tier)
    ensures m == n && r == r' && v == v'
  {
    var x, y := Seed48(m, r, v, tier), Seed48(n, r', v', tier);
    PidTextInjective(v, r, UpperHex(x, 12), v', r', UpperHex(y, 12));
    Hex12Injective(x, y);
    if m != n {
      SeedsDiffer(m, n, r, v, tier);
    }
  }

  lemma SmallPart(n: u64)
    requires n < 256
    ensures LittleEndian(n, 8) == [n, 0] + [0, 0, 0, 0, 0, 0]
  {
    SmallHandleBytes(n);
  }

  /** A tier code is hashed as the last part, and changes one byte of the seed. */
  lemma TierHashesDiffer(front: seq<u64>, a: u64, b: u64)
    requires a < 256 && b < 256 && a != b
    ensures Fnv1a(SeedBytes(front + [a])) % U48 != Fnv1a(SeedBytes(front + [b])) % U48
  {
    var zeros: seq<byte> := [0, 0, 0, 0, 0, 0];
    var x, y: seq<byte> := [a, 0], [b, 0];
    SeedBytesAppend(front, a);
    SeedBytesAppend(front, b);
    SmallPart(a);
    SmallPart(b);
    assert x[0] != y[0];
    assert SeedBytes(front) + (x + zeros) == SeedBytes(front) + x + zeros;
    assert SeedBytes(front) + (y + zeros) == SeedBytes(front) + y + zeros;
    OnePairApart(SeedBytes(front), x, y, zeros);
  }

  lemma {:induction false} SeedBytesAppend(front: seq<u64>, last: u64)
    ensures SeedBytes(front + [last]) == SeedBytes(front) + LittleEndian(last, 8)
    decreases |front|
  {
    hide LittleEndian;
    if front == [] {
      assert front + [last] == [last] && [last][1..] == [];
    } else {
      assert (front + [last])[1..] == front[1..] + [last];
      SeedBytesAppend(front[1..], last);
    }
  }

  lemma TiersDiffer(handle: u64, role: AgentRole, vantage: VantageId, a: AccessTier, b: AccessTier)
    requires a != b
    ensures Seed48(handle, role, vantage, a) != Seed48(handle, role, vantage, b)
  {
    hide SeedBytes, Fnv1a;
    var front: seq<u64> := [handle, role.Code(), vantage.Code()];
    assert [handle, role.Code(), vantage.Code(), a.Code()] == front + [a.Code()];
    assert [handle, role.Code(), vantage.Code(), b.Code()] == front + [b.Code()];
    TierHashesDiffer(front, a.Code(), b.Code());
  }

  /** PIDs of one handle, whatever the handle, tell role, vantage and tier apart. */
  lemma PidsOfOneHandle(handle: u64, r: AgentRole, v: VantageId, a: AccessTier, r': AgentRole, v': VantageId, b: AccessTier)
    requires MintAgentPid(handle, r, v, a) == MintAgentPid(handle, r', v', b)
    ensures r == r' && v == v' && a == b
  {
    hide Seed48;
    var x, y := Seed48(handle, r, v, a), Seed48(handle, r', v', b);
    PidTextInjective(v, r, UpperHex(x, 12), v', r', UpperHex(y, 12));
    SeedFits(handle, r, v, a);
    SeedFits(handle, r', v', b);
    Hex12Injective(x, y);
    if a != b {
      TiersDiffer(handle, r, v, a, b);
    }
  }

  lemma SeedFits(handle: u64, r: AgentRole, v: VantageId, tier: AccessTier)
    ensures Seed48(handle, r, v, tier) < U48
  {
  }

  lemma PidsDiffer(m: u64, r: AgentRole, v: VantageId, n: u64, r': AgentRole, v': VantageId, tier: AccessTier)
    requires m < 65536 && n < 65536 && m != n
    ensures MintAgentPid(m, r, v, tier) != MintAgentPid(n, r', v', tier)
  {
    if MintAgentPid(m, r, v, tier) == MintAgentPid(n, r', v', tier) {
      PidsIdentifyAgents(m, r, v, n, r', v', tier);
    }
  }
}

/** The agent registry: entries are retired, never removed. */
module AgentRegistries {
  import opened Words
  import opened AgentPid

  const AGENT_REGISTRY_MAX: nat := 10_000

  datatype AgentState = Spawned | Working | Heartbeating | Failed | Retired

  datatype AgentClass = VirtualPointer | RealReceiptGated | Ambiguous

  datatype AgentErr = RegistryFull | NotFound | InvalidStateTransition

  datatype AgentEntry = AgentEntry(
    agentPid: string, role: AgentRole, state: AgentState, vantage: VantageId, tier: AccessTier, class_: AgentClass,
    spawnedAtNs: u64, lastHeartbeatNs: u64)

  /** Registrations of each class. */
  datatype Counters = Counters(virtualRegistered: nat, receiptGatedHelper: nat, ambiguousHeld: nat)

  datatype Registry = Registry(entries: seq<AgentEntry>, counters: Counters)

  /** Whoever plans to launch a process is held unless it has a receipt. */
  function ClassifyRequest(plannedOsSpawns: u32, hasReceipt: bool): (class_: AgentClass)
    ensures class_ == VirtualPointer <==> plannedOsSpawns == 0
    ensures class_ == RealReceiptGated <==> plannedOsSpawns >= 1 && hasReceipt
    ensures class_ == Ambiguous <==> plannedOsSpawns >= 1 && !hasReceipt
  {
    if plannedOsSpawns == 0 then VirtualPointer else if hasReceipt then RealReceiptGated else Ambiguous
  }

  function Live(entries: seq<AgentEntry>): nat {
    if entries == [] then 0
    else Live(entries[..|entries| - 1]) + (if entries[|entries| - 1].state == Retired then 0 else 1)
  }

  function Bump(c: Counters, class_: AgentClass): Counters {
    match class_
    case VirtualPointer => c.(virtualRegistered := c.virtualRegistered + 1)
    case RealReceiptGated => c.(receiptGatedHelper := c.receiptGatedHelper + 1)
    case Ambiguous => c.(ambiguousHeld := c.ambiguousHeld + 1)
  }

  function Register(r: Registry, role: AgentRole, vantage: VantageId, tier: AccessTier, class_: AgentClass)
    : (Registry, Result<string, AgentErr>)
  {
    if Live(r.entries) >= AGENT_REGISTRY_MAX then (r, Err(RegistryFull))
    else
      var pid := MintAgentPid(Wrap64(|r.entries| + 1), role, vantage, tier);
      (Registry(r.entries + [AgentEntry(pid, role, Spawned, vantage, tier, class_, 0, 0)], Bump(r.counters, class_)),
       Ok(pid))
  }

  /** The first entry that carries `pid`, or the length. */
  function Lookup(entries: seq<AgentEntry>, pid: string): (i: nat)
    ensures i <= |entries|
    ensures forall k | 0 <= k < i :: entries[k].agentPid != pid
    ensures i < |entries| ==> entries[i].agentPid == pid
  {
    if entries == [] || entries[0].agentPid == pid then 0
    else
      var i := Lookup(entries[1..], pid) + 1;
      assert forall k | 1 <= k < i :: entries[k] == entries[1..][k - 1];
      i
  }

  function Retire(r: Registry, pid: string): (Registry, Result<(), AgentErr>) {
    var i := Lookup(r.entries, pid);
    if i == |r.entries| then (r, Err(NotFound))
    else (r.(entries := r.entries[i := r.entries[i].(state := Retired)]), Ok(()))
  }

  function Heartbeat(r: Registry, pid: string, nowNs: u64): (Registry, Result<(), AgentErr>) {
    var i := Lookup(r.entries, pid);
    if i == |r.entries| then (r, Err(NotFound))
    else if r.entries[i].state == Retired then (r, Err(InvalidStateTransition))
    else (r.(entries := r.entries[i := r.entries[i].(lastHeartbeatNs := nowNs)]), Ok(()))
  }

  class AgentRegistry {
    var entries: seq<AgentEntry>
    var counters: Counters

    function Abs(): Registry
      reads this
    {
      Registry(entries, counters)
    }

    constructor ()
      ensures Abs() == Registry([], Counters(0, 0, 0))
    {
      entries, counters := [], Counters(0, 0, 0);
    }

    method Count() returns (n: nat)
      ensures n == Live(entries)
    {
      n := 0;
      for i := 0 to |entries|
        invariant n == Live(entries[..i])
      {
        assert entries[..i + 1][..i] == entries[..i];
        if entries[i].state != Retired {
          n := n + 1;
        }
      }
      assert entries[..|entries|] == entries;
    }

    method Spawn(role: AgentRole, vantage: VantageId, tier: AccessTier) returns (r: Result<string, AgentErr>)
      modifies this
      ensures (Abs(), r) == Register(old(Abs()), role, vantage, tier, VirtualPointer)
    {
      r := RegisterEntry(role, vantage, tier, VirtualPointer);
    }

    method SpawnRealGated(role: AgentRole, vantage: VantageId, tier: AccessTier, hasReceipt: bool)
      returns (r: Result<string, AgentErr>)
      modifies this
      ensures (Abs(), r) == Register(old(Abs()), role, vantage, tier, if hasReceipt then RealReceiptGated else Ambiguous)
    {
      r := RegisterEntry(role, vantage, tier, ClassifyRequest(1, hasReceipt));
    }

    method RegisterEntry(role: AgentRole, vantage: VantageId, tier: AccessTier, class_: AgentClass)
      returns (r: Result<string, AgentErr>)
      modifies this
      ensures (Abs(), r) == Register(old(Abs()), role, vantage, tier, class_)
    {
      hide MintAgentPid, Live;
      var live := Count();
      if live >= AGENT_REGISTRY_MAX {
        return Err(RegistryFull);
      }
      var handle := Wrap64(|entries| + 1);
      var agentPid := MintAgentPid(handle, role, vantage, tier);
      entries := entries + [AgentEntry(agentPid, role, Spawned, vantage, tier, class_, 0, 0)];
      counters := Bump(counters, class_);
      return Ok(agentPid);
    }

    method RetireAgent(agentPid: string) returns (r: Result<(), AgentErr>)
      modifies this
      ensures (Abs(), r) == Retire(old(Abs()), agentPid)
    {
      for i := 0 to |entries|
        invariant entries == old(entries) && counters == old(counters)
        invariant forall k | 0 <= k < i :: entries[k].agentPid != agentPid
      {
        if entries[i].agentPid == agentPid {
          assert Lookup(entries, agentPid) == i;
          entries := entries[i := entries[i].(state := Retired)];
          return Ok(());
        }
      }
      return Err(NotFound);
    }

    method HeartbeatAgent(agentPid: string, nowNs: u64) returns (r: Result<(), AgentErr>)
      modifies this
      ensures (Abs(), r) == Heartbeat(old(Abs()), agentPid, nowNs)
    {
      for i := 0 to |entries|
        invariant entries == old(entries) && counters == old(counters)
        invariant forall k | 0 <= k < i :: entries[k].agentPid != agentPid
      {
        if entries[i].agentPid == agentPid {
          assert Lookup(entries, agentPid) == i;
          if entries[i].state == Retired {
            return Err(InvalidStateTransition);
          }
          entries := entries[i := entries[i].(lastHeartbeatNs := nowNs)];
          return Ok(());
        }
      }
      return Err(NotFound);
    }
  }

  // ----- whole runs

  datatype Op =
    | OpRegister(role: AgentRole, vantage: VantageId, tier: AccessTier, class_: AgentClass)
    | OpRetire(pid: string)
    | OpHeartbeat(pid: string, nowNs: u64)

  function Apply(r: Registry, op: Op): Registry {
    match op
    case OpRegister(role, vantage, tier, class_) => Register(r, role, vantage, tier, class_).0
    case OpRetire(pid) => Retire(r, pid).0
    case OpHeartbeat(pid, nowNs) => Heartbeat(r, pid, nowNs).0
  }

  function Exec(r: Registry, ops: seq<Op>): Registry
    decreases |ops|
  {
    if ops == [] then r else Exec(Apply(r, ops[0]), ops[1..])
  }

  ghost predicate Minted(entries: seq<AgentEntry>, i: nat) {
    i < |entries|
    && entries[i].agentPid == MintAgentPid(Wrap64(i + 1), entries[i].role, entries[i].vantage, entries[i].tier)
  }

  ghost predicate Inv(r: Registry) {
    && Live(r.entries) <= AGENT_REGISTRY_MAX
    && r.counters == Counters(OfClass(r.entries, VirtualPointer), OfClass(r.entries, RealReceiptGated),
                              OfClass(r.entries, Ambiguous))
    && forall i: nat | i < |r.entries| :: Minted(r.entries, i)
  }

  /** The entries of one class, retired ones included. */
  function OfClass(entries: seq<AgentEntry>, class_: AgentClass): nat {
    if entries == [] then 0
    else OfClass(entries[..|entries| - 1], class_) + (if entries[|entries| - 1].class_ == class_ then 1 else 0)
  }

  lemma {:induction false} OfClassUpdate(entries: seq<AgentEntry>, i: nat, e: AgentEntry, class_: AgentClass)
    requires i < |entries| && e.class_ == entries[i].class_
    ensures OfClass(entries[i := e], class_) == OfClass(entries, class_)
  {
    var last := |entries| - 1;
    if i == last {
      assert entries[i := e][..last] == entries[..last];
    } else {
      assert entries[i := e][..last] == entries[..last][i := e];
      OfClassUpdate(entries[..last], i, e, class_);
    }
  }

  lemma {:induction false} ClassesSum(entries: seq<AgentEntry>)
    ensures OfClass(entries, VirtualPointer) + OfClass(entries, RealReceiptGated) + OfClass(entries, Ambiguous) == |entries|
  {
    if entries != [] {
      ClassesSum(entries[..|entries| - 1]);
    }
  }

  lemma {:induction false} LiveUpdate(entries: seq<AgentEntry>, i: nat, e: AgentEntry)
    requires i < |entries|
    ensures Live(entries[i := e]) == Live(entries) + (if e.state == Retired then 0 else 1)
                                                   - (if entries[i].state == Retired then 0 else 1)
  {
    var last := |entries| - 1;
    if i == last {
      assert entries[i := e][..last] == entries[..last];
    } else {
      assert entries[i := e][..last] == entries[..last][i := e];
      LiveUpdate(entries[..last], i, e);
    }
  }

  lemma EntryUpdate(entries: seq<AgentEntry>, i: nat, e: AgentEntry)
    requires i < |entries| && e.class_ == entries[i].class_
    ensures Live(entries[i := e]) == Live(entries) + (if e.state == Retired then 0 else 1)
                                                   - (if entries[i].state == Retired then 0 else 1)
    ensures OfClass(entries[i := e], VirtualPointer) == OfClass(entries, VirtualPointer)
    ensures OfClass(entries[i := e], RealReceiptGated) == OfClass(entries, RealReceiptGated)
    ensures OfClass(entries[i := e], Ambiguous) == OfClass(entries, Ambiguous)
  {
    LiveUpdate(entries, i, e);
    OfClassUpdate(entries, i, e, VirtualPointer);
    OfClassUpdate(entries, i, e, RealReceiptGated);
    OfClassUpdate(entries, i, e, Ambiguous);
  }

  lemma ApplyKeepsInv(r: Registry, op: Op)
    requires Inv(r)
    ensures Inv(Apply(r, op))
    ensures |r.entries| <= |Apply(r, op).entries| <= |r.entries| + 1
  {
    hide MintAgentPid;
    match op {
      case OpRegister(role, vantage, tier, class_) => RegisterKeepsInv(r, role, vantage, tier, class_);
      case OpRetire(pid) =>
        var i := Lookup(r.entries, pid);
        if i < |r.entries| { EditKeepsInv(r, i, r.entries[i].(state := Retired)); }
      case OpHeartbeat(pid, nowNs) =>
        var i := Lookup(r.entries, pid);
        if i < |r.entries| { EditKeepsInv(r, i, r.entries[i].(lastHeartbeatNs := nowNs)); }
    }
    hide Inv;
  }

  lemma RegisterKeepsInv(r: Registry, role: AgentRole, vantage: VantageId, tier: AccessTier, class_: AgentClass)
    requires Inv(r)
    ensures Inv(Register(r, role, vantage, tier, class_).0)
  {
    hide MintAgentPid;
    var r' := Register(r, role, vantage, tier, class_).0;
    if r' != r {
      assert r'.entries[..|r.entries|] == r.entries;
      forall i: nat | i < |r'.entries| ensures Minted(r'.entries, i) {
        assert i < |r.entries| ==> Minted(r.entries, i);
      }
    }
  }

  /** An edit that leaves the agent and makes no retired entry live again. */
  lemma EditKeepsInv(r: Registry, i: nat, e: AgentEntry)
    requires Inv(r) && i < |r.entries|
    requires e == r.entries[i].(state := e.state, lastHeartbeatNs := e.lastHeartbeatNs)
    requires r.entries[i].state == Retired ==> e.state == Retired
    ensures Inv(r.(entries := r.entries[i := e]))
  {
    EntryUpdate(r.entries, i, e);
    var entries := r.entries[i := e];
    hide MintAgentPid, Live, OfClass;
    forall k: nat | k < |entries| ensures Minted(entries, k) {
      assert Minted(r.entries, k);
    }
  }

  /** An entry with `pid` exists. */
  predicate Known(entries: seq<AgentEntry>, pid: string) {
    exists i | 0 <= i < |entries| :: entries[i].agentPid == pid
  }

  /** A registration is refused exactly at 10,000 live agents; otherwise one agent more is live, under the PID returned. */
  lemma RegisterOutcomes(r: Registry, role: AgentRole, vantage: VantageId, tier: AccessTier, class_: AgentClass)
    requires Inv(r)
    ensures var (r', a) := Register(r, role, vantage, tier, class_);
            if Live(r.entries) == 10_000 then a == Err(RegistryFull) && r' == r
            else
              && a.Ok? && |r'.entries| == |r.entries| + 1 && r'.entries[..|r.entries|] == r.entries
              && r'.entries[|r.entries|] == AgentEntry(a.value, role, Spawned, vantage, tier, class_, 0, 0)
              && Live(r'.entries) == Live(r.entries) + 1
              && OfClass(r'.entries, class_) == OfClass(r.entries, class_) + 1
  {
    hide MintAgentPid;
    var r' := Register(r, role, vantage, tier, class_).0;
    if r' != r {
      assert r'.entries[..|r.entries|] == r.entries;
    }
  }

  /** A heartbeat stamps the first entry with the PID, unless there is none or it is retired. */
  lemma HeartbeatOutcomes(r: Registry, pid: string, nowNs: u64)
    ensures var (r', a) := Heartbeat(r, pid, nowNs);
            var k := Lookup(r.entries, pid);
            && (a == Err(NotFound) <==> !Known(r.entries, pid))
            && (a == Err(InvalidStateTransition) <==> Known(r.entries, pid) && r.entries[k].state == Retired)
            && (a.Ok? <==> Known(r.entries, pid) && r.entries[k].state != Retired)
            && (a.Err? ==> r' == r)
            && (a.Ok? ==>
                  && r'.entries[k].lastHeartbeatNs == nowNs
                  && r'.entries[k].(lastHeartbeatNs := r.entries[k].lastHeartbeatNs) == r.entries[k]
                  && r'.entries[k := r.entries[k]] == r.entries && r'.counters == r.counters)
  {
    var k := Lookup(r.entries, pid);
    assert k < |r.entries| ==> Known(r.entries, pid);
  }

  lemma RetireOutcomes(r: Registry, pid: string)
    ensures var (r', a) := Retire(r, pid);
            var k := Lookup(r.entries, pid);
            && (a.Ok? <==> Known(r.entries, pid))
            && (a.Err? ==> a == Err(NotFound) && r' == r)
            && (a.Ok? ==>
                  && r'.entries[k].state == Retired && r'.entries[k].(state := r.entries[k].state) == r.entries[k]
                  && r'.entries[k := r.entries[k]] == r.entries && r'.counters == r.counters)
  {
    var k := Lookup(r.entries, pid);
    assert k < |r.entries| ==> Known(r.entries, pid);
  }

  /** Retiring a live agent of a full registry makes room for exactly one more. */
  lemma RetireFreesASlot(r: Registry, pid: string, role: AgentRole, vantage: VantageId, tier: AccessTier, class_: AgentClass)
    requires Inv(r) && Live(r.entries) == 10_000
    requires Known(r.entries, pid) && r.entries[Lookup(r.entries, pid)].state != Retired
    ensures Register(r, role, vantage, tier, class_).1 == Err(RegistryFull)
    ensures var (r2, a) := Register(Retire(r, pid).0, role, vantage, tier, class_);
            a.Ok? && Live(r2.entries) == 10_000
  {
    hide MintAgentPid;
    RegisterOutcomes(r, role, vantage, tier, class_);
    var k := Lookup(r.entries, pid);
    LiveUpdate(r.entries, k, r.entries[k].(state := Retired));
    ApplyKeepsInv(r, OpRetire(pid));
    RegisterOutcomes(Retire(r, pid).0, role, vantage, tier, class_);
  }

  /** The registrations that succeed. */
  function Registered(r: Registry, ops: seq<Op>): nat
    decreases |ops|
  {
    if ops == [] then 0
    else (if ops[0].OpRegister? && Live(r.entries) < 10_000 then 1 else 0) + Registered(Apply(r, ops[0]), ops[1..])
  }

  /** `e` is `before` some operations later: of the same agent, and just the same if it was retired. */
  predicate Later(before: AgentEntry, e: AgentEntry) {
    && e == before.(state := e.state, lastHeartbeatNs := e.lastHeartbeatNs)
    && (before.state == Retired ==> e == before)
  }

  lemma ApplyKeepsEntries(r: Registry, op: Op)
    requires Inv(r)
    ensures |Apply(r, op).entries| == |r.entries| + (if op.OpRegister? && Live(r.entries) < 10_000 then 1 else 0)
    ensures forall i | 0 <= i < |r.entries| :: Later(r.entries[i], Apply(r, op).entries[i])
  {
    hide MintAgentPid;
  }

  /**
   * At most 10,000 live agents, and each counter is the number of entries of its class. There is one
   * entry more for every registration that succeeded and none is ever removed; an entry stays that of
   * its agent, and a retired one stays as it is.
   */
  lemma {:induction false} RunKeepsInv(r: Registry, ops: seq<Op>)
    requires Inv(r)
    ensures Inv(Exec(r, ops))
    ensures |Exec(r, ops).entries| == |r.entries| + Registered(r, ops)
    ensures forall i | 0 <= i < |r.entries| :: Later(r.entries[i], Exec(r, ops).entries[i])
    ensures var c := Exec(r, ops).counters;
            c.virtualRegistered + c.receiptGatedHelper + c.ambiguousHeld == |Exec(r, ops).entries|
    decreases |ops|
  {
    ClassesSum(r.entries);
    assert ops == [] ==> Exec(r, ops) == r;
    hide Inv, Apply;
    if ops != [] {
      ApplyKeepsInv(r, ops[0]);
      ApplyKeepsEntries(r, ops[0]);
      RunKeepsInv(Apply(r, ops[0]), ops[1..]);
    }
  }

  /** Agents with one PID have one role and vantage, and if they are among the first 65,535, different tiers. */
  lemma SharedPid(entries: seq<AgentEntry>, k: nat, i: nat)
    requires k < i < |entries| && Minted(entries, k) && Minted(entries, i)
    requires entries[k].agentPid == entries[i].agentPid
    ensures entries[k].role == entries[i].role && entries[k].vantage == entries[i].vantage
    ensures entries[k].tier == entries[i].tier ==> i >= 65535
  {
    var x, y := entries[k], entries[i];
    PidTextInjective(x.vantage, x.role, UpperHex(Seed48(Wrap64(k + 1), x.role, x.vantage, x.tier), 12),
                     y.vantage, y.role, UpperHex(Seed48(Wrap64(i + 1), y.role, y.vantage, y.tier), 12));
    hide Seed48, PidText;
    if x.tier == y.tier && i < 65535 {
      WrapKeepsSmall(k + 1);
      WrapKeepsSmall(i + 1);
      PidsDiffer(k + 1, x.role, x.vantage, i + 1, y.role, y.vantage, x.tier);
    }
  }

  /**
   * In every registry, whatever its size and tiers: retiring by PID retires one entry, of the named
   * agent's role and vantage. It is an earlier entry only if that has another tier or the named agent
   * is beyond the first 65,535.
   */
  lemma RetireHitsTheNamedAgent(r: Registry, i: nat)
    requires Inv(r) && i < |r.entries|
    ensures var k := Lookup(r.entries, r.entries[i].agentPid);
            && k <= i
            && Retire(r, r.entries[i].agentPid) == (r.(entries := r.entries[k := r.entries[k].(state := Retired)]), Ok(()))
            && r.entries[k].role == r.entries[i].role && r.entries[k].vantage == r.entries[i].vantage
            && (k < i ==> r.entries[k].tier != r.entries[i].tier || i >= 65535)
  {
    hide MintAgentPid;
    var k := Lookup(r.entries, r.entries[i].agentPid);
    assert Minted(r.entries, i) && Minted(r.entries, k);
    if k < i {
      SharedPid(r.entries, k, i);
    }
  }
}

/** Child handles under any number of threads: one fetch-add, and a rollback store past the end. */
module ChildHandles {
  import opened Words
  import opened AgentRegistries

  datatype Pc = Idle | Rollback

  /** `given` records the handles returned, in order. */
  datatype Sys = Sys(counter: u64, pcs: seq<Pc>, given: seq<nat>)

  /** Thread `t` performs its next atomic operation. */
  function Step(s: Sys, t: nat): Sys
    requires t < |s.pcs|
  {
    match s.pcs[t]
    case Idle =>
      var s' := s.(counter := Wrap64(s.counter + 1));
      if s.counter >= AGENT_REGISTRY_MAX then s'.(pcs := s.pcs[t := Rollback])
      else s'.(given := s.given + [s.counter + 1])
    case Rollback => s.(counter := AGENT_REGISTRY_MAX, pcs := s.pcs[t := Idle])
  }

  function RollingBack(pcs: seq<Pc>): (n: nat)
    ensures n <= |pcs|
  {
    if pcs == [] then 0 else RollingBack(pcs[1..]) + (if pcs[0] == Rollback then 1 else 0)
  }

  lemma {:induction false} RollingBackUpdate(pcs: seq<Pc>, t: nat, pc: Pc)
    requires t < |pcs|
    ensures RollingBack(pcs[t := pc])
            == RollingBack(pcs) + (if pc == Rollback then 1 else 0) - (if pcs[t] == Rollback then 1 else 0)
  {
    if t > 0 {
      assert pcs[t := pc][1..] == pcs[1..][t - 1 := pc];
      RollingBackUpdate(pcs[1..], t - 1, pc);
    } else {
      assert pcs[t := pc][1..] == pcs[1..];
    }
  }

  /** The handles given are 1, 2, 3, ... up to the counter or the limit; the excess is in flight. */
  ghost predicate Inv(s: Sys) {
    && |s.given| == Min(s.counter, AGENT_REGISTRY_MAX)
    && (forall i | 0 <= i < |s.given| :: s.given[i] == i + 1)
    && s.counter <= AGENT_REGISTRY_MAX + RollingBack(s.pcs)
    && (RollingBack(s.pcs) > 0 ==> s.counter >= AGENT_REGISTRY_MAX)
  }

  lemma {:induction false} SomeoneRollsBack(pcs: seq<Pc>, t: nat)
    requires t < |pcs| && pcs[t] == Rollback
    ensures RollingBack(pcs) > 0
  {
    RollingBackUpdate(pcs, t, Idle);
  }

  /** The counter cannot wrap: fewer than 2^63 threads can be past the limit at once. */
  lemma StepKeepsInv(s: Sys, t: nat)
    requires Inv(s) && t < |s.pcs| < U64 / 2
    ensures Inv(Step(s, t)) && |Step(s, t).pcs| == |s.pcs| && s.given <= Step(s, t).given
  {
    RollingBackUpdate(s.pcs, t, if s.pcs[t] == Idle then Rollback else Idle);
    if s.pcs[t] == Rollback {
      SomeoneRollsBack(s.pcs, t);
    }
  }

  /**
   * A call is answered by its first operation, with the next handle, while fewer than 10,000 are given,
   * and otherwise by its second, with no handle; and while no call is in between, the counter counts
   * the handles.
   */
  lemma CallsAreAnswered(s: Sys, t: nat)
    requires Inv(s) && t < |s.pcs| < U64 / 2
    ensures var s' := Step(s, t);
            var gives := s.pcs[t] == Idle && |s.given| < 10_000;
            && s'.given == s.given + (if gives then [|s.given| + 1] else [])
            && (s'.pcs[t] == Idle <==> gives || s.pcs[t] == Rollback)
    ensures RollingBack(s.pcs) == 0 ==> s.counter == |s.given|
  {
    if s.pcs[t] == Rollback {
      SomeoneRollsBack(s.pcs, t);
    }
  }

  ghost predicate Schedulable(threads: nat, schedule: seq<nat>) { forall i | 0 <= i < |schedule| :: schedule[i] < threads }

  ghost function Exec(s: Sys, schedule: seq<nat>): Sys
    requires Schedulable(|s.pcs|, schedule)
    decreases |schedule|
  {
    if schedule == [] then s else Exec(Step(s, schedule[0]), schedule[1..])
  }

  lemma {:induction false} RunKeepsInv(s: Sys, schedule: seq<nat>)
    requires Inv(s) && |s.pcs| < U64 / 2 && Schedulable(|s.pcs|, schedule)
    ensures Inv(Exec(s, schedule)) && s.given <= Exec(s, schedule).given
    decreases |schedule|
  {
    if schedule != [] {
      StepKeepsInv(s, schedule[0]);
      RunKeepsInv(Step(s, schedule[0]), schedule[1..]);
    }
  }

  lemma {:induction false} NobodyRollsBack(n: nat)
    ensures RollingBack(seq(n, i => Idle)) == 0
  {
    if n > 0 {
      var pcs := seq(n, i => Idle);
      assert pcs[1..] == seq(n - 1, i => Idle);
      NobodyRollsBack(n - 1);
    }
  }

  /**
   * However fetch-adds and rollback stores interleave, the handles given so far are exactly
   * 1, 2, ..., at most 10,000, each once; and once 10,000 are given no later step gives another.
   */
  lemma HandlesAreDistinctAndBounded(threads: nat, before: seq<nat>, after: seq<nat>)
    requires threads < U64 / 2 && Schedulable(threads, before) && Schedulable(threads, after)
    ensures var s := Exec(Sys(0, seq(threads, i => Idle), []), before);
            && |s.given| <= AGENT_REGISTRY_MAX
            && (forall i | 0 <= i < |s.given| :: s.given[i] == i + 1)
            && |s.pcs| == threads
            && (s.counter >= AGENT_REGISTRY_MAX ==> Exec(s, after).given == s.given)
  {
    NobodyRollsBack(threads);
    var s0 := Sys(0, seq(threads, i => Idle), []);
    RunKeepsInv(s0, before);
    ThreadsStay(s0, before);
    RunKeepsInv(Exec(s0, before), after);
  }

  lemma {:induction false} ThreadsStay(s: Sys, schedule: seq<nat>)
    requires Schedulable(|s.pcs|, schedule)
    ensures |Exec(s, schedule).pcs| == |s.pcs|
    decreases |schedule|
  {
    if schedule != [] {
      ThreadsStay(Step(s, schedule[0]), schedule[1..]);
    }
  }
}
