/** The event-sourced reflection room: values, operations and hash preimages. */
module RoomCore {
  import opened Words

  const ACTIVE_ENVELOPE_WINDOW: nat := 2000
  const GULPS_PER_CHECKPOINT: nat := 5
  const CHECKPOINTS_PER_SUPER_GULP: nat := 5
  const SUPER_DIVISOR: nat := GULPS_PER_CHECKPOINT * CHECKPOINTS_PER_SUPER_GULP
  const MIN_SELECTOR_DIMS: nat := 60

  type Sha = s: seq<byte> | |s| == 32 witness seq(32, i => 0)
  type Handle8 = s: seq<byte> | |s| == 8 witness seq(8, i => 0)

  /** SHA-256 as the room uses it: some function of the hashed bytes. */
  type Digest = seq<byte> -> Sha

  const GENESIS_SHA256: Sha :=
    [0, 0, 0, 0, 0, 0, 0, 0, 0, 0, 0, 0, 0, 0, 0, 0,
     0, 0, 0, 0, 0, 0, 0, 0, 0, 0, 0, 0, 0, 0, 0, 0]

  datatype RoomEventKind =
    TaskIn | WorkNote | ToolResult | TranslatedNote | SelfReflection | PeerReview | SupervisorControl | FinalResult
  {
    predicate RequiresParent() { TranslatedNote? || SelfReflection? || PeerReview? || FinalResult? }

    function Code(): byte {
      match this
      case TaskIn => 1
      case WorkNote => 2
      case ToolResult => 3
      case TranslatedNote => 4
      case SelfReflection => 5
      case PeerReview => 6
      case SupervisorControl => 7
      case FinalResult => 8
    }
  }

  datatype AuthorityState = Unverified | Measured | Canon | Held {
    function Code(): byte { match this case Unverified => 0 case Measured => 1 case Canon => 2 case Held => 3 }
  }

  datatype RecallAccessLevel = Public | Federation | OwnerPrivate {
    function Code(): byte { match this case Public => 0 case Federation => 5 case OwnerPrivate => 9 }
  }

  datatype PiiState = NoPii | KeyedConsented | UnknownPii {
    function Code(): byte { match this case NoPii => 0 case KeyedConsented => 1 case UnknownPii => 2 }
  }

  datatype BodyRef = BodyRef(offset: u64, length: u32, sha256: Sha)

  datatype EventDraft = EventDraft(
    kind: RoomEventKind,
    sourceHandle8: Handle8,
    sourcePid: Sha,
    targetHandle8: Handle8,
    targetPid: Sha,
    verb: Sha,
    timestampNs: u64,
    parent: Sha,
    body: BodyRef,
    selectorDims: u16,
    selectorTuple: Sha,
    authority: AuthorityState,
    accessLevel: RecallAccessLevel,
    piiState: PiiState,
    ownerPid: Sha,
    idempotencyKey: Sha)

  /** A committed event; a prepared event is one that has not been published yet. */
  datatype RoomEvent = RoomEvent(
    sequence: u64, roomHandle8: Handle8, roomId: Sha, previous: Sha, full: Sha, draft: EventDraft)

  datatype RoomHead = RoomHead(
    roomHandle8: Handle8, roomId: Sha, nextSequence: u64, head: Sha, activeEvents: nat, totalEvents: u64,
    totalGulps: u64, totalCheckpoints: u64, totalSuperGulps: u64)

  datatype CommitOutcome = Committed(event: RoomEvent) | Duplicate(event: RoomEvent)

  datatype GulpTier = Gulp2k | Checkpoint10k | SuperGulp50k {
    function Code(): byte { match this case Gulp2k => 1 case Checkpoint10k => 2 case SuperGulp50k => 3 }
  }

  datatype GulpSeal = GulpSeal(
    tier: GulpTier, sealedEvents: nat, cumulativeEvents: u64, gulpIndex: u64, checkpointIndex: u64,
    superGulpIndex: u64, roomHead: Sha, distilledProduct: Sha, seal: Sha)

  datatype RoomError =
    | RoomIdentityMissing | BodyMissing | BodyHashMissing | IdempotencyKeyMissing | SelectorTupleMissing
    | SelectorDimsTooSmall(observed: u16) | PiiRequiresOwnerPrivate | OwnerIdentityMissing | ParentMissing
    | ParentNotCommitted | ActiveWindowFull | StalePreparedEvent | SequenceOverflow
    | GulpNotReady(activeEvents: nat) | DistilledProductMissing

  datatype Room = Room(
    handle8: Handle8, roomId: Sha, nextSequence: u64, head: Sha, recent: seq<RoomEvent>,
    totalEvents: u64, totalGulps: u64)

  // ----- hash preimages

  function Ascii(s: string): seq<byte> {
    seq(|s|, i requires 0 <= i < |s| => if s[i] as int < 256 then s[i] as int else 0)
  }

  /** The chunks fed to the event digest, in order. */
  function EventChunks(roomId: Sha, handle8: Handle8, sequence: u64, previous: Sha, d: EventDraft): seq<seq<byte>> {
    [ Ascii("ASOLARIA-REFLECTION-ROOM-EVENT-V1"), roomId, handle8, BigEndian(sequence, 8), previous,
      [d.kind.Code()], d.sourceHandle8, d.sourcePid, d.targetHandle8, d.targetPid, d.verb,
      BigEndian(d.timestampNs, 8), d.parent, BigEndian(d.body.offset, 8), BigEndian(d.body.length, 4),
      d.body.sha256, BigEndian(d.selectorDims, 2), d.selectorTuple, [d.authority.Code()],
      [d.accessLevel.Code()], [d.piiState.Code()], d.ownerPid, d.idempotencyKey ]
  }

  function EventBytes(e: RoomEvent): seq<byte> {
    Flatten(EventChunks(e.roomId, e.roomHandle8, e.sequence, e.previous, e.draft))
  }

  function SealChunks(roomId: Sha, head: Sha, totalEvents: u64, gulpIndex: u64, tier: GulpTier, product: Sha)
    : seq<seq<byte>>
  {
    [ Ascii("ASOLARIA-REFLECTION-ROOM-GULP-SEAL-V1"), roomId, head, BigEndian(totalEvents, 8),
      BigEndian(gulpIndex, 8), [tier.Code()], product ]
  }

  function SealBytes(roomId: Sha, s: GulpSeal): seq<byte> {
    Flatten(SealChunks(roomId, s.roomHead, s.cumulativeEvents, s.gulpIndex, s.tier, s.distilledProduct))
  }

  // ----- operations

  function New(handle8: Handle8, roomId: Sha): Result<Room, RoomError> {
    if roomId == GENESIS_SHA256 then Err(RoomIdentityMissing)
    else Ok(Room(handle8, roomId, 1, GENESIS_SHA256, [], 0, 0))
  }

  function ReadCommittedHead(r: Room): RoomHead {
    RoomHead(r.handle8, r.roomId, r.nextSequence, r.head, |r.recent|, r.totalEvents, r.totalGulps,
             r.totalGulps / GULPS_PER_CHECKPOINT, r.totalGulps / SUPER_DIVISOR)
  }

  predicate KeyActive(recent: seq<RoomEvent>, key: Sha) {
    exists i | 0 <= i < |recent| :: recent[i].draft.idempotencyKey == key
  }

  /** The first active event carrying `key`. */
  function FindKey(recent: seq<RoomEvent>, key: Sha): (r: Option<RoomEvent>)
    ensures r.Some? <==> KeyActive(recent, key)
    ensures r.Some? ==> r.value in recent && r.value.draft.idempotencyKey == key
  {
    if recent == [] then None
    else if recent[0].draft.idempotencyKey == key then Some(recent[0])
    else
      assert forall i | 1 <= i < |recent| :: recent[i] == recent[1..][i - 1];
      FindKey(recent[1..], key)
  }

  predicate ParentKnown(r: Room, parent: Sha) {
    parent == r.head || exists i | 0 <= i < |r.recent| :: r.recent[i].full == parent
  }

  /** The first objection to a draft that does not depend on the room, or `None`. */
  function FieldObjection(d: EventDraft): Option<RoomError> {
    if d.body.length == 0 then Some(BodyMissing)
    else if d.body.sha256 == GENESIS_SHA256 then Some(BodyHashMissing)
    else if d.idempotencyKey == GENESIS_SHA256 then Some(IdempotencyKeyMissing)
    else if d.selectorTuple == GENESIS_SHA256 then Some(SelectorTupleMissing)
    else if d.selectorDims < MIN_SELECTOR_DIMS then Some(SelectorDimsTooSmall(d.selectorDims))
    else if d.accessLevel != OwnerPrivate && d.piiState != NoPii then Some(PiiRequiresOwnerPrivate)
    else if d.accessLevel == OwnerPrivate && d.ownerPid == GENESIS_SHA256 then Some(OwnerIdentityMissing)
    else if d.kind.RequiresParent() && d.parent == GENESIS_SHA256 then Some(ParentMissing)
    else None
  }

  /** The first objection to a draft, or `None`. */
  function ValidateDraft(r: Room, d: EventDraft): Option<RoomError> {
    if FieldObjection(d).Some? then FieldObjection(d)
    else if d.kind.RequiresParent() && !ParentKnown(r, d.parent) then Some(ParentNotCommitted)
    else None
  }

  function Prepare(sha256: Digest, r: Room, d: EventDraft): Result<RoomEvent, RoomError> {
    var objection := ValidateDraft(r, d);
    if objection.Some? then Err(objection.value)
    else if |r.recent| >= ACTIVE_ENVELOPE_WINDOW && !KeyActive(r.recent, d.idempotencyKey) then Err(ActiveWindowFull)
    else if r.nextSequence == U64 - 1 then Err(SequenceOverflow)
    else
      var full := sha256(Flatten(EventChunks(r.roomId, r.handle8, r.nextSequence, r.head, d)));
      Ok(RoomEvent(r.nextSequence, r.handle8, r.roomId, r.head, full, d))
  }

  /** The two overflow exits come after the event was pushed and the head moved, as in the original. */
  function Commit(r: Room, p: RoomEvent): (Room, Result<CommitOutcome, RoomError>) {
    var existing := FindKey(r.recent, p.draft.idempotencyKey);
    if existing.Some? then (r, Ok(Duplicate(existing.value)))
    else if |r.recent| >= ACTIVE_ENVELOPE_WINDOW then (r, Err(ActiveWindowFull))
    else if p.sequence != r.nextSequence || p.previous != r.head then (r, Err(StalePreparedEvent))
    else
      var r1 := r.(recent := r.recent + [p], head := p.full);
      if r.nextSequence == U64 - 1 then (r1, Err(SequenceOverflow))
      else
        var r2 := r1.(nextSequence := r.nextSequence + 1);
        if r.totalEvents == U64 - 1 then (r2, Err(SequenceOverflow))
        else (r2.(totalEvents := r.totalEvents + 1), Ok(Committed(p)))
  }

  // ----- what is prepared, committed and sealed, and why not

  predicate Absent(sha: Sha) { sha == GENESIS_SHA256 }

  /** The rule that a refusal names, as the draft and the room break it. */
  ghost predicate Breaks(r: Room, d: EventDraft, rule: RoomError) {
    match rule
    case BodyMissing => d.body.length == 0
    case BodyHashMissing => Absent(d.body.sha256)
    case IdempotencyKeyMissing => Absent(d.idempotencyKey)
    case SelectorTupleMissing => Absent(d.selectorTuple)
    case SelectorDimsTooSmall(observed) => d.selectorDims < 60 && observed == d.selectorDims
    case PiiRequiresOwnerPrivate => d.piiState != NoPii && d.accessLevel != OwnerPrivate
    case OwnerIdentityMissing => d.accessLevel == OwnerPrivate && Absent(d.ownerPid)
    case ParentMissing => NeedsParent(d) && Absent(d.parent)
    case ParentNotCommitted =>
      NeedsParent(d) && d.parent != r.head && forall i | 0 <= i < |r.recent| :: r.recent[i].full != d.parent
    case ActiveWindowFull =>
      |r.recent| >= 2000 && forall i | 0 <= i < |r.recent| :: r.recent[i].draft.idempotencyKey != d.idempotencyKey
    case SequenceOverflow => r.nextSequence == U64 - 1
    case _ => false
  }

  predicate NeedsParent(d: EventDraft) {
    d.kind in {TranslatedNote, SelfReflection, PeerReview, FinalResult}
  }

  /** The order in which the rules are checked. */
  function Rank(rule: RoomError): nat {
    match rule
    case BodyMissing => 1
    case BodyHashMissing => 2
    case IdempotencyKeyMissing => 3
    case SelectorTupleMissing => 4
    case SelectorDimsTooSmall(_) => 5
    case PiiRequiresOwnerPrivate => 6
    case OwnerIdentityMissing => 7
    case ParentMissing => 8
    case ParentNotCommitted => 9
    case ActiveWindowFull => 10
    case SequenceOverflow => 11
    case _ => 0
  }

  /** A draft is refused with the first rule it breaks. */
  lemma RefusedByFirstBrokenRule(sha256: Digest, r: Room, d: EventDraft, rule: RoomError)
    ensures Prepare(sha256, r, d) == Err(rule) <==>
            Breaks(r, d, rule) && forall other | Breaks(r, d, other) :: Rank(rule) <= Rank(other)
  {
    FirstFieldRule(r, d);
    var p := Prepare(sha256, r, d);
    hide FieldObjection, Flatten, EventChunks;
    if p.Err? {
      assert Breaks(r, d, p.error);
      assert Breaks(r, d, rule) && Rank(rule) == Rank(p.error) ==> rule == p.error;
    }
  }

  /** The rules on the draft's own fields come before those on the room. */
  lemma FirstFieldRule(r: Room, d: EventDraft)
    ensures match FieldObjection(d)
            case Some(rule) => Breaks(r, d, rule) && forall other | Breaks(r, d, other) :: Rank(rule) <= Rank(other)
            case None => forall other | Breaks(r, d, other) :: Rank(other) > 8
  {
  }

  /** A draft that breaks no rule is prepared on the head, and no other; the key of an active event passes a full window. */
  lemma PreparedIff(sha256: Digest, r: Room, d: EventDraft)
    ensures Prepare(sha256, r, d).Ok? <==>
            && d.body.length > 0 && !Absent(d.body.sha256) && !Absent(d.idempotencyKey)
            && !Absent(d.selectorTuple) && d.selectorDims >= 60
            && (d.piiState == NoPii || d.accessLevel == OwnerPrivate)
            && (d.accessLevel == OwnerPrivate ==> !Absent(d.ownerPid))
            && (NeedsParent(d) ==>
                  !Absent(d.parent) && (d.parent == r.head || exists i | 0 <= i < |r.recent| :: r.recent[i].full == d.parent))
            && (|r.recent| < 2000 || exists i | 0 <= i < |r.recent| :: r.recent[i].draft.idempotencyKey == d.idempotencyKey)
            && r.nextSequence < U64 - 1
    ensures Prepare(sha256, r, d).Ok? ==>
              var e := Prepare(sha256, r, d).value;
              && e.draft == d && e.sequence == r.nextSequence && e.previous == r.head
              && e.roomId == r.roomId && e.roomHandle8 == r.handle8 && e.full == sha256(EventBytes(e))
  {
  }

  /** When a window is sealed, and which error it gets when not. */
  lemma SealOutcomes(sha256: Digest, r: Room, product: Sha)
    ensures var (r', a) := SealGulp(sha256, r, product);
            && (a.Ok? <==> |r.recent| == 2000 && !Absent(product) && r.totalGulps < U64 - 1)
            && (a == Err(GulpNotReady(|r.recent|)) <==> |r.recent| != 2000)
            && (a == Err(DistilledProductMissing) <==> |r.recent| == 2000 && Absent(product))
            && (a == Err(SequenceOverflow) <==> |r.recent| == 2000 && !Absent(product) && r.totalGulps == U64 - 1)
            && (a.Err? ==> r' == r)
            && (a.Ok? ==> r' == r.(recent := [], totalGulps := r.totalGulps + 1) && a.value.distilledProduct == product)
  {
  }

  function TierOf(gulpIndex: nat): GulpTier {
    if gulpIndex % SUPER_DIVISOR == 0 then SuperGulp50k
    else if gulpIndex % GULPS_PER_CHECKPOINT == 0 then Checkpoint10k
    else Gulp2k
  }

  function SealGulp(sha256: Digest, r: Room, product: Sha): (Room, Result<GulpSeal, RoomError>) {
    if |r.recent| != ACTIVE_ENVELOPE_WINDOW then (r, Err(GulpNotReady(|r.recent|)))
    else if product == GENESIS_SHA256 then (r, Err(DistilledProductMissing))
    else if r.totalGulps == U64 - 1 then (r, Err(SequenceOverflow))
    else
      var g: u64 := r.totalGulps + 1;
      var tier := TierOf(g);
      var seal := sha256(Flatten(SealChunks(r.roomId, r.head, r.totalEvents, g, tier, product)));
      (r.(recent := [], totalGulps := g),
       Ok(GulpSeal(tier, ACTIVE_ENVELOPE_WINDOW, r.totalEvents, g, g / GULPS_PER_CHECKPOINT, g / SUPER_DIVISOR,
                   r.head, product, seal)))
  }

  // ----- the preimages are injective encodings

  /** What an event commits to: everything but its own digest. */
  ghost predicate SameContent(a: RoomEvent, b: RoomEvent) {
    a == b.(full := a.full)
  }

  lemma PowersOf256()
    ensures Pow256(2) == U16 && Pow256(4) == U32 && Pow256(8) == U64
  {
    assert Pow256(2) == 256 * Pow256(1) == 65536;
    assert Pow256(4) == 256 * Pow256(3) == 65536 * Pow256(2);
    assert Pow256(6) == 256 * Pow256(5) == 65536 * Pow256(4);
    assert Pow256(8) == 256 * Pow256(7) == 65536 * Pow256(6);
  }

  /** The event preimage determines every hashed field. */
  lemma EventBytesInjective(a: RoomEvent, b: RoomEvent)
    requires EventBytes(a) == EventBytes(b)
    ensures SameContent(a, b)
  {
    var x := EventChunks(a.roomId, a.roomHandle8, a.sequence, a.previous, a.draft);
    var y := EventChunks(b.roomId, b.roomHandle8, b.sequence, b.previous, b.draft);
    hide BigEndian, Flatten;
    FlattenInjective(x, y);
    PowersOf256();
    BigEndianInjective(a.sequence, b.sequence, 8) by { assert x[3] == y[3]; }
    BigEndianInjective(a.draft.timestampNs, b.draft.timestampNs, 8) by { assert x[11] == y[11]; }
    BigEndianInjective(a.draft.body.offset, b.draft.body.offset, 8) by { assert x[13] == y[13]; }
    BigEndianInjective(a.draft.body.length, b.draft.body.length, 4) by { assert x[14] == y[14]; }
    BigEndianInjective(a.draft.selectorDims, b.draft.selectorDims, 2) by { assert x[16] == y[16]; }
    assert a.draft.kind == b.draft.kind by { assert x[5][0] == y[5][0]; }
    assert a.draft.authority == b.draft.authority by { assert x[18][0] == y[18][0]; }
    assert a.draft.accessLevel == b.draft.accessLevel by { assert x[19][0] == y[19][0]; }
    assert a.draft.piiState == b.draft.piiState by { assert x[20][0] == y[20][0]; }
    assert a.roomId == b.roomId && a.roomHandle8 == b.roomHandle8 && a.previous == b.previous by {
      assert x[1] == y[1] && x[2] == y[2] && x[4] == y[4];
    }
    assert a.draft.sourceHandle8 == b.draft.sourceHandle8 && a.draft.sourcePid == b.draft.sourcePid
           && a.draft.targetHandle8 == b.draft.targetHandle8 && a.draft.targetPid == b.draft.targetPid by {
      assert x[6] == y[6] && x[7] == y[7] && x[8] == y[8] && x[9] == y[9];
    }
    assert a.draft.verb == b.draft.verb && a.draft.parent == b.draft.parent
           && a.draft.body.sha256 == b.draft.body.sha256 by {
      assert x[10] == y[10] && x[12] == y[12] && x[15] == y[15];
    }
    assert a.draft.selectorTuple == b.draft.selectorTuple && a.draft.ownerPid == b.draft.ownerPid
           && a.draft.idempotencyKey == b.draft.idempotencyKey by {
      assert x[17] == y[17] && x[21] == y[21] && x[22] == y[22];
    }
  }

  /** The seal preimage determines the room and every hashed field of the seal. */
  lemma SealBytesInjective(roomA: Sha, a: GulpSeal, roomB: Sha, b: GulpSeal)
    requires SealBytes(roomA, a) == SealBytes(roomB, b)
    ensures roomA == roomB && a.roomHead == b.roomHead && a.cumulativeEvents == b.cumulativeEvents
    ensures a.gulpIndex == b.gulpIndex && a.tier == b.tier && a.distilledProduct == b.distilledProduct
  {
    var x := SealChunks(roomA, a.roomHead, a.cumulativeEvents, a.gulpIndex, a.tier, a.distilledProduct);
    var y := SealChunks(roomB, b.roomHead, b.cumulativeEvents, b.gulpIndex, b.tier, b.distilledProduct);
    hide BigEndian, Flatten;
    FlattenInjective(x, y);
    PowersOf256();
    BigEndianInjective(a.cumulativeEvents, b.cumulativeEvents, 8) by { assert x[3] == y[3]; }
    BigEndianInjective(a.gulpIndex, b.gulpIndex, 8) by { assert x[4] == y[4]; }
    assert a.tier == b.tier by { assert x[5][0] == y[5][0]; }
    assert x[1] == y[1] && x[2] == y[2] && x[6] == y[6];
  }
}

/** The single-writer class, whose methods change the room in place. */
module ReflectionRoom {
  import opened Words
  import opened RoomCore

  class RoomWriter {
    const sha256: Digest
    const handle8: Handle8
    const roomId: Sha
    var nextSequence: u64
    var head: Sha
    var recent: seq<RoomEvent>
    var totalEvents: u64
    var totalGulps: u64

    function Abs(): Room
      reads this
    {
      Room(handle8, roomId, nextSequence, head, recent, totalEvents, totalGulps)
    }

    constructor Genesis(sha256: Digest, handle8: Handle8, roomId: Sha)
      ensures this.sha256 == sha256
      ensures Abs() == Room(handle8, roomId, 1, GENESIS_SHA256, [], 0, 0)
    {
      this.sha256, this.handle8, this.roomId := sha256, handle8, roomId;
      nextSequence, head, recent, totalEvents, totalGulps := 1, GENESIS_SHA256, [], 0, 0;
    }

    /** A new writer, unless the room identity is missing. */
    static method Create(sha256: Digest, handle8: Handle8, roomId: Sha) returns (r: Result<RoomWriter, RoomError>)
      ensures r.Err? <==> Absent(roomId)
      ensures r.Err? ==> r.error == RoomIdentityMissing
      ensures r.Ok? ==> fresh(r.value) && r.value.sha256 == sha256
                        && r.value.Abs() == Room(handle8, roomId, 1, GENESIS_SHA256, [], 0, 0)
                        && New(handle8, roomId) == Ok(r.value.Abs())
    {
      if roomId == GENESIS_SHA256 {
        return Err(RoomIdentityMissing);
      }
      var writer := new RoomWriter.Genesis(sha256, handle8, roomId);
      return Ok(writer);
    }

    method CommitPrepared(prepared: RoomEvent) returns (r: Result<CommitOutcome, RoomError>)
      modifies this
      ensures (Abs(), r) == Commit(old(Abs()), prepared)
    {
      var existing := FindKey(recent, prepared.draft.idempotencyKey);
      if existing.Some? {
        return Ok(Duplicate(existing.value));
      }
      if |recent| >= ACTIVE_ENVELOPE_WINDOW {
        return Err(ActiveWindowFull);
      }
      if prepared.sequence != nextSequence || prepared.previous != head {
        return Err(StalePreparedEvent);
      }
      recent := recent + [prepared];
      head := prepared.full;
      if nextSequence == U64 - 1 {
        return Err(SequenceOverflow);
      }
      nextSequence := nextSequence + 1;
      if totalEvents == U64 - 1 {
        return Err(SequenceOverflow);
      }
      totalEvents := totalEvents + 1;
      return Ok(Committed(prepared));
    }

    method Seal(distilledProduct: Sha) returns (r: Result<GulpSeal, RoomError>)
      modifies this
      ensures (Abs(), r) == SealGulp(sha256, old(Abs()), distilledProduct)
    {
      var active := |recent|;
      if active != ACTIVE_ENVELOPE_WINDOW {
        return Err(GulpNotReady(active));
      }
      if distilledProduct == GENESIS_SHA256 {
        return Err(DistilledProductMissing);
      }
      if totalGulps == U64 - 1 {
        return Err(SequenceOverflow);
      }
      var gulpIndex := totalGulps + 1;
      var tier := TierOf(gulpIndex);
      var seal := sha256(Flatten(SealChunks(roomId, head, totalEvents, gulpIndex, tier, distilledProduct)));
      r := Ok(GulpSeal(tier, ACTIVE_ENVELOPE_WINDOW, totalEvents, gulpIndex, gulpIndex / GULPS_PER_CHECKPOINT,
                       gulpIndex / SUPER_DIVISOR, head, distilledProduct, seal));
      recent := [];
      totalGulps := gulpIndex;
    }
  }

  /** Stops reflection echo after a run of low-novelty observations. */
  datatype NoveltyDecision =
    | Continue(noveltyBps: u16)
    | LowNovelty(noveltyBps: u16, run: nat)
    | Saturated(noveltyBps: u16, run: nat)

  datatype NoveltyError = EpsilonOutOfRange | ZeroSaturationLimit | SimilarityOutOfRange

  /** How many of the last accepted observations in `seen` were, without a break, below `epsilon`. */
  function LowTail(seen: seq<nat>, epsilon: nat): (n: nat)
    ensures n <= |seen|
    ensures forall i | |seen| - n <= i < |seen| :: seen[i] < epsilon
    ensures n < |seen| ==> seen[|seen| - n - 1] >= epsilon
  {
    if seen != [] && seen[|seen| - 1] < epsilon then 1 + LowTail(seen[..|seen| - 1], epsilon) else 0
  }

  lemma TailGrows(seen: seq<nat>, x: nat, epsilon: nat)
    ensures LowTail(seen + [x], epsilon) == if x < epsilon then LowTail(seen, epsilon) + 1 else 0
  {
    assert (seen + [x])[..|seen|] == seen;
  }

  class NoveltyGate {
    const epsilonBps: nat
    const saturationLimit: nat
    var lowNoveltyRun: nat
    /** The novelty of every accepted observation. */
    ghost var seen: seq<nat>

    ghost predicate Valid()
      reads this
    {
      epsilonBps <= 10_000 && 0 < saturationLimit < 256 && lowNoveltyRun == Min(LowTail(seen, epsilonBps), 255)
    }

    constructor Fresh(epsilonBps: nat, saturationLimit: nat)
      requires epsilonBps <= 10_000 && 0 < saturationLimit < 256
      ensures Valid() && seen == []
      ensures this.epsilonBps == epsilonBps && this.saturationLimit == saturationLimit
    {
      this.epsilonBps, this.saturationLimit, lowNoveltyRun, seen := epsilonBps, saturationLimit, 0, [];
    }

    /** A gate that has seen nothing, unless a parameter is out of range; epsilon is checked first. */
    static method Create(epsilonBps: u16, saturationLimit: byte) returns (r: Result<NoveltyGate, NoveltyError>)
      ensures r == Err(EpsilonOutOfRange) <==> epsilonBps > 10_000
      ensures r == Err(ZeroSaturationLimit) <==> epsilonBps <= 10_000 && saturationLimit == 0
      ensures r.Err? ==> r.error != SimilarityOutOfRange
      ensures r.Ok? ==> fresh(r.value) && r.value.Valid() && r.value.seen == []
                        && r.value.epsilonBps == epsilonBps && r.value.saturationLimit == saturationLimit
    {
      if epsilonBps > 10_000 {
        return Err(EpsilonOutOfRange);
      }
      if saturationLimit == 0 {
        return Err(ZeroSaturationLimit);
      }
      var gate := new NoveltyGate.Fresh(epsilonBps, saturationLimit);
      return Ok(gate);
    }

    /** Saturates exactly when the last `saturationLimit` accepted observations were all low. */
    method ObserveSimilarity(similarityBps: u16) returns (r: Result<NoveltyDecision, NoveltyError>)
      requires Valid()
      modifies this
      ensures Valid()
      ensures similarityBps > 10_000 <==> r == Err(SimilarityOutOfRange)
      ensures seen == if r.Ok? then old(seen) + [10_000 - similarityBps] else old(seen)
      ensures r.Ok? ==>
                && r.value.noveltyBps == 10_000 - similarityBps
                && (r.value.Saturated? <==> LowTail(seen, epsilonBps) >= saturationLimit)
                && (r.value.Continue? <==> LowTail(seen, epsilonBps) == 0)
                && (!r.value.Continue? ==> r.value.run == Min(LowTail(seen, epsilonBps), 255))
    {
      if similarityBps > 10_000 {
        return Err(SimilarityOutOfRange);
      }
      var noveltyBps: u16 := 10_000 - similarityBps;
      hide LowTail;
      var low := CountLow(noveltyBps);
      if low {
        if lowNoveltyRun >= saturationLimit {
          return Ok(Saturated(noveltyBps, lowNoveltyRun));
        }
        return Ok(LowNovelty(noveltyBps, lowNoveltyRun));
      }
      return Ok(Continue(noveltyBps));
    }

    /** The run of low observations, counted on eight bits; anything else ends it. */
    method CountLow(noveltyBps: nat) returns (low: bool)
      requires Valid()
      modifies this
      ensures Valid() && seen == old(seen) + [noveltyBps]
      ensures low <==> LowTail(seen, epsilonBps) > 0
    {
      TailGrows(seen, noveltyBps, epsilonBps);
      hide LowTail;
      seen := seen + [noveltyBps];
      low := noveltyBps < epsilonBps;
      lowNoveltyRun := if low then Min(lowNoveltyRun + 1, 255) else 0;
    }
  }
}

/** Whole runs of one room, with clients that keep prepared events for as long as they like. */
module RoomHistory {
  import opened Words
  import opened RoomCore

  /** The room, everything ever committed, every event ever prepared, and every seal returned. */
  datatype World = World(room: Room, log: seq<RoomEvent>, issued: seq<RoomEvent>, seals: seq<GulpSeal>)

  /** Clients may commit any prepared event at any time, again and again. */
  datatype Action =
    | DoPrepare(draft: EventDraft)
    | DoCommit(token: nat)
    | DoSeal(product: Sha)

  predicate Enabled(w: World, a: Action) { a.DoCommit? ==> a.token < |w.issued| }

  function Apply(sha256: Digest, w: World, a: Action): World
    requires Enabled(w, a)
  {
    match a
    case DoPrepare(d) =>
      var r := Prepare(sha256, w.room, d);
      if r.Ok? then w.(issued := w.issued + [r.value]) else w
    case DoCommit(i) =>
      var (room', r) := Commit(w.room, w.issued[i]);
      World(room', if r.Ok? && r.value.Committed? then w.log + [r.value.event] else w.log, w.issued, w.seals)
    case DoSeal(product) =>
      var (room', r) := SealGulp(sha256, w.room, product);
      World(room', w.log, w.issued, if r.Ok? then w.seals + [r.value] else w.seals)
  }

  /** The head after the first `n` events of a log. */
  function HeadOf(log: seq<RoomEvent>, n: nat): Sha
    requires n <= |log|
  {
    if n == 0 then GENESIS_SHA256 else log[n - 1].full
  }

  // ----- the invariant

  ghost predicate Accounting(w: World) {
    var r := w.room;
    && r.totalEvents == |w.log|
    && r.nextSequence == |w.log| + 1
    && |r.recent| <= ACTIVE_ENVELOPE_WINDOW
    && |w.log| == ACTIVE_ENVELOPE_WINDOW * r.totalGulps + |r.recent|
    && r.recent == w.log[ACTIVE_ENVELOPE_WINDOW * r.totalGulps..]
    && |w.seals| == r.totalGulps
  }

  /** An event built by this room on the first `sequence - 1` events of `log`. */
  ghost predicate BuiltOn(sha256: Digest, room: Room, log: seq<RoomEvent>, e: RoomEvent) {
    && 1 <= e.sequence <= |log| + 1
    && e.roomId == room.roomId
    && e.roomHandle8 == room.handle8
    && e.previous == HeadOf(log, e.sequence - 1)
    && e.full == sha256(EventBytes(e))
    && FieldObjection(e.draft) == None
    && ParentCited(log, e)
  }

  /** The parent an event has to have is committed before the event's own place in the log. */
  ghost predicate ParentCited(log: seq<RoomEvent>, e: RoomEvent)
    requires 1 <= e.sequence <= |log| + 1
  {
    e.draft.kind.RequiresParent() ==> exists k | 0 <= k < e.sequence - 1 :: log[k].full == e.draft.parent
  }

  ghost predicate InPlace(sha256: Digest, room: Room, log: seq<RoomEvent>, i: nat) {
    i < |log| && log[i].sequence == i + 1 && BuiltOn(sha256, room, log, log[i])
  }

  ghost predicate Chained(sha256: Digest, room: Room, log: seq<RoomEvent>) {
    forall i: nat | i < |log| :: InPlace(sha256, room, log, i)
  }

  ghost predicate TokenOk(sha256: Digest, w: World, i: nat) {
    i < |w.issued| && BuiltOn(sha256, w.room, w.log, w.issued[i]) && w.issued[i].sequence < U64 - 1
  }

  ghost predicate DistinctKeys(recent: seq<RoomEvent>) {
    forall i, j | 0 <= i < j < |recent| :: recent[i].draft.idempotencyKey != recent[j].draft.idempotencyKey
  }

  ghost predicate SealOk(sha256: Digest, room: Room, log: seq<RoomEvent>, n: nat, s: GulpSeal) {
    var blockEnd := ACTIVE_ENVELOPE_WINDOW * (n + 1);
    && blockEnd <= |log|
    && s.gulpIndex == n + 1
    && s.sealedEvents == ACTIVE_ENVELOPE_WINDOW
    && s.cumulativeEvents == blockEnd
    && s.tier == TierOf(n + 1)
    && s.checkpointIndex == (n + 1) / 5
    && s.superGulpIndex == (n + 1) / 25
    && s.distilledProduct != GENESIS_SHA256
    && s.roomHead == HeadOf(log, blockEnd)
    && s.seal == sha256(SealBytes(room.roomId, s))
  }

  ghost predicate Inv(sha256: Digest, w: World) {
    && Accounting(w)
    && w.room.head == HeadOf(w.log, |w.log|)
    && Chained(sha256, w.room, w.log)
    && DistinctKeys(w.room.recent)
    && (forall i: nat | i < |w.issued| :: TokenOk(sha256, w, i))
    && (forall n | 0 <= n < |w.seals| :: SealOk(sha256, w.room, w.log, n, w.seals[n]))
  }

  /** What an event was built on stays true when the log grows or a seal clears the window. */
  lemma BuiltOnIsStable(sha256: Digest, room: Room, log: seq<RoomEvent>, next: RoomEvent, room': Room, e: RoomEvent)
    requires BuiltOn(sha256, room, log, e)
    requires room'.roomId == room.roomId && room'.handle8 == room.handle8
    ensures BuiltOn(sha256, room', log, e)
    ensures BuiltOn(sha256, room', log + [next], e)
  {
    if e.draft.kind.RequiresParent() {
      var k :| 0 <= k < e.sequence - 1 && log[k].full == e.draft.parent;
      assert (log + [next])[k].full == e.draft.parent;
    }
  }

  lemma PrepareKeepsInv(sha256: Digest, w: World, d: EventDraft)
    requires Inv(sha256, w)
    ensures Inv(sha256, Apply(sha256, w, DoPrepare(d)))
  {
    var r := Prepare(sha256, w.room, d);
    if r.Ok? {
      PreparedIsBuiltOn(sha256, w, d);
      var w' := Apply(sha256, w, DoPrepare(d));
      forall i: nat | i < |w'.issued| ensures TokenOk(sha256, w', i) {
        assert i < |w.issued| ==> TokenOk(sha256, w, i);
      }
    }
  }

  lemma PreparedIsBuiltOn(sha256: Digest, w: World, d: EventDraft)
    requires Inv(sha256, w) && Prepare(sha256, w.room, d).Ok?
    ensures BuiltOn(sha256, w.room, w.log, Prepare(sha256, w.room, d).value)
  {
    hide Chained, TokenOk, SealOk, DistinctKeys;
    var e := Prepare(sha256, w.room, d).value;
    assert e.full == sha256(EventBytes(e));
    if d.kind.RequiresParent() {
      if d.parent == w.room.head {
        assert w.log[|w.log| - 1].full == d.parent;
      } else {
        var i :| 0 <= i < |w.room.recent| && w.room.recent[i].full == d.parent;
        assert w.log[ACTIVE_ENVELOPE_WINDOW * w.room.totalGulps + i].full == d.parent;
      }
    }
  }

  /** A token whose sequence is due was built on the current head. */
  lemma DueTokenIsCurrent(sha256: Digest, w: World, token: nat)
    requires Inv(sha256, w) && token < |w.issued|
    ensures w.issued[token].sequence < U64 - 1
    ensures w.issued[token].sequence == w.room.nextSequence ==> w.issued[token].previous == w.room.head
  {
    assert TokenOk(sha256, w, token);
  }

  lemma CommitKeepsInv(sha256: Digest, w: World, token: nat)
    requires Inv(sha256, w) && token < |w.issued|
    ensures Inv(sha256, Apply(sha256, w, DoCommit(token)))
  {
    var p := w.issued[token];
    var w' := Apply(sha256, w, DoCommit(token));
    DueTokenIsCurrent(sha256, w, token);
    if w' != w {
      CommitExtends(sha256, w, token);
      assert TokenOk(sha256, w, token);
      forall i: nat | i < |w'.log| ensures InPlace(sha256, w'.room, w'.log, i) {
        assert i < |w.log| ==> InPlace(sha256, w.room, w.log, i);
        BuiltOnIsStable(sha256, w.room, w.log, p, w'.room, w'.log[i]);
      }
      forall i: nat | i < |w.issued| ensures TokenOk(sha256, w', i) {
        assert TokenOk(sha256, w, i);
        BuiltOnIsStable(sha256, w.room, w.log, p, w'.room, w.issued[i]);
      }
    }
  }

  /** Exactly what a commit that changes the room does to it. */
  lemma CommitExtends(sha256: Digest, w: World, token: nat)
    requires Inv(sha256, w) && token < |w.issued| && Apply(sha256, w, DoCommit(token)) != w
    ensures var p, w' := w.issued[token], Apply(sha256, w, DoCommit(token));
            && p.sequence == |w.log| + 1 && p.previous == w.room.head
            && w'.log == w.log + [p] && w'.issued == w.issued && w'.seals == w.seals
            && w'.room.roomId == w.room.roomId && w'.room.handle8 == w.room.handle8
            && w'.room.head == p.full
            && Accounting(w')
            && DistinctKeys(w'.room.recent)
            && forall n | 0 <= n < |w.seals| :: SealOk(sha256, w'.room, w'.log, n, w.seals[n])
  {
    hide Chained, TokenOk;
    var p := w.issued[token];
    DueTokenIsCurrent(sha256, w, token);
    assert !KeyActive(w.room.recent, p.draft.idempotencyKey);
  }

  lemma SealKeepsInv(sha256: Digest, w: World, product: Sha)
    requires Inv(sha256, w)
    ensures Inv(sha256, Apply(sha256, w, DoSeal(product)))
  {
    hide Accounting, SealOk, DistinctKeys, BuiltOn;
    var w' := Apply(sha256, w, DoSeal(product));
    assert w'.log == w.log && w'.issued == w.issued;
    SealKeepsAccounting(sha256, w, product);
    forall i: nat | i < |w.log| ensures InPlace(sha256, w'.room, w'.log, i) {
      assert InPlace(sha256, w.room, w.log, i);
      BuiltOnIsStable(sha256, w.room, w.log, w.log[i], w'.room, w.log[i]);
    }
    forall i: nat | i < |w.issued| ensures TokenOk(sha256, w', i) {
      assert TokenOk(sha256, w, i);
      BuiltOnIsStable(sha256, w.room, w.log, w.issued[i], w'.room, w.issued[i]);
    }
  }

  lemma SealKeepsAccounting(sha256: Digest, w: World, product: Sha)
    requires Inv(sha256, w)
    ensures var w' := Apply(sha256, w, DoSeal(product));
            && Accounting(w')
            && w'.room.head == HeadOf(w.log, |w.log|)
            && DistinctKeys(w'.room.recent)
            && forall n | 0 <= n < |w'.seals| :: SealOk(sha256, w'.room, w'.log, n, w'.seals[n])
  {
    var w' := Apply(sha256, w, DoSeal(product));
    SealKeepsCounters(sha256, w, product);
    if w'.seals != w.seals {
      NewSealIsOk(sha256, w, product);
    }
    hide Accounting, Chained, DistinctKeys, HeadOf;
    forall n | 0 <= n < |w'.seals| ensures SealOk(sha256, w'.room, w'.log, n, w'.seals[n]) {
      assert n < |w.seals| ==> SealOk(sha256, w.room, w.log, n, w.seals[n]);
    }
  }

  lemma SealKeepsCounters(sha256: Digest, w: World, product: Sha)
    requires Inv(sha256, w)
    ensures var w' := Apply(sha256, w, DoSeal(product));
            && Accounting(w')
            && w'.room.head == HeadOf(w.log, |w.log|)
            && DistinctKeys(w'.room.recent)
            && w'.log == w.log && w'.room.roomId == w.room.roomId
            && (w'.seals == w.seals || (|w'.seals| == |w.seals| + 1 && w.seals <= w'.seals))
  {
    hide Chained, SealOk, SealChunks, TierOf;
  }

  lemma NewSealIsOk(sha256: Digest, w: World, product: Sha)
    requires Inv(sha256, w) && SealGulp(sha256, w.room, product).1.Ok?
    ensures SealOk(sha256, w.room, w.log, |w.seals|, SealGulp(sha256, w.room, product).1.value)
  {
    hide Chained, DistinctKeys, SealChunks, TierOf;
  }

  // ----- whole runs

  ghost predicate Runs(sha256: Digest, w: World, acts: seq<Action>)
    decreases acts
  {
    acts == [] || (Enabled(w, acts[0]) && Runs(sha256, Apply(sha256, w, acts[0]), acts[1..]))
  }

  ghost function Exec(sha256: Digest, w: World, acts: seq<Action>): World
    requires Runs(sha256, w, acts)
    decreases acts
  {
    if acts == [] then w else Exec(sha256, Apply(sha256, w, acts[0]), acts[1..])
  }

  lemma ActionKeepsInv(sha256: Digest, w: World, a: Action)
    requires Inv(sha256, w) && Enabled(w, a)
    ensures Inv(sha256, Apply(sha256, w, a))
    ensures w.log <= Apply(sha256, w, a).log && w.issued <= Apply(sha256, w, a).issued
  {
    hide Inv;
    match a {
      case DoPrepare(d) => PrepareKeepsInv(sha256, w, d);
      case DoCommit(i) => CommitKeepsInv(sha256, w, i);
      case DoSeal(product) => SealKeepsInv(sha256, w, product);
    }
  }

  lemma {:induction false} RunKeepsInv(sha256: Digest, w: World, acts: seq<Action>)
    requires Inv(sha256, w) && Runs(sha256, w, acts)
    ensures Inv(sha256, Exec(sha256, w, acts))
    ensures w.log <= Exec(sha256, w, acts).log && w.issued <= Exec(sha256, w, acts).issued
    decreases acts
  {
    hide Inv, Enabled, Apply;
    if acts != [] {
      ActionKeepsInv(sha256, w, acts[0]);
      RunKeepsInv(sha256, Apply(sha256, w, acts[0]), acts[1..]);
    }
  }

  lemma NewRoomIsInv(sha256: Digest, handle8: Handle8, roomId: Sha)
    requires New(handle8, roomId).Ok?
    ensures Inv(sha256, World(New(handle8, roomId).value, [], [], []))
  {
  }

  /**
   * Every run of a room, whatever old prepared events its clients hold: the counters account for
   * the whole log, the window is its tail, every event is the successor of the one before it and
   * cites an earlier parent if its kind needs one, and active idempotency keys differ.
   */
  lemma RunsAccountForTheWholeLog(sha256: Digest, handle8: Handle8, roomId: Sha, acts: seq<Action>)
    requires New(handle8, roomId).Ok?
    requires Runs(sha256, World(New(handle8, roomId).value, [], [], []), acts)
    ensures var w := Exec(sha256, World(New(handle8, roomId).value, [], [], []), acts);
            var h := ReadCommittedHead(w.room);
            && h.totalEvents == |w.log| == ACTIVE_ENVELOPE_WINDOW * h.totalGulps + h.activeEvents
            && h.nextSequence == h.totalEvents + 1
            && h.activeEvents <= ACTIVE_ENVELOPE_WINDOW
            && h.head == HeadOf(w.log, |w.log|)
            && w.room.recent == w.log[|w.log| - h.activeEvents..]
            && DistinctKeys(w.room.recent)
            && forall i: nat | i < |w.log| :: InPlace(sha256, w.room, w.log, i)
  {
    NewRoomIsInv(sha256, handle8, roomId);
    RunKeepsInv(sha256, World(New(handle8, roomId).value, [], [], []), acts);
  }

  /** No run logs an event that breaks a field rule; in particular none lets personal data out of the owner's reach. */
  lemma LoggedEventsKeepTheRules(sha256: Digest, handle8: Handle8, roomId: Sha, acts: seq<Action>, i: nat)
    requires New(handle8, roomId).Ok?
    requires Runs(sha256, World(New(handle8, roomId).value, [], [], []), acts)
    requires i < |Exec(sha256, World(New(handle8, roomId).value, [], [], []), acts).log|
    ensures var d := Exec(sha256, World(New(handle8, roomId).value, [], [], []), acts).log[i].draft;
            && (d.piiState == NoPii || d.accessLevel == OwnerPrivate)
            && (d.accessLevel == OwnerPrivate ==> !Absent(d.ownerPid))
            && d.body.length > 0 && !Absent(d.body.sha256) && !Absent(d.idempotencyKey)
            && d.selectorDims >= 60 && !Absent(d.selectorTuple)
            && (NeedsParent(d) ==> !Absent(d.parent))
  {
    hide Inv, Apply;
    NewRoomIsInv(sha256, handle8, roomId);
    var w0 := World(New(handle8, roomId).value, [], [], []);
    RunKeepsInv(sha256, w0, acts);
    var w := Exec(sha256, w0, acts);
    RoomOf(sha256, w);
    LoggedFields(sha256, w.room, w.log, i);
  }

  /** What is prepared and committed at once is published, unless its key is active. */
  lemma PreparedIsCommitted(sha256: Digest, w: World, d: EventDraft)
    requires Inv(sha256, w) && Prepare(sha256, w.room, d).Ok?
    ensures var w1 := Apply(sha256, w, DoPrepare(d));
            && |w1.issued| == |w.issued| + 1
            && var w2, e := Apply(sha256, w1, DoCommit(|w.issued|)), w1.issued[|w.issued|];
               && e.draft == d
               && w2.log == if KeyActive(w.room.recent, d.idempotencyKey) then w.log else w.log + [e]
  {
    RecentIsTail(sha256, w);
    PreparedIff(sha256, w.room, d);
    var e := Prepare(sha256, w.room, d).value;
    CommitsExactly(w.room, e);
    CommittedIsLogged(w.room, e);
    hide Inv, Prepare, Commit;
    var w1 := w.(issued := w.issued + [e]);
    assert Apply(sha256, w, DoPrepare(d)) == w1;
    assert w1.issued[|w.issued|] == e;
  }

  lemma CommittedIsLogged(r: Room, e: RoomEvent)
    ensures var a := Commit(r, e).1; a.Ok? && a.value.Committed? ==> a.value.event == e
  {
  }

  /** Once a token is committed, no token prepared on the same head or an earlier one ever is again. */
  lemma CompetitorsLose(sha256: Digest, w: World, winner: nat, loser: nat, acts: seq<Action>)
    requires Inv(sha256, w) && winner < |w.issued| && loser < |w.issued|
    requires w.issued[loser].sequence <= w.issued[winner].sequence
    requires Commit(w.room, w.issued[winner]).1 == Ok(Committed(w.issued[winner]))
    requires Runs(sha256, Apply(sha256, w, DoCommit(winner)), acts)
    ensures var w' := Exec(sha256, Apply(sha256, w, DoCommit(winner)), acts);
            && |w'.issued| >= |w.issued| && w'.issued[loser] == w.issued[loser]
            && !(Commit(w'.room, w'.issued[loser]).1.Ok? && Commit(w'.room, w'.issued[loser]).1.value.Committed?)
            && Apply(sha256, w', DoCommit(loser)) == w'
  {
    CommitOutcomes(sha256, w, winner);
    CommitKeepsInv(sha256, w, winner);
    var w1 := Apply(sha256, w, DoCommit(winner));
    assert w1.issued == w.issued;
    RunKeepsInv(sha256, w1, acts);
    var w' := Exec(sha256, w1, acts);
    CommitOutcomes(sha256, w', loser);
    RoomOf(sha256, w);
    RoomOf(sha256, w');
    CommittedIsLogged(w'.room, w'.issued[loser]);
    hide Inv, Commit, Apply;
  }

  /** A room of a run seals exactly a full window with a product: its counters never run out. */
  lemma FullWindowsAreSealed(sha256: Digest, w: World, product: Sha)
    requires Inv(sha256, w)
    ensures SealGulp(sha256, w.room, product).1.Ok? <==> |w.room.recent| == 2000 && !Absent(product)
    ensures var w' := Apply(sha256, w, DoSeal(product));
            if |w.room.recent| == 2000 && !Absent(product)
            then
              && w'.room.recent == [] && w'.seals[..|w.seals|] == w.seals
              && |w'.seals| == |w.seals| + 1 && w'.seals[|w.seals|].distilledProduct == product
            else w' == w
  {
    SealOutcomes(sha256, w.room, product);
    hide Chained, DistinctKeys, HeadOf;
  }

  /** The products of the seals that succeed in a run. */
  ghost function Sealed(sha256: Digest, w: World, acts: seq<Action>): seq<Sha>
    requires Runs(sha256, w, acts)
    decreases acts
  {
    if acts == [] then []
    else (if acts[0].DoSeal? && |w.room.recent| == 2000 && !Absent(acts[0].product) then [acts[0].product] else [])
         + Sealed(sha256, Apply(sha256, w, acts[0]), acts[1..])
  }

  function ProductsOf(seals: seq<GulpSeal>): seq<Sha> {
    seq(|seals|, i requires 0 <= i < |seals| => seals[i].distilledProduct)
  }

  lemma ActionSeals(sha256: Digest, w: World, a: Action)
    requires Inv(sha256, w) && Enabled(w, a)
    ensures ProductsOf(Apply(sha256, w, a).seals)
            == ProductsOf(w.seals)
               + (if a.DoSeal? && |w.room.recent| == 2000 && !Absent(a.product) then [a.product] else [])
  {
    hide Inv, Prepare, Commit, SealGulp;
    if a.DoSeal? {
      FullWindowsAreSealed(sha256, w, a.product);
      var w' := Apply(sha256, w, a);
      assert forall i | 0 <= i < |w.seals| :: w'.seals[i] == w'.seals[..|w.seals|][i] || w' == w;
    }
  }

  lemma {:induction false} RunSeals(sha256: Digest, w: World, acts: seq<Action>)
    requires Inv(sha256, w) && Runs(sha256, w, acts)
    ensures ProductsOf(Exec(sha256, w, acts).seals) == ProductsOf(w.seals) + Sealed(sha256, w, acts)
    decreases acts
  {
    hide Inv, Apply, Enabled, ProductsOf;
    if acts != [] {
      ActionKeepsInv(sha256, w, acts[0]);
      ActionSeals(sha256, w, acts[0]);
      RunSeals(sha256, Apply(sha256, w, acts[0]), acts[1..]);
    }
  }

  /**
   * Every seal of a run carries the product it was given, which is never the absent one, and its
   * checkpoint and super-gulp indexes are the numbers of fifth and of twenty-fifth seals up to it.
   */
  lemma SealsOfRuns(sha256: Digest, handle8: Handle8, roomId: Sha, acts: seq<Action>, n: nat)
    requires New(handle8, roomId).Ok?
    requires Runs(sha256, World(New(handle8, roomId).value, [], [], []), acts)
    requires n < |Exec(sha256, World(New(handle8, roomId).value, [], [], []), acts).seals|
    ensures var w0 := World(New(handle8, roomId).value, [], [], []);
            var seals := Exec(sha256, w0, acts).seals;
            var upTo := seals[..n + 1];
            && |Sealed(sha256, w0, acts)| == |seals|
            && seals[n].distilledProduct == Sealed(sha256, w0, acts)[n] && !Absent(seals[n].distilledProduct)
            && seals[n].gulpIndex == n + 1
            && seals[n].cumulativeEvents == 2000 * (n + 1)
            && seals[n].superGulpIndex == CountTier(upTo, SuperGulp50k)
            && seals[n].checkpointIndex == CountTier(upTo, SuperGulp50k) + CountTier(upTo, Checkpoint10k)
  {
    NewRoomIsInv(sha256, handle8, roomId);
    var w0 := World(New(handle8, roomId).value, [], [], []);
    RunKeepsInv(sha256, w0, acts);
    RunSeals(sha256, w0, acts);
    var w := Exec(sha256, w0, acts);
    hide Accounting, Chained, DistinctKeys, HeadOf;
    forall m | 0 <= m < |w.seals| ensures SealOk(sha256, w.room, w.log, m, w.seals[m]) {}
    var upTo := w.seals[..n + 1];
    assert forall m | 0 <= m < |upTo| :: upTo[m] == w.seals[m];
    SealsFormHierarchy(upTo);
    assert ProductsOf(w0.seals) == [];
    assert w.seals[n].distilledProduct == ProductsOf(w.seals)[n];
  }

  /**
   * Committing any prepared event, however old, has one of three outcomes. It is a duplicate
   * exactly when its key is active; it extends the log exactly when it was built on the current
   * head of a window with room; otherwise it is refused. Only the second changes the room.
   */
  lemma CommitOutcomes(sha256: Digest, w: World, token: nat)
    requires Inv(sha256, w) && token < |w.issued|
    ensures var p, w' := w.issued[token], Apply(sha256, w, DoCommit(token));
            var r := Commit(w.room, p).1;
            && (r.Ok? && r.value.Duplicate? <==> KeyActive(w.room.recent, p.draft.idempotencyKey))
            && (r.Ok? && r.value.Duplicate? ==>
                  r.value.event in w.room.recent && r.value.event.draft.idempotencyKey == p.draft.idempotencyKey)
            && (r == Ok(Committed(p)) <==>
                && !KeyActive(w.room.recent, p.draft.idempotencyKey)
                && |w.room.recent| < ACTIVE_ENVELOPE_WINDOW
                && p.sequence == w.room.nextSequence)
            && (r == Ok(Committed(p)) ==>
                  p.previous == w.room.head && w'.room.head == p.full && w'.log == w.log + [p])
            && (r != Ok(Committed(p)) ==> w' == w)
            && (r == Err(ActiveWindowFull) <==>
                !KeyActive(w.room.recent, p.draft.idempotencyKey) && |w.room.recent| == 2000)
            && (r == Err(StalePreparedEvent) <==>
                && !KeyActive(w.room.recent, p.draft.idempotencyKey)
                && |w.room.recent| < 2000
                && p.sequence != w.room.nextSequence)
            && (r.Err? ==> r.error == ActiveWindowFull || r.error == StalePreparedEvent)
  {
    DueTokenIsCurrent(sha256, w, token);
  }

  /**
   * For an arbitrary event a refused commit can leave the room changed: exactly when a counter is
   * at its maximum. `prepare` never issues such an event, so no run of a room gets there.
   */
  lemma RefusedCommitChangesRoomIff(r: Room, p: RoomEvent)
    ensures Commit(r, p).1.Err? && Commit(r, p).0 != r <==>
            && !KeyActive(r.recent, p.draft.idempotencyKey)
            && |r.recent| < ACTIVE_ENVELOPE_WINDOW
            && p.sequence == r.nextSequence && p.previous == r.head
            && (r.nextSequence == U64 - 1 || r.totalEvents == U64 - 1)
    ensures Commit(r, p).1.Err? && Commit(r, p).0 != r ==>
              && Commit(r, p).1 == Err(SequenceOverflow)
              && Commit(r, p).0.recent == r.recent + [p] && Commit(r, p).0.head == p.full
  {
    assert |Commit(r, p).0.recent| == |r.recent| || Commit(r, p).0.recent == r.recent + [p];
  }

  /** Idempotency lasts exactly as long as the window. Once a seal has cleared it, a draft that was
   *  valid before and whose key is already in the log can be prepared again exactly if it needs no
   *  parent or cites the head, and the commit then publishes its key a second time.
   */
  lemma KeyReturnsAfterSeal(sha256: Digest, w: World, product: Sha, d: EventDraft)
    requires Inv(sha256, w) && SealGulp(sha256, w.room, product).1.Ok? && |w.log| + 2 < U64
    requires KeyActive(w.room.recent, d.idempotencyKey) && ValidateDraft(w.room, d) == None
    ensures var w1 := Apply(sha256, w, DoSeal(product));
            var w2 := Apply(sha256, w1, DoPrepare(d));
            && (Prepare(sha256, w1.room, d).Ok? <==> !d.kind.RequiresParent() || d.parent == w.room.head)
            && (Prepare(sha256, w1.room, d).Ok? ==>
                  && |w2.issued| == |w.issued| + 1
                  && PublishedTwice(w.log, Apply(sha256, w2, DoCommit(|w.issued|)).log, d))
  {
    var w1 := Apply(sha256, w, DoSeal(product));
    SealClears(sha256, w, product);
    EmptyRoomPrepares(sha256, w.room, w1.room, d);
    ActiveKeyIsLogged(sha256, w, d.idempotencyKey);
    hide Inv, ValidateDraft, SealGulp;
    var r := Prepare(sha256, w1.room, d);
    if r.Ok? {
      EmptyRoomCommits(w1.room, r.value);
      hide Prepare, Commit;
      var w2 := w1.(issued := w.issued + [r.value]);
      assert Apply(sha256, w1, DoPrepare(d)) == w2;
      assert w2.issued[|w.issued|] == r.value;
      assert Apply(sha256, w2, DoCommit(|w.issued|)).log == w.log + [r.value];
      AppendPublishesTwice(w.log, r.value);
    }
  }

  lemma AppendPublishesTwice(log: seq<RoomEvent>, e: RoomEvent)
    requires exists i | 0 <= i < |log| :: log[i].draft.idempotencyKey == e.draft.idempotencyKey
    ensures PublishedTwice(log, log + [e], e.draft)
  {
    var i :| 0 <= i < |log| && log[i].draft.idempotencyKey == e.draft.idempotencyKey;
    assert (log + [e])[i].draft.idempotencyKey == e.draft.idempotencyKey;
  }

  lemma SealClears(sha256: Digest, w: World, product: Sha)
    requires Inv(sha256, w) && SealGulp(sha256, w.room, product).1.Ok?
    ensures var w1 := Apply(sha256, w, DoSeal(product));
            && w1.log == w.log && w1.issued == w.issued
            && w1.room == w.room.(recent := [], totalGulps := w1.room.totalGulps)
            && w.room.nextSequence == |w.log| + 1 && w.room.totalEvents == |w.log|
  {
    hide Chained, DistinctKeys;
  }

  lemma EmptyRoomPrepares(sha256: Digest, before: Room, r: Room, d: EventDraft)
    requires r.recent == [] && r.head == before.head && r.nextSequence < U64 - 1
    requires ValidateDraft(before, d) == None
    ensures Prepare(sha256, r, d).Ok? <==> !d.kind.RequiresParent() || d.parent == r.head
    ensures Prepare(sha256, r, d).Ok? ==>
              var e := Prepare(sha256, r, d).value;
              e.draft == d && e.sequence == r.nextSequence && e.previous == r.head
  {
  }

  lemma EmptyRoomCommits(r: Room, e: RoomEvent)
    requires r.recent == [] && e.sequence == r.nextSequence < U64 - 1 && e.previous == r.head && r.totalEvents < U64 - 1
    ensures Commit(r, e).1 == Ok(Committed(e))
  {
    CommitsExactly(r, e);
  }

  lemma ActiveKeyIsLogged(sha256: Digest, w: World, key: Sha)
    requires Inv(sha256, w) && KeyActive(w.room.recent, key)
    ensures exists i | 0 <= i < |w.log| :: w.log[i].draft.idempotencyKey == key
  {
    hide Chained, DistinctKeys;
    var i :| 0 <= i < |w.room.recent| && w.room.recent[i].draft.idempotencyKey == key;
    assert w.log[ACTIVE_ENVELOPE_WINDOW * w.room.totalGulps + i].draft.idempotencyKey == key;
  }

  /** `log` has grown by an event of draft `d`, whose key an earlier event of it carries too. */
  ghost predicate PublishedTwice(before: seq<RoomEvent>, log: seq<RoomEvent>, d: EventDraft) {
    && |log| == |before| + 1
    && log[|before|].draft == d
    && exists i | 0 <= i < |before| :: log[i].draft.idempotencyKey == d.idempotencyKey
  }

  /** The parent of an event before the window is neither in the window nor the head. */
  lemma OldParentIsUnknown(sha256: Digest, w: World, i: nat)
    requires Inv(sha256, w) && DigestsSound(sha256, w.log, w.log)
    requires i < |w.log| - |w.room.recent| && w.log[i].draft.kind.RequiresParent()
    ensures !ParentKnown(w.room, w.log[i].draft.parent)
  {
    var p := w.log[i].draft.parent;
    var k := CitedParent(sha256, w.room, w.log, i);
    RecentIsTail(sha256, w);
    hide Inv, DigestsSound;
    forall m | |w.log| - |w.room.recent| <= m < |w.log| || m == |w.log| - 1 ensures w.log[m].full != p {
      if w.log[m].full == w.log[k].full {
        SamePlaceInLog(sha256, w.room, w.log, m, k);
      }
    }
    forall m | 0 <= m < |w.room.recent| ensures w.room.recent[m].full != p {
      assert w.room.recent[m] == w.log[|w.log| - |w.room.recent| + m];
    }
  }

  lemma CitedParent(sha256: Digest, r: Room, log: seq<RoomEvent>, i: nat) returns (k: nat)
    requires Chained(sha256, r, log) && i < |log| && log[i].draft.kind.RequiresParent()
    ensures k < i && log[k].full == log[i].draft.parent
  {
    assert InPlace(sha256, r, log, i);
    k :| 0 <= k < log[i].sequence - 1 && log[k].full == log[i].draft.parent;
  }

  lemma RecentIsTail(sha256: Digest, w: World)
    requires Inv(sha256, w)
    ensures |w.room.recent| <= |w.log| && w.room.recent == w.log[|w.log| - |w.room.recent|..]
    ensures Chained(sha256, w.room, w.log)
    ensures w.room.head == HeadOf(w.log, |w.log|) && w.room.nextSequence == |w.log| + 1 && w.room.totalEvents == |w.log|
  {
    hide Chained, DistinctKeys;
  }

  lemma SamePlaceInLog(sha256: Digest, r: Room, log: seq<RoomEvent>, m: nat, k: nat)
    requires Chained(sha256, r, log) && DigestsSound(sha256, log, log)
    requires m < |log| && k < |log| && log[m].full == log[k].full
    ensures m == k
  {
    SameDigestSameEvent(sha256, log, m, log, k);
    Linked(sha256, r, log, m);
    Linked(sha256, r, log, k);
  }

  lemma LoggedFields(sha256: Digest, r: Room, log: seq<RoomEvent>, i: nat)
    requires Chained(sha256, r, log) && i < |log|
    ensures FieldObjection(log[i].draft) == None
  {
    assert InPlace(sha256, r, log, i);
  }

  /**
   * A draft that was published before the window, at any moment when its key is not active: it can be
   * prepared again exactly if its kind needs no parent and there is room. A kind that needs a parent
   * cannot come back, for the parent it cited is gone from the window too.
   */
  lemma LoggedDraftReturnsIff(sha256: Digest, w: World, i: nat)
    requires Inv(sha256, w) && DigestsSound(sha256, w.log, w.log)
    requires i < |w.log| - |w.room.recent| && !KeyActive(w.room.recent, w.log[i].draft.idempotencyKey)
    ensures Prepare(sha256, w.room, w.log[i].draft).Ok? <==>
            && !w.log[i].draft.kind.RequiresParent()
            && |w.room.recent| < ACTIVE_ENVELOPE_WINDOW
            && w.room.nextSequence < U64 - 1
  {
    RecentIsTail(sha256, w);
    LoggedFields(sha256, w.room, w.log, i);
    if w.log[i].draft.kind.RequiresParent() {
      OldParentIsUnknown(sha256, w, i);
    }
    hide Inv, DigestsSound, FieldObjection, KeyActive, ParentKnown;
  }

  /** Committing what was so prepared publishes the draft a second time, in full. */
  lemma ReturnedDraftIsPublishedTwice(sha256: Digest, w: World, i: nat)
    requires Inv(sha256, w) && DigestsSound(sha256, w.log, w.log)
    requires i < |w.log| - |w.room.recent| && !KeyActive(w.room.recent, w.log[i].draft.idempotencyKey)
    requires Prepare(sha256, w.room, w.log[i].draft).Ok?
    ensures var w1 := Apply(sha256, w, DoPrepare(w.log[i].draft));
            && |w1.issued| == |w.issued| + 1
            && var log := Apply(sha256, w1, DoCommit(|w.issued|)).log;
               |log| == |w.log| + 1 && w.log <= log && log[|w.log|].draft == log[i].draft
  {
    RecentIsTail(sha256, w);
    LoggedDraftReturnsIff(sha256, w, i);
    var d := w.log[i].draft;
    PreparedFields(sha256, w.room, d);
    var e := Prepare(sha256, w.room, d).value;
    CommitsExactly(w.room, e);
    hide Inv, Prepare, Commit, KeyActive;
    var w1 := w.(issued := w.issued + [e]);
    assert Apply(sha256, w, DoPrepare(d)) == w1;
    assert w1.issued[|w.issued|] == e;
    assert Apply(sha256, w1, DoCommit(|w.issued|)).log == w.log + [e];
  }

  lemma PreparedFields(sha256: Digest, r: Room, d: EventDraft)
    requires Prepare(sha256, r, d).Ok?
    ensures var e := Prepare(sha256, r, d).value;
            e.draft == d && e.sequence == r.nextSequence && e.previous == r.head
  {
  }

  // ----- the 2K / 10K / 50K hierarchy

  function CountTier(seals: seq<GulpSeal>, tier: GulpTier): nat {
    if seals == [] then 0
    else CountTier(seals[..|seals| - 1], tier) + (if seals[|seals| - 1].tier == tier then 1 else 0)
  }

  /** After g seals, g/25 were super-gulps, g/5 - g/25 checkpoints and the rest plain gulps. */
  lemma {:induction false} SealsFormHierarchy(seals: seq<GulpSeal>)
    requires forall n | 0 <= n < |seals| :: seals[n].tier == TierOf(n + 1)
    ensures CountTier(seals, SuperGulp50k) == |seals| / 25
    ensures CountTier(seals, Checkpoint10k) == |seals| / 5 - |seals| / 25
    ensures CountTier(seals, Gulp2k) == |seals| - |seals| / 5
  {
    if seals != [] {
      var init := seals[..|seals| - 1];
      assert forall n | 0 <= n < |init| :: init[n] == seals[n];
      SealsFormHierarchy(init);
      QuotientSteps(|seals|);
    }
  }

  lemma QuotientSteps(g: nat)
    requires g > 0
    ensures g / 25 == (g - 1) / 25 + (if TierOf(g) == SuperGulp50k then 1 else 0)
    ensures g / 5 == (g - 1) / 5 + (if TierOf(g) == Gulp2k then 0 else 1)
  {
    assert SUPER_DIVISOR == 25;
    var q, r := g / 5, g % 5;
    var m, k := q / 5, q % 5;
    assert g == 25 * m + (5 * k + r);
    assert g % 25 == 5 * k + r && g / 25 == m;
  }

  /** The counters a reader of the head sees are those of the seals handed out. */
  lemma HeadCountsSeals(sha256: Digest, w: World)
    requires Inv(sha256, w)
    ensures ReadCommittedHead(w.room).totalGulps == |w.seals|
    ensures ReadCommittedHead(w.room).totalSuperGulps == CountTier(w.seals, SuperGulp50k)
    ensures ReadCommittedHead(w.room).totalCheckpoints
            == CountTier(w.seals, SuperGulp50k) + CountTier(w.seals, Checkpoint10k)
  {
    assert forall n | 0 <= n < |w.seals| :: SealOk(sha256, w.room, w.log, n, w.seals[n]);
    SealsFormHierarchy(w.seals);
  }

  // ----- heads commit to history

  /** No two different events of the two logs have colliding digests, and no event digest is zero. */
  ghost predicate DigestsSound(sha256: Digest, a: seq<RoomEvent>, b: seq<RoomEvent>) {
    && (forall i, j | 0 <= i < |a| && 0 <= j < |b| && a[i].full == b[j].full :: EventBytes(a[i]) == EventBytes(b[j]))
    && (forall i | 0 <= i < |a| :: a[i].full != GENESIS_SHA256)
    && (forall j | 0 <= j < |b| :: b[j].full != GENESIS_SHA256)
  }

  lemma {:induction false} PrefixesAgree(sha256: Digest, r1: Room, a: seq<RoomEvent>, m: nat,
                                         r2: Room, b: seq<RoomEvent>, n: nat)
    requires Chained(sha256, r1, a) && Chained(sha256, r2, b) && DigestsSound(sha256, a, b)
    requires m <= |a| && n <= |b| && HeadOf(a, m) == HeadOf(b, n)
    ensures m == n && a[..m] == b[..n]
    decreases m
  {
    hide Chained, DigestsSound;
    if m == 0 || n == 0 {
      GenesisIsNoDigest(sha256, a, m, b, n);
    } else {
      LastEventsAgree(sha256, r1, a, m - 1, r2, b, n - 1);
      hide HeadOf;
      PrefixesAgree(sha256, r1, a, m - 1, r2, b, n - 1);
      assert a[..m] == a[..m - 1] + [a[m - 1]] && b[..n] == b[..n - 1] + [b[n - 1]];
    }
  }

  lemma GenesisIsNoDigest(sha256: Digest, a: seq<RoomEvent>, m: nat, b: seq<RoomEvent>, n: nat)
    requires DigestsSound(sha256, a, b) && m <= |a| && n <= |b| && HeadOf(a, m) == HeadOf(b, n)
    requires m == 0 || n == 0
    ensures m == n == 0
  {
  }

  lemma SameDigestSameEvent(sha256: Digest, a: seq<RoomEvent>, i: nat, b: seq<RoomEvent>, j: nat)
    requires DigestsSound(sha256, a, b) && i < |a| && j < |b| && a[i].full == b[j].full
    ensures a[i] == b[j]
  {
    hide EventBytes;
    EventBytesInjective(a[i], b[j]);
  }

  lemma LastEventsAgree(sha256: Digest, r1: Room, a: seq<RoomEvent>, i: nat, r2: Room, b: seq<RoomEvent>, j: nat)
    requires Chained(sha256, r1, a) && Chained(sha256, r2, b) && DigestsSound(sha256, a, b)
    requires i < |a| && j < |b| && a[i].full == b[j].full
    ensures a[i] == b[j] && HeadOf(a, i) == HeadOf(b, j)
  {
    Linked(sha256, r1, a, i);
    Linked(sha256, r2, b, j);
    hide Chained, DigestsSound, HeadOf;
    SameDigestSameEvent(sha256, a, i, b, j);
  }

  lemma Linked(sha256: Digest, r: Room, log: seq<RoomEvent>, i: nat)
    requires Chained(sha256, r, log) && i < |log|
    ensures log[i].sequence == i + 1 && log[i].previous == HeadOf(log, i) && log[i].full == sha256(EventBytes(log[i]))
  {
    assert InPlace(sha256, r, log, i);
  }

  /** Two rooms that reach the same head, over whatever seals, have committed the same full log. */
  lemma HeadsCommitToHistory(sha256: Digest, w1: World, w2: World)
    requires Inv(sha256, w1) && Inv(sha256, w2) && DigestsSound(sha256, w1.log, w2.log)
    requires w1.room.head == w2.room.head
    ensures w1.log == w2.log
  {
    RoomOf(sha256, w1);
    RoomOf(sha256, w2);
    hide Inv, Chained, DigestsSound, HeadOf;
    PrefixesAgree(sha256, w1.room, w1.log, |w1.log|, w2.room, w2.log, |w2.log|);
    assert w1.log[..|w1.log|] == w1.log && w2.log[..|w2.log|] == w2.log;
  }

  /** A new room commits what another new room prepared, under the other room's identity. */
  lemma ForeignTokenEntersNewRoom(sha256: Digest, handle1: Handle8, room1: Sha, handle2: Handle8, room2: Sha, d: EventDraft)
    requires New(handle1, room1).Ok? && New(handle2, room2).Ok? && room1 != room2
    requires Prepare(sha256, New(handle1, room1).value, d).Ok?
    ensures var e := Prepare(sha256, New(handle1, room1).value, d).value;
            var (room', r) := Commit(New(handle2, room2).value, e);
            r == Ok(Committed(e)) && room'.head == e.full && e.roomId == room1 != room'.roomId
  {
    assert !KeyActive([], d.idempotencyKey);
  }

  /**
   * `commit` does not look at the room an event was prepared in, but the hash chain does: a room
   * commits another room's event exactly while it is still empty and the event is a first one.
   */
  lemma ForeignTokenCommitsIff(sha256: Digest, w1: World, token: nat, w2: World)
    requires Inv(sha256, w1) && Inv(sha256, w2) && DigestsSound(sha256, w1.log, w2.log)
    requires w1.room.roomId != w2.room.roomId && token < |w1.issued|
    ensures var e := w1.issued[token];
            Commit(w2.room, e).1 == Ok(Committed(e)) <==> w2.log == [] && e.sequence == 1
  {
    var e := w1.issued[token];
    TokenBuiltOn(sha256, w1, token);
    CommitsExactly(w2.room, e);
    RoomOf(sha256, w2);
    RoomOf(sha256, w1);
    hide Inv, Commit, DigestsSound;
    if e.sequence == |w2.log| + 1 && e.previous == w2.room.head {
      HeadsOfDifferentRooms(sha256, w1.room, w1.log, w2.room, w2.log, |w2.log|);
    }
  }

  lemma TokenBuiltOn(sha256: Digest, w: World, token: nat)
    requires Inv(sha256, w) && token < |w.issued|
    ensures var e := w.issued[token];
            1 <= e.sequence <= |w.log| + 1 && e.previous == HeadOf(w.log, e.sequence - 1) && e.sequence < U64 - 1
  {
    assert TokenOk(sha256, w, token);
  }

  /** What the room of a run looks like from its log. */
  lemma RoomOf(sha256: Digest, w: World)
    requires Inv(sha256, w)
    ensures Chained(sha256, w.room, w.log)
    ensures w.room.head == HeadOf(w.log, |w.log|) && w.room.nextSequence == |w.log| + 1
    ensures w.room.totalEvents == |w.log| && (w.log == [] ==> w.room.recent == [])
  {
    hide Chained, DistinctKeys;
  }

  lemma CommitsExactly(r: Room, e: RoomEvent)
    ensures Commit(r, e).1 == Ok(Committed(e)) <==>
            && !KeyActive(r.recent, e.draft.idempotencyKey)
            && |r.recent| < ACTIVE_ENVELOPE_WINDOW
            && e.sequence == r.nextSequence < U64 - 1 && e.previous == r.head
            && r.totalEvents < U64 - 1
  {
  }

  /** Logs of rooms with different identities share no head after the genesis. */
  lemma HeadsOfDifferentRooms(sha256: Digest, r1: Room, a: seq<RoomEvent>, r2: Room, b: seq<RoomEvent>, n: nat)
    requires Chained(sha256, r1, a) && Chained(sha256, r2, b) && DigestsSound(sha256, a, b)
    requires r1.roomId != r2.roomId && n <= |a| && n <= |b| && HeadOf(a, n) == HeadOf(b, n)
    ensures n == 0
  {
    hide DigestsSound;
    PrefixesAgree(sha256, r1, a, n, r2, b, n);
    if n > 0 {
      assert a[0] == b[0] by {
        assert a[0] == a[..n][0] == b[..n][0] == b[0];
      }
      FirstRoom(sha256, r1, a);
      FirstRoom(sha256, r2, b);
    }
  }

  lemma FirstRoom(sha256: Digest, r: Room, log: seq<RoomEvent>)
    requires Chained(sha256, r, log) && log != []
    ensures log[0].roomId == r.roomId
  {
    assert InPlace(sha256, r, log, 0);
  }

  /** Two runs from new rooms that reach the same head committed the same events, whatever they sealed. */
  lemma RunsReachingOneHeadAgree(sha256: Digest, handle1: Handle8, room1: Sha, acts1: seq<Action>,
                                 handle2: Handle8, room2: Sha, acts2: seq<Action>)
    requires New(handle1, room1).Ok? && New(handle2, room2).Ok?
    requires Runs(sha256, World(New(handle1, room1).value, [], [], []), acts1)
    requires Runs(sha256, World(New(handle2, room2).value, [], [], []), acts2)
    requires var w1 := Exec(sha256, World(New(handle1, room1).value, [], [], []), acts1);
             var w2 := Exec(sha256, World(New(handle2, room2).value, [], [], []), acts2);
             DigestsSound(sha256, w1.log, w2.log) && w1.room.head == w2.room.head
    ensures Exec(sha256, World(New(handle1, room1).value, [], [], []), acts1).log
            == Exec(sha256, World(New(handle2, room2).value, [], [], []), acts2).log
  {
    hide Inv, DigestsSound, Apply;
    NewRoomIsInv(sha256, handle1, room1);
    NewRoomIsInv(sha256, handle2, room2);
    var w1, w2 := World(New(handle1, room1).value, [], [], []), World(New(handle2, room2).value, [], [], []);
    RunKeepsInv(sha256, w1, acts1);
    RunKeepsInv(sha256, w2, acts2);
    HeadsCommitToHistory(sha256, Exec(sha256, w1, acts1), Exec(sha256, w2, acts2));
  }

  /**
   * A seal digest commits to the distilled product and to the whole history up to the seal: two
   * seals with the same digest, unless their preimages collide, close the same blocks.
   */
  lemma SealsCommitToHistory(sha256: Digest, w1: World, m: nat, w2: World, n: nat)
    requires Inv(sha256, w1) && Inv(sha256, w2) && DigestsSound(sha256, w1.log, w2.log)
    requires m < |w1.seals| && n < |w2.seals| && w1.seals[m].seal == w2.seals[n].seal
    requires SealBytes(w1.room.roomId, w1.seals[m]) != SealBytes(w2.room.roomId, w2.seals[n])
             ==> sha256(SealBytes(w1.room.roomId, w1.seals[m])) != sha256(SealBytes(w2.room.roomId, w2.seals[n]))
    ensures m == n && w1.room.roomId == w2.room.roomId
    ensures w1.seals[m].distilledProduct == w2.seals[n].distilledProduct
    ensures w1.log[..ACTIVE_ENVELOPE_WINDOW * (m + 1)] == w2.log[..ACTIVE_ENVELOPE_WINDOW * (n + 1)]
  {
    var a, b := w1.seals[m], w2.seals[n];
    assert SealOk(sha256, w1.room, w1.log, m, a) && SealOk(sha256, w2.room, w2.log, n, b);
    hide Accounting, DistinctKeys, HeadOf;
    SealBytesInjective(w1.room.roomId, a, w2.room.roomId, b);
    PrefixesAgree(sha256, w1.room, w1.log, ACTIVE_ENVELOPE_WINDOW * (m + 1),
                  w2.room, w2.log, ACTIVE_ENVELOPE_WINDOW * (n + 1));
  }
}
