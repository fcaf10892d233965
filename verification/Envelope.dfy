/** The single-slot envelope queue: what it promises as a one-place buffer. */
module OnePlaceBuffer {
  import opened Words

  const ENVELOPE_SLOT_BYTES: nat := 1024

  datatype EnvelopeErr = QueueFull | QueueEmpty | PayloadOversize

  /** A sequential one-place buffer; `claimed` says that some caller is inside it. */
  datatype Buffer = Buffer(content: Option<seq<byte>>, claimed: bool)

  /** What a caller sees when its call returns. */
  datatype Event =
    | Accepted(env: seq<byte>)
    | RefusedOversize(env: seq<byte>)
    | RefusedFull
    | Delivered(bytes: seq<byte>)
    | FoundEmpty
    | TooSmall(cap: nat)

  /** Steps of the buffer: a visible event, or entering it, or nothing (`None`). */
  ghost predicate BufferNext(b: Buffer, e: Option<Event>, b': Buffer) {
    match e
    case None => b' == b || (!b.claimed && b' == b.(claimed := true))
    case Some(Accepted(env)) =>
      b.claimed && b.content == None && |env| <= ENVELOPE_SLOT_BYTES && b' == Buffer(Some(env), false)
    case Some(RefusedOversize(env)) => |env| > ENVELOPE_SLOT_BYTES && b' == b
    case Some(RefusedFull) => (b.claimed || b.content.Some?) && b' == b
    case Some(Delivered(bytes)) => b.claimed && b.content == Some(bytes) && b' == Buffer(None, false)
    case Some(FoundEmpty) => (b.claimed || b.content == None) && b' == b
    case Some(TooSmall(cap)) =>
      b.claimed && b.content.Some? && cap < |b.content.value| && b' == b.(claimed := false)
  }

  /** What one undisturbed enqueue answers, and what it leaves in the buffer. */
  function Enqueue(content: Option<seq<byte>>, env: seq<byte>): (Option<seq<byte>>, Result<(), EnvelopeErr>) {
    if |env| > ENVELOPE_SLOT_BYTES then (content, Err(PayloadOversize))
    else if content.Some? then (content, Err(QueueFull))
    else (Some(env), Ok(()))
  }

  /** What one undisturbed dequeue into `cap` bytes answers, and what it leaves in the buffer. */
  function Dequeue(content: Option<seq<byte>>, cap: nat): (Option<seq<byte>>, Result<nat, EnvelopeErr>) {
    if content == None then (content, Err(QueueEmpty))
    else if |content.value| > cap then (content, Err(PayloadOversize))
    else (None, Ok(|content.value|))
  }

  /** The spin budget of a dequeue: one poll per nanosecond asked for, at least one, at most a million. */
  function SpinBudget(maxWaitNs: u64): (budget: nat)
    ensures 1 <= budget <= 1_000_000
  {
    if maxWaitNs == 0 then 1 else Min(maxWaitNs, 1_000_000)
  }
}

/** The slot under any number of threads, one atomic operation per step. */
module EnvelopeSteps {
  import opened Words
  import opened OnePlaceBuffer

  datatype SlotState = Empty | Writing | Full | Reading

  datatype Slot = Slot(state: SlotState, len: nat, route: u32, bytes: seq<byte>, depth: nat)

  /** Where a thread is; the fields are its local variables. */
  datatype Pc =
    | Idle
    | EnqClaim(env: seq<byte>, route: u32)
    | EnqByte(env: seq<byte>, route: u32, i: nat)
    | EnqLen(env: seq<byte>, route: u32)
    | EnqRoute(env: seq<byte>, route: u32)
    | EnqDepth(env: seq<byte>, route: u32)
    | EnqPublish(env: seq<byte>, route: u32)
    | DeqClaim(cap: nat, budget: nat, tries: nat)
    | DeqLen(cap: nat)
    | DeqRestore(cap: nat)
    | DeqByte(n: nat, buf: seq<byte>)
    | DeqClearLen(buf: seq<byte>)
    | DeqClearDepth(buf: seq<byte>)
    | DeqRelease(buf: seq<byte>)

  datatype Message = Message(bytes: seq<byte>, route: u32)

  /**
   * `owner` is the winner of the last claim while the slot is claimed; `accepted` and `delivered`
   * record what successful enqueues and dequeues returned, in the order of their last stores.
   */
  datatype Sys = Sys(slot: Slot, pcs: seq<Pc>, owner: Option<nat>,
                     accepted: seq<Message>, delivered: seq<seq<byte>>)

  datatype Action =
    | CallEnqueue(t: nat, env: seq<byte>, route: u32)
    | CallDequeue(t: nat, cap: nat, maxWaitNs: u64)
    | Step(t: nat)

  function Start(threads: nat, bytes: seq<byte>): Sys {
    Sys(Slot(Empty, 0, 0, bytes, 0), seq(threads, i => Idle), None, [], [])
  }

  predicate Enabled(s: Sys, a: Action) {
    a.t < |s.pcs| && (s.pcs[a.t] == Idle <==> !a.Step?) && |s.slot.bytes| == ENVELOPE_SLOT_BYTES
  }

  /** After the claim and after each byte: store the next byte, or go on to the length. */
  function NextByte(env: seq<byte>, route: u32, i: nat): Pc {
    if i < |env| then EnqByte(env, route, i) else EnqLen(env, route)
  }

  function NextLoad(n: nat, buf: seq<byte>): Pc {
    if |buf| < n then DeqByte(n, buf) else DeqClearLen(buf)
  }

  /** The effect of one action: a call's local work, or one atomic operation on the slot. */
  function Apply(s: Sys, a: Action): Sys
    requires Enabled(s, a)
  {
    match a
    case CallEnqueue(t, env, route) =>
      if |env| > ENVELOPE_SLOT_BYTES then s else s.(pcs := s.pcs[t := EnqClaim(env, route)])
    case CallDequeue(t, cap, maxWaitNs) =>
      s.(pcs := s.pcs[t := DeqClaim(cap, SpinBudget(maxWaitNs), 0)])
    case Step(t) =>
      match s.pcs[t]
      case Idle => s
      case EnqClaim(env, route) =>
        if s.slot.state == Empty
        then s.(slot := s.slot.(state := Writing), owner := Some(t), pcs := s.pcs[t := NextByte(env, route, 0)])
        else s.(pcs := s.pcs[t := Idle])
      case EnqByte(env, route, i) =>
        if i < |env| && i < ENVELOPE_SLOT_BYTES
        then s.(slot := s.slot.(bytes := s.slot.bytes[i := env[i]]), pcs := s.pcs[t := NextByte(env, route, i + 1)])
        else s
      case EnqLen(env, route) =>
        s.(slot := s.slot.(len := |env|), pcs := s.pcs[t := EnqRoute(env, route)])
      case EnqRoute(env, route) =>
        s.(slot := s.slot.(route := route), pcs := s.pcs[t := EnqDepth(env, route)])
      case EnqDepth(env, route) =>
        s.(slot := s.slot.(depth := 1), pcs := s.pcs[t := EnqPublish(env, route)])
      case EnqPublish(env, route) =>
        s.(slot := s.slot.(state := Full), owner := None, pcs := s.pcs[t := Idle],
        accepted := s.accepted + [Message(env, route)])
      case DeqClaim(cap, budget, tries) =>
        if s.slot.state == Full
        then s.(slot := s.slot.(state := Reading), owner := Some(t), pcs := s.pcs[t := DeqLen(cap)])
        else s.(pcs := s.pcs[t := if tries + 1 >= budget then Idle else DeqClaim(cap, budget, tries + 1)])
      case DeqLen(cap) =>
        s.(pcs := s.pcs[t := if s.slot.len > cap then DeqRestore(cap) else NextLoad(s.slot.len, [])])
      case DeqRestore(cap) =>
        s.(slot := s.slot.(state := Full), owner := None, pcs := s.pcs[t := Idle])
      case DeqByte(n, buf) =>
        if |buf| < ENVELOPE_SLOT_BYTES
        then s.(pcs := s.pcs[t := NextLoad(n, buf + [s.slot.bytes[|buf|]])])
        else s
      case DeqClearLen(buf) =>
        s.(slot := s.slot.(len := 0), pcs := s.pcs[t := DeqClearDepth(buf)])
      case DeqClearDepth(buf) =>
        s.(slot := s.slot.(depth := 0), pcs := s.pcs[t := DeqRelease(buf)])
      case DeqRelease(buf) =>
        s.(slot := s.slot.(state := Empty), owner := None, pcs := s.pcs[t := Idle],
        delivered := s.delivered + [buf])
  }

  /** What the acting thread's caller sees if this action makes its call return. */
  function Returned(s: Sys, a: Action): Option<Event>
    requires Enabled(s, a)
  {
    match a
    case CallEnqueue(_, env, _) => if |env| > ENVELOPE_SLOT_BYTES then Some(RefusedOversize(env)) else None
    case CallDequeue(_, _, _) => None
    case Step(t) =>
      match s.pcs[t]
      case EnqClaim(_, _) => if s.slot.state == Empty then None else Some(RefusedFull)
      case EnqPublish(env, _) => Some(Accepted(env))
      case DeqClaim(_, budget, tries) =>
        if s.slot.state != Full && tries + 1 >= budget then Some(FoundEmpty) else None
      case DeqRestore(cap) => Some(TooSmall(cap))
      case DeqRelease(buf) => Some(Delivered(buf))
      case _ => None
  }

  // ----- the invariant

  predicate WritingPc(pc: Pc) {
    pc.EnqByte? || pc.EnqLen? || pc.EnqRoute? || pc.EnqDepth? || pc.EnqPublish?
  }

  predicate ReadingPc(pc: Pc) {
    pc.DeqLen? || pc.DeqRestore? || pc.DeqByte? || pc.DeqClearLen? || pc.DeqClearDepth? || pc.DeqRelease?
  }

  predicate Occupied(s: Sys) { s.slot.state == Full || s.slot.state == Reading }

  /** The message accepted but not yet delivered. */
  function Pending(s: Sys): Option<Message> {
    if |s.delivered| < |s.accepted| then Some(s.accepted[|s.delivered|]) else None
  }

  /** The slot's length and bytes hold exactly the pending message. */
  ghost predicate Stored(slot: Slot, m: Message) {
    slot.len == |m.bytes| <= ENVELOPE_SLOT_BYTES == |slot.bytes| && slot.bytes[..slot.len] == m.bytes
    && slot.route == m.route && slot.depth == 1
  }

  ghost predicate StoredBytes(slot: Slot, bytes: seq<byte>) {
    |bytes| <= |slot.bytes| && slot.bytes[..|bytes|] == bytes
  }

  /** What a thread at `pc` may rely on while it owns the slot. */
  ghost predicate PcOk(slot: Slot, pending: Option<Message>, pc: Pc) {
    match pc
    case Idle => true
    case EnqClaim(env, _) => |env| <= ENVELOPE_SLOT_BYTES
    case EnqByte(env, _, i) => i < |env| <= ENVELOPE_SLOT_BYTES && StoredBytes(slot, env[..i])
    case EnqLen(env, _) => StoredBytes(slot, env)
    case EnqRoute(env, _) => StoredBytes(slot, env) && slot.len == |env|
    case EnqDepth(env, route) => StoredBytes(slot, env) && slot.len == |env| && slot.route == route
    case EnqPublish(env, route) => Stored(slot, Message(env, route))
    case DeqClaim(_, budget, tries) => tries < budget
    case DeqLen(cap) => pending.Some? && Stored(slot, pending.value)
    case DeqRestore(cap) => pending.Some? && Stored(slot, pending.value) && cap < |pending.value.bytes|
    case DeqByte(n, buf) =>
      pending.Some? && Stored(slot, pending.value) && |buf| < n == slot.len && buf == pending.value.bytes[..|buf|]
    case DeqClearLen(buf) => pending.Some? && buf == pending.value.bytes
    case DeqClearDepth(buf) => pending.Some? && buf == pending.value.bytes && slot.len == 0
    case DeqRelease(buf) => pending.Some? && buf == pending.value.bytes && slot.len == 0 && slot.depth == 0
  }

  /** Deliveries are the accepted envelopes in order, each once; at most one is outstanding. */
  ghost predicate InOrder(s: Sys) {
    && |s.accepted| == |s.delivered| + (if Occupied(s) then 1 else 0)
    && forall i | 0 <= i < |s.delivered| :: s.delivered[i] == s.accepted[i].bytes
  }

  ghost predicate Ownership(s: Sys) {
    && (s.owner.Some? <==> s.slot.state == Writing || s.slot.state == Reading)
    && (s.owner.Some? ==> s.owner.value < |s.pcs|)
    && (forall t | 0 <= t < |s.pcs| :: WritingPc(s.pcs[t]) <==> s.slot.state == Writing && s.owner == Some(t))
    && (forall t | 0 <= t < |s.pcs| :: ReadingPc(s.pcs[t]) <==> s.slot.state == Reading && s.owner == Some(t))
  }

  ghost predicate Inv(s: Sys) {
    && |s.slot.bytes| == ENVELOPE_SLOT_BYTES
    && Ownership(s)
    && InOrder(s)
    && (s.slot.state == Empty ==> s.slot.depth == 0 && s.slot.len == 0)
    && (s.slot.state == Full ==> Stored(s.slot, Pending(s).value))
    && (forall t | 0 <= t < |s.pcs| :: PcOk(s.slot, Pending(s), s.pcs[t]))
  }

  /** One atomic step of any thread keeps the invariant. */
  lemma StepKeepsInv(s: Sys, a: Action)
    requires Inv(s) && Enabled(s, a)
    ensures Inv(Apply(s, a))
  {
    var s' := Apply(s, a);
    StepKeepsOwnership(s, a);
    StepKeepsOrder(s, a);
    forall t | 0 <= t < |s'.pcs| ensures PcOk(s'.slot, Pending(s'), s'.pcs[t]) {
      if t == a.t {
        ActorProceeds(s, a);
      } else {
        assert s'.pcs[t] == s.pcs[t];
        OthersUndisturbed(s, a, t);
      }
    }
  }

  lemma StepKeepsOwnership(s: Sys, a: Action)
    requires Inv(s) && Enabled(s, a)
    ensures Ownership(Apply(s, a))
  {
    hide InOrder, Stored, PcOk, WritingPc, ReadingPc;
    var s' := Apply(s, a);
    OwnerIsInside(s, a);
    forall t | 0 <= t < |s.pcs|
      ensures WritingPc(s'.pcs[t]) <==> s'.slot.state == Writing && s'.owner == Some(t)
      ensures ReadingPc(s'.pcs[t]) <==> s'.slot.state == Reading && s'.owner == Some(t)
    {
      ThreadIsInside(s, a, t);
    }
  }

  lemma OwnerIsInside(s: Sys, a: Action)
    requires Inv(s) && Enabled(s, a)
    ensures var s' := Apply(s, a);
            && |s'.pcs| == |s.pcs|
            && (s'.owner.Some? <==> s'.slot.state == Writing || s'.slot.state == Reading)
            && (s'.owner.Some? ==> s'.owner.value < |s'.pcs|)
  {
    hide InOrder, Stored, PcOk;
    assert WritingPc(s.pcs[a.t]) <==> s.slot.state == Writing && s.owner == Some(a.t);
    assert ReadingPc(s.pcs[a.t]) <==> s.slot.state == Reading && s.owner == Some(a.t);
  }

  lemma ThreadIsInside(s: Sys, a: Action, t: nat)
    requires Inv(s) && Enabled(s, a) && t < |s.pcs|
    ensures var s' := Apply(s, a);
            && |s'.pcs| == |s.pcs|
            && (WritingPc(s'.pcs[t]) <==> s'.slot.state == Writing && s'.owner == Some(t))
            && (ReadingPc(s'.pcs[t]) <==> s'.slot.state == Reading && s'.owner == Some(t))
  {
    hide InOrder, Stored, PcOk;
    assert WritingPc(s.pcs[a.t]) <==> s.slot.state == Writing && s.owner == Some(a.t);
    assert ReadingPc(s.pcs[a.t]) <==> s.slot.state == Reading && s.owner == Some(a.t);
    assert WritingPc(s.pcs[t]) <==> s.slot.state == Writing && s.owner == Some(t);
    assert ReadingPc(s.pcs[t]) <==> s.slot.state == Reading && s.owner == Some(t);
  }

  lemma StepKeepsOrder(s: Sys, a: Action)
    requires Inv(s) && Enabled(s, a)
    ensures var s' := Apply(s, a);
            && |s'.slot.bytes| == ENVELOPE_SLOT_BYTES
            && InOrder(s')
            && (s'.slot.state == Empty ==> s'.slot.depth == 0 && s'.slot.len == 0)
            && (s'.slot.state == Full ==> Stored(s'.slot, Pending(s').value))
  {
    var pc := s.pcs[a.t];
    assert WritingPc(pc) ==> s.slot.state == Writing;
    assert ReadingPc(pc) ==> s.slot.state == Reading;
    assert PcOk(s.slot, Pending(s), pc);
  }

  /** A step never breaks what another thread relies on: that thread does not own the slot. */
  lemma OthersUndisturbed(s: Sys, a: Action, t: nat)
    requires Inv(s) && Enabled(s, a) && t < |s.pcs|
    ensures t != a.t ==> PcOk(Apply(s, a).slot, Pending(Apply(s, a)), s.pcs[t])
  {
    assert PcOk(s.slot, Pending(s), s.pcs[t]);
    assert WritingPc(s.pcs[t]) || ReadingPc(s.pcs[t]) ==> s.owner == Some(t);
    assert WritingPc(s.pcs[a.t]) || ReadingPc(s.pcs[a.t]) ==> s.owner == Some(a.t);
  }

  lemma ActorProceeds(s: Sys, a: Action)
    requires Inv(s) && Enabled(s, a)
    ensures PcOk(Apply(s, a).slot, Pending(Apply(s, a)), Apply(s, a).pcs[a.t])
  {
    hide Ownership;
    assert PcOk(s.slot, Pending(s), s.pcs[a.t]);
    match s.pcs[a.t] {
      case EnqByte(_, _, _) => WriterProceeds(s, a);
      case DeqByte(_, _) => ReaderProceeds(s, a);
      case _ =>
    }
  }

  lemma WriterProceeds(s: Sys, a: Action)
    requires Inv(s) && Enabled(s, a) && s.pcs[a.t].EnqByte?
    ensures PcOk(Apply(s, a).slot, Pending(Apply(s, a)), Apply(s, a).pcs[a.t])
  {
    hide Ownership, InOrder;
    var s', env, i := Apply(s, a), s.pcs[a.t].env, s.pcs[a.t].i;
    assert PcOk(s.slot, Pending(s), s.pcs[a.t]);
    assert s'.slot.bytes[..i + 1] == s.slot.bytes[..i] + [env[i]] == env[..i + 1];
    assert env[..|env|] == env;
  }

  lemma ReaderProceeds(s: Sys, a: Action)
    requires Inv(s) && Enabled(s, a) && s.pcs[a.t].DeqByte?
    ensures PcOk(Apply(s, a).slot, Pending(Apply(s, a)), Apply(s, a).pcs[a.t])
  {
    hide Ownership, InOrder;
    var n, buf := s.pcs[a.t].n, s.pcs[a.t].buf;
    assert PcOk(s.slot, Pending(s), s.pcs[a.t]);
    var m := Pending(s).value.bytes;
    assert s.slot.bytes[|buf|] == s.slot.bytes[..n][|buf|];
    assert buf + [m[|buf|]] == m[..|buf| + 1];
    assert m[..|m|] == m;
  }

  // ----- refinement of the one-place buffer

  /** The one-place buffer a reader of the queue may picture. */
  function Abs(s: Sys): Buffer {
    Buffer(if Pending(s).Some? then Some(Pending(s).value.bytes) else None,
           s.slot.state == Writing || s.slot.state == Reading)
  }

  function AcceptedBy(e: Option<Event>): seq<seq<byte>> {
    match e case Some(Accepted(env)) => [env] case _ => []
  }

  function DeliveredBy(e: Option<Event>): seq<seq<byte>> {
    match e case Some(Delivered(bytes)) => [bytes] case _ => []
  }

  function Bodies(ms: seq<Message>): seq<seq<byte>> { seq(|ms|, i requires 0 <= i < |ms| => ms[i].bytes) }

  /** Every atomic step is a step of the one-place buffer, and the histories record what calls returned. */
  lemma StepRefinesBuffer(s: Sys, a: Action)
    requires Inv(s) && Enabled(s, a)
    ensures BufferNext(Abs(s), Returned(s, a), Abs(Apply(s, a)))
    ensures Bodies(Apply(s, a).accepted) == Bodies(s.accepted) + AcceptedBy(Returned(s, a))
    ensures Apply(s, a).delivered == s.delivered + DeliveredBy(Returned(s, a))
  {
    var pc := s.pcs[a.t];
    assert PcOk(s.slot, Pending(s), pc);
    assert WritingPc(pc) ==> s.slot.state == Writing;
    assert ReadingPc(pc) ==> s.slot.state == Reading;
  }

  // ----- whole runs

  ghost predicate Runs(s: Sys, acts: seq<Action>)
    decreases acts
  {
    acts == [] || (Enabled(s, acts[0]) && Runs(Apply(s, acts[0]), acts[1..]))
  }

  ghost function Exec(s: Sys, acts: seq<Action>): Sys
    requires Runs(s, acts)
    decreases acts
  {
    if acts == [] then s else Exec(Apply(s, acts[0]), acts[1..])
  }

  /** What the calls of a run returned, in order. */
  ghost function Returns(s: Sys, acts: seq<Action>): seq<Option<Event>>
    requires Runs(s, acts)
    decreases acts
  {
    if acts == [] then [] else [Returned(s, acts[0])] + Returns(Apply(s, acts[0]), acts[1..])
  }

  ghost function AllAccepted(es: seq<Option<Event>>): seq<seq<byte>> {
    if es == [] then [] else AcceptedBy(es[0]) + AllAccepted(es[1..])
  }

  ghost function AllDelivered(es: seq<Option<Event>>): seq<seq<byte>> {
    if es == [] then [] else DeliveredBy(es[0]) + AllDelivered(es[1..])
  }

  lemma {:induction false} RunKeepsInv(s: Sys, acts: seq<Action>)
    requires Inv(s) && Runs(s, acts)
    ensures Inv(Exec(s, acts))
    ensures Bodies(Exec(s, acts).accepted) == Bodies(s.accepted) + AllAccepted(Returns(s, acts))
    ensures Exec(s, acts).delivered == s.delivered + AllDelivered(Returns(s, acts))
    decreases acts
  {
    hide Inv, Apply, Enabled, Returned, Bodies, AcceptedBy, DeliveredBy;
    if acts != [] {
      StepKeepsInv(s, acts[0]);
      StepRefinesBuffer(s, acts[0]);
      RunKeepsInv(Apply(s, acts[0]), acts[1..]);
      var es := Returns(s, acts);
      assert es[1..] == Returns(Apply(s, acts[0]), acts[1..]);
    }
  }

  /**
   * Any number of threads, any interleaving: what dequeues returned is, in order and without
   * repetition, what enqueues accepted, short of at most one envelope, which is then in the slot.
   * A full slot has depth 1, an empty one length and depth 0.
   */
  lemma SlotIsOnePlaceBuffer(threads: nat, bytes: seq<byte>, acts: seq<Action>)
    requires |bytes| == ENVELOPE_SLOT_BYTES && Runs(Start(threads, bytes), acts)
    ensures var s := Exec(Start(threads, bytes), acts);
            var es := Returns(Start(threads, bytes), acts);
            && AllDelivered(es) <= AllAccepted(es)
            && |AllAccepted(es)| == |AllDelivered(es)| + (if Occupied(s) then 1 else 0)
            && (s.slot.state == Full ==>
                  var outstanding := AllAccepted(es)[|AllDelivered(es)|];
                  StoredBytes(s.slot, outstanding) && s.slot.len == |outstanding| && s.slot.depth == 1)
            && (s.slot.state == Empty ==> s.slot.depth == 0 && s.slot.len == 0)
  {
    var s0 := Start(threads, bytes);
    assert Inv(s0);
    RunKeepsInv(s0, acts);
    var s, es := Exec(s0, acts), Returns(s0, acts);
    assert Bodies(s0.accepted) == [] && s.delivered == AllDelivered(es);
    assert Bodies(s.accepted) == AllAccepted(es);
    forall i | 0 <= i < |s.delivered| ensures AllDelivered(es)[i] == AllAccepted(es)[i] {
      assert s.delivered[i] == s.accepted[i].bytes;
    }
    assert AllDelivered(es) == AllAccepted(es)[..|AllDelivered(es)|];
  }

  // ----- every call ends

  /** Bounds the atomic operations a call at `pc` still performs. */
  function Remaining(pc: Pc): nat {
    match pc
    case Idle => 0
    case EnqClaim(env, _) => |env| + 5
    case EnqByte(env, _, i) => if i < |env| then |env| - i + 4 else 4
    case EnqLen(_, _) => 4
    case EnqRoute(_, _) => 3
    case EnqDepth(_, _) => 2
    case EnqPublish(_, _) => 1
    case DeqClaim(_, budget, tries) => (if tries < budget then budget - tries else 0) + ENVELOPE_SLOT_BYTES + 4
    case DeqLen(_) => ENVELOPE_SLOT_BYTES + 4
    case DeqRestore(_) => 1
    case DeqByte(n, buf) => if |buf| < n then n - |buf| + 3 else 3
    case DeqClearLen(_) => 3
    case DeqClearDepth(_) => 2
    case DeqRelease(_) => 1
  }

  /** The operations thread `t` performs in a run in which it starts no new call. */
  function StepsOf(acts: seq<Action>, t: nat): nat {
    if acts == [] then 0 else (if acts[0] == Step(t) then 1 else 0) + StepsOf(acts[1..], t)
  }

  lemma OperationSpends(s: Sys, a: Action, t: nat)
    requires Inv(s) && Enabled(s, a) && t < |s.pcs| && (a.t == t ==> a.Step?)
    ensures |Apply(s, a).pcs| == |s.pcs|
    ensures Remaining(Apply(s, a).pcs[t]) + (if a == Step(t) then 1 else 0) <= Remaining(s.pcs[t])
  {
    hide Ownership, InOrder;
    var pc := s.pcs[t];
    assert PcOk(s.slot, Pending(s), pc);
    if a.t != t {
      assert Apply(s, a).pcs[t] == pc;
    }
  }

  /**
   * However the other threads run, a pending call performs at most `Remaining` more operations:
   * a dequeue at most its spin budget of claims and then 1,028 more, an enqueue its length plus 5.
   */
  lemma {:induction false} CallEnds(s: Sys, acts: seq<Action>, t: nat)
    requires Inv(s) && Runs(s, acts) && t < |s.pcs|
    requires forall i | 0 <= i < |acts| :: acts[i].t == t ==> acts[i].Step?
    ensures |Exec(s, acts).pcs| == |s.pcs|
    ensures StepsOf(acts, t) + Remaining(Exec(s, acts).pcs[t]) <= Remaining(s.pcs[t])
    decreases acts
  {
    if acts != [] {
      StepKeepsInv(s, acts[0]);
      OperationSpends(s, acts[0], t);
      CallEnds(Apply(s, acts[0]), acts[1..], t);
    }
  }

  // ----- what a call is answered

  /** A call is answered exactly by the action that makes its thread idle again: no call vanishes. */
  lemma AnsweredIffIdle(s: Sys, a: Action)
    requires Inv(s) && Enabled(s, a)
    ensures |Apply(s, a).pcs| == |s.pcs|
    ensures Returned(s, a).Some? <==> Apply(s, a).pcs[a.t] == Idle
  {
    hide Ownership, InOrder;
    assert PcOk(s.slot, Pending(s), s.pcs[a.t]);
  }

  /** The operations, exactly, that a thread inside the slot still performs when `n` bytes are pending. */
  function Work(pc: Pc, n: nat): nat {
    match pc
    case DeqLen(cap) => if cap < n then 2 else n + 4
    case _ => Remaining(pc)
  }

  predicate Inside(pc: Pc) { WritingPc(pc) || ReadingPc(pc) }

  function PendingLength(s: Sys): nat { if Pending(s).Some? then |Pending(s).value.bytes| else 0 }

  /** What the call of a thread inside the slot will be answered. */
  ghost function Verdict(s: Sys, pc: Pc): Event
    requires Inside(pc)
  {
    if WritingPc(pc) then Accepted(pc.env)
    else if (pc.DeqLen? || pc.DeqRestore?) && pc.cap < PendingLength(s) then TooSmall(pc.cap)
    else Delivered(if Pending(s).Some? then Pending(s).value.bytes else [])
  }

  function MessageOf(pc: Pc): seq<Message> {
    if WritingPc(pc) then [Message(pc.env, pc.route)] else []
  }

  /** A thread inside the slot does one operation less, and its answer does not change; the last one gives it. */
  lemma InsiderAdvances(s: Sys, t: nat)
    requires Inv(s) && Enabled(s, Step(t)) && Inside(s.pcs[t])
    ensures var s' := Apply(s, Step(t));
            && |s'.pcs| == |s.pcs|
            && if Work(s.pcs[t], PendingLength(s)) == 1
               then
                 && s'.pcs[t] == Idle && Returned(s, Step(t)) == Some(Verdict(s, s.pcs[t]))
                 && s'.accepted == s.accepted + MessageOf(s.pcs[t])
                 && s'.delivered == s.delivered + DeliveredBy(Returned(s, Step(t)))
                 && s'.slot.state == if Verdict(s, s.pcs[t]).Delivered? then Empty else Full
               else
                 && Inside(s'.pcs[t]) && Returned(s, Step(t)) == None
                 && s'.accepted == s.accepted && s'.delivered == s.delivered
                 && MessageOf(s'.pcs[t]) == MessageOf(s.pcs[t])
                 && Work(s'.pcs[t], PendingLength(s')) == Work(s.pcs[t], PendingLength(s)) - 1
                 && Verdict(s', s'.pcs[t]) == Verdict(s, s.pcs[t])
  {
    if WritingPc(s.pcs[t]) {
      WriterAdvances(s, t);
    } else {
      ReaderAdvances(s, t);
    }
  }

  lemma WriterAdvances(s: Sys, t: nat)
    requires Inv(s) && Enabled(s, Step(t)) && WritingPc(s.pcs[t])
    ensures var s', pc := Apply(s, Step(t)), s.pcs[t];
            && |s'.pcs| == |s.pcs| && s'.delivered == s.delivered
            && if Remaining(pc) == 1
               then
                 && s'.pcs[t] == Idle && Returned(s, Step(t)) == Some(Accepted(pc.env))
                 && s'.accepted == s.accepted + MessageOf(pc) && s'.slot.state == Full
               else
                 && WritingPc(s'.pcs[t]) && Returned(s, Step(t)) == None && s'.accepted == s.accepted
                 && MessageOf(s'.pcs[t]) == MessageOf(pc) && Remaining(s'.pcs[t]) == Remaining(pc) - 1
  {
    hide Ownership, InOrder, Stored, StoredBytes;
    assert PcOk(s.slot, Pending(s), s.pcs[t]);
  }

  lemma ReaderAdvances(s: Sys, t: nat)
    requires Inv(s) && Enabled(s, Step(t)) && ReadingPc(s.pcs[t])
    ensures var s', pc := Apply(s, Step(t)), s.pcs[t];
            && |s'.pcs| == |s.pcs| && s'.accepted == s.accepted
            && if Work(pc, PendingLength(s)) == 1
               then
                 && s'.pcs[t] == Idle && Returned(s, Step(t)) == Some(Verdict(s, pc))
                 && s'.delivered == s.delivered + DeliveredBy(Returned(s, Step(t)))
                 && s'.slot.state == if Verdict(s, pc).Delivered? then Empty else Full
               else
                 && ReadingPc(s'.pcs[t]) && Returned(s, Step(t)) == None && s'.delivered == s.delivered
                 && Work(s'.pcs[t], PendingLength(s)) == Work(pc, PendingLength(s)) - 1
                 && Verdict(s, s'.pcs[t]) == Verdict(s, pc)
  {
    hide Ownership, InOrder;
    assert PcOk(s.slot, Pending(s), s.pcs[t]);
    assert s.pcs[t].DeqByte? ==> s.slot.len == |Pending(s).value.bytes|;
  }

  /** The operations of the others change nothing for a thread inside the slot. */
  lemma InsiderWaits(s: Sys, a: Action, t: nat)
    requires Inv(s) && Enabled(s, a) && t < |s.pcs| && t != a.t && Inside(s.pcs[t])
    ensures var s' := Apply(s, a);
            && |s'.pcs| == |s.pcs| && s'.pcs[t] == s.pcs[t]
            && s'.accepted == s.accepted && s'.delivered == s.delivered
  {
    hide InOrder, PcOk, Stored;
    assert s.owner == Some(t) && s.owner != Some(a.t);
    assert !WritingPc(s.pcs[a.t]) && !ReadingPc(s.pcs[a.t]);
  }

  /** The answer that the last operation of `t` in a run gave. */
  ghost function LastAnswer(s: Sys, acts: seq<Action>, t: nat): Option<Event>
    requires Runs(s, acts)
    decreases acts
  {
    if acts == [] then None
    else
      var later := LastAnswer(Apply(s, acts[0]), acts[1..], t);
      if later == None && acts[0].t == t then Returned(s, acts[0]) else later
  }

  /**
   * Whoever is inside the slot gets out with its answer after exactly `Work` operations of its own,
   * whatever the other threads do in between: a writer is accepted, a reader takes the whole pending
   * envelope, or leaves it if it does not fit.
   */
  lemma {:induction false} InsiderSucceeds(s: Sys, acts: seq<Action>, t: nat)
    requires Inv(s) && Runs(s, acts) && t < |s.pcs| && Inside(s.pcs[t])
    requires forall i | 0 <= i < |acts| :: acts[i].t == t ==> acts[i].Step?
    requires StepsOf(acts, t) == Work(s.pcs[t], PendingLength(s))
    ensures |Exec(s, acts).pcs| == |s.pcs| && Exec(s, acts).pcs[t] == Idle
    ensures LastAnswer(s, acts, t) == Some(Verdict(s, s.pcs[t]))
    ensures s.accepted + MessageOf(s.pcs[t]) <= Exec(s, acts).accepted
    ensures s.delivered + DeliveredBy(Some(Verdict(s, s.pcs[t]))) <= Exec(s, acts).delivered
    decreases acts
  {
    hide Inv, Apply, Enabled, Returned, Work, Verdict, MessageOf, DeliveredBy;
    WorkIsLeft(s, t);
    var s' := Apply(s, acts[0]);
    StepKeepsInv(s, acts[0]);
    if acts[0].t != t {
      InsiderWaits(s, acts[0], t);
      SameVerdict(s, s', s.pcs[t]);
      InsiderSucceeds(s', acts[1..], t);
    } else {
      assert acts[0] == Step(t);
      InsiderAdvances(s, t);
      if StepsOf(acts, t) == 1 {
        StaysIdle(s', acts[1..], t);
        HistoriesGrow(s', acts[1..]);
      } else {
        InsiderSucceeds(s', acts[1..], t);
      }
    }
  }

  lemma WorkIsLeft(s: Sys, t: nat)
    requires t < |s.pcs| && Inside(s.pcs[t])
    ensures Work(s.pcs[t], PendingLength(s)) >= 1
  {
  }

  lemma SameVerdict(s: Sys, s': Sys, pc: Pc)
    requires Inside(pc) && s'.accepted == s.accepted && s'.delivered == s.delivered
    ensures PendingLength(s') == PendingLength(s) && Verdict(s', pc) == Verdict(s, pc)
  {
  }

  lemma {:induction false} HistoriesGrow(s: Sys, acts: seq<Action>)
    requires Runs(s, acts)
    ensures s.accepted <= Exec(s, acts).accepted && s.delivered <= Exec(s, acts).delivered
    decreases acts
  {
    if acts != [] {
      HistoriesGrow(Apply(s, acts[0]), acts[1..]);
    }
  }

  lemma {:induction false} StaysIdle(s: Sys, acts: seq<Action>, t: nat)
    requires Inv(s) && Runs(s, acts) && t < |s.pcs| && s.pcs[t] == Idle
    requires StepsOf(acts, t) == 0 && forall i | 0 <= i < |acts| :: acts[i].t == t ==> acts[i].Step?
    ensures |Exec(s, acts).pcs| == |s.pcs| && Exec(s, acts).pcs[t] == Idle && LastAnswer(s, acts, t) == None
    decreases acts
  {
    if acts != [] {
      OperationSpends(s, acts[0], t);
      StepKeepsInv(s, acts[0]);
      assert acts[0] != Step(t) && acts[0].t != t;
      assert Apply(s, acts[0]).pcs[t] == Idle;
      StaysIdle(Apply(s, acts[0]), acts[1..], t);
    }
  }

  // ----- how often a slot is polled

  predicate Polling(s: Sys, t: nat) { t < |s.pcs| && s.pcs[t].DeqClaim? }

  lemma PollingMoves(s: Sys, a: Action, t: nat)
    requires Enabled(s, a) && t < |s.pcs| && (a.t == t ==> a.Step?)
    ensures |Apply(s, a).pcs| == |s.pcs|
    ensures !Polling(s, t) ==> !Polling(Apply(s, a), t)
    ensures Polling(s, t) && Polling(Apply(s, a), t)
            ==> Apply(s, a).pcs[t] == s.pcs[t].(tries := s.pcs[t].tries + (if a == Step(t) then 1 else 0))
  {
  }

  lemma PollingIsInside(s: Sys, t: nat)
    requires Polling(s, t)
    ensures t < |s.pcs| && s.pcs[t].DeqClaim?
  {
  }

  lemma {:induction false} NeverPollsAgain(s: Sys, acts: seq<Action>, t: nat)
    requires Inv(s) && Runs(s, acts) && t < |s.pcs| && !Polling(s, t)
    requires forall i | 0 <= i < |acts| :: acts[i].t == t ==> acts[i].Step?
    ensures !Polling(Exec(s, acts), t)
    decreases acts
  {
    hide Apply, Inv, Enabled, Polling;
    if acts != [] {
      StepKeepsInv(s, acts[0]);
      PollingMoves(s, acts[0], t);
      NeverPollsAgain(Apply(s, acts[0]), acts[1..], t);
    }
  }

  lemma {:induction false} PollsAreCounted(s: Sys, acts: seq<Action>, t: nat)
    requires Inv(s) && Runs(s, acts) && Polling(s, t) && Polling(Exec(s, acts), t)
    requires forall i | 0 <= i < |acts| :: acts[i].t == t ==> acts[i].Step?
    ensures Exec(s, acts).pcs[t] == s.pcs[t].(tries := s.pcs[t].tries + StepsOf(acts, t))
    decreases acts
  {
    PollingIsInside(s, t);
    hide Apply, Inv, Enabled, Polling;
    if acts != [] {
      var s' := Apply(s, acts[0]);
      StepKeepsInv(s, acts[0]);
      PollingMoves(s, acts[0], t);
      if Polling(s', t) {
        PollsAreCounted(s', acts[1..], t);
      } else {
        NeverPollsAgain(s', acts[1..], t);
      }
    }
  }

  /**
   * However the others run, a dequeue finds the slot empty only when it has polled once per nanosecond
   * asked for, at least once and at most a million times, and nothing was there the last time.
   */
  lemma GivesUpAfterBudget(s: Sys, t: nat, cap: nat, maxWaitNs: u64, acts: seq<Action>)
    requires Inv(s) && Enabled(s, CallDequeue(t, cap, maxWaitNs))
    requires Runs(Apply(s, CallDequeue(t, cap, maxWaitNs)), acts)
    requires forall i | 0 <= i < |acts| :: acts[i].t == t ==> acts[i].Step?
    ensures var s' := Exec(Apply(s, CallDequeue(t, cap, maxWaitNs)), acts);
            Polling(s', t) && Enabled(s', Step(t)) ==>
              (Returned(s', Step(t)) == Some(FoundEmpty) <==>
               && s'.slot.state != Full
               && StepsOf(acts, t) + 1
                  == if maxWaitNs == 0 then 1 else if maxWaitNs > 1_000_000 then 1_000_000 else maxWaitNs)
  {
    var s1 := Apply(s, CallDequeue(t, cap, maxWaitNs));
    StepKeepsInv(s, CallDequeue(t, cap, maxWaitNs));
    RunKeepsInv(s1, acts);
    var s' := Exec(s1, acts);
    if Polling(s', t) {
      PollsAreCounted(s1, acts, t);
      assert PcOk(s'.slot, Pending(s'), s'.pcs[t]);
    }
  }

  // ----- a call that runs alone

  function Alone(t: nat, n: nat): seq<Action> { seq(n, i => Step(t)) }

  lemma AloneIs(t: nat, n: nat)
    requires n > 0
    ensures Alone(t, n) == [Step(t)] + Alone(t, n - 1) && Alone(t, n)[1..] == Alone(t, n - 1)
  {
  }

  lemma NoneAlone(t: nat)
    ensures Alone(t, 0) == []
  {
  }

  lemma InsideIsEnabled(s: Sys, t: nat)
    requires Inv(s) && t < |s.pcs| && s.pcs[t] != Idle
    ensures Enabled(s, Step(t))
  {
  }

  lemma OnlyActorMoves(s: Sys, a: Action)
    requires Enabled(s, a)
    ensures Apply(s, a).pcs == s.pcs[a.t := Apply(s, a).pcs[a.t]]
  {
  }

  /** Once inside, a thread can go on until it has its answer, and then the slot is full or empty again. */
  lemma {:induction false} AloneGetsOut(s: Sys, t: nat, n: nat)
    requires Inv(s) && t < |s.pcs| && Inside(s.pcs[t]) && n == Work(s.pcs[t], PendingLength(s))
    ensures Runs(s, Alone(t, n))
    ensures Ends(s, Exec(s, Alone(t, n)), t, Verdict(s, s.pcs[t]), MessageOf(s.pcs[t]))
    ensures LastAnswer(s, Alone(t, n), t) == Some(Verdict(s, s.pcs[t]))
    decreases n
  {
    hide Inv, Apply, Returned, Work, Verdict, MessageOf, DeliveredBy, Alone;
    WorkIsLeft(s, t);
    InsideIsEnabled(s, t);
    AloneIs(t, n);
    var s' := Apply(s, Step(t));
    StepKeepsInv(s, Step(t));
    InsiderAdvances(s, t);
    OnlyActorMoves(s, Step(t));
    if n > 1 {
      AloneGetsOut(s', t, n - 1);
    } else {
      NoneAlone(t);
    }
  }

  /** How the call of `t`, and nothing else, ended between two states. */
  ghost predicate Ends(s: Sys, s': Sys, t: nat, answer: Event, accepted: seq<Message>)
    requires t < |s.pcs|
  {
    && s'.pcs == s.pcs[t := Idle]
    && s'.accepted == s.accepted + accepted
    && s'.delivered == s.delivered + DeliveredBy(Some(answer))
    && s'.slot.state == if answer.Delivered? then Empty else Full
  }

  /** The state of `t` before its first poll, or between two of them, while the slot holds nothing to read. */
  lemma {:induction false} PollsAlone(s: Sys, t: nat, cap: nat, budget: nat, tries: nat)
    requires Inv(s) && t < |s.pcs| && s.pcs[t] == DeqClaim(cap, budget, tries) && s.slot.state == Empty
    ensures tries < budget && Runs(s, Alone(t, budget - tries))
    ensures Exec(s, Alone(t, budget - tries)) == s.(pcs := s.pcs[t := Idle])
    ensures LastAnswer(s, Alone(t, budget - tries), t) == Some(FoundEmpty)
    decreases |s.pcs|, budget - tries
  {
    hide Alone, Ownership, InOrder;
    assert PcOk(s.slot, Pending(s), s.pcs[t]);
    AloneIs(t, budget - tries);
    StepKeepsInv(s, Step(t));
    var s' := Apply(s, Step(t));
    if tries + 1 < budget {
      PollsAlone(s', t, cap, budget, tries + 1);
      assert s'.pcs[t := Idle] == s.pcs[t := Idle];
    } else {
      NoneAlone(t);
    }
  }

  /** An envelope that does not fit is put back as it was. */
  lemma RestoredAlone(s: Sys, t: nat, cap: nat)
    requires Inv(s) && t < |s.pcs| && s.pcs[t] == DeqLen(cap) && cap < PendingLength(s)
    ensures Runs(s, Alone(t, 2))
    ensures Exec(s, Alone(t, 2)) == s.(slot := s.slot.(state := Full), owner := None, pcs := s.pcs[t := Idle])
  {
    hide Alone, Ownership, InOrder;
    assert PcOk(s.slot, Pending(s), s.pcs[t]);
    AloneIs(t, 2);
    AloneIs(t, 1);
    NoneAlone(t);
    var s' := Apply(s, Step(t));
    AfterFirst(s', Step(t), [], t);
    AfterFirst(s, Step(t), Alone(t, 1), t);
    assert s'.pcs[t := Idle] == s.pcs[t := Idle];
  }

  /** A run of one action and what follows it. */
  lemma AfterFirst(s: Sys, a: Action, acts: seq<Action>, t: nat)
    requires Enabled(s, a) && Runs(Apply(s, a), acts) && a.t == t
    ensures Runs(s, [a] + acts) && Exec(s, [a] + acts) == Exec(Apply(s, a), acts)
    ensures LastAnswer(s, [a] + acts, t)
            == if LastAnswer(Apply(s, a), acts, t) == None then Returned(s, a) else LastAnswer(Apply(s, a), acts, t)
  {
    assert ([a] + acts)[1..] == acts;
  }

  /** `acts` is a run from `s` in which `t` gets `answer`, and that ends in `s'`. */
  ghost predicate Answers(s: Sys, acts: seq<Action>, t: nat, answer: Event, s': Sys) {
    Runs(s, acts) && LastAnswer(s, acts, t) == Some(answer) && Exec(s, acts) == s'
  }

  /**
   * A whole enqueue while nobody else is inside: the operations it takes, its answer, and what it
   * leaves. It is what the sequential `Enqueue` says.
   */
  lemma EnqueueAlone(s: Sys, t: nat, env: seq<byte>, route: u32) returns (acts: seq<Action>, s': Sys)
    requires Inv(s) && Enabled(s, CallEnqueue(t, env, route)) && s.owner == None
    ensures acts == [CallEnqueue(t, env, route)]
                    + Alone(t, if |env| > ENVELOPE_SLOT_BYTES then 0 else if s.slot.state == Full then 1 else |env| + 5)
    ensures |env| > ENVELOPE_SLOT_BYTES ==>
              && Answers(s, acts, t, RefusedOversize(env), s') && s' == s
              && Enqueue(Abs(s).content, env) == (Abs(s).content, Err(PayloadOversize))
    ensures |env| <= ENVELOPE_SLOT_BYTES && s.slot.state == Full ==>
              && Answers(s, acts, t, RefusedFull, s') && s' == s
              && Enqueue(Abs(s).content, env) == (Abs(s).content, Err(QueueFull))
    ensures |env| <= ENVELOPE_SLOT_BYTES && s.slot.state != Full ==>
              && Answers(s, acts, t, Accepted(env), s') && s'.pcs == s.pcs && s'.delivered == s.delivered
              && s'.accepted == s.accepted + [Message(env, route)] && s'.slot.state == Full
              && Abs(s').content == Some(env) && Enqueue(Abs(s).content, env) == (Some(env), Ok(()))
  {
    var call := CallEnqueue(t, env, route);
    if |env| > ENVELOPE_SLOT_BYTES {
      NoneAlone(t);
      AfterFirst(s, call, [], t);
      acts, s' := [call], s;
    } else {
      StepKeepsInv(s, call);
      var s1 := Apply(s, call);
      assert s1 == s.(pcs := s.pcs[t := EnqClaim(env, route)]);
      StepKeepsInv(s1, Step(t));
      var s2 := Apply(s1, Step(t));
      var n := if s.slot.state == Full then 1 else |env| + 5;
      AloneIs(t, n);
      if s.slot.state == Full {
        NoneAlone(t);
        assert s.pcs[t := EnqClaim(env, route)][t := Idle] == s.pcs;
      } else {
        AloneGetsOut(s2, t, n - 1);
      }
      AfterFirst(s1, Step(t), Alone(t, n - 1), t);
      AfterFirst(s, call, Alone(t, n), t);
      acts := [call] + Alone(t, n);
      s' := Exec(s, acts);
      assert s.slot.state != Full ==> s2.pcs[t := Idle] == s.pcs;
    }
  }

  /** A thread at its first poll of a full slot. */
  lemma TakenAlone(s: Sys, t: nat, cap: nat, budget: nat) returns (s': Sys)
    requires Inv(s) && t < |s.pcs| && s.pcs[t] == DeqClaim(cap, budget, 0) && s.slot.state == Full
    ensures Abs(s).content.Some? && |Abs(s).content.value| == PendingLength(s)
    ensures cap < PendingLength(s) ==>
              Answers(s, Alone(t, 3), t, TooSmall(cap), s') && s' == s.(pcs := s.pcs[t := Idle])
    ensures cap >= PendingLength(s) ==>
              && Answers(s, Alone(t, PendingLength(s) + 5), t, Delivered(Abs(s).content.value), s')
              && s'.pcs == s.pcs[t := Idle] && s'.accepted == s.accepted && s'.slot.state == Empty
              && s'.delivered == s.delivered + [Abs(s).content.value]
  {
    assert s.owner == None;
    hide Ownership, Stored, PcOk;
    var n := PendingLength(s);
    var k := if cap < n then 3 else n + 5;
    StepKeepsInv(s, Step(t));
    var s1 := Apply(s, Step(t));
    assert s1.pcs[t] == DeqLen(cap);
    AloneIs(t, k);
    AloneGetsOut(s1, t, k - 1);
    AfterFirst(s, Step(t), Alone(t, k - 1), t);
    s' := Exec(s1, Alone(t, k - 1));
    assert s1.pcs[t := Idle] == s.pcs[t := Idle];
    if cap < n {
      RestoredAlone(s1, t, cap);
      assert s1.(slot := s1.slot.(state := Full), owner := None, pcs := s.pcs[t := Idle]) == s.(pcs := s.pcs[t := Idle]);
    }
  }

  /**
   * A whole dequeue while nobody else is inside: an empty slot is polled once per nanosecond asked for,
   * at least once and at most a million times; an envelope is delivered if it fits, and otherwise put
   * back. It is what the sequential `Dequeue` says.
   */
  lemma DequeueAlone(s: Sys, t: nat, cap: nat, maxWaitNs: u64) returns (acts: seq<Action>, s': Sys)
    requires Inv(s) && Enabled(s, CallDequeue(t, cap, maxWaitNs)) && s.owner == None
    ensures var n := PendingLength(s);
            acts == [CallDequeue(t, cap, maxWaitNs)]
                    + Alone(t, if s.slot.state != Full then
                                 if maxWaitNs == 0 then 1 else if maxWaitNs > 1_000_000 then 1_000_000 else maxWaitNs
                               else if cap < n then 3 else n + 5)
    ensures s.slot.state != Full ==>
              && Answers(s, acts, t, FoundEmpty, s') && s' == s
              && Dequeue(Abs(s).content, cap) == (None, Err(QueueEmpty))
    ensures s.slot.state == Full && cap < PendingLength(s) ==>
              && Answers(s, acts, t, TooSmall(cap), s') && s' == s
              && Dequeue(Abs(s).content, cap) == (Abs(s).content, Err(PayloadOversize))
    ensures s.slot.state == Full && cap >= PendingLength(s) ==>
              && Abs(s).content.Some? && Answers(s, acts, t, Delivered(Abs(s).content.value), s')
              && s'.pcs == s.pcs && s'.accepted == s.accepted && s'.slot.state == Empty
              && s'.delivered == s.delivered + [Abs(s).content.value]
              && Dequeue(Abs(s).content, cap) == (None, Ok(|Abs(s).content.value|))
  {
    var call := CallDequeue(t, cap, maxWaitNs);
    StepKeepsInv(s, call);
    var budget := SpinBudget(maxWaitNs);
    var s1 := Apply(s, call);
    assert s1 == s.(pcs := s.pcs[t := DeqClaim(cap, budget, 0)]);
    var n := PendingLength(s);
    if s.slot.state != Full {
      PollsAlone(s1, t, cap, budget, 0);
      AfterFirst(s, call, Alone(t, budget), t);
      acts, s' := [call] + Alone(t, budget), s;
      assert s1.pcs[t := Idle] == s.pcs;
    } else {
      var k := if cap < n then 3 else n + 5;
      assert Abs(s1) == Abs(s);
      s' := TakenAlone(s1, t, cap, budget);
      AfterFirst(s, call, Alone(t, k), t);
      acts := [call] + Alone(t, k);
      assert s1.pcs[t := Idle] == s.pcs;
    }
  }
}

/** The slot driven by one caller at a time, with the loops of the original. */
module EnvelopeQueue {
  import opened Words
  import opened OnePlaceBuffer
  import EnvelopeSteps

  class EnvelopeSlot {
    var state: EnvelopeSteps.SlotState
    var len: nat
    var route: u32
    var depth: nat
    const bytes: array<byte>

    /** Between calls the slot is empty or full, and the depth says which. */
    ghost predicate Valid()
      reads this, bytes
    {
      && bytes.Length == ENVELOPE_SLOT_BYTES
      && (state == EnvelopeSteps.Empty || state == EnvelopeSteps.Full)
      && len <= ENVELOPE_SLOT_BYTES
      && depth == (if state == EnvelopeSteps.Full then 1 else 0)
      && (state == EnvelopeSteps.Empty ==> len == 0)
    }

    ghost function Content(): Option<seq<byte>>
      requires Valid()
      reads this, bytes
    {
      if state == EnvelopeSteps.Full then Some(bytes[..len]) else None
    }

    constructor ()
      ensures Valid() && fresh(bytes) && Content() == None
    {
      state, len, route, depth := EnvelopeSteps.Empty, 0, 0, 0;
      bytes := new byte[ENVELOPE_SLOT_BYTES](i => 0);
    }

    method DispatchEnqueueBytes(env: seq<byte>, routeHint: u32) returns (r: Result<(), EnvelopeErr>)
      requires Valid()
      modifies this, bytes
      ensures Valid()
      ensures (Content(), r) == Enqueue(old(Content()), env)
      ensures route == if r.Ok? then routeHint else old(route)
    {
      if |env| > ENVELOPE_SLOT_BYTES {
        return Err(PayloadOversize);
      }
      if state != EnvelopeSteps.Empty {
        return Err(QueueFull);
      }
      state := EnvelopeSteps.Writing;
      for i := 0 to |env|
        modifies bytes
        invariant bytes[..i] == env[..i]
      {
        bytes[i] := env[i];
      }
      len := |env|;
      route := routeHint;
      depth := 1;
      state := EnvelopeSteps.Full;
      assert bytes[..len] == env[..|env|] == env;
      return Ok(());
    }

    /** Dequeues into the first `cap` bytes of `buf`. */
    method DispatchDequeueBytes(buf: array<byte>, cap: nat, maxWaitNs: u64) returns (r: Result<nat, EnvelopeErr>)
      requires Valid() && cap <= buf.Length && buf != bytes
      modifies this, buf
      ensures Valid()
      ensures (Content(), r) == Dequeue(old(Content()), cap)
      ensures r.Ok? ==> buf[..r.value] == old(Content()).value && buf[r.value..] == old(buf[r.value..])
      ensures r.Err? ==> buf[..] == old(buf[..])
      ensures route == old(route)
    {
      var spinBudget := SpinBudget(maxWaitNs);
      var tries := 0;
      while true
        invariant tries < spinBudget
        invariant state == old(state) && len == old(len) && depth == old(depth) && route == old(route)
        invariant buf[..] == old(buf[..])
        decreases spinBudget - tries
      {
        if state == EnvelopeSteps.Full {
          state := EnvelopeSteps.Reading;
          var n := len;
          if n > cap {
            state := EnvelopeSteps.Full;
            return Err(PayloadOversize);
          }
          for i := 0 to n
            modifies buf
            invariant buf[..i] == bytes[..i]
            invariant buf[i..] == old(buf[i..])
          {
            buf[i] := bytes[i];
          }
          len := 0;
          depth := 0;
          state := EnvelopeSteps.Empty;
          return Ok(n);
        }
        tries := tries + 1;
        if tries >= spinBudget {
          return Err(QueueEmpty);
        }
      }
    }

    method QueueDepth() returns (d: nat)
      requires Valid()
      ensures d == if Content().Some? then 1 else 0
    {
      d := depth;
    }
  }
}
