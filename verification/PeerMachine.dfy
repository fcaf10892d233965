/** The peer lifecycle: a seven-state machine with a bounded history. */
module PeerMachine {
  import opened Words

  datatype PeerState = Dark | Probing | Alive | Kicked | Responding | Drift | Halt

  datatype Record = Record(tsNs: u64, from: PeerState, to: PeerState, reason: string)

  const HISTORY_CAP: nat := 256

  function LegalTransitions(from: PeerState): set<PeerState> {
    match from
    case Dark => {Probing}
    case Probing => {Alive, Dark}
    case Alive => {Kicked, Dark, Probing}
    case Kicked => {Responding, Drift, Halt, Dark}
    case Responding => {Alive, Kicked, Drift, Halt}
    case Drift => {Alive, Halt, Dark}
    case Halt => {Dark}
  }

  /** Where each state is entered from: every state but a responding one can go dark, a halted one nowhere else. */
  lemma EntriesOf(from: PeerState, to: PeerState)
    ensures to in LegalTransitions(from) <==>
            match to
            case Dark => from !in {Dark, Responding}
            case Probing => from in {Dark, Alive}
            case Alive => from in {Probing, Responding, Drift}
            case Kicked => from in {Alive, Responding}
            case Responding => from == Kicked
            case Drift => from in {Kicked, Responding}
            case Halt => from in {Kicked, Responding, Drift}
  {
  }

  // ----- the full trace of accepted transitions

  ghost predicate Linked(trace: seq<Record>, i: nat)
    requires i < |trace|
  {
    && trace[i].to in LegalTransitions(trace[i].from)
    && trace[i].from == (if i == 0 then Dark else trace[i - 1].to)
  }

  ghost predicate IsTrace(trace: seq<Record>) { forall i: nat | i < |trace| :: Linked(trace, i) }

  function StateAfter(trace: seq<Record>): PeerState { if trace == [] then Dark else trace[|trace| - 1].to }

  function Last256(trace: seq<Record>): seq<Record> {
    if |trace| > HISTORY_CAP then trace[|trace| - HISTORY_CAP..] else trace
  }

  lemma TraceExtends(trace: seq<Record>, r: Record)
    requires IsTrace(trace) && r.from == StateAfter(trace) && r.to in LegalTransitions(r.from)
    ensures IsTrace(trace + [r])
  {
    forall i: nat | i < |trace + [r]| ensures Linked(trace + [r], i) {
      assert i < |trace| ==> Linked(trace, i);
    }
  }

  /** Pushing a record and dropping the oldest beyond 256 keeps the last 256. */
  lemma WindowSlides(trace: seq<Record>, r: Record)
    ensures var h := Last256(trace) + [r];
            Last256(trace + [r]) == if |h| > HISTORY_CAP then h[1..] else h
  {
  }

  // ----- what a trace cannot do

  /** The peer is seen responding only directly after it was kicked. */
  lemma RespondingFollowsKicked(trace: seq<Record>, i: nat)
    requires IsTrace(trace) && i < |trace| && trace[i].to == Responding
    ensures trace[i].from == Kicked && i > 0 && trace[i - 1].to == Kicked
  {
    assert Linked(trace, i);
  }

  /** From a halt at `i` to the next time alive at `j`, the peer was dark and then probed. */
  lemma {:induction false} HaltToAliveIsProbed(trace: seq<Record>, i: nat, j: nat)
    requires IsTrace(trace) && i < j < |trace| && trace[i].to == Halt && trace[j].to == Alive
    ensures exists d, p :: i < d < p < j && trace[d].to == Dark && trace[p].to == Probing
  {
    assert Linked(trace, i + 1);
    DarkToAliveIsProbed(trace, i + 1, j);
  }

  lemma {:induction false} DarkToAliveIsProbed(trace: seq<Record>, i: nat, j: nat)
    requires IsTrace(trace) && i < j < |trace| && trace[i].to == Dark && trace[j].to == Alive
    ensures exists p :: i < p < j && trace[p].to == Probing
  {
    assert Linked(trace, i + 1);
  }

  /** Every kick is of an alive or responding peer, so a drifting or halted peer is never kicked. */
  lemma KickedFollowsAliveOrResponding(trace: seq<Record>, i: nat)
    requires IsTrace(trace) && i < |trace| && trace[i].to == Kicked
    ensures trace[i].from == Alive || trace[i].from == Responding
    ensures i > 0 && trace[i - 1].to == trace[i].from
  {
    assert Linked(trace, i);
  }

  /** No peer is lost: at most three more transitions bring it to life. */
  lemma NobodyIsStuck(trace: seq<Record>) returns (more: seq<Record>)
    requires IsTrace(trace)
    ensures IsTrace(trace + more) && StateAfter(trace + more) == Alive && |more| <= 3
  {
    var s := StateAfter(trace);
    var route: seq<PeerState> :=
      match s
      case Alive => []
      case Probing => [Alive]
      case Responding => [Alive]
      case Drift => [Alive]
      case Kicked => [Responding, Alive]
      case Dark => [Probing, Alive]
      case Halt => [Dark, Probing, Alive];
    more := seq(|route|, i requires 0 <= i < |route| => Record(0, if i == 0 then s else route[i - 1], route[i], ""));
    forall i: nat | i < |trace + more| ensures Linked(trace + more, i) {
      assert i < |trace| ==> Linked(trace, i);
    }
  }

  /** From a halt it takes no fewer. */
  lemma HaltedIsThreeFromAlive(trace: seq<Record>, more: seq<Record>)
    requires IsTrace(trace + more) && StateAfter(trace) == Halt && StateAfter(trace + more) == Alive
    ensures |more| >= 3
  {
    var n := |trace|;
    assert more == [] ==> trace + more == trace;
    assert |more| >= 1 ==> Linked(trace + more, n);
    assert |more| >= 2 ==> Linked(trace + more, n + 1);
  }

  // ----- the calls of a run

  datatype Call =
    | Transition(next: PeerState, reason: string)
    | OnKick(deadlineNs: u64)
    | OnReply
    | OnDrift
    | OnHalt

  /** The drift calls since the last reply call, refused ones included. */
  function DriftsSinceReply(calls: seq<Call>): nat {
    if calls == [] then 0
    else
      var last, before := calls[|calls| - 1], calls[..|calls| - 1];
      if last.OnReply? then 0
      else if last.OnDrift? then DriftsSinceReply(before) + 1
      else DriftsSinceReply(before)
  }

  lemma NextCall(calls: seq<Call>, c: Call)
    ensures DriftsSinceReply(calls + [c])
            == if c.OnReply? then 0 else DriftsSinceReply(calls) + (if c.OnDrift? then 1 else 0)
  {
    assert (calls + [c])[..|calls|] == calls;
  }

  lemma {:induction false} DriftsCountFromReply(calls: seq<Call>, k: nat)
    requires k < |calls| && calls[k] == OnReply
    requires forall i | k < i < |calls| :: calls[i] != OnReply
    ensures DriftsSinceReply(calls) == Drifts(calls[k + 1..])
  {
    var n := |calls| - 1;
    if k < n {
      DriftsCountFromReply(calls[..n], k);
      assert calls[k + 1..][..n - k - 1] == calls[..n][k + 1..];
    } else {
      assert calls[k + 1..] == [];
    }
  }

  function Drifts(calls: seq<Call>): nat {
    if calls == [] then 0 else Drifts(calls[..|calls| - 1]) + (if calls[|calls| - 1] == OnDrift then 1 else 0)
  }

  class PeerStateMachine {
    var state: PeerState
    var history: seq<Record>
    var lastTransitionNs: u64
    var kickDeadlineNs: Option<u64>
    var strikes: u32
    /** Every accepted transition, and every call, since construction. */
    ghost var trace: seq<Record>
    ghost var calls: seq<Call>

    ghost predicate Valid()
      reads this
    {
      && IsTrace(trace)
      && state == StateAfter(trace)
      && history == Last256(trace)
      && lastTransitionNs == (if trace == [] then 0 else trace[|trace| - 1].tsNs)
      && strikes == Wrap32(DriftsSinceReply(calls))
    }

    constructor ()
      ensures Valid() && trace == [] && calls == [] && kickDeadlineNs == None
    {
      state, history, lastTransitionNs, kickDeadlineNs, strikes := Dark, [], 0, None, 0;
      trace, calls := [], [];
    }

    /** Accepted exactly if legal; a refused transition leaves state and history alone. */
    method Step(next: PeerState, reason: string, nowNs: u64) returns (ok: bool)
      requires IsTrace(trace) && state == StateAfter(trace) && history == Last256(trace)
      requires lastTransitionNs == (if trace == [] then 0 else trace[|trace| - 1].tsNs)
      modifies `state, `history, `lastTransitionNs, `trace
      ensures IsTrace(trace) && state == StateAfter(trace) && history == Last256(trace)
      ensures lastTransitionNs == (if trace == [] then 0 else trace[|trace| - 1].tsNs)
      ensures ok <==> next in LegalTransitions(old(state))
      ensures trace == old(trace) + (if ok then [Record(nowNs, old(state), next, reason)] else [])
    {
      if next !in LegalTransitions(state) {
        return false;
      }
      var prev := state;
      var r := Record(nowNs, prev, next, reason);
      TraceExtends(trace, r);
      WindowSlides(trace, r);
      state := next;
      lastTransitionNs := nowNs;
      history := history + [r];
      trace := trace + [r];
      if |history| > HISTORY_CAP {
        history := history[1..];
      }
      return true;
    }

    method Transition(next: PeerState, reason: string, nowNs: u64) returns (ok: bool)
      requires Valid()
      modifies this
      ensures Valid() && calls == old(calls) + [Call.Transition(next, reason)]
      ensures ok <==> next in LegalTransitions(old(state))
      ensures trace == old(trace) + (if ok then [Record(nowNs, old(state), next, reason)] else [])
      ensures kickDeadlineNs == old(kickDeadlineNs)
    {
      NextCall(calls, Call.Transition(next, reason));
      hide IsTrace, StateAfter, Last256, DriftsSinceReply;
      calls := calls + [Call.Transition(next, reason)];
      ok := Step(next, reason, nowNs);
    }

    /** Sets the deadline, on 64 bits, even if the kick is refused. */
    method OnKick(deadlineNsFromNow: u64, nowNs: u64) returns (ok: bool)
      requires Valid()
      modifies this
      ensures Valid() && calls == old(calls) + [Call.OnKick(deadlineNsFromNow)]
      ensures kickDeadlineNs == Some(Wrap64(nowNs + deadlineNsFromNow))
      ensures ok <==> old(state) == Alive || old(state) == Responding
      ensures trace == old(trace) + (if ok then [Record(nowNs, old(state), Kicked, "kick-issued")] else [])
    {
      NextCall(calls, Call.OnKick(deadlineNsFromNow));
      hide IsTrace, StateAfter, Last256, DriftsSinceReply;
      calls := calls + [Call.OnKick(deadlineNsFromNow)];
      kickDeadlineNs := Some(Wrap64(nowNs + deadlineNsFromNow));
      ok := Step(Kicked, "kick-issued", nowNs);
    }

    /** Clears the strikes even if the reply is refused. */
    method OnReply(nowNs: u64) returns (ok: bool)
      requires Valid()
      modifies this
      ensures Valid() && calls == old(calls) + [Call.OnReply]
      ensures strikes == 0 && kickDeadlineNs == old(kickDeadlineNs)
      ensures ok <==> old(state) == Kicked
      ensures trace == old(trace) + (if ok then [Record(nowNs, Kicked, Responding, "reply-observed")] else [])
    {
      NextCall(calls, Call.OnReply);
      hide IsTrace, StateAfter, Last256, DriftsSinceReply;
      calls := calls + [Call.OnReply];
      strikes := 0;
      ok := Step(Responding, "reply-observed", nowNs);
    }

    /** Counts a strike, on 32 bits, even if the drift is refused. */
    method OnDrift(nowNs: u64) returns (ok: bool)
      requires Valid()
      modifies this
      ensures Valid() && calls == old(calls) + [Call.OnDrift]
      ensures strikes == Wrap32(old(strikes) + 1) && kickDeadlineNs == old(kickDeadlineNs)
      ensures ok <==> old(state) == Kicked || old(state) == Responding
      ensures trace == old(trace) + (if ok then [Record(nowNs, old(state), Drift, "drift-detected")] else [])
    {
      NextCall(calls, Call.OnDrift);
      hide IsTrace, StateAfter, Last256, DriftsSinceReply;
      calls := calls + [Call.OnDrift];
      AddWrapped(DriftsSinceReply(old(calls)), 1);
      strikes := Wrap32(strikes + 1);
      ok := Step(Drift, "drift-detected", nowNs);
    }

    method OnHalt(nowNs: u64) returns (ok: bool)
      requires Valid()
      modifies this
      ensures Valid() && calls == old(calls) + [Call.OnHalt]
      ensures ok <==> old(state) == Kicked || old(state) == Responding || old(state) == Drift
      ensures trace == old(trace) + (if ok then [Record(nowNs, old(state), Halt, "halt-predicate-fired")] else [])
      ensures kickDeadlineNs == old(kickDeadlineNs)
    {
      NextCall(calls, Call.OnHalt);
      hide IsTrace, StateAfter, Last256, DriftsSinceReply;
      calls := calls + [Call.OnHalt];
      ok := Step(Halt, "halt-predicate-fired", nowNs);
    }

    /** Only a kicked peer is ever overdue. */
    method IsOverdue(nowNs: u64) returns (overdue: bool)
      requires Valid()
      ensures overdue <==> StateAfter(trace) == Kicked && kickDeadlineNs.Some? && nowNs > kickDeadlineNs.value
    {
      match (state, kickDeadlineNs) {
        case (Kicked, Some(deadline)) => overdue := nowNs > deadline;
        case _ => overdue := false;
      }
    }
  }

  /** The bounded history is itself linked and legal, and ends in the current state. */
  lemma HistoryIsLinked(trace: seq<Record>, i: nat)
    requires IsTrace(trace) && 0 < i < |Last256(trace)|
    ensures var h := Last256(trace);
            && |h| <= HISTORY_CAP
            && h[i].to in LegalTransitions(h[i].from) && h[i].from == h[i - 1].to
            && h[|h| - 1].to == StateAfter(trace)
  {
    var drop := |trace| - |Last256(trace)|;
    assert Linked(trace, drop + i);
  }
}
