/** The file-descriptor table: its constants and the answers of single operations. */
module FdTable {
  import opened Words
  import opened OnePlaceBuffer

  const FD_TABLE_SIZE: nat := 256
  const FIRST_USER_FD: nat := 3

  const FREE: byte := 0
  const UNBACKED: byte := 1
  const DEVNULL: byte := 2
  const BUSENVELOPE: byte := 3

  datatype VfsErr =
    | InvalidFd | InvalidOpForFd | InvalidBuf | LenExceedsBuf | TableFull
    | InvalidPath | InvalidMode | PayloadOversize | WouldBlock

  function BindingKindForPath(path: string): (kind: byte)
    ensures kind != FREE
  {
    if path == "/dev/null" then DEVNULL
    else if path == "/dev/bus/envelope" then BUSENVELOPE
    else UNBACKED
  }

  /** The checks before the scan; bits 0 and 1 are the valid mode bits. */
  function OpenArguments(path: string, mode: u32): Result<byte, VfsErr> {
    if path == "" then Err(InvalidPath)
    else if mode == 0 || mode / 4 != 0 then Err(InvalidMode)
    else Ok(BindingKindForPath(path))
  }

  function ReadError(e: EnvelopeErr): VfsErr {
    match e
    case QueueEmpty => WouldBlock
    case PayloadOversize => VfsErr.PayloadOversize
    case QueueFull => InvalidFd
  }

  function WriteError(e: EnvelopeErr): VfsErr {
    match e
    case QueueFull => WouldBlock
    case PayloadOversize => VfsErr.PayloadOversize
    case QueueEmpty => InvalidFd
  }

  /** What a read answers, and what it leaves in the envelope slot, given the descriptor's state byte. */
  function ReadReply(fd: u64, kind: byte, bufLen: nat, len: nat, content: Option<seq<byte>>):
    (Option<seq<byte>>, Result<nat, VfsErr>)
  {
    if len > bufLen then (content, Err(LenExceedsBuf))
    else if fd == 0 then (content, Ok(0))
    else if fd < FIRST_USER_FD then (content, Err(InvalidOpForFd))
    else if fd >= FD_TABLE_SIZE then (content, Err(InvalidFd))
    else if kind == DEVNULL then (content, Ok(0))
    else if kind == BUSENVELOPE then
      match Dequeue(content, len)
      case (left, Ok(n)) => (left, Ok(n))
      case (left, Err(e)) => (left, Err(ReadError(e)))
    else (content, Err(InvalidFd))
  }

  function WriteReply(fd: u64, kind: byte, data: seq<byte>, content: Option<seq<byte>>):
    (Option<seq<byte>>, Result<nat, VfsErr>)
  {
    if data == [] then (content, Err(InvalidBuf))
    else if fd == 0 then (content, Err(InvalidOpForFd))
    else if fd < FIRST_USER_FD then (content, Ok(|data|))
    else if fd >= FD_TABLE_SIZE then (content, Err(InvalidFd))
    else if kind == DEVNULL then (content, Ok(|data|))
    else if kind == BUSENVELOPE then
      match Enqueue(content, data)
      case (left, Ok(_)) => (left, Ok(|data|))
      case (left, Err(e)) => (left, Err(WriteError(e)))
    else (content, Err(InvalidFd))
  }

  predicate OnBus(fd: u64, kind: byte) { FIRST_USER_FD <= fd < FD_TABLE_SIZE && kind == BUSENVELOPE }

  predicate OnNull(fd: u64, kind: byte) { FIRST_USER_FD <= fd < FD_TABLE_SIZE && kind == DEVNULL }

  /** When a read gives which answer; a read of no bytes from the null device or standard input is the end of file. */
  lemma ReadOutcomes(fd: u64, kind: byte, bufLen: nat, len: nat, content: Option<seq<byte>>)
    ensures var r := ReadReply(fd, kind, bufLen, len, content).1;
            && (r == Err(LenExceedsBuf) <==> len > bufLen)
            && (r == Err(InvalidOpForFd) <==> len <= bufLen && (fd == 1 || fd == 2))
            && (r == Err(WouldBlock) <==> len <= bufLen && OnBus(fd, kind) && content == None)
            && (r == Err(VfsErr.PayloadOversize) <==>
                len <= bufLen && OnBus(fd, kind) && content.Some? && len < |content.value|)
            && (r.Ok? <==> len <= bufLen
                           && (fd == 0 || OnNull(fd, kind)
                               || (OnBus(fd, kind) && content.Some? && |content.value| <= len)))
            && (r.Ok? ==> r.value == if OnBus(fd, kind) then |content.value| else 0)
  {
  }

  /** When a write gives which answer; an accepted write is always a whole one. */
  lemma WriteOutcomes(fd: u64, kind: byte, data: seq<byte>, content: Option<seq<byte>>)
    ensures var r := WriteReply(fd, kind, data, content).1;
            && (r == Err(InvalidBuf) <==> data == [])
            && (r == Err(InvalidOpForFd) <==> data != [] && fd == 0)
            && (r == Err(WouldBlock) <==>
                data != [] && OnBus(fd, kind) && content.Some? && |data| <= ENVELOPE_SLOT_BYTES)
            && (r == Err(VfsErr.PayloadOversize) <==> OnBus(fd, kind) && |data| > ENVELOPE_SLOT_BYTES)
            && (r.Ok? <==> data != []
                           && (fd == 1 || fd == 2 || OnNull(fd, kind)
                               || (OnBus(fd, kind) && content == None && |data| <= ENVELOPE_SLOT_BYTES)))
            && (r.Ok? ==> r.value == |data|)
  {
  }

  /** Bytes reach the envelope slot, and leave it, through bus descriptors only, and each exactly once. */
  lemma OnlyBusMovesBytes(fd: u64, kind: byte, data: seq<byte>, bufLen: nat, len: nat, content: Option<seq<byte>>)
    ensures var (left, r) := WriteReply(fd, kind, data, content);
            left != content <==> content == None && r.Ok? && FIRST_USER_FD <= fd < FD_TABLE_SIZE && kind == BUSENVELOPE
    ensures var (left, r) := ReadReply(fd, kind, bufLen, len, content);
            left != content <==> content.Some? && r.Ok? && FIRST_USER_FD <= fd < FD_TABLE_SIZE && kind == BUSENVELOPE
  {
  }

  /**
   * A write that was accepted on an empty bus descriptor is read back, by any bus descriptor, with
   * exactly its length if the buffer is long enough, and stays for a later read if it is not.
   */
  lemma ReadAfterWrite(w: u64, r: u64, data: seq<byte>, bufLen: nat, len: nat)
    requires FIRST_USER_FD <= w < FD_TABLE_SIZE && FIRST_USER_FD <= r < FD_TABLE_SIZE && len <= bufLen
    requires WriteReply(w, BUSENVELOPE, data, None).1.Ok?
    ensures var held := WriteReply(w, BUSENVELOPE, data, None).0;
            && held == Some(data)
            && WriteReply(w, BUSENVELOPE, data, held) == (held, Err(WouldBlock))
            && ReadReply(r, BUSENVELOPE, bufLen, len, held)
               == (if |data| <= len then (None, Ok(|data|)) else (held, Err(VfsErr.PayloadOversize)))
            && ReadReply(r, BUSENVELOPE, bufLen, len, None) == (None, Err(WouldBlock))
  {
  }
}

/** Opens, closes, reads and writes by any number of threads, one atomic operation per step. */
module FdSteps {
  import opened Words
  import opened OnePlaceBuffer
  import opened FdTable

  /** The arguments of a read or a write. */
  datatype Transfer = Read(bufLen: nat, len: nat) | Write(data: seq<byte>)

  /**
   * A thread is idle, about to try slot `fd` for an open of the given kind, or about to carry out a
   * transfer after it loaded `kind` from slot `fd`, when the log had `since` entries.
   */
  datatype Pc =
    | Idle
    | ScanAt(fd: nat, kind: byte)
    | Loaded(fd: nat, kind: byte, op: Transfer, since: nat)

  datatype Event = Opened(fd: nat, kind: byte) | Closed(fd: nat)

  /**
   * `log` records the opens and closes that succeeded, in the order of their atomic operations;
   * `content` is what the envelope slot holds.
   */
  datatype Sys = Sys(table: seq<byte>, content: Option<seq<byte>>, pcs: seq<Pc>, log: seq<Event>)

  datatype Action =
    | CallOpen(t: nat, path: string, mode: u32)
    | Close(t: nat, fd: u64)
    | Load(t: nat, fd: u64, op: Transfer)
    | Step(t: nat)

  function Start(threads: nat): Sys {
    Sys(seq(FD_TABLE_SIZE, i => FREE), None, seq(threads, i => Idle), [])
  }

  predicate Enabled(s: Sys, a: Action) {
    && a.t < |s.pcs|
    && |s.table| == FD_TABLE_SIZE
    && (a.Step? <==> s.pcs[a.t] != Idle)
    && (a.Step? ==> s.pcs[a.t].fd < FD_TABLE_SIZE)
  }

  /** What a transfer answers and leaves in the envelope slot, by the kind it goes by. */
  function Reply(op: Transfer, fd: u64, kind: byte, content: Option<seq<byte>>): (Option<seq<byte>>, Result<nat, VfsErr>) {
    match op
    case Read(bufLen, len) => ReadReply(fd, kind, bufLen, len, content)
    case Write(data) => WriteReply(fd, kind, data, content)
  }

  /** The answer is decided before the slot of the descriptor is loaded. */
  predicate AnsweredWithoutLoad(fd: u64, op: Transfer) {
    || fd < FIRST_USER_FD
    || fd >= FD_TABLE_SIZE
    || match op { case Read(bufLen, len) => len > bufLen case Write(data) => data == [] }
  }

  /** One atomic operation on one slot of the table or on the envelope slot, or the local start of an open. */
  function Apply(s: Sys, a: Action): Sys
    requires Enabled(s, a)
  {
    match a
    case CallOpen(t, path, mode) =>
      (match OpenArguments(path, mode)
       case Ok(kind) => s.(pcs := s.pcs[t := ScanAt(FIRST_USER_FD, kind)])
       case Err(_) => s)
    case Close(t, fd) =>
      if fd < FIRST_USER_FD || fd >= FD_TABLE_SIZE || s.table[fd] == FREE then s
      else s.(table := s.table[fd := FREE], log := s.log + [Closed(fd)])
    case Load(t, fd, op) =>
      if AnsweredWithoutLoad(fd, op) || s.table[fd] != BUSENVELOPE then s
      else s.(pcs := s.pcs[t := Loaded(fd, s.table[fd], op, |s.log|)])
    case Step(t) =>
      match s.pcs[t]
      case Idle => s
      case ScanAt(fd, kind) =>
        if s.table[fd] == FREE
        then s.(table := s.table[fd := kind], pcs := s.pcs[t := Idle], log := s.log + [Opened(fd, kind)])
        else s.(pcs := s.pcs[t := if fd + 1 < FD_TABLE_SIZE then ScanAt(fd + 1, kind) else Idle])
      case Loaded(fd, kind, op, _) =>
        s.(content := Reply(op, fd, kind, s.content).0, pcs := s.pcs[t := Idle])
  }

  /** What the call of the acting thread returns, if this action makes it return. */
  function Returned(s: Sys, a: Action): Option<Result<nat, VfsErr>>
    requires Enabled(s, a)
  {
    match a
    case CallOpen(_, path, mode) =>
      (match OpenArguments(path, mode) case Ok(_) => None case Err(e) => Some(Err(e)))
    case Close(_, fd) =>
      if fd < FIRST_USER_FD then Some(Err(InvalidOpForFd))
      else if fd >= FD_TABLE_SIZE || s.table[fd] == FREE then Some(Err(InvalidFd))
      else Some(Ok(fd))
    case Load(_, fd, op) =>
      if AnsweredWithoutLoad(fd, op) then Some(Reply(op, fd, FREE, s.content).1)
      else if s.table[fd] != BUSENVELOPE then Some(Reply(op, fd, s.table[fd], s.content).1)
      else None
    case Step(t) =>
      match s.pcs[t]
      case Idle => None
      case ScanAt(fd, _) =>
        if s.table[fd] == FREE then Some(Ok(fd))
        else if fd + 1 < FD_TABLE_SIZE then None
        else Some(Err(TableFull))
      case Loaded(fd, kind, op, _) => Some(Reply(op, fd, kind, s.content).1)
  }

  /** The opens and closes that an action makes succeed. */
  function LoggedBy(s: Sys, a: Action): seq<Event>
    requires Enabled(s, a)
  {
    match Returned(s, a)
    case Some(Ok(fd)) =>
      if a.Close? then [Closed(fd)]
      else if a.Step? && s.pcs[a.t].ScanAt? then [Opened(fd, s.pcs[a.t].kind)]
      else []
    case _ => []
  }

  // ----- what the log says about a descriptor

  /** The kind the last open gave `fd`, unless it was closed since. */
  function Holder(log: seq<Event>, fd: nat): Option<byte> {
    if log == [] then None
    else
      match log[|log| - 1]
      case Opened(g, kind) => if g == fd then Some(kind) else Holder(log[..|log| - 1], fd)
      case Closed(g) => if g == fd then None else Holder(log[..|log| - 1], fd)
  }

  /** Only a descriptor nobody holds is opened, and only a held one is closed. */
  ghost predicate EventOk(log: seq<Event>, i: nat)
    requires i < |log|
  {
    match log[i]
    case Opened(fd, kind) => Holder(log[..i], fd) == None && kind != FREE && FIRST_USER_FD <= fd < FD_TABLE_SIZE
    case Closed(fd) => Holder(log[..i], fd).Some?
  }

  ghost predicate LogOk(log: seq<Event>) { forall i: nat | i < |log| :: EventOk(log, i) }

  predicate SlotIs(log: seq<Event>, fd: nat, state: byte) {
    match Holder(log, fd) case Some(kind) => state == kind != FREE case None => state == FREE
  }

  ghost predicate Inv(s: Sys) {
    && |s.table| == FD_TABLE_SIZE
    && LogOk(s.log)
    && (forall fd: nat | fd < FD_TABLE_SIZE :: SlotIs(s.log, fd, s.table[fd]))
    && (forall t | 0 <= t < |s.pcs| :: PcOk(s.log, s.pcs[t]))
  }

  /** A scan is inside the table; a transfer loaded the bus kind from a slot that was open with it. */
  ghost predicate PcOk(log: seq<Event>, pc: Pc) {
    match pc
    case Idle => true
    case ScanAt(fd, kind) => FIRST_USER_FD <= fd < FD_TABLE_SIZE && kind != FREE
    case Loaded(fd, kind, op, since) =>
      && FIRST_USER_FD <= fd < FD_TABLE_SIZE && kind == BUSENVELOPE && !AnsweredWithoutLoad(fd, op)
      && since <= |log| && Holder(log[..since], fd) == Some(kind)
  }

  lemma LogExtends(log: seq<Event>, e: Event)
    requires LogOk(log) && EventOk(log + [e], |log|)
    ensures LogOk(log + [e])
  {
    forall i: nat | i < |log + [e]| ensures EventOk(log + [e], i) {
      assert (log + [e])[..i] == log[..i];
      assert i < |log| ==> EventOk(log, i);
    }
  }

  /** One atomic step of any thread keeps the invariant, and logs exactly the successes it returns. */
  lemma StepKeepsInv(s: Sys, a: Action)
    requires Inv(s) && Enabled(s, a)
    ensures Inv(Apply(s, a)) && |Apply(s, a).pcs| == |s.pcs|
    ensures Apply(s, a).log == s.log + LoggedBy(s, a)
  {
    hide Apply, LoggedBy, PcOk, SlotIs, LogOk;
    StepLogs(s, a);
    StepKeepsTable(s, a);
    StepKeepsLog(s, a);
    forall t | 0 <= t < |s.pcs| ensures PcOk(Apply(s, a).log, Apply(s, a).pcs[t]) {
      StepKeepsPc(s, a, t);
    }
  }

  lemma StepKeepsLog(s: Sys, a: Action)
    requires Inv(s) && Enabled(s, a)
    ensures LogOk(Apply(s, a).log)
  {
    hide Reply, OpenArguments, Holder;
    StepLogs(s, a);
    assert PcOk(s.log, s.pcs[a.t]);
    var more := LoggedBy(s, a);
    if more != [] {
      assert more == [more[0]] && (s.log + more)[..|s.log|] == s.log;
      assert SlotIs(s.log, more[0].fd, s.table[more[0].fd]);
      LogExtends(s.log, more[0]);
    }
  }

  lemma StepKeepsTable(s: Sys, a: Action)
    requires Inv(s) && Enabled(s, a)
    ensures var s' := Apply(s, a);
            && |s'.table| == FD_TABLE_SIZE && |s'.pcs| == |s.pcs|
            && forall fd: nat | fd < FD_TABLE_SIZE :: SlotIs(s'.log, fd, s'.table[fd])
  {
    var s' := Apply(s, a);
    TableStays(s, a);
    forall fd: nat | fd < FD_TABLE_SIZE ensures SlotIs(s'.log, fd, s'.table[fd]) {
      SlotFollows(s, a, fd);
    }
    hide *;
  }

  lemma TableStays(s: Sys, a: Action)
    requires Enabled(s, a)
    ensures |Apply(s, a).table| == FD_TABLE_SIZE && |Apply(s, a).pcs| == |s.pcs|
  {
    hide Reply, OpenArguments;
  }

  lemma SlotFollows(s: Sys, a: Action, fd: nat)
    requires Inv(s) && Enabled(s, a) && fd < FD_TABLE_SIZE
    ensures |Apply(s, a).table| == FD_TABLE_SIZE && SlotIs(Apply(s, a).log, fd, Apply(s, a).table[fd])
  {
    assert PcOk(s.log, s.pcs[a.t]);
    assert SlotIs(s.log, fd, s.table[fd]);
    hide Reply, OpenArguments, LogOk, Holder;
    match a {
      case Close(_, g) => HolderNext(s.log, Closed(g), fd);
      case Step(t) =>
        if s.pcs[t].ScanAt? {
          HolderNext(s.log, Opened(s.pcs[t].fd, s.pcs[t].kind), fd);
        }
      case _ =>
    }
  }

  lemma HolderNext(log: seq<Event>, e: Event, fd: nat)
    ensures Holder(log + [e], fd)
            == match e
               case Opened(g, kind) => if g == fd then Some(kind) else Holder(log, fd)
               case Closed(g) => if g == fd then None else Holder(log, fd)
  {
    assert (log + [e])[..|log|] == log;
  }

  lemma StepLogs(s: Sys, a: Action)
    requires Enabled(s, a)
    ensures Apply(s, a).log == s.log + LoggedBy(s, a) && |LoggedBy(s, a)| <= 1
  {
    hide Reply;
  }

  lemma StepKeepsPc(s: Sys, a: Action, t: nat)
    requires Inv(s) && Enabled(s, a) && t < |s.pcs|
    ensures |Apply(s, a).pcs| == |s.pcs| && PcOk(Apply(s, a).log, Apply(s, a).pcs[t])
  {
    hide Reply, LogOk, EventOk;
    var s' := Apply(s, a);
    assert PcOk(s.log, s.pcs[t]);
    StepLogs(s, a);
    if s.pcs[t].Loaded? && s'.pcs[t] == s.pcs[t] {
      assert s'.log[..s.pcs[t].since] == s.log[..s.pcs[t].since];
    }
    if a.Load? && a.t == t && s'.pcs[t] != s.pcs[t] {
      assert SlotIs(s.log, a.fd, s.table[a.fd]);
      assert s.log[..|s.log|] == s.log;
    }
  }

  // ----- whole runs

  ghost predicate Runs(s: Sys, acts: seq<Action>)
    decreases acts
  {
    acts == [] || (Enabled(s, acts[0]) && Runs(Apply(s, acts[0]), acts[1..]))
  }

  ghost function Exec(s: Sys, acts: seq<Action>): Sys
    requires Runs(s, acts)
    decreases acts
  {
    if acts == [] then s else Exec(Apply(s, acts[0]), acts[1..])
  }

  lemma {:induction false} RunKeepsInv(s: Sys, acts: seq<Action>)
    requires Inv(s) && Runs(s, acts)
    ensures Inv(Exec(s, acts)) && |Exec(s, acts).pcs| == |s.pcs|
    decreases acts
  {
    if acts != [] {
      StepKeepsInv(s, acts[0]);
      RunKeepsInv(Apply(s, acts[0]), acts[1..]);
    }
  }

  lemma StartIsInv(threads: nat)
    ensures Inv(Start(threads))
  {
  }

  /** While nobody closes `fd`, whoever opened it keeps it. */
  lemma {:induction false} HeldUntilClosed(log: seq<Event>, fd: nat, i: nat, j: nat)
    requires LogOk(log) && i < j <= |log| && log[i].Opened? && log[i].fd == fd
    requires forall k | i < k < j :: log[k] != Closed(fd)
    ensures Holder(log[..j], fd).Some?
    decreases j
  {
    assert log[..j][..j - 1] == log[..j - 1];
    if i < j - 1 {
      HeldUntilClosed(log, fd, i, j - 1);
    }
  }

  /**
   * Any interleaving of any number of scans and closes: between two opens that returned the same
   * descriptor, a close of it succeeded; and between two successful closes it was opened.
   */
  lemma NoReuseBeforeClose(threads: nat, acts: seq<Action>, i: nat, j: nat)
    requires Runs(Start(threads), acts) && i < j < |Exec(Start(threads), acts).log|
    ensures var log := Exec(Start(threads), acts).log;
            && (log[i].Opened? && log[j].Opened? && log[i].fd == log[j].fd
                ==> exists k | i < k < j :: log[k] == Closed(log[i].fd))
            && (log[i].Closed? && log[j] == log[i]
                ==> exists k | i < k < j :: log[k].Opened? && log[k].fd == log[i].fd)
  {
    StartIsInv(threads);
    RunKeepsInv(Start(threads), acts);
    var log := Exec(Start(threads), acts).log;
    var fd := log[i].fd;
    assert EventOk(log, j);
    if log[i].Opened? && log[j].Opened? && log[j].fd == fd && forall k | i < k < j :: log[k] != Closed(fd) {
      HeldUntilClosed(log, fd, i, j);
      assert false;
    }
    if log[i].Closed? && log[j] == log[i] {
      if forall k | i < k < j :: !(log[k].Opened? && log[k].fd == fd) {
        FreeUntilOpened(log, fd, i, j);
        assert false;
      }
    }
  }

  lemma {:induction false} FreeUntilOpened(log: seq<Event>, fd: nat, i: nat, j: nat)
    requires i < j <= |log| && log[i] == Closed(fd)
    requires forall k | i < k < j :: !(log[k].Opened? && log[k].fd == fd)
    ensures Holder(log[..j], fd) == None
    decreases j
  {
    assert log[..j][..j - 1] == log[..j - 1];
    if i < j - 1 {
      FreeUntilOpened(log, fd, i, j - 1);
    }
  }

  // ----- counting

  function Opens(log: seq<Event>): nat {
    if log == [] then 0 else Opens(log[..|log| - 1]) + (if log[|log| - 1].Opened? then 1 else 0)
  }

  function Closes(log: seq<Event>): nat {
    if log == [] then 0 else Closes(log[..|log| - 1]) + (if log[|log| - 1].Closed? then 1 else 0)
  }

  function Occupied(table: seq<byte>): set<nat> {
    set fd: nat | fd < |table| && table[fd] != FREE
  }

  ghost function HeldFds(log: seq<Event>): set<nat> {
    set fd: nat | fd < FD_TABLE_SIZE && Holder(log, fd).Some?
  }

  lemma {:induction false} HeldIsOpensMinusCloses(log: seq<Event>)
    requires LogOk(log)
    ensures |HeldFds(log)| == Opens(log) - Closes(log)
  {
    if log == [] {
      assert HeldFds(log) == {};
    } else {
      var n := |log| - 1;
      var before, e := log[..n], log[n];
      assert log == before + [e];
      forall i: nat | i < n ensures EventOk(before, i) {
        assert EventOk(log, i) && before[..i] == log[..i];
      }
      HeldIsOpensMinusCloses(before);
      assert EventOk(log, n);
      if e.Opened? {
        assert HeldFds(log) == HeldFds(before) + {e.fd};
      } else {
        HeldIsUser(before, e.fd);
        assert HeldFds(before) == HeldFds(log) + {e.fd};
      }
    }
  }

  lemma {:induction false} HeldIsUser(log: seq<Event>, fd: nat)
    requires LogOk(log) && Holder(log, fd).Some?
    ensures FIRST_USER_FD <= fd < FD_TABLE_SIZE
  {
    var n := |log| - 1;
    assert EventOk(log, n);
    if log[n].fd != fd {
      forall i: nat | i < n ensures EventOk(log[..n], i) {
        assert EventOk(log, i) && log[..n][..i] == log[..i];
      }
      HeldIsUser(log[..n], fd);
    }
  }

  /** After any run, the occupied user slots are as many as the successful opens not yet closed. */
  lemma OccupiedIsOpensMinusCloses(threads: nat, acts: seq<Action>)
    requires Runs(Start(threads), acts)
    ensures var s := Exec(Start(threads), acts);
            && |Occupied(s.table)| == Opens(s.log) - Closes(s.log)
            && (forall fd | fd in Occupied(s.table) ::
                  FIRST_USER_FD <= fd < FD_TABLE_SIZE && Holder(s.log, fd) == Some(s.table[fd]))
  {
    StartIsInv(threads);
    RunKeepsInv(Start(threads), acts);
    var s := Exec(Start(threads), acts);
    forall fd: nat | fd < FD_TABLE_SIZE
      ensures fd in Occupied(s.table) <==> fd in HeldFds(s.log)
    {
      assert SlotIs(s.log, fd, s.table[fd]);
    }
    assert Occupied(s.table) == HeldFds(s.log);
    HeldIsOpensMinusCloses(s.log);
    forall fd | fd in Occupied(s.table)
      ensures FIRST_USER_FD <= fd < FD_TABLE_SIZE && Holder(s.log, fd) == Some(s.table[fd])
    {
      assert SlotIs(s.log, fd, s.table[fd]);
      HeldIsUser(s.log, fd);
    }
  }

  // ----- a scan that fails

  /** At some step of the run, thread `t` tried slot `fd` and found it taken. */
  ghost predicate TriedAndTaken(s: Sys, acts: seq<Action>, t: nat, fd: nat)
    requires Runs(s, acts) && t < |s.pcs|
    decreases acts
  {
    && acts != []
    && (|| (acts[0] == Step(t) && s.pcs[t].ScanAt? && s.pcs[t].fd == fd && s.table[fd] != FREE)
        || TriedAndTaken(Apply(s, acts[0]), acts[1..], t, fd))
  }

  lemma {:induction false} ScanSkipsNothing(s: Sys, acts: seq<Action>, t: nat, fd: nat)
    requires Inv(s) && Runs(s, acts) && t < |s.pcs| && s.pcs[t].ScanAt? && s.pcs[t].fd <= fd
    requires forall i | 0 <= i < |acts| :: acts[i].t == t ==> acts[i].Step?
    requires |Exec(s, acts).pcs| == |s.pcs| && Exec(s, acts).pcs[t].ScanAt? && fd < Exec(s, acts).pcs[t].fd
    ensures TriedAndTaken(s, acts, t, fd)
    decreases acts
  {
    StepKeepsInv(s, acts[0]);
    var s' := Apply(s, acts[0]);
    if s'.pcs[t] == Idle {
      IdleStays(s', acts[1..], t);
      assert false;
    } else if !(acts[0] == Step(t) && s.pcs[t].fd == fd) {
      ScanSkipsNothing(s', acts[1..], t, fd);
    }
  }

  lemma {:induction false} IdleStays(s: Sys, acts: seq<Action>, t: nat)
    requires Inv(s) && Runs(s, acts) && t < |s.pcs| && s.pcs[t] == Idle
    requires forall i | 0 <= i < |acts| :: acts[i].t == t ==> acts[i].Step?
    ensures |Exec(s, acts).pcs| == |s.pcs| && Exec(s, acts).pcs[t] == Idle
    decreases acts
  {
    if acts != [] {
      StepKeepsInv(s, acts[0]);
      IdleStays(Apply(s, acts[0]), acts[1..], t);
    }
  }

  /**
   * An open that returns `TableFull` tried every one of the 253 user slots, in whatever way the other
   * threads ran meanwhile, and found each taken when it tried it (the last one just now).
   */
  lemma FullMeansEachTaken(s: Sys, acts: seq<Action>, t: nat, fd: nat)
    requires Inv(s) && Runs(s, acts) && t < |s.pcs| && s.pcs[t].ScanAt? && s.pcs[t].fd == FIRST_USER_FD
    requires forall i | 0 <= i < |acts| :: acts[i].t == t ==> acts[i].Step?
    requires Enabled(Exec(s, acts), Step(t)) && Returned(Exec(s, acts), Step(t)) == Some(Err(TableFull))
    requires FIRST_USER_FD <= fd < FD_TABLE_SIZE
    ensures TriedAndTaken(s, acts, t, fd) || (fd == FD_TABLE_SIZE - 1 && Exec(s, acts).table[fd] != FREE)
  {
    RunKeepsInv(s, acts);
    if fd < FD_TABLE_SIZE - 1 {
      ScanSkipsNothing(s, acts, t, fd);
    }
  }

  /**
   * However the others run, an open tries one slot after the other, for the kind it was called with, and
   * makes at most 253 attempts; a transfer performs one operation after its load.
   */
  lemma {:induction false} ScanEnds(s: Sys, acts: seq<Action>, t: nat)
    requires Inv(s) && Runs(s, acts) && t < |s.pcs|
    requires forall i | 0 <= i < |acts| :: acts[i].t == t ==> acts[i].Step?
    ensures |Exec(s, acts).pcs| == |s.pcs|
    ensures StepsOf(acts, t) + Attempts(Exec(s, acts).pcs[t]) <= Attempts(s.pcs[t]) <= 253
    ensures Exec(s, acts).pcs[t].ScanAt? ==>
              && s.pcs[t].ScanAt?
              && Exec(s, acts).pcs[t] == ScanAt(s.pcs[t].fd + StepsOf(acts, t), s.pcs[t].kind)
    decreases acts
  {
    assert PcOk(s.log, s.pcs[t]);
    if acts != [] {
      StepKeepsInv(s, acts[0]);
      AttemptSpends(s, acts[0], t);
      hide Apply, Inv;
      ScanEnds(Apply(s, acts[0]), acts[1..], t);
    }
  }

  lemma AttemptSpends(s: Sys, a: Action, t: nat)
    requires Inv(s) && Enabled(s, a) && t < |s.pcs| && (a.t == t ==> a.Step?)
    ensures |Apply(s, a).pcs| == |s.pcs|
    ensures Attempts(Apply(s, a).pcs[t]) + (if a == Step(t) then 1 else 0) <= Attempts(s.pcs[t])
    ensures Apply(s, a).pcs[t].ScanAt? ==>
              && s.pcs[t].ScanAt?
              && Apply(s, a).pcs[t] == ScanAt(s.pcs[t].fd + (if a == Step(t) then 1 else 0), s.pcs[t].kind)
  {
    hide Reply, OpenArguments;
    assert PcOk(s.log, s.pcs[t]);
  }

  function Attempts(pc: Pc): int {
    match pc case Idle => 0 case ScanAt(fd, _) => FD_TABLE_SIZE - fd case Loaded(_, _, _, _) => 1
  }

  function StepsOf(acts: seq<Action>, t: nat): nat {
    if acts == [] then 0 else (if acts[0] == Step(t) then 1 else 0) + StepsOf(acts[1..], t)
  }

  // ----- what a path stands for

  /** Nothing is on the bus, and nothing is about to be. */
  ghost predicate OffBus(s: Sys) {
    && s.content == None
    && (forall fd | 0 <= fd < |s.table| :: s.table[fd] != BUSENVELOPE)
    && (forall t | 0 <= t < |s.pcs| :: s.pcs[t] == Idle || (s.pcs[t].ScanAt? && s.pcs[t].kind != BUSENVELOPE))
  }

  lemma StaysOffBus(s: Sys, a: Action)
    requires OffBus(s) && Enabled(s, a) && (a.CallOpen? ==> a.path != "/dev/bus/envelope")
    ensures OffBus(Apply(s, a))
  {
    hide Reply;
  }

  lemma {:induction false} RunStaysOffBus(s: Sys, acts: seq<Action>)
    requires OffBus(s) && Runs(s, acts)
    requires forall i | 0 <= i < |acts| :: acts[i].CallOpen? ==> acts[i].path != "/dev/bus/envelope"
    ensures OffBus(Exec(s, acts))
    decreases acts
  {
    hide OffBus, Apply, Enabled;
    if acts != [] {
      StaysOffBus(s, acts[0]);
      RunStaysOffBus(Apply(s, acts[0]), acts[1..]);
    }
  }

  /** Unless somebody opens the path of the envelope slot, no run puts a byte into it. */
  lemma OnlyTheBusPathFillsTheSlot(threads: nat, acts: seq<Action>)
    requires Runs(Start(threads), acts)
    requires forall i | 0 <= i < |acts| :: acts[i].CallOpen? ==> acts[i].path != "/dev/bus/envelope"
    ensures Exec(Start(threads), acts).content == None
  {
    StartIsOffBus(threads);
    RunStaysOffBus(Start(threads), acts);
    hide Runs, Exec, Start;
  }

  lemma StartIsOffBus(threads: nat)
    ensures OffBus(Start(threads))
  {
  }

  /** `t` makes its way from `s` to `s'` on its own, and its last operation answers `r`. */
  ghost predicate Answers(s: Sys, acts: seq<Action>, last: Action, r: Result<nat, VfsErr>, s': Sys) {
    && Runs(s, acts) && Enabled(Exec(s, acts), last)
    && Returned(Exec(s, acts), last) == Some(r) && Apply(Exec(s, acts), last) == s'
  }

  /** The scan of `t` takes the first free slot from where it is, or finds none. */
  ghost predicate Scanned(s: Sys, t: nat, r: Result<nat, VfsErr>, s': Sys)
    requires t < |s.pcs| && s.pcs[t].ScanAt? && |s.table| == FD_TABLE_SIZE
  {
    match r
    case Ok(fd) =>
      && s.pcs[t].fd <= fd < FD_TABLE_SIZE && s.table[fd] == FREE
      && (forall g | s.pcs[t].fd <= g < fd :: s.table[g] != FREE)
      && s' == s.(table := s.table[fd := s.pcs[t].kind], pcs := s.pcs[t := Idle],
                  log := s.log + [Opened(fd, s.pcs[t].kind)])
    case Err(e) =>
      && e == TableFull && (forall g | s.pcs[t].fd <= g < FD_TABLE_SIZE :: s.table[g] != FREE)
      && s' == s.(pcs := s.pcs[t := Idle])
  }

  lemma LastTry(s: Sys, t: nat) returns (r: Result<nat, VfsErr>, s': Sys)
    requires Enabled(s, Step(t)) && s.pcs[t].ScanAt?
    requires s.table[s.pcs[t].fd] == FREE || s.pcs[t].fd + 1 == FD_TABLE_SIZE
    ensures Returned(s, Step(t)) == Some(r) && Apply(s, Step(t)) == s' && Scanned(s, t, r, s')
  {
    r, s' := Returned(s, Step(t)).value, Apply(s, Step(t));
  }

  lemma NextTry(s: Sys, t: nat, r: Result<nat, VfsErr>, s': Sys)
    requires Enabled(s, Step(t)) && s.pcs[t].ScanAt?
    requires s.table[s.pcs[t].fd] != FREE && s.pcs[t].fd + 1 < FD_TABLE_SIZE
    ensures var s1 := s.(pcs := s.pcs[t := ScanAt(s.pcs[t].fd + 1, s.pcs[t].kind)]);
            Apply(s, Step(t)) == s1 && (Scanned(s1, t, r, s') ==> Scanned(s, t, r, s'))
  {
    hide Reply;
    var s1 := s.(pcs := s.pcs[t := ScanAt(s.pcs[t].fd + 1, s.pcs[t].kind)]);
    assert s1.pcs[t := Idle] == s.pcs[t := Idle];
  }

  lemma ScanIsEnabled(s: Sys, t: nat)
    requires Inv(s) && t < |s.pcs| && s.pcs[t].ScanAt?
    ensures Enabled(s, Step(t))
  {
    assert PcOk(s.log, s.pcs[t]);
  }

  lemma {:induction false} ScanAlone(s: Sys, t: nat) returns (acts: seq<Action>, r: Result<nat, VfsErr>, s': Sys)
    requires Inv(s) && t < |s.pcs| && s.pcs[t].ScanAt?
    ensures Enabled(s, Step(t)) && Answers(s, acts, Step(t), r, s') && Scanned(s, t, r, s')
    decreases FD_TABLE_SIZE - s.pcs[t].fd
  {
    ScanIsEnabled(s, t);
    var fd := s.pcs[t].fd;
    if s.table[fd] == FREE || fd + 1 == FD_TABLE_SIZE {
      NoActions(s);
      r, s' := LastTry(s, t);
      acts := [];
    } else {
      var s1 := s.(pcs := s.pcs[t := ScanAt(fd + 1, s.pcs[t].kind)]);
      assert Apply(s, Step(t)) == s1;
      StepKeepsInv(s, Step(t));
      hide Apply, Returned, Inv, Scanned;
      acts, r, s' := ScanAlone(s1, t);
      NextTry(s, t, r, s');
      acts := Before(s, Step(t), s1, acts, Exec(s1, acts));
    }
  }

  /** What an open does that nobody disturbs: the lowest free descriptor is held with the kind of its path. */
  lemma OpenAlone(s: Sys, t: nat, path: string, mode: u32)
    returns (acts: seq<Action>, last: Action, r: Result<nat, VfsErr>, s': Sys)
    requires Inv(s) && Enabled(s, CallOpen(t, path, mode))
    ensures Answers(s, acts, last, r, s') && s'.content == s.content && s'.pcs == s.pcs
    ensures path == "" <==> r == Err(InvalidPath)
    ensures path != "" && (mode == 0 || mode > 3) <==> r == Err(InvalidMode)
    ensures r == Err(TableFull) <==>
            path != "" && 1 <= mode <= 3 && forall g | FIRST_USER_FD <= g < FD_TABLE_SIZE :: s.table[g] != FREE
    ensures r.Err? ==> s' == s && (r == Err(InvalidPath) || r == Err(InvalidMode) || r == Err(TableFull))
    ensures r.Ok? ==>
              && FIRST_USER_FD <= r.value < FD_TABLE_SIZE && s.table[r.value] == FREE
              && (forall g | FIRST_USER_FD <= g < r.value :: s.table[g] != FREE)
              && (forall g | 0 <= g < FD_TABLE_SIZE && g != r.value :: s'.table[g] == s.table[g])
              && Holder(s'.log, r.value) == Some(BindingKindForPath(path))
  {
    var call := CallOpen(t, path, mode);
    if OpenArguments(path, mode).Err? {
      NoActions(s);
      acts, last, r, s' := [], call, Err(OpenArguments(path, mode).error), s;
    } else {
      StepKeepsInv(s, call);
      var s1 := s.(pcs := s.pcs[t := ScanAt(FIRST_USER_FD, BindingKindForPath(path))]);
      assert Apply(s, call) == s1;
      last := Step(t);
      acts, r, s' := ScanAlone(s1, t);
      hide Inv, Holder;
      assert s1.pcs[t := Idle] == s.pcs;
      acts := Before(s, call, s1, acts, Exec(s1, acts));
      if r.Ok? {
        JustOpened(s.log, r.value, BindingKindForPath(path));
      }
    }
  }

  lemma JustOpened(log: seq<Event>, fd: nat, kind: byte)
    ensures Holder(log + [Opened(fd, kind)], fd) == Some(kind)
  {
  }

  /**
   * The null device takes every write and gives no byte, and leaves the envelope slot alone; so does a
   * descriptor of any path but those two, which refuses; the bus path leads to the slot.
   */
  lemma TransferByPath(s: Sys, t: nat, fd: u64, path: string, op: Transfer)
    requires Inv(s) && Enabled(s, Load(t, fd, op)) && FIRST_USER_FD <= fd < FD_TABLE_SIZE
    requires Holder(s.log, fd) == Some(BindingKindForPath(path))
    requires match op case Read(bufLen, len) => len <= bufLen case Write(data) => data != []
    ensures path != "/dev/bus/envelope" ==>
              && Apply(s, Load(t, fd, op)) == s
              && Returned(s, Load(t, fd, op))
                 == Some(if path != "/dev/null" then Err(InvalidFd) else Ok(if op.Write? then |op.data| else 0))
    ensures path == "/dev/bus/envelope" ==>
              var s1 := Apply(s, Load(t, fd, op));
              && Enabled(s1, Step(t)) && Returned(s, Load(t, fd, op)) == None
              && var (left, r) := (Apply(s1, Step(t)).content, Returned(s1, Step(t)));
                 match op
                 case Write(data) =>
                   if |data| > 1024 then left == s.content && r == Some(Err(VfsErr.PayloadOversize))
                   else if s.content.Some? then left == s.content && r == Some(Err(WouldBlock))
                   else left == Some(data) && r == Some(Ok(|data|))
                 case Read(_, len) =>
                   if s.content == None then left == None && r == Some(Err(WouldBlock))
                   else if |s.content.value| > len then left == s.content && r == Some(Err(VfsErr.PayloadOversize))
                   else left == None && r == Some(Ok(|s.content.value|))
  {
    assert SlotIs(s.log, fd, s.table[fd]);
    hide LogOk, Holder;
  }

  /** Bad arguments, reserved descriptors and descriptors nobody holds are answered at once, and move nothing. */
  lemma AnsweredAtOnce(s: Sys, t: nat, fd: u64, op: Transfer)
    requires Enabled(s, Load(t, fd, op))
    requires var bad := match op case Read(bufLen, len) => len > bufLen case Write(data) => data == [];
             bad || fd < FIRST_USER_FD || fd >= FD_TABLE_SIZE || s.table[fd] == FREE
    ensures Apply(s, Load(t, fd, op)) == s
    ensures Returned(s, Load(t, fd, op))
            == Some(match op
                    case Read(bufLen, len) =>
                      if len > bufLen then Err(LenExceedsBuf)
                      else if fd == 0 then Ok(0)
                      else if fd == 1 || fd == 2 then Err(InvalidOpForFd)
                      else Err(InvalidFd)
                    case Write(data) =>
                      if data == [] then Err(InvalidBuf)
                      else if fd == 0 then Err(InvalidOpForFd)
                      else if fd == 1 || fd == 2 then Ok(|data|)
                      else Err(InvalidFd))
  {
  }

  /** A close frees a descriptor that is held, and refuses every other number; a second close is refused. */
  lemma CloseAnswers(s: Sys, t: nat, fd: u64)
    requires Inv(s) && Enabled(s, Close(t, fd))
    ensures Returned(s, Close(t, fd))
            == Some(if fd < 3 then Err(InvalidOpForFd) else if Holder(s.log, fd) == None then Err(InvalidFd) else Ok(fd))
    ensures var s' := Apply(s, Close(t, fd));
            if Holder(s.log, fd) == None then s' == s
            else
              && s'.content == s.content && s'.pcs == s.pcs && Holder(s'.log, fd) == None
              && Enabled(s', Close(t, fd)) && Returned(s', Close(t, fd)) == Some(Err(InvalidFd))
  {
    if fd < FD_TABLE_SIZE {
      assert SlotIs(s.log, fd, s.table[fd]);
    }
    if Holder(s.log, fd).Some? {
      HeldIsUser(s.log, fd);
      JustClosed(s.log, fd);
    }
    hide LogOk;
  }

  lemma JustClosed(log: seq<Event>, fd: nat)
    ensures Holder(log + [Closed(fd)], fd) == None
  {
  }

  // ----- what transfers move

  /** The envelope that a write makes accepted by this action. */
  function WrittenBy(s: Sys, a: Action): seq<seq<byte>>
    requires Enabled(s, a)
  {
    if a.Step? && s.pcs[a.t].Loaded? && s.pcs[a.t].op.Write? && Returned(s, a).value.Ok?
    then [s.pcs[a.t].op.data]
    else []
  }

  /** The envelope that a read returns by this action. */
  function ReadBy(s: Sys, a: Action): seq<seq<byte>>
    requires Enabled(s, a)
  {
    if a.Step? && s.pcs[a.t].Loaded? && s.pcs[a.t].op.Read? && s.content.Some? && Returned(s, a).value.Ok?
    then [s.content.value]
    else []
  }

  function InSlot(content: Option<seq<byte>>): seq<seq<byte>> {
    if content.Some? then [content.value] else []
  }

  ghost function Written(s: Sys, acts: seq<Action>): seq<seq<byte>>
    requires Runs(s, acts)
    decreases acts
  {
    if acts == [] then [] else WrittenBy(s, acts[0]) + Written(Apply(s, acts[0]), acts[1..])
  }

  ghost function ReadBack(s: Sys, acts: seq<Action>): seq<seq<byte>>
    requires Runs(s, acts)
    decreases acts
  {
    if acts == [] then [] else ReadBy(s, acts[0]) + ReadBack(Apply(s, acts[0]), acts[1..])
  }

  /** A step moves at most one envelope, and a read that takes it returns its length. */
  lemma StepConserves(s: Sys, a: Action)
    requires Inv(s) && Enabled(s, a)
    ensures InSlot(s.content) + WrittenBy(s, a) == ReadBy(s, a) + InSlot(Apply(s, a).content)
    ensures a.Step? && s.pcs[a.t].Loaded? && s.pcs[a.t].op.Read? && Returned(s, a).value.Ok?
            ==> s.content.Some? && Returned(s, a) == Some(Ok(|s.content.value|))
  {
    assert PcOk(s.log, s.pcs[a.t]);
    if a.Step? && s.pcs[a.t].Loaded? {
      var pc := s.pcs[a.t];
      match pc.op {
        case Read(bufLen, len) =>
          OnlyBusMovesBytes(pc.fd, pc.kind, [], bufLen, len, s.content);
          ReadOutcomes(pc.fd, pc.kind, bufLen, len, s.content);
        case Write(data) =>
          OnlyBusMovesBytes(pc.fd, pc.kind, data, 0, 0, s.content);
          WriteOutcomes(pc.fd, pc.kind, data, s.content);
      }
      TransferMoves(pc, s.content);
      hide ReadReply, WriteReply;
    }
  }

  /** A transfer either leaves the slot, or fills an empty one with its data, or empties a full one. */
  lemma TransferMoves(pc: Pc, content: Option<seq<byte>>)
    requires pc.Loaded? && FIRST_USER_FD <= pc.fd < FD_TABLE_SIZE && pc.kind == BUSENVELOPE
    ensures var left := Reply(pc.op, pc.fd, pc.kind, content).0;
            left == content || left == (if pc.op.Write? then Some(pc.op.data) else None)
  {
  }

  lemma {:induction false} RunConserves(s: Sys, acts: seq<Action>)
    requires Inv(s) && Runs(s, acts)
    ensures InSlot(s.content) + Written(s, acts) == ReadBack(s, acts) + InSlot(Exec(s, acts).content)
    decreases acts
  {
    if acts != [] {
      var s' := Apply(s, acts[0]);
      StepKeepsInv(s, acts[0]);
      StepConserves(s, acts[0]);
      RunConserves(s', acts[1..]);
      hide Inv, Apply, Enabled, WrittenBy, ReadBy, InSlot;
      Telescope(InSlot(s.content), WrittenBy(s, acts[0]), ReadBy(s, acts[0]), InSlot(s'.content),
                Written(s', acts[1..]), ReadBack(s', acts[1..]), InSlot(Exec(s, acts).content));
    }
  }

  lemma Telescope<T>(a: seq<T>, w: seq<T>, r: seq<T>, b: seq<T>, ws: seq<T>, rs: seq<T>, c: seq<T>)
    requires a + w == r + b && b + ws == rs + c
    ensures a + (w + ws) == (r + rs) + c
  {
    assert a + (w + ws) == (a + w) + ws == r + (b + ws);
    assert (r + rs) + c == r + (rs + c);
  }

  /**
   * Whatever descriptors are opened, closed and reopened meanwhile, and however transfers race with that:
   * the envelopes reads return are those writes accepted, in order and each once, short of at most one,
   * which is in the slot.
   */
  lemma TransfersAreConserved(threads: nat, acts: seq<Action>)
    requires Runs(Start(threads), acts)
    ensures ReadBack(Start(threads), acts) <= Written(Start(threads), acts)
    ensures Written(Start(threads), acts)
            == ReadBack(Start(threads), acts) + InSlot(Exec(Start(threads), acts).content)
  {
    StartIsInv(threads);
    RunConserves(Start(threads), acts);
    assert InSlot(Start(threads).content) + Written(Start(threads), acts) == Written(Start(threads), acts);
  }

  // ----- transfers that race with a close

  /** Carrying out the transfer of thread `t` now puts an envelope into the slot or takes one out of it. */
  predicate MovesEnvelope(s: Sys, t: nat)
    requires Enabled(s, Step(t))
  {
    s.pcs[t].Loaded? && Apply(s, Step(t)).content != s.content
  }

  /** After the load, `fd` was closed, and since then not opened on the bus again. */
  ghost predicate ClosedSince(log: seq<Event>, fd: nat, since: nat) {
    exists i: nat :: ClosedAt(log, fd, since, i)
  }

  ghost predicate ClosedAt(log: seq<Event>, fd: nat, since: nat, i: nat) {
    since <= i < |log| && log[i] == Closed(fd) && forall j | i < j < |log| :: log[j] != Opened(fd, BUSENVELOPE)
  }

  lemma {:induction false} NotOnBusIffClosed(log: seq<Event>, fd: nat, since: nat)
    requires LogOk(log) && since <= |log| && Holder(log[..since], fd) == Some(BUSENVELOPE)
    ensures Holder(log, fd) != Some(BUSENVELOPE) <==> ClosedSince(log, fd, since)
    decreases |log| - since
  {
    if since == |log| {
      assert log[..since] == log;
    } else {
      var n := |log| - 1;
      var before, e := log[..n], log[n];
      forall i: nat | i < n ensures EventOk(before, i) {
        assert EventOk(log, i) && before[..i] == log[..i];
      }
      assert before[..since] == log[..since];
      NotOnBusIffClosed(before, fd, since);
      assert EventOk(log, n);
      LastEventDecides(log, fd, since);
    }
  }

  lemma LastEventDecides(log: seq<Event>, fd: nat, since: nat)
    requires since < |log|
    ensures var e, before := log[|log| - 1], log[..|log| - 1];
            ClosedSince(log, fd, since)
            <==> e == Closed(fd) || (e != Opened(fd, BUSENVELOPE) && ClosedSince(before, fd, since))
  {
    var n := |log| - 1;
    var before, e := log[..n], log[n];
    if e == Closed(fd) {
      assert ClosedAt(log, fd, since, n);
    }
    if e != Opened(fd, BUSENVELOPE) && ClosedSince(before, fd, since) {
      var i: nat :| ClosedAt(before, fd, since, i);
      assert ClosedAt(log, fd, since, i);
    }
    if ClosedSince(log, fd, since) {
      var i: nat :| ClosedAt(log, fd, since, i);
      if i < n {
        assert forall j | i < j < n :: before[j] == log[j];
        assert ClosedAt(before, fd, since, i);
      }
    }
  }

  /**
   * A read or write goes by the kind it loaded. It moves an envelope through a descriptor that is no
   * longer on the bus exactly if, between its load and its transfer, the descriptor was closed and
   * not opened on the bus again; otherwise its effect is that of loading and transferring at once.
   */
  lemma MovesThroughClosedIff(s: Sys, t: nat)
    requires Inv(s) && Enabled(s, Step(t)) && MovesEnvelope(s, t)
    ensures s.table[s.pcs[t].fd] != BUSENVELOPE <==> ClosedSince(s.log, s.pcs[t].fd, s.pcs[t].since)
  {
    var pc := s.pcs[t];
    assert PcOk(s.log, pc);
    assert SlotIs(s.log, pc.fd, s.table[pc.fd]);
    NotOnBusIffClosed(s.log, pc.fd, pc.since);
  }

  lemma UndisturbedTransferIsAtomic(s: Sys, t: nat)
    requires Inv(s) && Enabled(s, Step(t)) && s.pcs[t].Loaded?
    requires !ClosedSince(s.log, s.pcs[t].fd, s.pcs[t].since)
    ensures var pc := s.pcs[t];
            var (left, r) := Reply(pc.op, pc.fd, s.table[pc.fd], s.content);
            Apply(s, Step(t)).content == left && Returned(s, Step(t)) == Some(r)
  {
    hide Reply;
    var pc := s.pcs[t];
    assert PcOk(s.log, pc);
    assert SlotIs(s.log, pc.fd, s.table[pc.fd]);
    NotOnBusIffClosed(s.log, pc.fd, pc.since);
  }

  /** A read that loaded its kind delivers an envelope after another thread closed the descriptor. */
  lemma ReadAfterClose(env: seq<byte>)
    requires 0 < |env| <= ENVELOPE_SLOT_BYTES
    ensures exists acts ::
              && Runs(Start(2), acts)
              && var s := Exec(Start(2), acts);
                 && Enabled(s, Step(0)) && MovesEnvelope(s, 0)
                 && s.table[s.pcs[0].fd] == FREE && Returned(s, Step(0)) == Some(Ok(|env|))
  {
    var fd, w := FIRST_USER_FD, Write(env);
    var s0, s4, s6 := Start(2), HoldingOnBus(env), ClosedUnderRead(env);
    var s1 := s0.(pcs := [ScanAt(fd, BUSENVELOPE), Idle]);
    var s2 := s4.(content := None);
    var s3 := s2.(pcs := [Loaded(fd, BUSENVELOPE, w, 1), Idle]);
    var acts := CloseUnderRead(env);
    WriteLands(s3, env);
    PathIsBus();
    ReadTakes(s6, env);
    hide OpenArguments, ReadReply, WriteReply, MovesEnvelope, Returned, Runs, Exec, ClosedUnderRead;
    acts := Before(s3, Step(0), s4, acts, s6);
    acts := Before(s2, Load(0, fd, w), s3, acts, s6);
    acts := Before(s1, Step(0), s2, acts, s6);
    acts := Before(s0, CallOpen(0, "/dev/bus/envelope", 3), s1, acts, s6);
  }

  /** A bus descriptor is open and an envelope was written to it. */
  function HoldingOnBus(env: seq<byte>): Sys {
    Sys(Start(2).table[FIRST_USER_FD := BUSENVELOPE], Some(env), [Idle, Idle], [Opened(FIRST_USER_FD, BUSENVELOPE)])
  }

  /** Then thread 0 loaded its kind for a read, and thread 1 closed it. */
  function ClosedUnderRead(env: seq<byte>): Sys {
    Sys(Start(2).table, Some(env), [Loaded(FIRST_USER_FD, BUSENVELOPE, Read(|env|, |env|), 1), Idle],
        [Opened(FIRST_USER_FD, BUSENVELOPE), Closed(FIRST_USER_FD)])
  }

  lemma CloseUnderRead(env: seq<byte>) returns (acts: seq<Action>)
    ensures Runs(HoldingOnBus(env), acts) && Exec(HoldingOnBus(env), acts) == ClosedUnderRead(env)
  {
    var s4, s6 := HoldingOnBus(env), ClosedUnderRead(env);
    var s5 := s4.(pcs := s6.pcs);
    assert s5.table[FIRST_USER_FD := FREE] == s6.table;
    NoActions(s6);
    acts := Before(s5, Close(1, FIRST_USER_FD), s6, [], s6);
    acts := Before(s4, Load(0, FIRST_USER_FD, Read(|env|, |env|)), s5, acts, s6);
  }

  lemma WriteLands(s: Sys, env: seq<byte>)
    requires 0 < |env| <= ENVELOPE_SLOT_BYTES && |s.pcs| == 2 && |s.table| == FD_TABLE_SIZE && s.content == None
    requires s.pcs[0].Loaded? && s.pcs[0].kind == BUSENVELOPE && s.pcs[0].op == Write(env)
    requires FIRST_USER_FD <= s.pcs[0].fd < FD_TABLE_SIZE
    ensures Apply(s, Step(0)) == s.(content := Some(env), pcs := s.pcs[0 := Idle])
  {
    BusWriteAccepted(s.pcs[0].fd, env);
    hide WriteReply;
  }

  lemma ReadTakes(s: Sys, env: seq<byte>)
    requires Enabled(s, Step(0)) && s.pcs[0].Loaded? && s.pcs[0].kind == BUSENVELOPE && s.content == Some(env)
    requires FIRST_USER_FD <= s.pcs[0].fd && s.pcs[0].op == Read(|env|, |env|) && 0 < |env| <= ENVELOPE_SLOT_BYTES
    ensures MovesEnvelope(s, 0) && Returned(s, Step(0)) == Some(Ok(|env|))
  {
    BusWriteAccepted(s.pcs[0].fd, env);
    ReadAfterWrite(s.pcs[0].fd, s.pcs[0].fd, env, |env|, |env|);
    hide ReadReply, WriteReply;
  }

  lemma BusWriteAccepted(fd: u64, env: seq<byte>)
    requires 0 < |env| <= ENVELOPE_SLOT_BYTES && FIRST_USER_FD <= fd < FD_TABLE_SIZE
    ensures WriteReply(fd, BUSENVELOPE, env, None) == (Some(env), Ok(|env|))
  {
  }

  lemma PathIsBus()
    ensures OpenArguments("/dev/bus/envelope", 3) == Ok(BUSENVELOPE)
  {
  }

  lemma NoActions(s: Sys)
    ensures Runs(s, []) && Exec(s, []) == s
  {
  }

  /** Puts one action before a run. */
  lemma Before(s: Sys, a: Action, s': Sys, acts: seq<Action>, end: Sys) returns (all: seq<Action>)
    requires Enabled(s, a) && Apply(s, a) == s' && Runs(s', acts) && Exec(s', acts) == end
    ensures Runs(s, all) && Exec(s, all) == end
  {
    all := [a] + acts;
    assert all[1..] == acts;
  }
}

/** The table driven by one caller at a time, with the loops of the original. */
module VfsTable {
  import opened Words
  import opened OnePlaceBuffer
  import opened FdTable
  import opened EnvelopeQueue

  class Vfs {
    const table: array<byte>
    const slot: EnvelopeSlot

    ghost predicate Valid()
      reads this, table, slot, slot.bytes
    {
      table.Length == FD_TABLE_SIZE && slot.Valid() && slot.bytes != table
    }

    constructor ()
      ensures Valid() && fresh(table) && fresh(slot) && fresh(slot.bytes)
      ensures slot.Content() == None && forall fd | 0 <= fd < FD_TABLE_SIZE :: table[fd] == FREE
    {
      table := new byte[FD_TABLE_SIZE](i => FREE);
      slot := new EnvelopeSlot();
    }

    /** Takes the lowest free user slot; fails with `TableFull` only if all 253 are taken. */
    method VfsOpen(path: string, mode: u32) returns (r: Result<u64, VfsErr>)
      requires Valid()
      modifies table
      ensures Valid() && slot.Content() == old(slot.Content())
      ensures path == "" ==> r == Err(InvalidPath)
      ensures path != "" && (mode == 0 || mode > 3) ==> r == Err(InvalidMode)
      ensures path != "" && 1 <= mode <= 3 ==> if r.Ok?
                then
                  && FIRST_USER_FD <= r.value < FD_TABLE_SIZE
                  && old(table[r.value]) == FREE
                  && (forall fd | FIRST_USER_FD <= fd < r.value :: old(table[fd]) != FREE)
                  && table[..] == old(table[..])[r.value := table[r.value]]
                  && (table[r.value] == BUSENVELOPE <==> path == "/dev/bus/envelope")
                  && (table[r.value] == DEVNULL <==> path == "/dev/null")
                  && (table[r.value] == UNBACKED <==> path != "/dev/bus/envelope" && path != "/dev/null")
                else r == Err(TableFull) && forall fd | FIRST_USER_FD <= fd < FD_TABLE_SIZE :: old(table[fd]) != FREE
      ensures r.Err? ==> table[..] == old(table[..])
    {
      if path == "" {
        return Err(InvalidPath);
      }
      if mode == 0 || mode / 4 != 0 {
        return Err(InvalidMode);
      }
      var kind := BindingKindForPath(path);
      for fd := FIRST_USER_FD to FD_TABLE_SIZE
        invariant forall g | FIRST_USER_FD <= g < fd :: table[g] != FREE
        invariant table[..] == old(table[..])
      {
        if table[fd] == FREE {
          table[fd] := kind;
          return Ok(fd);
        }
      }
      return Err(TableFull);
    }

    method VfsClose(fd: u64) returns (r: Result<(), VfsErr>)
      requires Valid()
      modifies table
      ensures Valid() && slot.Content() == old(slot.Content())
      ensures fd < FIRST_USER_FD ==> r == Err(InvalidOpForFd)
      ensures fd >= FIRST_USER_FD && r.Err? ==> r == Err(InvalidFd)
      ensures r.Ok? <==> FIRST_USER_FD <= fd < FD_TABLE_SIZE && old(table[fd]) != FREE
      ensures table[..] == if r.Ok? then old(table[..])[fd := FREE] else old(table[..])
    {
      if fd < FIRST_USER_FD {
        return Err(InvalidOpForFd);
      }
      if fd >= FD_TABLE_SIZE {
        return Err(InvalidFd);
      }
      var before := table[fd];
      table[fd] := FREE;
      r := if before == FREE then Err(InvalidFd) else Ok(());
    }

    /** Open are the three reserved descriptors and the taken slots; no other number is. */
    method VfsIsOpen(fd: u64) returns (open: bool)
      requires Valid()
      ensures open <==> fd < FIRST_USER_FD || (fd < FD_TABLE_SIZE && table[fd] != FREE)
    {
      if fd < FIRST_USER_FD {
        return true;
      }
      if fd >= FD_TABLE_SIZE {
        return false;
      }
      return table[fd] != FREE;
    }

    method VfsRead(fd: u64, buf: array<byte>, len: nat) returns (r: Result<nat, VfsErr>)
      requires Valid() && buf != table && buf != slot.bytes
      modifies slot, buf
      ensures Valid() && table[..] == old(table[..])
      ensures var kind := if fd < FD_TABLE_SIZE then table[fd] else FREE;
              (slot.Content(), r) == ReadReply(fd, kind, buf.Length, len, old(slot.Content()))
      ensures r.Ok? ==> r.value <= buf.Length && buf[r.value..] == old(buf[r.value..])
      ensures r.Ok? && r.value > 0 ==> old(slot.Content()) == Some(buf[..r.value])
      ensures r.Err? ==> buf[..] == old(buf[..])
    {
      if len > buf.Length {
        return Err(LenExceedsBuf);
      }
      if fd == 0 {
        return Ok(0);
      }
      if fd == 1 || fd == 2 {
        return Err(InvalidOpForFd);
      }
      if fd >= FD_TABLE_SIZE {
        return Err(InvalidFd);
      }
      var kind := table[fd];
      if kind == FREE || kind == UNBACKED {
        return Err(InvalidFd);
      }
      if kind == DEVNULL {
        return Ok(0);
      }
      if kind == BUSENVELOPE {
        var reply := slot.DispatchDequeueBytes(buf, len, 0);
        match reply {
          case Ok(n) => return Ok(n);
          case Err(e) => return Err(ReadError(e));
        }
      }
      return Err(InvalidFd);
    }

    method VfsWrite(fd: u64, data: seq<byte>) returns (r: Result<nat, VfsErr>)
      requires Valid()
      modifies slot, slot.bytes
      ensures Valid() && table[..] == old(table[..])
      ensures var kind := if fd < FD_TABLE_SIZE then table[fd] else FREE;
              (slot.Content(), r) == WriteReply(fd, kind, data, old(slot.Content()))
    {
      if data == [] {
        return Err(InvalidBuf);
      }
      if fd == 1 || fd == 2 {
        return Ok(|data|);
      }
      if fd == 0 {
        return Err(InvalidOpForFd);
      }
      if fd >= FD_TABLE_SIZE {
        return Err(InvalidFd);
      }
      var kind := table[fd];
      if kind == FREE || kind == UNBACKED {
        return Err(InvalidFd);
      }
      if kind == DEVNULL {
        return Ok(|data|);
      }
      if kind == BUSENVELOPE {
        var reply := slot.DispatchEnqueueBytes(data, 0);
        match reply {
          case Ok(_) => return Ok(|data|);
          case Err(e) => return Err(WriteError(e));
        }
      }
      return Err(InvalidFd);
    }
  }
}
