# A verified model of the Asolaria kernel's state-keeping core

This project models, in Dafny, the parts of the kernel and of its surface program that keep state or
encode bytes, and proves what they are relied on for:

- **Lock-free primitives** under any number of threads: the single-slot envelope queue, the
  file-descriptor table, the frame allocator and the boot heap, the child-handle counter. Each is a
  step machine with one atomic operation per step, and beside it a class with the loops the original
  runs for one caller.
- **The reflection room**: prepare, commit and seal over a hash chain with a bounded window, with
  clients that keep prepared events for as long as they like.
- **Ledger and identities**: the cosign chain, the PID grammar, agent PIDs and port labels minted
  with FNV-1a.
- **Byte algorithms with fixed bounds**: SHA-256 in a 640-byte buffer, the PCI scan and its 60D
  projection, base64 and the event stream built on it, bounded line writers, framebuffer addressing.
- **The peer machine** with its bounded history.

One file models one source module (`LineWriter.dfy` models both line renderers, `Bump.dfy` both bump
allocators); `Words.dfy` holds machine words, byte and number encodings, and `Fnv.dfy` the hash shared by
agent PIDs and port labels. `dafny verify dfyconfig.toml` checks everything.

## How to read the model

- Machine integers are bounded integers, and wrap-around is written out (`Wrap32`, `Wrap64`,
  saturating sums) wherever the original can reach it; the release profile is meant, in which overflow
  does not panic.
- Atomic operations are sequentially consistent; memory orderings are not modelled.
- Text is a sequence of characters, one per byte.
- Inside the room and the cosign chain a hash is an arbitrary function. Collision-freedom is assumed
  only where a result needs it, and only among the preimages of the logs or rows at hand. In the boot
  crate SHA-256 is concrete; its constants are proved to be the root bits of the first primes, and those
  to be the first primes.
- Runs are sequences of actions; ghost logs record what calls returned, in order.
- A PCI configuration space is a function from addresses to words: reading does not change it.

## What does not hold

The model follows the code where it differs from what its documentation suggests:

- A commit that returns an error can leave the room changed, exactly when a 64-bit counter is at its
  maximum (`RoomHistory.RefusedCommitChangesRoomIff`); no run of a room gets there
  (`RoomHistory.CommitOutcomes`).
- An idempotency key is refused only while its event is in the active window
  (`RoomHistory.KeyReturnsAfterSeal`). A draft that was logged before the window is prepared again exactly
  if its kind needs no parent and there is room (`RoomHistory.LoggedDraftReturnsIff`), and is then published
  a second time (`RoomHistory.ReturnedDraftIsPublishedTwice`).
- `commit` does not look at the room an event was prepared in: a new room commits another new room's event
  (`RoomHistory.ForeignTokenEntersNewRoom`). The hash chain shuts every later one out: it happens exactly
  while the room is empty and the event is a first one (`RoomHistory.ForeignTokenCommitsIff`).
- The frame allocator grants nothing for the 4,095 longest lengths (`BumpPlans.PageRounding`), and two of
  its regions share an address exactly if every length from the first up to the second is one of those
  (`BumpSteps.RegionsShareAnAddressIff`, `BumpSteps.WrappedLengthsShareAnAddress`).
- Rows with equal canonical bytes can differ, exactly if their hash texts are not equally long
  (`CosignChain.CanonicalBytesInjective`), and `append` does not check the length of a payload text: two
  accepted chains with one head hold different rows (`CosignChain.UnequalPayloadsCanCollide`).
- A read or write through a descriptor goes by the kind it loaded first. It moves an envelope through a
  descriptor that has left the bus exactly if the descriptor was closed in between and not opened on the
  bus again (`FdSteps.MovesThroughClosedIff`, `FdSteps.ReadAfterClose`).
- The title runs past the row end exactly if the row is shorter than its lit part, the accent bar exactly
  if it is shorter than the title's slots (`Framebuffer.TitleOverrunsIff`, `Framebuffer.BarOverrunsIff`);
  the smallest accepted mode and the common row of 1,024 pixels are such (`Framebuffer.NarrowModesOverrun`).
- The end event of a stream can come before the last output (`SessionStream.EndCanComeEarly`): it is
  complete exactly if nothing was pumped after the viewer's last look (`SessionStream.EndIsCompleteIff`).
- The hash sees the counter of the 60D projection whole exactly for tuples up to 508 bytes
  (`HwInventory.SaltUntruncatedIff`); no scan leaves a longer one (`HwInventory.ScanIsProjectedWhole`).

## Model

| member | source | states |
|---|---|---|
| EnvelopeSteps.StepKeepsInv | kernel/core/src/envelope/mod.rs:155-236 | one atomic operation of any thread keeps ownership, order and what every thread relies on |
| EnvelopeSteps.StepRefinesBuffer | kernel/core/src/envelope/mod.rs:155-236 | every atomic operation is a step of a one-place buffer, and the histories record what calls returned |
| EnvelopeSteps.SlotIsOnePlaceBuffer | kernel/core/src/envelope/mod.rs:155-252 | over any run: deliveries are the accepted envelopes in order, each once; accepted = delivered + 1 if occupied; full means depth 1, empty means length and depth 0 |
| EnvelopeSteps.RunKeepsInv | kernel/core/src/envelope/mod.rs:155-236 | whole runs keep the invariant and the histories match the returns |
| EnvelopeSteps.CallEnds | kernel/core/src/envelope/mod.rs:195-236 | a pending call performs at most its spin budget plus 1,028 (enqueue: length plus 5) more operations, whatever the others do |
| EnvelopeSteps.AnsweredIffIdle | kernel/core/src/envelope/mod.rs:155-236 | a call is answered exactly by the operation that makes its thread idle: none vanishes |
| EnvelopeSteps.InsiderSucceeds | kernel/core/src/envelope/mod.rs:159-229 | whoever claims the slot has its answer after exactly its remaining operations, whatever the others do: a writer is accepted, a reader takes the whole envelope or leaves it if it does not fit |
| EnvelopeSteps.GivesUpAfterBudget | kernel/core/src/envelope/mod.rs:195-236 | under any interleaving a dequeue answers empty exactly at its last poll: one per nanosecond asked for, at least 1, at most 1,000,000 |
| EnvelopeSteps.EnqueueAlone | kernel/core/src/envelope/mod.rs:155-182 | a whole undisturbed enqueue: how many operations, which of its three answers when, and the state it leaves, which are those of the sequential form |
| EnvelopeSteps.DequeueAlone | kernel/core/src/envelope/mod.rs:195-236 | a whole undisturbed dequeue: how many operations, which of its three answers when, and the state it leaves, which are those of the sequential form |
| EnvelopeSteps.OthersUndisturbed | kernel/core/src/envelope/mod.rs:155-236 | no step breaks what a thread that is inside the slot has stored or loaded |
| EnvelopeQueue.EnvelopeSlot.DispatchEnqueueBytes | kernel/core/src/envelope/mod.rs:155-182 | run alone: refuses oversize before full, otherwise stores the whole envelope |
| EnvelopeQueue.EnvelopeSlot.DispatchDequeueBytes | kernel/core/src/envelope/mod.rs:195-236 | run alone: delivers the envelope and touches nothing behind it, keeps it if the buffer is too small, gives up within the budget |
| EnvelopeQueue.EnvelopeSlot.QueueDepth | kernel/core/src/envelope/mod.rs:249-251 | the depth is 1 exactly if an envelope is held |
| RoomCore.EventBytesInjective | kernel/core/src/reflection_room/mod.rs:405-437 | the event preimage determines every hashed field |
| RoomCore.SealBytesInjective | kernel/core/src/reflection_room/mod.rs:439-456 | the seal preimage determines room, head, counts, tier and product |
| RoomCore.FindKey | kernel/core/src/reflection_room/mod.rs:283-292 | a duplicate is found exactly if the key is active, and the found event carries it |
| RoomCore.PreparedIff | kernel/core/src/reflection_room/mod.rs:247-280 | which drafts are prepared, in the fields of draft and room, the retry of an active key in a full window included; and what is prepared |
| RoomCore.RefusedByFirstBrokenRule | kernel/core/src/reflection_room/mod.rs:247-403 | a refused draft gets the first broken rule, in the order of the checks |
| ReflectionRoom.RoomWriter.Create | kernel/core/src/reflection_room/mod.rs:215-228 | a new writer is the empty room on the genesis head, and the all-zero identity is refused |
| ReflectionRoom.RoomWriter.CommitPrepared | kernel/core/src/reflection_room/mod.rs:283-311 | the new state and the answer are those of the commit function the run results are about, errors included |
| ReflectionRoom.RoomWriter.Seal | kernel/core/src/reflection_room/mod.rs:315-361 | the new state and the seal are those of the seal function the run results are about |
| ReflectionRoom.NoveltyGate.Create | kernel/core/src/reflection_room/mod.rs:494-506 | a gate that has seen nothing, or the first parameter error |
| ReflectionRoom.NoveltyGate.ObserveSimilarity | kernel/core/src/reflection_room/mod.rs:508-533 | saturates exactly when the last `saturation_limit` accepted observations were all below epsilon |
| ReflectionRoom.LowTail | kernel/core/src/reflection_room/mod.rs:508-533 | the longest unbroken run of low observations at the end |
| RoomHistory.RunKeepsInv | kernel/core/src/reflection_room/mod.rs:213-361 | every interleaving of prepare, commit of any old token, and seal keeps the invariant and only extends the log |
| RoomHistory.RunsAccountForTheWholeLog | kernel/core/src/reflection_room/mod.rs:231-311 | events = 2000 gulps + active, next sequence = events + 1, the window is the tail of the log, every event succeeds the one before it and cites an earlier parent, active keys differ |
| RoomHistory.CommitOutcomes | kernel/core/src/reflection_room/mod.rs:283-311 | a prepared event is a duplicate iff its key is active, committed iff built on the current head of a window with room, and otherwise leaves the room unchanged with the error of its case |
| RoomHistory.PreparedIsCommitted | kernel/core/src/reflection_room/mod.rs:247-311 | an event committed right after it was prepared is published, unless its key is active |
| RoomHistory.CompetitorsLose | kernel/core/src/reflection_room/mod.rs:283-311 | once an event is committed, none prepared on the same or an earlier head ever is, whatever happens later |
| RoomHistory.LoggedEventsKeepTheRules | kernel/core/src/reflection_room/mod.rs:364-403 | over any run, no logged event carries personal data beyond its owner, or lacks body, hash, key, owner, parent or selector |
| RoomHistory.FullWindowsAreSealed | kernel/core/src/reflection_room/mod.rs:315-361 | a room of a run seals exactly a full window with a product, and is otherwise unchanged |
| RoomHistory.SealsOfRuns | kernel/core/src/reflection_room/mod.rs:315-361 | over any run the seals carry, in order, the products given; their indexes are the numbers of seals, of fifth and of twenty-fifth seals |
| RoomHistory.CommitKeepsInv | kernel/core/src/reflection_room/mod.rs:283-311 | committing an arbitrarily old token keeps the chain and the parent citations |
| RoomHistory.SealKeepsInv | kernel/core/src/reflection_room/mod.rs:315-361 | a seal keeps the chain, the outstanding tokens and the record of earlier seals |
| RoomHistory.PreparedIsBuiltOn | kernel/core/src/reflection_room/mod.rs:247-280 | a prepared event is built on the head it saw and its parent is in the full log |
| RoomHistory.BuiltOnIsStable | kernel/core/src/reflection_room/mod.rs:247-361 | what a prepared event was built on stays true across commits and seals |
| RoomHistory.RefusedCommitChangesRoomIff | kernel/core/src/reflection_room/mod.rs:293-310 | exactly when an error return leaves a changed room |
| RoomHistory.ForeignTokenEntersNewRoom | kernel/core/src/reflection_room/mod.rs:247-311 | a new room commits any event another new room prepared |
| RoomHistory.ForeignTokenCommitsIff | kernel/core/src/reflection_room/mod.rs:283-311 | a room commits another room's event exactly while it is empty and the event is a first one |
| RoomHistory.KeyReturnsAfterSeal | kernel/core/src/reflection_room/mod.rs:247-361 | right after a seal a valid draft with a formerly active key is prepared iff it needs no parent or cites the head, and its commit publishes the key twice |
| RoomHistory.LoggedDraftReturnsIff | kernel/core/src/reflection_room/mod.rs:247-403 | at any later moment a draft logged before the window is prepared again iff its kind needs no parent and there is room |
| RoomHistory.ReturnedDraftIsPublishedTwice | kernel/core/src/reflection_room/mod.rs:247-311 | its commit then publishes the draft a second time |
| RoomHistory.SealsFormHierarchy | kernel/core/src/reflection_room/mod.rs:327-344 | after g seals g/25 are super-gulps, g/5 - g/25 checkpoints, the rest plain |
| RoomHistory.HeadCountsSeals | kernel/core/src/reflection_room/mod.rs:231-244 | the counters of the head are the numbers of seals of each tier |
| RoomHistory.PrefixesAgree | kernel/core/src/reflection_room/mod.rs:405-437 | equal heads of two logs mean equal positions and equal prefixes |
| RoomHistory.HeadsCommitToHistory | kernel/core/src/reflection_room/mod.rs:283-311 | two rooms with the same head have the same full log, across any number of seals |
| RoomHistory.RunsReachingOneHeadAgree | kernel/core/src/reflection_room/mod.rs:213-311 | the same for two whole runs from new rooms |
| RoomHistory.SealsCommitToHistory | kernel/core/src/reflection_room/mod.rs:439-456 | equal seal digests close the same blocks with the same product |
| Fnv.PrimeCancels | kernel/core/src/agent_runtime/mod.rs:334-346 | multiplying by the prime loses nothing of the low 48 bits |
| Fnv.PairsKeepApart | kernel/core/src/agent_runtime/mod.rs:334-346 | two different byte pairs take any state to states that differ in their low 48 bits |
| Fnv.OnePairApart | kernel/core/src/agent_runtime/mod.rs:334-346 | byte strings that differ in one adjacent pair of bytes never collide |
| Fnv.Fnv1aLoop | kernel/core/src/bus_fabric/mod.rs:115-122 | the loop computes the hash the collision results are about |
| Fnv.KnownHashes | kernel/core/src/bus_fabric/mod.rs:115-122 | the published values of 64-bit FNV-1a for the empty text and "a" |
| AgentPid.Fnv1a64 | kernel/core/src/agent_runtime/mod.rs:334-346 | the nested loop hashes the little-endian bytes of its parts |
| AgentPid.SeedsDiffer | kernel/core/src/agent_runtime/mod.rs:376-383 | distinct handles below 65,536 have distinct truncated seed hashes |
| AgentPid.PidTextInjective | kernel/core/src/agent_runtime/mod.rs:384-389 | the printed PID determines vantage, role and digits |
| AgentPid.KnownPrefixes | kernel/core/src/agent_runtime/mod.rs:384-389 | the prefixes that the original's tests expect, and the length |
| AgentPid.PidsIdentifyAgents | kernel/core/src/agent_runtime/mod.rs:376-390 | within a tier, PIDs of handles below 65,536 tell handle, role and vantage apart |
| AgentPid.PidsOfOneHandle | kernel/core/src/agent_runtime/mod.rs:376-390 | PIDs of one handle, of any size, tell role, vantage and tier apart |
| AgentRegistries.AgentRegistry.Count | kernel/core/src/agent_runtime/mod.rs:215-220 | counts the entries that are not retired |
| AgentRegistries.AgentRegistry.RegisterEntry | kernel/core/src/agent_runtime/mod.rs:266-299 | refuses when 10,000 are live, otherwise appends one entry and counts its class |
| AgentRegistries.AgentRegistry.SpawnRealGated | kernel/core/src/agent_runtime/mod.rs:250-260 | a request without a receipt is held as ambiguous |
| AgentRegistries.AgentRegistry.RetireAgent | kernel/core/src/agent_runtime/mod.rs:304-312 | retires the first entry with the PID and no other |
| AgentRegistries.AgentRegistry.HeartbeatAgent | kernel/core/src/agent_runtime/mod.rs:317-328 | stamps the first entry with the PID, refuses a retired one |
| AgentRegistries.ApplyKeepsInv | kernel/core/src/agent_runtime/mod.rs:236-328 | each operation keeps the live bound, the counters of the classes and the minted PIDs |
| AgentRegistries.RunKeepsInv | kernel/core/src/agent_runtime/mod.rs:215-328 | over whole runs live entries stay at most 10,000, each counter is the number of entries of its class and they sum to the entries, there is one entry per accepted registration, and a retired entry stays as it is |
| AgentRegistries.RegisterOutcomes | kernel/core/src/agent_runtime/mod.rs:266-299 | refused exactly at 10,000 live agents; otherwise one live agent more under the returned PID, counted in its class |
| AgentRegistries.RetireOutcomes | kernel/core/src/agent_runtime/mod.rs:304-312 | refused exactly for an unknown PID; otherwise only the state of the first entry with it changes |
| AgentRegistries.HeartbeatOutcomes | kernel/core/src/agent_runtime/mod.rs:317-328 | the two refusals and when; otherwise only the stamp of the first entry with the PID changes |
| AgentRegistries.RetireFreesASlot | kernel/core/src/agent_runtime/mod.rs:215-312 | a full registry takes exactly one more agent after a live one is retired |
| AgentRegistries.LiveUpdate | kernel/core/src/agent_runtime/mod.rs:304-328 | editing one entry changes the live count by that entry only |
| AgentRegistries.RetireHitsTheNamedAgent | kernel/core/src/agent_runtime/mod.rs:304-312 | in any registry, retiring by PID retires one entry of the named role and vantage; an earlier one only if its tier differs or the named agent is beyond the first 65,535 |
| ChildHandles.StepKeepsInv | kernel/core/src/agent_runtime/mod.rs:417-428 | a fetch-add or a rollback store of any thread keeps the handles gap-free |
| ChildHandles.HandlesAreDistinctAndBounded | kernel/core/src/agent_runtime/mod.rs:417-428 | handles are 1, 2, ..., at most 10,000, each once; after saturation none is given |
| ChildHandles.CallsAreAnswered | kernel/core/src/agent_runtime/mod.rs:417-435 | a call is answered by its first operation with the next handle while fewer than 10,000 are given, else by its second without one; between calls the counter counts the handles |
| BusFabric.FromLevels | kernel/core/src/bus_fabric/mod.rs:66-78 | accepts exactly labels of at most 20 levels below 1,024, depth checked first |
| BusFabric.CanonicalGlyphBytes | kernel/core/src/bus_fabric/mod.rs:89-96 | two big-endian bytes per level |
| BusFabric.ResolveLabel | kernel/core/src/bus_fabric/mod.rs:133-149 | the checks, the hash and the zero fold |
| BusFabric.OneLevelApart | kernel/core/src/bus_fabric/mod.rs:89-122 | labels that differ in exactly one level hash differently |
| BusFabric.NeighboursResolveApart | kernel/core/src/bus_fabric/mod.rs:126-149 | a non-empty label never gets handle zero, and labels that differ in one level never share a handle, the zero fold included |
| CosignChain.Chain.Append | kernel/core/src/cosign_chain/mod.rs:137-153 | accepts a row exactly when the extended chain validates, otherwise returns the error validation would; the head stays the hash of the last row |
| CosignChain.Chain.ValidateEndToEnd | kernel/core/src/cosign_chain/mod.rs:165-182 | the loop finds the first violation of any rows |
| CosignChain.ValidateExtended | kernel/core/src/cosign_chain/mod.rs:137-182 | validating an extended chain is validating the chain and checking the new row on its head |
| CosignChain.ValidIffLinked | kernel/core/src/cosign_chain/mod.rs:165-182 | a chain validates iff every row is numbered by its place, linked to the one before it and has a kind |
| CosignChain.FirstBadRowDecides | kernel/core/src/cosign_chain/mod.rs:165-182 | the error of a chain is that of its first bad row: number before link before kind |
| CosignChain.CanonicalBytesInjective | kernel/core/src/cosign_chain/mod.rs:29-34 | rows with equal canonical bytes agree on the hashed fields iff their hash texts are equally long |
| CosignChain.UnequalPayloadsCanCollide | kernel/core/src/cosign_chain/mod.rs:29-153 | two different one-row chains are accepted with one head, because a payload text is not checked |
| CosignChain.ChainsAgree | kernel/core/src/cosign_chain/mod.rs:29-182 | two valid chains ending in rows with equal canonical bytes have equal canonical bytes throughout, and a row's fields agree iff its payload texts are equally long |
| CosignChain.TamperEvidence | kernel/core/src/cosign_chain/mod.rs:29-49 | with 16-digit payloads such chains agree on every hashed field of every row |
| Pid.RFind | kernel/core/src/pid/mod.rs:205-212 | the last occurrence of the marker |
| Pid.LastMarkIsMinters | kernel/core/src/pid/mod.rs:205-212 | the last marker is the minter's own, whatever the role contains |
| Pid.ParseOfPrint | kernel/core/src/pid/mod.rs:205-280 | parsing any minted canonical, extended or anchor PID gives its fields, for every role |
| Pid.PrintOfParse | kernel/core/src/pid/mod.rs:299-375 | reprinting an accepted string gives that string |
| Pid.AcceptedIffPrintable | kernel/core/src/pid/mod.rs:205-375 | a string is accepted iff some fields print as it, and those are unique |
| Pid.PrintedForm | kernel/core/src/pid/mod.rs:299-375 | which fields are printed, character set and length of each, and the printed text |
| Pid.RefusedByFirstBadBlock | kernel/core/src/pid/mod.rs:205-280 | a refused string has no marker, or gets the error of the first bad block after its last one |
| Pid.StrictIff | kernel/core/src/pid/mod.rs:283-296 | a strict reading refuses in addition exactly the unknown roles; only refused strings are pending |
| Pid.ReadingsAreExclusive | kernel/core/src/pid/mod.rs:144-156 | the subclass names the printer, no string has two readings, strict validation is knowledge of the role |
| Sha256Spec.InitialValue | kernel/boot/src/hwinv.rs:169-172 | the initial words are the root bits of the first 8 primes |
| Sha256Spec.RoundConstants | kernel/boot/src/hwinv.rs:157-168 | the round constants are the cube-root bits of the first 64 primes |
| Sha256Spec.TableHoldsFirstPrimes | kernel/boot/src/hwinv.rs:157-168 | the table the constants are roots of holds exactly the primes up to 311, in order |
| Sha256Spec.PaddingIsShortest | kernel/boot/src/hwinv.rs:179-187 | the padding is the shortest allowed by section 5.1.1 of FIPS 180-4 |
| Sha256Spec.PadFillsBlocks | kernel/boot/src/hwinv.rs:179-187 | padded messages are whole blocks |
| BootSha256.Sha256InPlace | kernel/boot/src/hwinv.rs:156-241 | the digest is that of section 6.2 of FIPS 180-4 of the first 512 bytes, inside the 640-byte buffer |
| BootSha256.PadInPlace | kernel/boot/src/hwinv.rs:173-187 | the buffer holds the padded message |
| BootSha256.FindTotal | kernel/boot/src/hwinv.rs:181-184 | the length is placed at the first offset that is 56 modulo 64 |
| BootSha256.HashBlocks | kernel/boot/src/hwinv.rs:189-235 | the block loop computes the chained hash value |
| BootSha256.ScheduleInPlace | kernel/boot/src/hwinv.rs:191-203 | the array holds the message schedule |
| BootSha256.RunRounds | kernel/boot/src/hwinv.rs:204-225 | 64 rounds on the working variables |
| HwInventory.HwTuple.Push | kernel/boot/src/hwinv.rs:123-150 | appends six bytes if they fit; count and flags change either way |
| HwInventory.PciScan | kernel/boot/src/hwinv.rs:347-419 | the tuple describes the first 64 answering functions, in bus, device, function order, flags included |
| HwInventory.ScanDevice | kernel/boot/src/hwinv.rs:352-405 | one device: one or eight functions, absent ones skipped |
| HwInventory.TupleReadsBack | kernel/boot/src/hwinv.rs:123-137 | the tuple bytes tell vendor, device, class and subclass of every function |
| HwInventory.MachineIsSeen | kernel/boot/src/hwinv.rs:347-405 | given the headers of a machine: which functions the scan sees, and that it reads their fields as they are |
| HwInventory.Project60d | kernel/boot/src/hwinv.rs:246-268 | 60 glyphs below 1,024, glyph k from pair k mod 16 of the digest salted with k / 16 |
| HwInventory.SaltUntruncatedIff | kernel/boot/src/hwinv.rs:246-260 | the counter is hashed whole iff the tuple has at most 508 bytes |
| HwInventory.CountersDistinguishedIff | kernel/boot/src/hwinv.rs:246-260 | different counters below 256 give different salted inputs iff the tuple has at most 508 bytes |
| HwInventory.LongTuplesRepeat | kernel/boot/src/hwinv.rs:246-268 | from 509 bytes on the coordinate repeats every 16 glyphs |
| HwInventory.GlyphOfDigest | kernel/boot/src/hwinv.rs:255-268 | a glyph is the low ten bits of its pair, high byte first, of the salted digest |
| HwInventory.BytesOfCoordinate | kernel/boot/src/hwinv.rs:273-284 | the 120 hashed bytes tell every glyph of the coordinate |
| HwInventory.ScanIsProjectedWhole | kernel/boot/src/hwinv.rs:246-419 | every scan leaves at most 384 bytes, so every digest is over the whole tuple and counter |
| HwInventory.MintDeviceDigest | kernel/boot/src/hwinv.rs:273-284 | the device digest is the hash of the 120 coordinate bytes |
| FdSteps.StepKeepsInv | kernel/core/src/vfs/mod.rs:169-321 | one CAS, swap, load or transfer of any thread keeps table and log in agreement, and logs exactly the opens and closes that succeed |
| FdSteps.NoReuseBeforeClose | kernel/core/src/vfs/mod.rs:169-214 | between two opens of one fd a close of it succeeded, and between two closes an open |
| FdSteps.OccupiedIsOpensMinusCloses | kernel/core/src/vfs/mod.rs:169-214 | occupied user slots = successful opens - successful closes, and each holds the kind it was opened with |
| FdSteps.FullMeansEachTaken | kernel/core/src/vfs/mod.rs:169-192 | an open that reports a full table found each of the 253 slots taken when it tried it |
| FdSteps.ScanEnds | kernel/core/src/vfs/mod.rs:169-321 | whatever the others do, an open tries slot after slot for its kind, at most 253, and a transfer makes one operation after its load |
| FdSteps.OnlyTheBusPathFillsTheSlot | kernel/core/src/vfs/mod.rs:148-192 | over any run in which nobody opens the bus path, the envelope slot stays empty |
| FdSteps.OpenAlone | kernel/core/src/vfs/mod.rs:169-192 | a whole undisturbed open: its answers, and the lowest free descriptor held with the kind of its path |
| FdSteps.TransferByPath | kernel/core/src/vfs/mod.rs:247-321 | what reads and writes answer, and do to the envelope slot, by the path of the descriptor: null device, bus, any other |
| FdSteps.CloseAnswers | kernel/core/src/vfs/mod.rs:201-214 | a close frees exactly a held descriptor and refuses every other number; a second close is refused |
| FdSteps.AnsweredAtOnce | kernel/core/src/vfs/mod.rs:247-321 | what bad arguments, reserved and free descriptors are answered |
| FdSteps.MovesThroughClosedIff | kernel/core/src/vfs/mod.rs:247-321 | a transfer moves an envelope through a descriptor that has left the bus iff it was closed since the load and not opened on the bus again |
| FdSteps.UndisturbedTransferIsAtomic | kernel/core/src/vfs/mod.rs:247-321 | without such a close, load and transfer act as one operation on the current kind |
| FdSteps.ReadAfterClose | kernel/core/src/vfs/mod.rs:247-273 | a read delivers an envelope after another thread closed its descriptor |
| FdSteps.TransfersAreConserved | kernel/core/src/vfs/mod.rs:169-321 | over any run of opens, closes, reads and writes, reads return the envelopes writes accepted, in order, each once, short of at most the one in the slot |
| FdSteps.StepConserves | kernel/core/src/vfs/mod.rs:247-321 | a transfer moves at most one envelope, and a read returns its length |
| VfsTable.Vfs.VfsOpen | kernel/core/src/vfs/mod.rs:148-192 | run alone: the lowest free slot, with the kind of the path, and `TableFull` only if all 253 are taken |
| VfsTable.Vfs.VfsClose | kernel/core/src/vfs/mod.rs:201-214 | succeeds exactly for a taken user slot and frees only it |
| VfsTable.Vfs.VfsIsOpen | kernel/core/src/vfs/mod.rs:134-144 | reserved descriptors and taken slots |
| VfsTable.Vfs.VfsRead | kernel/core/src/vfs/mod.rs:247-273 | routing by binding kind; a bus read takes the envelope into the front of the buffer and touches nothing behind it |
| VfsTable.Vfs.VfsWrite | kernel/core/src/vfs/mod.rs:295-321 | routing by binding kind; a bus write leaves its bytes in the envelope slot |
| BumpPlans.PageRounding | kernel/core/src/frame_alloc/mod.rs:75-81 | pages cover the request iff the sum does not wrap; the wrapping lengths get nothing |
| BumpPlans.MaskIsLeastMultiple | kernel/boot/src/main.rs:47 | the mask form is the least multiple of a power of two at or above `current` |
| BumpPlans.AttemptTakesRegion | kernel/boot/src/main.rs:47-51 | a successful attempt takes an aligned region at the watermark, inside the pool |
| BumpPlans.AttemptFailsIff | kernel/core/src/frame_alloc/mod.rs:82-86 | an attempt gives up exactly if no aligned region of that size is left |
| BumpSteps.StepKeepsInv | kernel/core/src/frame_alloc/mod.rs:75-97 | one load or exchange of any thread, spurious failures included, keeps the invariant |
| BumpSteps.RegionsAreDisjoint | kernel/boot/src/main.rs:41-62 | regions of either allocator are aligned, in the pool and pairwise disjoint under any interleaving |
| BumpSteps.PagesAreConserved | kernel/core/src/frame_alloc/mod.rs:126-133 | handed out + free = pool size, over every run |
| BumpSteps.GrantCoversRequest | kernel/core/src/frame_alloc/mod.rs:75-97 | exactly which regions are as long as asked for |
| BumpSteps.RegionsShareAnAddressIff | kernel/core/src/frame_alloc/mod.rs:75-97 | two frame regions share an address iff every length from the first up to the second wraps |
| BumpSteps.WrappedLengthsShareAnAddress | kernel/core/src/frame_alloc/mod.rs:75-97 | a length of 2^64 - 1 is granted twice at one address |
| BumpSteps.CallEnds | kernel/core/src/frame_alloc/mod.rs:81-97 | every operation that is no spurious failure uses up part of a call's bound, whatever the others do |
| BumpSteps.CallEndsWithin | kernel/core/src/frame_alloc/mod.rs:81-97 | a frame allocation ends after at most 16,386 operations |
| BumpSteps.CallStarts | kernel/core/src/frame_alloc/mod.rs:75-81 | every call starts, but for a frame request of no length |
| BumpSteps.OperationOutcomes | kernel/core/src/frame_alloc/mod.rs:81-97 | every operation of a pending call takes the region at the least aligned address, or ends the call if there is no such region, or goes on |
| BumpSteps.AllocateAlone | kernel/boot/src/main.rs:41-62 | an undisturbed call of either allocator takes that region exactly if it fits, and otherwise changes nothing |
| Allocators.FrameAllocator.AllocPages | kernel/core/src/frame_alloc/mod.rs:75-97 | run alone: fails exactly if the rounded length exceeds what is free |
| Allocators.FrameAllocator.FreePages | kernel/core/src/frame_alloc/mod.rs:108-123 | the validity check, in the order of its errors |
| Allocators.FrameAllocator.UsedBytes | kernel/core/src/frame_alloc/mod.rs:126-128 | watermark minus base, at most the pool |
| Allocators.FrameAllocator.FreeBytes | kernel/core/src/frame_alloc/mod.rs:131-133 | end minus watermark, at most the pool |
| Allocators.AllocatedCanBeFreed | kernel/core/src/frame_alloc/mod.rs:75-123 | exactly when a returned pointer is accepted by the free check |
| Allocators.BumpAllocator.Alloc | kernel/boot/src/main.rs:41-62 | run alone: the least aligned address, null exactly if the heap ends before |
| Framebuffer.FbFill | kernel/boot/src/main.rs:203-210 | paints the pixels of its index arithmetic and no other |
| Framebuffer.FbString | kernel/boot/src/main.rs:213-232 | paints the scaled lit cells of its glyphs and no other pixel |
| Framebuffer.PaintBootScreen | kernel/boot/src/main.rs:346-396 | an accepted mode shows title over bar over background, a refused one is untouched |
| Framebuffer.AcceptedHasPixels | kernel/boot/src/main.rs:359-363 | the size check covers all rows exactly if its product does not saturate |
| Framebuffer.AcceptedIsLongEnough | kernel/boot/src/main.rs:359-363 | where it saturates, the framebuffer still has every pixel 32-bit indexes can reach |
| Framebuffer.TitleReach | kernel/boot/src/main.rs:380-394 | no subtraction underflows, and title and bar, with their overrun, end inside the last row |
| Framebuffer.TitleIsCentred | kernel/boot/src/main.rs:380-387 | the margins of the title differ by at most one pixel, and two cells part it from the bar |
| Framebuffer.PackedChannels | kernel/boot/src/main.rs:181-187 | which channel each byte of a packed colour is |
| Framebuffer.PaintStaysInside | kernel/boot/src/main.rs:203-394 | for every accepted mode every written index is below `pps * h`, even with 32-bit wrap-around |
| Framebuffer.ScreenShows | kernel/boot/src/main.rs:379-394 | what is seen at a column and row when the row holds the title |
| Framebuffer.ScreenColours | kernel/boot/src/main.rs:370-394 | which packed colour a column and row has: title over bar over background, in the byte order of the format |
| Framebuffer.TextShows | kernel/boot/src/main.rs:213-232 | the painted indexes are the scaled glyph pixels in their columns and rows |
| Framebuffer.PaintedIndexes | kernel/boot/src/main.rs:203-394 | in every mode, title, bar and background paint the 32-bit indexes of their pixels and no other |
| Framebuffer.TextHitsIff | kernel/boot/src/main.rs:213-232 | painting a text paints the indexes of its lit pixels and no other, wherever they wrap or overrun |
| Framebuffer.TitleOverrunsIff | kernel/boot/src/main.rs:379-394 | the title runs past the row end iff the row is shorter than 133 cells from its left edge |
| Framebuffer.BarOverrunsIff | kernel/boot/src/main.rs:387-393 | the bar runs past the row end iff the row is shorter than the title's slots; below 2^32 pixels the row below shows it |
| Framebuffer.NarrowModesOverrun | kernel/boot/src/main.rs:373-394 | a 320 by 200 and a 1024 by 768 mode are accepted and overrun, title and bar |
| Base64Coding.Base64 | surface/src/main.rs:320-341 | the encoder computes the encoding of section 4 of RFC 4648 |
| Base64Coding.DecodeUndoesEncode | surface/src/main.rs:320-341 | decoding an encoding gives the bytes back, for every byte string |
| Base64Coding.EncodeUndoesDecode | surface/src/main.rs:320-341 | only encodings are decoded |
| Base64Coding.EncodedLength | surface/src/main.rs:320-323 | 4 * ceil(n / 3) characters |
| Base64Coding.KnownEncodings | surface/src/main.rs:320-341 | the test vectors of section 10 of RFC 4648 for one, two and three bytes |
| SessionStream.StepKeepsInv | surface/src/main.rs:256-313 | a pump, a kill or a step of any viewer keeps what every viewer has received in step with the output |
| SessionStream.ClientSeesPrefix | surface/src/main.rs:276-313 | the decoded data events are a prefix of the output, and complete up to the offset unless a write failed |
| SessionStream.QuietRoundCatchesUp | surface/src/main.rs:279-297 | one undisturbed round delivers everything there is |
| SessionStream.IdleRound | surface/src/main.rs:279-313 | a round of a live session without new output sends no data and no end; every hundredth tick a keep-alive |
| SessionStream.LastRound | surface/src/main.rs:279-304 | a round of a dead session without new output ends the stream, complete |
| SessionStream.EndMeansKilled | surface/src/main.rs:289-304 | over any run, a viewer is sent the end event only after the session was killed |
| SessionStream.EndIsCompleteIff | surface/src/main.rs:276-313 | over any run, a viewer sent the end event has the whole output iff nothing was pumped after its last look |
| SessionStream.EndAfterEmptyLookIff | surface/src/main.rs:289-304 | after a look that found nothing, the end event is complete iff nothing is pumped before it |
| SessionStream.EndCanComeEarly | surface/src/main.rs:289-304 | output pumped before a kill can be missing at the end event |
| BoundedLines.LineWriter.PushBytes | kernel/core/src/boot_diag.rs:384-396 | the buffer holds the prefix of the line that fits and its old bytes behind it; the required length is that of the line |
| BoundedLines.LineWriter.PushDecimal | kernel/core/src/boot_diag.rs:363-382 | appends the decimal text |
| BoundedLines.DigitsOf | kernel/core/src/boot_identity.rs:206-221 | 20 places are enough for every 64-bit value |
| BoundedLines.LineWriter.Finish | kernel/core/src/boot_diag.rs:333-341 | succeeds exactly if the whole line fitted |
| BoundedLines.DecimalLength | kernel/core/src/boot_diag.rs:363-382 | a value below 10^k prints in at most k digits |
| Words.DecimalReadsBack | kernel/core/src/boot_diag.rs:363-382 | printed decimals are digits and read back as their value |
| Words.UpperHexReadsBack | kernel/core/src/agent_runtime/mod.rs:384-389 | printed hexadecimals are the sixteen digits, highest first, and read back as their value |
| BootDiag.RenderStatusLine | kernel/core/src/boot_diag.rs:268-275 | leaves the prefix that fits, succeeds exactly if the line fits, otherwise reports its length |
| BootDiag.StatusLineLen | kernel/core/src/boot_diag.rs:257-261 | the counting pass gives the length of the rendered line |
| BootDiag.StatusLineFits | kernel/boot/src/main.rs:399-411 | the loader's 384-byte buffer always suffices, so its fallback row is never printed |
| BootDiag.StatusLineReadsBack | kernel/core/src/boot_diag.rs:277-304 | the line determines the observations |
| BootDiag.StageIsStrongestSurface | kernel/core/src/boot_diag.rs:221-245 | the stage is the strongest surface observed |
| BootDiag.GuardedIff | kernel/core/src/boot_diag.rs:226-234 | with a framebuffer: which loader path and secure-boot state give which stage |
| BootDiag.KnownLine | kernel/core/src/boot_diag.rs:519-530 | the line the original's test expects of a complete observation |
| BootDiag.KnownEmptyLine | kernel/core/src/boot_diag.rs:548-563 | and the one it expects without a framebuffer |
| BootIdentityLine.RenderBootIdentityLine | kernel/core/src/boot_identity.rs:104-111 | leaves the prefix that fits, succeeds exactly if the line fits, otherwise reports its length |
| BootIdentityLine.BootIdentityLineLen | kernel/core/src/boot_identity.rs:97-101 | the counting pass gives the length of the rendered line, saturating |
| BootIdentityLine.IdentityLineReadsBack | kernel/core/src/boot_identity.rs:113-147 | if no field contains a bar, the line determines the identity |
| BootIdentityLine.AxisIsLinear | kernel/core/src/boot_identity.rs:66-76 | every axis is below 1,024 and the 16-bit wrapping does not change it |
| PeerMachine.PeerStateMachine.Transition | kernel/core/src/cycle_orch/mod.rs:82-105 | accepted exactly if legal; the history stays the last 256 records of the trace |
| PeerMachine.PeerStateMachine.OnKick | kernel/core/src/cycle_orch/mod.rs:107-115 | accepted exactly from Alive or Responding; the deadline is set even if refused |
| PeerMachine.PeerStateMachine.OnReply | kernel/core/src/cycle_orch/mod.rs:117-120 | accepted exactly from Kicked; strikes are cleared even if refused |
| PeerMachine.PeerStateMachine.OnDrift | kernel/core/src/cycle_orch/mod.rs:122-125 | strikes count the drift calls since the last reply call, refused ones included, on 32 bits |
| PeerMachine.PeerStateMachine.OnHalt | kernel/core/src/cycle_orch/mod.rs:127-129 | accepted exactly from Kicked, Responding or Drift |
| PeerMachine.PeerStateMachine.IsOverdue | kernel/core/src/cycle_orch/mod.rs:131-136 | only a kicked peer past its deadline |
| PeerMachine.DriftsCountFromReply | kernel/core/src/cycle_orch/mod.rs:117-125 | the strike count is the number of drift calls after the last reply call |
| PeerMachine.HistoryIsLinked | kernel/core/src/cycle_orch/mod.rs:82-105 | consecutive records of the bounded history link and are legal, and the last ends in the state |
| PeerMachine.EntriesOf | kernel/core/src/cycle_orch/mod.rs:37-48 | from which states each state is entered |
| PeerMachine.RespondingFollowsKicked | kernel/core/src/cycle_orch/mod.rs:37-48 | every entry to Responding directly follows Kicked |
| PeerMachine.KickedFollowsAliveOrResponding | kernel/core/src/cycle_orch/mod.rs:37-48 | every entry to Kicked directly follows Alive or Responding, so a drifting or halted peer is never kicked |
| PeerMachine.HaltToAliveIsProbed | kernel/core/src/cycle_orch/mod.rs:37-48 | any route from Halt to Alive passes Dark and then Probing |
| PeerMachine.NobodyIsStuck | kernel/core/src/cycle_orch/mod.rs:37-48 | from every state at most three legal transitions lead to Alive |
| PeerMachine.HaltedIsThreeFromAlive | kernel/core/src/cycle_orch/mod.rs:37-48 | from Halt no fewer |

## Left out

- Memory orderings weaker than sequential consistency, and the test-only reset functions.
- Panics of the development profile: arithmetic overflow, and the modulo by zero of `selector_axis_u10` when seat and device PID are both empty (excluded by a precondition).
- Port I/O, serial and console output, firmware tables, the CMOS clock, the time-stamp counter, and the null checks on firmware pointers.
- The text of the PCI scan's serial lines and of the `BOOTPID` row.
- Signatures, the truncated and full hashes themselves, and `pid_fingerprint_sha16`.
- Vector lengths of 2^63 or more, so that the cosign chain's row counter and the registry's counters do not wrap.
- The registry's `note_*` counters, `count_in_vantage`, and the default limits around it.
- The envelope stubs `dispatch_enqueue` and `dispatch_dequeue`, the collection trigger, and the module-level `append` counter of the cosign chain.
- `prefix_tree_walk`, the identity alphabet table and `label_for_handle` of the bus fabric.
- The HTTP server around the surface, process spawning, health probes, the label event and the socket framing of a stream; a write either delivers its whole event or ends the viewer.
- The service-level gate and the operator halt verbs beside the peer machine.
- Finite tables such as `tier_gate`, `hookwall`, `highway` and `transit`, which case analysis settles.
- AgentPid.PidsIdentifyAgents: agents that differ in both handle and tier are told apart only by 48 bits of the hash, and nothing is said about those.
- Framebuffer.ScreenShows: speaks of columns and rows, which need `pps * h` at most 2^32; beyond that the row arithmetic wraps, and `Framebuffer.PaintedIndexes` says which indexes are painted.
- Framebuffer.ScreenColours: speaks of columns and rows, as `Framebuffer.ScreenShows` does.
- VfsTable.Vfs.VfsRead: one caller at a time; `FdSteps` adds the race between the load and the transfer, with the transfer as one step on the envelope slot, whose inner steps are those of `EnvelopeSteps`.
