# emu-coop: a verified model of the bridge, the relay and the patch tools

emu-coop lets two people play one game together: a bridge beside each game polls its memory, sends what changed through a
relay, and merges what the partner sends. The game is prepared with a patch whose 6502 code was moved to a free place in
the ROM. This project models those parts in Dafny and proves what they are for.

| files | component |
|---|---|
| `Records`, `SyncEngine`, `MapWriteGate`, `SyncSession` | the sync engine of one bridge: functions of its state, and the classes |
| `Polling` | what polls send: the first one, later ones, across pauses and resyncs; new bridges as the start of the results below |
| `Delivery`, `PathIndependence` | one receiver: updates written at once, from the sleep queue, or through the coalescing gate, and when it does not matter which |
| `Replicas`, `Conservation`, `Quiescence` | two bridges over FIFO channels: convergence, counters, termination |
| `Opcodes`, `Relocate` | the 6502 relocator: opcode table, packed mapping, rewriting, control flow |
| `Ips`, `IpsBuild` | the patch format: parser, applier, validator, builder |
| `Relay`, `RelayRuns`, `RelayFrames`, `RelayServer` | the relay: steps, what every run keeps, what it sends to whom, the class |
| `Framing`, `Readers` | the wire format and its three incremental decoders |
| `PipeClient`, `Handshake`, `Rejoin` | the protocol client, two of them joined by the relay, and a pair that outlives its connections |
| `StatusPairs`, `CcClient`, `SmartCache` | the device formats: the serial stream with its status pairs, the serial client, the shared-memory cache |
| `Bits`, `Bytes`, `Wrappers` | bitwise operators on unbounded integers, big-endian numbers, options and results |

How it is built:

- A class of the source is a class here, with the source's fields. Each method is proved to make of the state what a
  specification function of the same module says (`View() == Spec(old(View()))`), and the theorems are about those
  functions. Algorithms with loops are methods with loops. Pure code is functions.
- A system of several parties is a state and a step function. A run is any sequence of steps, so every theorem about runs
  is about every interleaving.
- Python's `&`, `|` and `~` are recursive functions on integers, proved bit by bit (`Bits`); bytes are written `% 0x100`
  where the source masks them.
- JSON is an abstract codec with an inverse. Clocks, the running probe, endpoint failures and socket failures are
  parameters of the steps.

Hypotheses of the main theorems, all checkable from outside:

- Convergence of `bitOr` bits needs that no update is written while memory holds a bit of the lens that the partner
  neither has nor will get, because the bit goes into the cache with the merged byte and is never sent
  (sync_engine.py:311). `AbsorptionExactly` shows that such a write, as the update arrives, when it wakes, or when the gate
  is drained, is the only one that breaks the invariant, and every such write does. The two sides may still meet later, by
  a poll of another bit of the byte or because the partner sets the bit; `AbsorbedBitDiverges` gives a run from every start
  for each of the three ways in which they do not. `high` values need no such hypothesis.
- Convergence, conservation and path independence need endpoints that never fail to read or write while an update is
  applied (`Allowed`, `EnvsWork`): the source drops an update it cannot write, and so does the model.
- Conservation of a counter needs that a delta is written over a memory equal to the cache and without the clamp, or that
  clamp and delta cancel out; `StepBalances` is an equivalence.
- Path independence behind the gate holds if and only if every masked bit set by an update to the address is already in
  memory or in the last of them (`PathIndependentIff`); streams that do not clear a bit again are the usual case
  (`RisingIndependent`), and `GateLosesFallingBit` is a failure.
- Silence needs ticks whose sleepers change no byte that may be sent back: the snapshot polled is read before they are
  written (sync_session.py:87 and 109-111). `SilentIff` is the exact condition, and the lemmas behind it spell it out for
  every kind of record: `high` and gated addresses never echo, a `bitOr` address does exactly if a masked bit sleeps that
  is not in memory, a counter exactly if its sleeping deltas change it.
- Resync happens once exactly if every tick before the first poll leaves the gate empty, which is always so without
  deferral; otherwise it never happens (`ResyncByGate`).
- Routing needs that no socket of an intact pair is swapped; `SwapRoutedIff` says exactly when a swap misroutes. That a
  pair can break when a connection ends needs that no pair is recovered whose survivor is offline
  (`EveryRunAttended`, `EnterAttendedIff`).
- A client that comes back to its pair is served if and only if its partner's last hello is off the link to the relay and
  the partner has handled every frame that makes it say another (`ReturnIff`); else it gets two hellos and fails
  (`EarlyFails`). It is enough that no client drops before it has its partner's hello, or while its partner is away
  (`AcquaintedSafe`).
- Control flow needs branches into relocated code and fall-through inside a region (`SelfContained`), and for the converse
  direction that the packed block lies inside the old range, as it does for the shipped constants (`Z1rrLayout`). A
  wrapping branch is relocated exactly if the packed distance is within reach (`WrappingFailsIff`).
- An answer through the serial port is read if and only if each of its bytes that looks like a status pair with the next
  has a pair put in behind it (`StripRecoversIff`, `ResponseFound`); with no pair put in, that excludes values that hold
  such bytes, and a chunk of single addresses that begins with 0xA5, which the action byte 0x00 stands in front of
  (`ResponseReadIff`). And if what has arrived when the client looks ends inside a status pair right in front of the last
  value, the first half of the pair is read in place of that value. `PollExactly` and `ReadsMemoryIff` say exactly which
  answers, in which pieces, give the right bytes; `TornPairMisread` shows one that does not.

## Model

| member | source | states |
|---|---|---|
| Records.HighReceive | bridge/bridge_core/sync_engine.py:58-60 | a byte-sized `high` value is sent, and written, exactly when it is larger, as itself |
| Records.BitOrReceive | bridge/bridge_core/sync_engine.py:43-66 | a received `bitOr` value sets its bits inside the mask and changes no other bit |
| Records.BitOrSend | bridge/bridge_core/sync_engine.py:43-66 | what a poll sends has the new bits inside the mask and the cached ones outside; when nothing is sent they agree |
| Records.CounterReceive | bridge/bridge_core/sync_engine.py:73-88 | a received delta makes the counter the sum, or 0 if that is negative, in one byte |
| Records.CounterSend | bridge/bridge_core/sync_engine.py:73-80 | a changed counter is sent as the plain difference |
| Records.PlainTakes | bridge/bridge_core/sync_engine.py:89-91 | a record without kind takes exactly the bits inside its mask, sending and receiving |
| Records.PlainChangesIff | bridge/bridge_core/sync_engine.py:89-91 | a byte is sent or written if and only if it differs inside the mask |
| Records.BitAndReceive | bridge/bridge_core/sync_engine.py:67-72 | a received `bitAnd` value clears its zero bits inside the mask and changes no other bit |
| Records.HighField | bridge/bridge_core/sync_engine.py:58-60 | a `high` record with a mask of low bits compares the fields, and writes nothing beside them |
| Records.WholeValue | bridge/bridge_core/sync_engine.py:31-41 | unmasked values of one, two or four bytes are compared, and counters subtracted, as whole numbers |
| Records.ClampIs | bridge/bridge_core/sync_engine.py:83-87 | the clamp leaves a sum between the bounds and moves any other to the bound it is beyond |
| Records.DeltaField | bridge/bridge_core/sync_engine.py:81-88 | a received delta writes the clamped sum into the field and keeps the bits beside it |
| Records.DeltaFieldSend | bridge/bridge_core/sync_engine.py:73-80 | a poll sends the difference of the fields, unless one is zero and the record ignores that |
| Records.CondSees | bridge/bridge_core/sync_engine.py:93-97 | a condition filters what the record lets through; it sees the new bits inside the mask and the old ones outside |
| SyncEngines.SyncEngine.constructor | bridge/bridge_core/sync_engine.py:128-146 | an engine starts with empty cache and queues, unarmed |
| SyncEngines.SyncEngine.HandleTable | bridge/bridge_core/sync_engine.py:235-315 | every branch of applying an update, in order: missing fields, unknown, implausible, gated, asleep, read error, no change, write error, applied with the cache following memory |
| SyncEngines.SyncEngine.DrainSleepQueue | bridge/bridge_core/sync_engine.py:379-385 | the queue is emptied first, then its updates are handled in order without queueing |
| SyncEngines.SyncEngine.DrainMapWriteGate | bridge/bridge_core/sync_engine.py:330-348 | at most one due entry is popped, only while the game runs, and applied past the gate |
| SyncEngines.SyncEngine.DiffSnapshot | bridge/bridge_core/sync_engine.py:198-217 | the polls of the table in order: what is sent and how the cache moves; nothing on an implausible snapshot |
| SyncEngines.SyncEngine.DrainResyncSendQueue | bridge/bridge_core/sync_engine.py:360-371 | one chunk leaves the queue; an emptied or empty queue disarms the engine |
| SyncEngines.SyncEngine.FirstRunning | bridge/bridge_core/sync_engine.py:172-196 | the first poll fills the cache (Polling.FirstPollCaches) and, if armed, sends or queues the broadcast (Polling.BroadcastSends) |
| SyncEngines.SyncEngine.ObserveNotRunning | bridge/bridge_core/sync_engine.py:320-328 | the pause comes at the threshold and once |
| SyncEngines.SyncEngine.StartResync | bridge/bridge_core/sync_engine.py:387-393 | a resync clears cache and queue and arms the engine, and leaves memory, sleep queue and gate |
| MapWriteGates.PutKeepsOrder | bridge/bridge_core/map_write_gate.py:33-35 | a known address keeps its place and gets the new value, a new one goes last |
| MapWriteGates.MapWriteGate.Enqueue | bridge/bridge_core/map_write_gate.py:33-40 | the new pending order, the window of enqueue times and the burst count |
| MapWriteGates.MapWriteGate.IsDue | bridge/bridge_core/map_write_gate.py:42-48 | due exactly if something waits and the interval since the last drain has passed |
| MapWriteGates.MapWriteGate.PopDue | bridge/bridge_core/map_write_gate.py:50-56 | the oldest entry leaves exactly when due, and the drain time is set |
| MapWriteGates.RateBound | bridge/bridge_core/map_write_gate.py:42-56 | over every run, a window of length T holds at most floor(T / interval) + 1 pops |
| MapWriteGates.NoStarvation | bridge/bridge_core/map_write_gate.py:33-56 | over every run, an address with k ahead of it is what the (k+1)-th pop returns, whatever is enqueued again |
| MapWriteGates.BurstsCounted | bridge/bridge_core/map_write_gate.py:33-40 | over every run with a clock that does not go back, the burst count is the number of enqueues that make exactly the threshold within a window |
| SyncSessions.SyncSession.Take | bridge/bridge_core/sync_session.py:118-133 | a data frame is applied, a reconnect resyncs and asks for a new hello, a hello changes nothing |
| SyncSessions.SyncSession.TickOnce | bridge/bridge_core/sync_session.py:48-116 | one tick: the order of deliveries, hello, probe, gate, deferral, resync chunk, snapshot, first poll, sleepers and diff, and every early return |
| SyncSessions.TickKeeps | bridge/bridge_core/sync_session.py:72-114 | a resync under way sends its next chunk or nothing in every tick, within the limit, armed exactly while something is queued |
| SyncSessions.ResyncByGate | bridge/bridge_core/sync_session.py:72-114 | over every run of ticks after a reconnect of any session, with or without deferral: if every running tick before the first poll leaves the gate empty, frames sent and queued are exactly the broadcast of the first polled snapshot in table order and in chunks; otherwise no resync frame is ever sent and the engine is disarmed |
| SyncSessions.ResyncOnce | bridge/bridge_core/sync_engine.py:172-196 | without deferral the first of these cases, unconditionally |
| SyncSessions.BacklogFirst | bridge/bridge_core/sync_session.py:83-107 | without deferral a tick with a resync backlog neither polls nor fills the cache |
| SyncSessions.DeferralDisarms | bridge/bridge_core/sync_session.py:74-82 | deferral changes an armed engine's tick exactly when the gate is left non-empty, and then disarms it |
| SyncSessions.DisarmedSendsNothing | bridge/bridge_core/sync_engine.py:185-196 | a disarmed engine sends no resync frame in any later tick |
| SyncSessions.ResyncEnds | bridge/bridge_core/sync_engine.py:360-371 | k ticks of the running game send k whole chunks of a waiting resync, so that it ends after as many ticks as it has chunks |
| Polling.FirstPollCaches | bridge/bridge_core/sync_engine.py:172-196 | after an accepted first poll exactly the addresses of the table and those cached before are cached, at the cached value if there was one and else at the value in the snapshot |
| Polling.DiffSends | bridge/bridge_core/sync_engine.py:198-217 | a poll sends exactly the changes against the cache that their records let out, in table order and each address once |
| Polling.PollSends | bridge/bridge_core/sync_session.py:87-114 | so does every poll of a tick with nothing asleep and no resync asked for, the first one included, over the cache as it was before it |
| Polling.PollSendsWoken | bridge/bridge_core/sync_session.py:98-114 | and with any sleepers and any resync, over the cache as they leave it |
| Polling.PollCaches | bridge/bridge_core/sync_engine.py:205-216 | it leaves the value in the snapshot cached, except for a change that the record has held back |
| Polling.NewBridge | bridge/bridge_core/sync_session.py:98-114 | a new bridge with nothing asleep sends nothing on its first poll, and on its second exactly the addresses that differ between the two snapshots and may be sent |
| Polling.PausesAtThreshold | bridge/bridge_core/sync_engine.py:320-328 | any number of ticks without the game: the pause comes when they are as many as the threshold, once, and nothing but flag and count changes |
| Polling.PauseResumes | bridge/bridge_core/sync_engine.py:172-217 | the first poll after a pause of any length, with nothing asleep, sends exactly the changes since the last poll before it |
| Polling.BroadcastSends | bridge/bridge_core/sync_engine.py:179-188 | a resync broadcasts exactly the values that are neither zero nor counters, in table order and each once |
| Polling.ResyncStartsOver | bridge/bridge_core/sync_engine.py:387-393 | after a reconnect, with nothing asleep and no limit on chunks, the next poll caches the whole table anew, sends that broadcast and no change, and from then on changes go out against it; for chunks see SyncSessions.ResyncByGate |
| Polling.HighTakenIff | bridge/bridge_core/sync_engine.py:160-170 | a `high` value from the partner is written if and only if its record has a name for it and it is larger |
| Polling.CounterFollows | bridge/bridge_core/sync_engine.py:467-478 | the cache follows a counter at every poll; its difference is sent, or dropped for good when it starts or ends at an ignored zero |
| Polling.LostIff | bridge/bridge_core/sync_engine.py:284-310 | an update is lost exactly when the endpoint fails to read it or to write what it would have applied |
| Polling.StatusTells | bridge/bridge_core/sync_engine.py:235-315 | memory and cache change only by an applied update and then hold the same, the gate only by a deferred one, and the sleep queue takes exactly the queued ones |
| Polling.FirstPollAgrees | bridge/bridge_core/sync_engine.py:172-196 | the first poll of its own memory leaves an engine as the quiescence results assume it |
| Polling.NewBridgesStart | bridge/bridge_core/sync_engine.py:172-196 | and two new bridges as the convergence and conservation results assume them |
| Polling.TickedIsPoll | bridge/bridge_core/sync_session.py:87-114 | the tick of the quiescence results is the poll of a session |
| Polling.HelloOnce | bridge/bridge_core/sync_session.py:56-60 | over every run of ticks after a reconnect the application hello is sent in the first established tick and in no other |
| Polling.TickCounts | bridge/bridge_core/sync_session.py:61-116 | which ticks count towards a pause, which start the count again, and which do neither |
| Polling.TickSends | bridge/bridge_core/sync_session.py:48-116 | a tick that polls sends as changes exactly those against the cache as first poll and sleepers leave it; a tick that does not poll sends none |
| Polling.TickLeaves | bridge/bridge_core/sync_session.py:48-116 | a tick that does not poll leaves what the deliveries have made of memory, cache, gate and sleep queue, and while the game runs the drained gate |
| Polling.StoppedRunPauses | bridge/bridge_core/sync_session.py:61-72 | a session pauses when the game has been seen not to run for as many ticks in a row as the threshold, and not before |
| Delivery.MergeIsMax | bridge/bridge_core/sync_engine.py:294-311 | on a `high` byte and on every masked `bitOr` bit, writing an update is taking the maximum |
| Delivery.HandleKeepsKnown | bridge/bridge_core/sync_engine.py:267-315 | an update is added to what memory, sleep queue and gate hold together, wherever it goes |
| Delivery.UnmaskedBitKept | bridge/bridge_core/sync_engine.py:43-66 | no incoming message of any value changes a bit outside the mask |
| Delivery.DrainIsWakes | bridge/bridge_core/sync_engine.py:379-385 | draining the sleep queue is waking its items one at a time |
| PathIndependence.PathIndependentIff | bridge/bridge_core/sync_engine.py:267-283 | behind the gate all schedules that end with nothing pending agree with writing at once if and only if each masked bit set by an update is in memory or in the last update |
| PathIndependence.RisingIndependent | bridge/bridge_core/sync_engine.py:267-283 | so they do for every stream that does not clear a masked bit again, gated or not |
| PathIndependence.PathIndependent | bridge/bridge_core/sync_engine.py:267-283 | for `high` and `bitOr` addresses, every interleaving of arrivals, wakes and drains of such a stream ends, once nothing is pending, with the byte that writing each update at once gives |
| PathIndependence.GateLosesFallingBit | bridge/bridge_core/map_write_gate.py:33-40 | a stream that clears a bit again loses it in the gate and keeps it when written at once |
| Replicas.DiffIsPolls | bridge/bridge_core/sync_engine.py:198-217 | a diff is the run of one-address polls of the two-bridge system |
| Replicas.StepKeeps | bridge/bridge_core/sync_engine.py:198-315 | every step of either bridge keeps: the cache of one is bounded by memory, queue, gate and channel of the other |
| Replicas.HighConverges | bridge/bridge_core/sync_engine.py:58-60 | in every interleaving with growing local values, whenever all is quiet both memories hold the same `high` byte, with stale snapshots and sleep queue |
| Replicas.BitConverges | bridge/bridge_core/sync_engine.py:61-66 | the same for every masked `bitOr` bit, in runs in which no update is written over an unsent bit that the partner neither has nor will get |
| Replicas.AbsorptionExactly | bridge/bridge_core/sync_engine.py:294-312 | a step that writes an update, as it arrives, from the sleep queue or out of the gate, keeps the invariant behind convergence if and only if the local bit it carries into the cache is one the partner has or will get |
| Replicas.AbsorbedBitDiverges | bridge/bridge_core/sync_engine.py:311 | from every start and by each of the three ways into memory, an unpolled bit met by a polled update leaves the two memories different and quiet |
| Conservation.HandleOwes | bridge/bridge_core/sync_engine.py:294-311 | handling a delta changes cache and queue by the delta modulo 256 if and only if memory is clean for it |
| Conservation.PollBalances | bridge/bridge_core/sync_engine.py:205-216 | a poll of any snapshot sends exactly what it adds to the cache |
| Conservation.StepBalances | bridge/bridge_core/sync_engine.py:198-315 | a step keeps both accounts equal modulo 256 if and only if it does not write a delta over an unclean memory |
| Conservation.CountersAgree | bridge/bridge_core/sync_engine.py:73-88 | in every undisturbed run the counters are equal whenever all is quiet, across byte wraps |
| Conservation.QuietBalance | bridge/bridge_core/sync_engine.py:210-214 | at rest, balanced accounts and equal counters are the same |
| Quiescence.HandleSendsFewer | bridge/bridge_core/sync_engine.py:294-312 | handling an update of any record kind makes no new address worth sending |
| Quiescence.DiffSettles | bridge/bridge_core/sync_engine.py:198-217 | a poll of current memory sends exactly the addresses that differ and allow it, and the next one nothing |
| Quiescence.StepSettles | bridge/bridge_core/sync_engine.py:198-348 | every receive, wake, gate drain, sending poll, and tick that does not echo lowers 3·channels + 2·sleeping + gates + 4·addresses to send, for every record kind |
| Quiescence.RunSettles | bridge/bridge_core/sync_engine.py:198-348 | in every run without local writes and without an echoing tick at most that many steps do anything |
| Quiescence.SpentIsSilent | bridge/bridge_core/sync_engine.py:198-217 | when the measure is spent no step does anything and nothing is sent |
| Quiescence.SilentIff | bridge/bridge_core/sync_session.py:87-114 | an engine whose cache, memory and snapshot agree sends nothing after waking its sleepers if and only if none of them changes a byte whose record lets the old value be sent over the new one |
| Quiescence.HighNeverEchoes | bridge/bridge_core/sync_engine.py:58-60 | a `high` address never does |
| Quiescence.GatedNeverEchoes | bridge/bridge_core/sync_engine.py:267-274 | nor does an address behind the gate |
| Quiescence.BitOrEchoesIff | bridge/bridge_core/sync_engine.py:61-66 | a `bitOr` address does if and only if a sleeping update sets a masked bit that is not in memory |
| Quiescence.DeltaEchoesIff | bridge/bridge_core/sync_engine.py:73-88 | a counter does if and only if its value before and after differ and neither is a zero that the record ignores |
| Quiescence.KeysEchoIff | bridge/bridge_core/sync_engine.py:73-88 | for the key counter: if and only if the sleeping deltas, added up with wrap and clamp, do not give back the value in memory |
| Quiescence.CustomEchoesIff | bridge/bridge_core/sync_engine.py:294-312 | a record that is a function does if and only if the value changes and the function lets the old value over the new |
| Quiescence.SleepingBitEchoes | bridge/bridge_core/sync_session.py:87-114 | a masked bit asleep over a settled `bitOr` byte makes the tick send |
| Quiescence.StaleEcho | bridge/bridge_core/sync_session.py:87-114 | every echo, of any record kind and with any sleepers, sends what the record makes of the value before, caches that value and leaves memory different; the next poll sends the address once more if and only if the value after may be sent over it, as for `bitOr` bytes, counters and plain bytes |
| Relocate.BuildMapping | bridge/relocate_patch.py:222-233 | for every ascending region list the mapping holds exactly the bytes of the regions, each at its packed place |
| Relocate.Contracts | bridge/relocate_patch.py:222-233 | the mapping is injective, keeps order and never moves two addresses apart |
| Relocate.RelocateTable | bridge/relocate_patch.py:250-261 | fails exactly on a truncated table or an entry without a new place; else entry k is the mapping of entry k and the rest stays |
| Relocate.RewriteOperand | bridge/relocate_patch.py:279-304 | fails exactly where the source raises; else opcode kept, absolute operand or branch decoded at its new place is the moved target, which Relocate.OperandMoves spells out, nothing else touched |
| Opcodes.OpcodesRegular | bridge/relocate_patch.py:46-118 | the opcode table agrees with the regular layout of 6502 opcodes row by row |
| Relocate.OperandMoves | bridge/relocate_patch.py:279-288 | an absolute operand inside the old range becomes its packed place, the old prelude address the new one, and every other operand stays |
| Relocate.PreludeFollows | bridge/relocate_patch.py:283-288 | the block holds the four prelude bytes at the place that such an operand names |
| Relocate.TargetFollows | bridge/relocate_patch.py:279-282 | and at the place of any other internal operand the first byte of what was there |
| Relocate.RelocateCode | bridge/relocate_patch.py:263-309 | fails exactly if a walked instruction does; else the same walk, every instruction rewritten, only operand bytes changed |
| Relocate.PackRegions | bridge/relocate_patch.py:350-365 | fails exactly if a region does; else every relocated region stands at its place and the prelude follows |
| Relocate.BranchReaches | bridge/relocate_patch.py:289-304 | a branch between packed addresses that does not wrap around the address space is in range, whatever the bytes |
| Relocate.NoBranchOutOfRange | bridge/relocate_patch.py:289-304 | a region off both ends of the address space fails on a branch only for an internal target outside the regions |
| Relocate.WrappingFailsIff | bridge/relocate_patch.py:294-303 | a branch that wraps to packed code fails if and only if the packed block puts more than 128 bytes back, or 127 ahead, between the two |
| Relocate.WrappingBranchFails | bridge/relocate_patch.py:294-303 | such a branch exists |
| Relocate.PackedProgram | bridge/relocate_patch.py:350-365 | what the packing loop returns for self-contained code is a relocated program, the subject of the next four |
| Relocate.SuccessorsMove | bridge/relocate_patch.py:236-309 | the successors of a relocated instruction are the moved successors of the old one |
| Relocate.EdgesMove | bridge/relocate_patch.py:236-309 | control-flow edges out of a moved address are exactly the moved edges out of the old address |
| Relocate.RunsMove | bridge/relocate_patch.py:236-309 | every path of the old code, moved, is a path of the new code |
| Relocate.RunsComeFromOld | bridge/relocate_patch.py:236-309 | every path of the new code from a moved address is the image of a path of the old code |
| Relocate.Z1rrLayout | bridge/relocate_patch.py:127-178 | the shipped regions meet all hypotheses, the margins of a branch's reach to both ends of the address space included, and code and prelude end below $BFFF |
| Ips.Parse | bridge/bridge_core/ips.py:36-64 | the parser loop is the recursive grammar of records, with the same error at the same place |
| Ips.Apply | bridge/bridge_core/ips.py:67-75 | the buffer rewritten record by record is the overlay of the parsed records, or the parser's error |
| Ips.OverlaySemantics | bridge/bridge_core/ips.py:67-75 | byte k of the result is the last record covering k, else the ROM byte, else 0, and the length is the largest end |
| Ips.ApplyIdempotent | bridge/bridge_core/ips.py:67-75 | applying twice is applying once, for every record list |
| Ips.IsPatched | bridge/bridge_core/ips.py:78-85 | true exactly if the whole patch parses and the ROM holds every record's bytes; false at the first record that does not hold, without reading on; else the parser's error |
| Ips.PatchedIffConsistent | bridge/bridge_core/ips.py:67-85 | a patched ROM passes the check exactly if overlapping records agree |
| Ips.PatchedIsFixpoint | bridge/bridge_core/ips.py:67-85 | a ROM that passes the check is not changed by the patch |
| Ips.ApplyValidated | bridge/bridge_core/ips.py:103-125 | all divergences in order, or the patched ROM |
| Ips.ConflictsAre | bridge/bridge_core/ips.py:109-124 | accepted exactly if the manifest has every record with the bytes the ROM holds there; each complaint gives offset, expected and actual bytes |
| Ips.TruncatedOne | bridge/bridge_core/ips.py:41-64 | a record cut off at any byte is an error that names the part that is missing |
| Ips.TruncatedPatch | bridge/bridge_core/ips.py:36-64 | a patch cut off anywhere is an error, of the header up to byte 5 and of an unexpected end from there on |
| IpsBuild.DiffRuns | bridge/bridge_core/ips_build.py:22-36 | the maximal runs of differing bytes, in order; an error for a shorter result |
| IpsBuild.EncodeRecord | bridge/bridge_core/ips_build.py:39-65 | the 65535-byte chunks of a run, each encoded raw or run-length, or the first error |
| IpsBuild.EncodesIff | bridge/bridge_core/ips_build.py:41-57 | encoding succeeds exactly if no chunk is empty, starts at the terminator or lies beyond 24 bits |
| IpsBuild.ParseOneEncoded | bridge/bridge_core/ips_build.py:51-65 | the parser reads every encoded chunk back and is never misled by the terminator |
| IpsBuild.CutPatchFails | bridge/bridge_core/ips.py:36-64 | so a patch that was built and then cut off is never taken for a shorter one |
| IpsBuild.MakeIps | bridge/bridge_core/ips_build.py:68-74 | round trip: succeeds exactly if every chunk can be encoded; the parser gives back the chunks, and applying them to the original rebuilds the modified file |
| IpsBuild.ChunksOverlay | bridge/bridge_core/ips_build.py:22-74 | over any ROM the patch puts the modified byte at every difference and leaves every other byte |
| IpsBuild.ValidatedExactly | bridge/relocate_patch.py:495-499 | with the manifest derived from vanilla, exactly the ROMs agreeing with vanilla at every patch site are accepted, and they keep all other bytes |
| Relay.StepKeeps | relay/relay/server.py:247-595 | every arrival, task end, handler and timer keeps the relay invariant |
| Relay.TtlCloses | relay/relay/server.py:576-584 | an armed TTL belongs to a waiting session in the table and takes exactly that one out |
| Relay.GraceCloses | relay/relay/server.py:587-595 | an armed grace timer belongs to a half-broken session in the table and takes exactly that one out |
| RelayRuns.EveryRun | relay/relay/server.py:268-426 | over every run: WAITING one attended peer with TTL, PAIRED two ids and no watcher or timer, HALF_BROKEN one peer with grace; never more sessions than allowed |
| RelayRuns.OneReader | relay/relay/server.py:294-426 | over every run a socket has one reading task at most, and a replaced or dropped one has none and is closed |
| RelayRuns.JoinsPair | relay/relay/server.py:278-325 | at any relay that has room, two joins under an unused valid code with different ids make a pair with both forwarders running, towards each other |
| RelayRuns.EngagedUntilGrace | relay/relay/server.py:544-595 | a pair leaves the table in a step if and only if it is half broken and its grace period ends |
| RelayRuns.PairSurvives | relay/relay/server.py:544-595 | a pair outlives every run in which its grace period does not end |
| RelayRuns.PairBreaks | relay/relay/server.py:544-565 | a pair becomes half broken exactly when the waiting handler of a current, finished peer runs |
| RelayRuns.StaleHandler | relay/relay/server.py:522-524 | a replaced peer is out for good: after any further run it has no seat, its socket is closed and unread, and when its old handler wakes up no table entry, session or other peer changes |
| RelayRuns.EveryRunRouted | relay/relay/server.py:365-442 | over every run without a paired swap, a running forwarder of a pair aims at the other current peer object |
| RelayRuns.PairConnects | relay/relay/server.py:421-442 | pairing and recovery leave both forwarders running, each towards the other |
| RelayRuns.SwapRoutedIff | relay/relay/server.py:353-356 | after a paired swap the pair is routed if and only if the partner's forwarder had ended |
| RelayRuns.EnterAttendedIff | relay/relay/server.py:395-426 | an arrival leaves a pair with two waiting handlers unless it recovers one whose survivor had gone too |
| RelayRuns.EveryRunAttended | relay/relay/server.py:395-426 | over every run that recovers no pair whose survivor is offline, each current peer of a pair has a waiting handler, and the end of its connection breaks the pair |
| RelayRuns.LoneWatched | relay/relay/server.py:541-566 | over every run a peer that is alone in its session is watched, or its end is known |
| RelayFrames.JoinedIff | relay/relay/server.py:268-435 | a step sends `joined` to a peer exactly if it is the step that seats it in a pair, or makes a pair of its session |
| RelayFrames.JoinedOnce | relay/relay/server.py:268-435 | over every run each current peer of a pair has been sent `joined` exactly once, one that waits for its first partner never, and no connection twice |
| RelayFrames.NewsIff | relay/relay/server.py:326-426 | a step sends `partner-reconnected` exactly if a newcomer takes the seat beside a peer of a pair: to this peer, with the newcomer's id, and once |
| RelayFrames.RefusedIff | relay/relay/server.py:247-276 | which arrivals get a seat; any other readable one gets exactly one abort and changes nothing, and no seated one is aborted |
| RelayFrames.RefusedBefore | relay/relay/server.py:255-266 | why an arrival that is no valid join is refused: its kind, a code of less than six characters, or no peer id |
| RelayFrames.RefusedWhy | relay/relay/server.py:270-276 | refused as full exactly at the limit under a new code, and as in use exactly under the code of a pair of two others |
| RelayFrames.ExpiryTold | relay/relay/server.py:576-595 | a code leaves the table in three ways: by TTL or grace, with its lone peer told which, or because that peer has left |
| RelayFrames.OpeningLinks | relay/relay/server.py:275-288 | the first arrival under a code puts nothing on the link, as in the handshake |
| RelayFrames.PairingLinks | relay/relay/server.py:429-435 | the arrival that makes a pair puts on the two links of the handshake exactly the frames the relay sends |
| RelayFrames.ReturningLinks | relay/relay/server.py:326-426 | and a swap or a recovery exactly what the model of rejoining puts on them |
| RelayServers.RelayServer.HandleClient | relay/relay/server.py:247-426 | every branch of a join: rejections, new session, replacement, pairing, swap, survivor, recovery, with the frames that RelayFrames is about |
| RelayServers.RelayServer.OnPeerDisconnect | relay/relay/server.py:522-573 | the disconnect of a stale, waiting, paired or surviving peer |
| RelayServers.RelayServer.TtlExpire | relay/relay/server.py:576-584 | the TTL closes the peer and the session |
| RelayServers.RelayServer.GraceExpire | relay/relay/server.py:587-595 | the grace timer closes the session |
| RelayServers.RelayServer.ForwarderStops | relay/relay/server.py:445-488 | only the end of a forwarder's own peer signals a disconnect; a failed write does not |
| Framing.DecodeSplit | bridge/bridge_core/pipe_client.py:103-132 | decoding a buffer and then more bytes is decoding them together, good frames or bad |
| Framing.DecodeRest | bridge/bridge_core/pipe_client.py:30-48 | what is kept is an undecided front, a JSON null, or the frame that failed |
| Framing.AnySegmentation | bridge/bridge_core/pipe_client.py:103-132 | any chunks of any byte stream decode as the whole stream does |
| Framing.SegmentedRoundTrip | bridge/bridge_core/pipe_client.py:23-48 | encoded frames cut anywhere give back exactly the objects, and the unfinished bytes are kept |
| Framing.HeaderDecides | bridge/bridge_core/pipe_client.py:30-41 | a header alone decides: above 4096 it fails at once, else the frame waits for exactly as many bytes |
| Framing.FramedIff | bridge/bridge_core/pipe_client.py:23-48 | a payload of up to 4096 bytes is framed, no other, and its frame is decoded whole |
| Framing.NullStalls | bridge/bridge_core/pipe_client.py:120-132 | behind a JSON null nothing is ever taken, without a failure |
| Framing.PumpBuffer | bridge/bridge_core/pipe_client.py:120-132 | the frame loop is that decoding |
| Readers.LuaHeader | pipe.lua:8-20 | the Lua header is the Python header, and each is read back |
| Readers.Reader.Tick | pipe.lua:38-88 | one object, an error or nothing, exactly as the buffer decoder sees the front of the stream, with partial reads kept; a null is dropped |
| Readers.Reader.PumpFrames | pipe.lua:215-231 | the pump gives the objects, the failure and the rest of the decoding that ends at a null and drops it |
| Readers.PumpsAgreeIff | pipe.lua:215-231 | the pump takes the objects the bridge takes and fails where it fails, and keeps the same bytes if and only if no null stops the bridge |
| Readers.Reader.PumpArrivals | pipe.lua:215-231 | pump after pump on whatever has arrived, the script takes what the bridge's decoder makes of the whole stream, unless a null stops that |
| Readers.FrameTracer.Feed | relay/relay/server.py:176-222 | the lines logged, the bytes kept and the frame count, for good, malformed and oversized frames |
| Readers.TracerFollows | relay/relay/server.py:176-222 | on streams without a bad frame or a null any segmentation is logged as the clients decode the whole |
| Readers.TraceSplitIff | relay/relay/server.py:182-192 | feeding in two pieces is feeding together if and only if no oversized frame is met before the cut, or nothing follows |
| PipeClients.PumpIsHandling | bridge/bridge_core/pipe_client.py:120-132 | a tick on bytes has the effect of their frames in order, until one ends the client |
| PipeClients.HandleAppend | bridge/bridge_core/pipe_client.py:120-132 | frames handled in two ticks have the effect of one |
| PipeClients.EstablishedServes | bridge/bridge_core/pipe_client.py:149-189 | over any frames but hellos, aborts and news of the partner an established client stays as it is, hands up exactly the data in order and answers each ping with one pong |
| PipeClients.OthersHandUpNothing | bridge/bridge_core/pipe_client.py:169-171 | a client that is not established hands up nothing until a hello comes |
| PipeClients.BothHellos | bridge/bridge_core/pipe_client.py:158-168 | over any frames a client is established only when it has said hello and got one |
| PipeClients.HellosSaid | bridge/bridge_core/pipe_client.py:87-92 | over any frames it says hello at most once for itself and once for each news of its partner |
| PipeClients.EndsOn | bridge/bridge_core/pipe_client.py:158-181 | a frame ends a client exactly if it is an abort, a second hello, or one of another version, which alone is answered |
| PipeClients.RetriesCounted | bridge/bridge_core/pipe_client.py:197-234 | lost connections in a row are counted one by one |
| PipeClients.FailedStays | bridge/bridge_core/pipe_client.py:103-105 | a failed client reads and says nothing in any later tick |
| PipeClients.ClosedIff | bridge/bridge_core/pipe_client.py:107-114 | the end of the stream ends a client exactly if the relay has answered it, a broken connection any, and a silent one none |
| PipeClients.PipeClient.HandleFrame | bridge/bridge_core/pipe_client.py:149-189 | what every kind of frame does to the state, sends and hands up; over many frames see the rows above and Rejoins.PartnerBack |
| PipeClients.PipeClient.Tick | bridge/bridge_core/pipe_client.py:103-132 | the whole effect of a tick and the bytes it keeps: nothing once failed, connection lost on an error or on the end of the stream after `joined`, else the frames |
| PipeClients.PipeClient.SendHello | bridge/bridge_core/pipe_client.py:87-92 | a hello is sent once |
| PipeClients.PipeClient.SendData | bridge/bridge_core/pipe_client.py:94-97 | data is sent only when established |
| PipeClients.PipeClient.Fail | bridge/bridge_core/pipe_client.py:197-208 | failing is final without reconnect and schedules a retry with it |
| PipeClients.PipeClient.ResetForReconnect | bridge/bridge_core/pipe_client.py:210-227 | the protocol state starts over |
| Handshakes.ActKeeps | bridge/bridge_core/pipe_client.py:149-173 | every step of clients and relay keeps: `joined`, then one hello, then data only from an established client, in order |
| Handshakes.HandshakeSafe | bridge/bridge_core/pipe_client.py:158-173 | in every interleaving no client fails, a second hello never arrives, data always meets an established client, and what was handed up is a prefix of what was sent |
| Handshakes.AllDelivered | relay/relay/server.py:429-442 | with empty links everything sent has been handed up exactly once, in order |
| Handshakes.EqualVersionsEstablish | bridge/bridge_core/pipe_client.py:153-168 | with equal versions there is a run that leaves both clients established |
| Handshakes.MismatchNeverEstablished | bridge/bridge_core/pipe_client.py:162-165 | clients of different versions are never established, in any interleaving |
| Rejoins.PartnerBack | bridge/bridge_core/pipe_client.py:182-189 | whatever its state, a client that hears of its partner's return and gets its hello is established, has said one hello, asked for one resync and handed up nothing |
| Rejoins.ActKeeps | relay/relay/server.py:326-426 | every step of clients and relay, drops of any client at any time and returns to a partner that is ready included, keeps: what is on its way to each client is accepted and ends with its partner's hello |
| Rejoins.ReturnIff | relay/relay/server.py:391-422 | a return goes well if and only if the partner's last hello is off its link to the relay and it has handled every frame that calls for another |
| Rejoins.RejoinSafe | bridge/bridge_core/pipe_client.py:149-189 | over every run whose returns are to ready partners no client fails, and both are established whenever both are there and the links are empty |
| Rejoins.AcquaintedSafe | bridge/bridge_core/pipe_client.py:149-189 | the same over every run in which no paired client drops before it has its partner's hello or while its partner is away |
| Rejoins.EarlyFails | bridge/bridge_core/pipe_client.py:158-161 | after any other return every run without a drop that empties the links leaves the client that returned failed |
| CcClients.ReadsFrames | bridge/bridge_core/cc_client.py:56-63 | a reader that takes L bytes per frame takes exactly the bodies of any sequence of frames |
| CcClients.AlignedIff | bridge/bridge_core/cc_client.py:60 | the reader stands at the next frame exactly if L counts the checksum |
| CcClients.PayloadFits | bridge/bridge_core/cc_client.py:56-63 | exactly the payloads of up to 252 bytes make a frame |
| CcClients.ChecksumDetects | bridge/bridge_core/cc_client.py:57-59 | the checksum holds for the body sent and for no body that differs from it in one byte |
| StatusPairs.StripStatusPairs | bridge/bridge_core/cc_client.py:66-77 | the loop is the recursive stripping |
| StatusPairs.StripRecoversIff | bridge/bridge_core/cc_client.py:66-77 | a payload with any status pairs put in comes back if and only if every place in it that looks like a pair has one put in between |
| StatusPairs.StripRecovers | bridge/bridge_core/cc_client.py:66-77 | so a payload without such a place is recovered from any insertion of status pairs |
| StatusPairs.StripKeepsIffClean | bridge/bridge_core/cc_client.py:66-77 | and of bytes with nothing put in exactly those without such a place survive stripping |
| StatusPairs.StripCut | bridge/bridge_core/cc_client.py:66-77 | stripping what comes before a cut gives the front of the stripped stream, and the first half of a pair that the cut has torn |
| CcClients.ResponseFound | bridge/bridge_core/cc_client.py:176-188 | a complete answer with any status pairs put in yields its values if and only if each of its places that looks like a pair has one put in between; otherwise nothing |
| CcClients.ResponseGuardedIff | bridge/bridge_core/cc_client.py:66-77 | in terms of the values: their own such places, and for an address read a pair in front of values that begin with 0xA5 |
| CcClients.ResponseCleanIff | bridge/bridge_core/cc_client.py:66-77 | a response survives stripping exactly if its values do and an address read does not begin with 0xA5 |
| CcClients.ResponseReadIff | bridge/bridge_core/cc_client.py:176-188 | a complete answer with no status pair put in yields its values if and only if they hold nothing like a pair and those of an address read do not begin with 0xA5, and nothing at all otherwise |
| CcClients.ZeroActionFound | bridge/bridge_core/cc_client.py:176-188 | an answer that bears action 0 is taken for the answer to a request with any action under its id |
| CcClients.PollExactly | bridge/bridge_core/cc_client.py:172-189 | for all values, all status pairs put in and every way the answer can arrive in pieces: the values, nothing, or the values with the first half of a torn status pair in place of the last, and when each |
| CcClients.PollReadsIff | bridge/bridge_core/cc_client.py:172-189 | exactly which answers, in which pieces, give the values |
| CcClients.RightLeaves | bridge/bridge_core/cc_client.py:172-189 | what a right read leaves on the line: status pairs, behind the end of a torn pair and of the answer at most |
| CcClients.TornBeforeLast | bridge/bridge_core/cc_client.py:172-189 | for every answer without a place that looks like a pair, a pair torn in front of the last value is read as that value |
| CcClients.TornPairMisread | bridge/bridge_core/cc_client.py:172-189 | for one: values 7 and 9, read as 7 and 0 |
| CcClients.RequestReadsIff | bridge/bridge_core/cc_client.py:134-149 | one request on a line that holds what a right read has left: exactly when it is read right, and then the line is left so again |
| CcClients.ReadsMemoryIff | bridge/bridge_core/cc_client.py:134-149 | a read of any number of addresses from a quiet line gives the memory at the addresses the cart reads from its requests, in their order, if and only if for each request the places of the answer that look like a pair have one put in, it is complete in time, and it is torn in front of the last value by a pair that begins with that value or not at all |
| CcClients.AddressesFit | bridge/bridge_core/cc_client.py:104-109 | exactly 125 addresses fit into a frame |
| CcClients.RequestRead | bridge/bridge_core/cc_client.py:104-112 | a cart that reads count and 16-bit addresses, low byte first, takes from the frame exactly the addresses asked for, each in its low word, under its id |
| CcClients.RequestsAsk | bridge/bridge_core/cc_client.py:134-149 | a read asks in as many requests as there are hundreds begun, for exactly its addresses in their order |
| CcClients.RequestsRead | bridge/bridge_core/cc_client.py:134-149 | and the cart reads exactly these back from all the bytes that the read writes |
| CcClients.AnswerIs | bridge/bridge_core/cc_client.py:14-32 | the answer, to what the cart reads from the request, is the memory at the addresses asked for |
| CcClients.CCClient.SendReadAddrs | bridge/bridge_core/cc_client.py:104-112 | the frame written, which RequestRead decodes, and the answer expected |
| CcClients.CCClient.PollOnce | bridge/bridge_core/cc_client.py:173-188 | the values behind the first match in the stripped buffer, which is then cleared |
| CcClients.CCClient.PollResponse | bridge/bridge_core/cc_client.py:172-189 | the polling loop over what arrives round by round, and the bytes it leaves |
| CcClients.CCClient.ReadAddrs | bridge/bridge_core/cc_client.py:134-149 | chunk by chunk, what the polls read in the order of the addresses, or nothing if one times out; what it writes is the frames of its requests in order, all of them if it succeeds |
| SmartCaches.Halves | bridge/bridge_core/mister_smartcache.py:57-63 | two 32-bit halves packed with or and shift are taken out again |
| SmartCaches.SmartCacheEndpoint.ExpandRanges | bridge/bridge_core/mister_smartcache.py:93-100 | the 16-bit addresses of the ranges in order, or an error above 4096 |
| SmartCaches.ExpandedAt | bridge/bridge_core/mister_smartcache.py:93-97 | address i of a range stands behind those of all ranges before it, and is i behind its base in 16 bits |
| SmartCaches.SmartCacheEndpoint.SubmitReadRequest | bridge/bridge_core/mister_smartcache.py:54-64 | the device decodes exactly the request from words below 0x44008, and no other word changes |
| SmartCaches.CachedByteStored | bridge/bridge_core/mister_smartcache.py:87-90 | byte i of the filled cache is the value of address i |
| SmartCaches.SnapshotStored | bridge/bridge_core/mister_smartcache.py:85-91 | the snapshot maps every address to its own value, repeated addresses included |
| SmartCaches.SmartCacheEndpoint.ReadValues | bridge/bridge_core/mister_smartcache.py:85-91 | the loop builds that snapshot |
| SmartCaches.SmartCacheEndpoint.PollResponse | bridge/bridge_core/mister_smartcache.py:72-77 | an answer is taken exactly if it bears the id of the request |

## Left out

- Replicas.BitConverges: excludes runs in which a written update carries a bit into the cache that the partner neither has nor will get; there the code can diverge, see Replicas.AbsorbedBitDiverges, and which of these runs meet again later is not stated.
- Replicas.HighConverges: states one address at a time and starts from equal caches; heart containers and what happens across dropped connections are not claimed, the first are last-writer-wins and a rejoining client does not resync itself; that two new bridges start so is Polling.NewBridgesStart.
- Conservation.CountersAgree: excludes endpoints that fail to read or write, because such an update is lost for good in the source as well.
- PathIndependence.PathIndependent: excludes gated streams that clear a synced bit; for those PathIndependence.PathIndependentIff is exact.
- Quiescence.RunSettles: counts sleeping updates too, so channels weigh 3 and addresses 4; a tick that echoes is excluded, see Quiescence.SilentIff.
- RelayRuns.EveryRunRouted: excludes the swap of a paired socket, see RelayRuns.SwapRoutedIff.
- Handshakes.HandshakeSafe: has no dropped connections and no `partner-reconnected`; those are in Rejoins.RejoinSafe, which says nothing of data. A heartbeat timeout is a dropped connection.
- Rejoins.RejoinSafe: a frame on the way to a client that has dropped is thrown away, as by a watcher or a closed socket; the bytes that the forwarder of a swapped socket still sends to the old one are not modelled, see RelayRuns.SwapRoutedIff, nor are frames that a client has read in the tick in which it fails.
- CcClients.ReadsMemoryIff: assumes a quiet line at the start; what a read that timed out or came out wrong leaves behind for the next one is in CcClients.CCClient.ReadAddrs only.
- RelayServers.RelayServer.TtlExpire: takes the disconnect of the peer it closes as part of the same step; interleavings at single awaits, such as those of server.py:563-564, are not modelled.
- SmartCaches.SmartCacheEndpoint.SubmitReadRequest: memory is 64-bit words at their offsets; their bytes in the mapped file are not modelled.
- The documentation of the patch builder says that a run at the terminator offset is shifted by one byte; the code raises an error, and so does the model.
- The modding guide says `cond` sees the merged value; the code gives it the masked one, and so does the model.
- The Lua driver compares `high` values under a different mask than the bridge; the model is the bridge's.
- Messages to the user, names of records, logging, redaction of payloads and the frame summaries of the relay.
- Real sockets, serial ports, memory mappings and timers: a read, a write, a probe and a clock value are inputs of a step.
- The text of JSON: frames are objects with an encoding and a decoding; a payload that is JSON but neither an object nor null, on which the source raises, is not distinguished from a malformed one.
- Heartbeat timing, the back-off schedule and the moment of a retry: only that a retry is scheduled, and that a success resets the count.
- Execution of 6502 instructions and bank switching: decoded instructions and their successors only; computed jumps have none.
- The assembly of the final ROM around the packed block: hooks, vectors, title bytes and copied records.
- The USB header around a serial frame, and the frames for array reads and writes.
- User interfaces, settings, build scripts, deployment, and the hardware experiments that repeat code of the core.
