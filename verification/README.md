# Verified models of the emulator core

Dafny models of the stateful algorithms in the C++ core of this 3DS emulator, with proofs of the properties the
code and its comments promise. Each component is one or more modules: specification functions and transition
systems on values, classes and methods that update fields and arrays in place like the source and are proved
equal to the specification, and lemmas about whole runs.

| part | modules |
|---|---|
| Event scheduler: binary heap, inbox, slices, dispatch loop with callbacks that schedule more | `EventHeap`, `DispatchSpec`, `CoreTiming` |
| Multiplayer room: server handlers, client, and their network of FIFO channels | `RoomMessages`, `RoomSpec`, `RoomEffects`, `RoomServer`, `RoomClient`, `RoomProtocol` |
| Queues shared between threads, as machines of single memory steps, and the thread pool | `SpscQueue`, `RingBuffer`, `ThreadWorker` |
| Guest memory: page tables, rasterizer cache marker, block operations | `MemoryMap`, `RegionMarking`, `MemorySystem`, `GuestAccess`, `BlockAccess` |
| Audio: streaming resampler and ADPCM decoder | `Resampler`, `Adpcm` |
| Serializers: parameter packages, packets, room messages, the disk cache | `StringUtil`, `ParamPackage`, `Packet`, `RoomCodec`, `RoomWire`, `LinearDiskCache` |
| Containers: thread queues by priority, slot vector | `ThreadQueueList`, `SlotVector` |
| GPU front end: vertex cache, geometry buffering, primitive assembly | `DrawLoop`, `GeometryPipeline`, `PrimitiveAssembly` |
| Input movies: record, replay, savestates | `Movie` |
| Types and small arithmetic used by several of these | `Common`, `Bytes` |

`dafny verify dfyconfig.toml` checks everything.

## Where the code does not do what one would expect

Each of these has a lemma with the exact condition for all inputs, a lemma at inputs for which it fails, or both.

- A callback that reschedules its own event with delay zero keeps `Timer::Advance` in its loop for ever
  (`DispatchSpec.ZeroDelayNeverEnds`); strictly later rescheduling is enough (`DispatchSpec.LoopEnds`).
- A negative delay can put an event before the end of the running slice (`CoreTiming.DeadlineAfterScheduling`,
  `CoreTiming.NegativeDelayBreaksDeadline`).
- `UnscheduleEvent` and `RemoveEvent` do not look into the inbox of a timer, as a comment in the source admits
  (`CoreTiming.CancelIsCompleteIff`): a cancelled event can still fire in the next `Advance`
  (`CoreTiming.CancelledInboxEventFires`, `CoreTiming.RemovedEventFires`).
- A chat text with a zero byte reaches the other members cut off there (`RoomCodec.ServerRoundTrip`,
  `RoomCodec.ZeroCutsChat`), and an empty C string leaves a buffer that is not empty as it is
  (`Packet.CStringReadsBackIff`, `Packet.EmptyCStringIsNotRead`).
- `RasterizerMarkRegionCached` reaches `UNREACHABLE` when a page that some table maps is already in the state asked
  for or special (`MemoryMap.MarkRegionSucceedsIff`, `MemoryMap.MarkingCachedPageFails`), and moves a guest's bytes
  when a linear region is not mapped one to one (`GuestAccess.MarkingMovesNothingIff`,
  `GuestAccess.MarkingCanMoveBytes`).
- Block operations do not see the Luma3DS window that single reads and writes go through
  (`GuestAccess.AccessFollowsTableIff`, `GuestAccess.BlocksMissTheWindow`).
- A read of several bytes that crosses a page does not look at the next page (`GuestAccess.WideReadIff`,
  `GuestAccess.CrossingReadDiffers`).
- `ReplaceAll` never returns for an empty pattern and a replacement that is not empty (`StringUtil.ReturnsIff`,
  `StringUtil.EmptyIsFoundForEver`).
- `ParamPackage` loses the entries with an empty value on a round trip (`ParamPackage.RoundTripExactIff`,
  `ParamPackage.EmptyValueIsLost`).
- `pop_first_better` dereferences null when nothing better waits and no level from the given one on has been
  prepared (`ThreadQueueList.PopFirstBetterSafeIff`, `ThreadQueueList.NullIsReached`).
- The wraparound of the ring buffer's indices is harmless only because the capacity divides 2^64
  (`RingBuffer.WrapNeedsDivisibility`, `RingBuffer.ThreeSlotsJump`), and `Size` can wrap around when it is called by
  neither side (`RingBuffer.SizeByThirdCanWrap`).
- The filter sum of the ADPCM decoder can exceed 32 bits (`Adpcm.NeverOverflowsIff`, `Adpcm.FilterCanOverflow`).
- A variable primitive of zero vertices is only complete after 2^32 of them
  (`GeometryPipeline.VariableInvocation`), and nothing checks that a primitive fits the uniform registers
  (`GeometryPipeline.FixedFitsIff`, `GeometryPipeline.VariableFitsIff`, `GeometryPipeline.SixthVertexOverruns`, and for
  whole draws `DrawLoop.DrawFitsIff`, `DrawLoop.AnnouncedPrimitiveOverruns`).
- A movie file with fewer bytes behind its header than one record is accepted and fails the assertion at the
  first input (`Movie.AssertHoldsIff`, `Movie.OneByteMovieFails`). A savestate made during playback can never be
  loaded read-only while that movie plays (`Movie.PlaybackStateRejected`), but a rejected load has moved the position all the same: it rewinds
  (`Movie.RejectedPlaybackRewinds`), or breaks the playback when the position leaves no room for a record
  (`Movie.RejectedLoadGoesOnIff`, `Movie.RejectedLoadBreaksPlayback`).
- `WaitForRequests` can return with tasks left in the queue when the workers have been stopped
  (`ThreadWorker.WaitCanLeaveTasks`), and does when there are none (`ThreadWorker.NobodyToWaitFor`).

## Model

| member | source | states |
|---|---|---|
| `EventHeap.FrontIsEarliest` | emuThreeDS/citra_core/core/core_timing.cpp:14-20 | In a heap the front has the smallest time of all events, and among those the smallest insertion number. |
| `EventHeap.PushHeap` | emuThreeDS/citra_core/core/core_timing.cpp:70-72 | Pushing keeps the heap order and adds exactly the new event to the contents. |
| `EventHeap.SiftDown` | emuThreeDS/citra_core/core/core_timing.cpp:105-108 | Restores the heap order below a position whose children's subtrees are heaps, as a permutation that leaves everything before it alone. |
| `EventHeap.PopHeap` | emuThreeDS/citra_core/core/core_timing.cpp:213-215 | The earliest event ends up last, the rest is a heap, and the contents are the same as before. |
| `EventHeap.MakeHeap` | emuThreeDS/citra_core/core/core_timing.cpp:88-92 | Rebuilding after a removal gives a heap with the same contents. |
| `DispatchSpec.PassesAccounted` | emuThreeDS/citra_core/core/core_timing.cpp:201-224 | Conservation: after any number of passes, whatever the callbacks schedule or remove, every event is in exactly one of fired, pending and removed, fired at most once, and was due when it fired. |
| `DispatchSpec.FiresInOrder` | emuThreeDS/citra_core/core/core_timing.cpp:212-221 | With non-negative delays, the events fire in strictly increasing order of time and insertion number, and all fired events precede all that are still queued. |
| `DispatchSpec.FiresExactlyTheDueOnes` | emuThreeDS/citra_core/core/core_timing.cpp:212-221 | When the loop ends, the fired events are exactly the due ones among those queued before it and scheduled during it, less those removed; what is left is strictly in the future. |
| `DispatchSpec.PassMakesProgress` | emuThreeDS/citra_core/core/core_timing.cpp:212-221 | Each pass lowers a measure of the backlog if callbacks reschedule strictly later than the event they handle. |
| `DispatchSpec.LoopEnds` | emuThreeDS/citra_core/core/core_timing.cpp:212-221 | Under that condition the loop reaches its exit after finitely many passes, which is all `Advance` asks for. |
| `DispatchSpec.ZeroDelayNeverEnds` | emuThreeDS/citra_core/core/core_timing.cpp:212-221 | A delay of zero is not enough: an event that reschedules itself with delay zero keeps the loop running after any number of passes. |
| `DispatchSpec.OutcomeUnique` | emuThreeDS/citra_core/core/core_timing.cpp:212-221 | Two finished runs of the loop from the same state have the same outcome. |
| `CoreTiming.AdvanceLeavesFuture` | emuThreeDS/citra_core/core/core_timing.cpp:192-224 | After `Advance` time has moved on by the cycles executed, every queued event is strictly later, so the assertion in `GetMaxSliceLength` holds, and the queue is consistently numbered. |
| `CoreTiming.AdvanceFiresTheDueInOrder` | emuThreeDS/citra_core/core/core_timing.cpp:168-224 | `Advance` fires, by time and then by insertion number, exactly the due events among the queue, the drained inbox and what its callbacks schedule. |
| `CoreTiming.ActKeepsDeadline` | emuThreeDS/citra_core/core/core_timing.cpp:64-72 | Every operation of a slice keeps the deadline: the end of the slice does not lie beyond any queued event. |
| `CoreTiming.SliceNeverPassesAnEvent` | emuThreeDS/citra_core/core/core_timing.cpp:144-241 | The deadline holds in every state of every run from the first `Advance` on. |
| `CoreTiming.LatenessBound` | emuThreeDS/citra_core/core/core_timing.cpp:201-224 | An event of the own queue fires late by no more than the amount by which `downcount` went below zero. |
| `CoreTiming.TrimKeepsTime` | emuThreeDS/citra_core/core/core_timing.cpp:160-166 | `ForceExceptionCheck` leaves the tick count unchanged, moves the end of the slice to the given number of cycles away if it was further, and changes nothing else. |
| `CoreTiming.ActMovesTime` | emuThreeDS/citra_core/core/core_timing.cpp:144-241 | What each operation adds to the tick count, outside `Advance` and in it: scaled ticks, the rest of the slice when idle, nothing for scheduling, cancelling and trimming. |
| `CoreTiming.TimeAlongRun` | emuThreeDS/citra_core/core/core_timing.cpp:144-241 | Over any run of operations between two `Advance`s the tick count is the one at its start plus everything added, and never goes back. |
| `CoreTiming.InboxKeepsOrder` | emuThreeDS/citra_core/core/core_timing.cpp:168-174 | Draining numbers any two inbox events in their order of arrival, and behind all events of the queue. |
| `CoreTiming.SliceIsLongest` | emuThreeDS/citra_core/core/core_timing.cpp:226-236 | The next slice ends at the next event or after its maximum length, whichever comes first. |
| `CoreTiming.DeadlineAfterScheduling` | emuThreeDS/citra_core/core/core_timing.cpp:49-72 | For any delay: the deadline holds after scheduling if and only if the delay is not negative, or at least not below the downcount. |
| `CoreTiming.NegativeDelayBreaksDeadline` | emuThreeDS/citra_core/core/core_timing.cpp:49-72 | A concrete case: one cycle back at the start of a slice of ten. |
| `CoreTiming.DeadlineAfterDraining` | emuThreeDS/citra_core/core/core_timing.cpp:168-174 | Draining the inbox in mid-slice keeps the deadline if and only if no inbox event lies before the end of the slice. |
| `CoreTiming.CancelIsCompleteIff` | emuThreeDS/citra_core/core/core_timing.cpp:79-112 | After `UnscheduleEvent` or `RemoveEvent` nothing that matches is left to come if and only if nothing that matches waits in the inbox. |
| `CoreTiming.DueFires` | emuThreeDS/citra_core/core/core_timing.cpp:168-224 | Every due event that queue and inbox hold when `Advance` begins fires, unless a callback cancels it. |
| `CoreTiming.CancelledInboxEventFires` | emuThreeDS/citra_core/core/core_timing.cpp:79-112 | A cancelled event that waits in the inbox and is due fires in the next `Advance`, unless a callback cancels it there. |
| `CoreTiming.RemovedEventFires` | emuThreeDS/citra_core/core/core_timing.cpp:79-112 | A concrete run: an event posted from another core and then removed fires. |
| `CoreTiming.RemoveIf` | emuThreeDS/citra_core/core/core_timing.cpp:84-90 | `remove_if` and `erase`: what satisfies the predicate is gone, the rest keeps its order. |
| `CoreTiming.Timer.GetTicks` | emuThreeDS/citra_core/core/core_timing.cpp:144-150 | The executed ticks, plus the part of the slice already run when not inside `Advance`. |
| `CoreTiming.Timer.AddTicks` | emuThreeDS/citra_core/core/core_timing.cpp:152-154 | Outside `Advance` the tick count grows by the ticks times the clock scale, rounded down, while slice, executed ticks, idle cycles, queue and inbox stay. |
| `CoreTiming.Timer.SetClockPercentage` | emuThreeDS/citra_core/core/core_timing.cpp:31-35 | At p percent of the clock, n ticks count as floor(100 n / p) from then on. |
| `CoreTiming.Timer.Idle` | emuThreeDS/citra_core/core/core_timing.cpp:238-241 | The tick count becomes that at the end of the slice; the rest of the downcount is credited as idle cycles, modulo 2^64. |
| `CoreTiming.Timer.ForceExceptionCheck` | emuThreeDS/citra_core/core/core_timing.cpp:160-166 | The new state is the trimmed one of the specification. |
| `CoreTiming.Timer.Enqueue` | emuThreeDS/citra_core/core/core_timing.cpp:70-72 | The event joins the heap with the next insertion number. |
| `CoreTiming.Timer.ScheduleHere` | emuThreeDS/citra_core/core/core_timing.cpp:64-72 | Scheduling on the current timer queues one event at the timer's tick count plus the delay, with the next insertion number, and trims the slice to the delay unless inside `Advance`. |
| `CoreTiming.Timer.ScheduleFromElsewhere` | emuThreeDS/citra_core/core/core_timing.cpp:73-76 | For every delay, scheduling from another core appends one event at this timer's tick count plus the delay to its inbox, and touches nothing else. |
| `CoreTiming.Timer.CancelEvents` | emuThreeDS/citra_core/core/core_timing.cpp:83-93 | The queue keeps exactly the events that the request does not name, and the inbox stays as it is. |
| `CoreTiming.Timer.MoveEvents` | emuThreeDS/citra_core/core/core_timing.cpp:168-174 | All inbox events move to the queue, numbered in their order. |
| `CoreTiming.Timer.PopFront` | emuThreeDS/citra_core/core/core_timing.cpp:213-215 | Takes the earliest event out of the queue. |
| `CoreTiming.Timer.DispatchOne` | emuThreeDS/citra_core/core/core_timing.cpp:213-220 | One round of the loop: the earliest event leaves the queue, then its callback is called with how late it is and carries out its requests. |
| `CoreTiming.Timer.DispatchLoop` | emuThreeDS/citra_core/core/core_timing.cpp:212-221 | Whenever the loop ends for these callbacks, it is a finished run of the dispatch specification. |
| `CoreTiming.Timer.Advance` | emuThreeDS/citra_core/core/core_timing.cpp:201-224 | Executed ticks grow by the cycles run, slice, downcount and idle cycles start from zero and the inbox is empty; whenever its loop ends the timer is the outcome of a finished dispatch from the drained queue at the new time. |
| `CoreTiming.Timer.SetNextSlice` | emuThreeDS/citra_core/core/core_timing.cpp:226-236 | The slice is the shorter of its maximum and the time to the next event, narrowed to 32 bits as the source does. |
| `CoreTiming.Timer.GetMaxSliceLength` | emuThreeDS/citra_core/core/core_timing.cpp:192-199 | The time to the next event, or the maximum when there is none; its assertion is the precondition. |
| `CoreTiming.Timing.ScheduleEvent` | emuThreeDS/citra_core/core/core_timing.cpp:49-77 | Only the addressed timer changes: queue and slice if it is the current one, inbox otherwise, nothing when the queue is locked. |
| `CoreTiming.Timing.CancelEverywhere` | emuThreeDS/citra_core/core/core_timing.cpp:79-112 | Removal goes through the queues of all timers and through no inbox. |
| `RoomSpec.RoomStaysOk` | emuThreeDS/citra_core/network/room.cpp:303-592 | In every run of joins, kicks, bans, unbans and disconnects: nicknames, MAC addresses and console hashes are pairwise distinct, the slots are never exceeded, nobody holds the broadcast address, every nickname is well-formed. |
| `RoomSpec.ReactKeepsOk` | emuThreeDS/citra_core/network/room.cpp:251-297 | Each event handler keeps these invariants. |
| `RoomSpec.OnlyUnbannedJoin` | emuThreeDS/citra_core/network/room.cpp:303-415 | Whoever is a member after an event and was not before has sent a join request with the right password, got the MAC address asked for or drawn, and is banned neither by user name nor by address. |
| `RoomSpec.AcceptedIff` | emuThreeDS/citra_core/network/room.cpp:303-388 | A join request is accepted if and only if all the listed conditions hold, whatever their order. |
| `RoomSpec.NonJoinKeepsPeers` | emuThreeDS/citra_core/network/room.cpp:418-592 | No other event adds a peer. |
| `RoomEffects.PermittedIff` | emuThreeDS/citra_core/network/room.cpp:594-613 | The permission check holds exactly if the first member behind the peer is the host by a non-empty user name, or a moderator while moderators are enabled. |
| `RoomEffects.NicknameForm` | emuThreeDS/citra_core/network/room.cpp:567-577 | The pattern: four to twenty spaces, periods, hyphens, underscores, digits and letters. |
| `RoomEffects.DrawnForm` | emuThreeDS/citra_core/network/room.cpp:837-847 | A drawn address begins with 00 1F 32 and is held by no member, and any such address can be drawn. |
| `RoomEffects.JoinEffect` | emuThreeDS/citra_core/network/room.cpp:303-415 | An accepted request adds one member, last, with what the request and the backend say of it; members and ban lists stay. |
| `RoomEffects.JoinIsAnnounced` | emuThreeDS/citra_core/network/room.cpp:388-415 | The newcomer receives the roster with itself in it and then its address and rank, nothing else; the members are told of it, and every other connection receives the roster, entry by entry. |
| `RoomEffects.RefusalNamesTheFirstFailure` | emuThreeDS/citra_core/network/room.cpp:303-388 | A refused request changes nothing, and the answer names the first of the checks that fails, in the order of the source. |
| `RoomEffects.UnpermittedChangesNothing` | emuThreeDS/citra_core/network/room.cpp:418-565 | Kick, ban, unban and ban list requests of anyone else change nothing and are answered with a denial. |
| `RoomEffects.BanEffect` | emuThreeDS/citra_core/network/room.cpp:460-519 | A permitted ban: the member's address is on the list once, her user name too unless it is empty, all older entries stay and nothing else enters; she alone has gone. |
| `RoomEffects.KickEffect` | emuThreeDS/citra_core/network/room.cpp:418-458 | A permitted kick: she alone has gone, and both ban lists are as before. |
| `RoomEffects.ExpulsionIsAnnounced` | emuThreeDS/citra_core/network/room.cpp:418-519 | She receives the notice and loses her connection, she alone; the members that stay are told, and every connection that stays receives the new roster. |
| `RoomEffects.UnknownUserIsReported` | emuThreeDS/citra_core/network/room.cpp:418-519 | For a nickname nobody has nothing changes and the sender is told. |
| `RoomEffects.UnbanEffect` | emuThreeDS/citra_core/network/room.cpp:521-556 | A permitted unban takes the first entry of that name from each list and nothing else, and tells the members once, or the sender if there was none. |
| `RoomEffects.BanListIsSent` | emuThreeDS/citra_core/network/room.cpp:558-565 | A moderator receives both lists, user names first, and nothing changes. |
| `RoomEffects.BannedDoNotReturn` | emuThreeDS/citra_core/network/room.cpp:303-556 | Over runs: from a moderator's ban of a member until a moderator lifts it, every join request from her address is turned down and changes nothing, and so is, unless her user name is empty, every request of that user. |
| `RoomEffects.EntryStaysAlong` | emuThreeDS/citra_core/network/room.cpp:303-556 | Over runs: a listed user name or address stays listed until a moderator unbans it. |
| `RoomEffects.OthersKeepTheLists` | emuThreeDS/citra_core/network/room.cpp:251-297 | No event but a permitted ban or unban changes a ban list. |
| `RoomEffects.ChatReachesTheOthers` | emuThreeDS/citra_core/network/room.cpp:897-945 | A member's text, cut to 500 bytes and under its names, is received by every other member once and by nobody else; a stranger's by nobody; the room stays. |
| `RoomEffects.GameIsAnnounced` | emuThreeDS/citra_core/network/room.cpp:947-978 | The game of the first member behind the sender changes, nothing else does, and every connection receives the new roster. |
| `RoomEffects.LeaveEffect` | emuThreeDS/citra_core/network/room.cpp:980-1010 | A lost connection takes the first member behind it away, if there is one, and nothing else. |
| `RoomEffects.LeavingIsAnnounced` | emuThreeDS/citra_core/network/room.cpp:980-1010 | The members that stay are told, every other connection receives the new roster, and the lost one receives nothing. |
| `RoomEffects.StrangerLeaves` | emuThreeDS/citra_core/network/room.cpp:980-1010 | When no member was behind it the room stays, and every other connection receives the roster. |
| `RoomSpec.BroadcastReachesTheOthers` | emuThreeDS/citra_core/network/room.cpp:849-895 | A broadcast frame reaches every member but its sender exactly once, and nobody else. |
| `RoomSpec.UnicastReachesTheHolder` | emuThreeDS/citra_core/network/room.cpp:849-895 | A frame for one address reaches exactly the member that holds it, and nobody if there is none. |
| `RoomServer.RoomImpl.NicknameIsValid` | emuThreeDS/citra_core/network/room.cpp:567-577 | True exactly for a well-formed nickname nobody has. |
| `RoomServer.RoomImpl.MacIsValid` | emuThreeDS/citra_core/network/room.cpp:579-584 | True exactly for an address nobody has. |
| `RoomServer.RoomImpl.ConsoleIdIsValid` | emuThreeDS/citra_core/network/room.cpp:586-592 | True exactly for a console hash nobody has. |
| `RoomServer.RoomImpl.MayModerate` | emuThreeDS/citra_core/network/room.cpp:594-613 | The member must exist, and be a moderator where moderators are enabled, or be the host by user name. |
| `RoomServer.RoomImpl.GenerateMacAddress` | emuThreeDS/citra_core/network/room.cpp:837-847 | An address with the vendor prefix that no member holds; the loop ends because some draw is free. |
| `RoomServer.RoomImpl.SendStatusMessage` | emuThreeDS/citra_core/network/room.cpp:768-805 | One message to every member, in member order. |
| `RoomServer.RoomImpl.SendToOthers` | emuThreeDS/citra_core/network/room.cpp:864-872 | One message to every member but the sender. |
| `RoomServer.RoomImpl.BroadcastRoomInformation` | emuThreeDS/citra_core/network/room.cpp:807-835 | One broadcast with an entry for every member in order. |
| `RoomServer.RoomImpl.HandleJoinRequest` | emuThreeDS/citra_core/network/room.cpp:303-415 | New state and messages are those of the join specification. |
| `RoomServer.RoomImpl.HandleExpel` | emuThreeDS/citra_core/network/room.cpp:418-519 | Kicking and banning: new state and messages are those of the specification, the ban lists included. |
| `RoomServer.RoomImpl.HandleModUnban` | emuThreeDS/citra_core/network/room.cpp:521-556 | The entry leaves both ban lists; the reply tells whether there was one. |
| `RoomServer.RoomImpl.HandleModGetBanList` | emuThreeDS/citra_core/network/room.cpp:558-565 | The ban lists go to moderators only. |
| `RoomServer.RoomImpl.HandleWifiPacket` | emuThreeDS/citra_core/network/room.cpp:849-895 | Broadcast to the others, or to the first holder of the address. |
| `RoomServer.RoomImpl.HandleChatPacket` | emuThreeDS/citra_core/network/room.cpp:897-945 | A member's message, cut to the maximal size, goes to the others; a stranger's goes nowhere. |
| `RoomServer.RoomImpl.HandleGameNamePacket` | emuThreeDS/citra_core/network/room.cpp:947-978 | Only the sender's game changes, and everybody is told. |
| `RoomServer.RoomImpl.HandleClientDisconnection` | emuThreeDS/citra_core/network/room.cpp:980-1022 | The member leaves and everybody is told; a peer that is no member changes no state. |
| `RoomProtocol.OthersAreQuiet` | emuThreeDS/citra_core/network/room.cpp:251-297 | No handler other than an accepted join request sends a success message. |
| `RoomProtocol.HandleBehaves` | emuThreeDS/citra_core/network/room.cpp:251-297 | Every handler sends each member only success messages that are preceded, in the same batch, by a member list naming that member with that address; no remaining member is disconnected. |
| `RoomProtocol.StepKeepsInv` | emuThreeDS/citra_core/network/room.cpp:303-415 | Every step of server, clients and channels keeps the protocol invariant. |
| `RoomProtocol.MembersAreConnectedOnce` | emuThreeDS/citra_core/network/room.cpp:303-415 | In every reachable state the members are distinct connected peers. |
| `RoomProtocol.JoinAgreement` | emuThreeDS/citra_core/network/room_member.cpp:179-191 | In every reachable state of server, clients and FIFO channels: when a success message is next for a client, its member list is not empty, and lists it exactly once, with the MAC address of that message. |
| `RoomClient.RoomMemberImpl.HandleRoomInformation` | emuThreeDS/citra_core/network/room_member.cpp:296-338 | The member list is replaced and the own user name taken from the last entry with the own nickname. |
| `RoomClient.RoomMemberImpl.HandleMessage` | emuThreeDS/citra_core/network/room_member.cpp:158-239 | Each received message moves the client to the state of the specification; the assertion on joining is the precondition. |
| `RoomClient.RoomMemberImpl.HandleDisconnect` | emuThreeDS/citra_core/network/room_member.cpp:240-245 | A disconnect ends the membership, and is ignored while still joining. |
| `RoomClient.MessageEffect` | emuThreeDS/citra_core/network/room_member.cpp:158-239 | For every message: whether it ends the session, what is reported of it, and what becomes of state, address, member list and user name. |
| `RoomClient.UsernameIsTheLastEntrys` | emuThreeDS/citra_core/network/room_member.cpp:296-338 | The own user name is that of the last entry with the own nickname, and stays if there is none. |
| `RoomClient.DisconnectEffect` | emuThreeDS/citra_core/network/room_member.cpp:240-245 | A lost connection ends a session that was joined, forgets the members and reports it; while joining it changes nothing. |
| `SpscQueue.StepKeepsInv` | emuThreeDS/citra_core/common/threadsafe_queue.h:41-84 | Every single memory step of producer or consumer keeps the list, the pointers, the counter and the values in order. |
| `SpscQueue.PopsInOrder` | emuThreeDS/citra_core/common/threadsafe_queue.h:41-84 | In every interleaving no freed or null node is touched, the counter does not underflow, and the values popped are a prefix of those pushed. |
| `SpscQueue.SizeBelowPublished` | emuThreeDS/citra_core/common/threadsafe_queue.h:28-50 | The counter equals the number of published nodes minus the steps in flight, so it never exceeds them. |
| `SpscQueue.PopFindsNext` | emuThreeDS/citra_core/common/threadsafe_queue.h:72-84 | A `Pop` that has passed the empty test always finds a successor node. |
| `SpscQueue.QuiescentSize` | emuThreeDS/citra_core/common/threadsafe_queue.h:41-84 | With both sides at rest the counter is exactly the number of values pushed and not yet popped. |
| `SpscQueue.EachProducerInOrder` | emuThreeDS/citra_core/common/threadsafe_queue.h:131-157 | With several producers under the lock, each producer's values come out in its own order. |
| `RingBuffer.WrappedSlot` | emuThreeDS/citra_core/common/ring_buffer.h:41-85 | An index that wraps at 2^64 selects the same slot as the unbounded count when the capacity is a power of two. |
| `RingBuffer.WrapNeedsDivisibility` | emuThreeDS/citra_core/common/ring_buffer.h:32-32 | It does so for all counts if and only if the capacity divides 2^64. |
| `RingBuffer.ThreeSlotsJump` | emuThreeDS/citra_core/common/ring_buffer.h:32-32 | A concrete case: three slots. |
| `RingBuffer.NearSlotsDiffer` | emuThreeDS/citra_core/common/ring_buffer.h:41-85 | Counts less than a capacity apart select different slots. |
| `RingBuffer.TransfersDisjoint` | emuThreeDS/citra_core/common/ring_buffer.h:41-85 | While a push and a pop are both under way, no slot one writes is a slot the other reads. |
| `RingBuffer.StepKeepsInv` | emuThreeDS/citra_core/common/ring_buffer.h:41-85 | Every step keeps the difference of the indices within the capacity and the stored values in their slots. |
| `RingBuffer.RefinesBoundedFifo` | emuThreeDS/citra_core/common/ring_buffer.h:41-97 | In every interleaving and over any number of wraps the output is a prefix of the accepted input, and no more than the capacity is outstanding. |
| `RingBuffer.Buffer.Push` | emuThreeDS/citra_core/common/ring_buffer.h:41-58 | Takes as many values as there is room for, in order, and leaves what was stored. |
| `RingBuffer.Buffer.Pop` | emuThreeDS/citra_core/common/ring_buffer.h:68-85 | Hands out the oldest values, as many as asked for and there are, and keeps the others. |
| `RingBuffer.Buffer.Size` | emuThreeDS/citra_core/common/ring_buffer.h:95-97 | The number of stored values, indices wrapped or not. |
| `RingBuffer.SizeByOwnerIsExact` | emuThreeDS/citra_core/common/ring_buffer.h:95-97 | Called by the producer or by the consumer, in every interleaving and with its two loads in either order, it gives how much was stored at the load of the other side's index, never more than the capacity. |
| `RingBuffer.SizeByThirdCanWrap` | emuThreeDS/citra_core/common/ring_buffer.h:95-97 | Called by a third thread it can wrap around: a run in which it gives 2^64 - 1. |
| `MemoryMap.MapPagesAt` | emuThreeDS/citra_core/core/memory.cpp:372-397 | Entry by entry: a mapped page gets the page of the target it is due with the kind given, a memory page that the marker has as cached becomes cached and loses its pointer, other pages stay. |
| `MemoryMap.LongTargetWalk` | emuThreeDS/citra_core/core/memory.cpp:380-397 | A target at least as long as the region is walked page by page and not overrun. |
| `MemoryMap.TargetWalk` | emuThreeDS/citra_core/core/memory.cpp:380-397 | Any target is walked page by page up to its last page, whole or not, which stands for all that follow. |
| `MemoryMap.MarkTablesAt` | emuThreeDS/citra_core/core/memory.cpp:730-766 | What marking a page does to every entry of every table, and when it reaches `UNREACHABLE`. |
| `MemoryMap.MarkSucceedsIff` | emuThreeDS/citra_core/core/memory.cpp:730-766 | While marker and tables agree, marking one virtual page reaches `UNREACHABLE` if and only if some table maps it as special or already in the state asked for. |
| `MemoryMap.MarkAllSucceedsIff` | emuThreeDS/citra_core/core/memory.cpp:721-769 | Marking distinct pages one after the other gets through if and only if each could be marked by itself. |
| `MemoryMap.MarkAllKeepsAgreement` | emuThreeDS/citra_core/core/memory.cpp:721-769 | A marking that gets through keeps marker and tables in agreement, puts every page into the state asked for and leaves the others alone. |
| `MemoryMap.MarkRegionSucceedsIff` | emuThreeDS/citra_core/core/memory.cpp:721-769 | A call of `RasterizerMarkRegionCached` does not reach `UNREACHABLE` if and only if every page of the region, at each of its virtual addresses and in every registered table, is unmapped or memory in the opposite state. |
| `MemoryMap.MarkingCachedPageFails` | emuThreeDS/citra_core/core/memory.cpp:721-769 | A concrete case: marking a page as cached that a process has mapped and that is cached. |
| `MemoryMap.RegionPagesDistinct` | emuThreeDS/citra_core/core/memory.cpp:697-730 | A physical region has no two virtual addresses on the same page. |
| `RegionMarking.RegionCovers` | emuThreeDS/citra_core/core/memory.cpp:697-730 | A virtual page is marked if and only if its physical page lies between those of the first and the last byte of the region. |
| `RegionMarking.MarkRegionMarks` | emuThreeDS/citra_core/core/memory.cpp:721-769 | After a successful call every such page is in the state asked for, in the marker and with kind and pointer in every table that maps it; every other page, and every unmapped one, is as before. |
| `RegionMarking.RegionCanBeMarkedIff` | emuThreeDS/citra_core/core/memory.cpp:721-769 | A call succeeds if and only if every registered table has each of these pages unmapped or as memory in the opposite state. |
| `RegionMarking.LinearRefIsPhysical` | emuThreeDS/citra_core/core/memory.cpp:280-297 | A page that is uncached again refers to the host memory behind its physical address, whichever alias it is. |
| `MemoryMap.PerformKeepsAgreement` | emuThreeDS/citra_core/core/memory.cpp:372-435 | Mapping, unmapping, registering, unregistering and marking all succeed and keep the agreement. |
| `MemoryMap.RunKeepsAgreement` | emuThreeDS/citra_core/core/memory.cpp:372-769 | After any sequence of these: in every registered table a memory page is of the cached kind iff the marker says so, and a pointer is non-null iff the kind is `Memory`. |
| `MemoryMap.LinearTargetIsOneToOne` | emuThreeDS/citra_core/core/memory.cpp:372-397 | Mapping a linear region to the memory behind it is one to one. |
| `MemorySystem.PageTable.Set` | emuThreeDS/citra_core/core/memory.cpp:384-391 | One entry of the two arrays changes. |
| `MemorySystem.RasterizerCacheMarker.Mark` | emuThreeDS/citra_core/core/memory.cpp:44-48 | The flag of the page changes and no other; addresses outside the cacheable regions change nothing. |
| `MemorySystem.RasterizerCacheMarker.IsCached` | emuThreeDS/citra_core/core/memory.cpp:50-55 | Reads that flag. |
| `MemorySystem.MemorySystemImpl.MapPages` | emuThreeDS/citra_core/core/memory.cpp:372-397 | The table becomes the mapped one of the specification; marker and other tables stay. |
| `MemorySystem.MemorySystemImpl.MarkVirtualPage` | emuThreeDS/citra_core/core/memory.cpp:730-766 | Marker and all registered tables become those of the specification. |
| `MemorySystem.MemorySystemImpl.RasterizerMarkRegionCached` | emuThreeDS/citra_core/core/memory.cpp:721-769 | For every region that can be marked: exactly the virtual pages whose physical page the region reaches into change, at every alias, in the marker and in every registered table that maps them; marker and tables stay in agreement; address zero is ignored. |
| `GuestAccess.MarkingMovesNothingIff` | emuThreeDS/citra_core/core/memory.cpp:280-297 | Marking a page cached or uncached leaves each of its bytes where it was if and only if the page is mapped one to one. |
| `GuestAccess.MarkingCanMoveBytes` | emuThreeDS/citra_core/core/memory.cpp:280-297 | A concrete case: the first page of the linear heap mapped to the second page of its memory. |
| `GuestAccess.MarkingIsTransparent` | emuThreeDS/citra_core/core/memory.cpp:721-769 | However the rasterizer marks pages, a guest that maps the cacheable regions one to one finds every byte where it was. |
| `GuestAccess.RunKeepsUsable` | emuThreeDS/citra_core/core/memory.cpp:372-435 | In every run mapped pages stay backed by a whole page and cached ones by the linear region. |
| `GuestAccess.AccessFollowsTableIff` | emuThreeDS/citra_core/core/memory.cpp:441-489 | A single read or write reaches what the page table says, as block operations do, if and only if the page is memory or the address lies outside the Luma3DS window. |
| `GuestAccess.BlocksMissTheWindow` | emuThreeDS/citra_core/core/memory.cpp:450-463 | A concrete case: with nothing mapped, a single access finds FCRAM where block operations find nothing. |
| `GuestAccess.Read8IsReadByte` | emuThreeDS/citra_core/core/memory.cpp:441-489 | There the fast path through the pointer and the slow path by kind read the byte of the block operations. |
| `GuestAccess.MeaningByKind` | emuThreeDS/citra_core/core/memory.cpp:171-224 | By the kind of its page an address means nothing and reads as zero, a register, a byte behind the page's pointer, or for a cached page the byte at its physical address. |
| `GuestAccess.RegistersGetTheBytes` | emuThreeDS/citra_core/core/memory.cpp:227-278 | A block written to registers arrives there byte by byte in order, and changes no memory. |
| `GuestAccess.WideReadIff` | emuThreeDS/citra_core/core/memory.cpp:441-489 | A read of two to eight bytes gives the bytes that single reads give, whatever memory and registers hold, if and only if it stays in its page or the next page goes on where that one ends. |
| `GuestAccess.CrossingReadDiffers` | emuThreeDS/citra_core/core/memory.cpp:441-489 | A concrete case: two bytes across pages mapped in the other order. |
| `GuestAccess.WindowShowsFcram` | emuThreeDS/citra_core/core/memory.cpp:450-463 | On other pages the window shows the memory that the linear heap shows at the same physical address, cached or not. |
| `GuestAccess.WriteChunk` | emuThreeDS/citra_core/core/memory.cpp:239-271 | One page's worth of a byte-wise write is one copy to one place. |
| `GuestAccess.ReadChunk` | emuThreeDS/citra_core/core/memory.cpp:184-218 | One page's worth of a byte-wise read is one copy from one place; unmapped pages give zeros. |
| `GuestAccess.WriteBytesConcat` | emuThreeDS/citra_core/core/memory.cpp:227-278 | Writing two parts one after the other is writing both at once. |
| `GuestAccess.WriteTouchesOnlyTheRange` | emuThreeDS/citra_core/core/memory.cpp:227-278 | A block write changes no host byte its range does not translate to. |
| `GuestAccess.WriteThenRead` | emuThreeDS/citra_core/core/memory.cpp:171-278 | Reading back what was written gives the data where the range is memory and no two addresses share a byte. |
| `GuestAccess.ReadUnaffected` | emuThreeDS/citra_core/core/memory.cpp:171-224 | A read depends only on the host bytes its range translates to. |
| `BlockAccess.HostMemory.ReadBlock` | emuThreeDS/citra_core/core/memory.cpp:171-224 | For any range across any kinds of pages, the page-wise copies give the bytes of a byte-at-a-time read. |
| `BlockAccess.HostMemory.WriteBlock` | emuThreeDS/citra_core/core/memory.cpp:227-278 | The same for writing: unmapped bytes are dropped, registers get theirs in order, everything else stays. |
| `BlockAccess.HostMemory.ZeroBlock` | emuThreeDS/citra_core/core/memory.cpp:918-967 | The same for clearing. |
| `BlockAccess.HostMemory.CopyBlock` | emuThreeDS/citra_core/core/memory.cpp:974-1027 | Copying between two address spaces writes what a read of the whole source gave before, when no byte read is among those written. |
| `BlockAccess.RestUntouched` | emuThreeDS/citra_core/core/memory.cpp:974-1027 | The part of the source not yet copied still reads as it did before. |
| `BlockAccess.SourceUntouched` | emuThreeDS/citra_core/core/memory.cpp:982-1026 | Copying the next part continues the copy. |
| `Resampler.Interpolator.StepOverSamples` | emuThreeDS/citra_core/audio_core/interpolate.cpp:19-51 | For any rate, state, remaining input and output are those of the specification; earlier and later output is untouched. |
| `Resampler.Interpolator.FillOutput` | emuThreeDS/citra_core/audio_core/interpolate.cpp:32-44 | The loop makes outputs at equally spaced positions until the frame is full or the data runs out, with all indices in range. |
| `Resampler.PositionCoversConsumed` | emuThreeDS/citra_core/audio_core/interpolate.cpp:46-50 | The position never falls behind the samples given up, so the unsigned subtraction does not underflow. |
| `Resampler.PositionDoesNotWrap` | emuThreeDS/citra_core/audio_core/interpolate.cpp:29-46 | The 64-bit position does not wrap around while data and step are below 2^64 in fixed point. |
| `Resampler.NoneHoldsSamples` | emuThreeDS/citra_core/audio_core/interpolate.cpp:53-58 | `None` puts out the sample at or before each position, unchanged. |
| `Resampler.StreamingIsOnePass` | emuThreeDS/citra_core/audio_core/interpolate.cpp:19-51 | For any chunks and frames, output k is computed from the three samples of the whole stream, kept samples in front, that the upper bits of p0 + k * step choose, and from its lower 24 bits; a frame stays unfilled only when the stream has no such samples left. |
| `Resampler.ResampleOutcome` | emuThreeDS/citra_core/audio_core/interpolate.cpp:19-51 | One call, of its buffer: how many outputs it makes, which samples each comes from, which two samples and which position it keeps, and what it leaves of the input. |
| `Resampler.ChunkingDoesNotMatter` | emuThreeDS/citra_core/audio_core/interpolate.cpp:19-51 | Two ways of cutting up the same input agree as far as both go, and entirely once both are drained. |
| `Resampler.LinearIsInterpolation` | emuThreeDS/citra_core/audio_core/interpolate.cpp:60-73 | The unsigned 64-bit arithmetic with its wraparound and cast equals x0 + floor(fraction * clamp(x1 - x0) / 2^24), which lies between x0 and x1. |
| `Resampler.LinearStaysBetween` | emuThreeDS/citra_core/audio_core/interpolate.cpp:60-73 | Every sample of every run of the linear resampler, channel by channel, is the one of its stream plus the fraction of the limited rise to the next, rounded down, and lies between the two. |
| `Adpcm.Decoder.DecodeADPCM` | emuThreeDS/citra_core/audio_core/codec.cpp:16-80 | The output is the recurrence of the filter over positions: each sample follows, by the scale and coefficients of its frame's header and by its nibble, high one first, from the two before it, clamped to 16 bits; the last two are the new history, and an odd count is rounded up. |
| `Adpcm.DecodeIsTheRecurrence` | emuThreeDS/citra_core/audio_core/codec.cpp:32-77 | The same for the first n pairs of samples of any data, coefficients and history. |
| `Adpcm.Decoder.DecodeFrame` | emuThreeDS/citra_core/audio_core/codec.cpp:36-74 | One frame, or what is left of the samples. |
| `Adpcm.Decoder.DecodeSample` | emuThreeDS/citra_core/audio_core/codec.cpp:46-59 | One filtered and clamped sample; the history moves on. |
| `Adpcm.FramesChain` | emuThreeDS/citra_core/audio_core/codec.cpp:32-77 | Decoding whole frames and then the rest with the state they leave equals decoding everything at once. |
| `Adpcm.OnlyTheFirst` | emuThreeDS/citra_core/audio_core/codec.cpp:34-73 | Data behind the requested samples makes no difference. |
| `Adpcm.NeverOverflowsIff` | emuThreeDS/citra_core/audio_core/codec.cpp:32-77 | No decoding of any data from any history leaves 32 bits, at any addition, if and only if each of the eight coefficient pairs satisfies a bound. |
| `Adpcm.FilterCanOverflow` | emuThreeDS/citra_core/audio_core/codec.cpp:46-54 | There are coefficients and a history for which it does not. |
| `StringUtil.ReplaceAll` | emuThreeDS/citra_core/common/string_util.cpp:143-155 | The in-place loop replaces every occurrence, leftmost first and without overlap; an empty pattern with an empty replacement changes nothing. |
| `StringUtil.ReturnsIff` | emuThreeDS/citra_core/common/string_util.cpp:143-155 | For any text the loop ends if and only if the pattern is not empty or the replacement is. |
| `StringUtil.EmptyIsFoundForEver` | emuThreeDS/citra_core/common/string_util.cpp:149-153 | With an empty pattern, after any number of passes the loop has put as many replacements in front of the text and goes on. |
| `StringUtil.ReplaceFirst` | emuThreeDS/citra_core/common/string_util.cpp:149-153 | Replacing the first match leaves as much to do behind it as there was before. |
| `StringUtil.ReplaceReglues` | emuThreeDS/citra_core/common/string_util.cpp:143-155 | A text cut at its matches, leftmost first, comes out with the same pieces and the replacement between them. |
| `StringUtil.EveryTextIsCut` | emuThreeDS/citra_core/common/string_util.cpp:143-155 | Every text can be cut so. |
| `StringUtil.SplitString` | emuThreeDS/citra_core/common/string_util.cpp:115-125 | The pieces between delimiters; an empty piece at the very end is none. |
| `StringUtil.SplitInvertsJoin` | emuThreeDS/citra_core/common/string_util.cpp:115-125 | Splitting inverts joining, up to one empty last piece. |
| `ParamPackage.UnescapeInvertsEscape` | emuThreeDS/citra_core/common/param_package.cpp:39-63 | The three unescaping passes undo the three escaping passes, for every string. |
| `ParamPackage.PairRoundTrip` | emuThreeDS/citra_core/common/param_package.cpp:33-64 | A written pair parses back, and is lost exactly if its value is empty. |
| `ParamPackage.EscapeWrites` | emuThreeDS/citra_core/common/param_package.cpp:56-61 | Escaping writes `$2` for a dollar sign, `$1` for a comma, `$0` for a colon and every other character as it is. |
| `ParamPackage.SerializedForm` | emuThreeDS/citra_core/common/param_package.cpp:51-69 | The text is [empty], or escaped keys and values with a colon between them, joined by commas. |
| `ParamPackage.UnescapeReads` | emuThreeDS/citra_core/common/param_package.cpp:39-44 | Whatever the text, the three passes read its escapes from left to right, once. |
| `ParamPackage.ParsedLooksUp` | emuThreeDS/citra_core/common/param_package.cpp:26-47 | Whatever the text: a key has the value of the last piece that makes an entry for it, pieces that are not two parts are skipped, and a key without an entry is absent. |
| `ParamPackage.RoundTrip` | emuThreeDS/citra_core/common/param_package.cpp:26-69 | Parsing what was serialized gives the map restricted to the entries with non-empty values, in whatever order it was written. |
| `ParamPackage.RoundTripExactIff` | emuThreeDS/citra_core/common/param_package.cpp:26-69 | The round trip is exact if and only if no value is empty. |
| `ParamPackage.EmptyValueIsLost` | emuThreeDS/citra_core/common/param_package.cpp:26-69 | A concrete case: a single entry with an empty value. |
| `ParamPackage.Package.constructor` | emuThreeDS/citra_core/common/param_package.cpp:26-47 | The constructor is the parser of the specification; malformed pairs are skipped. |
| `ParamPackage.Package.Set` | emuThreeDS/citra_core/common/param_package.cpp:111-113 | One entry changes. |
| `ParamPackage.Package.Serialize` | emuThreeDS/citra_core/common/param_package.cpp:51-69 | The writer is that of the specification; an empty package writes a placeholder. |
| `Packet.HtonllBytes` | emuThreeDS/citra_core/network/packet.cpp:17-19 | The 64-bit swap built from two 32-bit swaps puts all eight bytes in network order. |
| `Packet.UnsignedRoundTrip` | emuThreeDS/citra_core/network/packet.cpp:173-222 | Signed and unsigned integers survive the two's complement. |
| `Packet.BigEndianRoundTrip` | emuThreeDS/citra_core/network/packet.cpp:94-127 | Bytes in network order give back the number. |
| `Packet.BoolOnTheWire` | emuThreeDS/citra_core/network/packet.cpp:69-75 | A truth value is one byte, one or zero; any byte but zero reads as true. |
| `Packet.IntegerOnTheWire` | emuThreeDS/citra_core/network/packet.cpp:173-222 | Byte k of a written integer of w bytes is its digit of weight 256^(w-1-k), in two's complement. |
| `Packet.ListsOnTheWire` | emuThreeDS/citra_core/network/packet.cpp:245-255 | A string or vector stands behind four bytes with its length, the most significant first, an array does not. |
| `Packet.DecodeInvertsEncode` | emuThreeDS/citra_core/network/packet.cpp:69-255 | Wherever the encoding of a value of any type, floating point numbers included, stands in a packet, it reads back as that value and ends where it ends. |
| `Packet.WrittenReadsBack` | emuThreeDS/citra_core/network/packet.cpp:28-41 | Any list of typed values written to an empty packet reads back equal, with the packet valid and at its end. |
| `Packet.FieldStands` | emuThreeDS/citra_core/network/packet.cpp:53-55 | Skipping the fields before it by their sizes leads to any field of a packet. |
| `Packet.CutPacketIsInvalid` | emuThreeDS/citra_core/network/packet.cpp:257-261 | A packet that ends before the last value has been read becomes invalid. |
| `Packet.PacketBuffer.Write` | emuThreeDS/citra_core/network/packet.cpp:173-255 | Appends the encoding and changes nothing else. |
| `Packet.PacketBuffer.Extract` | emuThreeDS/citra_core/network/packet.cpp:69-171 | Reads the value at the position or makes the packet invalid, like the specification. |
| `Packet.PacketBuffer.CheckSize` | emuThreeDS/citra_core/network/packet.cpp:257-261 | Validity is lost for good when the bytes are not there. |
| `Packet.CStringReadsBackIff` | emuThreeDS/citra_core/network/packet.cpp:129-144 | A C string reads back, terminated, if and only if it is not empty or the buffer was. |
| `Packet.EmptyCStringIsNotRead` | emuThreeDS/citra_core/network/packet.cpp:129-144 | A concrete case: the empty string read into a buffer that holds a letter. |
| `Packet.PacketBuffer.WriteCString` | emuThreeDS/citra_core/network/packet.cpp:232-241 | What is in front of the first zero is written like a string. |
| `Packet.PacketBuffer.ExtractCString` | emuThreeDS/citra_core/network/packet.cpp:129-144 | Reads the text into the buffer or makes the packet invalid, like the specification. |
| `Packet.DecodeInvertsEncodeEach` | emuThreeDS/citra_core/network/packet.h:120-164 | Vectors and arrays read back element by element. |
| `Packet.ElementsInOrder` | emuThreeDS/citra_core/network/packet.h:146-164 | One element more is one encoding more at the end. |
| `Packet.PacketBuffer.WriteEach` | emuThreeDS/citra_core/network/packet.h:146-164 | The elements of a vector or array are appended in order. |
| `Packet.PacketBuffer.ExtractEach` | emuThreeDS/citra_core/network/packet.h:120-144 | The elements are read in order, until one is missing. |
| `RoomCodec.ServerRoundTrip` | emuThreeDS/citra_core/network/room_member.cpp:296-414 | For every kind of message: the client makes of a packet the message that the server wrote, up to the first zero byte of a chat text; so exactly that message if and only if it is no chat or its text has no zero byte. |
| `RoomWire.ClientWrites` | emuThreeDS/citra_core/network/room_member.cpp:280-638 | Every request of the client, byte by byte. |
| `RoomCodec.ZeroCutsChat` | emuThreeDS/citra_core/network/room_member.cpp:373-386 | A chat text of three bytes with a zero in the middle arrives as its first byte. |
| `RoomCodec.ReadMessage` | emuThreeDS/citra_core/network/room_member.cpp:296-414 | Skipping the identifier and extracting the fields parses the packet; a message that the server wrote is used up to its end. |
| `RoomCodec.WriteMessage` | emuThreeDS/citra_core/network/room.cpp:615-828 | The identifier and the fields in their order make the packet of the message. |
| `RoomWire.ServerWrites` | emuThreeDS/citra_core/network/room.cpp:615-835 | Every message of the server, byte by byte: identifier, sizes, texts, addresses and numbers at their places. |
| `RoomCodec.ReadDestination` | emuThreeDS/citra_core/network/room.cpp:849-857 | Skipping identifier, type, channel and transmitter by their sizes finds the destination address of every frame a client wrote. |
| `RoomCodec.ClientRoundTrip` | emuThreeDS/citra_core/network/room.cpp:303-325 | The server parses exactly the request the client wrote. |
| `RoomCodec.ForwardedFrameParses` | emuThreeDS/citra_core/network/room.cpp:849-895 | A wifi frame passed on as it came parses to the frame that was sent. |
| `LinearDiskCache.TruncatedFile` | emuThreeDS/citra_core/common/linear_disk_cache.h:50-100 | A cache file cut off anywhere behind its header gives back exactly the entries that lie wholly within it. |
| `LinearDiskCache.WholeFile` | emuThreeDS/citra_core/common/linear_disk_cache.h:50-100 | A whole file gives back all entries. |
| `LinearDiskCache.CutRecord` | emuThreeDS/citra_core/common/linear_disk_cache.h:76-95 | A record that has been cut off is not read, whichever of its parts is missing. |
| `LinearDiskCache.RecordIs` | emuThreeDS/citra_core/common/linear_disk_cache.h:123-131 | A record is the number of elements, the key, the value and its own number counted from one, numbers with the low byte first. |
| `LinearDiskCache.ReadsIffRecord` | emuThreeDS/citra_core/common/linear_disk_cache.h:69-95 | In any file, an entry is read at a position if and only if its whole record with the next number stands there. |
| `LinearDiskCache.ReadsARun` | emuThreeDS/citra_core/common/linear_disk_cache.h:69-100 | What is read of any file is a run of records, numbered without a gap, that stands there. |
| `LinearDiskCache.ReadsTheLongestRun` | emuThreeDS/citra_core/common/linear_disk_cache.h:69-100 | And it is the longest: any such run is a part of it. |
| `LinearDiskCache.LinearDiskCache.OpenAndRead` | emuThreeDS/citra_core/common/linear_disk_cache.h:50-109 | Reads what the specification parses, or starts a new file if the header differs. |
| `LinearDiskCache.LinearDiskCache.Append` | emuThreeDS/citra_core/common/linear_disk_cache.h:123-131 | A file that holds some entries holds one more, with its number. |
| `ThreadQueueList.WalkVisitsPrepared` | emuThreeDS/citra_core/common/thread_queue_list.h:43-53 | Following the links from any point visits exactly the prepared levels from there on, in ascending order. |
| `ThreadQueueList.LinkAfter` | emuThreeDS/citra_core/common/thread_queue_list.h:144-157 | Linking behind a prepared level keeps the list threaded and prepares that level only. |
| `ThreadQueueList.LinkFirst` | emuThreeDS/citra_core/common/thread_queue_list.h:144-157 | Linking at the front does. |
| `ThreadQueueList.BestOfAll` | emuThreeDS/citra_core/common/thread_queue_list.h:43-82 | When only prepared levels hold items, the best prepared level is the best of all. |
| `ThreadQueueList.UpdateKeepsVisibleIff` | emuThreeDS/citra_core/common/thread_queue_list.h:84-113 | Items stay at prepared levels only, if and only if what a level is given is nothing or the level is prepared. |
| `ThreadQueueList.TakingKeepsVisible` | emuThreeDS/citra_core/common/thread_queue_list.h:55-82 | Taking items keeps that too. |
| `ThreadQueueList.PopFirstBetterSafeIff` | emuThreeDS/citra_core/common/thread_queue_list.h:69-82 | The loop dereferences null if and only if no prepared level from the given one on stops it and nothing better waits. |
| `ThreadQueueList.NullIsReached` | emuThreeDS/citra_core/common/thread_queue_list.h:69-82 | A concrete case: no level has been prepared. |
| `ThreadQueueList.ThreadQueueList.Prepare` | emuThreeDS/citra_core/common/thread_queue_list.h:125-129 | The level is prepared and no other changes; if items were at prepared levels only, they are. |
| `ThreadQueueList.ThreadQueueList.GetFirst` | emuThreeDS/citra_core/common/thread_queue_list.h:43-53 | The oldest item of the best prepared level, or the default; with items at prepared levels only, the oldest of the best level of all. |
| `ThreadQueueList.ThreadQueueList.PopFirst` | emuThreeDS/citra_core/common/thread_queue_list.h:55-67 | Takes that item, and nothing else changes. |
| `ThreadQueueList.ThreadQueueList.PopFirstBetter` | emuThreeDS/citra_core/common/thread_queue_list.h:69-82 | Takes the oldest item of the best level strictly below the given one, or nothing. |
| `ThreadQueueList.ThreadQueueList.PushFront` | emuThreeDS/citra_core/common/thread_queue_list.h:84-87 | The item becomes the first of its level; items stay at prepared levels only if and only if that level is prepared. |
| `ThreadQueueList.ThreadQueueList.PushBack` | emuThreeDS/citra_core/common/thread_queue_list.h:89-92 | The item becomes the last of its level; items stay at prepared levels only if and only if that level is prepared. |
| `ThreadQueueList.ThreadQueueList.Move` | emuThreeDS/citra_core/common/thread_queue_list.h:94-98 | The item leaves its level and becomes the last of the other, which is prepared. |
| `ThreadQueueList.ThreadQueueList.Remove` | emuThreeDS/citra_core/common/thread_queue_list.h:100-104 | Every occurrence leaves the level; the others keep their order. |
| `ThreadQueueList.WithoutSplits` | emuThreeDS/citra_core/common/thread_queue_list.h:100-104 | What is before an occurrence stays as it is, the occurrence goes, and so on behind it. |
| `ThreadQueueList.ThreadQueueList.Rotate` | emuThreeDS/citra_core/common/thread_queue_list.h:106-113 | A level of two or more moves its first item to the end. |
| `ThreadQueueList.ThreadQueueList.Save` | emuThreeDS/citra_core/common/thread_queue_list.h:186-194 | Writes the first level and the link of every level as a number, minus one for an unprepared level and minus two for null, and all queues. |
| `ThreadQueueList.ThreadQueueList.Load` | emuThreeDS/citra_core/common/thread_queue_list.h:197-205 | Restores what was written. |
| `ThreadQueueList.SaveThenLoad` | emuThreeDS/citra_core/common/thread_queue_list.h:164-205 | Loading what was saved gives the same links, first level and queues. |
| `SlotVector.PopPartitioned` | emuThreeDS/citra_core/common/slot_vector.h:102-110 | Taking the top of the free list and setting its bit keeps free list and bits a partition of the slots. |
| `SlotVector.PushPartitioned` | emuThreeDS/citra_core/common/slot_vector.h:65-69 | So does freeing a live slot. |
| `SlotVector.GrowPartitioned` | emuThreeDS/citra_core/common/slot_vector.h:129-134 | So does growing: the new slots go on the free list. |
| `SlotVector.SlotVector.Insert` | emuThreeDS/citra_core/common/slot_vector.h:56-63 | The new number was not live, and every live number keeps its value, through a doubling too, as long as a slot is free or the doubled numbers fit 32 bits. |
| `SlotVector.SlotVector.Erase` | emuThreeDS/citra_core/common/slot_vector.h:65-69 | One number is no longer live; the others keep their values. |
| `SlotVector.SlotVector.FreeValueIndex` | emuThreeDS/citra_core/common/slot_vector.h:102-110 | A free slot, with the storage doubled if there was none. |
| `SlotVector.SlotVector.Reserve` | emuThreeDS/citra_core/common/slot_vector.h:112-139 | Live values move to the new storage and keep their numbers. |
| `SlotVector.SlotVector.CopyLive` | emuThreeDS/citra_core/common/slot_vector.h:114-127 | The two loops over words and bits copy every live value, though a word is left as soon as its rest is zero. |
| `ThreadWorker.StepKeepsCounts` | emuThreeDS/citra_core/common/thread_worker.h:41-90 | Conservation: tasks scheduled are those queued, running, executed but not yet counted, and done. |
| `ThreadWorker.EveryTaskOnce` | emuThreeDS/citra_core/common/thread_worker.h:41-90 | In every interleaving each task is queued, running or executed, and none is executed twice. |
| `ThreadWorker.WaitMeans` | emuThreeDS/citra_core/common/thread_worker.h:92-102 | When the wait ends nothing is running; all tasks have then been executed if and only if the queue is empty, and it can only be non-empty when all workers have stopped, having been asked to or never existed. |
| `ThreadWorker.WaitCanLeaveTasks` | emuThreeDS/citra_core/common/thread_worker.h:41-102 | A run in which the wait ends with a task in the queue: the worker is stopped before it takes it. |
| `ThreadWorker.WaitWithoutStop` | emuThreeDS/citra_core/common/thread_worker.h:92-102 | With at least one worker and no stop request, the wait ends only when everything scheduled has been executed. |
| `ThreadWorker.NobodyToWaitFor` | emuThreeDS/citra_core/common/thread_worker.h:92-102 | With no workers it ends at once, whatever is queued, and nothing is ever executed. |
| `PrimitiveAssembly.PrimitiveAssembler.SubmitVertex` | emuThreeDS/citra_core/video_core/primitive_assembly.cpp:16-54 | The triangles handled so far are the closed form of the vertices since the last reset, for every topology and with inversions. |
| `PrimitiveAssembly.PrimitiveAssembler.SubmitToList` | emuThreeDS/citra_core/video_core/primitive_assembly.cpp:20-32 | The same for lists and the shader topology, where an inversion request swaps one triangle and is then spent. |
| `PrimitiveAssembly.PrimitiveAssembler.SubmitToStrip` | emuThreeDS/citra_core/video_core/primitive_assembly.cpp:34-46 | The same for strips and fans. |
| `PrimitiveAssembly.PrimitiveAssembler.SetWinding` | emuThreeDS/citra_core/video_core/primitive_assembly.cpp:56-59 | The request is recorded for the triangle in progress. |
| `PrimitiveAssembly.PrimitiveAssembler.Reset` | emuThreeDS/citra_core/video_core/primitive_assembly.cpp:61-66 | A new stream begins; what was handled stays. |
| `PrimitiveAssembly.PrimitiveAssembler.Reconfigure` | emuThreeDS/citra_core/video_core/primitive_assembly.cpp:68-72 | The same with another topology. |
| `PrimitiveAssembly.PrimitiveAssembler.IsEmpty` | emuThreeDS/citra_core/video_core/primitive_assembly.cpp:74-77 | True exactly with no vertices, or with whole triangles in a list; a strip or fan is never empty again. |
| `PrimitiveAssembly.TriangleStays` | emuThreeDS/citra_core/video_core/primitive_assembly.cpp:16-54 | Later vertices and requests leave complete triangles as they were. |
| `PrimitiveAssembly.RequestedIff` | emuThreeDS/citra_core/video_core/primitive_assembly.cpp:26-29 | An inversion concerns a triangle if and only if some request arrives while it is in progress. |
| `PrimitiveAssembly.TriangleOfShader` | emuThreeDS/citra_core/video_core/primitive_assembly.cpp:23-32 | The k-th triangle of a geometry shader is vertices 3k to 3k + 2, the first two exchanged if and only if a request arrived between the vertices before it and its last one. |
| `PrimitiveAssembly.InvertsNextSnoc` | emuThreeDS/citra_core/video_core/primitive_assembly.cpp:23-32 | A request holds until its triangle is complete. |
| `GeometryPipeline.StreamOfVertices` | emuThreeDS/citra_core/video_core/geometry_pipeline.cpp:74-82 | In the point and fixed modes the k-th invocation gets the attributes of the k-th group of vertices in order, and the rest waits. |
| `GeometryPipeline.InvocationAt` | emuThreeDS/citra_core/video_core/geometry_pipeline.cpp:74-82 | Attribute k of vertex i of invocation j is attribute k of vertex j * m + i of the stream. |
| `GeometryPipeline.InvocationSizes` | emuThreeDS/citra_core/video_core/geometry_pipeline.cpp:74-82 | There are as many invocations as whole groups, each with the attributes of one group. |
| `GeometryPipeline.PrimitiveAt` | emuThreeDS/citra_core/video_core/geometry_pipeline.cpp:160-179 | In a variable primitive, attribute k of main vertex i, and behind the main vertices the first attribute of each other one, stand at their places. |
| `GeometryPipeline.EmptyAfterIff` | emuThreeDS/citra_core/video_core/geometry_pipeline.cpp:62-82 | The pipeline can be reconfigured after a stream if and only if the number of vertices is a multiple of the group. |
| `GeometryPipeline.VariableInvocation` | emuThreeDS/citra_core/video_core/geometry_pipeline.cpp:145-179 | After an index the shader is invoked by exactly that many vertices, with the main vertices' attributes and the others' first; after an index of zero only by the 2^32-nd. |
| `GeometryPipeline.VariableCalls` | emuThreeDS/citra_core/video_core/geometry_pipeline.cpp:160-179 | The only call is the one by the last of the announced vertices, with the announced count, and then an index is needed again. |
| `GeometryPipeline.StreamHasRoom` | emuThreeDS/citra_core/video_core/geometry_pipeline.cpp:52-82 | In the point mode, and in the fixed mode if one invocation fits, no vertex is written beyond the registers. |
| `GeometryPipeline.FixedFitsIff` | emuThreeDS/citra_core/video_core/geometry_pipeline.cpp:225-255 | In the fixed mode the last vertex of an invocation stays within the uniforms if and only if start and size fit. |
| `GeometryPipeline.VariableFitsIff` | emuThreeDS/citra_core/video_core/geometry_pipeline.cpp:145-179 | In the variable mode it does if and only if the announced primitive fits. |
| `GeometryPipeline.SixthVertexOverruns` | emuThreeDS/citra_core/video_core/geometry_pipeline.cpp:145-255 | A concrete case in either mode: the sixth vertex of sixteen attributes. |
| `GeometryPipeline.FillingRoomIff` | emuThreeDS/citra_core/video_core/geometry_pipeline.cpp:160-179 | In the middle of a variable primitive the next vertex fits if and only if the registers that so many vertices fill are there. |
| `GeometryPipeline.GeometryPipeline.Reconfigure` | emuThreeDS/citra_core/video_core/geometry_pipeline.cpp:317-351 | A fresh buffer for the mode; the emptiness assertion is the precondition. |
| `GeometryPipeline.GeometryPipeline.NeedIndexInput` | emuThreeDS/citra_core/video_core/geometry_pipeline.cpp:353-357 | True only in the variable mode between primitives. |
| `GeometryPipeline.GeometryPipeline.SubmitIndexInput` | emuThreeDS/citra_core/video_core/geometry_pipeline.cpp:145-158 | The primitive begins with the announced number of vertices. |
| `GeometryPipeline.GeometryPipeline.SubmitVertexOutput` | emuThreeDS/citra_core/video_core/geometry_pipeline.cpp:363-379 | The register files and counters become those of the specification. |
| `GeometryPipeline.GeometryPipeline.SubmitCounted` | emuThreeDS/citra_core/video_core/geometry_pipeline.cpp:248-255 | The point and fixed modes. |
| `GeometryPipeline.GeometryPipeline.SubmitVariable` | emuThreeDS/citra_core/video_core/geometry_pipeline.cpp:160-179 | The variable mode, its unsigned counter included. |
| `DrawLoop.DrawArrays` | emuThreeDS/citra_core/video_core/command_processor.cpp:344-418 | A draw with the 32-entry vertex cache hands the geometry pipeline exactly the calls of a draw that shades every vertex anew, which depend only on the list of vertex numbers that index array or start offset name; it requires the condition of `DrawFitsIff`. |
| `DrawLoop.DrawNext` | emuThreeDS/citra_core/video_core/command_processor.cpp:366-417 | One vertex of the draw. |
| `DrawLoop.VertexIsNamed` | emuThreeDS/citra_core/video_core/command_processor.cpp:325-370 | A vertex has number n exactly if its entry is n: in two bytes with the low one first, in one byte, or without an index array by the distance from the start offset modulo 2^32. |
| `DrawLoop.NumbersExist` | emuThreeDS/citra_core/video_core/command_processor.cpp:325-370 | Every draw names exactly one list of numbers. |
| `DrawLoop.DrawnIsOf` | emuThreeDS/citra_core/video_core/command_processor.cpp:366-417 | A draw depends on registers and index array only through that list. |
| `DrawLoop.VertexCache.Lookup` | emuThreeDS/citra_core/video_core/command_processor.cpp:387-393 | A hit gives what the shader gives; a miss means no valid entry has that number. |
| `DrawLoop.VertexCache.Store` | emuThreeDS/citra_core/video_core/command_processor.cpp:408-413 | One entry is replaced, in circular order; sixteen bits are enough for its number. |
| `DrawLoop.VertexCache.Shaded` | emuThreeDS/citra_core/video_core/command_processor.cpp:372-414 | Cached or not, the output is that of the shader. |
| `DrawLoop.GatheringDraw` | emuThreeDS/citra_core/video_core/command_processor.cpp:366-417 | A whole draw in the point or fixed mode: which vertices each invocation gets, and when it leaves nothing over. |
| `DrawLoop.InvocationOfDraw` | emuThreeDS/citra_core/video_core/command_processor.cpp:366-417 | Over the list of numbers: attribute k of vertex i of invocation j is that of the shaded vertex number j * m + i. |
| `DrawLoop.GatheringDrawFits` | emuThreeDS/citra_core/video_core/command_processor.cpp:366-417 | Such a draw is never written beyond the registers, in the fixed mode if one invocation fits. |
| `DrawLoop.DrawFitsIff` | emuThreeDS/citra_core/video_core/command_processor.cpp:344-418 | For every mode: no vertex of a draw is written beyond the registers if and only if a condition on the registers and the index array holds before it begins. |
| `DrawLoop.AnnouncedPrimitiveOverruns` | emuThreeDS/citra_core/video_core/command_processor.cpp:374-417 | A concrete case: an index array that announces six such vertices. |
| `DrawLoop.PrimitiveFitsIff` | emuThreeDS/citra_core/video_core/command_processor.cpp:374-417 | In the variable mode one primitive of the draw fits if and only if its last vertex does. |
| `DrawLoop.VariableDraw` | emuThreeDS/citra_core/video_core/command_processor.cpp:374-378 | A draw in the variable mode, over its list of vertex numbers: from every point where an index is needed, the next number announces a primitive and the shaded vertices behind it fill it. |
| `DrawLoop.PrimitiveCall` | emuThreeDS/citra_core/video_core/command_processor.cpp:374-417 | Over the list of numbers: the last vertex of an announced primitive makes one call with that number and the gathered vertices, and the next entry is an index. |
| `DrawLoop.TrianglesOfDraw` | emuThreeDS/citra_core/video_core/command_processor.cpp:366-417 | A draw without a geometry shader gives, for every topology, the closed form over the shaded vertices of its list of numbers. |
| `Movie.DecodeInvertsEncode` | emuThreeDS/citra_core/core/movie.cpp:240-456 | Each of the six kinds of record plays back as the values recorded, whatever its unassigned bits hold and the caller passes in. |
| `Movie.RecordLayout` | emuThreeDS/citra_core/core/movie.cpp:44-110 | Each kind of record byte by byte: the kind, words with the low byte first, button k in bit k, the bit fields of the extra pad. |
| `Movie.OtherKindIsIgnored` | emuThreeDS/citra_core/core/movie.cpp:240-362 | A record of another kind leaves the caller's values. |
| `Movie.UnpackInvertsPack` | emuThreeDS/citra_core/core/movie.cpp:44-110 | Bit fields of any widths read back what was packed, whatever stands above them. |
| `Movie.RecordingAppends` | emuThreeDS/citra_core/core/movie.cpp:364-456 | Recording appends one record for each input, counts the pads and hands the values on. |
| `Movie.RecordsAtPosition` | emuThreeDS/citra_core/core/movie.cpp:364-368 | Recording at any position keeps the log up to it, zeros beyond its end, and ends it with the record. |
| `Movie.CountOfLog` | emuThreeDS/citra_core/core/movie.cpp:132-146 | The input count of a recorded log is its number of pad inputs, whatever part of one more record follows. |
| `Movie.ReplayReturnsRecorded` | emuThreeDS/citra_core/core/movie.cpp:232-456 | Replaying with the same kinds returns the recorded values; the assertion never fails, the position stays at a record, the index counts the pads, and playback is finished exactly with the last record. |
| `Movie.RecordThenReplay` | emuThreeDS/citra_core/core/movie.cpp:232-554 | From beginning to end: what is recorded from a cleared movie and saved plays back, with calls of the same kinds, as what was recorded. |
| `Movie.SavedMoviePlays` | emuThreeDS/citra_core/core/movie.cpp:484-554 | A saved movie starts to play from its first record if it has one, and not at all if not. |
| `Movie.PlaysIff` | emuThreeDS/citra_core/core/movie.cpp:522-554 | A file is played exactly if it has the magic number and something behind its header; any other changes nothing. |
| `Movie.AssertHoldsIff` | emuThreeDS/citra_core/core/movie.cpp:674-683 | For any file that is accepted, the assertion holds for ever if and only if there is room for one record. |
| `Movie.OneByteMovieFails` | emuThreeDS/citra_core/core/movie.cpp:674-683 | A concrete case: a file with a single byte behind its header. |
| `Movie.RewindWhilePlaying` | emuThreeDS/citra_core/core/movie.cpp:148-216 | A state saved in the middle of the recording, loaded read-only during playback, continues right behind it; one saved at the end is rejected. |
| `Movie.RewindWhileRecording` | emuThreeDS/citra_core/core/movie.cpp:186-215 | Loaded without protection, recording goes on from there. |
| `Movie.PlaybackStateRejected` | emuThreeDS/citra_core/core/movie.cpp:196-203 | A state saved during playback is never accepted read-only by a playback of that movie. |
| `Movie.LoadIsSafe` | emuThreeDS/citra_core/core/movie.cpp:196-211 | After an accepted read-only load the assertion holds for ever, if positions lie at records and the saved one within the saved log. |
| `Movie.LoadOutcome` | emuThreeDS/citra_core/core/movie.cpp:149-217 | For any two states: when a savestate is accepted, which error it gives if not, and position, index, log and mode after it is. |
| `Movie.RejectedLoadGoesOnIff` | emuThreeDS/citra_core/core/movie.cpp:150-208 | The position moves before the checks: after any rejected load a playback goes on, however many inputs follow, if and only if the saved position leaves room for a record in the movie that plays. |
| `Movie.RejectedRecordingGoesOnIff` | emuThreeDS/citra_core/core/movie.cpp:150-208 | For a state that a recording saved: if and only if that recording is shorter. |
| `Movie.RejectedPlaybackRewinds` | emuThreeDS/citra_core/core/movie.cpp:150-203 | For a state that a playback of the same movie saved: the load is rejected and all the same rewinds to where it was saved. |
| `Movie.RejectedLoadBreaksPlayback` | emuThreeDS/citra_core/core/movie.cpp:150-203 | The state saved at the end of the very movie that plays is rejected and leaves the playback unable to go on. |
| `Movie.MovieImpl.Play` | emuThreeDS/citra_core/core/movie.cpp:240-362 | Reads the record at the position and moves on, whether its kind matches or not. |
| `Movie.MovieImpl.CheckInputEnd` | emuThreeDS/citra_core/core/movie.cpp:232-238 | Playback is finished when less than a record is left. |
| `Movie.MovieImpl.RecordInput` | emuThreeDS/citra_core/core/movie.cpp:364-368 | The log is cut at the position and the record appended. |
| `Movie.MovieImpl.HandleInput` | emuThreeDS/citra_core/core/movie.cpp:674-683 | Plays, records or does nothing according to the mode. |
| `Movie.MovieImpl.LoadState` | emuThreeDS/citra_core/core/movie.cpp:149-217 | State and error are those of the specification; on an error the position has moved all the same. |
| `Movie.MovieImpl.Shutdown` | emuThreeDS/citra_core/core/movie.cpp:660-672 | The movie is cleared. |
| `Movie.GetInputCount` | emuThreeDS/citra_core/core/movie.cpp:132-146 | Counts the pad records, without an incomplete last one. |

## Left out

Weaker than the source:

- CoreTiming.Timer.Advance: requires that the loop ends for the given callbacks, as it need not; tick counts and insertion numbers are unbounded, so their overflow at 2^64 is not modelled.
- CoreTiming.Timer.ServeAll: a callback's calls are those on its own timer; events it schedules on other cores go to inboxes that this call does not touch.
- CoreTiming.Timer.AddTicks: the clock scale is a real number and its product with the ticks is not rounded to a `double`.
- RoomServer.RoomImpl.GenerateMacAddress: the random generator is a parameter with some draw that is free.
- RoomServer.RoomImpl.HandleJoinRequest: the verification backend and ENet's peer addresses are functions given by the configuration.
- SpscQueue.StepKeepsInv: atomics are sequentially consistent, and the condition variable of `PopWait` is not part of the machine.
- RingBuffer.StepKeepsInv: a slot is one value, whatever its granularity, and atomics are sequentially consistent.
- MemorySystem.MemorySystemImpl.MarkPhysicalPage: requires the registered page tables to be distinct objects.
- MemorySystem.MemorySystemImpl.RasterizerMarkRegionCached: addresses are unbounded, so a region that runs past 2^32 does not wrap around.
- GuestAccess.WideReadIff: a read that starts in a region and runs out of it, which `memcpy` leaves undefined, is excluded; reads of several bytes from registers go to the handler as one access, and writes of several bytes are not part of this model.
- BlockAccess.HostMemory.ReadBlock: flushing the rasterizer leaves memory as it is, and reading a register is a function of its address.
- BlockAccess.HostMemory.CopyBlock: only for ranges where no byte read is among those written, as `memcpy` demands of each of its copies.
- Resampler.Interpolator.StepOverSamples: the rate is a real number and its product with the scale is not rounded to a `float`.
- ParamPackage.Package.Serialize: the iteration order of the map is a parameter; every order is covered.
- Packet.DecodeInvertsEncode: a floating point number is the bytes it has on the host; strings and vectors are shorter than 2^32, as their size field demands.
- SlotVector.SlotVector.Insert: requires a free slot or storage whose doubled slot numbers fit 32 bits; a word of the bitset is the sequence of its bits.
- GeometryPipeline.GeometryPipeline.SubmitVertexOutput: requires room in the registers, which the source does not check; the vertex count put into the first uniform is kept as an integer.
- DrawLoop.DrawArrays: the vertex shader is a function of the vertex number, and attributes it does not write are part of its result.
- Movie.DecodeInvertsEncode: covers the fields a record holds; other bits of the pad states stay with the caller.
- Adpcm.Decoder.DecodeSample: the sum is an unbounded integer; when it leaves 32 bits is stated separately.
- LinearDiskCache.LinearDiskCache.Append: only at the end of the file; where the stream stands after a truncated read is not modelled.
- RoomCodec.ReadMessage: of a packet that is cut short the model makes no message, where the client goes on with what it could extract.
- ThreadWorker.WaitMeans: tasks and worker state are abstract, and nothing is said about when the wait ends.

Not modelled:

- Conversions between cycles and time, the host clock adjustment, and saving the timer's own state.
- Closing a room (`SendCloseMessage`), the moderation requests' user interface, chat and status callbacks of the client, and the reordering of the verification backend's answers.
- `SPSCQueue::Clear` and destruction of a queue in use.
- The 3GX plugin framebuffer, exclusive writes, and the physical address lookup.
- `RasterizerFlushVirtualRegion` and what the rasterizer does with cached pages.
- Immediate mode drawing, command lists and registers of the GPU, the accelerated draw path, and shader execution.
- Movie headers other than their magic number and size, and validation of the revision.
- Files as such: the disk cache and movies are byte sequences.
