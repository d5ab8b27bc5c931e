# Verified model of rally-point2's turn driver

A Dafny model of the parts of rally-point2 that have to be right for every
schedule, loss and reconnect: the client's outbound turn pipeline and its resume
logic, the frames it writes on its control streams, the lobby pacer against the
relay's token bucket, the beacon's cursor cell, the relay's turn validator, and
the trackers that make clients agree whatever order things arrive in.

Where the original updates an object in place, the model has a class with the
same fields, proved against a specification; what the original promises is then
proved about the specification, over all inputs, all runs or all reachable
states. Clocks, channel answers and the outcome of every write are parameters,
so a theorem holds whichever way each of them turns out.

| file | models |
|---|---|
| `Turns.dfy`, `LinkDriver.dfy` | one client's outbound turns over a whole session: hold queue, outage buffer, stamping, retention, same-relay resume, re-home, teardown; first as steps, then as the driver object that takes them |
| `Retention.dfy` | the ring of sent turns, resume anchors and staging |
| `ControlFrames.dfy`, `ControlHistory.dfy`, `ControlDriver.dfy` | leave intent and its gate, result, statistics, start announcement and load-state fence; as steps over all control streams, told from the actions alone, then as the writers |
| `Escalation.dfy` | when failed dials ask for another relay |
| `Pacing.dfy`, `Lobby.dfy` | pacer and token bucket across a jittery path; the lobby history over many streams; receipts |
| `BeaconCodec.dfy`, `BeaconCell.dfy` | beacon frames, the push-on-advance writer, the two-task cursor cell |
| `Commands.dfy`, `Validation.dfy`, `SyncGeneration.dfy` | the command table, the relay's validator, the client's checksum tagger |
| `Directive.dfy`, `Reorder.dfy`, `Connectivity.dfy`, `SequenceRing.dfy`, `Phase.dfy` | order-insensitive trackers and the send-phase slew |
| `Basics.dfy`, `Messages.dfy`, `Arithmetic.dfy` | shared types and integer facts |

## Where the code and its comments differ

The model follows the code. Each difference is stated and proved:

- `transport/src/sequence_buffer.rs:102-104` says entries of an earlier rotation
  are cleared on a forward move. They are not when the move is shorter than the
  capacity: `GapLeavesStaleEntry` is such a run, and `StaysFreshExactly` says
  which inserts leave none behind. Lookups stay correct either way
  (`FoundExactlyWhenStored`).
- `client/src/leave_announcer.rs:128-132` says an intent goes out once every
  produced turn is sent. The gate does not look at the outage buffer, so while a
  resumed session flushes it can open with buffered turns unsent:
  `GateCanOpenEarly` is such a run, `FlushGateExactly` is the exact condition
  under which a flush opens the gate, and an open gate leaves exactly the buffered
  turns unstamped (`ServingGateIsDrained`), so none in the serve loop.
- `client/src/phase.rs:90-96` drops the part of an elapsed time below a microsecond, so
  a slew can cover less than half the commanded distance:
  `HalfRateFailsOnFineClock`. `HalfRateExactly` says at which rates it never does, on
  any clock and any schedule of polls: among them the default and both bounds
  (`ShippedRatesAreSafe`). `SlewBounds` is the bound that holds at every rate.
- `client/src/phase.rs:75-77` says a rate change never reaches back to time already
  elapsed. Time that bought no whole microsecond stays on the books and the new rate
  spends it: `RateChangeReachesBack` is such a retarget, `RetargetReachesBackExactly`
  says for every retarget whether it does, `LeftoverTimeReachesBack` what that comes to
  at the default rate and both bounds, and one that does not reach back keeps to its
  rate from then on whatever the polls (`OtherwiseKeepsToItsRate`).
- `client/src/driver/lobby.rs:31-36` gives a sufficient condition and 6.4 s of
  tolerable jitter. The condition is confirmed (`DocumentedConditionSuffices`);
  the exact tolerance is 6.6 s (`ShippedTolerance`), tight in both directions
  (`EveryArrivalIsAdmitted`, `IntolerableJitterLoses`).

## Model

| member | source | states |
|---|---|---|
| `Turns.StepKeeps` | client/src/driver/session.rs:68-167 | Every step a session can take (hold, send, failed send, outage, ack, same-relay resume, re-home, re-divert, teardown) keeps the whole invariant: conservation, stage order, punctual holds, longest-suffix retention, sound staging and window, anchors below everything re-sent, no turn without a carrier |
| `Turns.RunsKeep` | client/src/driver/run.rs:110-174 | So the invariant holds after every run of steps from a fresh session |
| `Turns.OutboundIsConserved` | client/src/driver/send.rs:29-92 | In every reachable state stamped turns, then held, then buffered, then unread ones are exactly what the game produced, and the i-th produced turn is the one stamped i |
| `Turns.TurnsGoOutAsProduced` | client/src/driver/send.rs:29-92 | Field by field: the turn stamped i has seq i and the own slot, and every other field of the i-th turn the game produced |
| `Turns.NoTurnIsStranded` | client/src/driver/retention.rs:111-133 | In every reachable state a stamped turn that fits a datagram is acked or in the unacked window; one that does not is retained until some control stream has carried it, and while it is retained and the link is up, this very connection's stream has carried it or is owed it |
| `Turns.ResumeAnchorIsSafe` | client/src/driver/retention.rs:173-205 | For the whole life of a connection resumed on the same relay, its anchor is at or below everything it re-sends by datagram, has written or still owes to its control stream, and everything stamped later; what it owes is still retained |
| `Turns.RehomeLeavesNoHole` | client/src/driver/retention.rs:135-171 | After a re-home every seq from the declared anchor to the next one is in the unacked window or staged, nothing is staged twice, and the ring is the longest suffix of stamped turns both caps allow |
| `Turns.RehomeStaysWhole` | client/src/driver/retention.rs:135-171 | For as long as a connection to a new relay is up, every turn from its anchor on is in the unacked window, acked since that re-home, written on this connection's control stream, or staged for it |
| `Turns.RetentionInNumbers` | client/src/driver/retention.rs:49-60 | In every reachable state the ring is the newest stamped turns, at most 512 and at most 262,144 bytes unless it is a single turn, counting 32 per turn on top of its commands, and keeping one more would break one of the two |
| `Turns.HeldTurnsArePunctual` | client/src/driver/outbound.rs:70-76 | In every reachable state held deadlines are in production order, no earlier than their own delay after acceptance and at most 100 ms after it, and a later one is either its own or the same as the one before it |
| `Turns.HandoffKeeps` | client/src/driver/send.rs:29-92 | Handing the oldest waiting turn to the wire keeps the invariant, whether or not the write succeeds and whichever path the turn takes |
| `Turns.ResumeKeeps` | client/src/driver/retention.rs:278-289 | Staging the oversize retained turns under the presented anchor keeps the invariant |
| `Turns.RehomeKeeps` | client/src/driver/retention.rs:238-251 | Re-injecting the ring under the contiguous anchor keeps the invariant |
| `Turns.RedivertKeeps` | client/src/driver/retention.rs:124-133 | Writing, or failing to write, the oldest staged turn keeps the invariant; a failed write keeps the turn staged |
| `Turns.QueueKeeps` | client/src/driver/outbound.rs:70-76 | Producing, holding and outage-buffering a turn keep the invariant |
| `Turns.AnchorPersists` | client/src/driver/reconnect.rs:342-382 | The anchor a connection was opened with stays its anchor until the next resume |
| `Turns.StagingIsSound` | client/src/driver/retention.rs:213-220 | Staging the ring leaves exactly the retained oversize turns on the list, each once |
| `LinkDriver.Driver.KeepsInv` | client/src/driver/session.rs:128-167 | Whatever methods have been called, the driver satisfies the session invariant |
| `LinkDriver.Driver.SendGameTurn` | client/src/driver/send.rs:29-92 | One handoff, field by field: the newest retained turn is the payload with the next seq and the own slot; it joins the window exactly when it fits a datagram and the control stream exactly when it does not and the write succeeds; a failed write ends the link but loses neither the stamp nor the retained copy |
| `LinkDriver.Driver.SendFromChannel` | client/src/driver/outbound.rs:46-69 | Sending the next unread turn is one step of the session |
| `LinkDriver.Driver.SendFromHeld` | client/src/driver/outbound.rs:116-124 | Sending the oldest held turn is one step of the session |
| `LinkDriver.Driver.SendFromBuffer` | client/src/driver/session.rs:153-157 | Sending the oldest buffered turn is one step of the session |
| `LinkDriver.Driver.HoldNext` | client/src/driver/outbound.rs:70-76 | Holding a turn is one step; it is due its delay from now, or with the one held before it if that is later |
| `LinkDriver.Driver.OnOutgoingTurn` | client/src/driver/outbound.rs:29-101 | A produced turn is sent at once exactly when no delay applies and nothing is held, otherwise held; only what exceeds 64 leaves the hold early; the slew is advanced to now |
| `LinkDriver.Driver.OnHeldDue` | client/src/driver/outbound.rs:108-138 | Only due turns leave the hold, as a prefix, and none that is due stays unless a write failed, which then ends the link |
| `LinkDriver.Driver.RedivertPendingControl` | client/src/driver/retention.rs:124-133 | Staged turns are written oldest first; a failed write leaves the unsent ones, itself included, on the list |
| `LinkDriver.Driver.FlushHeld` | client/src/driver/session.rs:128-140 | Held turns are flushed oldest first; a failed send keeps the unsent tail |
| `LinkDriver.Driver.FlushBuffer` | client/src/driver/session.rs:151-157 | Buffered turns are flushed oldest first; a failed send keeps the unsent tail |
| `LinkDriver.Driver.OpenSession` | client/src/driver/session.rs:68-167 | Unless some write fails, a connection comes to serve; then nothing is staged, held or buffered and every produced turn outside the channel is stamped |
| `LinkDriver.Driver.ServingIsSettled` | client/src/driver/session.rs:169-173 | In the serve loop nothing is staged or buffered, and stamped, held and unread turns add up to those produced |
| `LinkDriver.Driver.DrainForTeardown` | client/src/driver/teardown.rs:34-45 | Unless some write fails, a drain stamps every produced turn |
| `LinkDriver.Driver.WaitBackoff` | client/src/driver/backoff.rs:66-89 | The wait moves turns from channel to buffer in order, losing none, and gives up exactly when the buffer passes 256 |
| `LinkDriver.Driver.StageOversize` | client/src/driver/retention.rs:278-289 | The loop stages exactly the oversize retained turns, each once |
| `LinkDriver.Driver.ReinjectRetention` | client/src/driver/retention.rs:238-251 | The loop puts datagram-sized retained turns into the window and stages the others |
| `LinkDriver.Driver.SameRelayCursors` | client/src/driver/reconnect.rs:342-348 | The cursors end with the own slot; its cursor is at or below every seq in the window and every retained turn too large for a datagram, and is one of them, or the next seq if there are none |
| `LinkDriver.Driver.ResumeOnSameRelay` | client/src/driver/reconnect.rs:342-386 | After a same-relay resume nothing in the window, staged, or yet to be stamped is below the own-slot cursor it presented, and that cursor is no lower than it must be; staged onto an empty list, turns are in seq order |
| `LinkDriver.Driver.RehomeOwnSlotAnchor` | client/src/driver/retention.rs:162-171 | The computed anchor descends from the ring front through contiguous unacked seqs only, or is the oldest unacked one |
| `LinkDriver.Driver.RehomeToNewRelay` | client/src/driver/reconnect.rs:485-525 | The anchor runs from the ring's front down through unacked seqs as far as they go without a hole, and after the re-home every stamped turn from it on is in the window or staged |
| `LinkDriver.Driver.Retire` | transport/src/ack_manager/recv.rs:81-115 | Packet acks and beacon cursors take exactly the named turns out of the unacked window |
| `LinkDriver.OldestOf` | transport/src/ack_manager/mod.rs:195-200 | The oldest replayable seq is the least of the window, none exactly when it is empty |
| `Retention.RetentionRing.PushTurn` | client/src/driver/retention.rs:49-60 | The ring with its running byte total is the trimmed ring, eviction loop and saturating arithmetic included |
| `Retention.PushIsLongest` | client/src/driver/retention.rs:44-60 | If the ring is the longest suffix of everything sent within both caps, it still is after a push, and is never empty |
| `Retention.TrimIsLongest` | client/src/driver/retention.rs:52-59 | Dropping from the front until both caps hold finds the longest suffix within them |
| `Retention.LongestInNumbers` | client/src/driver/retention.rs:44-60 | The longest suffix both caps allow, in plain numbers: at most 512 turns, at most 262,144 bytes unless it is one, and no longer suffix is |
| `Retention.OversizeIsExact` | client/src/driver/retention.rs:74-87 | The oversize turns are exactly the retained ones no datagram carries |
| `Retention.OldestOversizeSeq` | client/src/driver/retention.rs:81-87 | The least seq among the oversize retained turns, none exactly when there is none |
| `Retention.SameRelayResumeCursors` | client/src/driver/retention.rs:190-205 | Every peer cursor, then always the own slot, at the least seq that the unacked window or the oversize turns will send again, or the next seq if both are empty |
| `Retention.ContiguousReplayableAnchor` | transport/src/ack_manager/mod.rs:223-237 | From the anchor to the front every seq is unacked, and the one below it is not |
| `Retention.ContiguousAnchorIsLeast` | client/src/driver/retention.rs:135-151 | No lower anchor could be promised |
| `Retention.StageAllIsUnion` | client/src/driver/retention.rs:207-220 | Staging adds exactly what is missing, keeps what was there in place and never repeats a (slot, seq) |
| `Retention.StageAllAppends` | client/src/driver/retention.rs:207-220 | What is not staged yet goes behind what is, in the order given |
| `ControlFrames.ActKeeps` | client/src/driver/session.rs:247-321 | Every control-stream step keeps the trace invariant over every session state |
| `ControlFrames.RunsKeep` | client/src/driver/session.rs:173-321 | So it holds over every interleaving of turn steps and control steps, across any number of streams |
| `ControlFrames.DepartsOnce` | client/src/leave_announcer.rs:139-166 | Over every run at most one leave intent and at most one result are ever written, and no result or snapshot after the intent |
| `ControlFrames.GatedIntentIsDrained` | client/src/leave_announcer.rs:190-205 | An intent the gate released in the serve loop found every produced turn stamped, none in flight and no result owed |
| `ControlFrames.ServingGateIsDrained` | client/src/leave_announcer.rs:190-198 | An open gate leaves exactly the outage buffer unstamped; in the serve loop, nothing |
| `ControlFrames.FlushGateExactly` | client/src/driver/session.rs:128-167 | A flushed turn opens the gate exactly when it was the last held, or a buffered one, fits no datagram, and nothing else but the buffer is outstanding |
| `ControlFrames.GateCanOpenEarly` | client/src/driver/session.rs:128-167 | A reachable run in which the intent is written with a produced turn still in the outage buffer |
| `ControlFrames.FenceIsSound` | client/src/driver/inbound.rs:428-466 | On every stream, the ack of a probe handled after the game signalled its start follows a start announcement written on that same stream |
| `ControlFrames.ProbeKeeps` | client/src/driver/inbound.rs:443-466 | Answering a probe keeps the trace invariant even when either write fails |
| `ControlDriver.LeaveAnnouncer.Arm` | client/src/leave_announcer.rs:84-95 | Arming sets the deadline, except after the intent is out |
| `ControlDriver.LeaveAnnouncer.Deadline` | client/src/leave_announcer.rs:97-106 | There is a deadline exactly while the intent is pending |
| `ControlDriver.ControlWriter.SignalStart` | client/src/driver/channels.rs:77-85 | A signal is queued; a repeat before it is read is the same signal |
| `ControlDriver.ControlWriter.Publish` | client/src/driver/channels.rs:245-257 | A new snapshot replaces the last |
| `ControlDriver.ControlWriter.ExpectResult` | client/src/driver/channels.rs:64-74 | From now on an intent waits for the result |
| `ControlDriver.ControlWriter.OpenStream` | client/src/driver/session.rs:76-99 | A new stream has carried nothing; the session facts stay |
| `ControlDriver.ControlWriter.ReassertStart` | client/src/driver/session.rs:91-99 | A stream opens with the announcement exactly when the session has it and the write succeeds |
| `ControlDriver.ControlWriter.OnGameStarted` | client/src/driver/outbound.rs:212-224 | The first signal is latched and written unless the write fails, and then stays owed; a repeat, or a sender that is gone, writes nothing |
| `ControlDriver.ControlWriter.OnLoadStateProbe` | client/src/driver/inbound.rs:443-466 | Writes the announcement if it is owed, then the ack; a failed announcement leaves both unwritten |
| `ControlDriver.ControlWriter.SendNewestRollbackStats` | client/src/driver/outbound.rs:392-413 | The newest snapshot is written exactly when there is one, this stream lacks it, the intent is not out and the write succeeds |
| `ControlDriver.ControlWriter.OnResult` | client/src/driver/outbound.rs:148-200 | The result is written exactly when none was tried before, no intent is out and the write succeeds; a failed write counts as tried |
| `ControlDriver.ControlWriter.OnLeaveIntent` | client/src/driver/session.rs:247-268 | The last snapshot is offered before the announcer is armed |
| `ControlDriver.ControlWriter.MaybeSend` | client/src/leave_announcer.rs:139-151 | The intent is written exactly when one is pending, nothing is queued, held or in flight, an expected result has been offered, and the write succeeds |
| `ControlDriver.ControlWriter.ForceSend` | client/src/leave_announcer.rs:153-166 | The timeout writes it whatever is outstanding |
| `ControlDriver.ControlWriter.TeardownStart` | client/src/driver/teardown.rs:49-58 | A start still unread at teardown is latched and written unless the session already has it |
| `ControlDriver.ControlWriter.SettleControl` | client/src/driver/teardown.rs:46-69 | Leave signal, start and result left unread are handled in that order; the start is written unless announced before, the result unless tried before or an intent is out, and no start stays unread |
| `ControlDriver.ControlWriter.AbsorbLinkClose` | client/src/leave_announcer.rs:177-188 | A link failure counts as a clean stop exactly when an intent has been written |
| `ControlHistory.FlagsFollow` | client/src/driver/session.rs:173-321 | Over every run the driver's flags say what its actions say: an intent is out exactly when a write of it succeeded, a result counts as sent exactly when one was tried before that, a start is known exactly when signalled, and the books of this stream match the frames on it |
| `ControlHistory.ResultExactly` | client/src/driver/outbound.rs:148-200 | After every run, an attempt at the result writes it exactly when it succeeds, none was tried before and no intent is out |
| `ControlHistory.ResultWrittenExactly` | client/src/driver/outbound.rs:148-200 | A session has written a result if and only if some attempt at one succeeded with none tried before it and no intent out |
| `ControlHistory.ProbeExactly` | client/src/driver/inbound.rs:443-466 | After every run short of teardown, a probe is answered with exactly the start its stream is owed, if any, and then its ack; only a failed write withholds either, and a failed start withholds both |
| `ControlHistory.StartExactly` | client/src/driver/outbound.rs:212-224 | The start is written when its signal is first read and again at the opening of every later stream, and at no other time but before an ack |
| `ControlHistory.StatsExactly` | client/src/driver/outbound.rs:392-413 | After every run, the newest published snapshot is written exactly when the stream does not carry it already, no intent is out and the write succeeds; arming the leave writes the same |
| `ControlHistory.IntentExactly` | client/src/leave_announcer.rs:190-205 | After every run, the gate is open if and only if the game is leaving, no intent is out, an expected result has been tried, and nothing is queued, held or in flight; the timeout asks for the first two only |
| `ControlHistory.GatedIntentWritten` | client/src/leave_announcer.rs:139-151 | An open gate writes one intent, and nothing else, exactly when the write succeeds |
| `ControlHistory.ForcedIntentWritten` | client/src/leave_announcer.rs:153-166 | A forced intent is written behind the newest snapshot if the stream lacks it |
| `ControlHistory.IntentWrittenExactly` | client/src/leave_announcer.rs:139-166 | A session has written an intent if and only if a write of it succeeded |
| `ControlHistory.DepartureIsDrained` | client/src/leave_announcer.rs:190-205 | Wherever in a run the gate lets the intent go: nothing is queued, held or in flight, in the serve loop every turn produced is stamped, and an expected result has been tried |
| `Escalation.EscalationClock.OnFailedDial` | client/src/driver/reconnect.rs:398-412 | The clock after any run of failed dials, and whether each one asks |
| `Escalation.FirstAsk` | client/src/driver/reconnect.rs:300-304 | Before any ask, a failed dial asks exactly on a certificate rejection or once the window is over |
| `Escalation.LaterAsk` | client/src/driver/reconnect.rs:434-452 | After an ask, the next is exactly at the first failure a window past its answer, the long one after a stay and the retry one otherwise |
| `Escalation.AsksAreSpaced` | client/src/driver/reconnect.rs:300-304 | Any two asks of a run are at least the shorter window apart |
| `Pacing.EveryArrivalIsAdmitted` | client/src/driver/lobby.rs:31-39 | Every write that passes the pacer and reaches the relay within a tolerable jitter is admitted by a bucket that starts full, whatever was attempted and whatever was lost or reordered on the way |
| `Pacing.IntolerableJitterLoses` | client/src/driver/lobby.rs:36-39 | For any intolerable jitter some run of the pacer over some path that keeps order and that jitter has a write refused |
| `Pacing.DocumentedConditionSuffices` | client/src/driver/lobby.rs:31-35 | A refill no faster than the relay's and a burst with room for the jitter make it tolerable |
| `Pacing.ToleranceIsDecidable` | client/src/driver/lobby.rs:31-39 | A jitter is tolerable if and only if the pacer refills no faster than the relay and the two sizes of run around the jitter have room |
| `Pacing.ShippedTolerance` | client/src/driver/lobby.rs:29-45 | With the shipped constants a jitter is tolerable exactly up to 6.6 s |
| `Pacing.WritesAreSpaced` | client/src/driver/lobby.rs:159-177 | Between any two writes the pacer lets out at most its burst plus one per refill interval |
| `Pacing.ConformingIsAdmitted` | relay/src/rate_limit.rs:107-123 | A full bucket admits every arrival of a run spaced as its own rate allows, millisecond rounding included |
| `Pacing.AdmittedIsBounded` | relay/src/rate_limit.rs:107-123 | A run all of whose arrivals are admitted is no longer than the burst plus one per interval elapsed |
| `Pacing.IntervalsAreExact` | relay/src/rate_limit.rs:109-114 | Counting whole milliseconds first gives the true number of intervals when the interval is a whole number of milliseconds |
| `Pacing.TokenBucket.TryTakeAt` | relay/src/rate_limit.rs:107-123 | The bucket object takes exactly the specified step and answers whether it admits |
| `Pacing.RelayInNumbers` | relay/src/rate_limit.rs:107-123 | In numbers: a refill adds one token per elapsed interval up to the burst and keeps the remainder, and an arrival is admitted exactly when there is a token or an interval has passed |
| `Pacing.TokenExactlyWhenDue` | client/src/driver/lobby.rs:179-186 | A token is available exactly from the announced instant on |
| `Pacing.GrantsWhatElapsed` | client/src/driver/lobby.rs:159-177 | n attempts at one instant are granted exactly up to the tokens left plus one per interval elapsed, at most the burst |
| `Pacing.RefillInNumbers` | client/src/driver/lobby.rs:159-177 | In numbers: a refill adds one token per elapsed interval up to the burst, and keeps the remainder unless it fills the bucket |
| `Pacing.WakingWhenDueDrains` | client/src/driver/lobby.rs:117-141 | A stream that asks until refused at each due instant, so twice, gets one token per refill interval, m of them in m intervals |
| `Lobby.LobbyPacer.TryTake` | client/src/driver/lobby.rs:159-177 | The pacer object is always where its attempts lead; it grants exactly when it has a token or 400 ms have passed, and is left with one per 400 ms more, at most 16, less the one granted |
| `Lobby.LobbyPacer.NextToken` | client/src/driver/lobby.rs:179-186 | The next due instant |
| `Lobby.LobbyOutbox.Author` | client/src/driver/lobby.rs:90-109 | A command is kept unless it is past 1,024 or takes the history past 262,144 bytes, and the i-th kept one carries seq i |
| `Lobby.LobbyOutbox.OpenStream` | client/src/driver/session.rs:100-114 | A new stream starts over from the first command; earlier streams keep their prefixes |
| `Lobby.LobbyOutbox.NextDue` | client/src/driver/lobby.rs:117-121 | A wakeup is due exactly while something is unwritten |
| `Lobby.LobbyOutbox.SendDue` | client/src/driver/lobby.rs:123-141 | The stream carries a growing prefix of the history; each write uses a token; when no write fails, exactly as many go out as there are tokens, counting one per 400 ms since the refill and at most 16, or as are left; stopping short of the history leaves none and the next due instant ahead |
| `Lobby.LobbyOutbox.WakeWhenDue` | client/src/driver/session.rs:282-290 | An outbox out of tokens, woken m times when due, writes m more commands, one refill interval apart |
| `Lobby.SessionWritesAreAdmitted` | client/src/driver/lobby.rs:29-45 | Every lobby write of a whole session that reaches the relay is admitted if the delays of all of them, whatever streams they took, lie within one band 6.6 s wide; no order between them is assumed |
| `Lobby.LobbyReceipts.Admit` | client/src/driver/lobby.rs:207-216 | A sequenced command passes exactly when its (author, seq) never passed before |
| `BeaconCell.StepKeeps` | transport/src/beacon.rs:67-90 | Every atomic step of reader, peer or driver keeps the cell protocol's invariant |
| `BeaconCell.NoLostWakeup` | transport/src/beacon.rs:72-80 | Under every interleaving a driver parked without a permit, with the reader at rest, has nothing to take and no close to learn of |
| `BeaconCell.NewestSurvives` | transport/src/beacon.rs:147-158 | Each folded cursor is pending or dominated by one already handed out |
| `BeaconCell.TerminalMeansDrained` | transport/src/beacon.rs:58-76 | None is returned only after the reader has ended and every folded cursor has been handed out or superseded |
| `BeaconCell.DriverMakesProgress` | transport/src/beacon.rs:67-81 | With the reader at rest, a call that has something to report can step, and every step it can take is its return or lowers a rank and leaves it something to report |
| `BeaconCell.RecvReturns` | transport/src/beacon.rs:67-81 | So the driver alone takes at most four steps and can take another until the call has returned, with a cursor or for good |
| `BeaconCell.LastCursorArrives` | transport/src/beacon.rs:169-185 | End to end: once the stream is read and the cell drained, the driver has been given the newest cursor the writer sent for every slot |
| `BeaconCell.CursorCell.FoldCursor` | transport/src/beacon.rs:149-158 | Reading a frame and then notifying, as two steps of the system: no slot moves backwards, none is lost, and a wakeup is left |
| `BeaconCell.CursorCell.TakePending` | transport/src/beacon.rs:83-89 | One step of the system: some pending cursor is returned and exactly it removed, none exactly when nothing is pending |
| `BeaconCell.CursorCell.Close` | transport/src/beacon.rs:160-167 | Closing and then notifying, as two steps of the system |
| `BeaconCell.CursorCell.Notified` | transport/src/beacon.rs:77-80 | Waking uses the wakeup up, as one step of the system |
| `BeaconCodec.FrameRoundTrips` | proto/src/beacon.rs:63-95 | Decoding an encoded cursor gives it back |
| `BeaconCodec.OnlyFramesDecode` | proto/src/beacon.rs:81-95 | A frame decodes exactly when it is the encoding of the cursor it decodes to |
| `BeaconCodec.FrameLayout` | proto/src/beacon.rs:63-79 | Byte by byte: four bytes of slot, then eight of cursor, least significant first |
| `BeaconCodec.BeaconWriter.Flush` | transport/src/beacon.rs:119-144 | Whatever it is called with, each cursor given is then written or covered by a newer one, unless the write fails; what is written is given, advances its slot and is exactly what advanced; a failed write leaves the record alone; every slot's written cursors climb and the record is the newest of each |
| `BeaconCodec.BeaconWriter.RecordBatch` | transport/src/beacon.rs:119-144 | Reading the batch back out of the write buffer records exactly the cursors written |
| `BeaconCodec.BatchClimbs` | transport/src/beacon.rs:119-144 | Appending what advanced keeps every slot climbing and the record the newest of each |
| `BeaconCodec.AdvancingIsComplete` | transport/src/beacon.rs:119-144 | A cursor is left out only if the record, or one written before it in the batch, covers it, and one that is written is ahead of the record |
| `Commands.CommandIsPrefixDetermined` | proto/src/commands.rs:77-86 | A command's length is read the same whatever follows it |
| `Commands.DeclaredLengthDecides` | proto/src/commands.rs:56-86 | The declared length decides whether a whole command stands at the start |
| `Commands.KnownLengths` | proto/src/commands.rs:37-86 | The lengths of well-known opcodes, of the six count-prefixed ones, and a choice of rejected ones, in plain numbers |
| `Commands.SplitIsUnique` | proto/src/commands.rs:37-86 | A byte stream divides into table commands in at most one way |
| `Commands.StuckHasNoSplit` | relay/src/validation.rs:163-220 | A stream that gets stuck after a divided prefix has no division at all |
| `Validation.ValidateTurn` | relay/src/validation.rs:163-220 | Accepts exactly the turns that divide into table commands and forwards, in order, every one of them but the relay-owned, replay-only and out-of-range hotkey ones, by their literal bytes, under the validated slot with the directive cleared and every other field kept; a rejection points at the first unreadable command |
| `Validation.SanitizingIsIdempotent` | relay/src/validation.rs:238-284 | Validating a forwarded turn again strips nothing and returns it byte for byte; no turn grows, and stripping nothing changes nothing |
| `Validation.KeptIsFixpoint` | relay/src/validation.rs:95-101 | Filtering leaves a division with nothing further to strip |
| `SyncGeneration.SyncGenerationTracker.ObserveNativeRing` | client/src/sync_generation.rs:86-101 | The 16-slot index is unwrapped to the true generation, or the tracker fails, exactly when the index does not fit |
| `SyncGeneration.SyncGenerationTracker.RecordSyncSlot` | client/src/sync_generation.rs:36-59 | A native recording advances the generation by one or fails the tracker |
| `SyncGeneration.SyncGenerationTracker.StampTurn` | client/src/sync_generation.rs:61-84 | Over every run each flush is tagged with the generation its buffer was staged under, not at all without a checksum, and invalid after any inconsistency |
| `SyncGeneration.TagsNeverDecrease` | client/src/sync_generation.rs:61-84 | In a consistent run tags never decrease and none is the invalid one |
| `SyncGeneration.TagCountsRecordings` | client/src/sync_generation.rs:61-84 | In a consistent run a tag is the ring index first observed plus one for every recording before the previous flush, or before this one if it is the first |
| `SyncGeneration.ConsistentExactly` | client/src/sync_generation.rs:36-101 | A run is consistent if and only if every observed index is the first plus the recordings so far, modulo 16, every recording moves it by one, every turn can be framed, and every checksum names the slot its buffer was staged under |
| `SyncGeneration.FailureIsForGood` | client/src/sync_generation.rs:36-101 | After any inconsistency every checksum turn is tagged invalid |
| `SyncGeneration.GenerationIsBounded` | client/src/sync_generation.rs:86-101 | A consistent run never reaches the invalid generation |
| `SyncGeneration.TaggerAgreesWithRelay` | client/src/sync_generation.rs:61-84 | For every turn the relay accepts the client's walk succeeds, reads the ring of the first checksum of the forwarded turn, and finds none exactly when that turn has none |
| `SyncGeneration.ScanReadsFirstSync` | client/src/sync_generation.rs:61-84 | On any divisible turn the walk reads exactly the first checksum command |
| `Directive.SurfacesExactlyTheWinner` | client/src/directive.rs:115-147 | A frame surfaces the highest-ranked stamp observed through it when that stamp names the frame, and nothing otherwise |
| `Directive.WinnerInPlainTerms` | client/src/directive.rs:115-139 | The highest-ranked stamp is the first with the highest seq and, of those, the highest relay id, where having none ranks lowest; there is none exactly when every stamp has seq 0 and no id |
| `Directive.ClientsAgree` | client/src/directive.rs:115-147 | Two clients whose highest-ranked stamps agree by a frame make the same change at it, whatever else each saw or missed |
| `Directive.SameStampsAgree` | client/src/directive.rs:115-147 | In particular clients that saw the same stamps, in any order and multiplicity and from any starting frame |
| `Directive.SurfacedDecisionsRise` | client/src/directive.rs:115-147 | However it is called, surfaced decisions strictly rise, so none surfaces twice |
| `Directive.WinnerIgnoresArrivalOrder` | client/src/directive.rs:115-139 | When equal ranks carry equal directives the winner depends only on which stamps were seen |
| `Directive.DirectiveTracker.ObserveStamp` | client/src/directive.rs:115-139 | The tracker object takes the specified step |
| `Directive.DirectiveTracker.TakeDue` | client/src/directive.rs:141-147 | A poll answers and clears exactly what is due |
| `Reorder.SlotReorder.Observe` | client/src/driver/reorder.rs:56-64 | Buffering an arrival, replayed or stale or out of order, keeps the buffer coherent with everything received and handed over; one not yet handed over is held, in place of any earlier copy |
| `Reorder.SlotReorder.ReleaseInto` | client/src/driver/reorder.rs:70-88 | Each slot's turns go out as 0, 1, 2, ... once each, in any slot order, until the game's channel refuses one: a full channel is a stall and loses nothing, a closed one ends it; after a full release each cursor is the least seq never received |
| `Reorder.SlotReorder.HandOver` | client/src/driver/reorder.rs:70-88 | One attempt hands over exactly the slot's next turn, or puts it back in place, or reports the game gone |
| `Reorder.SlotReorder.IngestFreshTurns` | client/src/driver/inbound.rs:32-48 | A packet's turns with a real slot are buffered and everything contiguous released |
| `Reorder.InRangeExactly` | client/src/driver/inbound.rs:32-48 | Those are all the turns whose slot is below 256, in order, each under its own slot |
| `Reorder.SlotReorder.Cursors` | client/src/driver/reorder.rs:99-104 | The resume cursor of a slot is the number of its turns handed to the game |
| `Reorder.CursorIsLeastMissing` | client/src/driver/reorder.rs:70-88 | Once nothing more can be released the cursor is the least seq never received |
| `Connectivity.ConnectivityFence.Admit` | client/src/driver/connectivity.rs:50-85 | The fence object answers and moves as specified |
| `Connectivity.ConnectivityFence.MarkTerminal` | client/src/driver/connectivity.rs:41-43 | A leave makes the slot terminal |
| `Connectivity.UpsThenDowns` | client/src/driver/connectivity.rs:50-85 | Within an epoch no up passes after a down |
| `Connectivity.EpochsComeInBlocks` | client/src/driver/connectivity.rs:50-85 | A slot's admitted epochs come in contiguous blocks |
| `Connectivity.LaterBlocksOpenUp` | client/src/driver/connectivity.rs:50-85 | Every block but a slot's first opens with an up |
| `Connectivity.ReplayMovesNothing` | client/src/driver/connectivity.rs:50-85 | Replaying any admitted stamped change later leaves the whole fence as it is |
| `Connectivity.NoUnstampedAfterStamped` | client/src/driver/connectivity.rs:50-85 | No epoch-less change passes after a stamped one |
| `Connectivity.NothingAfterLeave` | client/src/driver/connectivity.rs:41-57 | Nothing passes for a slot after its leave |
| `Connectivity.FirstReportPasses` | client/src/driver/connectivity.rs:57-83 | For a slot that has not left, everything passes until its first stamped report, and that passes whatever it says |
| `Connectivity.NewEpochPasses` | client/src/driver/connectivity.rs:69-76 | An up under an epoch never reported for the slot passes |
| `Connectivity.LiveEpochPasses` | client/src/driver/connectivity.rs:61-68 | Under the epoch a slot was last admitted with, a down passes, and an up exactly while it is up |
| `SequenceRing.SequenceBuffer.InsertEntry` | transport/src/sequence_buffer.rs:71-87 | The two arrays hold exactly the map the operations define; an insert is accepted unless it is a capacity or more behind |
| `SequenceRing.SequenceBuffer.RemoveEntry` | transport/src/sequence_buffer.rs:89-100 | Removes and returns exactly the entry of that seq |
| `SequenceRing.SequenceBuffer.Get` | transport/src/sequence_buffer.rs:48-56 | A lookup is the map's |
| `SequenceRing.SequenceBuffer.Exists` | transport/src/sequence_buffer.rs:42-45 | Membership is the map's |
| `SequenceRing.SequenceBuffer.AdvanceTo` | transport/src/sequence_buffer.rs:102-112 | A move forward empties the ring on a full turn and otherwise clears nothing |
| `SequenceRing.SequenceBuffer.RemoveEntriesInclusive` | transport/src/sequence_buffer.rs:114-134 | A range ahead of everything stored removes nothing unless it spans the ring |
| `SequenceRing.FoundExactlyWhenStored` | transport/src/sequence_buffer.rs:42-100 | A seq is found exactly when an accepted insert of it is uncleared, with that insert's value and never an alias's |
| `SequenceRing.LateInsertKeepsNewer` | transport/src/sequence_buffer.rs:71-87 | A late insert never displaces a newer entry |
| `SequenceRing.RetainedWithinCapacity` | transport/src/sequence_buffer.rs:69-87 | An entry that nothing inserted before it was ahead of by a capacity less one, and that nobody re-inserts or removes, stays retrievable while everything later is less than one capacity ahead |
| `SequenceRing.AcceptsExactly` | transport/src/sequence_buffer.rs:74-78 | An insert is accepted exactly when everything inserted before it is less than a capacity less one ahead |
| `SequenceRing.InsertExactly` | transport/src/sequence_buffer.rs:71-87 | A refused insert changes nothing; one that turns the ring over is all that is found; any other takes the place of what shared its position and nothing else |
| `SequenceRing.GapLeavesStaleEntry` | transport/src/sequence_buffer.rs:129-132 | A run in which an entry more than one capacity old is still found |
| `SequenceRing.GaplessRunsStayFresh` | transport/src/sequence_buffer.rs:102-134 | A run that never inserts ahead of the next free seq leaves nothing stale, whatever it inserts late or removes |
| `SequenceRing.StaysFreshExactly` | transport/src/sequence_buffer.rs:114-134 | An insert leaves nothing stale exactly when it is no forward move, a full turn, or everything it leaves a capacity behind sits at its own position |
| `Phase.SlewBounds` | client/src/phase.rs:89-106 | For any poll schedule the delay never overshoots, moves at most rate times elapsed, and short of the target moves more than half of it less a microsecond at the safe rates or on a whole-microsecond clock, and less a grain-dependent share otherwise |
| `Phase.HalfRateExactly` | client/src/phase.rs:89-106 | At a rate, more than half of what the time allows, less a microsecond, is covered on every schedule short of the target if and only if the longest wait that moves nothing is worth less than a microsecond and the longest that moves one no more than two |
| `Phase.DivisorsAreSafe` | client/src/phase.rs:89-106 | Every rate that divides a million meets that condition |
| `Phase.ShippedRatesAreSafe` | client/src/phase.rs:20-28 | The default rate and both bounds always cover half; 9,999 does not |
| `Phase.HalfRateFailsOnFineClock` | client/src/phase.rs:89-106 | A schedule of polls that moves less than half of what the rate allows |
| `Phase.RetargetReachesBackExactly` | client/src/phase.rs:73-85 | For every retarget: a later poll moves further than the new rate allows for the time since, if and only if some time had passed in which less than a whole microsecond was due and the new rate can buy some of the distance to the new target with it |
| `Phase.LeftoverTimeReachesBack` | client/src/phase.rs:73-85 | At a new rate that divides a million that is exactly when time was left over and there is any way to go; at any rate, exactly when time was left over once the way to go is what the rate covers in a second |
| `Phase.OtherwiseKeepsToItsRate` | client/src/phase.rs:73-85 | A slew that does not reach back never moves further than its rate allows for the time since the retarget, whatever the polls |
| `Phase.LeftoverIsSmall` | client/src/phase.rs:73-85 | What is left over was worth about a microsecond at most at the old rate |
| `Phase.RateChangeReachesBack` | client/src/phase.rs:78-106 | A retarget after which 9 ms that bought nothing at the old rate move 90 us at the new one |
| `Phase.PhaseSlew.AdvanceTo` | client/src/phase.rs:89-106 | The slew object takes the specified step, 64-bit saturation included |
| `Phase.PhaseSlew.RetargetTo` | client/src/phase.rs:78-85 | The slew object first moves toward the old target at the old rate, then takes the commanded target, at most 100 ms, and rate, 2,000 if none and otherwise within 100 and 10,000 |
| `Phase.Retarget` | client/src/phase.rs:78-85 | Whatever a directive says, delay and rate stay in range |

## Left out

- Dialing, certificates, sockets, tokens and the QUIC stack; a dial is a parameter and section 2.2 of RFC 9000 is assumed for ordered streams.
- `Link` and `AckManager` packing, redundancy and packet acks: the link is its set of unacked seqs, which only acks shrink, plus a fixed answer to which turns fit a datagram.
- Protobuf sizes: which turns fit a datagram is a parameter, the same on every connection, as `transport/src/ack_manager/sent.rs:129-138` and the refusal of smaller paths make it.
- The error of a link that supports no datagrams, or none as large as the guaranteed size: every way of establishing a connection refuses such a peer, so no session holds one.
- The window cap that ends a session: it ends a run and adds no step.
- Which select arm is ready when: any arm may fire at any time, acks may come while the link is down, and the flags that disarm an arm are not modelled. The modelled runs are a superset of the driver's, so what holds of all of them holds of the driver's.
- When the leave timeout fires: a forced intent may come at any time while one is pending.
- The backoff schedule, its jitter, address rotation and fresh ports: only what a wait, a failed dial or an answer does to the session is modelled, not when it happens.
- The two settle waits of a teardown: they only bound time.
- Pacing.EveryArrivalIsAdmitted: both clocks run at the same speed, and the relay's interval is a whole number of milliseconds, as its arithmetic assumes.
- LinkDriver.Driver.SendGameTurn: the 64-bit seq counter is unbounded.
- Lobby.LobbyReceipts.Admit: what a full or closed game channel does after a command passed is not modelled.
- Validation.ValidateTurn: the count of stripped commands is unbounded, where the source counts in 32 bits.
- Chat, skins, drop requests, latency and region reports: best-effort pass-through.
- Consensus, mesh routing, the coordinator and the load generator.
