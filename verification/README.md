# Firmware transfer and its plumbing, verified

The system moves firmware from an add-on, over a bridge, to leaf nodes on a lossy radio. The add-on
compiles firmware in a queue, talks to the bridge over a WebSocket or a serial line in hand-written
protobuf, and feeds it the file in batches of chunks. The bridge runs a transfer protocol with one
leaf: it announces the file, agrees on a geometry, blasts one increment of chunks at a time, asks with
BLAST_COMPLETE which are missing, sends those again, and ends. The leaf buffers an increment, writes it
to flash, and installs the image. This project models that chain in Dafny and proves what it is meant
to guarantee, and exactly where it does not.

## Layout

- `Geometry`, `GapBitmap`: how a file is cut into chunks and increments in 16-bit fields; the bitmap of received chunks.
- `Transfer`, `TransferMoves`, `TransferInvariants`: the bridge's protocol as a state machine on values, its elementary moves, and what each keeps.
- `TransferRuns`, `TransferTheorems`, `CooperativeRuns`, `BridgeRounds`, `EndlessRuns`: whole runs of the bridge with nothing assumed of leaf, radio or source, and the runs that show where its promises stop.
- `Patience`, `BridgeRules`, `BridgeClock`: how often the bridge asks again and what it can then still be told, all that ends a transfer, and its time stamps and ticks, on values.
- `OtaManager`: the manager class with its fields, timers and loops; every public method is shown to be one step of the state machine, so the results about runs are results about the class.
- `LeafRules`, `LeafClock`: all the leaf's answers and what ends a transfer for it; its time stamps, on values.
- `Leaf`, `FileReceiver`: the leaf's receiver as a state machine on values, and the class with its byte buffer and bitmap updated in place that implements it.
- `EndToEnd`, `SuccessfulRuns`, `LostAnswers`, `Recovery`: bridge and leaf together over a radio that loses, repeats and reorders, the runs in which a transfer succeeds or is reported to, what a lost acknowledgement can cost, and what can be made good again.
- `ChunkWindow`, `WindowRules`, `ChunkTransport`, `Crc32`, `CrcStandard`: batches of chunks between add-on and bridge, the classes at both ends, the checksum on the chunks, and the standard's definition of it.
- `ChunkExchange`, `LostBatches`, `LostConnections`: requests and answers under way, and what is lost with a batch, a request or a connection.
- `Cobs`, `CobsLaws`, `Framing`, `SerialLine`, `SerialAuth`, `Protobuf`, `ProtoMessages`, `WebSocket`, `WireExamples`: the codecs underneath and the bridge's serial session, as specifications and as the loops that implement them.
- `BatchDelivery`: a batch carried through all of them, from the file's bytes to the transfer's queue.
- `CtrMode`, `Hkdf`: counter mode and key expansion around an arbitrary block cipher and an arbitrary hash.
- `CompileQueue`: the job table, its queues and the compile worker.
- `Bytes`, `Octets`, `Options`, `Quotients`, `Seqs`: small shared definitions.

`dafny verify dfyconfig.toml` checks everything.

## Main results

- *What a report of success means.* Over every run of bridge and leaf, whatever the radio does, however often either side starts over, and whatever the flash driver refuses, the bridge reports SUCCESS only after the leaf has found exactly the file in its flash, unless a report for an earlier file was left over (`EndToEnd.SuccessMeansInstalled`). For two files in turn that proviso is exact: success can be trusted in every run if and only if no successful report with the same action is left over (`SuccessfulRuns.TrustworthyIff`). What the leaf then boots is the file if and only if, since its last good END, no announcement was accepted before a reboot, or a reboot had already taken the file over. This proviso is needed too: `SuccessfulRuns.SuccessWithoutImage` is a run that ends in SUCCESS with the leaf at the beginning of a new transfer, about to boot what it ran before. While the bridge is in its end phase, a leaf that has not dropped the transfer holds the whole file, exactly unless its flash took bytes twice (`EndToEnd.EndingMeansImage`). A success can be reached if and only if the file begins with the image magic or an old report is on the air (`SuccessfulRuns.TransferableIff`). These hold for announced sizes the 16-bit fields can express, unused transmission counters, and a source that answers with the file's bytes.
- *Where the code falls short.* Properties one would expect that are false as the code stands, with the exact conditions under which they hold:
  - The bridge ends a transfer with everything sent if and only if the file is at most `65535 * chunks per increment * chunk size` bytes (`CooperativeRuns.EndMeansAllIff`). A larger one, still below the 1 GiB limit, loses its tail silently, because the increment count is stored in 16 bits.
  - A COMPLETE is believed in every busy phase, without a reference to the transfer it belongs to. Left over from an earlier file (the leaf repeats it five times), it ends a new transfer as successful with nothing sent (`TransferTheorems.SuccessTooEarly`). A believed COMPLETE finds everything sent if and only if the bridge is in its end phase, or in the last increment with nothing left to send for the first time (`TransferTheorems.SuccessMeansAllSentIff`).
  - The leaf repeats a refused increment from its start without taking back what was already written. In every run, a received file can be booted if and only if the checks pass and the driver answered every increment cleanly: it took all of its chunks at once, or refused the first and then took all (`EndToEnd.EndsWellIff`). Bytes go to flash twice exactly when a write after an increment's first is refused (`Leaf.RepeatsIff`, `Leaf.BufferTwiceIff`).
  - A leaf that waits for the END answers no BLAST_COMPLETE any more. If neither side starts over, the bridge gets from there to its end phase if and only if an answer to the last increment that it still remembers asking for is on the air (`LostAnswers.EndsIff`); losing that answer after a faultless run costs the transfer (`LostAnswers.LossCanDoom`).
  - The bridge asks only for what its last request did not ask for, so what is lost between add-on and bridge is never asked for again. A request that has been made can still be served if and only if nothing of it and of its answer has been lost (`LostBatches.ServedUnlessLost`); one lost batch, such as a damaged serial frame, leaves the transfer waiting until it is given up (`LostBatches.OneLossStrands`).
  - A lost WebSocket session takes the rest of an answer with it. At whatever moment that happens, the transfer survives if and only if it then wants something that the last request did not ask for, or wants nothing and nothing of the last request can be wanted again (`LostConnections.SurvivesIff`). In the middle of an answer it does not survive (`LostConnections.LostMidAnswer`). With the whole answer delivered it survives if and only if the bridge has looked since, or the increment has no retransmission left (`LostConnections.SafeAtRest`, `LostConnections.LookMakesSafe`): otherwise a retransmission that begins while the client is away wants only what was asked for before. If the bridge closed the connection itself, even a new request is lost once the bridge has looked without a client (`LostConnections.ClosedAsksInVain`). This is about the WebSocket: a serial session that is reset keeps its request.
  - The bridge has no defence against a client that goes on answering an earlier request, which the add-on of this repository does not do. On a steady connection, what the transfer wants can still reach it if and only if only the answer waited for is coming, or one stale batch and nothing else (`ChunkExchange.ServedIff`); after two stale batches every request is outdated before it is answered (`ChunkExchange.TwoStaleBatches`).
  - The work of a transfer is bounded if and only if its increments can be counted in 16 bits. Of a larger file, a leaf that answers every increment with a full bitmap keeps the bridge sending for as long as its timers let it: after increment 65535 comes increment 0 (`EndlessRuns.WorkIsBoundedIff`).
  - A serial link goes deaf. A fresh link does in one turn of the loop (`SerialLine.DeafInOneTurn`), and any link does in a turn exactly when what fits into the buffer fills it without a delimiter and no authenticated session can time out (`SerialLine.DeafenedIff`). Exactly a deaf link handles no frame ever again (`SerialLine.DeafIff`); with an authenticated session only a minute of silence clears a full buffer (`SerialLine.FullIsStuck`).
- *A full bitmap is not an end.* At the last increment, only an acknowledgement with an empty bitmap takes the bridge to its end phase, and exactly one with a bitmap that is not empty but shows no gap strands it past the last increment (`TransferTheorems.LastAnswerIff`), until it times out (`TransferTheorems.StrandedUntilStopped`). The leaf of this repository never sends one (`EndToEnd.MoveIsAllowed`).
- *What can be made good again.* As long as bridge and leaf are both in the transfer, the leaf is not behind, and questions and rounds are left, it can still be brought to its end, whatever the radio has lost so far (`Recovery.ResumesFromAnywhere`); in particular a lost answer for an increment that the leaf has in flash is repeated (`Recovery.LostAnswerIsRepeated`). A round survives the loss of its first `n` answers if and only if `n < 20`, an announcement and the end of the file if and only if `n < 3` (`Patience.LostAnswersIff`), and with nothing but ticks that takes 20 seconds at least (`BridgeClock.NotTooSoon`).
- *Who is authenticated.* Over all the serial line may bring, the session is authenticated if and only if a handled frame answered the challenge of its time and neither a hello nor a minute of silence has come since (`SerialAuth.AuthenticatedIff`).
- *The checksum is the standard's.* For all data, what the bitwise loop computes is the remainder of polynomial division that IEEE 802.3 defines on bits (`CrcStandard.ChecksumIsStandard`).
- *From the file to the queue.* What the add-on puts on the serial line in answer to a request, however the bridge's turns cut it, makes the bridge take every batch, queue each chunk asked for exactly once with the file's own bytes, and close the request (`BatchDelivery.RequestServedOverTheLine`).
- *Bounds.* A transfer sends at most 11 data frames a chunk and 220 BLAST_COMPLETEs an increment in all, and changes state at most `264 * size + 8` times (`TransferTheorems.WorkIsBounded`); each single increment keeps to its own share (`TransferTheorems.IncrementIsBounded`).

## Model

| member | source | states |
|---|---|---|
| Geometry.ExactIff | device_code/components/esp_tree_bridge/bridge_ota_manager.cpp:628-662 | the stored 16-bit geometry is the intended one iff the file is at most 65535 increments long |
| Geometry.NegotiatedFacts | device_code/components/esp_tree_bridge/bridge_ota_manager.cpp:628-662 | chunks just cover the file, the last increment is never empty, and the counts stay in their widths; a truncated count leaves at least 65535 chunks out of reach |
| Geometry.IncrementShape | device_code/components/esp_tree_bridge/bridge_ota_manager.cpp:87-100 | increments are non-empty and adjacent, and the last ends at the last chunk iff the geometry is exact |
| Geometry.CoversIffExact | device_code/components/esp_tree_bridge/bridge_ota_manager.cpp:87-100 | the increments cover every chunk iff the geometry is exact; otherwise the last chunk is in none |
| Geometry.IncrementFillsBuffer | device_code/components/esp_tree_bridge/bridge_ota_manager.cpp:628-662 | an increment is as many chunks as fit into the leaf's buffer, one if none does |
| Geometry.Locate | device_code/components/esp_tree_bridge/bridge_ota_manager.cpp:87-100 | in an exact geometry each chunk is in exactly one increment |
| Geometry.ChunkShape | device_code/components/esp_tree_bridge/bridge_ota_manager.cpp:883-893 | chunk byte ranges have 1 to chunk-size bytes, touch, and end with the file |
| Geometry.SlicesFlatten | device_code/components/esp_tree_bridge/bridge_ota_manager.cpp:883-893 | consecutive chunks put together are the file between their offsets |
| GapBitmap.GapsAreTheMissing | device_code/components/esp_tree_bridge/bridge_ota_manager.cpp:739-750 | whatever the order and repetition of arrivals, the gaps read from the leaf's bitmap are the increment minus what arrived |
| GapBitmap.Mark | device_code/components/esp_tree_remote/remote_file_receiver.cpp:50-57 | marking sets one bit, leaves the others, and is nothing outside the bitmap |
| GapBitmap.BitOrder | device_code/components/esp_tree_remote/remote_file_receiver.cpp:40-57 | bit `k` of a byte is the one `k` places from the right |
| TransferMoves.EventPath | device_code/components/esp_tree_bridge/bridge_ota_manager.cpp:106-321 | every event of the bridge is at most two elementary moves, each of a kind that only that event explains |
| TransferInvariants.StepKeepsRegular | device_code/components/esp_tree_bridge/bridge_ota_manager.cpp:106-321 | every event keeps the protocol invariant, with the chunks of the round split between requested, queued and sent |
| TransferInvariants.AskChangesNothing | device_code/components/esp_tree_bridge/bridge_ota_manager.cpp:536-553 | the re-request at the start of a tick never changes anything |
| TransferInvariants.SkipKeepsRegular | device_code/components/esp_tree_bridge/bridge_ota_manager.cpp:752-765 | the advance on a bitmap without gaps, which skips the last-increment test, keeps the invariant in its stuck form |
| TransferRuns.MoveLowersRank | device_code/components/esp_tree_bridge/bridge_ota_manager.cpp:255-321 | every move that changes the bridge lowers a measure of increments, rounds, chunks and retries left |
| TransferRuns.MoveKeepsBounded | device_code/components/esp_tree_bridge/bridge_ota_manager.cpp:536-601 | every move keeps the frames sent within what the rounds so far allow |
| TransferTheorems.EndingMeansAllDelivered | device_code/components/esp_tree_bridge/bridge_ota_manager.cpp:555-731 | with nothing assumed of the leaf, the end phase is entered only after every chunk has been taken by the radio |
| TransferTheorems.AlwaysConserved | device_code/components/esp_tree_bridge/bridge_ota_manager.cpp:158-181 | in every reachable state the round's chunks are split without loss or overlap between requested, queued and sent |
| TransferTheorems.WorkIsBounded | device_code/components/esp_tree_bridge/bridge_ota_manager.cpp:734-779 | over a whole transfer at most 11 data frames for each chunk, 220 BLAST_COMPLETEs for each increment, and a number of effective events linear in the file size |
| EndlessRuns.WorkIsBoundedIff | device_code/components/esp_tree_bridge/bridge_ota_manager.cpp:752-765 | there is a bound on the data frames of all runs of a transfer iff the file is within the 16-bit increment count |
| TransferTheorems.IncrementIsBounded | device_code/components/esp_tree_bridge/bridge_ota_manager.cpp:734-779 | from whenever on it is watched, a single increment costs at most 11 data frames for each of its chunks and 220 BLAST_COMPLETEs |
| TransferTheorems.PercentNeverFalls | device_code/components/esp_tree_bridge/bridge_ota_manager.cpp:700-716 | the reported percentage never falls, stays at most 99, and is 99 in the end phase |
| TransferTheorems.HundredMeansSuccess | device_code/components/esp_tree_bridge/bridge_ota_manager.cpp:782-804 | the report becomes 100 iff a successful COMPLETE arrives while busy |
| TransferTheorems.SuccessMeansAllSentIff | device_code/components/esp_tree_bridge/bridge_ota_manager.cpp:242-244 | a successful COMPLETE, believed in any busy phase, finds every chunk sent iff the bridge is in its end phase or has nothing of the last increment left to send for the first time |
| TransferTheorems.SuccessTooEarly | device_code/components/esp_tree_bridge/bridge_ota_manager.cpp:242-244 | a left-over COMPLETE ends a new transfer as successful with nothing sent |
| TransferTheorems.LastAnswerIff | device_code/components/esp_tree_bridge/bridge_ota_manager.cpp:718-765 | waiting for the answer to the last increment, of all events only an empty bitmap leads to the end phase, and exactly a non-empty one without gaps leads past the end |
| TransferTheorems.StrandedUntilStopped | device_code/components/esp_tree_bridge/bridge_ota_manager.cpp:536-601 | from there nothing changes until something stops the transfer |
| CooperativeRuns.EndIsReachable | device_code/components/esp_tree_bridge/bridge_ota_manager.cpp:603-731 | every acceptable answer of a leaf can be followed by a run to the end phase |
| CooperativeRuns.EndMeansAllIff | device_code/components/esp_tree_bridge/bridge_ota_manager.cpp:628-662 | every run that ends has sent the whole file iff the file is within the 16-bit increment count |
| BridgeRules.OverIff | device_code/components/esp_tree_bridge/bridge_ota_manager.cpp:191-465 | a transfer is over exactly at the events listed; it has failed unless success is reported; and the leaf is sent an abort exactly when it neither ended the transfer itself nor is unreachable |
| BridgeRules.FirstInFirstOut | device_code/components/esp_tree_bridge/bridge_ota_manager.cpp:158-181 | over any run of a transfer the chunks go out once each, unchanged, in the order in which the source brought them |
| BridgeRules.FirstAsk | device_code/components/esp_tree_bridge/bridge_ota_manager.cpp:555-731 | a question put for the first time has gone out exactly once |
| BridgeRules.OldAnswersForgotten | device_code/components/esp_tree_bridge/bridge_ota_manager.cpp:718-779 | a new round or increment can be answered for its own questions only, except after a bitmap without gaps |
| BridgeRules.PercentIs | device_code/components/esp_tree_bridge/bridge_ota_manager.cpp:700-716 | the report after an increment is the share of the file in the increments so far, rounded down, at most 99 |
| Patience.HoldsOutIff | device_code/components/esp_tree_bridge/bridge_ota_manager.cpp:279-321 | over any run of timeouts, whatever the radio answers, the bridge has only asked again, or has given up, as the number of questions and the radio's answers decide |
| Patience.SurvivesIff | device_code/components/esp_tree_bridge/bridge_ota_manager.cpp:279-321 | after any run of timeouts the question can still be answered iff the bridge has held out |
| Patience.LostAnswersIff | device_code/components/esp_tree_bridge/bridge_ota_manager.cpp:297-303 | a round survives the loss of its first n answers iff n < 20, an announcement or an end iff n < 3 |
| Patience.LastEightAnswerable | device_code/components/esp_tree_bridge/bridge_ota_manager.cpp:413-420 | of a round's questions the last eight can still be answered, and no older one |
| BridgeClock.AskedAgainIff | device_code/components/esp_tree_bridge/bridge_ota_manager.cpp:297-303 | a waiting bridge asks again at exactly the ticks a second or more after it last asked, unless the radio is to be spared |
| BridgeClock.StampsAreTimes | device_code/components/esp_tree_bridge/bridge_ota_manager.cpp:350-520 | over any run of a transfer each time stamp is the time at which what it stands for last happened: a chunk out, a question, an announcement or end, a sign of the leaf |
| BridgeClock.ControlAgainIff | device_code/components/esp_tree_bridge/bridge_ota_manager.cpp:282-317 | an announcement or end is put at exactly the ticks five seconds or more after the last, or at the first if none has gone out |
| BridgeClock.NotTooSoon | device_code/components/esp_tree_bridge/bridge_ota_manager.cpp:255-321 | with nothing but ticks, a bridge that has asked k times gives the round up only 21 - k seconds after its last question or later |
| BridgeClock.BackoffGrows | device_code/components/esp_tree_bridge/bridge_ota_manager.cpp:854-863 | waits after memory shortages double up to the eighth and keep within the maximum |
| OtaManager.OtaManager.constructor | device_code/components/esp_tree_bridge/bridge_ota_manager.h:119-160 | the manager starts idle, with its clock at a standstill and the default limits |
| OtaManager.OtaManager.StartTransfer | device_code/components/esp_tree_bridge/bridge_ota_manager.cpp:106-156 | the class method is the state machine's start event, sets the time stamps it should, and says whether it has started |
| OtaManager.OtaManager.OnSourceChunk | device_code/components/esp_tree_bridge/bridge_ota_manager.cpp:158-181 | a source chunk is queued iff it is requested and has the expected length |
| OtaManager.OtaManager.OnSourceAbort | device_code/components/esp_tree_bridge/bridge_ota_manager.cpp:183-189 | an abort fails a busy transfer and tells the leaf |
| OtaManager.OtaManager.OnFileAck | device_code/components/esp_tree_bridge/bridge_ota_manager.cpp:191-253 | an acknowledgement is the state machine's acknowledgement event, stale ones included, with its effect on the time stamps; one from another leaf or to an idle bridge is not handled |
| OtaManager.OtaManager.Loop | device_code/components/esp_tree_bridge/bridge_ota_manager.cpp:255-321 | a tick is the one event the time stamps select, puts exactly that event's frames on the air, and leaves the time stamps that event calls for |
| OtaManager.OtaManager.TrySendAnnounce | device_code/components/esp_tree_bridge/bridge_ota_manager.cpp:350-393 | announcing, for every answer of the radio, with the time stamps it leaves |
| OtaManager.OtaManager.TrySendBlastComplete | device_code/components/esp_tree_bridge/bridge_ota_manager.cpp:395-429 | closing a round, with the history cut to eight counters and the time of asking |
| OtaManager.OtaManager.TrySendEnd | device_code/components/esp_tree_bridge/bridge_ota_manager.cpp:431-465 | ending, for every answer of the radio |
| OtaManager.OtaManager.SendChunk | device_code/components/esp_tree_bridge/bridge_ota_manager.cpp:488-520 | a queued chunk always fits a frame, so the size check never aborts |
| OtaManager.OtaManager.RequestIncrementChunks | device_code/components/esp_tree_bridge/bridge_ota_manager.cpp:522-534 | requests the increment, or the gaps in a retransmit round |
| OtaManager.OtaManager.PumpBlasting | device_code/components/esp_tree_bridge/bridge_ota_manager.cpp:536-553 | the re-request of a tick |
| OtaManager.OtaManager.PumpQueuedChunks | device_code/components/esp_tree_bridge/bridge_ota_manager.cpp:555-601 | sends one chunk, and the BLAST_COMPLETE when it was the last |
| OtaManager.OtaManager.HandleAccept | device_code/components/esp_tree_bridge/bridge_ota_manager.cpp:603-677 | takes up a valid answer and fails on any other |
| OtaManager.OtaManager.HandleGapsAck | device_code/components/esp_tree_bridge/bridge_ota_manager.cpp:679-780 | advances, retransmits, ends or fails as the bitmap says |
| OtaManager.OtaManager.ReadGaps | device_code/components/esp_tree_bridge/bridge_ota_manager.cpp:739-750 | the loop over the bitmap finds the gap set |
| OtaManager.OtaManager.HandleComplete | device_code/components/esp_tree_bridge/bridge_ota_manager.cpp:782-804 | success or failure as reported |
| OtaManager.OtaManager.FailTransfer | device_code/components/esp_tree_bridge/bridge_ota_manager.cpp:819-830 | failing keeps the percentage, reports failure, and aborts the leaf if asked to |
| OtaManager.OtaManager.Reset | device_code/components/esp_tree_bridge/bridge_ota_manager.cpp:832-852 | back to idle with the public report kept |
| OtaManager.OtaManager.MarkNoMemBackoff | device_code/components/esp_tree_bridge/bridge_ota_manager.cpp:854-863 | the doubling loop computes the back-off |
| OtaManager.OtaManager.ExpectedChunkLen | device_code/components/esp_tree_bridge/bridge_ota_manager.cpp:883-893 | the expected length is that of the geometry and at most the negotiated size |
| Leaf.DataKeepsRight | device_code/components/esp_tree_remote/remote_file_receiver.cpp:345-397 | the buffer holds the file's chunks at their places, and the bitmap shows exactly those |
| Leaf.FullBuffer | device_code/components/esp_tree_remote/remote_file_receiver.cpp:399-424 | a complete buffer, as handed to flash, continues the file where the previous increment ended |
| Leaf.IncompleteShows | device_code/components/esp_tree_remote/remote_file_receiver.cpp:245-297 | an incomplete increment is always acknowledged with a bitmap that has a gap |
| Leaf.WriteRight | device_code/components/esp_tree_remote/remote_file_receiver.cpp:399-462 | an increment written, with or without a repeated pass, is in flash after what was there, plus what was written twice |
| Leaf.RepeatsIff | device_code/components/esp_tree_remote/remote_file_receiver.cpp:424-462 | bytes are written twice exactly when the first pass is refused after its first part, which for the first increment begins with the magic |
| Leaf.BufferTwiceIff | device_code/components/esp_tree_remote/remote_file_receiver.cpp:399-462 | a full buffer written in the end is written twice in part exactly when the driver took some of its chunks and then refused one |
| Leaf.InstalledIff | device_code/components/esp_tree_remote/remote_file_receiver.cpp:299-329 | a received transfer is set to be booted, as the file itself, iff the checks pass and flash answered every increment cleanly |
| LeafRules.AnnounceAnswered | device_code/components/esp_tree_remote/remote_file_receiver.cpp:128-243 | an announcement is accepted, with chunk size, buffer and action, iff it is new and can be taken or is the one accepted before; any other is rejected and changes nothing |
| LeafRules.AskAnswered | device_code/components/esp_tree_remote/remote_file_receiver.cpp:245-297 | an ask is answered iff it is about the increment being received or an earlier one: with what has been received, or with nothing missing |
| LeafRules.DropsIff | device_code/components/esp_tree_remote/remote_file_receiver.cpp:245-341 | a busy leaf drops its transfer exactly on an abort, an ask it cannot answer any more, or a bad end, and says so unless the bridge has |
| LeafClock.SilenceIff | device_code/components/esp_tree_remote/remote_file_receiver.cpp:484-530 | over any run of a transfer the leaf gives the bridge up iff its last sign is more than ten seconds old, chunks that are not wanted not counted |
| LeafClock.FiveReports | device_code/components/esp_tree_remote/remote_file_receiver.cpp:484-499 | success is reported five times, at least a second apart |
| EndToEnd.BlastCompleteRight | device_code/components/esp_tree_remote/remote_file_receiver.cpp:245-297 | the leaf's answer to a BLAST_COMPLETE is true of its flash |
| EndToEnd.MoveIsAllowed | device_code/components/esp_tree_bridge/bridge_ota_manager.cpp:224-239 | filtered by the history, an answer lets the bridge advance only past an increment the leaf has, and the skipping branch is never taken |
| EndToEnd.ActionKeepsRight | device_code/components/esp_tree_bridge/bridge_ota_manager.cpp:224-239 | every action of bridge, leaf or radio keeps the joint invariant |
| EndToEnd.EndingMeansImage | device_code/components/esp_tree_bridge/bridge_ota_manager.cpp:679-731 | in the end phase a leaf that has not dropped the transfer holds the whole file, and exactly that iff its flash answered every increment cleanly |
| EndToEnd.EndsWellIff | device_code/components/esp_tree_remote/remote_file_receiver.cpp:299-329 | in every run a received file can be booted iff the checks pass and, increment by increment, flash took all chunks at once or refused the first |
| EndToEnd.SuccessMeansInstalled | device_code/components/esp_tree_bridge/bridge_ota_manager.cpp:782-804 | with no old report left over, a report of success implies that the leaf found exactly the file good; the leaf boots it next iff no announcement has been accepted since without a reboot between, or a reboot had taken it over |
| SuccessfulRuns.SuccessIsReachable | device_code/components/esp_tree_bridge/bridge_ota_manager.cpp:106-321 | for every such file some run of source, bridge, radio and leaf ends in a report of success with the file about to be booted |
| SuccessfulRuns.TransferableIff | device_code/components/esp_tree_remote/remote_file_receiver.cpp:782-787 | a report of success can be reached iff the file begins with the image magic or an old report is on the air |
| SuccessfulRuns.TrustworthyIff | device_code/components/esp_tree_bridge/bridge_ota_manager.cpp:242-244 | that success is reported only for a file the leaf has found good is true of all runs iff no report of success with the same action is left over |
| SuccessfulRuns.SuccessWithoutImage | device_code/components/esp_tree_remote/remote_file_receiver.cpp:331-341 | a run in which bridge and leaf start over between a good END and the reboot ends in a report of success with the staged image erased |
| LostAnswers.EndsIff | device_code/components/esp_tree_remote/remote_file_receiver.cpp:245-248 | with the leaf waiting for the END and none on the air, the bridge reaches its end phase without either side starting over iff a remembered answer to the last increment has not been lost |
| LostAnswers.LossCanDoom | device_code/components/esp_tree_remote/remote_file_receiver.cpp:245-248 | after a faultless run, losing the acknowledgements then means that no further patient run reaches the end phase |
| Recovery.LostAnswerIsRepeated | device_code/components/esp_tree_remote/remote_file_receiver.cpp:253-258 | while the leaf is still receiving, whatever acknowledgements are lost, a bridge with questions left that waits for an increment the leaf has in flash gets to its next increment |
| Recovery.ResumesFromAnywhere | device_code/components/esp_tree_bridge/bridge_ota_manager.cpp:255-321 | from any state of bridge and leaf, whatever has been lost, in which both are in the transfer, the leaf is not behind and questions and rounds are left, a run without starting over leads to its end |
| Recovery.StartsFromAnywhere | device_code/components/esp_tree_bridge/bridge_ota_manager.cpp:279-289 | with an announcement or its acceptance lost and attempts left, such a run leads to the transfer's end |
| Recovery.EndSucceeds | device_code/components/esp_tree_remote/remote_file_receiver.cpp:299-329 | from its end such a run leads to a report of success with the file set to be booted, if flash holds nothing twice |
| FileReceiver.Position | device_code/components/esp_tree_remote/remote_file_receiver.cpp:383-396 | a chunk's place is inside the buffer, in truncated geometries too, so the bounds check never drops a chunk |
| FileReceiver.StoredNext | device_code/components/esp_tree_remote/remote_file_receiver.cpp:389-396 | copying a chunk in leaves every other chunk in the buffer whole |
| FileReceiver.WriteLenIs | device_code/components/esp_tree_remote/remote_file_receiver.cpp:408-424 | the length written for a position is the chunk's own, and never zero |
| FileReceiver.ReadBack | device_code/components/esp_tree_remote/remote_file_receiver.cpp:406-430 | the slices handed to flash are the chunks received |
| FileReceiver.FileReceiver.HandleAnnounce | device_code/components/esp_tree_remote/remote_file_receiver.cpp:128-243 | accepts, accepts again, or rejects |
| FileReceiver.FileReceiver.HandleFileData | device_code/components/esp_tree_remote/remote_file_receiver.cpp:345-397 | a chunk of the current increment is buffered once, in place, and counts as a sign of the bridge |
| FileReceiver.FileReceiver.WriteBuffer | device_code/components/esp_tree_remote/remote_file_receiver.cpp:406-462 | one pass over the buffer, up to the first refusal |
| FileReceiver.FileReceiver.WriteIncrementToFlash | device_code/components/esp_tree_remote/remote_file_receiver.cpp:399-482 | a pass, a repeated pass, then the next increment, the end or an abort |
| FileReceiver.FileReceiver.OnData | device_code/components/esp_tree_remote/remote_file_receiver.cpp:772-809 | what flash takes is what the handler and the driver both take |
| FileReceiver.FileReceiver.HandleBlastComplete | device_code/components/esp_tree_remote/remote_file_receiver.cpp:245-297 | answers by increment, completeness and round, as `LeafRules.AskAnswered` and `Recovery.LostAnswerIsRepeated` need it |
| FileReceiver.FileReceiver.HandleEnd | device_code/components/esp_tree_remote/remote_file_receiver.cpp:299-329 | installs or forgets, and reports or sets the timers for the reports |
| FileReceiver.FileReceiver.Receive | device_code/components/esp_tree_remote/remote_file_receiver.cpp:83-126 | any frame is the leaf's step for it, on its state and on its timers |
| FileReceiver.FileReceiver.Loop | device_code/components/esp_tree_remote/remote_file_receiver.cpp:484-530 | by its timers the receiver restarts, repeats its report, gives up on a silent bridge or does nothing, and each is the one impulse of the leaf that it says, with the timers it leaves |
| ChunkWindow.TakenIff | device_code/components/esp_tree_bridge/bridge_api_proto_ws.cpp:493-556 | a batch is taken iff every chunk fits and no sequence comes twice |
| ChunkWindow.TakenEffect | device_code/components/esp_tree_bridge/bridge_api_proto_ws.cpp:493-556 | a taken batch is queued in order, and is what neither side waits for any more |
| ChunkWindow.BatchServed | app/bridge_v2_ota.py:111-121 | one batch of the add-on is taken and leaves both ends agreed on the rest |
| ChunkWindow.RequestServed | app/bridge_v2_ota.py:111-135 | a whole request is served: each chunk injected once with the file's bytes, nothing pending, the request closed |
| ChunkWindow.SendChunks | app/bridge_v2_ota.py:111-121 | the batches cut from a request, none before a job is known |
| ChunkWindow.BuiltPayload | app/bridge_v2_ota.py:123-135 | a chunk built for a planned sequence carries exactly the file's bytes for it, as many as the bridge expects |
| ChunkWindow.BuiltFits | app/bridge_v2_ota.py:123-135 | a chunk built for a requested sequence passes every check of the bridge |
| WindowRules.TakenExactly | device_code/components/esp_tree_bridge/bridge_api_proto_ws.cpp:493-556 | a current batch is taken iff it is small enough and each chunk is pending, wanted, at its place, of its length, intact and of a sequence of its own; otherwise the job is given up on both sides and the leaf told |
| WindowRules.DamageIsRefused | device_code/components/esp_tree_bridge/bridge_api_proto_ws.cpp:532-545 | a chunk damaged within four bytes of its payload is never taken |
| WindowRules.BuiltIs | app/bridge_v2_ota.py:123-135 | a built chunk holds the file's bytes from its offset on, with their checksum, and is flagged iff it is the last |
| WindowRules.BatchesCut | app/bridge_v2_ota.py:111-121 | a request is cut in order into batches of the agreed size, of which only the last may be smaller |
| WindowRules.NameMeans | device_code/components/esp_tree_bridge/esp_tree_bridge.cpp:2000-2003 | a request's name is the job's, a dash and the request's number in decimal |
| ChunkTransport.Transport.HandleOtaChunkBatch | device_code/components/esp_tree_bridge/bridge_api_serial.cpp:164-222 | the transport takes a batch, refuses it, gives the job up, or asks again as specified, together with the transfer manager it feeds |
| ChunkTransport.Transport.ResendChunkRequest | device_code/components/esp_tree_bridge/esp_tree_bridge.cpp:1972-2003 | asking again makes a new request, with the next number, for exactly what the transfer wants, in ascending order |
| ChunkTransport.Transport.MakeRequest | device_code/components/esp_tree_bridge/esp_tree_bridge.cpp:2096-2103 | the next request is numbered and remembered as the last one made, and reaches the transport only if a client is there |
| ChunkTransport.Transport.EmitOtaEvents | device_code/components/esp_tree_bridge/esp_tree_bridge.cpp:2085-2103 | a pass asks for all that is wanted iff the last request did not ask for all of it, and forgets the last request when nothing is wanted |
| ChunkTransport.Transport.FinishSession | device_code/components/esp_tree_bridge/bridge_api_proto_ws.cpp:366-384 | the end of a session forgets the request waited for, and no more are made |
| ChunkTransport.Transport.CloseClient | device_code/components/esp_tree_bridge/bridge_api_proto_ws.cpp:665-681 | a connection the bridge closes keeps its request, and more are made |
| ChunkTransport.Transport.Authenticate | device_code/components/esp_tree_bridge/esp_tree_bridge.cpp:1917-1923 | a client that authenticates gets the requests from then on, and nothing else changes |
| ChunkExchange.AskingIsUnderWay | device_code/components/esp_tree_bridge/esp_tree_bridge.cpp:2096-2103 | after asking for all that is wanted, with nothing else on its way, only the answer waited for is coming |
| ChunkExchange.StaleArrives | device_code/components/esp_tree_bridge/esp_tree_bridge.cpp:1972-1988 | a stale batch makes every other batch that is coming stale, and puts a request for all that is wanted behind them |
| ChunkExchange.StaleAskedOnce | device_code/components/esp_tree_bridge/esp_tree_bridge.cpp:1972-1988 | after the request a stale batch calls forth, the next pass finds nothing more to ask for |
| ChunkExchange.ServedIff | device_code/components/esp_tree_bridge/esp_tree_bridge.cpp:1972-2003 | towards any client on a steady connection, what the transfer wants can still reach it iff only the answer waited for is coming, or one stale batch and nothing else |
| ChunkExchange.TwoStaleBatches | device_code/components/esp_tree_bridge/esp_tree_bridge.cpp:1972-1988 | two batches for the request before, from a client that goes on answering it, and the transfer never gets what it wants |
| LostBatches.MissedIsNeverServed | device_code/components/esp_tree_bridge/esp_tree_bridge.cpp:2085-2103 | a chunk that was asked for and that nothing on its way brings never comes, whatever add-on, bridge and connection do |
| LostBatches.ServedUnlessLost | device_code/components/esp_tree_bridge/esp_tree_bridge.cpp:2085-2103 | a request made can still be served iff nothing of it and of its answer has been lost so far |
| LostBatches.OneLossStrands | app/bridge_v2_ota.py:111-121 | it happens: the bridge asks, the add-on answers, one batch is lost, and the rest of the transfer never comes |
| LostConnections.AskedAgainIff | device_code/components/esp_tree_bridge/esp_tree_bridge.cpp:2085-2103 | with nothing on its way, what the transfer wants can still come iff the last request did not ask for all of it |
| LostConnections.LostMidAnswer | device_code/components/esp_tree_bridge/bridge_api_proto_ws.cpp:366-384 | a session lost in the middle of an answer leaves the transfer waiting for good |
| LostConnections.SurvivesIff | device_code/components/esp_tree_bridge/bridge_api_proto_ws.cpp:366-384 | at every moment a session can be lost, the transfer survives whatever happens until the client is back iff it was safe just before |
| LostConnections.SafeAtRest | device_code/components/esp_tree_bridge/esp_tree_bridge.cpp:2085-2095 | with a request delivered, safe means that the bridge has looked since, or that no retransmission is left |
| LostConnections.LookMakesSafe | device_code/components/esp_tree_bridge/esp_tree_bridge.cpp:2094-2095 | a pass of the loop over a transfer that wants nothing makes it safe |
| LostConnections.ClosedAsksInVain | device_code/components/esp_tree_bridge/bridge_api_proto_ws.cpp:665-681 | after the bridge has closed the connection, a pass before the client is back loses what is wanted for good |
| ChunkTransport.Transport.OnOtaChunkRequest | device_code/components/esp_tree_bridge/bridge_api_proto_ws.cpp:788-806 | a new request replaces what was pending |
| ChunkTransport.OtaClient.HandleChunkRequest | app/bridge_v2_ota.py:55-60 | a request before acceptance waits, one after it is answered at once, out of order exactly if it overtakes others that are being flushed |
| ChunkTransport.OtaClient.Start | app/bridge_v2_ota.py:94-101 | on acceptance the requests that have waited are the ones to flush; none is lost |
| ChunkTransport.OtaClient.FlushNext | app/bridge_v2_ota.py:103-105 | the flush answers them one by one, and every request stays accounted for exactly once |
| Crc32.WindowErrorsShow | device_code/components/esp_tree_bridge/bridge_api_types.h:70-80 | payloads of any length that differ only within four consecutive bytes have different checksums |
| Crc32.RegisterLossless | device_code/components/esp_tree_bridge/bridge_api_types.h:74-78 | registers that differ still differ after the same bytes |
| Crc32.WindowAtOnce | device_code/components/esp_tree_bridge/bridge_api_types.h:74-78 | up to four bytes taken in one after the other act like one word taken in at once |
| CrcStandard.ChecksumIsStandard | device_code/components/esp_tree_bridge/bridge_api_types.h:67-80 | for all data the checksum is the one of IEEE 802.3: the complemented remainder of dividing the message, its first 32 bits complemented, by the generator |
| CrcStandard.CheckValue | app/bridge_v2_ota.py:134-134 | the catalogue's check value comes out for the digits 1 to 9 |
| Crc32.Crc32Bytes | device_code/components/esp_tree_bridge/bridge_api_types.h:70-80 | the bitwise loop computes the checksum, which `CrcStandard.ChecksumIsStandard` shows to be the standard's |
| Cobs.RoundTrip | device_code/components/esp_tree_common/cobs_codec.h:13-72 | decoding an encoding gives back every byte string |
| Cobs.Shape | device_code/components/esp_tree_common/cobs_codec.h:13-44 | an encoding has no zero and is at most n + n/254 + 1 bytes long |
| Cobs.DecodedShorter | device_code/components/esp_tree_common/cobs_codec.h:46-72 | any input decodes to fewer bytes than it has |
| CobsLaws.EncodingIs | device_code/components/esp_tree_common/cobs_codec.h:13-44 | the encoding by its laws: a stretch without zeros preceded by its length, zeros left out between stretches, full stretches marked 255 |
| Cobs.Encode | device_code/components/esp_tree_common/cobs_codec.h:13-44 | the patching loop writes the encoding within its buffer |
| Cobs.Decode | device_code/components/esp_tree_common/cobs_codec.h:46-72 | the copying loop decodes, or fails, within a buffer of the input's size |
| Framing.OnlyTheBytesMatter | app/bridge_serial_client.py:344-376 | the frames delivered depend only on the bytes received, not on how reads cut them |
| Framing.WireIsDelivered | device_code/components/esp_tree_bridge/bridge_api_serial.cpp:71-79 | payloads sent are delivered, all and in order |
| Framing.DamageEndsAtTheDelimiter | app/bridge_serial_client.py:355-376 | whatever came before a delimiter, the frames after it arrive unharmed |
| SerialLine.HandledIsListened | device_code/components/esp_tree_bridge/bridge_api_serial.cpp:247-376 | byte by byte the bridge handles exactly the line's readable frames up to the first that resets the session, and only such a reset loses frames and tail |
| SerialLine.TurnsDoNotMatter | device_code/components/esp_tree_bridge/bridge_api_serial.cpp:341-387 | without a reset, in a turn or between turns, the bridge handles exactly the line's readable frames, however its turns cut the line |
| SerialLine.AuthenticatedIsUndisturbed | device_code/components/esp_tree_bridge/bridge_api_serial.cpp:247-387 | an authenticated client that sends no hello, keeps within the buffer and is never silent for a minute causes no reset |
| SerialLine.FullIsStuck | device_code/components/esp_tree_bridge/bridge_api_serial.cpp:405-424 | a full buffer without a delimiter takes no byte and handles no frame until its session times out |
| SerialLine.DeafenedIff | device_code/components/esp_tree_bridge/bridge_api_serial.cpp:405-424 | one turn leaves a link deaf iff what fits fills the buffer without a delimiter and no authenticated session can time out |
| SerialLine.DeafInOneTurn | device_code/components/esp_tree_bridge/bridge_api_serial.cpp:405-424 | an empty link without an authenticated session goes deaf in one turn |
| SerialLine.DeafIff | device_code/components/esp_tree_bridge/bridge_api_serial.cpp:378-424 | exactly a deaf link handles no frame, whatever comes in and whatever the clock shows |
| SerialAuth.AuthenticatedIff | device_code/components/esp_tree_bridge/bridge_api_serial.cpp:247-387 | over any turns from the start the session is authenticated iff a frame handled answered the challenge of its time and nobody has said hello or been silent for a minute since, and the challenges sent are as many as that log calls for |
| SerialAuth.NobodyWithoutAnswer | device_code/components/esp_tree_bridge/bridge_api_serial.cpp:255-275 | without a right answer nobody is ever authenticated |
| SerialAuth.HelloIsFresh | device_code/components/esp_tree_bridge/bridge_api_serial.cpp:248-254 | after a hello no earlier challenge counts any more |
| SerialAuth.ForgetsRest | device_code/components/esp_tree_bridge/bridge_api_serial.cpp:237-264 | a hello, and a wrong answer of an unproven client, make the bridge forget all that came in behind them |
| SerialAuth.HandshakeWorks | device_code/components/esp_tree_bridge/bridge_api_serial.cpp:247-275 | a hello and a right answer authenticate, whatever the bridge has heard before |
| Framing.StreamReader.OnRead | app/bridge_serial_client.py:350-376 | one read delivers the frames it completes and keeps the tail |
| SerialLine.SerialLink.Fill | device_code/components/esp_tree_bridge/bridge_api_serial.cpp:405-416 | bytes beyond the buffer's room are dropped and counted |
| SerialLine.SerialLink.HandleEnvelope | device_code/components/esp_tree_bridge/bridge_api_serial.cpp:247-287 | hello, answers to a challenge and other frames move the session on, and a hello or a wrong answer empties the buffer; `SerialAuth.AuthenticatedIff` says whom that authenticates |
| SerialLine.SerialLink.ProcessRxBuffer | device_code/components/esp_tree_bridge/bridge_api_serial.cpp:341-376 | handles the buffered frames up to one that empties the buffer |
| SerialLine.SerialLink.ResetAuth | device_code/components/esp_tree_bridge/bridge_api_serial.cpp:237-245 | clears the buffer and goes back to waiting for a hello |
| SerialLine.SerialLink.CheckConnectionTimeout | device_code/components/esp_tree_bridge/bridge_api_serial.cpp:378-387 | an authenticated session silent for a minute is reset |
| SerialLine.SerialLink.Loop | device_code/components/esp_tree_bridge/bridge_api_serial.cpp:405-424 | one turn of the loop is one turn of the link |
| Protobuf.VarintRoundTrip | device_code/components/esp_tree_bridge/bridge_api_proto_messages.cpp:20-30 | any 64-bit varint written is read back, whatever follows |
| Protobuf.VarintDigits | device_code/components/esp_tree_bridge/bridge_api_proto_messages.cpp:82-88 | a varint's bytes are the number's digits to the base 128, lowest first, all but the last with the high bit |
| Protobuf.SeptetsIff | device_code/components/esp_tree_bridge/bridge_api_proto_messages.cpp:20-30 | a varint is read iff one of its first ten bytes is without the high bit, and ends there |
| Protobuf.ReadFits | device_code/components/esp_tree_bridge/bridge_api_proto_messages.cpp:132-282 | whatever the bytes, what is read as a chunk or an envelope keeps within the widths of its fields |
| Protobuf.FieldRoundTrip | device_code/components/esp_tree_bridge/bridge_api_proto_messages.cpp:32-61 | any field of wire type 0, 1 or 2 written is read back, whatever follows |
| Protobuf.MessageRoundTrip | device_code/components/esp_tree_bridge/bridge_api_proto_messages.cpp:32-130 | any list of fields survives writing and reading |
| Protobuf.EnvelopeRoundTrip | device_code/components/esp_tree_bridge/bridge_api_proto_messages.cpp:132-151 | an envelope is read back as written, with or without a request id |
| Protobuf.ChunkRoundTrip | device_code/components/esp_tree_bridge/bridge_api_proto_messages.cpp:263-282 | a chunk is read back whether its zero scalars are written or left out |
| Protobuf.BatchRoundTrip | device_code/components/esp_tree_bridge/bridge_api_proto_messages.cpp:284-303 | a batch is read back, and one with an empty part is refused |
| WireExamples.EnvelopeExample | app/protobuf/esp_tree_runtime.proto:16-36 | an envelope with its batch, byte by byte |
| WireExamples.ChunkExample | app/protobuf/esp_tree_runtime.proto:97-103 | a chunk, byte by byte |
| BatchDelivery.BatchUnpacks | device_code/components/esp_tree_bridge/bridge_api_proto_messages.cpp:263-303 | a batch sent in its envelope is unpacked to itself, whatever bytes its chunks hold |
| BatchDelivery.RequestServedOverTheLine | app/bridge_v2_ota.py:111-135 | a request answered over the serial line is served: each chunk queued once with the file's bytes, nothing pending, the request closed |
| BatchDelivery.BatchInWebSocketFrame | device_code/components/esp_tree_bridge/bridge_api_proto_ws.cpp:242-265 | a batch sent in a WebSocket frame is read back, whatever follows |
| ProtoMessages.ReadVarint | device_code/components/esp_tree_bridge/bridge_api_proto_messages.cpp:20-30 | the shifting loop reads the varint, dropping bits beyond 64 |
| ProtoMessages.ReadField | device_code/components/esp_tree_bridge/bridge_api_proto_messages.cpp:32-61 | reads one field of arbitrary bytes or fails |
| ProtoMessages.ParseEnvelope | device_code/components/esp_tree_bridge/bridge_api_proto_messages.cpp:132-151 | parses arbitrary bytes as specified |
| ProtoMessages.ParseOtaChunk | device_code/components/esp_tree_bridge/bridge_api_proto_messages.cpp:263-282 | parses arbitrary bytes as specified |
| ProtoMessages.ParseOtaChunkBatch | device_code/components/esp_tree_bridge/bridge_api_proto_messages.cpp:284-303 | parses arbitrary bytes as specified; an unreadable chunk spoils the batch |
| ProtoMessages.Writer.RawVarint | device_code/components/esp_tree_bridge/bridge_api_proto_messages.cpp:82-88 | the loop appends the varint |
| ProtoMessages.Writer.Bytes | device_code/components/esp_tree_bridge/bridge_api_proto_messages.cpp:117-122 | appends a delimited field |
| ProtoMessages.WriteEnvelope | device_code/components/esp_tree_bridge/bridge_api_proto_messages.cpp:336-343 | writes the envelope of a message |
| WebSocket.ClientRoundTrip | device_code/components/esp_tree_bridge/bridge_api_proto_ws.cpp:242-265 | a client's masked frame is read back and exactly consumed, for every opcode, mask and payload up to 65535 bytes |
| WebSocket.ReadsIff | device_code/components/esp_tree_bridge/bridge_api_proto_ws.cpp:242-265 | the bridge reads a frame iff the standard's reader finds a final, masked one without a 64-bit length, and reads the same |
| WebSocket.ServerRoundTrip | device_code/components/esp_tree_bridge/bridge_api_proto_ws.cpp:267-292 | a frame sent is found by the standard's reader, final, unmasked and whole |
| WebSocket.ServerFrameIsShortest | device_code/components/esp_tree_bridge/bridge_api_proto_ws.cpp:267-292 | no frame with the same payload is shorter |
| WebSocket.XorIs | device_code/components/esp_tree_bridge/bridge_api_proto_ws.cpp:263-263 | a bit of an exclusive or is set iff exactly one of the two is |
| WireExamples.TextFromClient | device_code/components/esp_tree_bridge/bridge_api_proto_ws.cpp:242-265 | a masked text message, byte by byte |
| WireExamples.TextFromBridge | device_code/components/esp_tree_bridge/bridge_api_proto_ws.cpp:267-292 | an unmasked one, byte by byte |
| WebSocket.Socket.ReadFrame | device_code/components/esp_tree_bridge/bridge_api_proto_ws.cpp:242-265 | reads header, length, mask and payload in turn, unmasking in place |
| WebSocket.Socket.Unmask | device_code/components/esp_tree_bridge/bridge_api_proto_ws.cpp:263-263 | unmasks an array where it is |
| WebSocket.Socket.SendFrame | device_code/components/esp_tree_bridge/bridge_api_proto_ws.cpp:267-292 | sends the frame, or refuses payloads over 65535 bytes |
| CtrMode.CountersDiffer | device_code/components/esp_tree_common/espnow_crypto.cpp:146-158 | counter blocks coincide only for the same transmission counter and block index below 2^96 |
| CtrMode.CounterIs | device_code/components/esp_tree_common/espnow_crypto.cpp:146-158 | the carry never reaches the transmission counter |
| CtrMode.CryptTwice | device_code/components/esp_tree_common/espnow_crypto.cpp:153-171 | crypting twice with one counter is the identity at every length |
| CtrMode.CryptedByte | device_code/components/esp_tree_common/espnow_crypto.cpp:153-171 | output byte k is input byte k combined with byte k % 16 of the encryption of the nonce followed by k / 16 |
| CtrMode.BlocksApart | device_code/components/esp_tree_common/espnow_crypto.cpp:146-171 | two bytes are encrypted under the same counter block iff they are in the same block of the same frame |
| CtrMode.IncrementCounter | device_code/components/esp_tree_common/espnow_crypto.cpp:146-151 | the loop increments the block as one big-endian number |
| CtrMode.Aes256CtrCrypt | device_code/components/esp_tree_common/espnow_crypto.cpp:153-171 | the loop combines every byte with its own place in the encryption of its own counter block |
| Hkdf.HkdfExpand | device_code/components/esp_tree_common/espnow_crypto.cpp:383-412 | writes the first bytes of T(1), T(2), ... within its block |
| Hkdf.ExpandPrefix | device_code/components/esp_tree_common/espnow_crypto.cpp:383-412 | a shorter key is the beginning of a longer one |
| Hkdf.BlocksChain | device_code/components/esp_tree_common/espnow_crypto.cpp:383-412 | each block of the output is the hash of the block before it, the info and a counter from 1 |
| CompileQueue.AlwaysOrdered | app/db.py:466-526 | over any run at most one job compiles and waiting jobs are numbered in the order of their ids |
| CompileQueue.CreateKeepsOrdered | app/db.py:466-526 | a new job goes to the end of its queue |
| CompileQueue.CreateNumbers | app/db.py:466-526 | a new job in a queue is numbered just above the highest there, or 0; others have no number |
| CompileQueue.AbortKeepsOrdered | app/db.py:900-913 | deleting a job and renumbering keeps the others in order, under every status |
| CompileQueue.AbortNumbers | app/db.py:900-913 | after a deletion the others wait as before, numbered from 0 in steps of one |
| CompileQueue.FinishMoves | app/db.py:532-546 | a job that ends changes its status, and no other row changes |
| CompileQueue.DeviceGone | app/db.py:402-417 | removing a device removes exactly its jobs |
| CompileQueue.DequeueStartsOldest | app/compile_worker.py:224-252 | the worker starts the oldest runnable job, deletes exactly the older ones, and leaves the younger in order |
| CompileQueue.DequeueWaits | app/compile_worker.py:224-226 | nothing changes while a job compiles |
| CompileQueue.PositionIsPlace | app/db.py:879-888 | the position shown is the job's place in the queue |
| CompileQueue.ReorderPlaces | app/db.py:815-835 | reordering numbers the flash queue by the new list and leaves every other row alone |
| CompileQueue.ByOrderSorts | app/db.py:815-822 | a query in ascending order gives exactly its rows, ascending, missing orders first |
| CompileQueue.ReorderKeepsOthers | app/db.py:815-835 | of any two other jobs waiting to be flashed, the one that came first still does |
| CompileQueue.MovedToIndex | app/db.py:826-829 | the moved job has the index asked for, within the ends of the queue |
| CompileQueue.ReorderNumbers | app/db.py:830-834 | the jobs waiting to be flashed are numbered below their count, no two alike |
| CompileQueue.Database.CreateJob | app/db.py:466-526 | inserts the row with the next order |
| CompileQueue.Database.AbortCompileQueuedJob | app/db.py:900-913 | the renumbering loop |
| CompileQueue.Database.ReorderQueue | app/db.py:815-835 | the reordering loop: the new table is the one that `CompileQueue.ReorderKeepsOthers` and `CompileQueue.MovedToIndex` describe row by row |
| CompileQueue.Database.CountCompileQueuedBefore | app/db.py:879-888 | for a waiting job, its place |
| CompileQueue.Database.DequeueNext | app/compile_worker.py:224-252 | the self-recursive dequeue, which ends because each call deletes a row |
| CompileQueue.Database.RecoverStartup | app/compile_worker.py:91-96 | after a restart nothing is compiling and no waiting job has moved |
| CompileQueue.Database.Cancel | app/compile_worker.py:258-274 | takes back a waiting or compiling job and nothing else |

## Left out

- EndToEnd.SuccessMeansInstalled: does not promise that a report of success leaves the file to be booted, because an announcement accepted between a good END and the reboot erases the staged image, nor that it is about this file when an earlier report with the same action is left over.
- EndToEnd.EndingMeansImage: assumes that transmission counters are never used twice; their 32-bit wrap-around is not modelled.
- Recovery.ResumesFromAnywhere: says that questions and rounds left are enough, not that they are needed; with an answer still on the air a bridge without a question left gets on too (`Patience.AnswerHeardIff`).
- BridgeClock.NotTooSoon: is about ticks alone, with the radio knowing the leaf, the transfer not overdue and the leaf heard of within 45 seconds.
- LostAnswers.EndsIff: speaks of runs in which neither side starts over; the timeouts that end the others are in the classes' `Loop` methods.
- TransferInvariants.StepKeepsRegular: assumes that a transfer whose increment count was truncated has not been driven past its last increment, which only a bitmap no leaf of this repository sends can do.
- TransferInvariants.SkipKeepsRegular: the same assumption.
- TransferRuns.MoveLowersRank: the same assumption.
- TransferRuns.MoveKeepsBounded: the same assumption.
- TransferTheorems.SuccessMeansAllSentIff: says for truncated increment counts only that the COMPLETE is believed; such a transfer can end with its last chunk unsent, as `CooperativeRuns.EndMeansAllIff` shows.
- TransferTheorems.WorkIsBounded: is about exact increment counts; for the others `EndlessRuns.WorkIsBoundedIff` shows that there is no bound, except for the timers in `OtaManager.OtaManager.Loop`.
- TransferTheorems.IncrementIsBounded: is about exact increment counts.
- EndlessRuns.WorkIsBoundedIff: speaks of the data frames; events without effect are not counted.
- OtaManager.OtaManager.StartTransfer: a null address, digest or name, which the source refuses, cannot be written here.
- OtaManager.OtaManager.OnFileAck: of the leaf's address and the packet's type only whether they are the transfer's own is modelled.
- OtaManager.OtaManager.OnSourceAbort: counts the abort frame as on the air whatever the radio answers, since the source looks at that answer nowhere.
- OtaManager.OtaManager.FailTransfer: the same.
- FileReceiver.FileReceiver.HandleAnnounce: the file id and MD5 in an announcement, which tell two files of the same size apart, are not modelled, and `esp_ota_begin` either refuses or erases the whole partition.
- ChunkExchange.ServedIff: request numbers do not wrap at 32 bits.
- LostConnections.SurvivesIff: is about the WebSocket, whose add-on drops the rest of an answer with the connection; on the serial line a reset session keeps its request and an answer may go on. It is about exact increment counts and about the state TRANSFERRING: the first request, made together with the acceptance, is not modelled.
- ChunkTransport.Transport.EmitOtaEvents: the status messages of a pass and the end of the job are not modelled.
- ChunkTransport.OtaClient.HandleChunkRequest: answering is one step; two answers under way at once are not modelled.
- SerialLine: the clock stands still within a turn; `close_client`, which nothing calls, and two states the source declares but never uses are not modelled.
- BatchDelivery.RequestServedOverTheLine: takes the add-on's protobuf library to write fields in ascending order and to leave out zero scalars.
- Clocks: the manager's and the receiver's times are numbers handed to each tick; the wrap-around of `millis()` is modelled in the serial session only.
- Concurrency: each method is one step; the unlocked window around the radio call in `send_chunk_` is not modelled.
- Foreign code: the radio driver, the flash driver, MD5, HMAC-SHA256, the AES rounds, SQLite, and the `cobs` package of the add-on are parameters or are taken to do what they document.
- CompileQueue: columns other than id, device, name, status and order, and everything about flashing after a job has been queued, are not modelled.
- CompileQueue.ReorderPlaces: the other ways in which flash jobs change their order (moving one to the back) are not modelled.
- Bridge protocol bodies, routing, sessions and authentication: only what the transfer needs of them is modelled, as parameters.
- Status texts, JSON, web pages, discovery, YAML, firmware parsing and preflight checks are not modelled.
- Other protobuf messages than the envelope and the chunk batch would only repeat the same reading loop.
