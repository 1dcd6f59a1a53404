# Verified models of the cloud streaming encoder, its display driver and its tools

This project models the stateful engines of the repository in Dafny and proves what every run of them keeps.
Code that works by changing state is a class whose methods are proved equal to a step function on values; what
the system promises is then proved about that function, over every input, run or interleaving. Calls into
FFmpeg, VA-API, SetupAPI, the kernel and the clock appear as inputs, so each theorem holds for all their answers.

- `DisplayBuffers.dfy`, `DisplayBufferSafety.dfy`: the display server's buffer lifetime. A handle map, a
  delayed-delete list stamped with a 64-bit frame index that wraps, a currently shown surface, and reference
  counts. Every resource has exactly one place, no destroyed surface is touched, counts are exact, the grace
  period is kept, and shutdown deletes everything once. "Every surface is released" is false of the code:
  `retireFrame` compares VA surface ids, and surfaces of an unsupported format all carry the invalid id
  (`sources/encoder/shared/encoder.cpp:609-651`), so one that ages out while another is shown stays behind. The
  exact condition is proved, for one request and for whole runs up to the end of shutdown.
- `Transcoder.dfy`, `TranscoderSafety.dfy`, `TranscoderRebuild.dfy`: the transcoder loop for one video stream. Control calls raise flags;
  `decode` and `doOutput` rebuild filter and encoder from the same flags. Control calls land between iterations,
  at the connection check, at the crop check, and inside the mux write.
- `StreamerStart.dfy`: the extra-parameter string and the codec choice of `IrrStreamer::start`, and exactly when
  the configuration it leaves agrees with the codec id.
- `FrameSkip.dfy`, `HardwareErrors.dfy`: frame-skip accounting and hardware-error bursts. The error counter starts
  from clock value 0, so an error in the first five seconds after boot counts as the second of a burst.
- `VideoDemux.dfy`, `ControlPipeline.dfy`, `ControlConservation.dfy`: the frame mailbox and pacer, and display
  controls from submission to encoded frame, in order and without a control unaccounted for.
- `ByteStream.dfy`: the socket send and receive loops over a channel that cuts bytes arbitrarily.
- `SwapChain.dfy`, `StartHandshake.dfy`: two interleaving models. A swap-chain whose worker thread cannot be
  created is never deleted; the exact condition is proved.
- `Strings.dfy`, `AdapterLabels.dfy`: the delimiter splitters, and printing against reading adapter labels. An
  adapter with an empty device id makes its numbered label act on all matching adapters; the exact condition is
  proved.
- `StreamStatistics.dfy`: running sums and the scrolling plot refine "the last N". The reported minimum and maximum
  take a zero for "not set" and forget a zero sample; for each the exact condition is proved over all samples, also
  negative ones, which the signed frame delay can give.
- `Options.dfy`, `Controls.dfy`: the option type, and the display controls that the demuxer and the transcoder share.

Assumptions on the environment are stated as preconditions or step rules: the clock of the frame-skip, pacing and
socket models does not run backwards, a sleep lasts as long as asked, and time advances over a fruitless socket
call; a surface is created with one reference (`sources/encoder/shared/encoder.cpp:546-651`, `1238-1260`) and
writing it to the encoder leaves the count alone; the operating system serialises its calls on one monitor; option
dictionaries ignore the case of keys.

## Model

| member | source | states |
|---|---|---|
| DisplayBuffers.DisplayVideoRenderer.Retire | sources/encoder/server/display_video_renderer.cpp:220-267 | the erase-while-iterating loop computes `RetireFrame`, which `Retires` characterises |
| DisplayBuffers.DisplayVideoRenderer.FlushDelayDelRes | sources/encoder/server/display_video_renderer.cpp:269-294 | the flush loop computes `Flush`, which `FlushReleasesList` characterises |
| DisplayBuffers.DisplayVideoRenderer.DrawDispRes | sources/encoder/server/display_video_renderer.cpp:163-208 | moves the extra reference from the surface shown before to the one shown now; touching a destroyed surface is recorded |
| DisplayBuffers.DisplayServerVHAL.CommandHandler | sources/encoder/server/display_server_vhal.cpp:202-306 | each command is one `Step` of the server, the step all run theorems are about |
| DisplayBuffers.DisplayServerVHAL.Deinit | sources/encoder/server/display_server_vhal.cpp:178-199 | whatever order the map hands out its entries in, deinit is `Shutdown` in that order |
| DisplayBufferSafety.ReclaimShape | sources/encoder/server/display_video_renderer.cpp:238-259 | a reclaimed resource is not the one shown and its count is already 1: forcing it discards no reference |
| DisplayBufferSafety.Retires | sources/encoder/server/display_video_renderer.cpp:220-267 | exactly the entries older than 30 frames are deleted and exactly their surfaces without the current VA id are destroyed; the other surfaces, the shown one and the frame index are unchanged |
| DisplayBufferSafety.RetireLeavesYoung | sources/encoder/server/display_video_renderer.cpp:224-266 | the list left is exactly the entries that have not aged, in order, with stamps from before an index wrap set to 0 |
| DisplayBufferSafety.RetireKeeps | sources/encoder/server/display_video_renderer.cpp:220-267 | the loop keeps ownership, liveness, counts, stamp order and grace period |
| DisplayBufferSafety.StepKeepsInv | sources/encoder/server/display_server_vhal.cpp:202-283 | every command keeps ownership, liveness, counts, stamp order and grace period, also across a wrap of the frame index |
| DisplayBufferSafety.RunKeepsInv | sources/encoder/server/display_server_vhal.cpp:202-283 | the same over every sequence of commands |
| DisplayBufferSafety.RunIsSafe | sources/encoder/server/display_video_renderer.cpp:155-267 | in every run from the empty server: nothing destroyed is touched, each resource is in exactly one of map, list, deleted; owned surfaces have count 1, or 2 if shown; list entries are at most 30 frames old and in stamp order; no resource is deleted and no surface destroyed before 31 further frames have begun |
| DisplayBufferSafety.RemoveDoes | sources/encoder/server/display_server_vhal.cpp:223-239 | a removed resource leaves the map, whatever is shown, and joins the list with the current frame; other handles, surfaces and what is shown are unchanged |
| DisplayBufferSafety.CreateDoes | sources/encoder/server/display_server_vhal.cpp:202-220 | the handle maps to a new resource with one reference, or to none if creation failed, and the old one joins the list; other handles are unchanged |
| DisplayBufferSafety.DisplayDoes | sources/encoder/server/display_server_vhal.cpp:259-282 | a known handle begins one frame and its surface is the one shown; other commands do nothing |
| DisplayBufferSafety.DeletedAtThirtyFirstFrame | sources/encoder/server/display_video_renderer.cpp:224-266 | until the index wraps a removed resource is deleted at exactly the 31st frame begun after its removal |
| DisplayBufferSafety.FlushReleasesList | sources/encoder/server/display_video_renderer.cpp:269-294 | the flush destroys exactly the surfaces on the list and empties it without touching a destroyed one |
| DisplayBufferSafety.ShutdownDeletesEverything | sources/encoder/server/display_server_vhal.cpp:178-199 | after deinit every resource ever created is deleted exactly once, each surface released at most once, and only surfaces already left behind remain |
| DisplayBufferSafety.DisplayLeaksExactlyOnSharedId | sources/encoder/server/display_video_renderer.cpp:244-256 | after a display request no surface is left behind if and only if none was before and no aged resource shares the VA id now shown |
| DisplayBufferSafety.SharesExactly | sources/encoder/server/display_video_renderer.cpp:244-248 | the guard compares VA ids, with 0xffffffff when nothing is shown |
| DisplayBufferSafety.EverySurfaceReleasedIff | sources/encoder/server/display_video_renderer.cpp:244-294 | for every run: shutdown leaves no surface if and only if no display request of the run met an aged resource that shares the VA id then shown |
| DisplayBufferSafety.EverySurfaceReleasedOnce | sources/encoder/server/display_video_renderer.cpp:244-294 | when each new surface has a valid id no live surface has, every surface is released exactly once by the end of shutdown |
| DisplayBufferSafety.UnsupportedFormatLeaks | sources/encoder/server/display_video_renderer.cpp:244-256 | a run with two buffers of an unsupported format that deletes one without releasing its surface |
| DisplayBufferSafety.UnsupportedFormatLeaksForGood | sources/encoder/server/display_server_vhal.cpp:178-199 | shutdown after that run does not release it either |
| Transcoder.CTransCoder.ChangeResolutionCall | sources/encoder/shared/CTransCoder.cpp:1485-1497 | accepts sizes from 32 to 4096, raising the flag with the new size, and ignores others |
| Transcoder.CTransCoder.ChangeCodecCall | sources/encoder/shared/CTransCoder.cpp:1499-1539 | switches codec id, encoder name and flag together, dropping profile and level |
| Transcoder.CTransCoder.DecodeStream | sources/encoder/shared/CTransCoder.cpp:373-475 | drops and rebuilds the filter from the flags without clearing them |
| Transcoder.CTransCoder.Process | sources/encoder/shared/CTransCoder.cpp:594-689 | a decoded packet queues its display control and failures queue nothing; a missing stream changes nothing, and the end of the input flushes the decoder into the filter |
| Transcoder.CTransCoder.Frames | sources/encoder/shared/CTransCoder.cpp:825-941 | the frame loop with its packet loop computes `EncodeFrames` under any outcomes and any control calls in the mux write |
| Transcoder.CTransCoder.Output | sources/encoder/shared/CTransCoder.cpp:722-993 | flag check, rebuild, frames, screen-capture failures and flush compute `DoOutput` |
| Transcoder.CTransCoder.RunIteration | sources/encoder/shared/CTransCoder.cpp:229-310 | one loop round is `RunOnce`: waiting for a client, retrying, flushing at the end of the input, stopping, or encoding |
| TranscoderSafety.RunKeeps | sources/encoder/shared/CTransCoder.cpp:229-310 | the size invariant holds after every run from any state that has it |
| TranscoderSafety.EveryFrameSizesAgree | sources/encoder/shared/CTransCoder.cpp:373-475 | in every run, final flush included, each frame's encoder has the size of the filter that produced the frame |
| TranscoderSafety.AcceptedChangeNotLost | sources/encoder/shared/CTransCoder.cpp:737-801 | in a running loop with the flag down after an accepted change, filter and encoder both have the size accepted last |
| TranscoderSafety.FlagClearedWithRebuild | sources/encoder/shared/CTransCoder.cpp:737-801 | the output that clears the flag, whoever raised it, has rebuilt both at the pending size before its first frame |
| TranscoderSafety.RunKeepsCodec | sources/encoder/shared/CTransCoder.cpp:737-787 | over every run streamer and transcoder agree on the codec, the chosen encoder name is that codec's, and so is the live encoder unless a change is pending |
| TranscoderSafety.FinishedRunKeepsCodec | sources/encoder/shared/CTransCoder.cpp:189-200 | the same after the final flush, which may rebuild the encoder |
| TranscoderSafety.CodecChangeRestoresAgreement | sources/encoder/shared/IrrStreamer.cpp:681-700 | an accepted change to another codec establishes agreement from any configuration |
| TranscoderRebuild.ControlsExactly | sources/encoder/shared/CTransCoder.cpp:1485-1539 | which control calls are accepted, the flag and values each sets, and that any other changes no flag, size or property |
| TranscoderRebuild.HardwareFailureRebuilds | sources/encoder/shared/CTransCoder.cpp:297-300 | after a hardware failure no frame of a later iteration comes from the filter or the encoder then in use, and none of the final flush from that encoder |
| TranscoderRebuild.FlagRaisedExactly | sources/encoder/shared/CTransCoder.cpp:295-303 | after a decoded packet the hardware-error flag is up if and only if the output ended in a hardware failure |
| TranscoderRebuild.AcceptedControlRebuilds | sources/encoder/shared/CTransCoder.cpp:737-787 | after an accepted resolution, codec, profile or level change every later frame has a new encoder, and a new filter for a resolution |
| TranscoderRebuild.CallBeforeWorkRebuilds | sources/encoder/shared/CTransCoder.cpp:252-270 | a call accepted while an iteration waits or before its work counts from that iteration's own frames on |
| TranscoderRebuild.RaisedFlagRebuilds | sources/encoder/shared/CTransCoder.cpp:737-801 | the law behind both, for any flag and any later run |
| TranscoderRebuild.FilterBuiltExactly | sources/encoder/shared/CTransCoder.cpp:373-475 | the filter is built anew if and only if there is none, after a hardware error, or for a new size |
| TranscoderRebuild.EncoderBuiltExactly | sources/encoder/shared/CTransCoder.cpp:737-787 | the encoder is built anew if and only if there is none or a flag is up, and all flags are then down |
| TranscoderRebuild.CropRequestsSize | sources/encoder/shared/CTransCoder.cpp:654-662 | an acceptable crop size is asked for, and the packet's own filter has it |
| TranscoderRebuild.ProfileAgreement | sources/encoder/shared/CTransCoder.cpp:1934-1957 | in every run the live encoder has the profile and level configured, unless a change is pending |
| TranscoderRebuild.LaterFramesHaveSize | sources/encoder/shared/CTransCoder.cpp:1485-1497 | after an accepted change to w by h, until another, every frame of every later iteration has width w and height h in filter and encoder |
| TranscoderRebuild.OutputResult | sources/encoder/shared/CTransCoder.cpp:825-946 | doOutput returns the first failure in program order, and exactly the frames written before it are encoded |
| TranscoderRebuild.StopsExactly | sources/encoder/shared/CTransCoder.cpp:279-293 | the loop stops if and only if reading, decoding or filtering fails for good or the input ends |
| StreamerStart.ParseExpVidParam | sources/encoder/shared/IrrStreamer.cpp:205-227 | the do-while loop stores the pairs of the pieces a splitter would give |
| StreamerStart.ParseOfWritten | sources/encoder/shared/IrrStreamer.cpp:205-227 | round trip: written "k=v" pairs joined with ':' are read back in order, later ones winning |
| StreamerStart.StartAgreesExactly | sources/encoder/shared/IrrStreamer.cpp:182-196 | after start the encoder name is the codec id's if and only if the explicit codec names it, or none is given and the URL names a codec or the extra parameters name no other encoder |
| StreamerStart.StartChooses | sources/encoder/shared/IrrStreamer.cpp:182-196 | the codec id, plugin and encoder name that each URL prefix, plugin text and explicit codec select |
| StreamerStart.KeysExactly | sources/encoder/shared/CTransCoder.cpp:1006-1015 | the dictionary keys that are read, whatever their case |
| StreamerStart.NamesDiffer | sources/encoder/shared/IrrStreamer.cpp:911-938 | different texts are different encoder names |
| StreamerStart.EncoderChoice | sources/encoder/shared/CTransCoder.cpp:768-787 | property "c", else "codec", else the codec's own encoder on the plugin |
| StreamerStart.AgreementFromStart | sources/encoder/shared/IrrStreamer.cpp:911-938 | codec agreement holds from start through every run and flush if and only if the explicit codec names the URL's codec, or none is given and the URL names a codec or the extra parameters name no other encoder |
| StreamerStart.ExplicitCodecCanDisagree | sources/encoder/shared/IrrStreamer.cpp:911-938 | an explicit codec that contradicts the URL breaks agreement |
| FrameSkip.FrameSkipper.UpdateFrameSkipped | sources/encoder/shared/CTransCoder.cpp:1332-1378 | one call is `Update`, and the value reported is `Skip` |
| FrameSkip.SkipConserves | sources/encoder/shared/CTransCoder.cpp:1338-1366 | when behind, encoded frames plus all skips reported in the cycle equal elapsed time divided by the interval |
| FrameSkip.EveryCallAccounts | sources/encoder/shared/CTransCoder.cpp:1338-1376 | in every call of every run: conservation, report at least -1, running total at most 3,000,000 over the interval |
| FrameSkip.EveryRunAccounts | sources/encoder/shared/CTransCoder.cpp:1338-1376 | the same from the transcoder's initial state |
| FrameSkip.EveryRunTallies | sources/encoder/shared/CTransCoder.cpp:1338-1376 | after every call the frames of the running cycle are all counted and it has lasted less than 1,000,000 |
| FrameSkip.CycleOpensExactly | sources/encoder/shared/CTransCoder.cpp:1338-1350 | a call opens a cycle if and only if there is none or the running one began 3,000,000 ago, and otherwise counts one frame |
| FrameSkip.CycleEndsExactly | sources/encoder/shared/CTransCoder.cpp:1367-1376 | a call ends the cycle if and only if it comes 1,000,000 or more after its start |
| FrameSkip.RunReportsAtLeastMinusOne | sources/encoder/shared/CTransCoder.cpp:1348-1376 | the whole list of reported values is at least -1 |
| FrameSkip.SpacedRunNeverNegative | sources/encoder/shared/CTransCoder.cpp:1348-1376 | with gaps of at least one interval inside cycles no report is negative |
| FrameSkip.SpacedFromStart | sources/encoder/shared/CTransCoder.cpp:1348-1376 | the same from the transcoder's initial state |
| FrameSkip.MinusOneHappens | sources/encoder/shared/CTransCoder.cpp:1351-1366 | the bound -1 is reached by a second call at the same time from every state more than an interval behind |
| FrameSkip.BehindIsReachable | sources/encoder/shared/CTransCoder.cpp:1332-1378 | such states occur: two calls four intervals apart in one cycle |
| HardwareErrors.HardwareErrorCounter.HwErrorCount | sources/encoder/shared/CTransCoder.cpp:697-720 | one error is `Count`, and the process exits exactly when `Exits` |
| HardwareErrors.CounterIsTrailingBurst | sources/encoder/shared/CTransCoder.cpp:697-720 | for every trace the counter is the maximal trailing burst: its length less one, its last time, its span |
| HardwareErrors.BurstInMilliseconds | sources/encoder/shared/CTransCoder.h:40-42 | a burst has gaps under 5000 ms inside and at least 5000 ms before it |
| HardwareErrors.BackwardsClockResets | sources/encoder/shared/CTransCoder.cpp:698-706 | the subtraction is unsigned: a clock that went back starts a new burst |
| HardwareErrors.ExitsExactly | sources/encoder/shared/CTransCoder.cpp:715-719 | for every trace, with the start of the clock counted as an error, exit happens if and only if the burst spans over 300 ms or has at least 12 errors |
| HardwareErrors.ExitsExactlyOnLongBurst | sources/encoder/shared/CTransCoder.h:40-42 | from five seconds on, exit happens if and only if the burst of real errors spans over 300 ms or has at least 12 |
| HardwareErrors.EarlyFirstErrorCounts | sources/encoder/shared/CTransCoder.cpp:697-720 | before five seconds a first error alone exits if and only if its time is over 300 ms |
| VideoDemux.CIrrVideoDemux.SendOrStop | sources/encoder/shared/CIrrVideoDemux.cpp:225-256 | the latest frame wins, a frame without control keeps the waiting one |
| VideoDemux.CIrrVideoDemux.Receive | sources/encoder/shared/CIrrVideoDemux.cpp:89-223 | a read is `ReadPacket` under any calls landing while the lock is released |
| VideoDemux.EveryReadDelivers | sources/encoder/shared/CIrrVideoDemux.cpp:187-188 | after any interleaving a successful read delivers the frame sent last and exactly the last control sent since the previous one, a read without data keeps it, and the wait counter ends below 1,000,000 |
| VideoDemux.ReadExactly | sources/encoder/shared/CIrrVideoDemux.cpp:169-223 | a read succeeds if and only if there is a frame after the wait and its copy succeeds; it returns the one clock reading that becomes the last timestamp |
| VideoDemux.RunLeavesLast | sources/encoder/shared/CIrrVideoDemux.cpp:225-256 | over every run the slot holds the frame sent last, those sent during unlocked waits included |
| VideoDemux.LockReleasedExactly | sources/encoder/shared/CIrrVideoDemux.cpp:119-152 | the lock is released exactly for a sleep before the interval is over, or while no frame has come |
| VideoDemux.WaitExactly | sources/encoder/shared/CIrrVideoDemux.cpp:112-148 | a fixed-rate wait is the shortest that lets the interval pass; otherwise it is 1,000,000 or its minFps-th part |
| VideoDemux.CounterExactly | sources/encoder/shared/CIrrVideoDemux.cpp:154-166 | the wait counter adds each wait, and a frame, a stop or a full second resets it |
| VideoDemux.RunPaces | sources/encoder/shared/CIrrVideoDemux.cpp:107-165 | over every run, modes mixed, each timestamp a read returns is at least its spacing after the one returned before |
| VideoDemux.FixedRateRunSpans | sources/encoder/shared/CIrrVideoDemux.cpp:107-214 | in fixed-rate runs returned timestamps are an interval apart and k of them span at least k - 1 intervals |
| ControlPipeline.RunKeepsOrder | sources/encoder/shared/CTransCoder.cpp:682-684 | attached, queued and waiting controls together stay an in-order choice of those submitted |
| ControlPipeline.AttachedInSubmissionOrder | sources/encoder/shared/CTransCoder.cpp:1247-1251 | end to end, controls on encoded frames, those of the final flush included, are an in-order, repetition-free subsequence of those submitted |
| ControlConservation.EveryControlAccounted | sources/encoder/shared/CIrrVideoDemux.cpp:235-240 | conservation to the end of the final flush: each control is submitted exactly as often as it is attached, queued, waiting, replaced by a later one before a read, or lost with a failed packet copy, input or encoder write |
| ControlConservation.LosslessInOrder | sources/encoder/shared/CTransCoder.cpp:682-684 | while nothing is lost, attached, queued and waiting controls are exactly those submitted, in order |
| ByteStream.SockSend | sources/encoder/sock_util/sock_server.cpp:465-528 | terminates on time left plus bytes left; exactly a prefix enters the channel, and the result is its length, a fatal error, or a timeout with bytes left |
| ByteStream.SockRecv | sources/encoder/sock_util/sock_server.cpp:531-596 | the same for the buffer filled in place; the rest of the buffer is untouched; the one-shot form makes one call and takes what it gives |
| ByteStream.TimeoutIsTenSeconds | sources/encoder/sock_util/sock_util.h:68 | the timeout in plain figures |
| ByteStream.PositiveResultIsCount | sources/encoder/sock_util/sock_client.cpp:229-285 | a positive result is the number of bytes moved if and only if that fits an int, which it does for every length up to 2^32 |
| ByteStream.LongTransferReportsOne | sources/encoder/sock_util/sock_client.cpp:229-285 | one byte more and a complete transfer reports 1 |
| ByteStream.MessagesArrive | sources/encoder/sock_util/sock_client.cpp:229-344 | full sends then full receives of the same lengths reproduce the messages for any cutting of the bytes |
| ByteStream.Exchange | sources/encoder/sock_util/sock_server.cpp:465-596 | run through both loops: when every result equals the length asked for, the buffers hold the messages |
| SwapChain.RunKeepsInv | sources/drivers/idd/Driver.cpp:458-500 | every interleaving keeps each chain in one place, deletions unique, and only the current processor alive |
| SwapChain.InterleavingsAreSafe | sources/drivers/idd/Driver.cpp:786-813 | at most one live processor, earlier ones ended with their chain deleted, no chain deleted twice, a failed device's chain deleted |
| SwapChain.DeletedBeforeNextStarts | sources/drivers/idd/Driver.cpp:791-813 | when the next processor is being made, an earlier chain is deleted if and only if its thread could be created or its device could not |
| SwapChain.DeletedExactlyUnlessThreadless | sources/drivers/idd/Driver.cpp:846-850 | once no processor is held, a chain is deleted if and only if it was not left without a thread |
| SwapChain.UnassignReleases | sources/drivers/idd/Driver.cpp:846-850 | by the time unassigning or destroying returns, no processor is held and every worker has ended |
| SwapChain.AssignInstalls | sources/drivers/idd/Driver.cpp:791-813 | by the time assigning returns, the chain has the current processor, or its device failed and it is deleted |
| SwapChain.ResetCanComplete | sources/drivers/idd/Driver.cpp:467-500 | a waiting reset can complete: the worker leaves, deletes the chain and ends |
| SwapChain.ThreadlessChainIsKept | sources/drivers/idd/Driver.cpp:467-477 | without a thread the destructor returns and the chain is kept |
| StartHandshake.RunKeepsInv | sources/apps/webrtc-client/peer-connection.cc:78-102 | exactly one permission to send exists in every interleaving |
| StartHandshake.AtMostOneInFlight | sources/apps/webrtc-client/peer-connection.cc:78-102 | at most one "start" in flight, and at most one more sent by the running Start call after success is recorded |
| StartHandshake.OneLateSendPerStart | sources/apps/webrtc-client/peer-connection.cc:78-102 | over a whole run at most one message per call of Start is sent after success is recorded |
| StartHandshake.OneMoreHappens | sources/apps/webrtc-client/peer-connection.cc:78-102 | a run in which that extra message is sent |
| StartHandshake.FailureIsRetried | sources/apps/webrtc-client/peer-connection.cc:81-99 | after a failure the loop sends again |
| StartHandshake.NoFalseSuccess | sources/apps/webrtc-client/peer-connection.cc:81-99 | without a success callback success is never recorded and Start does not return |
| StartHandshake.SuccessEndsLoop | sources/apps/webrtc-client/peer-connection.cc:81-102 | a loop asleep when success is recorded ends without sending again |
| Strings.FindIsFirst | sources/apps/idd-setup-tool/Utility.cpp:57-67 | the search finds the leftmost occurrence, and nothing if and only if there is none |
| Strings.CheckIfStringContainsPattern | sources/apps/idd-setup-tool/Utility.cpp:36-52 | true if and only if the pattern occurs somewhere, case folded on request |
| Strings.CapitalsFold | sources/apps/idd-setup-tool/Utility.cpp:36-41 | a capital becomes the letter 32 above it, and different capitals stay different |
| Strings.SplitStringOnDelimiter | sources/apps/idd-setup-tool/Utility.cpp:54-73 | the two-position loop computes `Pieces`, which is `Split` for a delimiter |
| Strings.ExtractAndStoreParamInfo | sources/apps/idd-setup-tool/CommandParserImpl.cpp:708-754 | the shortening loop stores the converted pieces in order up to the first that does not convert, and reports the count check |
| Strings.SplittersAgree | sources/apps/idd-setup-tool/CommandParserImpl.cpp:710-745 | both splitters give the same list for every input and every delimiter |
| Strings.JoinOfSplit | sources/apps/idd-setup-tool/Utility.cpp:54-73 | joining the pieces gives the input back up to one trailing delimiter |
| Strings.TrailingDelimiter | sources/apps/idd-setup-tool/Utility.cpp:69-72 | for a one-character delimiter it is missing if and only if the input ends with it |
| Strings.SplitOfJoin | sources/apps/idd-setup-tool/CommandParserImpl.cpp:710-745 | splitting a join returns the list if and only if the list is splittable |
| Strings.SplittableByCharacter | sources/apps/idd-setup-tool/CommandParserImpl.cpp:710-745 | for one character: no piece contains it and the last piece is not empty |
| AdapterLabels.AdapterTool.CheckEnableDisablePatternMatches | sources/apps/idd-setup-tool/EnableDisableAdapters.cpp:182-215 | the pattern loop computes `RecordFrom` on the two maps and the printed labels |
| AdapterLabels.AdapterTool.GetAdapterList | sources/apps/idd-setup-tool/EnableDisableAdapters.cpp:217-328 | the listing clears and fills the maps to `Listed` |
| AdapterLabels.AdapterTool.EnableDisableAdapter | sources/apps/idd-setup-tool/EnableDisableAdapters.cpp:452-502 | the adapters changed are `ActsFor`, in list order |
| AdapterLabels.AdapterTool.EnableDisableDisplayAdapterManager | sources/apps/idd-setup-tool/EnableDisableAdapters.cpp:504-574 | the manager computes `Managed`; its list lookup is in bounds for every table |
| AdapterLabels.DecimalRoundTrip | sources/apps/idd-setup-tool/EnableDisableAdapters.cpp:207-209 | reading the printed number gives it back |
| AdapterLabels.DecimalLooks | sources/apps/idd-setup-tool/EnableDisableAdapters.cpp:207-209 | numbers are written in base ten, most significant digit first |
| AdapterLabels.MatchesExactly | sources/apps/idd-setup-tool/EnableDisableAdapters.cpp:189-197 | vendor-and-device patterns are looked for in the device ID, description patterns in the name, case folded |
| AdapterLabels.VerbosePrintsEveryMatch | sources/apps/idd-setup-tool/EnableDisableAdapters.cpp:198-211 | a verbose listing prints the bare and the numbered label of every match |
| AdapterLabels.ListedSound | sources/apps/idd-setup-tool/EnableDisableAdapters.cpp:199-206 | for every table the count of an abbreviation is the length of its list |
| AdapterLabels.ListedIsMatching | sources/apps/idd-setup-tool/EnableDisableAdapters.cpp:182-215 | each abbreviation holds the ids of exactly the adapters its pattern matches, in order |
| AdapterLabels.SupportedTableQualifies | sources/apps/idd-setup-tool/Utility.h:107-117 | the tool's own table is prefix-free and lower-case, as the label theorems ask |
| AdapterLabels.ResolveByPrefix | sources/apps/idd-setup-tool/EnableDisableAdapters.cpp:515-549 | in a prefix-free table the entry that starts the text decides alone |
| AdapterLabels.LabelActs | sources/apps/idd-setup-tool/EnableDisableAdapters.cpp:515-567 | abbreviation plus n, in any casing, acts on the n-th matching adapter's id; other n name no pattern, and n beyond an int throws |
| AdapterLabels.LabelReachesNth | sources/apps/idd-setup-tool/EnableDisableAdapters.cpp:515-567 | for n within the count that adapter exists, has n - 1 matching ones before it, and is changed |
| AdapterLabels.PrintedLabelWorks | sources/apps/idd-setup-tool/EnableDisableAdapters.cpp:478-500 | every label printed under an adapter, typed back, changes that adapter |
| AdapterLabels.ListedAndChangedExactly | sources/apps/idd-setup-tool/EnableDisableAdapters.cpp:478-500 | an adapter is in the list at its position, and changed by the bare label, if and only if its ID or name, as the pattern's kind asks, passes the test |
| AdapterLabels.FlexAdaptersAreReached | sources/apps/idd-setup-tool/Utility.h:107-117 | every adapter with a Flex device ID is listed under "flex" and changed by typing it |
| AdapterLabels.OtherTextNamesNone | sources/apps/idd-setup-tool/EnableDisableAdapters.cpp:515-574 | a text that starts with no abbreviation, or continues one with anything but digits, names no pattern |
| AdapterLabels.ActsExactly | sources/apps/idd-setup-tool/EnableDisableAdapters.cpp:478-500 | changed are exactly the matching adapters whose id starts the target id, or all matching ones without a target |
| AdapterLabels.OnlyPrefixesChangedIff | sources/apps/idd-setup-tool/EnableDisableAdapters.cpp:488-491 | only adapters whose id starts the target id are changed if and only if the target id is not empty or no matching adapter has an id |
| AdapterLabels.EmptyIdChangesAll | sources/apps/idd-setup-tool/EnableDisableAdapters.cpp:488-491 | a numbered label that changes another adapter |
| AdapterLabels.CapitalNeverReached | sources/apps/idd-setup-tool/EnableDisableAdapters.cpp:504-518 | an abbreviation with a capital letter is never matched |
| StreamStatistics.FrameTimes.CalcFPS | sources/apps/webrtc-client/statistics-window-class.h:161-177 | one call is `Put` on the window and leaves the rate `Fps` |
| StreamStatistics.Metric.CalcStatistics | sources/apps/webrtc-client/statistics-window-class.h:46-67 | one call is `Calc` on sum, ring, minimum, maximum and average |
| StreamStatistics.WindowRefines | sources/apps/webrtc-client/statistics-window-class.h:161-171 | the running sum is the sum of the last 200 samples, and the sample count theirs |
| StreamStatistics.FpsIsRate | sources/apps/webrtc-client/statistics-window-class.h:173-176 | the rate is the number of the last 200 samples over their sum |
| StreamStatistics.StatsRefine | sources/apps/webrtc-client/statistics-window-class.h:46-67 | the same sum for every metric, and the average taken from it |
| StreamStatistics.HalvesGoAway | sources/apps/webrtc-client/statistics-window-class.h:62-66 | the average is rounded with halves away from zero |
| StreamStatistics.MaximumIsTrueIff | sources/apps/webrtc-client/statistics-window-class.h:52-53 | the reported maximum is the greatest sample if and only if no sample is zero, the latest one is, or some sample is positive |
| StreamStatistics.MaximumForgetsZero | sources/apps/webrtc-client/statistics-window-class.h:52-53 | after 0 and -5 the maximum is reported as -5 |
| StreamStatistics.MinimumIsTrueIff | sources/apps/webrtc-client/statistics-window-class.h:50-51 | the reported minimum is the least sample if and only if no sample is zero, the latest one is, or some sample is negative |
| StreamStatistics.MinimumForgetsZero | sources/apps/webrtc-client/statistics-window-class.h:50-51 | after 0 and 5 the minimum is reported as 5 |
| StreamStatistics.PlotIsLast | sources/apps/webrtc-client/implot-window.cc:156-167 | read from its offset with wraparound the plot is exactly the last accepted points, in order |
| StreamStatistics.AcceptedExactly | sources/apps/webrtc-client/implot-window.cc:158-159 | accepted are exactly the points not above 2000 |
| StreamStatistics.ScrollingBuffer.AddPoint | sources/apps/webrtc-client/implot-window.cc:156-167 | one call is `Plotted`; points above 2000 are ignored |
| StreamStatistics.ScrollingBuffer.Erase | sources/apps/webrtc-client/implot-window.cc:168-173 | the buffer is as new |

## Left out

- A control call that lands between `decode` and the flag check of the same `doOutput` is outside the transcoder model.
- The clean-up after EIO that empties the filter map while iterating over it (`sources/encoder/shared/CTransCoder.cpp:980-989`) has no well-defined container behaviour; the model has no filter error, and a filter without frames simply gives none.
- Several streams, the shared-memory build, the screen-capture encoder itself (its failures are inputs), and encoder options other than name, size, profile and level.
- The per-codec minimum resolutions of `IrrStreamer` and the output properties other than the codec.
- The encoder restart that a display request triggers on a change of resolution; the buffers do not depend on it.
- The swap-chain and start-handshake threads are step relations on values, one step per atomic action; memory ordering below that is not modelled.
- The minimum and maximum search of the scrolling plot, a plain scan.
- Liveness of the swap-chain worker's shutdown, which needs fairness of the operating system.
- The display variant of the labels in `RearrangeDisplays.cpp`, whose numbering follows other rules.
- The 32-bit wrap of the adapter counts, which needs 2^32 adapters.
- ExtractAndStoreParamInfo: does not bound the cells of an array target, as the source does not; the conversion of a piece is an input.
- SplitStringOnDelimiter: excludes an empty delimiter with content, on which the source never leaves its loop.
- ParseExpVidParam: option names other than those the loop reads are kept as text.
- FixedRateRunSpans: asks for a frame interval that is not negative.
- CalcFPS: the conversion of a negative rate to unsigned is undefined in the source and truncates here.
- Floating-point rounding: statistics are exact reals, and a plot has room for at least one point.
- FFmpeg, VA-API, QSV, D3D11, DXGI, SetupAPI, registry and WDF calls, of which only outcomes remain.
- Socket set-up, passing of file descriptors, pipe reading, process spawning and driver installation.
- User interface, help text, logging, cursor handling, JSON, default rate-control tables, EDID and mode lists, display layout and GPU pairing.
