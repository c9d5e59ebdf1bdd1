# Verified models of the device glue

Dafny models of the parts of the repository that carry real invariants, and proofs about them:

* **Camera post-processor** - a step system whose steps are the single locked queue operations of the
  producers, the reprocess and jpeg callbacks, the control calls and the worker; its invariants hold for
  every interleaving. The object with its queues is a class whose methods are proved to perform those steps.
* **Callback notifier** - built the same way: release exactly once, order of delivery, wake-ups, SNAPSHOT_DONE.
* **Truncated cube search** - the bisection over unbounded integers, with optimality and the exact condition
  for each of its outcomes.
* **Parameter batch and staged commit** - the list threaded through the parameter table, and the agreement of
  committed strings with the backend over every run; sizes lists and camera areas with their printers,
  parsers and coordinate mapping.
* **AR3K bring-up** - the configuration parser, the patch downloader and the HCI event reader. Packet
  formats follow the Bluetooth Core Specification, Vol 4 Part A section 2 and Part E sections 5.4.1 and 5.4.4.
* **Gralloc buffers** and the **reprocess channel** - who holds which buffer, and which reprocess stream
  belongs to which source stream.

Each object that the program updates in place is a class; its methods are proved against a function of the
old state, and the theorems are about that function or about all runs of it. Foreign calls (jpeg library,
reprocess channel, native window, backend, controller) appear as arguments that say how they answer, so every
result holds for every answer.

## Findings

Some general claims are false of the code. They are stated with the condition under which they hold, or with
the input for which they fail.

* A refused encode sends no wake-up. No waiting jpeg job ever loses its wake-up in a run if and only if every
  refusal comes while no job waits or a command is queued or owed (`PostProcTheorems.RefusalsStrandIff`);
  `RefusedEncodeStrands` gives a run that ends quiet with a job waiting, until something else is sent.
* The worker stores the id of a started job after the jpeg library may already have reported on it and the job been
  freed; that happens exactly if an event comes between the two (`PostProcTheorems.StoresLiveIff`, with a run in
  `EarlyEvent`). No frame is lost or released twice by it.
* A callback that passed the activity check before `exit` but is enqueued after the final flush is not released
  by the flush (`CbNotifierTheorems.ExitReleases`, with the run in `LateCallback`); the destructor of the queue
  releases it when the notifier is destroyed (`DestroyReleasesAll`).
* `forge` shifts by a negative amount exactly when a cube hits the target down to the last whole byte
  (`CubeSearch.Forge`), which for whole-byte key lengths means that the target is itself a cube. Any bytes with
  enough room have an extension for which that happens (`SomeExtensionFails`).
* `parse_pair` fails with BAD_VALUE while `parseSizesList` compares with -1, so an uninitialised size is pushed
  exactly when the parser gets to an empty element (`SizesList.JunkPushedIff`); the round trip holds if and only
  if the list is not empty (`SizesRoundTrip`).
* The comment on `parseCameraAreaString` shows areas printed with blanks; the largest valid area printed that
  way fills the 32-byte buffer and loses its terminator (`CameraAreas.SpacedAreaOverflows`). Validation accepts the
  empty list, whose printed form is rejected; all other valid lists within the maximum count are read back
  (`ValidAreasRoundTrip`).
* The width and height of a parsed area are computed in 32 bits. `CameraAreas.TupleWrapsIff` says for which numbers
  that wraps, and `WrappingTuplePasses` names a text that wrapping arithmetic would accept although the area lies
  far outside any preview.
* `read_hci_event` writes at or behind `size` exactly when `size` is 1 or 2 and the stream holds more than `size`
  bytes from the packet indicator on (`HciReader.SizeRespectedIff`).
* Parsing printed tags writes beyond some tag's data exactly if some tag has an odd length
  (`PsConfigTheorems.OddLengthOverrunsIff`); for files of any content, exactly if the last data line of a tag with
  an odd length is reached (`FileOverrunIff`).
* A comment line of 1000 characters or more, with its line end, is read in pieces. It leaves the parser as it is if
  and only if every later piece is a comment itself or, between two tags, does not open a tag
  (`PsConfigLines.CommentUnchangedIff`); `PsConfigTheorems.LongCommentBreaks` is a file that breaks.
* Patch pieces are numbered in 16 bits. A patch of any size reassembles in order, but all its pieces are understood
  with their own number exactly if there are at most 65536 (`PatchDownload.IndicesFitIff`).
* An import failure in the middle of `allocate` leaves exactly one buffer with neither side, and its flag set. A
  buffer is stored behind the end of the table exactly if the first 24 are given and imported and more are asked
  for (`Gralloc.QCameraGrallocMemory.Allocate`, reached by the answers of `ManyBuffers`).
* Adding reprocess streams a second time erases the earlier source handles
  (`ReprocChannel.EarlierSourcesForgotten`), and a handle is stored behind the end of the table exactly if the
  table is full when a source is to be stored (`AddReprocStreamsFromSource`), as when the same three streams are
  added twice (`SecondCallFillsTable`).

## Model

| member | source | states |
|---|---|---|
| PostProcTheorems.ReachableInv | camera/QCamera2/HAL/QCameraPostProc.cpp:1292-1488 | In every state reachable by any interleaving: frames conserved, at most one jpeg job with its id set once started, wake-ups cover the input queues |
| PostProcTheorems.EveryFrameAccountedFor | camera/QCamera2/HAL/QCameraPostProc.cpp:466-503 | In every reachable state each accepted frame is in exactly one queue, job or hand, or was released exactly once; other frames are nowhere |
| PostProcOrigins.FramesCameIn | camera/QCamera2/HAL/QCameraPostProc.cpp:473-497 | Over every run: frames waiting for or in reprocessing came in needing it; a jpeg job without a source frame holds a frame that came in not needing it, one with a source holds what was made from a frame that did |
| PostProcTheorems.StopReleasesEverything | camera/QCamera2/HAL/QCameraPostProc.cpp:1320-1377 | Stopped and quiet: all five queues are empty and every frame ever accepted was released exactly once |
| PostProcTheorems.FindJobAgrees | camera/QCamera2/HAL/QCameraPostProc.cpp:705-716 | At most one job is ongoing; taking the head equals the search by id iff nothing is ongoing or the head has that id, hence for an event on a started job iff its id has been stored |
| PostProcTheorems.StoresLiveIff | camera/QCamera2/HAL/QCameraPostProc.cpp:1167-1171 | Over every run: no id is ever about to be stored into a freed job iff no event comes between the start of a job and the store |
| PostProcTheorems.EarlyEvent | camera/QCamera2/HAL/QCameraPostProc.cpp:1167-1171 | Such a run |
| PostProcTheorems.NoStrandedWork | camera/QCamera2/HAL/QCameraPostProc.cpp:1378-1476 | DO_NEXT_JOB commands queued, owed or just taken are never fewer than the frames in the reprocess and in the raw input queue |
| PostProcTheorems.NoStrandedJpegJob | camera/QCamera2/HAL/QCameraPostProc.cpp:1383-1400 | If every encode starts, a jpeg job that waits while none is ongoing has a wake-up on its way, in every reachable active state |
| PostProcTheorems.QuietMeansDone | camera/QCamera2/HAL/QCameraPostProc.cpp:620-628 | If every encode starts, a quiet active system waits only for the jpeg library and for the reprocess channel, which has accepted every frame still ongoing |
| PostProcTheorems.RefusalsStrandIff | camera/QCamera2/HAL/QCameraPostProc.cpp:1391-1399 | Over every run: the wake-up for waiting jpeg jobs is there in all its states iff each refused encode comes while no job waits or a wake-up is queued or owed |
| PostProcTheorems.RunStrandsIff | camera/QCamera2/HAL/QCameraPostProc.cpp:1391-1399 | The same for every run from the initial state |
| PostProcTheorems.RefusedEncodeStrands | camera/QCamera2/HAL/QCameraPostProc.cpp:1391-1399 | Some run with one refusal ends quiet and active with a job waiting and none ongoing, so that nothing happens until something else is sent |
| PostProcTheorems.StepConserves | camera/QCamera2/HAL/QCameraPostProc.cpp:864-881 | Every step of any thread keeps each frame in exactly one place or released once |
| PostProcTheorems.StepKeepsShape | camera/QCamera2/HAL/QCameraPostProc.cpp:1383-1400 | Every step keeps the single ongoing job, its id, and the match between worker position, activity and the ongoing queues |
| PostProcTheorems.StepKeepsAwake | camera/QCamera2/HAL/QCameraPostProc.cpp:497-500 | Every step keeps enough wake-ups for the input queues |
| PostProcTheorems.StepKeepsJpegAwake | camera/QCamera2/HAL/QCameraPostProc.cpp:620-628 | Every step but a refused encode keeps a wake-up for a jpeg job that waits while none is ongoing |
| PostProcessor.FinishReachable | camera/QCamera2/HAL/QCameraPostProc.cpp:1292-1488 | A command handled without interruption is one of the interleavings, so it leads from reachable to reachable states |
| PostProcessor.StopFinishes | camera/QCamera2/HAL/QCameraPostProc.cpp:1320-1377 | The worker's steps for STOP add up to: all queues empty, everything outstanding released in queue order, reprocess channel gone |
| PostProcessor.EncodeFinishes | camera/QCamera2/HAL/QCameraPostProc.cpp:1383-1400 | The steps of the jpeg half of DO_NEXT_JOB add up to: one job started if none was ongoing, or given back if refused |
| PostProcessor.ReprocessFinishes | camera/QCamera2/HAL/QCameraPostProc.cpp:1402-1456 | The remaining steps add up to: one raw frame taken and one frame submitted, or released if there is no channel or it refuses |
| PostProcessor.DropFinishes | camera/QCamera2/HAL/QCameraPostProc.cpp:1457-1476 | While stopped, the steps of DO_NEXT_JOB give back one entry of each input queue |
| PostProcessor.QCameraPostProcessor.ProcessData | camera/QCamera2/HAL/QCameraPostProc.cpp:466-503 | Refused unless initialised; else the frame goes to the reprocess queue, the raw queue or the jpeg queue, as asked for, every other queue is unchanged, and one wake-up is sent (two for NV16) |
| PostProcessor.QCameraPostProcessor.ProcessRawData | camera/QCamera2/HAL/QCameraPostProc.cpp:517-528 | Refused unless initialised; else one raw frame and one wake-up |
| PostProcessor.QCameraPostProcessor.ProcessPPData | camera/QCamera2/HAL/QCameraPostProc.cpp:647-689 | Refused unless initialised or when nothing is ongoing; else the steps that pair the frame with the oldest source frame |
| PostProcessor.QCameraPostProcessor.ProcessJpegEvt | camera/QCamera2/HAL/QCameraPostProc.cpp:547-631 | BAD_VALUE when no job is found, else the head of the ongoing queue is taken and its frames are released, whatever its id and whatever becomes of the picture; the error code for each way that ends; a wake-up in all cases |
| PostProcessor.QCameraPostProcessor.Start | camera/QCamera2/HAL/QCameraPostProc.cpp:172-204 | START is sent unless a needed reprocess channel cannot be added or started, which clears the channel and gives the error of that failure |
| PostProcessor.QCameraPostProcessor.Stop | camera/QCamera2/HAL/QCameraPostProc.cpp:220-229 | STOP overtakes the queued commands, if initialised |
| PostProcessor.QCameraPostProcessor.HandleCommand | camera/QCamera2/HAL/QCameraPostProc.cpp:1313-1484 | For each command, every queue, flag and release afterwards, for every answer of the foreign calls; and that this is where the worker's steps lead |
| PostProcessor.QCameraPostProcessor.DataProcessRoutine | camera/QCamera2/HAL/QCameraPostProc.cpp:1292-1488 | The worker loop stays within the reachable states, so all results above hold of the object |
| CameraQueue.Queue.Dequeue | camera/QCamera2/util/QCameraQueue.cpp:185-212 | First or last item and the queue without it; nothing on an empty queue |
| CameraQueue.Queue.Flush | camera/QCamera2/util/QCameraQueue.cpp:224-250 | Empties the queue, handing every item to the release callback once, in order |
| CameraQueue.Queue.FlushNodes | camera/QCamera2/util/QCameraQueue.cpp:263-293 | Removes exactly the matching items, handing them out in order, and keeps the others in order |
| CameraQueue.FilterPartitions | camera/QCamera2/util/QCameraQueue.cpp:263-293 | Splitting a queue by a match loses and duplicates nothing |
| CbNotifierTheorems.ReachableInv | camera/QCamera2/HAL/QCamera2HWICallbacks.cpp:1300-1448 | In every reachable state: callbacks conserved and in order, wake-ups sufficient, snapshot counters true to the session |
| CbNotifierTheorems.ReleasedExactlyOnce | camera/QCamera2/HAL/QCamera2HWICallbacks.cpp:1252-1263 | Every accepted callback waits, is at hand, or was released exactly once, whether or not its message is enabled |
| CbNotifierTheorems.ExitReleases | camera/QCamera2/HAL/QCamera2HWICallbacks.cpp:1435-1440 | After the flush on EXIT and until destruction, a callback has been released iff it was enqueued before that flush, and then once; after destruction every accepted one has |
| CbNotifierTheorems.DestroyReleasesAll | camera/QCamera2/util/QCameraQueue.cpp:83-87 | Once the notifier is destroyed, every callback ever accepted has been released exactly once |
| CbNotifierTheorems.LateCallback | camera/QCamera2/HAL/QCamera2HWICallbacks.cpp:1462-1484 | A run in which a callback misses the flush on EXIT and is released by the destructor |
| CbNotifier.QCameraCbNotifier.Destroy | camera/QCamera2/util/QCameraQueue.cpp:83-87 | Destruction releases what is left in the queue, in order |
| CbNotifierTheorems.DeliveredInOrder | camera/QCamera2/HAL/QCamera2HWICallbacks.cpp:1340-1427 | Delivered callbacks keep the order in which they were enqueued, across STOP flushes and disabled messages |
| CbNotifierTheorems.StepDelivers | camera/QCamera2/HAL/QCamera2HWICallbacks.cpp:1350-1425 | A step hands up the number of the callback at hand exactly if its message is enabled and the function for its kind is set, and a session runs if it is a snapshot |
| CbNotifierTheorems.DeliveredExactly | camera/QCamera2/HAL/QCamera2HWICallbacks.cpp:1340-1433 | Over every run, what is delivered is exactly the callbacks handled that way, in that order |
| CbNotifierTheorems.DeliveredThenReleased | camera/QCamera2/HAL/QCamera2HWICallbacks.cpp:1426-1429 | Whatever was delivered has been released once |
| CbNotifierTheorems.QuietMeansDelivered | camera/QCamera2/HAL/QCamera2HWICallbacks.cpp:1462-1484 | Pending DO_NEXT_JOB commands cover the queued callbacks, so a quiet notifier has none left |
| CbNotifierTheorems.SnapshotDone | camera/QCamera2/HAL/QCamera2HWICallbacks.cpp:1324-1411 | In every run SNAPSHOT_DONE is raised exactly at the N-th enabled snapshot of a session started with N > 0, never while inactive, and two of them have a START between them |
| CbNotifierTheorems.AtMostOncePerSession | camera/QCamera2/HAL/QCamera2HWICallbacks.cpp:1395-1411 | Between two SNAPSHOT_DONE events a session was started |
| CbNotifierTheorems.FilterOrder | camera/QCamera2/HAL/QCamera2HWICallbacks.cpp:1331-1338 | Flushing the snapshot callbacks keeps the order of the rest relative to everything delivered and to come |
| CbNotifierTheorems.StepKeepsAwake | camera/QCamera2/HAL/QCamera2HWICallbacks.cpp:1477-1478 | Every step keeps as many DO_NEXT_JOB commands queued or owed as callbacks waiting |
| CbNotifier.QCameraCbNotifier.NotifyCallback | camera/QCamera2/HAL/QCamera2HWICallbacks.cpp:1462-1484 | Refused once inactive; else exactly the steps admit, enqueue, wake up |
| CbNotifier.QCameraCbNotifier.StartSnapshots | camera/QCamera2/HAL/QCamera2HWICallbacks.cpp:1533-1536 | START overtakes the queued commands |
| CbNotifier.QCameraCbNotifier.StopSnapshots | camera/QCamera2/HAL/QCamera2HWICallbacks.cpp:1547-1550 | STOP overtakes the queued commands |
| CbNotifier.QCameraCbNotifier.Exit | camera/QCamera2/HAL/QCamera2HWICallbacks.cpp:1235-1239 | No callback is accepted any more, and EXIT overtakes the queued commands |
| CbNotifier.QCameraCbNotifier.HandleCommand | camera/QCamera2/HAL/QCamera2HWICallbacks.cpp:1321-1443 | For each command, the queue, the counters, what is delivered and what is released afterwards, whatever the parent answers; and that this is where the thread's steps lead |
| CbNotifier.QCameraCbNotifier.CbNotifyRoutine | camera/QCamera2/HAL/QCamera2HWICallbacks.cpp:1300-1448 | The thread loop stays within the reachable states |
| CubeSearch.Forge | pyCuber/cuber.py:20-53 | Terminates; each error outcome with its exact condition; a result r has a k >= 0 with T <= r^3 < T + 2^(sh0-8k), and no cube lies in [T, T + 2^(sh0-8(k+1))); for whole-byte key lengths r^3 starts with the bytes 00 01, eight times FF, 00 and the given ones |
| CubeSearch.NegativeShiftMeansCube | pyCuber/cuber.py:36-44 | For whole-byte key lengths the shift turns negative iff T is a cube |
| CubeSearch.EnoughRoom | pyCuber/cuber.py:25-33 | sh0 >= 2((b-16)//3)+4 rules out "No perfect cube" |
| CubeSearch.SomeExtensionFails | pyCuber/cuber.py:35-44 | With that much room and a whole-byte key length, some extension of the bytes makes the target a cube, so that the shift turns negative |
| CubeSearch.InitialBounds | pyCuber/cuber.py:29-33 | The first bounds enclose the target: lo^3 < T and hi^3 >= T + 2^sh0 |
| CubeSearch.TargetBytes | pyCuber/cuber.py:29 | The target T is the number whose bytes are the padding, the given bytes and zeros |
| CubeSearch.B2L | pyCuber/cuber.py:5-10 | The big-endian value of the bytes |
| CubeSearch.L2B | pyCuber/cuber.py:12-18 | n bytes whose value is the number modulo 2^(8n), so the inverse of B2L on numbers that fit |
| ParamBatch.ParmBuffer.InitBatchUpdate | camera/QCamera2/HAL/QCameraParameters.cpp:6158-6168 | The table is cleared and links exactly HAL_VERSION |
| ParamBatch.ParmBuffer.AddSetParmEntryToBatch | camera/QCamera2/HAL/QCameraParameters.cpp:6185-6225 | The search ends; the links visit exactly the old ids and the new one; the value overlays its slot iff it fits, and no other slot changes |
| ParamBatch.WalkVisitsLinked | camera/QCamera2/HAL/QCameraParameters.cpp:6193-6214 | Following the links from the head visits exactly the linked ids, strictly increasing, up to the end mark |
| ParamBatch.AddedIds | camera/QCamera2/HAL/QCameraParameters.cpp:6158-6225 | After any adds the linked ids are those linked before and exactly the added ones |
| ParamBatch.OrderIndependent | camera/QCamera2/HAL/QCameraParameters.cpp:6193-6214 | Two add sequences with the same ids give the same visited list |
| ParamBatch.LastWriteWins | camera/QCamera2/HAL/QCameraParameters.cpp:6219-6224 | A slot starts with the last value written to it that fits |
| ParamBatch.UntouchedSlot | camera/QCamera2/HAL/QCameraParameters.cpp:6219-6224 | A slot that no fitting entry addresses keeps its content |
| ParamBatch.Le32Weights | camera/QCamera2/HAL/QCameraParameters.cpp:6223 | The bytes copied for an integer are little-endian |
| ParamCommit.CommittedAgreesWithBackend | camera/QCamera2/HAL/QCameraParameters.cpp:6282-6355 | Over any run of stage and commit steps with any answers, every committed string maps through its table to the value the backend has |
| ParamCommit.CommittedEntry | camera/QCamera2/HAL/QCameraParameters.cpp:6282-6355 | Said of the tables: every committed string is the name of an entry, and the backend has the value of the first such entry |
| ParamCommit.StepKeepsInv | camera/QCamera2/HAL/QCameraParameters.cpp:6282-6293 | Each step keeps committed strings with the backend and staged strings with the batch, across refused batches |
| ParamCommit.LookupAttr | camera/QCamera2/HAL/QCameraParameters.cpp:943-952 | The value of the first entry with the name; NAME_NOT_FOUND if no entry has it or the name is null |
| ParamCommit.QCameraParameters.InitBatchUpdate | camera/QCamera2/HAL/QCameraParameters.cpp:6158-6168 | Drops the staged strings and starts a batch; committed strings stay |
| ParamCommit.QCameraParameters.SetByName | camera/QCamera2/HAL/QCameraParameters.cpp:3672-3689 | A name in no entry changes nothing; a known one is staged and the value of its first entry linked, and no other slot changes |
| ParamCommit.QCameraParameters.CommitSetBatch | camera/QCamera2/HAL/QCameraParameters.cpp:6282-6293 | A refused batch changes neither side; an accepted one commits exactly the staged strings and the linked slots |
| ParamCommit.QCameraParameters.CommitParamChanges | camera/QCamera2/HAL/QCameraParameters.cpp:6345-6354 | Exactly the staged strings are merged into the committed ones, in whatever order the map is walked |
| SizesList.SizesRoundTrip | camera/QCamera2/HAL/QCameraParameters.cpp:3503-3526 | Parsing a printed list of 32-bit pairs pushes exactly that list iff it is not empty |
| SizesList.TwoSizes | camera/QCamera2/HAL/QCameraParameters.cpp:831-849 | The text of two sizes, printed and parsed |
| SizesList.JunkPushedIff | camera/QCamera2/HAL/QCameraParameters.cpp:3511-3522 | What is pushed depends on uninitialised memory iff the parser gets to an empty element |
| SizesList.CreateHfrSizesString | camera/QCamera2/HAL/QCameraParameters.cpp:831-849 | The loop builds the printed list; no entry is cut off by the local buffer |
| SizesList.ParseSizesList | camera/QCamera2/HAL/QCameraParameters.cpp:3503-3526 | Terminates on every string and pushes what the grammar of pairs says |
| SizesList.ParsePrintedPair | camera/QCamera2/HAL/QCameraParameters.cpp:3464-3490 | A printed pair is read back up to its separator |
| CameraAreas.AreasRoundTrip | camera/QCamera2/HAL/QCameraParameters.cpp:6039-6086 | Parsing printed areas, with or without blanks, gives them back iff there are some, not more than the maximum count, and each fits the local buffer |
| CameraAreas.ValidAreasRoundTrip | camera/QCamera2/HAL/QCameraParameters.cpp:6039-6086 | For every list that validation accepts, printed without blanks, iff it is not empty and not longer than the maximum count |
| CameraAreas.SpacedAreaOverflows | camera/QCamera2/HAL/QCameraParameters.cpp:6024-6064 | The largest valid area printed with blanks fills the buffer completely |
| CameraAreas.ParseNDimVector | camera/QCamera2/HAL/QCameraParameters.cpp:5995-6021 | Fills the array iff the text stands in parentheses and holds that many numbers, each read behind the comma that ends the one before |
| CameraAreas.ParseCameraAreaString | camera/QCamera2/HAL/QCameraParameters.cpp:6039-6086 | The loop returns what the grammar of areas says, including too many areas, malformed text, buffer overflow and sizes that do not fit 32 bits |
| CameraAreas.TupleWrapsIff | camera/QCamera2/HAL/QCameraParameters.cpp:6076-6080 | A text of five 32-bit numbers that fits the buffer is an area iff right - left and bottom - top fit 32 bits |
| CameraAreas.GapIgnored | camera/QCamera2/HAL/QCameraParameters.cpp:6082-6083 | What stands between areas or behind the last does not matter as long as no area opens in it |
| CameraAreas.OneAreaText | camera/QCamera2/HAL/QCameraParameters.cpp:6076-6080 | The text of one area, parsed |
| CameraAreas.WrappingTuplePasses | camera/QCamera2/HAL/QCameraParameters.cpp:6076-6134 | A text whose width wraps to 1 and whose right edge turns negative: wrapping arithmetic passes every test although the area starts right of any preview |
| CameraAreas.ParsedFit | camera/QCamera2/HAL/QCameraParameters.cpp:6066-6080 | All fields and edges of parsed areas fit 32 bits, so the sums of the validation never wrap for them |
| CameraAreas.ValidateCameraAreas | camera/QCamera2/HAL/QCameraParameters.cpp:6100-6144 | Accepts exactly the default area and lists in which every area is in range; says exactly when a sum wraps before that is decided |
| CameraAreas.RoiInPreview | camera/QCamera2/HAL/QCameraParameters.cpp:4476-4481 | The focus region of a valid area lies inside the preview on both axes |
| CameraAreas.RoiExact | camera/QCamera2/HAL/QCameraParameters.cpp:4476-4481 | Position and size of the region are those of the area, scaled by the preview size over 2000 and rounded down |
| CameraAreas.FullRoi | camera/QCamera2/HAL/QCameraParameters.cpp:4476-4481 | The whole field of view maps to the whole preview |
| CameraAreas.PointInPreview | camera/QCamera2/HAL/QCameraParameters.cpp:4550-4564 | The metering point of a valid area is a pixel of the preview |
| CameraAreas.PointExact | camera/QCamera2/HAL/QCameraParameters.cpp:4550-4564 | The point is the centre of the area, scaled and rounded in the same way |
| CameraAreas.SetFocusAreas | camera/QCamera2/HAL/QCameraParameters.cpp:4424-4489 | Which texts are ignored, rejected, accepted or wrap in 32 bits, and for accepted ones exactly the regions in order; none for the default area |
| CameraAreas.SetMeteringAreas | camera/QCamera2/HAL/QCameraParameters.cpp:4503-4573 | The same for metering points |
| HciReader.ReadHciEvent | bluetooth/libbt-vendor/src/hci_uart.c:334-380 | Result, buffer, remaining stream and the extent of what is written are functions of the pending bytes alone, however they are cut into reads |
| HciReader.EventRead | bluetooth/libbt-vendor/src/hci_uart.c:346-378 | Behind the first 04 the event is three bytes and as many more as the third says and as fit, and the rest is left; without all of these there is none and the stream is used up |
| HciReader.NoEventRead | bluetooth/libbt-vendor/src/hci_uart.c:346-364 | Streams without an event header give none and are used up |
| HciReader.CutAnywhere | bluetooth/libbt-vendor/src/hci_uart.c:348-378 | Cutting any chunk in two leaves the pending bytes, and so the event read, unchanged |
| HciReader.SizeRespectedIff | bluetooth/libbt-vendor/src/hci_uart.c:358-376 | The reads write at or behind size iff size is 1 or 2 and the stream holds more than size bytes from the indicator on |
| HciReader.PacketRecovered | bluetooth/libbt-vendor/src/hci_uart.c:346-378 | An event packet is recovered whole, leaving what follows it, iff its parameters fit the buffer |
| HciReader.NoiseSkipped | bluetooth/libbt-vendor/src/hci_uart.c:346-354 | Bytes other than the indicator in front of an event do not matter |
| HciReader.PacketsRecovered | bluetooth/libbt-vendor/src/hci_uart.c:334-380 | With size >= 258 repeated calls recover any concatenation of packets, with noise between them, in order |
| PsConfigTheorems.PsRoundTrip | bluetooth/libbt-vendor/src/hw_ar3k.c:571-670 | Up to 49 printed tags with even lengths 2 to 500, with or without the preamble [A] on data lines, and with comment lines of any length anywhere between that leave the parser as it is, parse to the same tags, whatever the buffers held |
| PsConfigTheorems.ShortCommentsCalm | bluetooth/libbt-vendor/src/hw_ar3k.c:583-592 | Comment lines of fewer than 1000 characters always do |
| PsConfigLines.Formats | bluetooth/libbt-vendor/src/hw_ar3k.c:446-512 | The format of lines without a preamble, with [X], with [X:Y], with one that is too long and with one that is not closed |
| PsConfigTheorems.LengthLine | bluetooth/libbt-vendor/src/hw_ar3k.c:614-628 | What each 16-bit number does as a length |
| PsConfigTheorems.OtherData | bluetooth/libbt-vendor/src/hw_ar3k.c:631-660 | A data line in another format is counted and skipped |
| PsConfigTheorems.LastSlot | bluetooth/libbt-vendor/src/hw_ar3k.c:653-660 | Completing a tag leads to the next slot, and in the last of the 50 to an error |
| PsConfigLines.CommentUnchangedIff | bluetooth/libbt-vendor/src/hw_ar3k.c:583-592 | Reading a comment line, in however many pieces, leaves the parser in any state as it is iff every later piece is a comment or, between two tags, does not open one |
| PsConfigLines.LineUnchangedIff | bluetooth/libbt-vendor/src/hw_ar3k.c:583-592 | The same for lines of any kind, with a condition on every piece |
| PsConfigLines.RunReadsLine | bluetooth/libbt-vendor/src/hw_ar3k.c:583-670 | A run over the file reads a line of any length piece by piece, each through the same line buffer |
| PsConfigTheorems.OverrunIff | bluetooth/libbt-vendor/src/hw_ar3k.c:618-650 | A data line writes behind its tag's data iff it is hexadecimal data and an odd count below 16 is still to come |
| PsConfigTheorems.FileOverrunIff | bluetooth/libbt-vendor/src/hw_ar3k.c:571-670 | Parsing a file writes behind some tag's data iff it reaches such a line |
| PsConfigTheorems.OddLengthOverrunsIff | bluetooth/libbt-vendor/src/hw_ar3k.c:571-670 | Up to 49 printed tags of any lengths 1 to 500, with comment lines that leave the parser as it is: the parse writes behind some tag's data iff some length is odd |
| PsConfigTheorems.EvenFileSafe | bluetooth/libbt-vendor/src/hw_ar3k.c:571-670 | A file whose declared lengths are even never writes outside a tag's data, whatever its lines contain |
| PsConfigTheorems.StepKeepsShape | bluetooth/libbt-vendor/src/hw_ar3k.c:538-554 | After every line the bytes written and still to come make up the tag's data |
| PsConfigTheorems.LongCommentBreaks | bluetooth/libbt-vendor/src/hw_ar3k.c:583-589 | A comment of 1001 characters makes a file malformed that is well-formed without it |
| PsConfig.AthParsePs | bluetooth/libbt-vendor/src/hw_ar3k.c:571-670 | The loop over lines fills the tag list as the line-by-line meaning says; the tag index stays below MAX_TAGS |
| PsConfig.UpdateTagData | bluetooth/libbt-vendor/src/hw_ar3k.c:538-554 | Two bytes at a time are written into the tag's own data and nowhere else, or the overrun is reported |
| PatchDownload.PsPatchDownload | bluetooth/libbt-vendor/src/hw_ar3k.c:899-956 | The commands for all pieces and the enable command, or for the whole pieces alone if the file ends early, are sent in order up to the first refused one; the piece count is returned iff the file holds all bytes and none is refused; what was sent then decodes to patch writes (8) with the file's bytes and at last an enable (11) |
| PatchDownload.HeaderLine | bluetooth/libbt-vendor/src/hw_ar3k.c:909-921 | Empty lines are skipped, patch locations sent, a line that starts with a hexadecimal digit gives the byte count, and any other is refused |
| PatchDownload.PatchReassembles | bluetooth/libbt-vendor/src/hw_ar3k.c:925-947 | A file with any byte count N > 0 and 2N hex digits yields ceil(N/244) commands whose payloads concatenate to exactly those bytes, with indices modulo 2^16 |
| PatchDownload.CommandsReassemble | bluetooth/libbt-vendor/src/hw_ar3k.c:278-290 | The commands for data of any size reassemble to it, each fits its buffer, and their indices are consecutive modulo 2^16 |
| PatchDownload.IndicesFitIff | bluetooth/libbt-vendor/src/hw_ar3k.c:278-290 | All pieces are understood with their own number iff the numbers fit 16 bits |
| PatchDownload.CommandUnderstood | bluetooth/libbt-vendor/src/hw_ar3k.c:278-290 | A command decodes to its operation, index and payload iff the payload has at most 251 bytes and the index 16 bits |
| PatchDownload.AppendPiece | bluetooth/libbt-vendor/src/hw_ar3k.c:927-949 | One more piece after full ones is one more command with the next index |
| PatchDownload.SendPiece | bluetooth/libbt-vendor/src/hw_ar3k.c:940-945 | The bytes of the command sent, header and payload |
| PatchDownload.LoadHciPsHdr | bluetooth/libbt-vendor/src/hw_ar3k.c:278-290 | The seven header bytes of a PS command, with nothing else written |
| Gralloc.SessionReturnsAll | camera/QCamera2/HAL/QCameraMem.cpp:974-1221 | From a conserved state, any displayed frames with any answers and then deallocate leave every buffer with the window, none handed to it twice |
| Gralloc.DisplayConserves | camera/QCamera2/HAL/QCameraMem.cpp:974-1010 | Every buffer stays with exactly one side; a non-negative result is a buffer the HAL now owns; no other buffer than the displayed one moves |
| Gralloc.DisplayExact | camera/QCamera2/HAL/QCameraMem.cpp:974-1010 | Showing an owned buffer: the window gets it if it accepts it, and the result is the wanted buffer if the window then has that, and -75 otherwise |
| Gralloc.DeallocateReturnsAll | camera/QCamera2/HAL/QCameraMem.cpp:1194-1221 | Deallocating gives back each owned buffer once, and the window then holds all |
| Gralloc.QCameraGrallocMemory.DisplayBuffer | camera/QCamera2/HAL/QCameraMem.cpp:974-1010 | State and result are those of the enqueue-then-dequeue specification, including a buffer that is not owned and a failed enqueue |
| Gralloc.QCameraGrallocMemory.Allocate | camera/QCamera2/HAL/QCameraMem.cpp:1025-1183 | Exactly when it succeeds, and then: ownership conserved unless an earlier import failure left a flag set behind the buffers, exactly the first minimum-undequeued buffers with the window. Dequeue failure: everything rolled back. Import failure: exactly one buffer lost. Out of the table iff the first 24 buffers are given and imported and more are asked for |
| Gralloc.ManyBuffers | camera/QCamera2/HAL/QCameraMem.cpp:1078-1083 | A window and driver that grant any number of buffers, so that more than 24 reach the end of the table |
| Gralloc.QCameraGrallocMemory.CancelFirst | camera/QCamera2/HAL/QCameraMem.cpp:1095-1102 | The window gets back exactly the first buffers, each once |
| Gralloc.GrantsNext | camera/QCamera2/HAL/QCameraMem.cpp:1078-1103 | A dequeue succeeds iff it names a buffer of the window not given before |
| Gralloc.QCameraGrallocMemory.Deallocate | camera/QCamera2/HAL/QCameraMem.cpp:1194-1221 | The loop gives back every owned buffer, in order |
| Gralloc.QCameraGrallocMemory.GetRegFlags | camera/QCamera2/HAL/QCameraMem.cpp:1255-1263 | The flags written; right after allocate they equal the ownership flags |
| ReprocChannel.LookupFindsBuilt | camera/QCamera2/HAL/QCameraChannel.cpp:797-809 | With distinct source handles, lookup returns the stream built from that source, and nothing for skipped sources or other handles |
| ReprocChannel.SkippedIff | camera/QCamera2/HAL/QCameraChannel.cpp:705-719 | Metadata is always skipped; with HDR and no thumbnail of it, previews, postviews and what was made from them too; nothing else is |
| ReprocChannel.QCameraReprocessChannel.AddReprocStream | camera/QCamera2/HAL/QCameraChannel.cpp:723-775 | Every field of the stream made from a source: its input, turned dimensions, and features |
| ReprocChannel.BundleResubmitted | camera/QCamera2/HAL/QCameraChannel.cpp:823-878 | A buffer of an unskipped source is submitted to the stream built from that source; a buffer of a skipped source is not submitted |
| ReprocChannel.SubmittedOnceInOrder | camera/QCamera2/HAL/QCameraChannel.cpp:849-876 | Mapped buffers and submissions correspond one to one and in order |
| ReprocChannel.FirstRefusedIs | camera/QCamera2/HAL/QCameraChannel.cpp:870-874 | Submission stops at the first mapped buffer that is answered with an error |
| ReprocChannel.FindMetaIsFirst | camera/QCamera2/HAL/QCameraChannel.cpp:836-847 | The metadata sent along is that of the first buffer from a metadata stream of the source channel |
| ReprocChannel.EarlierSourcesForgotten | camera/QCamera2/HAL/QCameraChannel.cpp:688-700 | Adding streams again erases the earlier source handles |
| ReprocChannel.ReturnedOnce | camera/QCamera2/HAL/QCameraChannel.cpp:296-312 | Every buffer whose stream is in the channel is given back exactly once |
| ReprocChannel.QCameraReprocessChannel.AddReprocStreamsFromSource | camera/QCamera2/HAL/QCameraChannel.cpp:688-785 | Succeeds iff every unskipped source gets its stream and all fit the table; the table then maps exactly those, and up to the first failure otherwise; out of the table iff it is full when a source is to be stored, never on a new channel |
| ReprocChannel.ExcessFillsTable | camera/QCamera2/HAL/QCameraChannel.cpp:767-775 | If every stream can be made and all together exceed the table, its end is reached |
| ReprocChannel.SecondCallFillsTable | camera/QCamera2/HAL/QCameraChannel.cpp:767-775 | So it is when three or more streams of one source channel are added twice |
| ReprocChannel.QCameraReprocessChannel.GetStreamBySourceHandle | camera/QCamera2/HAL/QCameraChannel.cpp:797-809 | The stream of the first entry with the source handle |
| ReprocChannel.QCameraReprocessChannel.DoReprocess | camera/QCamera2/HAL/QCameraChannel.cpp:823-878 | -1 without streams or source; else all mapped buffers are submitted in order up to the first refusal, whose code is returned, each with the bundle's metadata |
| ReprocChannel.QCameraChannel.BufDone | camera/QCamera2/HAL/QCameraChannel.cpp:296-312 | A failure does not keep the other buffers from going back; only the last answer is reported |
| ReprocChannel.QCameraChannel.GetStreamByHandle | camera/QCamera2/HAL/QCameraChannel.cpp:350-358 | The first stream with the handle, or none |
| ReprocChannel.QCameraChannel.AddStream | camera/QCamera2/HAL/QCameraChannel.cpp:156-187 | Appends the stream iff there is room and it could be initialised |

## Left out

- PostProcessor: the raw and NV16 delivery bookkeeping beyond its wake-ups, jpeg sessions, output buffers and
  EXIF, memory running out for jobs, and the destruction of the queues.
- PostProcSteps: jobs are values; what a store to a freed job overwrites is not modelled.
- PostProcessor.QCameraPostProcessor.ProcessJpegEvt: does not model the error event sent to the upper layer.
- PostProcessor.QCameraPostProcessor.Stop: does not model the wait for the worker's acknowledgement nor the
  notifier's STOP, which has its own model.
- PostProcessor.QCameraPostProcessor.Start: does not model the notifier's START, which has its own model, nor the
  raw burst count.
- PostProcessor: which channel a released frame goes back to; releasing after the reprocess channel has been
  deleted finds no channel in the program.
- CameraQueue.Queue: the linked nodes behind the queue; a queue is the sequence of its items.
- CbNotifier.QCameraCbNotifier.Exit: does not model the join of the thread.
- CbNotifier.QCameraCbNotifier.Destroy: a caller that is still inside when the notifier is destroyed has no
  further step; what it would do is undefined in the program.
- CbNotifier: `sendCmd` never fails and counters do not wrap at 32 bits.
- CubeSearch: the command line around the search.
- ParamBatch: the byte layout of the table beyond ids, links and slots; getting parameters.
- ParamCommit.QCameraParameters.CommitParamChanges: does not model the recording-hint, ZSL and scene-mode
  updates that follow the merge. `m_bZslMode_new` and `m_bRecordingHint_new` are not cleared by a refused commit.
- ParamCommit: settings are assumed not to share keys or ids.
- CameraAreas.RoiInPreview: real arithmetic in place of float.
- CameraAreas.PointInPreview: real arithmetic in place of float.
- CameraAreas.ParseCameraAreaString: a buffer overflow or a wrapping size ends the parse with its own outcome;
  what the program does after it is undefined.
- SizesList.ParseSizesList: what an uninitialised width and height hold is an arbitrary function of the position.
- HciReader: interrupted reads; a read that fails is one after which nothing more comes.
- PsConfigTheorems.PsRoundTrip: one direction; a comment that changes the parser can still end in the same tags,
  for example in front of the end of the file.
- PsConfig.AthParsePs: what lies behind the line buffer reads as the terminator; write failures of the download
  that follows the parse, and PS_WRITE payloads above 251 bytes.
- PatchDownload.PsPatchDownload: the contents of a `DA:` patch-location command; only its answer matters.
- Gralloc.QCameraGrallocMemory.Allocate: takes the two ways an import can fail as one, and ends when a buffer
  would be stored behind the end of the table.
- Gralloc: cancelling a buffer always succeeds, and the window gives out only buffers it made for the current count.
- ReprocChannel: reprocessing by file descriptor, starting and stopping channels, and queries of format and
  dimension that fail.
- Sensors, lights, MAC address files, device I/O, frame dumps, `lockAPI` and the HAL state machine.
