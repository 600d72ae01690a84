# SystemAudioTranscriber: pattern lock and transcription service, modelled in Dafny

SystemAudioTranscriber is an Android app. It shows a pattern lock. Once the lock opens, it starts a
background service. The service captures the phone's playback audio, feeds it chunk by chunk to an
offline speech recognizer, and sends the recognizer's final and partial results to a floating popup.

This project models the two parts of the app that carry its own logic:

- **The pattern lock** (`Lock`, from `main.py`). It keeps the list of pressed button ids, the fixed
  secret `[1, 5, 9, 6, 3]`, the status-label text, and the number of times the unlock callback has
  fired. Pressing a button appends its id and shows one `"* "` per press. Clear empties the list.
  Submit unlocks exactly once on the secret and empties the list on anything else. The 3x3 grid
  gives its buttons the ids 1 to 9.
- **The main screen's update guard** (`Screen`, from `main.py`). A transcription update is dropped
  while no popup exists. Otherwise one update carrying the same text is queued on the UI clock. When
  the clock runs the queue, the popup shows the last text.
- **The per-chunk dispatch rule** (`Capture`, from `service.py`). A read that returned zero or less
  delivers nothing. A positive read feeds the first read-size bytes of the buffer to the recognizer.
  If the recognizer accepted the chunk, its non-empty final text is the message. Otherwise its
  non-empty partial, prefixed with `"[...] "`, is the message. Empty results are dropped. The
  functions `Messages` and `FedChunks` give what a whole run of the loop delivers and feeds. `LoopMessages`
  is what the iterations deliver themselves, and `FirstFault` is the reason of the exception that
  leaves the loop, if one does.
- **The service** (`Service`, from `service.py`). A class `TranscriptionService` holds the fields
  that `start` and `stop` set, `running` and `audio_record` among them. Its capture thread runs as
  the method `CaptureAudio`. `ServiceHost` holds the class attribute `_instance`, the singleton
  factory, and `start_service`/`stop_service`.

Foreign inputs are given as parameters:

- Each iteration of the read loop is a value `Step`. `Chunk(readSize, buffer, outcome)` holds the
  value `AudioRecord.read` returned, the buffer's contents after the read, and the recognizer's
  answer. The other three variants stand for an exception that leaves the loop partway through an
  iteration. `Fault(reason)` is raised by the read itself, before anything is fed.
  `FaultAfterFeed` is raised once the recognizer was handed the read's bytes, by the recognizer or
  by `json.loads`. `FaultAfterMessage` is raised by the callback, after the chunk's message was
  recorded as the current text and handed to it.
- `getMediaProjection` becomes the boolean `projectionGranted`.
- `os.path.exists(model_path)` becomes the boolean `modelPresent`.
- A callback is a boolean that says whether one is registered. Its calls are logged in the
  sequence `delivered`. The lock's unlock callback is the counter `unlocks`.

The read loop is `while self.running`. The flag that ends it is cleared by `stop()` on another
thread. The model treats that as the environment: the flag falls once the given steps are used up.

The code does not do some things a reader might expect of such a service:

- `start` is not idempotent. Every call stores its arguments and starts one more capture thread,
  even when the service is already running (`captureThreads` counts them).
- There is no Idle/Starting/Running/Error state machine. There are only the flags `running` and
  `audio_record`.
- A missing media projection or a missing model delivers its message and returns, but leaves
  `running` true.
- An exception in the loop delivers `"Error: " + reason` and skips the release of the audio record.
- There is no loopback-device selection and no silence threshold in the code, and neither is
  modelled.
- A result is dropped, not queued, when no callback is registered or no popup exists.

## Model

| member | source | states |
|---|---|---|
| `Lock.InitialIsEmpty` | main.py:48-49 | a fresh lock has an empty pattern, the secret 1,5,9,6,3 and no unlocks |
| `Lock.GridIdsAreOneToNine` | main.py:64-67 | every cell (i, j) of the 3x3 grid gets the id i*3+j+1 in 1..9; the cell is recovered from the id (so ids are distinct); every id 1..9 belongs to a cell |
| `Lock.GridButtonIds` | main.py:63-73 | the nested grid loop creates exactly nine buttons whose ids, in creation order, are 1, 2, ..., 9 |
| `Lock.PatternLock.constructor` | main.py:44-82 | a new lock holds the initial state: empty pattern, the fixed secret, status "Draw your pattern", no unlocks, button ids 1..9 |
| `Lock.StarsShape` | main.py:105 | `"* "` repeated n times has length 2n, alternates '*' and ' ', and holds exactly n stars |
| `Lock.ProgressShowsOneStarPerPress` | main.py:105 | the progress status is "Pattern: " followed by n alternating '*'/' ' pairs, and holds exactly n stars |
| `Lock.AddAppends` | main.py:101-105 | pressing a button grows the pattern by one, keeps the earlier entries, puts the id last (repeats allowed), and the status shows one star per entry; the secret and the unlock count are unchanged |
| `Lock.PatternLock.AddToPattern` | main.py:101-105 | the lock's new state is the pure `Add` of its old state |
| `Lock.ClearIsIdempotent` | main.py:107-110 | Clear empties the pattern whatever it held, keeps secret and unlock count, and clearing twice equals clearing once |
| `Lock.PatternLock.ClearPattern` | main.py:107-110 | the lock's new state is the pure `Clear` of its old state |
| `Lock.CheckUnlocksIffSecret` | main.py:112-120 | Submit fires the unlock callback exactly once if and only if the pattern equals the secret; then the pattern is kept, otherwise nothing fires and the pattern is emptied |
| `Lock.NearMissesAreRejected` | main.py:114-120 | a proper prefix or a proper extension of the secret never unlocks, empties the pattern and shows "Incorrect pattern. Try again." |
| `Lock.PatternLock.CheckPattern` | main.py:112-120 | the lock's new state is the pure `Check` of its old state |
| `Lock.AddAllAppends` | main.py:101-103 | pressing a sequence of buttons appends exactly that sequence, in order |
| `Lock.ClearPressSubmit` | main.py:101-120 | after Clear, pressing ids and submitting unlocks (once) exactly when the ids are the secret; any other sequence leaves the lock locked with an empty pattern |
| `Screen.MainScreen.constructor` | main.py:231-233 | a new main screen has no popup and nothing queued |
| `Screen.MainScreen.CreatePopup` | main.py:357-367 | creating the popup makes it exist and show the desktop notice |
| `Screen.MainScreen.UpdateTranscription` | main.py:369-376 | with no popup nothing is queued; with a popup exactly one update carrying the same text is queued, after the earlier ones |
| `Screen.MainScreen.RunScheduled` | main.py:372-373 | running the queued updates in order leaves the popup showing the last queued text and empties the queue; the popup text changes only when a popup exists |
| `Capture.FedBytes` | service.py:211 | the bytes fed for a positive read are the buffer's first min(read size, buffer length) bytes |
| `Capture.ChunkMessage` | service.py:209-219 | a chunk gives a message iff the read was positive and the accepted text (or, if not accepted, the partial) is non-empty; the message is the final text when accepted, "[...] " + partial otherwise, and never empty |
| `Capture.RunsCompose` | service.py:205-222 | without faults the loop over a + b delivers what the loop over a delivers followed by what the loop over b delivers: messages leave in chunk order |
| `Capture.FeedsCompose` | service.py:205-211 | without faults the loop over a + b feeds what the loop over a feeds followed by what the loop over b feeds |
| `Capture.LoopRunsCompose` | service.py:205-228 | the loop's own messages compose the same way behind a fault-free prefix, and the exception that leaves the loop over a + b is the one that leaves the loop over b |
| `Capture.ChunkAt` | service.py:205-219 | when the loop reaches a chunk after a fault-free prefix, that iteration appends exactly the chunk's message and fed bytes and the prefix stays fault-free |
| `Capture.FaultAt` | service.py:205-228 | when the first fault is at step i, the exception raised carries its reason, and the loop delivered and fed exactly what the first i steps deliver and feed plus what step i did before it raised |
| `Capture.FaultFreeRun` | service.py:205-222 | a run without faults raises nothing and its loop delivers the whole run's messages |
| `Capture.MessagesSplit` | service.py:205-231 | an exception leaves the loop exactly when some step is a fault, and the run's messages are the loop's messages followed by the "Error: " message of the first fault |
| `Capture.StepAppends` | service.py:205-219 | one more chunk adds exactly its own message (if any) and fed chunk (if any) at the end |
| `Capture.FaultEndsRun` | service.py:205-231 | an exception ends the run: after what the faulting iteration did before it raised, its "Error: " message is delivered last, and nothing after it is fed or delivered |
| `Capture.LateFaultsKeepTheirWork` | service.py:209-239 | an exception raised after the recognizer received a positive read keeps those bytes fed; one raised in the callback also keeps the chunk's message, delivered before the error |
| `Capture.AtMostOneMessagePerIteration` | service.py:209-231 | each loop iteration delivers at most one message itself, and a run adds at most the error message of its fault |
| `Capture.FedOncePerPositiveRead` | service.py:207-211 | without faults exactly the positive reads are fed, in order, the k-th fed chunk being the prefix of the k-th positive read's buffer |
| `Capture.IdleReadsChangeNothing` | service.py:207-209 | removing the reads that returned zero or less changes neither the delivered messages nor the fed chunks |
| `Capture.LastOrAppend` | service.py:233-235 | the current text after two batches of messages is the last message of the whole, or the earlier text if there was none |
| `Capture.CaptureDeliversBoundedMessages` | service.py:157-165 | a missing media projection or model yields only its fixed message and no loop; otherwise at most one message per iteration plus the error message of a fault, and none if the service was already stopped |
| `Service.TranscriptionService.constructor` | service.py:46-56 | a new service is not running, holds no audio record, has projection code -1, no projection data, no callback and current text "Waiting for audio..." |
| `Service.TranscriptionService.Start` | service.py:65-86 | start stores the code, data and callback, sets running and starts one more capture thread without checking whether it already runs; nothing else changes |
| `Service.TranscriptionService.Stop` | service.py:88-95 | stop clears running and leaves no audio record, releasing one only if one was held; when already stopped it changes nothing |
| `Service.TranscriptionService.UpdateTranscription` | service.py:233-239 | the current text becomes the message; the callback receives that message only when one is registered |
| `Service.TranscriptionService.CaptureAudio` | service.py:144-231 | the capture thread delivers exactly `CaptureMessages` (to the callback if registered), the current text is the last of them, it feeds exactly `FedChunks` of the steps (including the bytes fed by a faulting iteration before it raised), keeps running only after a missing projection, missing model or fault, and releases the record it built unless a fault skipped the clean-up |
| `Service.TranscriptionService.CaptureWithModel` | service.py:167-228 | with a projection and a model: builds the recognizer and one audio record, delivers the loop's messages and then, on a fault, "Error: " + reason, leaving the record held and `running` true; without a fault the record is released and `running` is false |
| `Service.TranscriptionService.ReadLoop` | service.py:205-222 | the `while running` loop delivers, in order, the messages of the chunks before the first fault and what the faulting iteration delivered before it raised; it feeds exactly their bytes, returns the first fault's reason (no reason if it ran out of steps or `running` was already false), and leaves `running` true only when a fault raised |
| `Service.TranscriptionService.RunIteration` | service.py:207-219 | one iteration, up to the point where it raises if it does: feeds the read's bytes if the read was positive and the step got that far, and delivers the chunk's message, if any, if the step got that far |
| `Service.ServiceHost.constructor` | service.py:42-43 | the process starts with no service instance |
| `Service.ServiceHost.GetInstance` | service.py:58-63 | a new service is created only when none exists; otherwise the existing object is returned unchanged; the instance is the returned object |
| `Service.ServiceHost.StartService` | service.py:242-246 | start_service starts the singleton (a fresh one if none existed) with the given code, data and callback and returns it; an existing singleton keeps its audio record, recognizer, current text, delivered and fed logs and record counts, and a fresh one holds the rest of the new-service state |
| `Service.ServiceHost.StopService` | service.py:249-252 | stop_service stops the singleton, creating it first if none exists, and leaves it not running with no audio record; a fresh singleton is then in the new-service state, and an existing one keeps its projection, callback, thread count, recognizer, current text, delivered and fed logs and records built |

## Left out

- Kivy/KivyMD layout, labels and buttons, and the popup's drag, minimize, maximize and close (main.py:123-226): user interface, and the drag uses floating-point window arithmetic.
- `MainScreen.show_popup`, `_on_permissions`, `_request_media_projection`, `_create_popup_with_service` and `on_stop` (main.py:246-355, 386-389): permission dialogs, intents and activity results reached through Android's platform bridge.
- The notification channel and the foreground service (service.py:102-142), and the `stopForeground`/`stopSelf` part of `stop` (service.py:97-100): Android platform calls.
- The recognizer (`Model`, `KaldiRecognizer`, `AcceptWaveform`, `Result`, `PartialResult`), `json.loads`, the construction of the `AudioRecord` and its buffer size, and `os.path.exists`: foreign calls, replaced by the per-step decoder outcome and the booleans `projectionGranted` and `modelPresent`.
- Exceptions raised while setting up the capture thread (service.py:147-199), before the loop begins: only exceptions inside the loop are modelled, as `Fault` steps.
- `threading.Thread`, `time.sleep` and `Clock.schedule_once`: concurrency and timing. The capture thread runs as a sequential method, and a stop that overlaps an iteration is not modelled.
- A callback that raises again on the "Error: " message inside the except handler (service.py:230-231): that exception would end the capture thread with nothing further to model.
- Service.TranscriptionService.ReadLoop: the buffer is given per read as its contents after the read, so the reuse of one `bytearray` across reads is not modelled.
- Screen.MainScreen.RunScheduled: the clock's queue is held on the screen and run all at once, not by Kivy's event loop.
- setup_models.py (a tkinter downloader with a network download and zip extraction), SystemAudioModule.java (Android capture on a raw thread with Base64 and the React event bridge) and App.js (React Native UI and a cloud speech request): I/O and UI with no logic this model covers.
