# audpipe: the audio pipeline and its lifecycle, verified

audpipe captures a microphone on one machine and replays it on another. The server reads PulseAudio
fragments, encodes the first 20 ms of each with Opus and pushes the packets over RTP. The client
queues the payloads in a 256-slot drop-oldest queue; a virtual-microphone thread drains a playback
queue, decodes one frame at a time when it runs short, and writes the PCM into a FIFO that a
PulseAudio pipe source reads.

`dafny verify dfyconfig.toml` checks the whole project.

## How it is modelled

* **Threads.** `ClientModel` is a transition system with one step per critical section of
  `playback_queue_mutex` and one per atomic load or store. Receive callbacks, the write callback,
  error reporters and the shutdown path interleave freely, each at its own program counter. A step
  that a thread cannot take changes nothing, so every sequence of steps is a run and a lemma over
  all sequences covers every interleaving. `RtpModel` does the same for `stop` and `write_frames`.
* **Histories.** The states carry what was accepted, taken, dropped and returned so far. No step
  reads them; the invariants speak about them.
* **Classes.** `Client`, `PulseaudioBackend`, `Server`, `Rtp` and `StreamRecorder` hold the source's
  fields and run its loops. `Client` and `Rtp` keep the list of steps their code has taken, and
  `Valid` says the fields are where those steps lead, so every theorem about runs holds of the
  objects. `WriteCallback`, `RecvCallback` and `SetError` take a schedule of what the other threads
  do in each gap between their steps, and their contracts hold for every schedule; between two
  write callbacks of a run the other threads act as well.
* **Libraries and the kernel.** Opus is two arbitrary functions of the codec struct's memory and the
  input, with the sizes the calls ask for. Results of write, open, load, unload and peek are given by
  finite lists that range over everything those calls may answer; a list that ends early stands for
  the answer that ends the loop (a full pipe, a shutdown). The end-to-end theorems assume a codec
  whose decoder undoes its encoder; `Capture.RawCodecInverts` shows that such codecs exist.
* **Other clients of the PulseAudio server.** Between the virtual source's own operations any other
  client may load modules under free indices and unload any module.

Where the code and its comments differ, the code is followed: `destroy_virtual_input` is documented
to throw on unload failure but only warns (include/audio/pulseaudio_backend.hxx:29-33), a second
setup returns normally without making the source ready, and a stop that comes before `run` is undone
by `run` itself.

## Files

| file | contents |
|---|---|
| Options.dfy, Pcm.dfy, Opus.dfy | optional values; bytes and samples; the codec and its threaded state |
| ClientModel.dfy, ClientFrames.dfy | the client as a transition system; what each kind of step leaves alone |
| ClientWindow.dfy | the compressed queue as a drop-oldest window |
| ClientStream.dfy | refinement of the stateful decoder, bounds, work conservation, alignment |
| ClientChunks.dfy | independence of how requests are cut |
| ClientControl.dfy | cut-off after a stop, release of frames, first error wins |
| Client.dfy, Process.dfy | the client's methods; those that call into RTP and the backend |
| Fifo.dfy, Backend.dfy | the write loop and its output; the backend's methods |
| VirtualSource.dfy | setup, rollback, destroy over all runs |
| Recorder.dfy | the record stream's handle |
| Capture.dfy, Server.dfy | fragments to packets; the server's methods |
| RtpModel.dfy | teardown under interleaving; the sender's methods |
| EndToEnd.dfy | microphone to FIFO |
| Retry.dfy | the connection loop |

## Model

| member | source | states |
|---|---|---|
| EndToEnd.PipelineCarriesCapture | src/client.cpp:31-133 | For any codec whose decoder undoes its encoder and any interleaving with packets accepted in order and none dropped: at every moment the bytes returned, in dst, queued, pending and still to be decoded are exactly the captured audio of the accepted packets, 3840 bytes each, and all of it once every packet has arrived |
| EndToEnd.FifoCarriesCapture | src/audio/pulseaudio_backend.cpp:420-496 | On the three objects together: what a run puts in the FIFO is a subsequence of the captured audio, in whole stereo samples and in phase when pipe writes are all or nothing |
| EndToEnd.FifoFollowsStream | src/audio/pulseaudio_backend.cpp:454-495 | Whatever went before it, a run's FIFO output is a subsequence of what the write callback handed out during it, keeping each byte's place in its four-byte sample under the pipe rule |
| ClientStream.PipelineRefinement | src/client.cpp:85-131 | In every state of every interleaving, returned ++ dst ++ playback ++ pending equals the stateful decoding of the frames taken, in order, failed decodes adding nothing |
| ClientStream.LosslessWithoutDrops | src/client.cpp:31-131 | Until a frame is dropped, output so far plus output still to come is the decoding of all accepted frames |
| ClientStream.TotalIsDecoding | src/client.cpp:85-131 | Output so far plus output still to come is one decoding of the frames taken followed by the frames queued |
| ClientStream.BoundsAndWorkConservation | src/client.cpp:85-133 | The playback queue never exceeds 3840 bytes and is empty while a frame is fetched, dst is not overrun, no empty frame reaches the decoder, and every short answer saw both queues empty |
| ClientStream.ShortOnlyWhenEmpty | src/client.cpp:86-108 | The critical section that ends a call records exactly whether both queues are empty, and a short answer means they are |
| ClientStream.AnswersAligned | src/client.cpp:121-130 | If all requests are multiples of four bytes then so are all answers and the playback queue, in every interleaving |
| ClientStream.NothingLost | src/client.cpp:35-41 | With nothing dropped, frames taken followed by frames queued are exactly the frames accepted |
| ClientStream.PassesAreBounded | src/client.cpp:85-131 | In every interleaving, until the next call begins, the write callback makes at most one pass more than there were frames queued and frames accepted meanwhile, even if every decode fails |
| ClientChunks.ChunkingIndependence | src/client.cpp:77-134 | From any reachable state between calls of a live client, any sequence of answered requests yields the prefix, of length min(sum asked, length), of one fixed stream |
| ClientChunks.WriterKeepsTotal | src/client.cpp:85-131 | Steps of the writer only move bytes along: out, in dst, queued and undecoded together stay the same |
| ClientWindow.QueueIsSuffix | src/client.cpp:31-42 | The queue is the newest part of the accepted frames, at most 256, and received = taken + dropped + queued |
| ClientWindow.DroppedIff | src/client.cpp:33-42 | Frame i has been dropped if and only if frame i+256 was accepted and i was never taken |
| ClientWindow.DropStep | src/client.cpp:35-41 | A step drops frame i if and only if it accepts frame i+256 while i is still queued |
| ClientWindow.TakenFresh | src/client.cpp:99-108 | Frames reach the decoder in arrival order, at most once, unchanged, with fewer than 256 newer ones accepted by then |
| ClientControl.StopCutsOff | src/client.cpp:21-42 | After a stop or an error, no interleaving accepts more frames than callbacks had passed the loads that reject |
| ClientControl.CutOffIsTight | src/client.cpp:21-42 | That bound is reached by some interleaving |
| ClientControl.FlagsAreSticky | src/client.cpp:185-217 | should_stop never returns to false and healthy never to true |
| ClientControl.FramesFreedExactlyOnce | src/client.cpp:16-50 | In every interleaving a frame has been freed once if its callback is done and not at all before |
| ClientControl.FirstErrorWins | src/client.cpp:185-196 | The recorded error is the text of the first report of the run, written at most once; all other reporters lose; when the winner is through the client is unhealthy and stopping |
| ClientClass.Client.RecvCallback | src/client.cpp:16-50 | For every schedule of all other threads: a null frame is ignored, any other freed exactly once; it is queued only if not empty and the client was live at the start, and surely if the client is still live at the end; undisturbed it displaces the oldest of 256 |
| ClientClass.Client.Enqueue | src/client.cpp:31-42 | The critical section is one push step of the model |
| ClientClass.Client.DrainLoop | src/client.cpp:88-92 | Bytes move in order from the queue to dst until one is exhausted; the rest of dst is untouched |
| ClientClass.Client.FetchFrame | src/client.cpp:99-108 | Takes the oldest frame, never empty, or ends the call |
| ClientClass.Client.OpusDecode | src/client.cpp:110-119 | The codec state advances and the PCM lies at the front of the buffer, or the code is negative |
| ClientClass.Client.AppendLocked | src/client.cpp:121-130 | Exactly the decoded bytes of the buffer join the playback queue, read within bounds |
| ClientClass.Client.ServeLoop | src/client.cpp:85-131 | The pass loop fills dst or ends starved, and every pass but one takes a frame of its own |
| ClientClass.Client.WriteCallback | src/client.cpp:77-134 | For every schedule of the other threads: hands out dst[..written] and nothing beyond, nothing at all when the client was stopped or unhealthy, short only when both queues were seen empty, makes at most one pass more than frames queued at entry plus frames accepted during the call, and undisturbed returns exactly the front of the stream |
| Process.SetError | src/client.cpp:185-196 | For every schedule of the other threads: the report that finds the client healthy sets the error for good and stops client, recording and playback; any other leaves error, flags and backend as they are |
| Process.RequestShutdown | src/client.cpp:216-224 | The client stops, RTP is torn down if there is one, and the backend neither records nor plays |
| Fifo.PushChunk | src/audio/pulseaudio_backend.cpp:454-495 | The offset stays within the chunk and is its end exactly when the chunk is complete |
| Fifo.PushEndIff | src/audio/pulseaudio_backend.cpp:456-495 | A chunk ends on a broken pipe, another error, a full pipe or a zero count if and only if that is what the first call to be neither interrupted nor a positive count answers while bytes are left; it is complete if and only if there is no such call |
| Fifo.WholeOrNothing | src/audio/pulseaudio_backend.cpp:456-495 | Under the POSIX rule for pipe writes of at most PIPE_BUF bytes a chunk goes in whole or leaves no byte |
| Fifo.PartialWriteMisaligns | src/audio/pulseaudio_backend.cpp:465-474 | A trace that leaves two bytes of a sample in the FIFO; it breaks the pipe rule, so a POSIX pipe does not return it |
| Fifo.InterruptsInvisible | src/audio/pulseaudio_backend.cpp:461-463 | Interrupted writes change neither the bytes pushed nor how the chunk ends |
| Fifo.OffsetIsLeading | src/audio/pulseaudio_backend.cpp:456-495 | For every trace the offset reached is the sum of the counts before the first zero, full pipe or error, interrupts skipped, to the chunk's end at most |
| Fifo.WholeIff | src/audio/pulseaudio_backend.cpp:456-495 | A chunk goes in whole or not at all if and only if those counts add up to nothing or to its length, and leaves whole samples if and only if they add up to whole samples or to its length |
| Fifo.CallsAreBounded | src/audio/pulseaudio_backend.cpp:456-495 | The loop makes at most one call for each byte left and each interrupt, however long the trace; under the pipe rule one call besides the interrupted ones |
| Fifo.CallsExactly | src/audio/pulseaudio_backend.cpp:456-495 | The calls made are those up to the one that ends the loop or completes the chunk |
| Fifo.OutputIsSubsequence | src/audio/pulseaudio_backend.cpp:420-496 | For every trace of results the FIFO receives one prefix per chunk, in order, a subsequence of the stream |
| Fifo.OutputKeepsPhase | src/audio/pulseaudio_backend.cpp:420-496 | With whole chunks of whole samples, every byte keeps its place modulo four from stream to FIFO |
| BackendClass.PulseaudioBackend.WriteChunk | src/audio/pulseaudio_backend.cpp:454-495 | The loop appends to the FIFO exactly the prefix that the results let through, clears playback on a broken pipe, an error or a shutdown seen while the pipe is full, and ends within a call for each byte and each interrupt |
| BackendClass.PulseaudioBackend.FillAndPush | src/audio/pulseaudio_backend.cpp:428-495 | With other threads acting before the callback and during it, one chunk joins the stream and its prefix the FIFO; chunks are whole samples |
| BackendClass.PassEndIff | src/audio/pulseaudio_backend.cpp:420-496 | A pass throws the broken-pipe message if and only if it was not stopped at its start and a write with bytes left finds no reader, the other message if and only if that write fails otherwise; it stops the run if and only if it was stopped at its start or a shutdown is seen while the pipe is full |
| BackendClass.PulseaudioBackend.RunLoop | src/audio/pulseaudio_backend.cpp:420-496 | Over all passes, other threads acting during and between their calls, the stream and the FIFO grow by the same chunks, one for each pass but one stopped at its start, each cut where write left off; only the last pass begun ends the run, and the run ends as that pass does |
| BackendClass.PulseaudioBackend.RunVirtualInput | src/audio/pulseaudio_backend.cpp:386-497 | Refuses exactly when not ready, with its own message, handing out and writing nothing; otherwise runs, setting playback whatever it was, and ends as its last pass does: stopped with playback cleared, or by an exception whose message is recorded and leaves the source not ready |
| BackendClass.PulseaudioBackend.CollectStale | src/audio/pulseaudio_callbacks.cpp:169-191 | Collects exactly the indices listed, on the server, and named module-pipe-source with an argument that contains source_name=audpipe_input_, in list order |
| BackendClass.PulseaudioBackend.CleanupStaleVirtualSources | src/audio/pulseaudio_backend.cpp:350-384 | Asks the server to unload each of them once, as the cleanup function that CleanupExactly characterises |
| BackendClass.PulseaudioBackend.SetupVirtualInput | src/audio/pulseaudio_backend.cpp:243-348 | The method's effect and outcome are those of the setup function for every environment |
| BackendClass.PulseaudioBackend.LoadModule | src/audio/pulseaudio_callbacks.cpp:155-167 | The callback writes the index it is given, valid or not; a load whose callback is not called leaves the index as it was, whether or not the server loaded the module |
| BackendClass.PulseaudioBackend.OpenFifo | src/audio/pulseaudio_backend.cpp:302-347 | Opens or rolls back as the open function says |
| BackendClass.PulseaudioBackend.DestroyVirtualInput | src/audio/pulseaudio_backend.cpp:506-546 | The method's effect is that of the destroy function |
| VirtualSource.UnreadyStays | src/audio/pulseaudio_backend.cpp:234-250 | Ready means loaded without an error, a descriptor being implied; and a source that is not ready stays so over every run in which it is not destroyed, if loaded, or set up, if not |
| BackendClass.PulseaudioBackend.SetVirtualInputError | src/audio/pulseaudio_backend.cpp:548-551 | Records the error and stops playback, nothing else |
| BackendClass.PulseaudioBackend.StopRecording | src/audio/pulseaudio_backend.cpp:229-232 | Clears the recording flag and playback and nothing else |
| VirtualSource.InvariantOfEveryRun | src/audio/pulseaudio_backend.cpp:243-546 | Over every sequence of setup, run, destroy and stop, every environment and whatever other clients load and unload: loaded iff a descriptor is held, loaded implies a valid index, opens minus closes is the descriptor held |
| VirtualSource.SourceStaysBacked | src/audio/pulseaudio_backend.cpp:278-347 | Over every run: a loaded source is on the server under its index, with its FIFO path, at every moment if and only if no setup became ready without remembering the right index and no other client unloaded the module of a loaded source |
| VirtualSource.BackedAfterSetup | src/audio/pulseaudio_backend.cpp:278-300 | A setup that ends ready has an audpipe module under its index if and only if the load was answered, or it silently got the very index already remembered, or that index still names an audpipe source after cleanup |
| VirtualSource.ReadyIff | src/audio/pulseaudio_backend.cpp:243-348 | A setup makes the source ready if and only if it was unloaded, the FIFO was made, an operation was created, an index is known, and the first try to decide the open loop opened |
| VirtualSource.SilentLoadCanMislead | src/audio/pulseaudio_backend.cpp:289-300 | A run exists in which the reply to a load is lost and setup ends ready under an index that is gone, its real module unknown to it and left behind by destroy |
| VirtualSource.SecondProcessUnloads | src/audio/pulseaudio_callbacks.cpp:182-188 | The prefix matches every process's sources: a second process's setup that finds the first one's module asks to unload it, and the first is then still ready with nothing behind it |
| VirtualSource.TwoProcessesCollide | src/audio/pulseaudio_backend.cpp:350-384 | Such a run of two processes on one server, both ready, the first without its module |
| VirtualSource.ReadyAfterSetup | src/audio/pulseaudio_backend.cpp:243-260 | A setup that returns normally ends ready if and only if it was entered unloaded or without an old error |
| VirtualSource.SecondSetupKeepsError | src/audio/pulseaudio_backend.cpp:245-250 | A run exists in which a second setup returns normally and the source is not ready |
| VirtualSource.FailedSetup | src/audio/pulseaudio_backend.cpp:254-338 | However setup fails: unloaded, no descriptor, an error recorded, no FIFO path |
| VirtualSource.RollbackIff | src/audio/pulseaudio_backend.cpp:310-338 | After a late failure the server is as cleanup left it if and only if the rollback's unload took effect |
| VirtualSource.NoLateUnload | src/audio/pulseaudio_backend.cpp:506-516 | After a failed setup no number of destroys sends an unload request |
| VirtualSource.CleanupExactly | src/audio/pulseaudio_backend.cpp:350-384 | Cleanup removes a module if and only if it is listed, a pipe source named by an audpipe process, and its unload takes effect; it asks for each of those listed and named, in order, and for no other, and leaves every other as it was |
| VirtualSource.PicksNamedByAudpipe | src/audio/pulseaudio_callbacks.cpp:174-187 | The test of the callback holds if and only if the name is module-pipe-source and the argument is some text, source_name=audpipe_input_, and more text |
| VirtualSource.SetupFailsEarly | src/audio/pulseaudio_backend.cpp:254-300 | Cause by cause, what a setup that fails before opening the FIFO leaves in every field and on the server, and the message it records |
| VirtualSource.SetupOpensOrRollsBack | src/audio/pulseaudio_backend.cpp:302-347 | A setup keeps the very descriptor that the first deciding open returned and changes nothing else; or sends one unload request for its index, removes the path, and says whether a shutdown or an error was the cause, each exactly by the tries |
| VirtualSource.OpenLoopEnds | src/audio/pulseaudio_backend.cpp:302-342 | The open loop ends by a descriptor, a shutdown or an error if and only if the first try to decide anything says so |
| VirtualSource.StopAndRunExactly | src/audio/pulseaudio_backend.cpp:229-232 | A stop clears playback and nothing else; a finished run clears it and records why it failed or was refused |
| VirtualSource.OwnArguments | src/audio/pulseaudio_backend.cpp:272-276 | The module arguments: name and FIFO path with the process id, s16le, 48000 Hz, two channels |
| VirtualSource.OwnModuleIsRecognised | src/audio/pulseaudio_backend.cpp:272-276 | The arguments setup loads its module with contain what cleanup searches for |
| VirtualSource.ExactlyOneSource | src/audio/pulseaudio_backend.cpp:262-348 | A successful setup leaves exactly one audpipe pipe source, its own, if and only if every one that was there was listed and its unload worked; all other modules stay as they were in any case |
| VirtualSource.DestroyUndoesSetup | src/audio/pulseaudio_backend.cpp:506-546 | Destroy after setup gives back descriptor and path and clears index and error, whatever the server answers, and gives the module back if and only if the unload took effect |
| VirtualSource.DestroyAlwaysTearsDown | src/audio/pulseaudio_backend.cpp:506-546 | Destroy always ends unloaded with no descriptor, no path and no index, having closed what was open, asked once to unload what was loaded, and cleared the error only if it asked; the module is gone if and only if the unload took effect; and it is idempotent |
| VirtualSource.OpenLoopIff | src/audio/pulseaudio_backend.cpp:302-342 | The open loop ends with a descriptor if and only if the first try to decide anything opened |
| Recorder.StreamRecorder.Record | src/audio/pulseaudio_backend.cpp:156-227 | Each way to end if and only if its cause is the first to arise; no stream is released twice or lost; one is still held afterwards if and only if the wait failed or the data callback threw, during the wait or after it, or nothing was attempted and one was held; a stop during the wait does not change how the recording ends |
| Recorder.StreamRecorder.RecordLoop | src/audio/pulseaudio_backend.cpp:214-223 | Ends by exception if and only if some pass throws and every pass before it was quiet, and only then is still recording |
| Recorder.StreamRecorder.WaitForStreamReady | src/audio/pulseaudio_backend.cpp:98-107 | Succeeds if and only if the stream is ready at some point and was only being created until then |
| Recorder.StreamRecorder.DestroyStream | src/audio/pulseaudio_backend.cpp:110-123 | Releases the stream held, if any |
| Capture.FrameIsFragmentFront | src/server.cpp:148-169 | The bytes of the encoded frame are the fragment's first 3840, or its first 1920 with every sample doubled |
| Capture.EncodesFront | src/server.cpp:136-186 | A fragment of 20 ms or more is encoded: the outcome is the encoder's answer to the frame whose bytes are the fragment's front, mono samples on both channels; a shorter one leaves everything as it was |
| Capture.ShortFragment | src/server.cpp:141-167 | A fragment shorter than 20 ms changes neither the encoder state nor the packets |
| Capture.PacketsMatchFragments | src/server.cpp:136-186 | Packets and fragments correspond: each packet is the encoding of one fragment by the encoder as all earlier fragments left it, in fragment order, and every fragment that makes none encodes to nothing |
| Capture.ReadTakesFront | src/audio/pulseaudio_callbacks.cpp:130-153 | Without an exception the read callback drops each fragment of a front part once and delivers exactly its data, in order, stopping only at an empty stream or a failed peek |
| Capture.ReadThrows | src/audio/pulseaudio_callbacks.cpp:130-153 | With an exception it takes a front part likewise, and delivers but does not drop the one fragment after it, which the encoder refuses |
| Capture.DecodeGivesAudio | src/server.cpp:136-186 | Decoding the packets of a capture gives the captured audio, and the codec states stay in step |
| ServerClass.Server.UpmixInto | src/server.cpp:158-162 | The stereo buffer is the first 960 samples doubled |
| ServerClass.Server.BytesToOpus | src/server.cpp:136-186 | From 20 ms on the encoder is called on the frame with the fragment's front bytes and the output buffer holds its packet; a failed encode throws; a shorter fragment leaves the encoder alone and the size 0 |
| ServerClass.Server.DataCallback | src/server.cpp:58-70 | The network gets the packet if it is not empty and RTP is live, and encoder and packets are those of all fragments so far |
| ServerClass.Server.OneFragment | src/audio/pulseaudio_callbacks.cpp:138-151 | One pass of the peek loop is one step of the loop function |
| ServerClass.Server.StreamReadCb | src/audio/pulseaudio_callbacks.cpp:130-153 | The whole callback is the loop function, and what it hands to RTP is sent exactly when RTP is live |
| RtpModel.Teardown | src/rtp.cpp:54-129 | For any number of threads: mutual exclusion, each object destroyed at most once and stream first, no push on a destroyed stream, stopped iff both handles null when the mutex is free, both destroyed once any stop has returned |
| RtpModel.StopIsFinal | src/rtp.cpp:54-59 | Once a stop has returned nothing is pushed or destroyed again |
| RtpClass.Rtp.WriteFrames | src/rtp.cpp:54-70 | A packet goes out if and only if the stream is not stopped |
| RtpClass.Rtp.Stop | src/rtp.cpp:114-129 | Ends torn down with each object destroyed once, however often it is called |
| Retry.Backoff | src/client.cpp:155-161 | Sleeps whole steps of 100 ms: at least the backoff and less than one step more, or exactly up to the poll that sees a shutdown before that |
| Retry.Connect | src/client.cpp:136-168 | Goes on exactly after an attempt that failed, saw no shutdown and was not the last; connected if and only if some attempt is reached and succeeds, and that is the last one made; shut down, exhausted or never tried each if and only if its cause; sleeps the rounded backoff after every attempt but the last; a value in rtp iff connected |
| Opus.DecodeConcat | src/client.cpp:110-130 | Decoding a list is decoding its front, then its rest from the state the front leaves |
| Pcm.BytesOfPrefix | src/server.cpp:148-149 | Samples read from the front of a buffer are that buffer's own bytes |
| Pcm.ToSamplesAt | src/server.cpp:148-149 | The i-th sample is the 16-bit two's complement value of bytes 2i and 2i+1, low byte first |
| Pcm.ToBytesAt | src/client.cpp:121-122 | The bytes of the i-th sample in memory make its value modulo 2^16, low byte first |
| Pcm.UpmixAt | src/server.cpp:157-163 | Each mono sample is on both channels |
| Pcm.UpmixOfPrefix | src/server.cpp:157-163 | Upmixing the first k samples of a buffer repeats its first k pairs of bytes |

## Left out

- ClientClass.Client.WriteCallback: a single consumer is assumed, which holds because only run_virtual_input calls it; stream_write_cb is never installed on a stream and is not modelled.
- BackendClass.PulseaudioBackend.RunVirtualInput: an exception thrown by the write callback (only possible on allocation failure) is not modelled, nor is a missing callback; runs are cut off at the end of their script.
- VirtualSource.SourceStaysBacked: other clients act between the operations of the virtual source, not in the middle of one; a path removed by another process is not modelled.
- BackendClass.PulseaudioBackend.SetupVirtualInput: error texts are fixed strings without path and errno; unlink is taken to succeed.
- Recorder.StreamRecorder.Record: the record stream's callbacks are not wired to StreamReadCb here; the data they carry is modelled by the server.
- The destructors: ~Client destroys the decoder before joining the writer thread, so the decoder is not claimed to outlive that thread.
- Rtp::is_initialised, which reads both handles without the mutex and promises nothing about a concurrent stop.
- The memory model below atomics and mutexes: every step is sequentially consistent.
- The insides of Opus, uvgRTP, PulseAudio, Crypto++ and asio, and real time.
- Construction failures of Rtp, the Opus encoder and the Opus decoder, which throw before there is an object to speak about.
- Keys, handshakes and configuration: library calls, stubs and single range checks.
- main, signal handling, device listing, interactive choice and logging.
