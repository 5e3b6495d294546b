/** The PulseAudio backend's methods as they stand: virtual source and FIFO writer. */
module BackendClass {
  import opened Options
  import opened Pcm
  import opened ClientModel
  import opened ClientStream
  import opened ClientClass
  import opened Fifo
  import opened Opus
  import VS = VirtualSource
  import R = Recorder

  /** What one pass of the run loop meets: `between` is what the other threads do before its call of
      the write callback, `others` what they do during it. */
  datatype PassEnv = PassEnv(
    stopped: bool,
    shutdown: bool,
    between: seq<Action>,
    others: Schedule,
    results: seq<WriteResult>,
    shutdownWhileBlocked: bool)

  datatype RunEnd = StillRunning | Stopped | Threw(message: string)

  const PCM_WRITE_BUF_SIZE: nat := 3840

  const EPIPE_MESSAGE := "pipe-source reader disconnected, got EPIPE."
  const WRITE_FAILED := "Failed writing to pipe-source fifo"

  /** Steps were added, and every call among them asked for a full buffer. */
  ghost predicate FullRequests(before: seq<Action>, trace: seq<Action>) {
    && before <= trace
    && forall i :: |before| <= i < |trace| && trace[i].Call? ==> trace[i].want == 3840
  }

  lemma FullRequestsAligned(before: seq<Action>, trace: seq<Action>)
    requires AlignedRequests(before) && FullRequests(before, trace)
    ensures AlignedRequests(trace)
  {
    forall i | 0 <= i < |trace| && trace[i].Call?
      ensures trace[i].want % 4 == 0
    {
      if i < |before| {
        assert trace[i] == before[i];
      }
    }
  }

  /**
   How a pass ends the run, if it does: at its start, by a stop or a shutdown seen there; or after a
   chunk of len bytes, by a broken pipe, another error, or a shutdown seen while the pipe is full.
   */
  function PassEnd(p: PassEnv, len: nat): RunEnd {
    if p.stopped || p.shutdown then Stopped
    else
      match PushChunk(p.results, 0, len).end
      case Disconnected => Threw(EPIPE_MESSAGE)
      case Failed => Threw(WRITE_FAILED)
      case WouldBlock => if p.shutdownWhileBlocked then Stopped else StillRunning
      case _ => StillRunning
  }

  /**
   How a pass ends the run, told by what it meets: it throws the broken-pipe message exactly when it
   was not stopped at its start and a call of write(2) with bytes left finds no reader, the other
   message when that call fails with another error; it stops the run exactly when it was stopped at
   its start, or a shutdown is seen while the pipe is full; and otherwise the run goes on.
   */
  lemma PassEndIff(p: PassEnv, len: nat)
    ensures var end, entered := PassEnd(p, len), !p.stopped && !p.shutdown;
      && (end == Threw("pipe-source reader disconnected, got EPIPE.")
          <==> entered && EndsOn(p.results, len, EPIPE))
      && (end == Threw("Failed writing to pipe-source fifo")
          <==> entered && EndsOn(p.results, len, OtherErrno))
      && (end == Stopped <==> !entered || (EndsOn(p.results, len, EAGAIN) && p.shutdownWhileBlocked))
      && (end.Threw? ==> EndsOn(p.results, len, EPIPE) || EndsOn(p.results, len, OtherErrno))
  {
    PushEndIff(p.results, len);
    assert EPIPE_MESSAGE[0] == 'p' && WRITE_FAILED[0] == 'F';
    hide EndsOn, PushChunk;
  }

  /** Only threads other than the virtual microphone's act in a pass. */
  ghost predicate PassOk(p: PassEnv) { OthersOnly(p.between) && ScheduleOk(p.others) }

  /** The passes that got as far as calling the write callback: all but one stopped at its start. */
  function Filled(passes: seq<PassEnv>, begun: nat): nat
    requires begun <= |passes|
  {
    if begun > 0 && (passes[begun - 1].stopped || passes[begun - 1].shutdown) then begun - 1 else begun
  }

  /** A pass after which the run goes on has called the write callback. */
  lemma GoingOnFilled(passes: seq<PassEnv>, k: nat, len: nat)
    requires k < |passes| && PassEnd(passes[k], len).StillRunning?
    ensures Filled(passes, k + 1) == k + 1
  {
  }

  /** The length of the k-th chunk, if the k-th pass got as far as one. */
  function ChunkLength(chunks: seq<seq<byte>>, k: nat): nat {
    if k < |chunks| then |chunks[k]| else 0
  }

  /** Every chunk consists of whole stereo samples. */
  ghost predicate WholeSamples(chunks: seq<seq<byte>>) {
    forall k :: 0 <= k < |chunks| ==> |chunks[k]| % 4 == 0
  }

  /** A chunk no longer than the buffer, cut where write(2) left off. */
  ghost predicate DeliveredAs(p: PassEnv, chunk: seq<byte>, cut: nat) {
    && cut <= |chunk| <= 3840
    && cut == PushChunk(p.results, 0, |chunk|).offset
  }

  ghost predicate Delivered(passes: seq<PassEnv>, chunks: seq<seq<byte>>, cuts: seq<nat>) {
    && Fits(chunks, cuts) && |chunks| <= |passes|
    && forall k :: 0 <= k < |chunks| ==> DeliveredAs(passes[k], chunks[k], cuts[k])
  }

  lemma DeliveredSnoc(passes: seq<PassEnv>, chunks: seq<seq<byte>>, cuts: seq<nat>, chunk: seq<byte>, cut: nat)
    requires Delivered(passes, chunks, cuts) && |chunks| < |passes|
    requires DeliveredAs(passes[|chunks|], chunk, cut)
    ensures Delivered(passes, chunks + [chunk], cuts + [cut])
    ensures Flatten(chunks + [chunk]) == Flatten(chunks) + chunk
    ensures FlattenCut(chunks + [chunk], cuts + [cut]) == FlattenCut(chunks, cuts) + chunk[..cut]
  {
    CutSnoc(chunks, cuts, chunk, cut);
    FlattenSnoc(chunks, chunk);
  }

  /** What is added to an aligned stream, keeping it aligned, is whole samples. */
  lemma AlignedRest(stream: seq<byte>, chunk: seq<byte>)
    requires |stream| % 4 == 0 && |stream + chunk| % 4 == 0
    ensures |chunk| % 4 == 0
  {
  }

  lemma AlignedReturned(dec: Decoder, d0: CodecState, steps: seq<Action>)
    requires AlignedRequests(steps)
    ensures |Run(dec, Init(d0), steps).h.returned| % 4 == 0
  {
    AnswersAligned(dec, d0, steps);
  }

  class PulseaudioBackend {
    const pid: string
    /** The part of the object that records. */
    const recorder: R.StreamRecorder
    var playback: bool
    var loaded: bool
    var error: string
    var modIdx: nat
    var fd: int

    /** The server, the FIFO path, and the bytes that went into the FIFO. */
    var world: VS.World
    var fifo: seq<byte>

    ghost function State(): VS.Backend
      reads this
    {
      VS.Backend(loaded, fd, modIdx, error, playback, world)
    }

    constructor (pid: string, modules: map<nat, VS.ModuleInfo>, fifoExists: bool)
      ensures State() == VS.Backend(false, -1, 0xFFFF_FFFF, "", false, VS.World(modules, fifoExists, 0, 0, []))
      ensures State() == VS.Fresh(modules, fifoExists) && fifo == [] && this.pid == pid
      ensures fresh(recorder) && recorder.Valid() && !recorder.recording
    {
      this.pid := pid;
      recorder := new R.StreamRecorder();
      playback, loaded, error := false, false, "";
      modIdx, fd := VS.INVALID_INDEX, -1;
      world := VS.World(modules, fifoExists, 0, 0, []);
      fifo := [];
    }

    method SetVirtualInputError(msg: string)
      modifies this`playback, this`error
      ensures State() == old(State()).(playback := false, error := msg)
    {
      playback := false;
      error := msg;
    }

    /** Stops recording and playback at once: no loop of either goes round again. */
    method StopRecording()
      modifies this`playback, recorder`recording
      ensures State() == old(State()).(playback := false) && !recorder.recording
      ensures State() == VS.Apply(old(State()), pid, VS.StopOp)
    {
      recorder.recording := false;
      playback := false;
    }

    method UnloadModule(idx: nat, reply: VS.UnloadReply)
      modifies this`world
      ensures world == VS.Unload(old(world), idx, reply)
    {
      if !reply.NoOperation? {
        var modules := if reply.Removes() then world.modules - {idx} else world.modules;
        world := world.(modules := modules, unloads := world.unloads + [idx]);
      }
    }

    /** pa_module_list_cb, once for every entry of the server's list. */
    method CollectStale(listing: seq<nat>) returns (indices: seq<nat>)
      ensures indices == VS.Stale(world.modules, listing)
      ensures forall idx :: idx in indices <==>
        idx in listing && idx in world.modules && VS.NamedByAudpipe(world.modules[idx])
    {
      indices := [];
      for i := 0 to |listing|
        invariant indices == VS.Stale(world.modules, listing[..i])
      {
        assert listing[..i + 1][..i] == listing[..i];
        var idx := listing[i];
        if idx in world.modules && VS.IsAudpipe(world.modules[idx]) {
          indices := indices + [idx];
        }
      }
      assert listing[..|listing|] == listing;
      VS.StaleExactly(world.modules, listing);
    }

    method CleanupStaleVirtualSources(listing: Option<seq<nat>>, replies: nat -> VS.UnloadReply)
      modifies this`world
      ensures world == VS.Cleanup(old(world), listing, replies)
    {
      var stale := [];
      if listing.Some? {
        stale := CollectStale(listing.value);
      }
      for i := 0 to |stale|
        invariant world == VS.UnloadAll(old(world), stale[..i], replies)
      {
        assert stale[..i + 1][..i] == stale[..i];
        UnloadModule(stale[i], replies(stale[i]));
      }
      assert stale[..|stale|] == stale;
    }

    method Unlink()
      modifies this`world
      ensures world == VS.Unlink(old(world))
    {
      world := world.(fifoExists := false);
    }

    method SetupVirtualInput(env: VS.SetupEnv) returns (end: VS.SetupEnd)
      modifies this
      ensures (State(), end) == VS.Setup(old(State()), pid, env)
      ensures fifo == old(fifo)
    {
      if loaded {
        return VS.Ignored;
      }
      error := "";
      CleanupStaleVirtualSources(env.listing, env.staleReplies);
      Unlink();
      if !env.mkfifoOk {
        SetVirtualInputError(VS.FIFO_FAILED);
        return VS.Threw;
      }
      world := world.(fifoExists := true);
      if env.load.NoLoadOperation? {
        Unlink();
        SetVirtualInputError(VS.NO_OPERATION);
        return VS.Threw;
      }
      LoadModule(env.load);
      if modIdx == VS.INVALID_INDEX {
        Unlink();
        SetVirtualInputError(VS.LOAD_FAILED);
        return VS.Threw;
      }
      end := OpenFifo(env);
    }

    /** The load request and pa_load_module_cb, which writes the index through its userdata; when the
        callback is not called, the server may have loaded the module all the same. */
    method LoadModule(load: VS.LoadReply)
      modifies this`modIdx, this`world
      ensures State() == VS.Load(old(State()), pid, load)
    {
      hide VS.Loaded;
      match load
      case NoLoadOperation =>
      case LoadReplied(idx) =>
        modIdx := idx;
        world := VS.Loaded(world, pid, idx);
      case LoadSilent(None) =>
      case LoadSilent(Some(idx)) =>
        world := VS.Loaded(world, pid, idx);
    }

    /** The open loop, with the rollback of the module on either way out. */
    method OpenFifo(env: VS.SetupEnv) returns (end: VS.SetupEnd)
      modifies this
      ensures (State(), end) == VS.OpenOrRollBack(old(State()), env)
      ensures fifo == old(fifo)
    {
      var i := 0;
      while fd < 0
        invariant 0 <= i <= |env.tries| && fifo == old(fifo)
        invariant fd >= 0 ==> State() == old(State())
        invariant fd < 0 ==> old(fd) < 0 && State() == old(State()).(fd := fd)
        invariant VS.OpenLoop(env.tries[i..]) == VS.OpenLoop(env.tries)
        invariant i > 0 ==> fd == -1
        decreases |env.tries| - i
      {
        if i < |env.tries| && env.tries[i].Opened? {
          fd := env.tries[i].fd;
          world := world.(opens := world.opens + 1);
          break;
        }
        fd := -1;
        if i == |env.tries| || env.tries[i].shutdown {
          UnloadModule(modIdx, env.rollback);
          Unlink();
          SetVirtualInputError(VS.SHUTDOWN_FIRST);
          return VS.Threw;
        }
        if env.tries[i].errno != VS.ENXIO && env.tries[i].errno != VS.EINTR {
          UnloadModule(modIdx, env.rollback);
          Unlink();
          SetVirtualInputError(VS.OPEN_FAILED);
          return VS.Threw;
        }
        assert env.tries[i..][1..] == env.tries[i + 1..];
        i := i + 1;
      }
      loaded := true;
      end := VS.Ready;
    }

    method DestroyVirtualInput(reply: VS.UnloadReply)
      modifies this
      ensures State() == VS.Destroy(old(State()), reply) && fifo == old(fifo)
    {
      if fd >= 0 {
        world := world.(closes := world.closes + 1);
        fd := -1;
      }
      if !loaded || modIdx == VS.INVALID_INDEX {
        Unlink();
        return;
      }
      if reply.NoOperation? {
        loaded := false;
        modIdx := VS.INVALID_INDEX;
        Unlink();
        return;
      }
      UnloadModule(modIdx, reply);
      loaded := false;
      modIdx := VS.INVALID_INDEX;
      Unlink();
      error := "";
    }

    method IsVirtualInputReady() returns (ready: bool)
      ensures ready == VS.IsReady(State())
    {
      ready := loaded && fd >= 0 && error == "";
    }

    // ---------- Run ----------

    static lemma Cut(bytes: seq<byte>, i: nat, j: nat)
      requires i <= j <= |bytes|
      ensures bytes[..i] + bytes[i..j] == bytes[..j]
    {
    }

    /** One write(2) of what is left of the chunk. */
    method WriteOnce(buf: array<byte>, offset: nat, produced: nat, result: WriteResult)
      returns (wrote: nat)
      requires offset <= produced <= buf.Length
      modifies this`fifo
      ensures wrote == LetsThrough(result, produced - offset)
      ensures fifo == old(fifo) + buf[offset..offset + wrote]
    {
      wrote := LetsThrough(result, produced - offset);
      fifo := fifo + buf[offset..offset + wrote];
    }

    /**
     The loop over one chunk: write(2) until it is in, given up, or the pipe is broken. Every call
     but an interrupted one either ends the loop or leaves fewer bytes to write.
     */
    method WriteChunk(buf: array<byte>, produced: nat, p: PassEnv)
      returns (offset: nat, end: PushEnd, calls: nat)
      requires produced <= buf.Length
      modifies this`fifo, this`playback
      ensures Pushed(offset, end) == PushChunk(p.results, 0, produced)
      ensures calls == Calls(p.results, 0, produced) <= produced + Interrupts(p.results)
      ensures fifo == old(fifo) + buf[..offset]
      ensures playback == (old(playback) && !(end.WouldBlock? && p.shutdownWhileBlocked)
                           && !end.Disconnected? && !end.Failed?)
    {
      CallsAreBounded(p.results, 0, produced);
      hide PushChunk, Calls, Interrupts, LetsThrough;
      offset, calls := 0, 0;
      var results := p.results;
      ghost var bytes := buf[..];
      while offset < produced
        invariant offset <= produced
        invariant calls + Calls(results, offset, produced) == Calls(p.results, 0, produced)
        invariant PushChunk(results, offset, produced) == PushChunk(p.results, 0, produced)
        invariant buf[..] == bytes && fifo == old(fifo) + bytes[..offset] && playback == old(playback)
        decreases produced - offset, Interrupts(results)
      {
        OneCall(results, offset, produced);
        var result := if results == [] then EAGAIN else results[0];
        var wrote := WriteOnce(buf, offset, produced, result);
        calls := calls + 1;
        if !result.EINTR? && wrote == 0 {
          end := GivenUp(result, p);
          return;
        }
        Cut(bytes, offset, offset + wrote);
        assert buf[offset..offset + wrote] == bytes[offset..offset + wrote];
        Assoc(old(fifo), bytes[..offset], bytes[offset..offset + wrote]);
        results, offset := results[1..], offset + wrote;
      }
      NothingLeft(results, produced);
      end := Complete;
    }

    /** What follows a call that put nothing in: only a broken pipe, an error or a shutdown stop playback. */
    method GivenUp(result: WriteResult, p: PassEnv) returns (end: PushEnd)
      modifies this`playback
      ensures end == EndAfter(result)
      ensures playback == (old(playback) && !(end.WouldBlock? && p.shutdownWhileBlocked)
                           && !end.Disconnected? && !end.Failed?)
    {
      if result.EAGAIN? {
        if p.shutdownWhileBlocked {
          playback := false;
        }
        return WouldBlock;
      }
      if result.EPIPE? {
        playback := false;
        return Disconnected;
      }
      if result.OtherErrno? {
        playback := false;
        return Failed;
      }
      end := Discarded;
    }

    /** The chunk of one pass and how much of it went into the FIFO. */
    method FillAndPush(client: Client, buf: array<byte>, p: PassEnv)
      returns (end: PushEnd, ghost chunk: seq<byte>, ghost cut: nat)
      requires client.Valid() && client.m.w == Writer(Idle, 0, []) && PassOk(p)
      requires buf.Length == PCM_WRITE_BUF_SIZE
      modifies this`fifo, this`playback, buf, client, client.pcmDecbuf
      ensures client.Valid() && client.m.w == Writer(Idle, 0, [])
      ensures old(client.trace) + p.between <= client.trace
      ensures FullRequests(old(client.trace), client.trace)
      ensures client.m.h.returned == old(client.m.h.returned) + chunk
      ensures DeliveredAs(p, chunk, cut) && fifo == old(fifo) + chunk[..cut]
      ensures Pushed(cut, end) == PushChunk(p.results, 0, |chunk|)
      ensures AlignedRequests(old(client.trace)) ==> |chunk| % 4 == 0
      ensures playback == (old(playback) && !(end.WouldBlock? && p.shutdownWhileBlocked)
                           && !end.Disconnected? && !end.Failed?)
    {
      hide Run;
      client.Interfere(p.between);
      var produced, _ := client.WriteCallback(buf, buf.Length, p.others);
      chunk := buf[..produced];
      if AlignedRequests(old(client.trace)) {
        FullRequestsAligned(old(client.trace), client.trace);
        AlignedReturned(client.opus, client.d0, old(client.trace));
        AlignedReturned(client.opus, client.d0, client.trace);
        AlignedRest(old(client.m.h.returned), chunk);
      }
      if produced == 0 {
        return Complete, chunk, 0;
      }
      var offset, calls;
      offset, end, calls := WriteChunk(buf, produced, p);
      cut := offset;
      assert chunk[..cut] == buf[..offset];
    }

    /**
     What a run has done: the client went from trace0 and returned0 to where it is now, the FIFO
     from fifo0, chunk by chunk over the first passes of the script.
     */
    ghost predicate Progress(client: Client, passes: seq<PassEnv>, chunks: seq<seq<byte>>, cuts: seq<nat>,
                             trace0: seq<Action>, returned0: seq<byte>, fifo0: seq<byte>)
      reads this`fifo, client
    {
      && client.m.w == Writer(Idle, 0, [])
      && FullRequests(trace0, client.trace)
      && Delivered(passes, chunks, cuts)
      && (AlignedRequests(trace0) ==> WholeSamples(chunks))
      && client.m.h.returned == returned0 + Flatten(chunks)
      && fifo == fifo0 + FlattenCut(chunks, cuts)
    }

    /** One pass of the run loop: leave on a stop or a shutdown, else fill and push one chunk. */
    method OnePass(client: Client, buf: array<byte>, passes: seq<PassEnv>, k: nat,
                   ghost chunks0: seq<seq<byte>>, ghost cuts0: seq<nat>,
                   ghost trace0: seq<Action>, ghost returned0: seq<byte>, ghost fifo0: seq<byte>)
      returns (end: RunEnd, ghost chunks: seq<seq<byte>>, ghost cuts: seq<nat>)
      requires client.Valid() && Progress(client, passes, chunks0, cuts0, trace0, returned0, fifo0)
      requires k == |chunks0| < |passes| && PassOk(passes[k]) && playback
      requires buf.Length == PCM_WRITE_BUF_SIZE
      modifies this`fifo, this`playback, buf, client, client.pcmDecbuf
      ensures client.Valid() && Progress(client, passes, chunks, cuts, trace0, returned0, fifo0)
      ensures end == PassEnd(passes[k], ChunkLength(chunks, k))
      ensures |chunks| == Filled(passes, k + 1)
      ensures chunks0 <= chunks && (playback <==> end.StillRunning?)
    {
      hide Run;
      var p := passes[k];
      if p.stopped || p.shutdown {
        playback := false;
        return Stopped, chunks0, cuts0;
      }
      ghost var chunk, cut;
      var pushed;
      pushed, chunk, cut := FillAndPush(client, buf, p);
      if AlignedRequests(trace0) {
        FullRequestsAligned(trace0, old(client.trace));
      }
      DeliveredSnoc(passes, chunks0, cuts0, chunk, cut);
      chunks, cuts := chunks0 + [chunk], cuts0 + [cut];
      Assoc(returned0, Flatten(chunks0), chunk);
      Assoc(fifo0, FlattenCut(chunks0, cuts0), chunk[..cut]);
      if pushed.Disconnected? {
        return Threw(EPIPE_MESSAGE), chunks, cuts;
      }
      if pushed.Failed? {
        return Threw(WRITE_FAILED), chunks, cuts;
      }
      end := if playback then StillRunning else Stopped;
    }

    /** The outer loop, entered ready and playing. */
    method RunLoop(client: Client, buf: array<byte>, passes: seq<PassEnv>)
      returns (end: RunEnd, begun: nat, ghost chunks: seq<seq<byte>>, ghost cuts: seq<nat>)
      requires client.Valid() && client.m.w == Writer(Idle, 0, []) && playback
      requires buf.Length == PCM_WRITE_BUF_SIZE
      requires forall i :: 0 <= i < |passes| ==> PassOk(passes[i])
      modifies this`fifo, this`playback, buf, client, client.pcmDecbuf
      ensures client.Valid() && Progress(client, passes, chunks, cuts,
                                         old(client.trace), old(client.m.h.returned), old(fifo))
      ensures begun <= |passes| && |chunks| == Filled(passes, begun)
      ensures forall i :: 0 <= i < begun - 1 ==> PassEnd(passes[i], ChunkLength(chunks, i)).StillRunning?
      ensures end == if begun == 0 then StillRunning else PassEnd(passes[begun - 1], ChunkLength(chunks, begun - 1))
      ensures end.StillRunning? <==> playback
      ensures playback ==> begun == |passes|
    {
      hide Run, PassEnd, PassOk;
      begun, chunks, cuts := 0, [], [];
      end := StillRunning;
      ghost var trace0, returned0, fifo0 := client.trace, client.m.h.returned, fifo;
      AddNothing(returned0);
      AddNothing(fifo0);
      while begun < |passes| && playback
        invariant client.Valid() && Progress(client, passes, chunks, cuts, trace0, returned0, fifo0)
        invariant begun <= |passes| && |chunks| == Filled(passes, begun) && (playback ==> |chunks| == begun)
        invariant forall i :: 0 <= i < begun - 1 ==> PassEnd(passes[i], ChunkLength(chunks, i)).StillRunning?
        invariant end == if begun == 0 then StillRunning
                         else PassEnd(passes[begun - 1], ChunkLength(chunks, begun - 1))
        invariant end.StillRunning? <==> playback
        decreases |passes| - begun
      {
        end, chunks, cuts :=
          OnePass(client, buf, passes, begun, chunks, cuts, trace0, returned0, fifo0);
        if playback {
          GoingOnFilled(passes, begun, ChunkLength(chunks, begun));
        }
        begun := begun + 1;
      }
    }

    /**
     The run loop over the passes of a script. The stream that the client hands out and the bytes
     that reach the FIFO are given chunk by chunk, each chunk with the cut that write(2) made. The
     first pass that ends the run, by a stop, a shutdown seen at its start or while the pipe is full,
     a broken pipe or an error, is the last one begun, and the run ends as that pass says.
     */
    method RunVirtualInput(client: Client, passes: seq<PassEnv>)
      returns (end: RunEnd, begun: nat, ghost chunks: seq<seq<byte>>, ghost cuts: seq<nat>)
      requires client.Valid() && client.m.w == Writer(Idle, 0, [])
      requires forall i :: 0 <= i < |passes| ==> PassOk(passes[i])
      modifies this, client, client.pcmDecbuf
      ensures client.Valid() && Progress(client, passes, chunks, cuts,
                                         old(client.trace), old(client.m.h.returned), old(fifo))
      ensures begun <= |passes| && |chunks| == Filled(passes, begun)
      ensures forall i :: 0 <= i < begun - 1 ==> PassEnd(passes[i], ChunkLength(chunks, i)).StillRunning?
      ensures var ready := old(loaded) && old(fd) >= 0 && old(error) == "";
        && (!ready ==> end == Threw("Called run_virtual_input without checking readiness")
                       && chunks == [] && begun == 0)
        && (ready ==> end == if begun == 0 then StillRunning
                             else PassEnd(passes[begun - 1], ChunkLength(chunks, begun - 1)))
      ensures match end
        case StillRunning => State() == old(State()).(playback := true) && begun == |passes|
        case Stopped => State() == old(State()).(playback := false)
        case Threw(message) => State() == old(State()).(playback := false, error := message)
      ensures end.Threw? ==> !VS.IsReady(State())
      ensures !end.StillRunning? ==>
        State() == VS.Apply(old(State()), pid, VS.RunOp(if end.Threw? then Some(end.message) else None))
    {
      hide Run;
      var ready := IsVirtualInputReady();
      if !ready {
        AddNothing(client.m.h.returned);
        AddNothing(fifo);
        SetVirtualInputError(VS.NOT_READY);
        return Threw(VS.NOT_READY), 0, [], [];
      }
      playback := true;
      var buf := new byte[PCM_WRITE_BUF_SIZE];
      end, begun, chunks, cuts := RunLoop(client, buf, passes);
      if end.Threw? {
        SetVirtualInputError(end.message);
      }
    }
  }
}
