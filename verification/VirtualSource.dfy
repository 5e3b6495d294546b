/** The life of the virtual source: setup with rollback, run, destroy, as functions of the state. */
module VirtualSource {
  import opened Options

  /** PulseAudio's (uint32_t)-1. */
  const INVALID_INDEX: nat := 0xFFFF_FFFF

  // ---------- The PulseAudio server and the file system ----------

  datatype ModuleInfo = ModuleInfo(name: Option<string>, argument: Option<string>)

  /** What lies outside the object, with a record of the unload requests that were sent. */
  datatype World = World(
    modules: map<nat, ModuleInfo>,
    fifoExists: bool,
    opens: nat,
    closes: nat,
    unloads: seq<nat>)

  datatype Backend = Backend(
    loaded: bool,
    fd: int,
    modIdx: nat,
    error: string,
    playback: bool,
    world: World)

  /** An unload request: not created, answered, or completed without its callback being called. */
  datatype UnloadReply = NoOperation | Replied(ok: bool) | Silent(done: bool)
  {
    predicate Removes() {
      match this
      case NoOperation => false
      case Replied(ok) => ok
      case Silent(done) => done
    }
  }

  /** A load request: not created, answered with an index, or completed without its callback being
      called, in which case the server may still have loaded the module under some index. */
  datatype LoadReply = NoLoadOperation | LoadReplied(idx: nat) | LoadSilent(done: Option<nat>)

  datatype Errno = ENXIO | EINTR | OtherErrno

  /** One open(2) of the FIFO; after a failure the shutdown flag is read. */
  datatype OpenTry = Opened(fd: nat) | OpenFailed(errno: Errno, shutdown: bool)

  datatype OpenEnd = GotFd(fd: nat) | OnShutdown | OnErrno

  /** All that setup meets outside the object. */
  datatype SetupEnv = SetupEnv(
    listing: Option<seq<nat>>,
    staleReplies: nat -> UnloadReply,
    mkfifoOk: bool,
    load: LoadReply,
    tries: seq<OpenTry>,
    rollback: UnloadReply)

  datatype SetupEnd = Ignored | Ready | Threw

  const SOURCE_NAME_PREFIX := "audpipe_input_"
  const PIPE_SOURCE := "module-pipe-source"

  const FIFO_FAILED := "Failed to create fifo"
  const NO_OPERATION := "Could not create virtual input: PulseAudio did not create an operation."
  const LOAD_FAILED := "PulseAudio failed to load module-pipe-source."
  const SHUTDOWN_FIRST := "Shutdown requested before virtual source was ready."
  const OPEN_FAILED := "Failed to open fifo for writing"
  const NOT_READY := "Called run_virtual_input without checking readiness"

  function SourceName(pid: string): string { SOURCE_NAME_PREFIX + pid }

  function FifoPath(pid: string): string { "/tmp/audpipe_input_" + pid + ".pcm" }

  function ModuleArgs(pid: string): string {
    "source_name=" + SourceName(pid) + " file=" + FifoPath(pid) + " format=s16le rate=48000 "
    + "channels=2 source_properties=device.description=audpipe_input"
  }

  // ---------- Cleanup ----------

  predicate OccursAt(text: string, probe: string, i: nat) {
    i + |probe| <= |text| && text[i..i + |probe|] == probe
  }

  /** `text.find(probe) != npos` */
  predicate Contains(text: string, probe: string) {
    exists i | 0 <= i <= |text| :: OccursAt(text, probe, i)
  }

  /** What pa_module_list_cb picks: pipe sources named by some audpipe process. */
  predicate IsAudpipe(info: ModuleInfo) {
    && info.name == Some(PIPE_SOURCE)
    && info.argument.Some?
    && Contains(info.argument.value, "source_name=" + SOURCE_NAME_PREFIX)
  }

  function Stale(modules: map<nat, ModuleInfo>, listing: seq<nat>): seq<nat> {
    if listing == [] then []
    else
      var before := Stale(modules, listing[..|listing| - 1]);
      var idx := listing[|listing| - 1];
      if idx in modules && IsAudpipe(modules[idx]) then before + [idx] else before
  }

  function Unload(w: World, idx: nat, reply: UnloadReply): World {
    if reply.NoOperation? then w
    else w.(modules := if reply.Removes() then w.modules - {idx} else w.modules,
            unloads := w.unloads + [idx])
  }

  function UnloadAll(w: World, stale: seq<nat>, replies: nat -> UnloadReply): World {
    if stale == [] then w
    else
      var idx := stale[|stale| - 1];
      Unload(UnloadAll(w, stale[..|stale| - 1], replies), idx, replies(idx))
  }

  function Cleanup(w: World, listing: Option<seq<nat>>, replies: nat -> UnloadReply): World {
    if listing.None? then w else UnloadAll(w, Stale(w.modules, listing.value), replies)
  }

  // ---------- Setup ----------

  function Unlink(w: World): World { w.(fifoExists := false) }

  /** Opens until it succeeds, a shutdown is seen, or an errno is final; a trace that ends early
      stands for a shutdown. */
  function OpenLoop(tries: seq<OpenTry>): OpenEnd
    decreases |tries|
  {
    if tries == [] then OnShutdown
    else
      match tries[0]
      case Opened(fd) => GotFd(fd)
      case OpenFailed(errno, shutdown) =>
        if shutdown then OnShutdown
        else if errno != ENXIO && errno != EINTR then OnErrno
        else OpenLoop(tries[1..])
  }

  function Die(b: Backend, message: string): (Backend, SetupEnd) {
    (b.(playback := false, error := message), Threw)
  }

  /** The module is loaded and its index known: open the FIFO or roll back. */
  function OpenOrRollBack(b: Backend, env: SetupEnv): (Backend, SetupEnd) {
    if b.fd >= 0 then (b.(loaded := true), Ready)
    else
      var undone := Unlink(Unload(b.world, b.modIdx, env.rollback));
      match OpenLoop(env.tries)
      case GotFd(fd) =>
        (b.(fd := fd, loaded := true, world := b.world.(opens := b.world.opens + 1)), Ready)
      case OnShutdown => Die(b.(fd := -1, world := undone), SHUTDOWN_FIRST)
      case OnErrno => Die(b.(fd := -1, world := undone), OPEN_FAILED)
  }

  /** The server with this process's module loaded under idx. */
  function Loaded(w: World, pid: string, idx: nat): World {
    if idx == INVALID_INDEX then w
    else w.(modules := w.modules[idx := ModuleInfo(Some(PIPE_SOURCE), Some(ModuleArgs(pid)))])
  }

  /** The effect of the load request on the server and on the remembered index. */
  function Load(b: Backend, pid: string, load: LoadReply): Backend {
    match load
    case NoLoadOperation => b
    case LoadReplied(idx) => b.(modIdx := idx, world := Loaded(b.world, pid, idx))
    case LoadSilent(None) => b
    case LoadSilent(Some(idx)) => b.(world := Loaded(b.world, pid, idx))
  }

  function Setup(b: Backend, pid: string, env: SetupEnv): (Backend, SetupEnd) {
    if b.loaded then (b, Ignored)
    else
      var swept := b.(error := "", world := Unlink(Cleanup(b.world, env.listing, env.staleReplies)));
      if !env.mkfifoOk then Die(swept, FIFO_FAILED)
      else
        var piped := swept.(world := swept.world.(fifoExists := true));
        if env.load.NoLoadOperation? then Die(piped.(world := Unlink(piped.world)), NO_OPERATION)
        else
          var asked := Load(piped, pid, env.load);
          if asked.modIdx == INVALID_INDEX then
            Die(asked.(world := Unlink(asked.world)), LOAD_FAILED)
          else OpenOrRollBack(asked, env)
  }

  // ---------- Run and destroy ----------

  predicate IsReady(b: Backend) { b.loaded && b.fd >= 0 && b.error == "" }

  /** What a finished run leaves behind: refused, ended by an error, or stopped. */
  function AfterRun(b: Backend, failure: Option<string>): Backend {
    if !IsReady(b) then b.(playback := false, error := NOT_READY)
    else if failure.Some? then b.(playback := false, error := failure.value)
    else b.(playback := false)
  }

  function Destroy(b: Backend, reply: UnloadReply): Backend {
    var closed := if b.fd >= 0 then b.(fd := -1, world := b.world.(closes := b.world.closes + 1)) else b;
    if !b.loaded || b.modIdx == INVALID_INDEX then closed.(world := Unlink(closed.world))
    else
      var gone := closed.(loaded := false, modIdx := INVALID_INDEX,
                          world := Unlink(Unload(closed.world, b.modIdx, reply)));
      if reply.NoOperation? then gone else gone.(error := "")
  }

  // ---------- Runs ----------

  /** The object's own operations, and what other clients do to the server between them. */
  datatype Op =
    | SetupOp(env: SetupEnv)
    | RunOp(failure: Option<string>)
    | DestroyOp(reply: UnloadReply)
    | StopOp
    | OtherUnloads(idx: nat)
    | OtherLoads(idx: nat, info: ModuleInfo)

  /** Another client's module; the server does not give it an index that is in use. */
  function LoadedByOther(w: World, idx: nat, info: ModuleInfo): World {
    if idx in w.modules then w else w.(modules := w.modules[idx := info])
  }

  function Apply(b: Backend, pid: string, op: Op): Backend {
    match op
    case SetupOp(env) => Setup(b, pid, env).0
    case RunOp(failure) => AfterRun(b, failure)
    case DestroyOp(reply) => Destroy(b, reply)
    case StopOp => b.(playback := false)
    case OtherUnloads(idx) => b.(world := b.world.(modules := b.world.modules - {idx}))
    case OtherLoads(idx, info) => b.(world := LoadedByOther(b.world, idx, info))
  }

  function ApplyAll(b: Backend, pid: string, ops: seq<Op>): Backend {
    if ops == [] then b
    else Apply(ApplyAll(b, pid, ops[..|ops| - 1]), pid, ops[|ops| - 1])
  }

  function Fresh(modules: map<nat, ModuleInfo>, fifoExists: bool): Backend {
    Backend(false, -1, INVALID_INDEX, "", false, World(modules, fifoExists, 0, 0, []))
  }

  // ---------- The invariant of every run ----------

  ghost predicate Inv(b: Backend) {
    && (b.loaded <==> b.fd >= 0)
    && (b.loaded ==> b.modIdx != INVALID_INDEX)
    && b.world.opens == b.world.closes + (if b.fd >= 0 then 1 else 0)
  }

  lemma {:induction false} UnloadAllKeeps(w: World, stale: seq<nat>, replies: nat -> UnloadReply)
    ensures var w' := UnloadAll(w, stale, replies);
      && w'.opens == w.opens && w'.closes == w.closes && w'.fifoExists == w.fifoExists
      && w.unloads <= w'.unloads
      && (forall idx :: idx in w'.unloads[|w.unloads|..] <==> idx in stale && !replies(idx).NoOperation?)
      && (forall idx :: idx in w'.modules <==>
            idx in w.modules && !(idx in stale && replies(idx).Removes()))
      && (forall idx :: idx in w'.modules ==> w'.modules[idx] == w.modules[idx])
  {
    if stale != [] {
      var n := |stale| - 1;
      UnloadAllKeeps(w, stale[..n], replies);
      var before := UnloadAll(w, stale[..n], replies).unloads;
      assert (before + [stale[n]])[|w.unloads|..] == before[|w.unloads|..] + [stale[n]];
      assert forall idx :: idx in stale <==> idx in stale[..n] || idx == stale[n];
    }
  }

  /** A pipe source that some audpipe process has named: what cleanup is meant for. */
  ghost predicate NamedByAudpipe(info: ModuleInfo) {
    && info.name == Some("module-pipe-source")
    && exists before: string, after: string ::
         info.argument == Some(before + "source_name=audpipe_input_" + after)
  }

  /** The callback picks exactly those. */
  lemma PicksNamedByAudpipe(info: ModuleInfo)
    ensures IsAudpipe(info) <==> NamedByAudpipe(info)
  {
    var probe := "source_name=" + SOURCE_NAME_PREFIX;
    assert probe == "source_name=audpipe_input_";
    if info.argument.Some? {
      var text := info.argument.value;
      if Contains(text, probe) {
        var i :| 0 <= i <= |text| && OccursAt(text, probe, i);
        assert text == text[..i] + probe + text[i + |probe|..];
      }
      if before: string, after: string :| text == before + probe + after {
        assert text[|before|..|before| + |probe|] == probe;
        assert OccursAt(text, probe, |before|);
      }
    }
  }

  /** Which modules are collected: those listed, on the server, and named by an audpipe process. */
  lemma {:induction false} StaleExactly(modules: map<nat, ModuleInfo>, listing: seq<nat>)
    ensures forall idx :: idx in Stale(modules, listing) <==>
      idx in listing && idx in modules && NamedByAudpipe(modules[idx])
  {
    hide NamedByAudpipe, IsAudpipe;
    if listing != [] {
      var n := |listing| - 1;
      StaleExactly(modules, listing[..n]);
      assert forall idx :: idx in listing <==> idx in listing[..n] || idx == listing[n];
      if listing[n] in modules {
        PicksNamedByAudpipe(modules[listing[n]]);
      }
    }
  }

  /** Collecting goes through the list in order. */
  lemma {:induction false} StaleInOrder(modules: map<nat, ModuleInfo>, xs: seq<nat>, ys: seq<nat>)
    ensures Stale(modules, xs + ys) == Stale(modules, xs) + Stale(modules, ys)
  {
    hide IsAudpipe;
    if ys == [] {
      assert xs + ys == xs;
    } else {
      var n := |ys| - 1;
      StaleInOrder(modules, xs, ys[..n]);
      assert (xs + ys)[..|xs + ys| - 1] == xs + ys[..n];
    }
  }

  /** An unload that takes effect: answered with success, or done without an answer. */
  lemma RemovesIff(reply: UnloadReply)
    ensures reply.Removes() <==> reply == Replied(true) || reply == Silent(true)
  {
  }

  /** The unload requests for a list of modules, in its order. */
  function Requests(stale: seq<nat>, replies: nat -> UnloadReply): seq<nat> {
    if stale == [] then []
    else (if replies(stale[0]) == NoOperation then [] else [stale[0]]) + Requests(stale[1..], replies)
  }

  lemma {:induction false} RequestsSnoc(stale: seq<nat>, idx: nat, replies: nat -> UnloadReply)
    ensures Requests(stale + [idx], replies)
         == Requests(stale, replies) + (if replies(idx) == NoOperation then [] else [idx])
  {
    if stale != [] {
      RequestsSnoc(stale[1..], idx, replies);
      assert (stale + [idx])[1..] == stale[1..] + [idx];
    }
  }

  /** Each module of the list is asked for once for every time it is there, in order. */
  lemma {:induction false} AsksInOrder(w: World, stale: seq<nat>, replies: nat -> UnloadReply)
    ensures UnloadAll(w, stale, replies).unloads == w.unloads + Requests(stale, replies)
  {
    if stale != [] {
      var n := |stale| - 1;
      AsksInOrder(w, stale[..n], replies);
      RequestsSnoc(stale[..n], stale[n], replies);
      assert stale[..n] + [stale[n]] == stale;
    }
  }

  /**
   Cleanup removes a module exactly when it is listed, named by an audpipe process, and its unload
   takes effect; it asks for each of the listed and named ones and for no other module, and leaves
   every other module as it was.
   */
  lemma CleanupExactly(w: World, listing: Option<seq<nat>>, replies: nat -> UnloadReply)
    ensures var w' := Cleanup(w, listing, replies);
      && w'.opens == w.opens && w'.closes == w.closes && w'.fifoExists == w.fifoExists
      && w.unloads <= w'.unloads
      && (forall idx :: idx in w'.unloads[|w.unloads|..] <==>
            && listing.Some? && idx in listing.value && idx in w.modules && NamedByAudpipe(w.modules[idx])
            && replies(idx) != NoOperation)
      && (listing.Some? ==>
            w'.unloads == w.unloads + Requests(Stale(w.modules, listing.value), replies))
      && (forall idx :: idx in w'.modules <==>
            && idx in w.modules
            && !(listing.Some? && idx in listing.value && NamedByAudpipe(w.modules[idx])
                 && (replies(idx) == Replied(true) || replies(idx) == Silent(true))))
      && (forall idx :: idx in w'.modules ==> w'.modules[idx] == w.modules[idx])
  {
    hide NamedByAudpipe;
    forall idx ensures replies(idx).Removes() <==> replies(idx) == Replied(true) || replies(idx) == Silent(true) {
      RemovesIff(replies(idx));
    }
    if listing.Some? {
      StaleExactly(w.modules, listing.value);
      UnloadAllKeeps(w, Stale(w.modules, listing.value), replies);
      AsksInOrder(w, Stale(w.modules, listing.value), replies);
    }
  }

  /** The end of setup: a descriptor and a loaded source, or neither. */
  lemma OpenKeepsInv(b: Backend, env: SetupEnv)
    requires Inv(b) && !b.loaded && b.modIdx != INVALID_INDEX
    ensures var (b', end) := OpenOrRollBack(b, env);
      && Inv(b')
      && (end.Threw? ==> !b'.loaded && b'.error != "" && !b'.playback && !b'.world.fifoExists)
      && (!end.Threw? ==> end.Ready? && b'.loaded && b'.error == b.error && b'.modIdx == b.modIdx)
  {
  }

  lemma FailedOpen(b: Backend, env: SetupEnv)
    requires OpenOrRollBack(b, env).1.Threw?
    ensures OpenOrRollBack(b, env).0.world == Unlink(Unload(b.world, b.modIdx, env.rollback))
  {
  }

  lemma SetupKeepsInv(b: Backend, pid: string, env: SetupEnv)
    requires Inv(b)
    ensures var (b', end) := Setup(b, pid, env);
      && Inv(b')
      && (end.Threw? ==> !b'.loaded && b'.error != "" && !b'.playback && !b'.world.fifoExists)
      && (end.Ready? ==> b'.loaded && b'.error == "")
      && (end.Ignored? ==> b' == b && b.loaded)
  {
    hide OpenOrRollBack;
    CleanupExactly(b.world, env.listing, env.staleReplies);
    if !b.loaded && env.mkfifoOk && !env.load.NoLoadOperation? {
      var piped := b.(error := "",
        world := Unlink(Cleanup(b.world, env.listing, env.staleReplies)).(fifoExists := true));
      var asked := Load(piped, pid, env.load);
      if asked.modIdx != INVALID_INDEX {
        OpenKeepsInv(asked, env);
      }
    }
  }

  lemma ApplyKeepsInv(b: Backend, pid: string, op: Op)
    requires Inv(b)
    ensures Inv(Apply(b, pid, op))
  {
    hide Setup;
    if op.SetupOp? {
      SetupKeepsInv(b, pid, op.env);
    }
  }

  /**
   Over every sequence of setups, runs, destroys and stops, whatever the server and the file system
   answer: loaded if and only if a descriptor is held, a loaded source has a valid index, and every
   descriptor opened has been closed but the one held.
   */
  lemma {:induction false} InvariantOfEveryRun(
      modules: map<nat, ModuleInfo>, fifoExists: bool, pid: string, ops: seq<Op>)
    ensures Inv(ApplyAll(Fresh(modules, fifoExists), pid, ops))
  {
    if ops != [] {
      InvariantOfEveryRun(modules, fifoExists, pid, ops[..|ops| - 1]);
      ApplyKeepsInv(ApplyAll(Fresh(modules, fifoExists), pid, ops[..|ops| - 1]), pid, ops[|ops| - 1]);
    }
  }

  /** Some run from a fresh object leads here. */
  ghost predicate IsReachable(b: Backend, pid: string) {
    exists modules, fifoExists, ops :: b == ApplyAll(Fresh(modules, fifoExists), pid, ops)
  }

  lemma ReachableInv(b: Backend, pid: string)
    requires IsReachable(b, pid)
    ensures Inv(b)
  {
    var modules, fifoExists, ops :| b == ApplyAll(Fresh(modules, fifoExists), pid, ops);
    InvariantOfEveryRun(modules, fifoExists, pid, ops);
  }

  // ---------- Setup ----------

  /**
   A setup that returns normally leaves the source ready exactly when it did some work or found no
   old error: the early return of a second setup keeps whatever error is there.
   */
  lemma ReadyAfterSetup(b: Backend, pid: string, env: SetupEnv)
    requires IsReachable(b, pid) && !Setup(b, pid, env).1.Threw?
    ensures IsReady(Setup(b, pid, env).0) <==> !b.loaded || b.error == ""
  {
    ReachableInv(b, pid);
    SetupKeepsInv(b, pid, env);
    hide Setup;
  }

  /** A run can bring the source there: set up, fail while running, set up again. */
  lemma SecondSetupKeepsError(pid: string)
    ensures var env := SetupEnv(None, _ => NoOperation, true, LoadReplied(7), [Opened(3)], NoOperation);
      var b := ApplyAll(Fresh(map[], false), pid, [SetupOp(env), RunOp(Some("EPIPE"))]);
      Setup(b, pid, env).1 == Ignored && !IsReady(Setup(b, pid, env).0)
  {
    var env := SetupEnv(None, _ => NoOperation, true, LoadReplied(7), [Opened(3)], NoOperation);
    var b0 := Fresh(map[], false);
    var b1 := Setup(b0, pid, env).0;
    assert IsReady(b1);
    ApplyTwo(b0, pid, SetupOp(env), RunOp(Some("EPIPE")));
  }

  lemma ApplyOne(b: Backend, pid: string, x: Op)
    ensures ApplyAll(b, pid, [x]) == Apply(b, pid, x)
  {
    assert [x][..0] == [];
  }

  lemma ApplyTwo(b: Backend, pid: string, x: Op, y: Op)
    ensures ApplyAll(b, pid, [x, y]) == Apply(Apply(b, pid, x), pid, y)
  {
    ApplyOne(b, pid, x);
    assert [x, y][..1] == [x];
  }

  /** What can make an object that is not ready ready again. */
  predicate Revives(b: Backend, op: Op) { if b.loaded then op.DestroyOp? else op.SetupOp? }

  lemma UnreadyStep(b: Backend, pid: string, op: Op)
    requires Inv(b) && !IsReady(b) && !Revives(b, op)
    ensures var b' := Apply(b, pid, op); !IsReady(b') && b'.loaded == b.loaded
  {
  }

  /**
   Readiness, once lost, does not come back by itself: until a loaded source is destroyed, or an
   unloaded one is set up, no setups, runs, stops or other clients make it ready. Ready itself means
   loaded without an error; that a descriptor is held then follows.
   */
  lemma {:induction false} UnreadyStays(b: Backend, pid: string, ops: seq<Op>)
    requires IsReachable(b, pid)
    requires forall i :: 0 <= i < |ops| ==> !Revives(b, ops[i])
    ensures IsReady(b) <==> b.loaded && b.error == ""
    ensures var b' := ApplyAll(b, pid, ops);
      !IsReady(b) ==> !IsReady(b') && b'.loaded == b.loaded
  {
    ReachableInv(b, pid);
    if !IsReady(b) {
      UnreadyRun(b, pid, ops);
    }
  }

  lemma {:induction false} UnreadyRun(b: Backend, pid: string, ops: seq<Op>)
    requires Inv(b) && !IsReady(b)
    requires forall i :: 0 <= i < |ops| ==> !Revives(b, ops[i])
    ensures var b' := ApplyAll(b, pid, ops);
      Inv(b') && !IsReady(b') && b'.loaded == b.loaded
  {
    if ops != [] {
      var n := |ops| - 1;
      UnreadyRun(b, pid, ops[..n]);
      var before := ApplyAll(b, pid, ops[..n]);
      UnreadyStep(before, pid, ops[n]);
      ApplyKeepsInv(before, pid, ops[n]);
    }
  }

  /** The module was loaded by this setup, under an index the server was not using. */
  ghost predicate LoadedFresh(b: Backend, env: SetupEnv) {
    && env.mkfifoOk && env.load.LoadReplied? && env.load.idx != INVALID_INDEX
    && env.load.idx !in Cleanup(b.world, env.listing, env.staleReplies).modules
  }

  /**
   Rollback. However a setup fails, the object is unloaded, holds no descriptor, has recorded an
   error, and the FIFO path is gone.
   */
  lemma FailedSetup(b: Backend, pid: string, env: SetupEnv)
    requires IsReachable(b, pid) && Setup(b, pid, env).1.Threw?
    ensures var b' := Setup(b, pid, env).0;
      && !b'.loaded && b'.fd < 0 && b'.error != "" && !b'.playback && !b'.world.fifoExists
  {
    ReachableInv(b, pid);
    SetupKeepsInv(b, pid, env);
    hide Setup;
  }

  /**
   When the failure comes after the module was loaded, the server is back to what cleanup left if
   and only if the rollback's unload request took effect.
   */
  lemma RollbackIff(b: Backend, pid: string, env: SetupEnv)
    requires IsReachable(b, pid) && LoadedFresh(b, env) && Setup(b, pid, env).1.Threw?
    ensures Setup(b, pid, env).0.world.modules
         == Cleanup(b.world, env.listing, env.staleReplies).modules
      <==> env.rollback.Removes()
  {
    ReachableInv(b, pid);
    hide OpenOrRollBack, Cleanup, IsReachable;
    var before := Cleanup(b.world, env.listing, env.staleReplies).modules;
    var after := Setup(b, pid, env).0.world.modules;
    var piped := b.(error := "",
      world := Unlink(Cleanup(b.world, env.listing, env.staleReplies)).(fifoExists := true));
    FailedOpen(Load(piped, pid, env.load), env);
    if env.rollback.Removes() {
      assert after == before;
    } else {
      assert env.load.idx in after;
    }
  }

  /** After a failed setup no number of destroys sends any unload request. */
  lemma {:induction false} NoLateUnload(b: Backend, pid: string, env: SetupEnv, replies: seq<UnloadReply>)
    requires IsReachable(b, pid) && Setup(b, pid, env).1.Threw?
    ensures var b' := Setup(b, pid, env).0;
      var after := ApplyAll(b', pid, Destroys(replies));
      && after.world.unloads == b'.world.unloads && after.world.modules == b'.world.modules
      && !after.loaded && after.fd < 0
  {
    var b' := Setup(b, pid, env).0;
    FailedSetup(b, pid, env);
    if replies != [] {
      var n := |replies| - 1;
      NoLateUnload(b, pid, env, replies[..n]);
      assert Destroys(replies)[..n] == Destroys(replies[..n]);
    }
  }

  function Destroys(replies: seq<UnloadReply>): (ops: seq<Op>)
    ensures |ops| == |replies|
    ensures forall i :: 0 <= i < |ops| ==> ops[i] == DestroyOp(replies[i])
  {
    seq(|replies|, i requires 0 <= i < |replies| => DestroyOp(replies[i]))
  }

  /** The arguments that setup loads its module with are ones that cleanup recognises. */
  lemma OwnModuleIsRecognised(pid: string)
    ensures NamedByAudpipe(ModuleInfo(Some(PIPE_SOURCE), Some(ModuleArgs(pid))))
  {
    PicksNamedByAudpipe(ModuleInfo(Some(PIPE_SOURCE), Some(ModuleArgs(pid))));
    StartsWith("source_name=", SOURCE_NAME_PREFIX, pid, " file=", FifoPath(pid),
               " format=s16le rate=48000 ", "channels=2 source_properties=device.description=audpipe_input");
  }

  lemma StartsWith(a: string, b: string, c: string, d: string, e: string, f: string, g: string)
    ensures Contains(a + (b + c) + d + e + f + g, a + b)
  {
    var text := a + (b + c) + d + e + f + g;
    assert text[0..|a + b|] == a + b;
    assert OccursAt(text, a + b, 0);
  }

  /** Cleanup gets rid of every audpipe source there is: each is listed, and its unload works. */
  ghost predicate AllStaleGo(w: World, env: SetupEnv) {
    forall idx :: idx in w.modules && NamedByAudpipe(w.modules[idx]) ==>
      env.listing.Some? && idx in env.listing.value && env.staleReplies(idx).Removes()
  }

  /** The audpipe source that the object remembers is the only one on the server. */
  ghost predicate OnlyOwnSource(b: Backend) {
    forall idx :: idx in b.world.modules && NamedByAudpipe(b.world.modules[idx]) <==> idx == b.modIdx
  }

  /**
   A setup that did its work leaves exactly one audpipe source on the server, the one it remembers,
   if and only if cleanup got rid of all that were there; every module that is not an audpipe source
   is as it was in any case.
   */
  lemma ExactlyOneSource(b: Backend, pid: string, env: SetupEnv)
    requires IsReachable(b, pid) && LoadedFresh(b, env) && Setup(b, pid, env).1.Ready?
    ensures OnlyOwnSource(Setup(b, pid, env).0) <==> AllStaleGo(b.world, env)
    ensures var b' := Setup(b, pid, env).0;
      forall idx :: idx in b.world.modules && !NamedByAudpipe(b.world.modules[idx]) ==>
        idx in b'.world.modules && b'.world.modules[idx] == b.world.modules[idx]
  {
    hide Setup, Cleanup, NamedByAudpipe, IsReachable, ModuleArgs, Requests, Stale;
    CleanupExactly(b.world, env.listing, env.staleReplies);
    OwnModuleIsRecognised(pid);
    FreshSetup(b, pid, env);
    var b' := Setup(b, pid, env).0;
    if OnlyOwnSource(b') {
      forall idx | idx in b.world.modules && NamedByAudpipe(b.world.modules[idx])
        ensures env.listing.Some? && idx in env.listing.value && env.staleReplies(idx).Removes()
      {
        assert idx in b'.world.modules && NamedByAudpipe(b'.world.modules[idx]) ==> idx == b'.modIdx;
      }
    }
  }

  /** What is on the server, and remembered, after a setup that became ready with a new module. */
  lemma FreshSetup(b: Backend, pid: string, env: SetupEnv)
    requires LoadedFresh(b, env) && Setup(b, pid, env).1.Ready?
    ensures var b' := Setup(b, pid, env).0;
      && b'.modIdx == env.load.idx && b'.loaded && b'.error == ""
      && b'.world.modules == Cleanup(b.world, env.listing, env.staleReplies).modules
           [env.load.idx := ModuleInfo(Some(PIPE_SOURCE), Some(ModuleArgs(pid)))]
  {
    hide Cleanup;
  }

  /** A try that decides nothing: not opened, no shutdown, an errno worth another try. */
  predicate TryAgain(t: OpenTry) {
    t.OpenFailed? && !t.shutdown && (t.errno == ENXIO || t.errno == EINTR)
  }

  /** The open loop ends with a descriptor exactly when the first try to decide anything opened. */
  lemma {:induction false} OpenLoopIff(tries: seq<OpenTry>, fd: nat)
    ensures OpenLoop(tries) == GotFd(fd) <==>
      exists k :: 0 <= k < |tries| && tries[k] == Opened(fd) && forall j :: 0 <= j < k ==> TryAgain(tries[j])
    decreases |tries|
  {
    if tries != [] && TryAgain(tries[0]) {
      OpenLoopIff(tries[1..], fd);
      if OpenLoop(tries) == GotFd(fd) {
        var k :| 0 <= k < |tries[1..]| && tries[1..][k] == Opened(fd)
          && forall j :: 0 <= j < k ==> TryAgain(tries[1..][j]);
        assert tries[k + 1] == Opened(fd);
        assert forall j :: 0 < j < k + 1 ==> tries[j] == tries[1..][j - 1];
      }
      if k :| 0 <= k < |tries| && tries[k] == Opened(fd) && forall j :: 0 <= j < k ==> TryAgain(tries[j]) {
        assert tries[1..][k - 1] == Opened(fd);
        assert forall j :: 0 <= j < k - 1 ==> tries[1..][j] == tries[j + 1];
      }
    }
  }

  /** The position of the first try to decide anything. */
  ghost predicate Decides(tries: seq<OpenTry>, k: nat) {
    && k <= |tries| && (forall j :: 0 <= j < k ==> TryAgain(tries[j]))
    && (k < |tries| ==> !TryAgain(tries[k]))
  }

  /** That try opened. */
  ghost predicate Opens(tries: seq<OpenTry>) {
    exists k: nat :: Decides(tries, k) && k < |tries| && tries[k].Opened?
  }

  /** It failed with a shutdown about; or there is no such try, and only a shutdown ends the loop. */
  ghost predicate SeesShutdown(tries: seq<OpenTry>) {
    exists k: nat :: Decides(tries, k) && (k < |tries| ==> tries[k].OpenFailed? && tries[k].shutdown)
  }

  /** It failed for good, with no shutdown about. */
  ghost predicate SeesErrno(tries: seq<OpenTry>) {
    exists k: nat :: Decides(tries, k) && k < |tries| && tries[k] == OpenFailed(OtherErrno, false)
  }

  lemma {:induction false} OpenLoopDecides(tries: seq<OpenTry>) returns (k: nat)
    ensures Decides(tries, k)
    ensures OpenLoop(tries) == (
      if k == |tries| then OnShutdown
      else match tries[k]
        case Opened(fd) => GotFd(fd)
        case OpenFailed(_, shutdown) => if shutdown then OnShutdown else OnErrno)
    decreases |tries|
  {
    if tries == [] || !TryAgain(tries[0]) {
      k := 0;
    } else {
      k := OpenLoopDecides(tries[1..]);
      k := k + 1;
      assert forall j :: 0 < j < k ==> tries[j] == tries[1..][j - 1];
    }
  }

  lemma DecidesOnce(tries: seq<OpenTry>, k: nat, n: nat)
    requires Decides(tries, k) && Decides(tries, n)
    ensures n == k
  {
  }

  /** The three ends of the open loop, told by the tries. */
  lemma {:induction false} OpenLoopEnds(tries: seq<OpenTry>)
    ensures OpenLoop(tries).GotFd? <==> Opens(tries)
    ensures OpenLoop(tries) == OnShutdown <==> SeesShutdown(tries)
    ensures OpenLoop(tries) == OnErrno <==> SeesErrno(tries)
    ensures forall k: nat :: Decides(tries, k) && k < |tries| && tries[k].Opened? ==>
      OpenLoop(tries) == GotFd(tries[k].fd)
  {
    var k := OpenLoopDecides(tries);
    hide OpenLoop;
    forall n: nat | Decides(tries, n)
      ensures n == k
    {
      DecidesOnce(tries, k, n);
    }
  }

  // ---------- What each operation does, told by what it meets ----------

  /** The index that the object holds once the load is over. */
  ghost function KnownIndex(b: Backend, env: SetupEnv): nat {
    match env.load
    case LoadReplied(idx) => idx
    case _ => b.modIdx
  }

  /** The server's modules by then: the new one is there if the server loaded it, told or not. */
  ghost function ModulesAfterLoad(b: Backend, pid: string, env: SetupEnv): map<nat, ModuleInfo> {
    var swept := Cleanup(b.world, env.listing, env.staleReplies).modules;
    var own := ModuleInfo(Some("module-pipe-source"), Some(ModuleArgs(pid)));
    match env.load
    case LoadReplied(idx) => if idx == 0xFFFF_FFFF then swept else swept[idx := own]
    case LoadSilent(Some(idx)) => if idx == 0xFFFF_FFFF then swept else swept[idx := own]
    case _ => swept
  }

  ghost function FailedEarly(b: Backend, idx: nat, message: string, w: World): Backend {
    Backend(false, b.fd, idx, message, false, w.(fifoExists := false))
  }

  /** A setup that fails before it opens the FIFO, cause by cause. */
  lemma SetupFailsEarly(b: Backend, pid: string, env: SetupEnv)
    requires !b.loaded
    ensures var w := Cleanup(b.world, env.listing, env.staleReplies);
      && (!env.mkfifoOk ==>
            Setup(b, pid, env) == (FailedEarly(b, b.modIdx, "Failed to create fifo", w), Threw))
      && (env.mkfifoOk && env.load == NoLoadOperation ==>
            Setup(b, pid, env) == (FailedEarly(b, b.modIdx,
              "Could not create virtual input: PulseAudio did not create an operation.", w), Threw))
      && (env.mkfifoOk && env.load != NoLoadOperation && KnownIndex(b, env) == 0xFFFF_FFFF ==>
            Setup(b, pid, env) == (FailedEarly(b, 0xFFFF_FFFF,
              "PulseAudio failed to load module-pipe-source.",
              w.(modules := ModulesAfterLoad(b, pid, env))), Threw))
  {
    hide Cleanup, ModuleArgs, OpenOrRollBack;
  }

  /** A setup on a loaded object does nothing at all. */
  lemma SetupIgnored(b: Backend, pid: string, env: SetupEnv)
    ensures b.loaded ==> Setup(b, pid, env) == (b, Ignored)
    ensures Setup(b, pid, env).1 == Ignored ==> b.loaded
  {
    hide Cleanup, ModuleArgs;
  }

  /** The object after a failure to open the FIFO: one unload request, no path, no descriptor. */
  ghost function Undone(b: Backend, rollback: UnloadReply, message: string): Backend {
    var removed := rollback == Replied(true) || rollback == Silent(true);
    Backend(false, -1, b.modIdx, message, false,
            World(if removed then b.world.modules - {b.modIdx} else b.world.modules, false,
                  b.world.opens, b.world.closes,
                  b.world.unloads + (if rollback == NoOperation then [] else [b.modIdx])))
  }

  /** The object after a setup that got as far as opening the FIFO and failed there. */
  ghost function RolledBack(b: Backend, pid: string, env: SetupEnv, message: string): Backend {
    var w := Cleanup(b.world, env.listing, env.staleReplies);
    var modules := ModulesAfterLoad(b, pid, env);
    Undone(Backend(false, b.fd, KnownIndex(b, env), "", b.playback,
                   World(modules, true, w.opens, w.closes, w.unloads)), env.rollback, message)
  }

  /**
   A setup that opens the FIFO keeps the descriptor it was given, remembers the index and changes
   nothing else; one that does not sends one unload request for that index, removes the path, and
   says which of the two it was.
   */
  lemma SetupOpensOrRollsBack(b: Backend, pid: string, env: SetupEnv)
    requires Inv(b) && !b.loaded && env.mkfifoOk
    requires env.load != NoLoadOperation && KnownIndex(b, env) != 0xFFFF_FFFF
    ensures var w := Cleanup(b.world, env.listing, env.staleReplies);
      forall k: nat :: Decides(env.tries, k) && k < |env.tries| && env.tries[k].Opened? ==>
        Setup(b, pid, env) ==
          (Backend(true, env.tries[k].fd, KnownIndex(b, env), "", b.playback,
                   World(ModulesAfterLoad(b, pid, env), true, w.opens + 1, w.closes, w.unloads)), Ready)
    ensures SeesShutdown(env.tries) ==>
      Setup(b, pid, env) == (RolledBack(b, pid, env, "Shutdown requested before virtual source was ready."), Threw)
    ensures SeesErrno(env.tries) ==>
      Setup(b, pid, env) == (RolledBack(b, pid, env, "Failed to open fifo for writing"), Threw)
    ensures Opens(env.tries) || SeesShutdown(env.tries) || SeesErrno(env.tries)
  {
    SetupReachesOpen(b, pid, env);
    hide Setup, Cleanup, OpenOrRollBack, OpenLoop, SeesShutdown, SeesErrno, Opens, KnownIndex, ModulesAfterLoad;
    var w := Cleanup(b.world, env.listing, env.staleReplies);
    OpenOrRollBackExactly(
      Backend(false, b.fd, KnownIndex(b, env), "", b.playback,
              World(ModulesAfterLoad(b, pid, env), true, w.opens, w.closes, w.unloads)), env);
  }

  /** The part of setup that opens the FIFO or rolls back, on its own. */
  lemma OpenOrRollBackExactly(b: Backend, env: SetupEnv)
    requires !b.loaded && b.fd < 0
    ensures forall k: nat :: Decides(env.tries, k) && k < |env.tries| && env.tries[k].Opened? ==>
      OpenOrRollBack(b, env) ==
        (Backend(true, env.tries[k].fd, b.modIdx, b.error, b.playback,
                 World(b.world.modules, b.world.fifoExists, b.world.opens + 1, b.world.closes, b.world.unloads)), Ready)
    ensures SeesShutdown(env.tries) ==>
      OpenOrRollBack(b, env) == (Undone(b, env.rollback, "Shutdown requested before virtual source was ready."), Threw)
    ensures SeesErrno(env.tries) ==>
      OpenOrRollBack(b, env) == (Undone(b, env.rollback, "Failed to open fifo for writing"), Threw)
    ensures Opens(env.tries) || SeesShutdown(env.tries) || SeesErrno(env.tries)
  {
    OpenLoopEnds(env.tries);
    RemovesIff(env.rollback);
    assert b.world.unloads + [] == b.world.unloads;
    hide OpenLoop, SeesShutdown, SeesErrno, Opens;
  }

  lemma SetupReachesOpen(b: Backend, pid: string, env: SetupEnv)
    requires !b.loaded && env.mkfifoOk
    requires env.load != NoLoadOperation && KnownIndex(b, env) != 0xFFFF_FFFF
    ensures var w := Cleanup(b.world, env.listing, env.staleReplies);
      Setup(b, pid, env) == OpenOrRollBack(
        Backend(false, b.fd, KnownIndex(b, env), "", b.playback,
                World(ModulesAfterLoad(b, pid, env), true, w.opens, w.closes, w.unloads)), env)
  {
    hide Cleanup, ModuleArgs, OpenOrRollBack;
  }

  /** A stop clears playback; a finished run clears it and records why it failed, if it did. */
  lemma StopAndRunExactly(b: Backend, pid: string, failure: Option<string>)
    ensures Apply(b, pid, StopOp) == Backend(b.loaded, b.fd, b.modIdx, b.error, false, b.world)
    ensures var message :=
        if !(b.loaded && b.fd >= 0 && b.error == "") then "Called run_virtual_input without checking readiness"
        else if failure.Some? then failure.value
        else b.error;
      Apply(b, pid, RunOp(failure)) == Backend(b.loaded, b.fd, b.modIdx, message, false, b.world)
  {
  }

  /** The arguments of the module: its name, its FIFO, and the format that the decoder's output has. */
  lemma OwnArguments(pid: string)
    ensures ModuleArgs(pid) == "source_name=audpipe_input_" + pid + " file=/tmp/audpipe_input_" + pid
      + ".pcm" + " format=s16le rate=48000 " + "channels=2 source_properties=device.description=audpipe_input"
  {
    assert "source_name=" + SOURCE_NAME_PREFIX == "source_name=audpipe_input_";
    assert " file=" + "/tmp/audpipe_input_" == " file=/tmp/audpipe_input_";
    Regroup("source_name=", SOURCE_NAME_PREFIX, pid, " file=", "/tmp/audpipe_input_", ".pcm");
  }

  lemma Regroup(a: string, b: string, pid: string, c: string, d: string, e: string)
    ensures a + (b + pid) + c + (d + pid + e) == (a + b) + pid + (c + d) + pid + e
  {
  }

  // ---------- The source on the server ----------

  /** A loaded source really is on the server, under the remembered index, and its path exists. */
  ghost predicate Backed(b: Backend) {
    b.loaded ==>
      && b.modIdx in b.world.modules && NamedByAudpipe(b.world.modules[b.modIdx]) && b.world.fifoExists
  }

  /** The index remembered from an earlier load still names an audpipe source after cleanup. */
  ghost predicate SurvivesCleanup(b: Backend, env: SetupEnv) {
    && b.modIdx in b.world.modules && NamedByAudpipe(b.world.modules[b.modIdx])
    && !(env.listing.Some? && b.modIdx in env.listing.value && env.staleReplies(b.modIdx).Removes())
  }

  /** The load was answered, or its silence does no harm: the remembered index is the right one. */
  ghost predicate RemembersModule(b: Backend, env: SetupEnv) {
    env.load.LoadReplied? || env.load == LoadSilent(Some(b.modIdx)) || SurvivesCleanup(b, env)
  }

  /** A setup that ends ready has a module behind it exactly when it remembers the right index. */
  lemma BackedAfterSetup(b: Backend, pid: string, env: SetupEnv)
    requires Setup(b, pid, env).1.Ready?
    ensures Backed(Setup(b, pid, env).0) <==> RemembersModule(b, env)
  {
    CleanupExactly(b.world, env.listing, env.staleReplies);
    OwnModuleIsRecognised(pid);
    hide Cleanup, NamedByAudpipe, Requests, Stale;
  }

  /** An unloaded object, a FIFO, an index to remember, from this load or an earlier one, and a reader. */
  ghost predicate EndsReady(b: Backend, env: SetupEnv) {
    && !b.loaded && env.mkfifoOk
    && (match env.load
        case NoLoadOperation => false
        case LoadReplied(idx) => idx != INVALID_INDEX
        case LoadSilent(_) => b.modIdx != INVALID_INDEX)
    && Opens(env.tries)
  }

  /** When a setup makes the source ready, told by what it meets. */
  lemma ReadyIff(b: Backend, pid: string, env: SetupEnv)
    requires Inv(b)
    ensures Setup(b, pid, env).1.Ready? <==> EndsReady(b, env)
  {
    hide Cleanup;
    OpenLoopEnds(env.tries);
  }

  /** What an operation must not do, to keep a source backed: become ready under an index that names
      no audpipe source, or take the module of a loaded source off the server. */
  ghost predicate Harmless(b: Backend, op: Op) {
    match op
    case SetupOp(env) => EndsReady(b, env) ==> RemembersModule(b, env)
    case OtherUnloads(idx) => b.loaded ==> idx != b.modIdx
    case _ => true
  }

  lemma BackedStep(b: Backend, pid: string, op: Op)
    requires Inv(b) && Backed(b)
    ensures Backed(Apply(b, pid, op)) <==> Harmless(b, op)
  {
    hide Setup, RemembersModule, EndsReady, NamedByAudpipe;
    if op.SetupOp? {
      SetupKeepsInv(b, pid, op.env);
      ReadyIff(b, pid, op.env);
      if Setup(b, pid, op.env).1.Ready? {
        BackedAfterSetup(b, pid, op.env);
      }
    }
  }

  /** The object after the first k operations of a run. */
  function At(modules: map<nat, ModuleInfo>, fifoExists: bool, pid: string, ops: seq<Op>, k: nat): Backend
    requires k <= |ops|
  {
    ApplyAll(Fresh(modules, fifoExists), pid, ops[..k])
  }

  /**
   Over every run, whatever the server, the file system and the other clients do: a loaded source is
   on the server under its index, with its path, at every moment if and only if no setup became
   ready without knowing its module and no other client unloaded the module of a loaded source.
   */
  lemma {:induction false} SourceStaysBacked(
      modules: map<nat, ModuleInfo>, fifoExists: bool, pid: string, ops: seq<Op>)
    ensures (forall k :: 0 <= k <= |ops| ==> Backed(At(modules, fifoExists, pid, ops, k)))
      <==> (forall k :: 0 <= k < |ops| ==> Harmless(At(modules, fifoExists, pid, ops, k), ops[k]))
  {
    BackedUpTo(modules, fifoExists, pid, ops, |ops|);
  }

  lemma {:induction false} BackedUpTo(
      modules: map<nat, ModuleInfo>, fifoExists: bool, pid: string, ops: seq<Op>, n: nat)
    requires n <= |ops|
    ensures (forall k :: 0 <= k <= n ==> Backed(At(modules, fifoExists, pid, ops, k)))
      <==> (forall k :: 0 <= k < n ==> Harmless(At(modules, fifoExists, pid, ops, k), ops[k]))
  {
    hide Backed, Harmless, At, Apply, Inv;
    if n == 0 {
      StartsBacked(modules, fifoExists, pid, ops);
    } else {
      BackedUpTo(modules, fifoExists, pid, ops, n - 1);
      StepAt(modules, fifoExists, pid, ops, n - 1);
      var b := At(modules, fifoExists, pid, ops, n - 1);
      if Backed(b) {
        BackedStep(b, pid, ops[n - 1]);
      }
    }
  }

  lemma StartsBacked(modules: map<nat, ModuleInfo>, fifoExists: bool, pid: string, ops: seq<Op>)
    ensures Backed(At(modules, fifoExists, pid, ops, 0))
  {
  }

  lemma {:induction false} StepAt(
      modules: map<nat, ModuleInfo>, fifoExists: bool, pid: string, ops: seq<Op>, k: nat)
    requires k < |ops|
    ensures At(modules, fifoExists, pid, ops, k + 1) == Apply(At(modules, fifoExists, pid, ops, k), pid, ops[k])
    ensures Inv(At(modules, fifoExists, pid, ops, k))
  {
    assert ops[..k + 1][..k] == ops[..k];
    InvariantOfEveryRun(modules, fifoExists, pid, ops[..k]);
  }

  /**
   Answered loads are needed. A setup fails to open its FIFO and rolls its module 9 back; the next
   one loads module 10 but never hears so. It ends ready with the index 9, which is no longer on the
   server, and a destroy leaves module 10 there.
   */
  lemma SilentLoadCanMislead(pid: string)
    ensures var failing :=
        SetupEnv(None, _ => NoOperation, true, LoadReplied(9), [OpenFailed(OtherErrno, false)], Replied(true));
      var silent := SetupEnv(None, _ => NoOperation, true, LoadSilent(Some(10)), [Opened(3)], NoOperation);
      var b := ApplyAll(Fresh(map[], false), pid, [SetupOp(failing), SetupOp(silent)]);
      && IsReady(b) && !Backed(b) && b.modIdx == 9
      && b.world.modules.Keys == {10} && Destroy(b, Replied(true)).world.modules.Keys == {10}
  {
    var failing :=
      SetupEnv(None, _ => NoOperation, true, LoadReplied(9), [OpenFailed(OtherErrno, false)], Replied(true));
    var silent := SetupEnv(None, _ => NoOperation, true, LoadSilent(Some(10)), [Opened(3)], NoOperation);
    ApplyTwo(Fresh(map[], false), pid, SetupOp(failing), SetupOp(silent));
    RolledBackSetup(pid, failing);
    SilentSetup(pid, Setup(Fresh(map[], false), pid, failing).0, silent);
    hide Setup;
  }

  /** The first setup of that run. */
  lemma RolledBackSetup(pid: string, env: SetupEnv)
    requires env.listing.None? && env.mkfifoOk && env.load == LoadReplied(9)
    requires env.tries == [OpenFailed(OtherErrno, false)] && env.rollback == Replied(true)
    ensures Setup(Fresh(map[], false), pid, env).0
         == Backend(false, -1, 9, OPEN_FAILED, false, World(map[], false, 0, 0, [9]))
  {
    hide ModuleArgs;
    var loaded := map[9 := ModuleInfo(Some(PIPE_SOURCE), Some(ModuleArgs(pid)))];
    assert loaded - {9} == map[];
  }

  /** The second one, on what the first one left. */
  lemma SilentSetup(pid: string, b: Backend, env: SetupEnv)
    requires b == Backend(false, -1, 9, OPEN_FAILED, false, World(map[], false, 0, 0, [9]))
    requires env.listing.None? && env.mkfifoOk && env.load == LoadSilent(Some(10))
    requires env.tries == [Opened(3)]
    ensures var b' := Setup(b, pid, env).0;
      && b' == Backend(true, 3, 9, "", false, World(b'.world.modules, true, 1, 0, [9]))
      && b'.world.modules.Keys == {10}
  {
    hide ModuleArgs;
    assert OpenLoop(env.tries) == GotFd(3);
  }

  /**
   Cleanup does not tell another audpipe process's live module from a stale one: once a second
   process has set up, having found the first one's module and had its unload done, the first is
   still ready and has nothing behind it.
   */
  lemma SecondProcessUnloads(a: Backend, pidA: string, pidB: string, fifoExists: bool, env: SetupEnv)
    requires IsReachable(a, pidA) && IsReady(a) && Backed(a)
    requires env.listing.Some? && a.modIdx in env.listing.value && env.staleReplies(a.modIdx).Removes()
    ensures a.modIdx in Setup(Fresh(a.world.modules, fifoExists), pidB, env).0.world.unloads
    ensures var a' := Apply(a, pidA, OtherUnloads(a.modIdx)); IsReady(a') && !Backed(a')
  {
    hide IsReachable, NamedByAudpipe, Setup, Cleanup;
    var b := Fresh(a.world.modules, fifoExists);
    CleanupAsks(b.world, env, a.modIdx);
    SetupKeepsRequests(b, pidB, env);
  }

  lemma CleanupAsks(w: World, env: SetupEnv, idx: nat)
    requires idx in w.modules && NamedByAudpipe(w.modules[idx])
    requires env.listing.Some? && idx in env.listing.value && env.staleReplies(idx).Removes()
    ensures idx in Cleanup(w, env.listing, env.staleReplies).unloads
  {
    hide NamedByAudpipe;
    StaleExactly(w.modules, env.listing.value);
    UnloadAllKeeps(w, Stale(w.modules, env.listing.value), env.staleReplies);
  }

  lemma SetupKeepsRequests(b: Backend, pid: string, env: SetupEnv)
    requires !b.loaded
    ensures Cleanup(b.world, env.listing, env.staleReplies).unloads <= Setup(b, pid, env).0.world.unloads
  {
    hide Cleanup, OpenOrRollBack;
    var swept := b.(error := "", world := Unlink(Cleanup(b.world, env.listing, env.staleReplies)));
    var piped := swept.(world := swept.world.(fifoExists := true));
    OpenKeepsRequests(Load(piped, pid, env.load), env);
  }

  lemma OpenKeepsRequests(b: Backend, env: SetupEnv)
    ensures b.world.unloads <= OpenOrRollBack(b, env).0.world.unloads
  {
  }

  lemma OneStale(w: World, idx: nat, replies: nat -> UnloadReply)
    requires idx in w.modules && NamedByAudpipe(w.modules[idx])
    ensures Cleanup(w, Some([idx]), replies) == Unload(w, idx, replies(idx))
  {
    assert [idx][..0] == [];
    PicksNamedByAudpipe(w.modules[idx]);
    assert Stale(w.modules, [idx]) == [idx];
    assert UnloadAll(w, [idx], replies) == Unload(UnloadAll(w, [], replies), idx, replies(idx));
  }

  /** Two processes on one server: the second one's setup is such a step of another client. */
  lemma TwoProcessesCollide(pidA: string, pidB: string)
    ensures var envA := SetupEnv(None, _ => NoOperation, true, LoadReplied(7), [Opened(3)], NoOperation);
      var envB := SetupEnv(Some([7]), _ => Replied(true), true, LoadReplied(8), [Opened(4)], NoOperation);
      var a := ApplyAll(Fresh(map[], false), pidA, [SetupOp(envA)]);
      var b := ApplyAll(Fresh(a.world.modules, false), pidB, [SetupOp(envB)]);
      var a' := ApplyAll(Fresh(map[], false), pidA, [SetupOp(envA), OtherUnloads(7)]);
      && IsReady(a) && Backed(a) && IsReady(b) && Backed(b)
      && b.world.unloads == [7] && 7 !in b.world.modules
      && IsReady(a') && !Backed(a')
  {
    var envA := SetupEnv(None, _ => NoOperation, true, LoadReplied(7), [Opened(3)], NoOperation);
    var envB := SetupEnv(Some([7]), _ => Replied(true), true, LoadReplied(8), [Opened(4)], NoOperation);
    var a := Setup(Fresh(map[], false), pidA, envA).0;
    OwnModuleIsRecognised(pidA);
    OwnModuleIsRecognised(pidB);
    ApplyTwo(Fresh(map[], false), pidA, SetupOp(envA), OtherUnloads(7));
    ApplyOne(Fresh(map[], false), pidA, SetupOp(envA));
    ApplyOne(Fresh(a.world.modules, false), pidB, SetupOp(envB));
    var w := Fresh(a.world.modules, false).world;
    OneStale(w, 7, envB.staleReplies);
    hide NamedByAudpipe;
  }

  /**
   Destroy never fails: it ends unloaded, with no descriptor and no FIFO path, and doing it again
   changes nothing. It forgets the last error only if it sent an unload request.
   */
  lemma DestroyAlwaysTearsDown(b: Backend, pid: string, reply: UnloadReply, again: UnloadReply)
    requires IsReachable(b, pid)
    ensures var b' := Destroy(b, reply);
      && !b'.loaded && b'.fd < 0 && !b'.world.fifoExists && b'.world.opens == b'.world.closes
      && b'.world.unloads
         == b.world.unloads + (if b.loaded && !reply.NoOperation? then [b.modIdx] else [])
      && b'.error == (if b.loaded && !reply.NoOperation? then "" else b.error)
      && b'.world.modules == (if b.loaded && (reply == Replied(true) || reply == Silent(true))
                              then b.world.modules - {b.modIdx} else b.world.modules)
      && b'.modIdx == (if b.loaded then 0xFFFF_FFFF else b.modIdx)
      && b'.world.closes == b.world.closes + (if b.fd >= 0 then 1 else 0) && b'.playback == b.playback
      && Destroy(b', again) == b'
  {
    ReachableInv(b, pid);
    RemovesIff(reply);
  }

  /**
   Destroying what a setup made ready gives back the descriptor and the path and clears index and
   error, whatever the server answers; it gives the module back if and only if the unload took effect.
   */
  lemma DestroyUndoesSetup(b: Backend, pid: string, env: SetupEnv, reply: UnloadReply)
    requires IsReachable(b, pid) && LoadedFresh(b, env) && Setup(b, pid, env).1.Ready?
    ensures var b' := Destroy(Setup(b, pid, env).0, reply);
      && !b'.loaded && b'.fd < 0 && b'.modIdx == INVALID_INDEX && b'.error == ""
      && !b'.world.fifoExists && b'.world.opens == b'.world.closes
      && (b'.world.modules == Cleanup(b.world, env.listing, env.staleReplies).modules <==> reply.Removes())
  {
    ReachableInv(b, pid);
    CleanupExactly(b.world, env.listing, env.staleReplies);
    FreshSetup(b, pid, env);
    SetupKeepsInv(b, pid, env);
    hide Setup, Cleanup, IsReachable, ModuleArgs;
    var before := Cleanup(b.world, env.listing, env.staleReplies).modules;
    var b' := Setup(b, pid, env).0;
    assert b'.world.modules - {env.load.idx} == before;
    if !reply.Removes() {
      assert env.load.idx in Destroy(b', reply).world.modules;
    }
  }
}
