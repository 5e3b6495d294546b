/**
 The client as a transition system. Each step is one critical section of `playback_queue_mutex` or
 one atomic access, so that any number of RTP receive threads, the virtual-microphone thread,
 error reporters and the shutdown path interleave in every possible way.

 A step that its thread cannot take in the current state leaves the state as it is, so every
 sequence of steps is a run and `forall steps` ranges over all runs.
 */
module ClientModel {
  import opened Pcm
  import opened Opus

  const MAX_COMPRESSED: nat := 256

  /** Where one invocation of the receive callback stands, with the payload it carries. */
  datatype Recv =
    | Entered(payload: Packet)
    | StopRead(payload: Packet)
    | Admitted(payload: Packet)
    | Releasing
    | Released

  /** Where the write callback stands. */
  datatype Pc =
    | Idle
    | Entry
    | Draining
    | Popping
    | Decoding(frame: Packet)
    | Appending(pcm: seq<byte>)
    | Returning(sawEmpty: bool)

  /** The write callback and its locals: the room it was asked to fill and `dst[..written]`. */
  datatype Writer = Writer(pc: Pc, want: nat, dst: seq<byte>)

  /** Where one call of set_error stands. */
  datatype Reporter = Lost | Won(text: string) | Recorded(text: string) | Finished(text: string)

  datatype Taken = Taken(index: nat, seen: nat, packet: Packet)

  datatype Dropped = Dropped(index: nat, displacer: nat)

  /** A finished write callback: asked for, handed out, and whether both queues were seen empty. */
  datatype Served = Served(want: nat, got: nat, sawEmpty: bool)

  /** What has happened so far; no step reads it. */
  datatype History = History(
    accepted: seq<Packet>,
    taken: seq<Taken>,
    dropped: seq<Dropped>,
    returned: seq<byte>,
    served: seq<Served>,
    errors: seq<string>)

  datatype State = State(
    shouldStop: bool,
    healthy: bool,
    framesReceived: nat,
    lastError: string,
    decoder: CodecState,
    playback: seq<byte>,
    compressed: seq<Packet>,
    w: Writer,
    recvs: map<nat, Recv>,
    freed: multiset<nat>,
    reporters: map<nat, Reporter>,
    h: History)

  datatype Action =
    | Deliver(id: nat, payload: Packet)
    | RecvReadStop(id: nat)
    | RecvReadHealthy(id: nat)
    | RecvQueue(id: nat)
    | RecvFree(id: nat)
    | Call(want: nat)
    | ReadHealthy
    | Drain
    | Pop
    | Decode
    | Append
    | Return
    | RequestShutdown
    | ErrorRaise(id: nat, text: string)
    | ErrorRecord(id: nat)
    | ErrorStop(id: nat)
  {
    /** Steps of the virtual-microphone thread. */
    predicate IsWriter() {
      Call? || ReadHealthy? || Drain? || Pop? || Decode? || Append? || Return?
    }

    /** Steps of the receive threads. */
    predicate IsRecv() {
      Deliver? || RecvReadStop? || RecvReadHealthy? || RecvQueue? || RecvFree?
    }
  }

  function Init(d0: CodecState): State {
    State(false, true, 0, "", d0, [], [], Writer(Idle, 0, []), map[], multiset{}, map[],
          History([], [], [], [], [], []))
  }

  // ---------- Receive callback ----------

  /** How many accepted frames have left the compressed queue: the index of its front. */
  function Front(h: History): nat { |h.taken| + |h.dropped| }

  /** The critical section of the receive callback: push, displacing the oldest when full. */
  function Push(s: State, payload: Packet): State {
    var full := |s.compressed| >= MAX_COMPRESSED;
    var kept := if full then s.compressed[1..] else s.compressed;
    var gone := if full then [Dropped(Front(s.h), |s.h.accepted|)] else [];
    s.(compressed := kept + [payload],
       framesReceived := s.framesReceived + 1,
       h := s.h.(accepted := s.h.accepted + [payload], dropped := s.h.dropped + gone))
  }

  function RecvQueueStep(s: State, id: nat): State {
    if id !in s.recvs || !s.recvs[id].Admitted? then s
    else
      var p := s.recvs[id].payload;
      (if p == [] then s else Push(s, p)).(recvs := s.recvs[id := Releasing])
  }

  /** The other steps of a receive callback move that callback only. */
  function RecvLocalStep(s: State, a: Action): State
    requires a.IsRecv() && !a.RecvQueue?
  {
    match a
    case Deliver(id, p) =>
      if id in s.recvs then s else s.(recvs := s.recvs[id := Entered(p)])
    case RecvReadStop(id) =>
      if id !in s.recvs || !s.recvs[id].Entered? then s
      else
        var next := if s.shouldStop then Releasing else StopRead(s.recvs[id].payload);
        s.(recvs := s.recvs[id := next])
    case RecvReadHealthy(id) =>
      if id !in s.recvs || !s.recvs[id].StopRead? then s
      else
        var next := if s.healthy then Admitted(s.recvs[id].payload) else Releasing;
        s.(recvs := s.recvs[id := next])
    case RecvFree(id) =>
      if id !in s.recvs || !s.recvs[id].Releasing? then s
      else s.(recvs := s.recvs[id := Released], freed := s.freed + multiset{id})
  }

  function NextRecv(s: State, a: Action): State
    requires a.IsRecv()
  {
    if a.RecvQueue? then RecvQueueStep(s, a.id) else RecvLocalStep(s, a)
  }

  // ---------- Write callback ----------

  /** Entry check, first load: an empty request or a stopped client is answered with nothing. */
  function CallStep(s: State, want: nat): State {
    if !s.w.pc.Idle? || want == 0 || s.shouldStop then s
    else s.(w := Writer(Entry, want, []))
  }

  /** Entry check, second load. */
  function ReadHealthyStep(s: State): State {
    if !s.w.pc.Entry? then s
    else if s.healthy then s.(w := s.w.(pc := Draining))
    else s.(w := Writer(Idle, 0, []))
  }

  /** First critical section: move what is ready into dst, as far as there is room. */
  function DrainStep(s: State): State {
    if !s.w.pc.Draining? then s
    else
      var room := if |s.w.dst| <= s.w.want then s.w.want - |s.w.dst| else 0;
      var k := if |s.playback| <= room then |s.playback| else room;
      var dst := s.w.dst + s.playback[..k];
      var rest := s.playback[k..];
      var pc := if |dst| == s.w.want then Returning(rest == [] && s.compressed == []) else Popping;
      s.(playback := rest, w := s.w.(pc := pc, dst := dst))
  }

  /** Second critical section: take the oldest frame, or give up when there is none. */
  function PopStep(s: State): State {
    if !s.w.pc.Popping? then s
    else if s.compressed == [] then s.(w := s.w.(pc := Returning(s.playback == [])))
    else
      s.(compressed := s.compressed[1..],
         w := s.w.(pc := Decoding(s.compressed[0])),
         h := s.h.(taken := s.h.taken + [Taken(Front(s.h), |s.h.accepted|, s.compressed[0])]))
  }

  /** Outside the lock: decode; a failed decode goes straight back to draining. */
  function DecodeStep(dec: Decoder, s: State): State {
    if !s.w.pc.Decoding? then s
    else
      var r := dec(s.decoder, s.w.pc.frame);
      s.(decoder := r.next,
         w := s.w.(pc := if r.Decoded? then Appending(r.Bytes()) else Draining))
  }

  /** Third critical section: the decoded PCM joins the playback queue. */
  function AppendStep(s: State): State {
    if !s.w.pc.Appending? then s
    else s.(playback := s.playback + s.w.pc.pcm, w := s.w.(pc := Draining))
  }

  function ReturnStep(s: State): State {
    if !s.w.pc.Returning? then s
    else
      var answer := Served(s.w.want, |s.w.dst|, s.w.pc.sawEmpty);
      s.(w := Writer(Idle, 0, []),
         h := s.h.(returned := s.h.returned + s.w.dst, served := s.h.served + [answer]))
  }

  function NextWriter(dec: Decoder, s: State, a: Action): State
    requires a.IsWriter()
  {
    match a
    case Call(want) => CallStep(s, want)
    case ReadHealthy => ReadHealthyStep(s)
    case Drain => DrainStep(s)
    case Pop => PopStep(s)
    case Decode => DecodeStep(dec, s)
    case Append => AppendStep(s)
    case Return => ReturnStep(s)
  }

  // ---------- Errors and shutdown ----------

  function NextControl(s: State, a: Action): State
    requires !a.IsRecv() && !a.IsWriter()
  {
    match a
    case RequestShutdown => s.(shouldStop := true)
    case ErrorRaise(id, text) =>
      if id in s.reporters then s
      else if s.healthy then s.(healthy := false, reporters := s.reporters[id := Won(text)])
      else s.(reporters := s.reporters[id := Lost])
    case ErrorRecord(id) =>
      if id in s.reporters && s.reporters[id].Won? then
        var text := s.reporters[id].text;
        s.(lastError := text, reporters := s.reporters[id := Recorded(text)],
           h := s.h.(errors := s.h.errors + [text]))
      else s
    case ErrorStop(id) =>
      if id in s.reporters && s.reporters[id].Recorded? then
        s.(shouldStop := true, reporters := s.reporters[id := Finished(s.reporters[id].text)])
      else s
  }

  // ---------- Runs ----------

  function Next(dec: Decoder, s: State, a: Action): State {
    if a.IsRecv() then NextRecv(s, a)
    else if a.IsWriter() then NextWriter(dec, s, a)
    else NextControl(s, a)
  }

  function Run(dec: Decoder, s: State, steps: seq<Action>): State {
    if steps == [] then s
    else Next(dec, Run(dec, s, steps[..|steps| - 1]), steps[|steps| - 1])
  }

  /** Some run, with some interleaving, leads here. */
  ghost predicate IsReachable(dec: Decoder, d0: CodecState, s: State) {
    exists steps :: s == Run(dec, Init(d0), steps)
  }

  lemma RunSnoc(dec: Decoder, s: State, steps: seq<Action>, a: Action)
    ensures Run(dec, s, steps + [a]) == Next(dec, Run(dec, s, steps), a)
  {
    assert (steps + [a])[..|steps|] == steps;
  }

  lemma {:induction false} RunConcat(dec: Decoder, s: State, xs: seq<Action>, ys: seq<Action>)
    ensures Run(dec, s, xs + ys) == Run(dec, Run(dec, s, xs), ys)
  {
    if ys == [] {
      assert xs + ys == xs;
    } else {
      var ys' := ys[..|ys| - 1];
      RunConcat(dec, s, xs, ys');
      assert (xs + ys)[..|xs + ys| - 1] == xs + ys';
    }
  }
}
