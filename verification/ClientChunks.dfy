/** How the byte stream is cut into requests does not change it. */
module ClientChunks {
  import opened Pcm
  import opened Opus
  import opened ClientModel
  import opened ClientFrames
  import opened ClientStream

  function Min(a: nat, b: nat): nat { if a <= b then a else b }

  /** Only the virtual-microphone thread runs. */
  ghost predicate WriterOnly(steps: seq<Action>) {
    forall i :: 0 <= i < |steps| ==> steps[i].IsWriter()
  }

  /** What the step asks for, if it begins a call that passes the first entry check. */
  function Begins(s: State, a: Action): nat {
    if a.Call? && s.w.pc.Idle? && !s.shouldStop then a.want else 0
  }

  /** The sum of all requests of a run. */
  function Asked(dec: Decoder, s: State, steps: seq<Action>): nat {
    if steps == [] then 0
    else
      var before := steps[..|steps| - 1];
      Asked(dec, s, before) + Begins(Run(dec, s, before), steps[|steps| - 1])
  }

  /** The byte stream a quiet client will hand out. */
  function Stream(dec: Decoder, s: State): seq<byte> {
    s.playback + DecodeAll(dec, s.decoder, s.compressed)
  }

  /** Writer steps neither accept nor drop: taken and queued frames together stay the same. */
  lemma WriterKeepsFrames(dec: Decoder, s: State, a: Action)
    requires a.IsWriter()
    ensures var s' := Next(dec, s, a);
      && Packets(s'.h.taken) + s'.compressed == Packets(s.h.taken) + s.compressed
      && s'.shouldStop == s.shouldStop && s'.healthy == s.healthy
  {
    if a.Pop? {
      hide PopStep;
      PopFrame(s);
      PopKeepsFrames(s);
    } else {
      hide NextWriter;
      WriterFrame(dec, s, a);
    }
  }

  lemma PopKeepsFrames(s: State)
    ensures var s' := PopStep(s);
      Packets(s'.h.taken) + s'.compressed == Packets(s.h.taken) + s.compressed
  {
    var s' := PopStep(s);
    if s.w.pc.Popping? && s.compressed != [] {
      assert Packets(s'.h.taken) == Packets(s.h.taken) + [s.compressed[0]];
      assert s.compressed == [s.compressed[0]] + s.compressed[1..];
    }
  }

  lemma StepKeepsTotal(dec: Decoder, d0: CodecState, s: State, a: Action)
    requires Safe(dec, d0, s) && a.IsWriter()
    ensures Total(dec, Next(dec, s, a)) == Total(dec, s)
  {
    StepKeepsSafe(dec, d0, s, a);
    TotalOfSafe(dec, d0, s);
    TotalOfSafe(dec, d0, Next(dec, s, a));
    WriterKeepsFrames(dec, s, a);
  }

  /** The writer alone only moves bytes along: out, in dst, queued or undecoded, they stay equal. */
  lemma {:induction false} WriterKeepsTotal(dec: Decoder, d0: CodecState, s: State, a: Action)
    requires IsReachable(dec, d0, s) && a.IsWriter()
    ensures Total(dec, Next(dec, s, a)) == Total(dec, s)
  {
    ReachableIsSafe(dec, d0, s);
    StepKeepsTotal(dec, d0, s, a);
  }

  /**
   Progress of a run that has asked for `asked` bytes, when `base` bytes were out at its start and
   `total` bytes will ever be: finished calls were short only because the stream was used up.
   */
  ghost predicate OnTrack(s: State, base: nat, total: nat, asked: nat) {
    && base <= total
    && s.w.want <= asked
    && |s.h.returned| == base + Min(asked - s.w.want, total - base)
    && (s.w.pc.Idle? ==> s.w.want == 0)
    && (s.w.pc.Returning? && |s.w.dst| < s.w.want ==> s.compressed == [] && s.playback == [])
  }

  /** While a call returns, what it hands out is within the stream; used up if it is short. */
  lemma ReturnArithmetic(dec: Decoder, s: State)
    requires Shape(s) && s.w.pc.Returning?
    ensures |s.h.returned| + |s.w.dst| <= |Total(dec, s)|
    ensures s.compressed == [] && s.playback == [] ==> |s.h.returned| + |s.w.dst| == |Total(dec, s)|
  {
    assert InFlight(s) + s.compressed == s.compressed;
  }

  lemma ReturnOnTrack(dec: Decoder, s: State, base: nat, asked: nat)
    requires Shape(s) && OnTrack(s, base, |Total(dec, s)|, asked)
    ensures OnTrack(ReturnStep(s), base, |Total(dec, s)|, asked)
  {
    if s.w.pc.Returning? {
      ReturnArithmetic(dec, s);
    }
  }

  lemma StepOnTrack(dec: Decoder, s: State, a: Action, base: nat, total: nat, asked: nat)
    requires Shape(s) && a.IsWriter() && s.healthy && !a.Return?
    requires OnTrack(s, base, total, asked)
    ensures OnTrack(Next(dec, s, a), base, total, asked + Begins(s, a))
  {
    AnswersFrame(dec, s, a);
    NextOfWriter(dec, s, a);
    hide Next;
    match a
    case Call(want) =>
    case ReadHealthy =>
    case Drain =>
    case Pop =>
    case Decode =>
    case Append =>
  }

  lemma AnyStepOnTrack(dec: Decoder, s: State, a: Action, base: nat, total: nat, asked: nat)
    requires Shape(s) && a.IsWriter() && s.healthy && total == |Total(dec, s)|
    requires OnTrack(s, base, total, asked)
    ensures OnTrack(Next(dec, s, a), base, total, asked + Begins(s, a))
  {
    if a.Return? {
      ReturnOnTrack(dec, s, base, asked);
    } else {
      StepOnTrack(dec, s, a, base, total, asked);
    }
  }

  lemma {:induction false} RunKeepsTotal(dec: Decoder, d0: CodecState, s: State, steps: seq<Action>)
    requires Safe(dec, d0, s) && WriterOnly(steps)
    ensures var s' := Run(dec, s, steps);
      && Safe(dec, d0, s') && Total(dec, s') == Total(dec, s)
      && s'.healthy == s.healthy && s'.shouldStop == s.shouldStop
  {
    if steps != [] {
      var before := steps[..|steps| - 1];
      var a := steps[|steps| - 1];
      RunKeepsTotal(dec, d0, s, before);
      StepKeepsSafe(dec, d0, Run(dec, s, before), a);
      StepKeepsTotal(dec, d0, Run(dec, s, before), a);
      WriterKeepsFrames(dec, Run(dec, s, before), a);
    }
  }

  lemma IdleTotal(dec: Decoder, s: State)
    requires s.w.pc.Idle? && s.w.dst == []
    ensures Total(dec, s) == s.h.returned + Stream(dec, s)
  {
    var rest := DecodeAll(dec, s.decoder, s.compressed);
    assert InFlight(s) + s.compressed == s.compressed;
    AddNothing(s.h.returned);
    AddNothing(s.h.returned + s.playback);
    Assoc(s.h.returned, s.playback, rest);
  }

  lemma StartOnTrack(dec: Decoder, s: State)
    requires s.w == Writer(Idle, 0, [])
    ensures OnTrack(s, |s.h.returned|, |Total(dec, s)|, 0)
  {
    IdleTotal(dec, s);
  }

  lemma {:induction false} SafeHasShape(dec: Decoder, d0: CodecState, s: State, steps: seq<Action>)
    requires Safe(dec, d0, s)
    ensures Shape(Run(dec, s, steps))
  {
    RunKeepsSafe(dec, d0, s, steps);
  }

  lemma {:induction false} RunOnTrack(dec: Decoder, d0: CodecState, s: State, steps: seq<Action>)
    requires Safe(dec, d0, s) && s.w == Writer(Idle, 0, []) && s.healthy && WriterOnly(steps)
    ensures OnTrack(Run(dec, s, steps), |s.h.returned|, |Total(dec, s)|, Asked(dec, s, steps))
  {
    hide OnTrack, Total, Safe, Next, Begins;
    if steps == [] {
      StartOnTrack(dec, s);
    } else {
      var before := steps[..|steps| - 1];
      SafeHasShape(dec, d0, s, before);
      RunOnTrack(dec, d0, s, before);
      RunKeepsTotal(dec, d0, s, before);
      AnyStepOnTrack(dec, Run(dec, s, before), steps[|steps| - 1], |s.h.returned|, |Total(dec, s)|,
                     Asked(dec, s, before));
    }
  }

  /** What is out is the front of the total, so all of base and the front of the stream. */
  lemma FrontOfStream(out: seq<byte>, rest: seq<byte>, base: seq<byte>, stream: seq<byte>, k: nat)
    requires out + rest == base + stream && |out| == |base| + k && k <= |stream|
    ensures out == base + stream[..k]
  {
    assert out == (out + rest)[..|out|];
    assert (base + stream)[..|base| + k] == base + stream[..k];
  }

  /** The first n bytes of a stream, or all of it. */
  function FrontOf(stream: seq<byte>, n: nat): seq<byte> { stream[..Min(n, |stream|)] }

  /** Between two calls of a live client, the writer runs alone and is between calls again. */
  ghost predicate ServesAlone(dec: Decoder, s: State, steps: seq<Action>) {
    s.w == Writer(Idle, 0, []) && s.healthy && WriterOnly(steps) && Run(dec, s, steps).w.pc.Idle?
  }

  /**
   Chunking independence. Take any reachable state between two calls of a live client and let only
   the writer run, for any sequence of requests, each answered. Together the answers are the prefix
   of one fixed stream, of length the smaller of all that was asked and all there is. Only the sum
   of the requests matters.
   */
  lemma {:induction false} ChunkingIndependence(dec: Decoder, d0: CodecState, s: State, steps: seq<Action>)
    requires IsReachable(dec, d0, s) && ServesAlone(dec, s, steps)
    ensures var stream := Stream(dec, s);
      Run(dec, s, steps).h.returned == s.h.returned + stream[..Min(Asked(dec, s, steps), |stream|)]
  {
    ReachableIsSafe(dec, d0, s);
    AnsweredPrefix(dec, d0, s, steps);
  }

  lemma {:induction false} AnsweredPrefix(dec: Decoder, d0: CodecState, s: State, steps: seq<Action>)
    requires Safe(dec, d0, s) && ServesAlone(dec, s, steps)
    ensures Run(dec, s, steps).h.returned == s.h.returned + FrontOf(Stream(dec, s), Asked(dec, s, steps))
  {
    hide Run, Asked;
    var s' := Run(dec, s, steps);
    RunOnTrack(dec, d0, s, steps);
    RunKeepsTotal(dec, d0, s, steps);
    IdleTotal(dec, s);
    var rest := s'.playback + DecodeAll(dec, s'.decoder, s'.compressed);
    IdleTotal(dec, s');
    FrontOfStream(s'.h.returned, rest, s.h.returned, Stream(dec, s),
                  Min(Asked(dec, s, steps), |Stream(dec, s)|));
  }
}
