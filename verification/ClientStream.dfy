/** What the write callback hands out, over all interleavings, is the decoding of what it took. */
module ClientStream {
  import opened Pcm
  import opened Opus
  import opened ClientModel
  import opened ClientFrames
  import opened ClientWindow

  // ---------- Definitions ----------

  function Packets(taken: seq<Taken>): (packets: seq<Packet>)
    ensures |packets| == |taken|
    ensures forall i :: 0 <= i < |taken| ==> packets[i] == taken[i].packet
  {
    seq(|taken|, i requires 0 <= i < |taken| => taken[i].packet)
  }

  /** The frame popped but not yet through the decoder. */
  function InFlight(s: State): seq<Packet> {
    if s.w.pc.Decoding? then [s.w.pc.frame] else []
  }

  /** PCM decoded but not yet appended to the playback queue. */
  function Pending(s: State): seq<byte> {
    if s.w.pc.Appending? then s.w.pc.pcm else []
  }

  /** All bytes the decoder has produced, wherever they are now. */
  function Produced(s: State): seq<byte> {
    s.h.returned + s.w.dst + s.playback + Pending(s)
  }

  /** The frames that have been through the decoder, in order. */
  function Consumed(s: State): seq<Packet> {
    var packets := Packets(s.h.taken);
    if s.w.pc.Decoding? && packets != [] then packets[..|packets| - 1] else packets
  }

  /** Produced so far, followed by what the frames in flight and in the queue will decode to. */
  function Total(dec: Decoder, s: State): seq<byte> {
    Produced(s) + DecodeAll(dec, s.decoder, InFlight(s) + s.compressed)
  }

  /** Control state and buffers fit together. */
  ghost predicate Shape(s: State) {
    && |s.playback| <= FRAME_BYTES
    && (match s.w.pc
        case Idle => s.w.dst == []
        case Entry => s.w.dst == [] && s.w.want > 0
        case Draining => |s.w.dst| < s.w.want
        case Popping => |s.w.dst| < s.w.want && s.playback == []
        case Decoding(frame) =>
          && |s.w.dst| < s.w.want && s.playback == []
          && s.h.taken != [] && s.h.taken[|s.h.taken| - 1].packet == frame
        case Appending(pcm) =>
          |s.w.dst| < s.w.want && s.playback == [] && |pcm| <= FRAME_BYTES
        case Returning(sawEmpty) =>
          |s.w.dst| == s.w.want || (|s.w.dst| < s.w.want && sawEmpty && s.playback == []))
  }

  /** Every finished call filled its request or saw both queues empty. */
  ghost predicate Answered(served: seq<Served>) {
    forall k :: 0 <= k < |served| ==>
      served[k].got == served[k].want || (served[k].got < served[k].want && served[k].sawEmpty)
  }

  ghost predicate Faithful(dec: Decoder, d0: CodecState, s: State) {
    && Produced(s) == DecodeAll(dec, d0, Consumed(s))
    && s.decoder == AfterAll(dec, d0, Consumed(s))
  }

  ghost predicate Safe(dec: Decoder, d0: CodecState, s: State) {
    Window(s) && Shape(s) && Answered(s.h.served) && Faithful(dec, d0, s)
  }

  // ---------- Steps ----------

  lemma DrainKeepsShape(s: State)
    requires Shape(s)
    ensures Shape(DrainStep(s))
  {
  }

  lemma FetchKeepsShape(dec: Decoder, s: State)
    requires Shape(s)
    ensures Shape(PopStep(s)) && Shape(DecodeStep(dec, s))
  {
  }

  lemma StepKeepsShape(dec: Decoder, s: State, a: Action)
    requires Shape(s)
    ensures Shape(Next(dec, s, a))
  {
    if !a.IsWriter() {
      OutputFrame(dec, s, a);
      hide Next;
    } else {
      NextOfWriter(dec, s, a);
      hide Next, DrainStep, PopStep, DecodeStep;
      match a
      case Call(want) =>
      case ReadHealthy =>
      case Drain => DrainKeepsShape(s);
      case Pop => FetchKeepsShape(dec, s);
      case Decode => FetchKeepsShape(dec, s);
      case Append =>
      case Return =>
    }
  }

  lemma StepKeepsAnswered(dec: Decoder, s: State, a: Action)
    requires Shape(s) && Answered(s.h.served)
    ensures Answered(Next(dec, s, a).h.served)
  {
    if !a.Return? {
      AnswersFrame(dec, s, a);
      hide Next;
    }
  }

  lemma DrainKeepsProduced(s: State)
    requires Shape(s)
    ensures Produced(DrainStep(s)) == Produced(s)
    ensures Consumed(DrainStep(s)) == Consumed(s) && DrainStep(s).decoder == s.decoder
  {
    var s' := DrainStep(s);
    assert s'.w.dst + s'.playback == s.w.dst + s.playback;
    Assoc(s.h.returned, s.w.dst, s.playback);
    Assoc(s.h.returned, s'.w.dst, s'.playback);
  }

  lemma PopKeepsProduced(s: State)
    requires Shape(s)
    ensures Produced(PopStep(s)) == Produced(s)
    ensures Consumed(PopStep(s)) == Consumed(s) && PopStep(s).decoder == s.decoder
  {
    var s' := PopStep(s);
    if s.w.pc.Popping? && s.compressed != [] {
      assert Packets(s'.h.taken)[..|s.h.taken|] == Packets(s.h.taken);
    }
  }

  lemma DecodeConsumes(dec: Decoder, s: State)
    requires Shape(s) && s.w.pc.Decoding?
    ensures Consumed(DecodeStep(dec, s)) == Consumed(s) + [s.w.pc.frame]
  {
    var packets := Packets(s.h.taken);
    assert packets == packets[..|packets| - 1] + [packets[|packets| - 1]];
  }

  lemma DecodeKeepsFaithful(dec: Decoder, d0: CodecState, s: State)
    requires Shape(s) && Faithful(dec, d0, s)
    ensures Faithful(dec, d0, DecodeStep(dec, s))
  {
    if s.w.pc.Decoding? {
      DecodeConsumes(dec, s);
      DecodeSnoc(dec, d0, Consumed(s), s.w.pc.frame);
      AddNothing(s.h.returned + s.w.dst + s.playback);
    }
  }

  lemma AppendKeepsProduced(s: State)
    requires Shape(s)
    ensures Produced(AppendStep(s)) == Produced(s)
    ensures Consumed(AppendStep(s)) == Consumed(s) && AppendStep(s).decoder == s.decoder
  {
    if s.w.pc.Appending? {
      Assoc(s.h.returned + s.w.dst, s.playback, s.w.pc.pcm);
      AddNothing(s.h.returned + s.w.dst + (s.playback + s.w.pc.pcm));
    }
  }

  lemma ReturnKeepsProduced(s: State)
    ensures Produced(ReturnStep(s)) == Produced(s)
    ensures Consumed(ReturnStep(s)) == Consumed(s) && ReturnStep(s).decoder == s.decoder
  {
    AddNothing(s.h.returned + s.w.dst);
  }

  lemma EntryKeepsProduced(s: State, s': State)
    requires Shape(s) && (s' == ReadHealthyStep(s) || exists want :: s' == CallStep(s, want))
    ensures Produced(s') == Produced(s)
    ensures Consumed(s') == Consumed(s) && s'.decoder == s.decoder
  {
  }

  lemma WriterKeepsFaithful(dec: Decoder, d0: CodecState, s: State, a: Action)
    requires Shape(s) && Faithful(dec, d0, s) && a.IsWriter()
    ensures Faithful(dec, d0, Next(dec, s, a))
  {
    hide Produced, Consumed, Shape, DrainStep, PopStep, DecodeStep, AppendStep, ReturnStep;
    hide CallStep, ReadHealthyStep, DecodeAll, AfterAll;
    match a
    case Call(want) => EntryKeepsProduced(s, CallStep(s, want));
    case ReadHealthy => EntryKeepsProduced(s, ReadHealthyStep(s));
    case Drain => DrainKeepsProduced(s);
    case Pop => PopKeepsProduced(s);
    case Decode => DecodeKeepsFaithful(dec, d0, s);
    case Append => AppendKeepsProduced(s);
    case Return => ReturnKeepsProduced(s);
  }

  lemma {:induction false} StepKeepsSafe(dec: Decoder, d0: CodecState, s: State, a: Action)
    requires Safe(dec, d0, s)
    ensures Safe(dec, d0, Next(dec, s, a))
  {
    hide Window, Shape, Answered, Faithful, Next;
    StepKeepsWindow(dec, s, a);
    StepKeepsShape(dec, s, a);
    StepKeepsAnswered(dec, s, a);
    StepKeepsFaithful(dec, d0, s, a);
  }

  lemma {:induction false} StepKeepsFaithful(dec: Decoder, d0: CodecState, s: State, a: Action)
    requires Shape(s) && Faithful(dec, d0, s)
    ensures Faithful(dec, d0, Next(dec, s, a))
  {
    hide Next;
    if a.IsWriter() {
      WriterKeepsFaithful(dec, d0, s, a);
    } else {
      OutputFrame(dec, s, a);
    }
  }

  lemma {:induction false} RunKeepsSafe(dec: Decoder, d0: CodecState, s: State, steps: seq<Action>)
    requires Safe(dec, d0, s)
    ensures Safe(dec, d0, Run(dec, s, steps))
  {
    if steps != [] {
      RunKeepsSafe(dec, d0, s, steps[..|steps| - 1]);
      StepKeepsSafe(dec, d0, Run(dec, s, steps[..|steps| - 1]), steps[|steps| - 1]);
    }
  }

  lemma InitFits(d0: CodecState)
    ensures Window(Init(d0)) && Shape(Init(d0)) && Answered(Init(d0).h.served)
  {
  }

  lemma InitIsFaithful(dec: Decoder, d0: CodecState)
    ensures Faithful(dec, d0, Init(d0))
  {
  }

  lemma InitIsAligned(d0: CodecState)
    ensures Aligned(Init(d0))
  {
  }

  lemma InitIsSafe(dec: Decoder, d0: CodecState)
    ensures Safe(dec, d0, Init(d0)) && Aligned(Init(d0))
  {
    hide Window, Shape, Answered, Faithful, Aligned, Init;
    InitFits(d0);
    InitIsFaithful(dec, d0);
    InitIsAligned(d0);
  }

  lemma {:induction false} Reachable(dec: Decoder, d0: CodecState, steps: seq<Action>)
    ensures Safe(dec, d0, Run(dec, Init(d0), steps))
  {
    InitIsSafe(dec, d0);
    RunKeepsSafe(dec, d0, Init(d0), steps);
  }

  lemma ReachableIsSafe(dec: Decoder, d0: CodecState, s: State)
    requires IsReachable(dec, d0, s)
    ensures Safe(dec, d0, s)
  {
    var steps :| s == Run(dec, Init(d0), steps);
    Reachable(dec, d0, steps);
  }

  // ---------- Main results ----------

  /**
   Pipeline refinement, in every state of every interleaving: the bytes returned by finished calls,
   then dst[..written], then the playback queue, then PCM not yet appended are exactly the
   stateful decoding of the frames taken from the queue, in the order they were taken. The frame
   whose decoding is still under way is the only one left out; failed decodes contribute nothing.
   */
  lemma {:induction false} PipelineRefinement(dec: Decoder, d0: CodecState, steps: seq<Action>)
    ensures var s := Run(dec, Init(d0), steps);
      s.h.returned + s.w.dst + s.playback + Pending(s) == DecodeAll(dec, d0, Consumed(s))
    ensures var s := Run(dec, Init(d0), steps);
      Packets(s.h.taken) == Consumed(s) + InFlight(s)
  {
    Reachable(dec, d0, steps);
    TakenSplit(Run(dec, Init(d0), steps));
  }

  lemma TakenSplit(s: State)
    requires Shape(s)
    ensures Packets(s.h.taken) == Consumed(s) + InFlight(s)
    ensures Packets(s.h.taken) + s.compressed == Consumed(s) + (InFlight(s) + s.compressed)
  {
    if s.w.pc.Decoding? {
      var packets := Packets(s.h.taken);
      assert packets == packets[..|packets| - 1] + [packets[|packets| - 1]];
    }
  }

  lemma TotalOfSafe(dec: Decoder, d0: CodecState, s: State)
    requires Safe(dec, d0, s)
    ensures Total(dec, s) == DecodeAll(dec, d0, Packets(s.h.taken) + s.compressed)
  {
    TakenSplit(s);
    DecodeConcat(dec, d0, Consumed(s), InFlight(s) + s.compressed);
  }

  /** Bytes out and still to come are one decoding of the frames taken and the frames queued. */
  lemma {:induction false} TotalIsDecoding(dec: Decoder, d0: CodecState, s: State)
    requires IsReachable(dec, d0, s)
    ensures Total(dec, s) == DecodeAll(dec, d0, Packets(s.h.taken) + s.compressed)
  {
    ReachableIsSafe(dec, d0, s);
    TotalOfSafe(dec, d0, s);
  }

  /** With nothing dropped, the frames taken and queued are all the accepted ones, in order. */
  lemma {:induction false} NothingLost(s: State)
    requires Window(s) && s.h.dropped == []
    ensures Packets(s.h.taken) + s.compressed == s.h.accepted
  {
    forall k | 0 <= k < |s.h.taken|
      ensures Packets(s.h.taken)[k] == s.h.accepted[k]
    {
      DenseIndices(s.h.taken, |s.h.taken|, k);
    }
  }

  /** Strictly increasing indices below n, n of them: each index is its own position. */
  lemma {:induction false} DenseIndices(taken: seq<Taken>, n: nat, k: nat)
    requires n == |taken| && k < n
    requires forall i :: 0 <= i < n ==> taken[i].index < n
    requires forall i, j :: 0 <= i < j < n ==> taken[i].index < taken[j].index
    ensures taken[k].index == k
  {
    AtLeast(taken, k);
    AtMost(taken, k);
  }

  lemma {:induction false} AtLeast(taken: seq<Taken>, k: nat)
    requires k < |taken|
    requires forall i, j :: 0 <= i < j < |taken| ==> taken[i].index < taken[j].index
    ensures taken[k].index >= k
  {
    if k > 0 {
      AtLeast(taken, k - 1);
    }
  }

  lemma {:induction false} AtMost(taken: seq<Taken>, k: nat)
    requires k < |taken|
    requires forall i :: 0 <= i < |taken| ==> taken[i].index < |taken|
    requires forall i, j :: 0 <= i < j < |taken| ==> taken[i].index < taken[j].index
    ensures taken[k].index <= k
    decreases |taken| - k
  {
    if k + 1 < |taken| {
      AtMost(taken, k + 1);
    }
  }

  /** Until a frame is dropped, what has come out and what will is the decoding of all input. */
  lemma {:induction false} LosslessWithoutDrops(dec: Decoder, d0: CodecState, s: State)
    requires IsReachable(dec, d0, s) && s.h.dropped == []
    ensures Total(dec, s) == DecodeAll(dec, d0, s.h.accepted)
  {
    ReachableIsSafe(dec, d0, s);
    TotalOfSafe(dec, d0, s);
    NothingLost(s);
  }

  /**
   The playback queue never holds more than one decoded frame; while a frame is being fetched it
   is empty; dst is never overrun; and every short answer left both queues empty in the critical
   section that ended the call.
   */
  lemma {:induction false} BoundsAndWorkConservation(dec: Decoder, d0: CodecState, steps: seq<Action>)
    ensures var s := Run(dec, Init(d0), steps);
      && |s.playback| <= 3840
      && |s.w.dst| <= s.w.want
      && (s.w.pc.Popping? || s.w.pc.Decoding? || s.w.pc.Appending? ==> s.playback == [])
      && (s.w.pc.Decoding? ==> s.w.pc.frame != [])
      && (forall k :: 0 <= k < |s.h.served| ==>
            && s.h.served[k].got <= s.h.served[k].want
            && (s.h.served[k].got < s.h.served[k].want ==> s.h.served[k].sawEmpty))
  {
    hide Run;
    Reachable(dec, d0, steps);
  }

  lemma EndingStep(dec: Decoder, s: State, a: Action)
    requires Shape(s) && !s.w.pc.Returning?
    ensures var s' := Next(dec, s, a);
      s'.w.pc.Returning? ==>
        && (s'.w.pc.sawEmpty <==> s'.compressed == [] && s'.playback == [])
        && (|s'.w.dst| < s'.w.want ==> s'.w.pc.sawEmpty)
  {
    if !a.IsWriter() {
      OutputFrame(dec, s, a);
      hide Next;
    } else {
      NextOfWriter(dec, s, a);
      hide Next;
      match a
      case Call(want) =>
      case ReadHealthy =>
      case Drain =>
      case Pop =>
      case Decode =>
      case Append =>
      case Return =>
    }
  }

  /**
   The critical section that ends a call notes truly whether both queues are empty, and if the
   answer is short they are: no frame is left to decode and no byte to hand out.
   */
  lemma {:induction false} ShortOnlyWhenEmpty(dec: Decoder, d0: CodecState, steps: seq<Action>, a: Action)
    ensures var s := Run(dec, Init(d0), steps);
      var s' := Next(dec, s, a);
      !s.w.pc.Returning? && s'.w.pc.Returning? ==>
        && (s'.w.pc.sawEmpty <==> s'.compressed == [] && s'.playback == [])
        && (|s'.w.dst| < s'.w.want ==> s'.w.pc.sawEmpty)
  {
    Reachable(dec, d0, steps);
    var s := Run(dec, Init(d0), steps);
    if !s.w.pc.Returning? {
      EndingStep(dec, s, a);
    }
  }

  // ---------- Passes of one call ----------

  /** How often a run drains: the passes that its write callbacks make. */
  function Passes(dec: Decoder, s: State, steps: seq<Action>): nat {
    if steps == [] then 0
    else
      var before := steps[..|steps| - 1];
      Passes(dec, s, before)
      + (if steps[|steps| - 1].Drain? && Run(dec, s, before).w.pc.Draining? then 1 else 0)
  }

  lemma PassesSnoc(dec: Decoder, s: State, steps: seq<Action>, a: Action)
    ensures Passes(dec, s, steps + [a])
         == Passes(dec, s, steps) + (if a.Drain? && Run(dec, s, steps).w.pc.Draining? then 1 else 0)
  {
    assert (steps + [a])[..|steps|] == steps;
  }

  /** Only the writer makes passes. */
  lemma {:induction false} OthersMakeNoPass(dec: Decoder, s: State, steps: seq<Action>, acts: seq<Action>)
    requires forall i :: 0 <= i < |acts| ==> !acts[i].IsWriter()
    ensures Passes(dec, s, steps + acts) == Passes(dec, s, steps)
  {
    if acts == [] {
      assert steps + acts == steps;
    } else {
      var n := |acts| - 1;
      OthersMakeNoPass(dec, s, steps, acts[..n]);
      PassesSnoc(dec, s, steps + acts[..n], acts[n]);
      assert steps + acts == (steps + acts[..n]) + [acts[n]];
    }
  }

  /** No write callback begins. */
  ghost predicate NoCall(steps: seq<Action>) {
    forall i :: 0 <= i < |steps| ==> !steps[i].Call?
  }

  /** The pass that the writer is on its way to without taking another frame. */
  function NextPass(s: State): nat {
    if s.w.pc.Entry? || s.w.pc.Draining? || s.w.pc.Decoding? || s.w.pc.Appending? then 1 else 0
  }

  lemma PassStep(dec: Decoder, s: State, a: Action)
    requires !a.Call?
    ensures var s' := Next(dec, s, a);
      (if a.Drain? && s.w.pc.Draining? then 1 else 0) + NextPass(s') + |s.h.taken| <= |s'.h.taken| + NextPass(s)
  {
    if !a.IsWriter() {
      OutputFrame(dec, s, a);
    }
  }

  /** Within one call, every pass but the first has a frame of its own. */
  lemma {:induction false} PassPerFrame(dec: Decoder, s: State, steps: seq<Action>)
    requires NoCall(steps)
    ensures var s' := Run(dec, s, steps);
      Passes(dec, s, steps) + NextPass(s') + |s.h.taken| <= |s'.h.taken| + NextPass(s)
  {
    hide NextPass;
    if steps != [] {
      var before := steps[..|steps| - 1];
      PassPerFrame(dec, s, before);
      PassStep(dec, Run(dec, s, before), steps[|steps| - 1]);
    }
  }

  lemma {:induction false} HistoryGrows(dec: Decoder, s: State, steps: seq<Action>)
    ensures var s' := Run(dec, s, steps);
      s.h.accepted <= s'.h.accepted && |s.h.dropped| <= |s'.h.dropped|
  {
    hide Next;
    if steps != [] {
      var before := steps[..|steps| - 1];
      HistoryGrows(dec, s, before);
      StepHistory(dec, Run(dec, s, before), steps[|steps| - 1]);
    }
  }

  /** No more frames can be taken than were queued and have been accepted since. */
  lemma {:induction false} TakenAreBounded(dec: Decoder, d0: CodecState, s: State, steps: seq<Action>)
    requires IsReachable(dec, d0, s)
    ensures var s' := Run(dec, s, steps);
      |s'.h.taken| - |s.h.taken| <= |s.compressed| + (|s'.h.accepted| - |s.h.accepted|)
  {
    hide Run;
    ReachableIsSafe(dec, d0, s);
    RunKeepsSafe(dec, d0, s, steps);
    HistoryGrows(dec, s, steps);
  }

  /**
   Termination, for every interleaving: until the next call begins, a write callback makes at most
   one pass more than there were frames queued and frames accepted meanwhile, even if every decode
   fails.
   */
  lemma {:induction false} PassesAreBounded(dec: Decoder, d0: CodecState, s: State, steps: seq<Action>)
    requires IsReachable(dec, d0, s) && NoCall(steps)
    ensures var s' := Run(dec, s, steps);
      Passes(dec, s, steps) <= |s.compressed| + (|s'.h.accepted| - |s.h.accepted|) + 1
  {
    hide Run, Passes;
    PassPerFrame(dec, s, steps);
    TakenAreBounded(dec, d0, s, steps);
  }

  // ---------- Stereo alignment ----------

  /** Everything the writer holds consists of whole stereo samples. */
  ghost predicate Aligned(s: State) {
    && |s.playback| % 4 == 0
    && |s.w.dst| % 4 == 0
    && |s.h.returned| % 4 == 0
    && |Pending(s)| % 4 == 0
    && s.w.want % 4 == 0
    && forall k :: 0 <= k < |s.h.served| ==> s.h.served[k].got % 4 == 0
  }

  /** All requests ask for whole stereo samples. */
  ghost predicate AlignedRequests(steps: seq<Action>) {
    forall i :: 0 <= i < |steps| && steps[i].Call? ==> steps[i].want % 4 == 0
  }

  lemma OthersKeepAligned(dec: Decoder, s: State, a: Action)
    requires Aligned(s) && !a.IsWriter()
    ensures Aligned(Next(dec, s, a))
  {
    hide Next;
    OutputFrame(dec, s, a);
  }

  lemma EntryKeepsAligned(s: State, want: nat)
    requires Aligned(s) && want % 4 == 0
    ensures Aligned(CallStep(s, want)) && Aligned(ReadHealthyStep(s))
  {
  }

  lemma AlignedTake(want: nat, written: nat, ready: nat, k: nat)
    requires want % 4 == 0 && written % 4 == 0 && ready % 4 == 0 && written <= want
    requires k == if ready <= want - written then ready else want - written
    ensures k % 4 == 0 && (ready - k) % 4 == 0
  {
  }

  lemma DrainKeepsAligned(s: State)
    requires Shape(s) && Aligned(s)
    ensures Aligned(DrainStep(s))
  {
    if s.w.pc.Draining? {
      var room := s.w.want - |s.w.dst|;
      var k := if |s.playback| <= room then |s.playback| else room;
      AlignedTake(s.w.want, |s.w.dst|, |s.playback|, k);
      AlignedConcat(s.w.dst, s.playback[..k]);
      assert |s.playback[k..]| == |s.playback| - k;
    }
  }

  lemma FetchKeepsAligned(dec: Decoder, s: State)
    requires Aligned(s)
    ensures Aligned(PopStep(s)) && Aligned(DecodeStep(dec, s))
  {
  }

  lemma AppendKeepsAligned(s: State)
    requires Aligned(s)
    ensures Aligned(AppendStep(s))
  {
    if s.w.pc.Appending? {
      AlignedConcat(s.playback, s.w.pc.pcm);
    }
  }

  lemma ReturnKeepsAligned(s: State)
    requires Aligned(s)
    ensures Aligned(ReturnStep(s))
  {
    if s.w.pc.Returning? {
      AlignedConcat(s.h.returned, s.w.dst);
    }
  }

  lemma {:induction false} StepKeepsAligned(dec: Decoder, s: State, a: Action)
    requires Shape(s) && Aligned(s)
    requires a.Call? ==> a.want % 4 == 0
    ensures Aligned(Next(dec, s, a))
  {
    hide Aligned, Shape, CallStep, ReadHealthyStep, DrainStep, PopStep, DecodeStep, AppendStep, ReturnStep;
    if !a.IsWriter() {
      OthersKeepAligned(dec, s, a);
    } else {
      match a
      case Call(want) => EntryKeepsAligned(s, want);
      case ReadHealthy => EntryKeepsAligned(s, 0);
      case Drain => DrainKeepsAligned(s);
      case Pop => FetchKeepsAligned(dec, s);
      case Decode => FetchKeepsAligned(dec, s);
      case Append => AppendKeepsAligned(s);
      case Return => ReturnKeepsAligned(s);
    }
  }

  lemma {:induction false} RunKeepsAligned(dec: Decoder, d0: CodecState, s: State, steps: seq<Action>)
    requires Safe(dec, d0, s) && Aligned(s) && AlignedRequests(steps)
    ensures Aligned(Run(dec, s, steps))
  {
    if steps != [] {
      var before := steps[..|steps| - 1];
      RunKeepsAligned(dec, d0, s, before);
      RunKeepsSafe(dec, d0, s, before);
      StepKeepsAligned(dec, Run(dec, s, before), steps[|steps| - 1]);
    }
  }

  /** If every request is a multiple of four bytes, so is every answer, in every interleaving. */
  lemma {:induction false} AnswersAligned(dec: Decoder, d0: CodecState, steps: seq<Action>)
    requires AlignedRequests(steps)
    ensures var s := Run(dec, Init(d0), steps);
      && |s.h.returned| % 4 == 0
      && |s.playback| % 4 == 0
      && forall k :: 0 <= k < |s.h.served| ==> s.h.served[k].got % 4 == 0
  {
    InitIsSafe(dec, d0);
    hide Safe, Run;
    RunKeepsAligned(dec, d0, Init(d0), steps);
  }
}
