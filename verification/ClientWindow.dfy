/** The compressed queue is a drop-oldest window over the accepted frames. */
module ClientWindow {
  import opened Pcm
  import opened Opus
  import opened ClientModel
  import opened ClientFrames

  ghost predicate WasTaken(h: History, i: nat) {
    exists k :: 0 <= k < |h.taken| && h.taken[k].index == i
  }

  ghost predicate WasDropped(h: History, i: nat) {
    exists k :: 0 <= k < |h.dropped| && h.dropped[k].index == i
  }

  /** The queue holds exactly the newest accepted frames, at most 256, none of them empty. */
  ghost predicate Suffix(s: State) {
    && |s.compressed| <= MAX_COMPRESSED
    && Front(s.h) + |s.compressed| == |s.h.accepted|
    && s.compressed == s.h.accepted[Front(s.h)..]
    && s.framesReceived == |s.h.accepted|
    && forall i :: 0 <= i < |s.h.accepted| ==> |s.h.accepted[i]| > 0
  }

  /** Frames were taken oldest first, each with fewer than 256 later ones accepted by then. */
  ghost predicate TakenInOrder(h: History) {
    && (forall k :: 0 <= k < |h.taken| ==>
          && h.taken[k].index < Front(h)
          && h.taken[k].index < h.taken[k].seen <= |h.accepted|
          && h.taken[k].seen - 1 - h.taken[k].index < MAX_COMPRESSED
          && h.accepted[h.taken[k].index] == h.taken[k].packet)
    && (forall j, k :: 0 <= j < k < |h.taken| ==> h.taken[j].index < h.taken[k].index)
  }

  /** Frames were dropped oldest first, each by the frame accepted 256 later. */
  ghost predicate DroppedInOrder(h: History) {
    && (forall k :: 0 <= k < |h.dropped| ==>
          && h.dropped[k].index < Front(h)
          && h.dropped[k].displacer == h.dropped[k].index + MAX_COMPRESSED
          && h.dropped[k].displacer < |h.accepted|)
    && (forall j, k :: 0 <= j < k < |h.dropped| ==> h.dropped[j].index < h.dropped[k].index)
  }

  /** Every frame in front of the queue went exactly one way. */
  ghost predicate Partition(h: History) {
    forall i: nat :: i < Front(h) ==> (WasTaken(h, i) <==> !WasDropped(h, i))
  }

  ghost predicate Window(s: State) {
    Suffix(s) && TakenInOrder(s.h) && DroppedInOrder(s.h) && Partition(s.h)
  }

  lemma TakeOne(h: History, t: Taken)
    requires TakenInOrder(h) && DroppedInOrder(h) && Partition(h)
    requires t.index == Front(h) < t.seen == |h.accepted| <= Front(h) + MAX_COMPRESSED
    requires t.packet == h.accepted[t.index]
    ensures var h' := h.(taken := h.taken + [t]);
      TakenInOrder(h') && DroppedInOrder(h') && Partition(h')
  {
    var h' := h.(taken := h.taken + [t]);
    forall i: nat | i < Front(h')
      ensures WasTaken(h', i) <==> !WasDropped(h', i)
    {
      assert h'.taken[|h.taken|].index == Front(h);
      if WasTaken(h, i) {
        var k :| 0 <= k < |h.taken| && h.taken[k].index == i;
        assert h'.taken[k].index == i;
      }
      assert WasDropped(h', i) == WasDropped(h, i);
    }
  }

  lemma DropOne(h: History, d: Dropped)
    requires TakenInOrder(h) && DroppedInOrder(h) && Partition(h)
    requires d.index == Front(h) && d.displacer == Front(h) + MAX_COMPRESSED < |h.accepted|
    ensures var h' := h.(dropped := h.dropped + [d]);
      TakenInOrder(h') && DroppedInOrder(h') && Partition(h')
  {
    var h' := h.(dropped := h.dropped + [d]);
    forall i: nat | i < Front(h')
      ensures WasTaken(h', i) <==> !WasDropped(h', i)
    {
      assert h'.dropped[|h.dropped|].index == Front(h);
      if WasDropped(h, i) {
        var k :| 0 <= k < |h.dropped| && h.dropped[k].index == i;
        assert h'.dropped[k].index == i;
      }
      assert WasTaken(h', i) == WasTaken(h, i);
    }
  }

  lemma AcceptOne(h: History, p: Packet)
    requires TakenInOrder(h) && DroppedInOrder(h) && Partition(h)
    requires Front(h) <= |h.accepted|
    ensures var h' := h.(accepted := h.accepted + [p]);
      TakenInOrder(h') && DroppedInOrder(h') && Partition(h')
  {
    var h' := h.(accepted := h.accepted + [p]);
    forall i: nat | i < Front(h')
      ensures WasTaken(h', i) <==> !WasDropped(h', i)
    {
      assert WasTaken(h', i) == WasTaken(h, i);
      assert WasDropped(h', i) == WasDropped(h, i);
    }
  }

  lemma PushKeepsSuffix(s: State, p: Packet)
    requires Suffix(s) && p != []
    ensures Suffix(Push(s, p))
  {
    var s' := Push(s, p);
    assert s'.compressed == s'.h.accepted[Front(s'.h)..];
  }

  lemma PushKeepsWindow(s: State, p: Packet)
    requires Window(s) && p != []
    ensures Window(Push(s, p))
  {
    PushKeepsSuffix(s, p);
    AcceptOne(s.h, p);
    var grown := s.h.(accepted := s.h.accepted + [p]);
    if |s.compressed| >= MAX_COMPRESSED {
      DropOne(grown, Dropped(Front(s.h), |s.h.accepted|));
    } else {
      assert s.h.dropped + [] == s.h.dropped;
      assert Push(s, p).h == grown;
    }
  }

  lemma PopKeepsWindow(s: State)
    requires Window(s)
    ensures Window(PopStep(s))
  {
    if s.w.pc.Popping? && s.compressed != [] {
      TakeOne(s.h, Taken(Front(s.h), |s.h.accepted|, s.compressed[0]));
    }
  }

  /** The window speaks of the queue, its counter and three histories only. */
  lemma SameWindow(s: State, s': State)
    requires Window(s)
    requires s'.compressed == s.compressed && s'.framesReceived == s.framesReceived
    requires s'.h.accepted == s.h.accepted
    requires s'.h.taken == s.h.taken && s'.h.dropped == s.h.dropped
    ensures Window(s')
  {
    forall i: nat | i < Front(s'.h)
      ensures WasTaken(s'.h, i) <==> !WasDropped(s'.h, i)
    {
      assert WasTaken(s'.h, i) == WasTaken(s.h, i);
      assert WasDropped(s'.h, i) == WasDropped(s.h, i);
    }
  }

  lemma StepKeepsWindow(dec: Decoder, s: State, a: Action)
    requires Window(s)
    ensures Window(Next(dec, s, a))
  {
    hide Window, NextControl, RecvLocalStep, Push, PopStep;
    if a.RecvQueue? {
      if a.id in s.recvs && s.recvs[a.id].Admitted? && s.recvs[a.id].payload != [] {
        PushKeepsWindow(s, s.recvs[a.id].payload);
        SameWindow(Push(s, s.recvs[a.id].payload), Next(dec, s, a));
      } else {
        SameWindow(s, Next(dec, s, a));
      }
    } else if a.Pop? {
      PopKeepsWindow(s);
    } else {
      InputFrame(dec, s, a);
      hide Next;
      SameWindow(s, Next(dec, s, a));
    }
  }

  lemma {:induction false} RunKeepsWindow(dec: Decoder, d0: CodecState, steps: seq<Action>)
    ensures Window(Run(dec, Init(d0), steps))
  {
    if steps != [] {
      RunKeepsWindow(dec, d0, steps[..|steps| - 1]);
      StepKeepsWindow(dec, Run(dec, Init(d0), steps[..|steps| - 1]), steps[|steps| - 1]);
    }
  }

  // ---------- Main results ----------

  /**
   In every reachable state the queue is the newest part of what was accepted, never longer than
   256, and every accepted frame is counted once: received = taken + dropped + still queued.
   */
  lemma {:induction false} QueueIsSuffix(dec: Decoder, d0: CodecState, steps: seq<Action>)
    ensures var s := Run(dec, Init(d0), steps);
      && |s.compressed| <= 256
      && |s.compressed| <= |s.h.accepted|
      && s.compressed == s.h.accepted[|s.h.accepted| - |s.compressed|..]
      && s.framesReceived == |s.h.accepted| == |s.h.taken| + |s.h.dropped| + |s.compressed|
  {
    RunKeepsWindow(dec, d0, steps);
  }

  /** Frame i has been dropped exactly when frame i + 256 was accepted and i was never taken. */
  lemma {:induction false} DroppedIff(dec: Decoder, d0: CodecState, steps: seq<Action>, i: nat)
    ensures var h := Run(dec, Init(d0), steps).h;
      WasDropped(h, i) <==> i + 256 < |h.accepted| && !WasTaken(h, i)
  {
    RunKeepsWindow(dec, d0, steps);
    var s := Run(dec, Init(d0), steps);
    if i + 256 < |s.h.accepted| {
      assert i < Front(s.h);
    }
    if WasDropped(s.h, i) {
      var k :| 0 <= k < |s.h.dropped| && s.h.dropped[k].index == i;
    }
  }

  /** A step accepts at most one frame or takes at most one, never both. */
  lemma StepHistory(dec: Decoder, s: State, a: Action)
    ensures var h := s.h; var h' := Next(dec, s, a).h;
      || (h'.accepted == h.accepted && (h'.taken == h.taken || (|h'.taken| == |h.taken| + 1 && h.taken < h'.taken)))
      || (|h'.accepted| == |h.accepted| + 1 && h.accepted < h'.accepted && h'.taken == h.taken)
    ensures |s.h.dropped| <= |Next(dec, s, a).h.dropped|
  {
    if !a.RecvQueue? && !a.Pop? {
      InputFrame(dec, s, a);
      hide Next;
    }
  }

  lemma TakenStays(h: History, h': History, i: nat)
    requires h.taken <= h'.taken && WasTaken(h, i)
    ensures WasTaken(h', i)
  {
    var k :| 0 <= k < |h.taken| && h.taken[k].index == i;
    assert h'.taken[k].index == i;
  }

  /** At the very step that drops: i goes when i + 256 comes, and only while i is still queued. */
  lemma {:induction false} DropStep(dec: Decoder, d0: CodecState, steps: seq<Action>, a: Action, i: nat)
    ensures var s := Run(dec, Init(d0), steps);
      var s' := Next(dec, s, a);
      (WasDropped(s'.h, i) && !WasDropped(s.h, i))
      <==> (|s'.h.accepted| == |s.h.accepted| + 1 && |s.h.accepted| == i + 256 && !WasTaken(s.h, i))
  {
    var h := Run(dec, Init(d0), steps).h;
    var h' := Next(dec, Run(dec, Init(d0), steps), a).h;
    RunSnoc(dec, Init(d0), steps, a);
    DroppedIff(dec, d0, steps, i);
    DroppedIff(dec, d0, steps + [a], i);
    StepHistory(dec, Run(dec, Init(d0), steps), a);
    if WasTaken(h, i) {
      TakenStays(h, h', i);
    }
  }

  /** Frames reach the decoder in arrival order, at most once, never with 256 newer ones waiting. */
  lemma {:induction false} TakenFresh(dec: Decoder, d0: CodecState, steps: seq<Action>)
    ensures var h := Run(dec, Init(d0), steps).h;
      && (forall j, k :: 0 <= j < k < |h.taken| ==> h.taken[j].index < h.taken[k].index)
      && (forall k :: 0 <= k < |h.taken| ==>
            && h.taken[k].index < h.taken[k].seen <= |h.accepted|
            && h.taken[k].seen - 1 - h.taken[k].index < 256
            && h.taken[k].packet == h.accepted[h.taken[k].index]
            && h.taken[k].packet != [])
  {
    RunKeepsWindow(dec, d0, steps);
  }
}
