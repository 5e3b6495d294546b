/** Stopping, failing and releasing frames, over all interleavings of the client's threads. */
module ClientControl {
  import opened Options
  import opened Opus
  import opened ClientModel
  import opened ClientFrames

  // ---------- Cut-off ----------

  /** Nothing that starts its entry check now can be admitted. */
  predicate Tripped(s: State) { s.shouldStop || !s.healthy }

  predicate CanStillBeAccepted(s: State, r: Recv) {
    || (r.Admitted? && r.payload != [])
    || (r.StopRead? && r.payload != [] && s.healthy)
  }

  /** The callbacks already past every load that would turn them away. */
  function Exposed(s: State): set<nat> {
    set id | id in s.recvs && CanStillBeAccepted(s, s.recvs[id])
  }

  lemma SubsetSize(a: set<nat>, b: set<nat>)
    requires a <= b
    ensures |a| <= |b|
    decreases |b|
  {
    if a != {} {
      var x :| x in a;
      SubsetSize(a - {x}, b - {x});
    }
  }

  lemma QueueUsesExposure(s: State, id: nat)
    ensures var s' := RecvQueueStep(s, id);
      |s'.h.accepted| + |Exposed(s')| <= |s.h.accepted| + |Exposed(s)|
  {
    var s' := RecvQueueStep(s, id);
    if id in s.recvs && s.recvs[id].Admitted? && s.recvs[id].payload != [] {
      assert Exposed(s') == Exposed(s) - {id};
    } else {
      SubsetSize(Exposed(s'), Exposed(s));
    }
  }

  lemma StepCutOff(dec: Decoder, s: State, a: Action)
    requires Tripped(s)
    ensures var s' := Next(dec, s, a);
      && (s.shouldStop ==> s'.shouldStop) && (!s.healthy ==> !s'.healthy)
      && |s'.h.accepted| + |Exposed(s')| <= |s.h.accepted| + |Exposed(s)|
  {
    hide NextWriter;
    if a.RecvQueue? {
      RecvQueueFrame(s, a.id);
      QueueUsesExposure(s, a.id);
    } else {
      InputFrame(dec, s, a);
      StepExposure(dec, s, a);
    }
  }

  /** A flag stays tripped, and no other step exposes a callback. */
  lemma StepExposure(dec: Decoder, s: State, a: Action)
    requires Tripped(s) && !a.RecvQueue?
    ensures var s' := Next(dec, s, a);
      (s.shouldStop ==> s'.shouldStop) && (!s.healthy ==> !s'.healthy) && |Exposed(s')| <= |Exposed(s)|
  {
    var s' := Next(dec, s, a);
    if a.IsRecv() {
      RecvLocalFrame(s, a);
      LocalExposure(s, a);
    } else {
      RecvsFrame(dec, s, a);
      if a.IsWriter() {
        DataFrame(dec, s, a);
        hide Next;
      }
      assert Exposed(s') <= Exposed(s);
      SubsetSize(Exposed(s'), Exposed(s));
    }
  }

  lemma LocalExposure(s: State, a: Action)
    requires Tripped(s) && a.IsRecv() && !a.RecvQueue?
    ensures |Exposed(RecvLocalStep(s, a))| <= |Exposed(s)|
  {
    var s' := RecvLocalStep(s, a);
    assert Exposed(s') <= Exposed(s);
    SubsetSize(Exposed(s'), Exposed(s));
  }

  /** Both flags only ever go one way. */
  lemma {:induction false} FlagsAreSticky(dec: Decoder, s: State, steps: seq<Action>)
    ensures s.shouldStop ==> Run(dec, s, steps).shouldStop
    ensures !s.healthy ==> !Run(dec, s, steps).healthy
  {
    if steps != [] {
      var before := steps[..|steps| - 1];
      FlagsAreSticky(dec, s, before);
      if Tripped(Run(dec, s, before)) {
        StepCutOff(dec, Run(dec, s, before), steps[|steps| - 1]);
      }
    }
  }

  /**
   Cut-off: once the client is stopped or unhealthy, no interleaving whatsoever accepts more further
   frames than there were callbacks past the loads that would have rejected them.
   */
  lemma {:induction false} StopCutsOff(dec: Decoder, s: State, steps: seq<Action>)
    requires Tripped(s)
    ensures var s' := Run(dec, s, steps);
      Tripped(s') && |s'.h.accepted| + |Exposed(s')| <= |s.h.accepted| + |Exposed(s)|
  {
    if steps != [] {
      var before := steps[..|steps| - 1];
      StopCutsOff(dec, s, before);
      StepCutOff(dec, Run(dec, s, before), steps[|steps| - 1]);
    }
  }

  /** One exposed callback can run to its push, whatever the state. */
  lemma FinishOne(dec: Decoder, s: State, id: nat)
    requires id in Exposed(s)
    ensures var s' := Run(dec, s, [RecvReadHealthy(id), RecvQueue(id)]);
      && |s'.h.accepted| == |s.h.accepted| + 1
      && Exposed(s') == Exposed(s) - {id}
  {
    var s1 := Next(dec, s, RecvReadHealthy(id));
    var s2 := Next(dec, s1, RecvQueue(id));
    RunSnoc(dec, s, [], RecvReadHealthy(id));
    RunSnoc(dec, s, [RecvReadHealthy(id)], RecvQueue(id));
    assert [] + [RecvReadHealthy(id)] == [RecvReadHealthy(id)];
    assert [RecvReadHealthy(id)] + [RecvQueue(id)] == [RecvReadHealthy(id), RecvQueue(id)];
    assert s2 == Run(dec, s, [RecvReadHealthy(id), RecvQueue(id)]);
    assert s1.recvs[id] == Admitted(s.recvs[id].payload);
    assert s1.h == s.h && s1.healthy == s.healthy;
  }

  /** The frames that a run accepts. */
  function Accepts(dec: Decoder, s: State, steps: seq<Action>): int {
    |Run(dec, s, steps).h.accepted| - |s.h.accepted|
  }

  lemma AcceptsConcat(dec: Decoder, s: State, first: seq<Action>, rest: seq<Action>)
    ensures Accepts(dec, s, first + rest) == Accepts(dec, s, first) + Accepts(dec, Run(dec, s, first), rest)
  {
    hide Run;
    RunConcat(dec, s, first, rest);
  }

  /** One callback less exposed, one frame accepted. */
  lemma FinishOneExposed(dec: Decoder, s: State, id: nat)
    requires id in Exposed(s)
    ensures var first := [RecvReadHealthy(id), RecvQueue(id)];
      Accepts(dec, s, first) == 1 && |Exposed(Run(dec, s, first))| == |Exposed(s)| - 1
  {
    hide Run, Exposed;
    FinishOne(dec, s, id);
  }

  /** The cut-off bound cannot be lowered: some interleaving reaches it. */
  lemma {:induction false} CutOffIsTight(dec: Decoder, s: State)
    ensures exists steps :: Accepts(dec, s, steps) == |Exposed(s)|
    decreases |Exposed(s)|
  {
    if |Exposed(s)| == 0 {
      assert Accepts(dec, s, []) == 0;
    } else {
      hide Run, Exposed, Accepts;
      var id :| id in Exposed(s);
      var first := [RecvReadHealthy(id), RecvQueue(id)];
      FinishOneExposed(dec, s, id);
      CutOffIsTight(dec, Run(dec, s, first));
      var rest :| Accepts(dec, Run(dec, s, first), rest) == |Exposed(Run(dec, s, first))|;
      AcceptsConcat(dec, s, first, rest);
    }
  }

  // ---------- Releasing frames ----------

  /** Each callback has freed its frame once if it is done, and not at all before. */
  ghost predicate FreedOnce(s: State) {
    forall id: nat :: s.freed[id] == if id in s.recvs && s.recvs[id].Released? then 1 else 0
  }

  /** Only the last step of a callback, the release, releases. */
  lemma OnlyFreeFrees(dec: Decoder, s: State, a: Action)
    requires !a.RecvFree?
    ensures var s' := Next(dec, s, a);
      && s'.freed == s.freed
      && forall id :: (id in s'.recvs && s'.recvs[id].Released?) <==> (id in s.recvs && s.recvs[id].Released?)
  {
    if !a.IsRecv() {
      RecvsFrame(dec, s, a);
      hide Next;
    }
  }

  lemma StepFreesOnce(dec: Decoder, s: State, a: Action)
    requires FreedOnce(s)
    ensures FreedOnce(Next(dec, s, a))
  {
    if a.RecvFree? {
      assert Next(dec, s, a) == RecvLocalStep(s, a);
    } else {
      OnlyFreeFrees(dec, s, a);
    }
  }

  /** In no interleaving is a frame freed twice, or a callback done without freeing its frame. */
  lemma {:induction false} FramesFreedExactlyOnce(dec: Decoder, d0: CodecState, steps: seq<Action>)
    ensures FreedOnce(Run(dec, Init(d0), steps))
  {
    if steps != [] {
      var before := steps[..|steps| - 1];
      FramesFreedExactlyOnce(dec, d0, before);
      StepFreesOnce(dec, Run(dec, Init(d0), before), steps[|steps| - 1]);
    }
  }

  // ---------- First error wins ----------

  /** The first report of a run, by thread and text. */
  function FirstRaise(steps: seq<Action>): Option<(nat, string)> {
    if steps == [] then None
    else
      var before := FirstRaise(steps[..|steps| - 1]);
      var last := steps[|steps| - 1];
      if before.None? && last.ErrorRaise? then Some((last.id, last.text)) else before
  }

  /** The state of error reporting, given who reported first. */
  ghost predicate FirstWins(s: State, first: Option<(nat, string)>) {
    match first
    case None =>
      s.healthy && s.reporters == map[] && s.h.errors == [] && s.lastError == ""
    case Some((winner, text)) =>
      && !s.healthy && winner in s.reporters
      && (forall id :: id in s.reporters && id != winner ==> s.reporters[id] == Lost)
      && (match s.reporters[winner]
          case Lost => false
          case Won(t) => t == text && s.h.errors == [] && s.lastError == ""
          case Recorded(t) => t == text && s.h.errors == [text] && s.lastError == text
          case Finished(t) =>
            t == text && s.h.errors == [text] && s.lastError == text && s.shouldStop)
  }

  lemma StepFirstWins(dec: Decoder, s: State, a: Action, first: Option<(nat, string)>)
    requires FirstWins(s, first)
    ensures FirstWins(Next(dec, s, a),
              if first.None? && a.ErrorRaise? then Some((a.id, a.text)) else first)
  {
    if a.IsRecv() || a.IsWriter() {
      DataFrame(dec, s, a);
    } else {
      match a
      case RequestShutdown =>
      case ErrorRaise(id, text) =>
      case ErrorRecord(id) =>
      case ErrorStop(id) =>
    }
  }

  /**
   First error wins, however many reports interleave: the recorded error is the text of the very
   first report of the run, it is written at most once, every other reporter loses, and when the
   winner is through the client is both unhealthy and stopping.
   */
  lemma {:induction false} FirstErrorWins(dec: Decoder, d0: CodecState, steps: seq<Action>)
    ensures FirstWins(Run(dec, Init(d0), steps), FirstRaise(steps))
  {
    if steps != [] {
      var before := steps[..|steps| - 1];
      FirstErrorWins(dec, d0, before);
      StepFirstWins(dec, Run(dec, Init(d0), before), steps[|steps| - 1], FirstRaise(before));
    }
  }

  /** A report that has come to its end was the first, and its text is the error for good. */
  lemma WinnerRecorded(s: State, first: Option<(nat, string)>, id: nat, text: string)
    requires FirstWins(s, first) && id in s.reporters && s.reporters[id] == Finished(text)
    ensures s.lastError == text && s.h.errors == [text]
  {
  }
}
