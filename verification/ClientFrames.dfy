/** What each kind of step leaves alone. */
module ClientFrames {
  import opened Opus
  import opened ClientModel

  /** The flags, the error and its history. */
  ghost predicate SameControl(s: State, s': State) {
    && s'.healthy == s.healthy && s'.shouldStop == s.shouldStop
    && s'.reporters == s.reporters && s'.lastError == s.lastError && s'.h.errors == s.h.errors
  }

  /** The receive callbacks and the frames they have released. */
  ghost predicate SameRecvs(s: State, s': State) {
    s'.recvs == s.recvs && s'.freed == s.freed
  }

  /** What has come in at the back of the compressed queue, and what was dropped for it. */
  ghost predicate SameInput(s: State, s': State) {
    && s'.framesReceived == s.framesReceived
    && s'.h.accepted == s.h.accepted && s'.h.dropped == s.h.dropped
  }

  /** What has gone out at its front. */
  ghost predicate SameFront(s: State, s': State) {
    s'.compressed == s.compressed && s'.h.taken == s.h.taken
  }

  /** The write callback, its queue, its decoder and its answers. */
  ghost predicate SameOutput(s: State, s': State) {
    && s'.w == s.w && s'.playback == s.playback && s'.decoder == s.decoder
    && s'.h.returned == s.h.returned && s'.h.served == s.h.served
  }

  lemma RecvLocalFrame(s: State, a: Action)
    requires a.IsRecv() && !a.RecvQueue?
    ensures var s' := RecvLocalStep(s, a);
      && SameControl(s, s') && SameInput(s, s') && SameFront(s, s') && SameOutput(s, s')
  {
    match a
    case Deliver(_, _) =>
    case RecvReadStop(_) =>
    case RecvReadHealthy(_) =>
    case RecvFree(_) =>
  }

  lemma RecvQueueFrame(s: State, id: nat)
    ensures var s' := RecvQueueStep(s, id);
      && SameControl(s, s') && SameOutput(s, s') && s'.freed == s.freed && s'.h.taken == s.h.taken
  {
  }

  lemma ControlFrame(s: State, a: Action)
    requires !a.IsRecv() && !a.IsWriter()
    ensures var s' := NextControl(s, a);
      && SameRecvs(s, s') && SameInput(s, s') && SameFront(s, s') && SameOutput(s, s')
  {
    match a
    case RequestShutdown =>
    case ErrorRaise(_, _) =>
    case ErrorRecord(_) =>
    case ErrorStop(_) =>
  }

  /** What no step of the writer touches. */
  ghost predicate WriterLeaves(s: State, s': State) {
    SameControl(s, s') && SameRecvs(s, s') && SameInput(s, s')
  }

  ghost predicate SameAnswers(s: State, s': State) {
    s'.h.returned == s.h.returned && s'.h.served == s.h.served
  }

  lemma EntryFrame(s: State, want: nat)
    ensures var s' := CallStep(s, want); WriterLeaves(s, s') && SameFront(s, s') && SameAnswers(s, s')
    ensures var s' := ReadHealthyStep(s); WriterLeaves(s, s') && SameFront(s, s') && SameAnswers(s, s')
  {
  }

  lemma DrainFrame(s: State)
    ensures var s' := DrainStep(s); WriterLeaves(s, s') && SameFront(s, s') && SameAnswers(s, s')
  {
  }

  lemma PopFrame(s: State)
    ensures var s' := PopStep(s); WriterLeaves(s, s') && SameAnswers(s, s')
  {
  }

  lemma DecodeFrame(dec: Decoder, s: State)
    ensures var s' := DecodeStep(dec, s); WriterLeaves(s, s') && SameFront(s, s') && SameAnswers(s, s')
  {
  }

  lemma AppendFrame(s: State)
    ensures var s' := AppendStep(s); WriterLeaves(s, s') && SameFront(s, s') && SameAnswers(s, s')
  {
  }

  lemma ReturnFrame(s: State)
    ensures var s' := ReturnStep(s); WriterLeaves(s, s') && SameFront(s, s')
  {
  }

  /** Of the writer's steps only Pop touches the compressed queue, and only Return answers. */
  lemma WriterFrame(dec: Decoder, s: State, a: Action)
    requires a.IsWriter()
    ensures var s' := NextWriter(dec, s, a);
      && WriterLeaves(s, s') && (!a.Pop? ==> SameFront(s, s')) && (!a.Return? ==> SameAnswers(s, s'))
  {
    hide WriterLeaves, SameFront, SameAnswers;
    hide CallStep, ReadHealthyStep, DrainStep, PopStep, DecodeStep, AppendStep, ReturnStep;
    match a
    case Call(want) => EntryFrame(s, want);
    case ReadHealthy => EntryFrame(s, 0);
    case Drain => DrainFrame(s);
    case Pop => PopFrame(s);
    case Decode => DecodeFrame(dec, s);
    case Append => AppendFrame(s);
    case Return => ReturnFrame(s);
  }

  // ---------- Any step ----------

  /** Only the push of a receive callback adds to the queue. */
  lemma InputFrame(dec: Decoder, s: State, a: Action)
    requires !a.RecvQueue?
    ensures SameInput(s, Next(dec, s, a)) && (!a.Pop? ==> SameFront(s, Next(dec, s, a)))
  {
    hide SameInput, SameFront, SameControl, SameRecvs, SameAnswers, SameOutput;
    hide RecvLocalStep, NextWriter, NextControl;
    if a.IsRecv() {
      RecvLocalFrame(s, a);
    } else if a.IsWriter() {
      WriterFrame(dec, s, a);
    } else {
      ControlFrame(s, a);
    }
  }

  /** Moving audio neither raises nor clears a flag or an error. */
  lemma DataFrame(dec: Decoder, s: State, a: Action)
    requires a.IsRecv() || a.IsWriter()
    ensures SameControl(s, Next(dec, s, a))
  {
    hide SameInput, SameFront, SameControl, SameRecvs, SameAnswers, SameOutput;
    hide RecvLocalStep, RecvQueueStep, NextWriter;
    if a.IsWriter() {
      WriterFrame(dec, s, a);
    } else if a.RecvQueue? {
      RecvQueueFrame(s, a.id);
    } else {
      RecvLocalFrame(s, a);
    }
  }

  /** Only receive callbacks move receive callbacks. */
  lemma RecvsFrame(dec: Decoder, s: State, a: Action)
    requires !a.IsRecv()
    ensures SameRecvs(s, Next(dec, s, a))
  {
    hide SameInput, SameFront, SameControl, SameRecvs, SameAnswers, SameOutput, NextWriter, NextControl;
    if a.IsWriter() {
      WriterFrame(dec, s, a);
    } else {
      ControlFrame(s, a);
    }
  }

  /** Receive threads, error reporters and shutdown never touch what the writer owns. */
  lemma OutputFrame(dec: Decoder, s: State, a: Action)
    requires !a.IsWriter()
    ensures SameOutput(s, Next(dec, s, a)) && Next(dec, s, a).h.taken == s.h.taken
  {
    hide SameInput, SameControl, SameRecvs, SameOutput, RecvLocalStep, RecvQueueStep, NextControl;
    if !a.IsRecv() {
      ControlFrame(s, a);
    } else if a.RecvQueue? {
      RecvQueueFrame(s, a.id);
    } else {
      RecvLocalFrame(s, a);
    }
  }

  /** Only Return answers. */
  lemma AnswersFrame(dec: Decoder, s: State, a: Action)
    requires !a.Return?
    ensures SameAnswers(s, Next(dec, s, a))
  {
    hide SameInput, SameFront, SameControl, SameRecvs, SameAnswers, NextRecv, NextWriter, NextControl;
    if a.IsWriter() {
      WriterFrame(dec, s, a);
    } else {
      OutputFrame(dec, s, a);
      AnswersOfOutput(s, Next(dec, s, a));
    }
  }

  lemma AnswersOfOutput(s: State, s': State)
    requires SameOutput(s, s')
    ensures SameAnswers(s, s')
  {
  }

  // ---------- What steps read ----------

  /** The steps of one pass by name. */
  lemma PassSteps(dec: Decoder, s: State)
    ensures Next(dec, s, Drain) == DrainStep(s)
    ensures Next(dec, s, Pop) == PopStep(s)
    ensures Next(dec, s, Decode) == DecodeStep(dec, s)
    ensures Next(dec, s, Append) == AppendStep(s)
  {
  }

  lemma NextOfWriter(dec: Decoder, s: State, a: Action)
    requires a.IsWriter()
    ensures Next(dec, s, a) == NextWriter(dec, s, a)
  {
  }

  /** The two states differ at most in what no step reads: the history and the frames freed. */
  ghost predicate SameButHistory(s: State, t: State) {
    t == s.(h := t.h, freed := t.freed)
  }

  lemma WriterReadsNoHistory(dec: Decoder, s: State, t: State, a: Action)
    requires SameButHistory(s, t) && a.IsWriter()
    ensures SameButHistory(NextWriter(dec, s, a), NextWriter(dec, t, a))
  {
    match a
    case Call(_) =>
    case ReadHealthy =>
    case Drain =>
    case Pop =>
    case Decode =>
    case Append =>
    case Return =>
  }

  // ---------- One thread among the others ----------

  /** One invocation of the receive callback, or of set_error. */
  datatype Self = Callback(id: nat) | Reporter(id: nat)

  predicate IsStepOf(a: Action, self: Self) {
    match self
    case Callback(id) => a.IsRecv() && a.id == id
    case Reporter(id) => (a.ErrorRaise? || a.ErrorRecord? || a.ErrorStop?) && a.id == id
  }

  ghost predicate NoneOf(acts: seq<Action>, self: Self) {
    forall i :: 0 <= i < |acts| ==> !IsStepOf(acts[i], self)
  }

  /** The invocation stands where it stood. */
  ghost predicate SamePlace(s: State, s': State, self: Self) {
    match self
    case Callback(id) => id in s.recvs ==> id in s'.recvs && s'.recvs[id] == s.recvs[id]
    case Reporter(id) => id in s.reporters ==> id in s'.reporters && s'.reporters[id] == s.reporters[id]
  }

  lemma StepKeepsPlace(dec: Decoder, s: State, a: Action, self: Self)
    requires !IsStepOf(a, self)
    ensures SamePlace(s, Next(dec, s, a), self)
  {
    if self.Callback? && !a.IsRecv() {
      RecvsFrame(dec, s, a);
      hide Next;
    } else if self.Reporter? && (a.IsRecv() || a.IsWriter()) {
      DataFrame(dec, s, a);
      hide Next;
    }
  }

  lemma {:induction false} OthersKeepPlace(dec: Decoder, s: State, acts: seq<Action>, self: Self)
    requires NoneOf(acts, self)
    ensures SamePlace(s, Run(dec, s, acts), self)
  {
    hide Next, IsStepOf;
    if acts != [] {
      var before := acts[..|acts| - 1];
      OthersKeepPlace(dec, s, before, self);
      StepKeepsPlace(dec, Run(dec, s, before), acts[|acts| - 1], self);
    }
  }
}
