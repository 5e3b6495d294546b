/** Sending and tearing down an RTP stream, with any number of threads at either. */
module RtpModel {
  import opened Options
  import opened Pcm

  /** Where one call of stop or write_frames stands; all but the first and last hold the mutex. */
  datatype Thread =
    | StopWait | StopEnter | StopStream | StopStreamNull | StopSession | StopSessionNull | StopLeave | StopDone
    | WriteWait(data: Packet) | WriteCheck(data: Packet) | WritePush(data: Packet) | WriteLeave | WriteDone
  {
    predicate Inside() {
      !StopWait? && !StopDone? && !WriteWait? && !WriteDone?
    }
  }

  datatype State = State(
    stopped: bool,
    session: bool,   // the handle is not null
    stream: bool,    // the handle is not null
    mutex: Option<nat>,
    threads: map<nat, Thread>,
    streamDestroyed: nat,
    sessionDestroyed: nat,
    pushes: seq<Packet>,
    strayPushes: nat)   // pushes made on a stream already destroyed

  datatype Action = StartStop(t: nat) | StartWrite(t: nat, data: Packet) | Go(t: nat)

  /** A constructed Rtp: the constructors throw unless both handles are there. */
  function Init(): State {
    State(false, true, true, None, map[], 0, 0, [], 0)
  }

  function At(s: State, t: nat, pc: Thread): State { s.(threads := s.threads[t := pc]) }

  function Lock(s: State, t: nat, pc: Thread): State {
    if s.mutex.None? then At(s, t, pc).(mutex := Some(t)) else s
  }

  function Leave(s: State, t: nat, pc: Thread): State { At(s, t, pc).(mutex := None) }

  /** The next step of thread t. */
  function GoStep(s: State, t: nat): State {
    if t !in s.threads then s
    else
      match s.threads[t]
      case StopWait => Lock(s, t, StopEnter)
      case StopEnter =>
        if s.stopped then At(s, t, StopLeave) else At(s.(stopped := true), t, StopStream)
      case StopStream =>
        if s.session && s.stream
        then At(s.(streamDestroyed := s.streamDestroyed + 1), t, StopStreamNull)
        else At(s, t, StopSession)
      case StopStreamNull => At(s.(stream := false), t, StopSession)
      case StopSession =>
        if s.session
        then At(s.(sessionDestroyed := s.sessionDestroyed + 1), t, StopSessionNull)
        else At(s, t, StopLeave)
      case StopSessionNull => At(s.(session := false), t, StopLeave)
      case StopLeave => Leave(s, t, StopDone)
      case StopDone => s
      case WriteWait(data) => Lock(s, t, WriteCheck(data))
      case WriteCheck(data) =>
        At(s, t, if s.stopped || !s.stream then WriteLeave else WritePush(data))
      case WritePush(data) =>
        var stray := if s.streamDestroyed > 0 then 1 else 0;
        At(s.(pushes := s.pushes + [data], strayPushes := s.strayPushes + stray), t, WriteLeave)
      case WriteLeave => Leave(s, t, WriteDone)
      case WriteDone => s
  }

  function Next(s: State, a: Action): State {
    match a
    case StartStop(t) => if t in s.threads then s else At(s, t, StopWait)
    case StartWrite(t, data) => if t in s.threads then s else At(s, t, WriteWait(data))
    case Go(t) => GoStep(s, t)
  }

  function Run(s: State, steps: seq<Action>): State {
    if steps == [] then s
    else Next(Run(s, steps[..|steps| - 1]), steps[|steps| - 1])
  }

  lemma RunSnoc(s: State, steps: seq<Action>, a: Action)
    ensures Run(s, steps + [a]) == Next(Run(s, steps), a)
  {
    assert (steps + [a])[..|steps|] == steps;
  }

  // ---------- Invariant ----------

  predicate Intact(s: State) {
    !s.stopped && s.session && s.stream && s.streamDestroyed == 0 && s.sessionDestroyed == 0
  }

  predicate TornDown(s: State) {
    s.stopped && !s.session && !s.stream && s.streamDestroyed == 1 && s.sessionDestroyed == 1
  }

  /** What the shared state looks like when the thread inside the mutex is at pc. */
  predicate Handles(s: State, pc: Thread) {
    match pc
    case StopStream =>
      s.stopped && s.session && s.stream && s.streamDestroyed == 0 && s.sessionDestroyed == 0
    case StopStreamNull =>
      s.stopped && s.session && s.stream && s.streamDestroyed == 1 && s.sessionDestroyed == 0
    case StopSession =>
      s.stopped && s.session && !s.stream && s.streamDestroyed == 1 && s.sessionDestroyed == 0
    case StopSessionNull =>
      s.stopped && s.session && !s.stream && s.streamDestroyed == 1 && s.sessionDestroyed == 1
    case StopLeave => TornDown(s)
    case WritePush(_) => Intact(s)
    case _ => Intact(s) || TornDown(s)
  }

  ghost predicate Inv(s: State) {
    && (forall t :: t in s.threads ==> (s.threads[t].Inside() <==> s.mutex == Some(t)))
    && (match s.mutex
        case None => Intact(s) || TornDown(s)
        case Some(t) => t in s.threads && Handles(s, s.threads[t]))
    && (forall t :: t in s.threads && s.threads[t].StopDone? ==> TornDown(s))
    && s.strayPushes == 0
  }

  lemma GoKeepsInv(s: State, t: nat)
    requires Inv(s)
    ensures Inv(GoStep(s, t))
  {
    if t in s.threads {
      match s.threads[t]
      case StopWait =>
      case StopEnter =>
      case StopStream =>
      case StopStreamNull =>
      case StopSession =>
      case StopSessionNull =>
      case StopLeave =>
      case StopDone =>
      case WriteWait(data) =>
      case WriteCheck(data) =>
      case WritePush(data) =>
      case WriteLeave =>
      case WriteDone =>
    }
  }

  lemma NextKeepsInv(s: State, a: Action)
    requires Inv(s)
    ensures Inv(Next(s, a))
  {
    if a.Go? {
      GoKeepsInv(s, a.t);
    }
  }

  lemma {:induction false} RunKeepsInv(s: State, steps: seq<Action>)
    requires Inv(s)
    ensures Inv(Run(s, steps))
  {
    if steps != [] {
      RunKeepsInv(s, steps[..|steps| - 1]);
      NextKeepsInv(Run(s, steps[..|steps| - 1]), steps[|steps| - 1]);
    }
  }

  // ---------- Main results ----------

  /**
   For any number of threads interleaving stop and write_frames: at most one is inside the mutex;
   each of stream and session is destroyed at most once, the stream first; every push found its
   stream alive; with the mutex free, stopped means both handles are null; and when any stop has
   returned, both have been destroyed, once.
   */
  lemma {:induction false} Teardown(steps: seq<Action>)
    ensures var s := Run(Init(), steps);
      && (forall t, u :: t in s.threads && u in s.threads && s.threads[t].Inside() && s.threads[u].Inside() ==> t == u)
      && s.sessionDestroyed <= s.streamDestroyed <= 1
      && s.strayPushes == 0
      && (s.mutex.None? ==> (s.stopped <==> !s.stream) && (s.stopped <==> !s.session))
      && (forall t :: t in s.threads && s.threads[t].StopDone? ==>
            s.stopped && !s.stream && !s.session && s.streamDestroyed == 1 && s.sessionDestroyed == 1)
  {
    RunKeepsInv(Init(), steps);
  }

  lemma StepAfterTeardown(s: State, a: Action)
    requires Inv(s) && TornDown(s)
    ensures TornDown(Next(s, a)) && Next(s, a).pushes == s.pushes
  {
    if a.Go? && a.t in s.threads {
      match s.threads[a.t]
      case StopWait =>
      case StopEnter =>
      case StopStream =>
      case StopStreamNull =>
      case StopSession =>
      case StopSessionNull =>
      case StopLeave =>
      case StopDone =>
      case WriteWait(data) =>
      case WriteCheck(data) =>
      case WritePush(data) =>
      case WriteLeave =>
      case WriteDone =>
    }
  }

  /** Once a stop has returned, nothing is pushed and nothing destroyed ever again. */
  lemma {:induction false} StopIsFinal(before: seq<Action>, t: nat, after: seq<Action>)
    requires var s := Run(Init(), before); t in s.threads && s.threads[t].StopDone?
    ensures var s := Run(Init(), before);
      var s' := Run(s, after);
      s'.pushes == s.pushes && TornDown(s')
  {
    RunKeepsInv(Init(), before);
    var s := Run(Init(), before);
    if after != [] {
      var n := |after| - 1;
      StopIsFinal(before, t, after[..n]);
      RunKeepsInv(s, after[..n]);
      StepAfterTeardown(Run(s, after[..n]), after[n]);
    }
  }
}

/** The sender's methods as they stand, shown to be runs of the model. */
module RtpClass {
  import opened Options
  import opened Pcm
  import opened RtpModel

  class Rtp {
    var stopped: bool
    var session: bool
    var stream: bool

    /** Threads are numbered as they call in. */
    ghost var calls: nat
    ghost var m: State
    ghost var trace: seq<Action>

    /** Between calls: the object is where its steps lead, and the mutex is free. */
    ghost predicate Valid()
      reads this
    {
      && m == Run(Init(), trace) && m.mutex == None
      && m.stopped == stopped && m.session == session && m.stream == stream
      && forall t :: t in m.threads ==> t < calls
    }

    constructor ()
      ensures Valid() && m == Init() && trace == []
      ensures !stopped && session && stream && m.pushes == []
      ensures m.streamDestroyed == 0 && m.sessionDestroyed == 0
    {
      stopped, session, stream := false, true, true;
      calls, m, trace := 0, Init(), [];
    }

    ghost method Step(a: Action)
      requires m == Run(Init(), trace)
      modifies this`m, this`trace
      ensures trace == old(trace) + [a] && m == Next(old(m), a) && m == Run(Init(), trace)
    {
      hide Run;
      RunSnoc(Init(), trace, a);
      m := Next(m, a);
      trace := trace + [a];
    }

    /** The calling thread takes its next step, from one program point to another. */
    ghost method Go(t: nat, here: Thread, there: Thread)
      requires m == Run(Init(), trace) && t in m.threads && m.threads[t] == here
      requires GoStep(m, t).threads == m.threads[t := there]
      modifies this`m, this`trace
      ensures m == Run(Init(), trace) && m == GoStep(old(m), t) && m.threads == old(m.threads)[t := there]
      ensures trace == old(trace) + [RtpModel.Go(t)]
    {
      hide Run;
      Step(RtpModel.Go(t));
    }

    /** A new thread calls in and takes the mutex. */
    ghost method Enter(a: Action, wait: Thread, inside: Thread) returns (t: nat)
      requires Valid() && (wait.StopWait? || wait.WriteWait?)
      requires if wait.StopWait? then a == StartStop(calls) && inside == StopEnter
               else a == StartWrite(calls, wait.data) && inside == WriteCheck(wait.data)
      modifies this`calls, this`m, this`trace
      ensures m == Run(Init(), trace) && old(trace) <= trace && Inv(m)
      ensures t == old(calls) && calls == t + 1 && (forall u :: u in m.threads ==> u < calls)
      ensures m == old(m).(threads := old(m.threads)[t := inside], mutex := Some(t))
    {
      hide Run;
      t := calls;
      calls := calls + 1;
      Step(a);
      Go(t, wait, inside);
      RunKeepsInv(Init(), trace);
    }

    /** A packet goes out if and only if the stream has not been stopped. */
    method WriteFrames(data: Packet)
      requires Valid()
      modifies this
      ensures Valid() && old(trace) <= trace && stopped == old(stopped)
      ensures m.pushes == old(m.pushes) + (if old(stopped) then [] else [data])
    {
      hide Run, Inv;
      ghost var t := Enter(StartWrite(calls, data), WriteWait(data), WriteCheck(data));
      PushIfLive(t, data);
      Go(t, WriteLeave, WriteDone);
    }

    method PushIfLive(ghost t: nat, data: Packet)
      requires m == Run(Init(), trace) && Inv(m) && t in m.threads && m.threads[t] == WriteCheck(data)
      requires m.stopped == stopped && m.stream == stream
      modifies this`m, this`trace
      ensures m == Run(Init(), trace) && old(trace) <= trace
      ensures m.threads == old(m.threads)[t := WriteLeave] && m.mutex == old(m.mutex)
      ensures m.stopped == old(m.stopped) && m.session == old(m.session) && m.stream == old(m.stream)
      ensures m.pushes == old(m.pushes) + (if old(stopped) then [] else [data])
    {
      hide Run;
      if stopped || !stream {
        Go(t, WriteCheck(data), WriteLeave);
      } else {
        Go(t, WriteCheck(data), WritePush(data));
        Go(t, WritePush(data), WriteLeave);
      }
    }

    /** However often it is called, the handles are destroyed once, by the first call. */
    method Stop()
      requires Valid()
      modifies this
      ensures Valid() && old(trace) <= trace && stopped && !stream && !session
      ensures TornDown(m) && m.pushes == old(m.pushes)
    {
      hide Run;
      ghost var t := Enter(StartStop(calls), StopWait, StopEnter);
      var was := stopped;
      stopped := true;
      Go(t, StopEnter, if was then StopLeave else StopStream);
      if !was {
        TearDown(t);
      }
      Go(t, StopLeave, StopDone);
    }

    /** Stream first, then session, each handle cleared right after its object is destroyed. */
    method TearDown(ghost t: nat)
      requires m == Run(Init(), trace) && t in m.threads && m.threads[t] == StopStream
      requires m.stopped == stopped && m.session == session && m.stream == stream && session && stream
      modifies this`m, this`trace, this`stream, this`session
      ensures m == Run(Init(), trace) && old(trace) <= trace
      ensures m.threads == old(m.threads)[t := StopLeave] && m.mutex == old(m.mutex)
      ensures m.stopped == stopped && !m.session && !session && !m.stream && !stream
      ensures m.streamDestroyed == old(m.streamDestroyed) + 1
      ensures m.sessionDestroyed == old(m.sessionDestroyed) + 1
      ensures m.pushes == old(m.pushes)
    {
      hide Run;
      if session && stream {
        Go(t, StopStream, StopStreamNull);
        stream := false;
        Go(t, StopStreamNull, StopSession);
      }
      if session {
        Go(t, StopSession, StopSessionNull);
        session := false;
        Go(t, StopSessionNull, StopLeave);
      }
    }
  }
}
