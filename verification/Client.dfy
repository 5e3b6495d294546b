/**
 The client's methods as they stand, shown to be runs of the transition system. Line numbers are
 those of src/client.cpp.
 */
module ClientClass {
  import opened Options
  import opened Pcm
  import opened Opus
  import opened ClientModel
  import opened ClientFrames
  import opened ClientStream
  import opened ClientChunks
  import Control = ClientControl

  /** What the other threads do, gap by gap, between the steps of the write callback. */
  type Schedule = seq<seq<Action>>

  ghost predicate OthersOnly(acts: seq<Action>) {
    forall i :: 0 <= i < |acts| ==> !acts[i].IsWriter()
  }

  ghost predicate ScheduleOk(sched: Schedule) {
    forall g :: 0 <= g < |sched| ==> OthersOnly(sched[g])
  }

  /** Every thread but self acts in the gaps, the virtual microphone's too. */
  ghost predicate ScheduleFor(sched: Schedule, self: Self) {
    forall g :: 0 <= g < |sched| ==> NoneOf(sched[g], self)
  }

  function Gap(sched: Schedule, g: nat): (acts: seq<Action>)
    ensures g < |sched| ==> acts == sched[g]
  {
    if g < |sched| then sched[g] else []
  }

  /** The most frames that a list of steps can add to the compressed queue. */
  function Pushes(acts: seq<Action>): nat {
    if acts == [] then 0
    else Pushes(acts[..|acts| - 1]) + (if acts[|acts| - 1].RecvQueue? then 1 else 0)
  }

  /** The most frames that can arrive from gap g on. */
  function Arrivals(sched: Schedule, g: nat): nat
    decreases |sched| - g
  {
    if g < |sched| then Pushes(sched[g]) + Arrivals(sched, g + 1) else 0
  }

  class Client {
    const opus: Decoder

    var shouldStop: bool
    var healthy: bool
    var framesReceived: nat
    var lastError: string
    var opusdec: CodecState
    const pcmDecbuf: array<int16>
    var playbackQueue: seq<byte>
    var compressedQueue: seq<Packet>

    /** Where the write callback, the receive threads and the error reporters stand. */
    var w: Writer
    var recvs: map<nat, Recv>
    var reporters: map<nat, Reporter>

    ghost const d0: CodecState
    ghost var m: State
    ghost var trace: seq<Action>

    /** The object is in the state that its steps so far lead to. */
    ghost predicate Valid()
      reads this
    {
      && pcmDecbuf.Length == 2 * FRAME_SAMPLES
      && m == Run(opus, Init(d0), trace)
      && m.shouldStop == shouldStop && m.healthy == healthy
      && m.framesReceived == framesReceived && m.lastError == lastError
      && m.decoder == opusdec && m.playback == playbackQueue && m.compressed == compressedQueue
      && m.w == w && m.recvs == recvs && m.reporters == reporters
    }

    constructor (opus: Decoder, d0: CodecState)
      ensures Valid() && fresh(pcmDecbuf) && m == Init(d0) && trace == []
      ensures !shouldStop && healthy && framesReceived == 0 && lastError == "" && opusdec == d0
      ensures playbackQueue == [] && compressedQueue == [] && recvs == map[] && reporters == map[]
      ensures this.opus == opus && this.d0 == d0
    {
      this.opus := opus;
      shouldStop, healthy := false, true;
      framesReceived := 0;
      lastError := "";
      opusdec := d0;
      pcmDecbuf := new int16[2 * FRAME_SAMPLES];
      playbackQueue, compressedQueue := [], [];
      w, recvs, reporters := Writer(Idle, 0, []), map[], map[];
      this.d0 := d0;
      m := Init(d0);
      trace := [];
    }

    /** Records that the code just executed was step a. */
    ghost method Step(a: Action)
      requires m == Run(opus, Init(d0), trace)
      modifies this`m, this`trace
      ensures trace == old(trace) + [a] && m == Next(opus, old(m), a)
      ensures m == Run(opus, Init(d0), trace)
    {
      hide Run;
      RunSnoc(opus, Init(d0), trace, a);
      m := Next(opus, m, a);
      trace := trace + [a];
    }

    // ---------- Receive callback ----------

    /** The RTP library calls back with a frame. */
    method Begin(id: nat, payload: Packet)
      requires Valid() && id !in recvs
      modifies this
      ensures Valid() && recvs == old(recvs)[id := Entered(payload)]
      ensures m == old(m).(recvs := recvs) && trace == old(trace) + [Deliver(id, payload)]
    {
      hide Run;
      recvs := recvs[id := Entered(payload)];
      Step(Deliver(id, payload));
    }

    method ReadStop(id: nat) returns (stop: bool)
      requires Valid() && id in recvs && recvs[id].Entered?
      modifies this
      ensures Valid() && recvs == old(recvs)[id := if stop then Releasing else StopRead(old(recvs)[id].payload)]
      ensures m == old(m).(recvs := recvs)
      ensures trace == old(trace) + [RecvReadStop(id)] && stop == old(shouldStop)
    {
      hide Run;
      stop := shouldStop;
      recvs := recvs[id := if stop then Releasing else StopRead(recvs[id].payload)];
      Step(RecvReadStop(id));
    }

    method ReadHealth(id: nat) returns (ok: bool)
      requires Valid() && id in recvs && recvs[id].StopRead?
      modifies this
      ensures Valid() && recvs == old(recvs)[id := if ok then Admitted(old(recvs)[id].payload) else Releasing]
      ensures m == old(m).(recvs := recvs)
      ensures trace == old(trace) + [RecvReadHealthy(id)] && ok == old(healthy)
    {
      hide Run;
      ok := healthy;
      recvs := recvs[id := if ok then Admitted(recvs[id].payload) else Releasing];
      Step(RecvReadHealthy(id));
    }

    /** The critical section: drop the oldest frame when full, copy the payload in, count it. */
    method Enqueue(id: nat)
      requires Valid() && id in recvs && recvs[id].Admitted?
      modifies this
      ensures Valid() && recvs == old(recvs)[id := Releasing]
      ensures var payload := old(recvs)[id].payload;
        && m == (if payload == [] then old(m) else Push(old(m), payload)).(recvs := recvs)
        && m.h.accepted == old(m.h.accepted) + (if payload == [] then [] else [payload])
      ensures shouldStop == old(shouldStop) && healthy == old(healthy)
      ensures trace == old(trace) + [RecvQueue(id)]
    {
      hide Run;
      QueueStep(id);
      hide Next;
      var payload := recvs[id].payload;
      if |payload| > 0 {
        if |compressedQueue| >= MAX_COMPRESSED {
          compressedQueue := compressedQueue[1..];
        }
        compressedQueue := compressedQueue + [payload];
        framesReceived := framesReceived + 1;
      }
      recvs := recvs[id := Releasing];
      Step(RecvQueue(id));
    }

    lemma QueueStep(id: nat)
      ensures Next(opus, m, RecvQueue(id)) == RecvQueueStep(m, id)
    {
    }

    method DeallocFrame(id: nat)
      requires Valid() && id in recvs && recvs[id].Releasing?
      modifies this
      ensures Valid() && recvs == old(recvs)[id := Released]
      ensures m == old(m).(recvs := recvs, freed := old(m.freed) + multiset{id})
      ensures trace == old(trace) + [RecvFree(id)]
    {
      hide Run;
      recvs := recvs[id := Released];
      Step(RecvFree(id));
    }

    // ---------- Errors and shutdown ----------

    method RequestStop()
      requires Valid()
      modifies this
      ensures Valid() && m == Next(opus, old(m), RequestShutdown)
      ensures trace == old(trace) + [RequestShutdown] && shouldStop
    {
      hide Run;
      shouldStop := true;
      Step(RequestShutdown);
    }

    /** `healthy.exchange(false)`: the caller that sees true is the one to report. */
    method ExchangeHealthy(id: nat, err: string) returns (was: bool)
      requires Valid() && id !in reporters
      modifies this
      ensures Valid() && reporters == old(reporters)[id := if was then Won(err) else Lost]
      ensures m == old(m).(healthy := false, reporters := reporters)
      ensures trace == old(trace) + [ErrorRaise(id, err)] && was == old(healthy)
    {
      hide Run;
      was := healthy;
      healthy := false;
      reporters := reporters[id := if was then Won(err) else Lost];
      Step(ErrorRaise(id, err));
    }

    method WriteLastError(id: nat)
      requires Valid() && id in reporters && reporters[id].Won?
      modifies this
      ensures Valid() && reporters == old(reporters)[id := Recorded(old(reporters)[id].text)]
      ensures m == old(m).(lastError := old(reporters)[id].text, reporters := reporters,
                           h := old(m.h).(errors := old(m.h.errors) + [old(reporters)[id].text]))
      ensures trace == old(trace) + [ErrorRecord(id)]
    {
      hide Run;
      lastError := reporters[id].text;
      reporters := reporters[id := Recorded(reporters[id].text)];
      Step(ErrorRecord(id));
    }

    method StopOnError(id: nat)
      requires Valid() && id in reporters && reporters[id].Recorded?
      modifies this
      ensures Valid() && reporters == old(reporters)[id := Finished(old(reporters)[id].text)]
      ensures m == old(m).(shouldStop := true, reporters := reporters)
      ensures trace == old(trace) + [ErrorStop(id)]
    {
      hide Run;
      shouldStop := true;
      reporters := reporters[id := Finished(reporters[id].text)];
      Step(ErrorStop(id));
    }

    // ---------- Interference ----------

    /** One step of a receive callback; one that it cannot take changes nothing. */
    method RecvStep(a: Action)
      requires Valid() && a.IsRecv()
      modifies this
      ensures Valid() && trace == old(trace) + [a]
    {
      hide Run;
      match a
      case Deliver(id, payload) =>
        if id !in recvs {
          Begin(id, payload);
        } else {
          Step(a);
        }
      case RecvReadStop(id) =>
        if id in recvs && recvs[id].Entered? {
          var _ := ReadStop(id);
        } else {
          Step(a);
        }
      case RecvReadHealthy(id) =>
        if id in recvs && recvs[id].StopRead? {
          var _ := ReadHealth(id);
        } else {
          Step(a);
        }
      case RecvQueue(id) =>
        if id in recvs && recvs[id].Admitted? {
          Enqueue(id);
        } else {
          Step(a);
        }
      case RecvFree(id) =>
        if id in recvs && recvs[id].Releasing? {
          DeallocFrame(id);
        } else {
          Step(a);
        }
    }

    /** One step of an error report, or a shutdown request. */
    method ControlStep(a: Action)
      requires Valid() && !a.IsRecv() && !a.IsWriter()
      modifies this
      ensures Valid() && trace == old(trace) + [a]
    {
      hide Run;
      match a
      case RequestShutdown =>
        RequestStop();
      case ErrorRaise(id, text) =>
        if id !in reporters {
          var _ := ExchangeHealthy(id, text);
        } else {
          Step(a);
        }
      case ErrorRecord(id) =>
        if id in reporters && reporters[id].Won? {
          WriteLastError(id);
        } else {
          Step(a);
        }
      case ErrorStop(id) =>
        if id in reporters && reporters[id].Recorded? {
          StopOnError(id);
        } else {
          Step(a);
        }
    }

    /** One step of a thread other than the virtual microphone's. */
    method Other(a: Action)
      requires Valid() && !a.IsWriter()
      modifies this
      ensures Valid() && trace == old(trace) + [a]
    {
      if a.IsRecv() {
        RecvStep(a);
      } else {
        ControlStep(a);
      }
    }

    lemma OtherGrowth(s: State, a: Action)
      requires !a.IsWriter()
      ensures |Next(opus, s, a).compressed|
           <= |s.compressed| + (if a.RecvQueue? then 1 else 0)
    {
    }

    /** Any steps of the other threads; the writer's own state is untouched. */
    method Interfere(acts: seq<Action>)
      requires Valid() && OthersOnly(acts)
      modifies this
      ensures Valid() && trace == old(trace) + acts
      ensures m.w == old(m.w) && m.h.returned == old(m.h.returned) && m.h.served == old(m.h.served)
      ensures m.h.taken == old(m.h.taken)
      ensures playbackQueue == old(playbackQueue) && opusdec == old(opusdec)
      ensures |compressedQueue| <= |old(compressedQueue)| + Pushes(acts)
      ensures acts == [] ==> m == old(m)
      ensures PassCount() == old(PassCount())
    {
      hide Run, Passes;
      var i := 0;
      while i < |acts|
        invariant 0 <= i <= |acts|
        invariant Valid() && trace == old(trace) + acts[..i]
        invariant m.w == old(m.w) && m.h.returned == old(m.h.returned) && m.h.served == old(m.h.served)
        invariant m.h.taken == old(m.h.taken)
        invariant playbackQueue == old(playbackQueue) && opusdec == old(opusdec)
        invariant |compressedQueue| <= |old(compressedQueue)| + Pushes(acts[..i])
        invariant i == 0 ==> m == old(m)
      {
        OutputFrame(opus, m, acts[i]);
        OtherGrowth(m, acts[i]);
        RunSnoc(opus, Init(d0), trace, acts[i]);
        assert acts[..i + 1][..i] == acts[..i];
        Other(acts[i]);
        i := i + 1;
      }
      assert acts[..i] == acts;
      OthersMakeNoPass(opus, Init(d0), old(trace), acts);
    }

    /** A step of the write callback, where another thread's method lets it run: its effect on the
        fields, which does not depend on the history. */
    method WriterStep(a: Action)
      requires Valid() && a.IsWriter()
      modifies this
      ensures Valid() && trace == old(trace) + [a]
    {
      hide Run;
      var s := State(shouldStop, healthy, framesReceived, lastError, opusdec, playbackQueue, compressedQueue,
                     w, recvs, multiset{}, reporters, History([], [], [], [], [], []));
      WriterReadsNoHistory(opus, s, m, a);
      WriterFrame(opus, m, a);
      NextOfWriter(opus, m, a);
      hide Next, NextWriter;
      var s' := NextWriter(opus, s, a);
      opusdec, playbackQueue, compressedQueue, w := s'.decoder, s'.playback, s'.compressed, s'.w;
      Step(a);
    }

    /** All other threads run, the virtual microphone's among them; self stays where it is. */
    method Meanwhile(acts: seq<Action>, ghost self: Self)
      requires Valid() && NoneOf(acts, self)
      modifies this
      ensures Valid() && trace == old(trace) + acts && SamePlace(old(m), m, self)
      ensures (old(shouldStop) ==> shouldStop) && (!old(healthy) ==> !healthy)
      ensures old(m.h.accepted) <= m.h.accepted
      ensures acts == [] ==> m == old(m)
    {
      hide Run;
      for i := 0 to |acts|
        invariant Valid() && trace == old(trace) + acts[..i]
      {
        assert acts[..i + 1] == acts[..i] + [acts[i]];
        if acts[i].IsWriter() {
          WriterStep(acts[i]);
        } else {
          Other(acts[i]);
        }
      }
      assert acts[..|acts|] == acts;
      RunConcat(opus, Init(d0), old(trace), acts);
      OthersKeepPlace(opus, old(m), acts, self);
      Control.FlagsAreSticky(opus, old(m), acts);
      HistoryGrows(opus, old(m), acts);
      if acts == [] {
        assert old(trace) + acts == old(trace);
      }
    }

    // ---------- Receive callback, among the other threads ----------

    static lemma NewerThan(before: seq<Packet>, now: seq<Packet>, p: Packet)
      requires before <= now
      ensures p in (now + [p])[|before|..]
    {
      assert (now + [p])[|before|..][|now| - |before|] == p;
    }

    static lemma StillThere(now: seq<Packet>, later: seq<Packet>, from: nat, p: Packet)
      requires from <= |now| && now <= later && p in now[from..]
      ensures p in later[from..]
    {
      var i :| 0 <= i < |now[from..]| && now[from..][i] == p;
      assert later[from..][i] == p;
    }

    /** The critical section; true if there was a payload to queue. */
    method QueueNow(id: nat, payload: Packet, sched: Schedule) returns (queued: bool)
      requires Valid() && id in recvs && recvs[id] == Admitted(payload) && ScheduleFor(sched, Callback(id))
      modifies this
      ensures Valid() && trace == old(trace) + Gap(sched, 2) + [RecvQueue(id)]
      ensures id in recvs && recvs[id].Releasing? && queued == (payload != [])
      ensures (old(shouldStop) ==> shouldStop) && (!old(healthy) ==> !healthy)
      ensures old(m.h.accepted) <= m.h.accepted && (queued ==> payload in m.h.accepted[|old(m.h.accepted)|..])
      ensures sched == [] ==> m == (if queued then Push(old(m), payload) else old(m)).(recvs := recvs)
    {
      hide Run, Next, Push;
      Meanwhile(Gap(sched, 2), Callback(id));
      NewerThan(old(m.h.accepted), m.h.accepted, payload);
      Enqueue(id);
      queued := payload != [];
    }

    /** The second load and the critical section; true if the frame was queued. */
    method AdmitHealthy(id: nat, payload: Packet, sched: Schedule) returns (queued: bool)
      requires Valid() && id in recvs && recvs[id] == StopRead(payload) && ScheduleFor(sched, Callback(id))
      modifies this
      ensures Valid() && old(trace) <= trace && id in recvs && recvs[id].Releasing?
      ensures (old(shouldStop) ==> shouldStop) && (!old(healthy) ==> !healthy)
      ensures queued ==> payload != [] && old(healthy)
      ensures payload != [] && healthy ==> queued
      ensures old(m.h.accepted) <= m.h.accepted && (queued ==> payload in m.h.accepted[|old(m.h.accepted)|..])
      ensures sched == [] ==>
        && queued == (payload != [] && old(healthy))
        && m == (if queued then Push(old(m), payload) else old(m)).(recvs := recvs)
      ensures if queued
              then old(trace) + Gap(sched, 1) + [RecvReadHealthy(id)] + Gap(sched, 2) + [RecvQueue(id)] == trace
              else old(trace) + Gap(sched, 1) + [RecvReadHealthy(id)] <= trace
    {
      hide Run, Next, Push;
      queued := false;
      Meanwhile(Gap(sched, 1), Callback(id));
      var ok := ReadHealth(id);
      if ok {
        PushReadsNoPlace(m, old(m).recvs, payload);
        ghost var accepted := m.h.accepted;
        queued := QueueNow(id, payload, sched);
        if queued {
          OlderStart(m.h.accepted, |old(m.h.accepted)|, |accepted|, payload);
        }
      }
    }

    static lemma PushReadsNoPlace(s: State, recvs: map<nat, Recv>, payload: Packet)
      ensures Push(s.(recvs := recvs), payload) == Push(s, payload).(recvs := recvs)
    {
    }

    /** Both loads and the critical section; true if the frame was queued. */
    method Admit(id: nat, payload: Packet, sched: Schedule) returns (queued: bool)
      requires Valid() && id in recvs && recvs[id] == Entered(payload) && ScheduleFor(sched, Callback(id))
      modifies this
      ensures Valid() && old(trace) <= trace && id in recvs && recvs[id].Releasing?
      ensures queued ==> payload != [] && !old(shouldStop) && old(healthy)
      ensures payload != [] && !shouldStop && healthy ==> queued
      ensures old(m.h.accepted) <= m.h.accepted && (queued ==> payload in m.h.accepted[|old(m.h.accepted)|..])
      ensures sched == [] ==>
        && queued == (payload != [] && !old(shouldStop) && old(healthy))
        && m == (if queued then Push(old(m), payload) else old(m)).(recvs := recvs)
      ensures old(trace) + Gap(sched, 0) + [RecvReadStop(id)] <= trace
    {
      hide Run, Next, Push;
      queued := false;
      Meanwhile(Gap(sched, 0), Callback(id));
      var stop := ReadStop(id);
      if !stop {
        ghost var accepted := m.h.accepted;
        PushReadsNoPlace(m, old(m).recvs, payload);
        queued := AdmitHealthy(id, payload, sched);
        if queued {
          OlderStart(m.h.accepted, |old(m.h.accepted)|, |accepted|, payload);
        }
      }
    }

    static lemma OlderStart(now: seq<Packet>, from: nat, later: nat, p: Packet)
      requires from <= later <= |now| && p in now[later..]
      ensures p in now[from..]
    {
      var i :| 0 <= i < |now[later..]| && now[later..][i] == p;
      assert now[from..][later - from + i] == p;
    }

    /**
     One receive callback, start to end, with every other thread free to run between its steps. A
     null frame is ignored; any other is freed exactly once. It joins the queue only if its payload
     is not empty and the client was live when the callback began, and it does so if the client is
     still live when it ends; undisturbed, it displaces the oldest of 256 and nothing else changes.
     */
    method RecvCallback(id: nat, frame: Option<Packet>, sched: Schedule) returns (queued: bool)
      requires Valid() && id !in recvs && ScheduleFor(sched, Callback(id))
      modifies this
      ensures Valid() && old(trace) <= trace
      ensures frame.None? ==> trace == old(trace) && m == old(m) && !queued
      ensures frame.Some? ==> old(m.freed)[id] == 0 && m.freed[id] == 1
      ensures queued ==> frame.Some? && frame.value != [] && !old(shouldStop) && old(healthy)
      ensures frame.Some? && frame.value != [] && !shouldStop && healthy ==> queued
      ensures old(m.h.accepted) <= m.h.accepted
      ensures queued ==> frame.value in m.h.accepted[|old(m.h.accepted)|..]
      ensures sched == [] ==>
        && queued == (frame.Some? && frame.value != [] && !old(shouldStop) && old(healthy))
        && framesReceived == old(framesReceived) + (if queued then 1 else 0)
        && compressedQueue ==
             if !queued then old(compressedQueue)
             else (if |old(compressedQueue)| < 256 then old(compressedQueue)
                   else old(compressedQueue)[1..]) + [frame.value]
      ensures frame.Some? ==>
        old(trace) + [Deliver(id, frame.value)] + Gap(sched, 0) + [RecvReadStop(id)] <= trace
    {
      hide Run, Next;
      if frame.None? {
        return false;
      }
      Control.FramesFreedExactlyOnce(opus, d0, trace);
      Begin(id, frame.value);
      queued := Admit(id, frame.value, sched);
      ghost var accepted := m.h.accepted;
      Meanwhile(Gap(sched, 3), Callback(id));
      if queued {
        StillThere(accepted, m.h.accepted, |old(m.h.accepted)|, frame.value);
      }
      DeallocFrame(id);
      Control.FramesFreedExactlyOnce(opus, d0, trace);
    }

    // ---------- Error report, among the other threads ----------

    /**
     One error report, start to end, with every other thread free to run between its steps: the one
     that finds the client healthy sets the error, for good, and stops the client; any other changes
     nothing.
     */
    method SetError(id: nat, err: string, sched: Schedule) returns (won: bool)
      requires Valid() && id !in reporters && ScheduleFor(sched, Reporter(id))
      modifies this
      ensures Valid() && old(trace) <= trace && !healthy && won == old(healthy)
      ensures won ==> lastError == err && shouldStop && m.h.errors == [err]
      ensures !won ==>
        m == old(m).(reporters := old(reporters)[id := Lost]) && lastError == old(lastError)
      ensures won ==> trace == old(trace) + [ErrorRaise(id, err)] + Gap(sched, 0) + [ErrorRecord(id)]
                                + Gap(sched, 1) + [ErrorStop(id)]
    {
      hide Run, Next;
      won := ExchangeHealthy(id, err);
      if !won {
        return;
      }
      Meanwhile(Gap(sched, 0), Reporter(id));
      WriteLastError(id);
      Meanwhile(Gap(sched, 1), Reporter(id));
      StopOnError(id);
      Control.FirstErrorWins(opus, d0, trace);
      Control.WinnerRecorded(m, Control.FirstRaise(trace), id, err);
    }

    // ---------- Write callback ----------

    /** The library call: decode into the PCM buffer, or fail with a negative code. */
    method OpusDecode(frame: Packet) returns (n: int)
      requires pcmDecbuf.Length == 2 * FRAME_SAMPLES && |frame| > 0
      modifies this`opusdec, pcmDecbuf
      ensures opusdec == opus(old(opusdec), frame).next
      ensures var r := opus(old(opusdec), frame);
        if r.DecodeFailed? then n < 0
        else 0 <= n <= FRAME_SAMPLES && pcmDecbuf[..2 * n] == r.pcm
    {
      var r := opus(opusdec, frame);
      opusdec := r.next;
      if r.DecodeFailed? {
        return -1;
      }
      n := |r.pcm| / 2;
      forall i | 0 <= i < |r.pcm| {
        pcmDecbuf[i] := r.pcm[i];
      }
      assert pcmDecbuf[..2 * n] == r.pcm;
    }

    /** The first critical section of a pass: byte by byte from the playback queue into dst. */
    method DrainLoop(dst: array<byte>, from: nat, maxLen: nat) returns (written: nat)
      requires from <= maxLen <= dst.Length
      modifies this`playbackQueue, dst
      ensures from <= written <= maxLen
      ensures dst[..from] == old(dst[..from]) && dst[written..] == old(dst[written..])
      ensures written - from <= |old(playbackQueue)|
      ensures dst[from..written] == old(playbackQueue)[..written - from]
      ensures playbackQueue == old(playbackQueue)[written - from..]
      ensures written == maxLen || playbackQueue == []
    {
      written := from;
      ghost var dst0, queue0 := dst[..], playbackQueue;
      while written < maxLen && playbackQueue != []
        invariant from <= written <= maxLen && written - from <= |queue0|
        invariant playbackQueue == queue0[written - from..]
        invariant dst[..] == Moved(dst0, queue0, from, written)
        decreases maxLen - written
      {
        MoveOne(dst0, queue0, from, written);
        ghost var before := dst[..];
        dst[written] := playbackQueue[0];
        assert dst[..] == before[written := queue0[written - from]];
        playbackQueue := playbackQueue[1..];
        written := written + 1;
      }
      MovedParts(dst[..], dst0, queue0, from, written);
      assert dst[..from] == dst[..][..from] && dst[from..written] == dst[..][from..written];
      assert dst[written..] == dst[..][written..] && dst0[written..] == old(dst[written..]);
    }

    /** A buffer whose part from..to has been filled from the front of a queue. */
    static ghost function Moved(dst: seq<byte>, queue: seq<byte>, from: nat, to: nat): seq<byte>
      requires from <= to <= |dst| && to - from <= |queue|
    {
      dst[..from] + queue[..to - from] + dst[to..]
    }

    static lemma MoveOne(dst: seq<byte>, queue: seq<byte>, from: nat, to: nat)
      requires from <= to < |dst| && to - from < |queue|
      ensures Moved(dst, queue, from, to)[to := queue[to - from]] == Moved(dst, queue, from, to + 1)
      ensures queue[to - from..][0] == queue[to - from] && queue[to - from..][1..] == queue[to + 1 - from..]
    {
    }

    static lemma MovedParts(now: seq<byte>, dst: seq<byte>, queue: seq<byte>, from: nat, to: nat)
      requires from <= to <= |dst| && to - from <= |queue| && now == Moved(dst, queue, from, to)
      ensures now[..from] == dst[..from] && now[from..to] == queue[..to - from] && now[to..] == dst[to..]
    {
    }

    // Each of the following lets the other threads run first, through gap g of the schedule.

    lemma ArrivalsFrom(sched: Schedule, g: nat)
      ensures Arrivals(sched, g) == Pushes(Gap(sched, g)) + Arrivals(sched, g + 1)
    {
    }

    /** The passes that write callbacks have made so far. */
    ghost function PassCount(): nat
      reads this
    {
      Passes(opus, Init(d0), trace)
    }

    /** No more frames than these can be taken from gap g on: why the loop ends. */
    ghost function Backlog(sched: Schedule, g: nat): nat
      reads this
    {
      |compressedQueue| + Arrivals(sched, g)
    }

    /**
     The call goes on: no answer is given and no call begins; and when the writer is alone, every
     step taken is its own.
     */
    twostate predicate GoesOn(alone: bool)
      reads this
    {
      && m.h.returned == old(m.h.returned) && m.h.served == old(m.h.served)
      && old(trace) <= trace
      && (forall i :: |old(trace)| <= i < |trace| ==> !trace[i].Call? && (alone ==> trace[i].IsWriter()))
    }

    lemma HeadNotEmpty()
      requires Valid() && compressedQueue != []
      ensures |compressedQueue[0]| > 0
    {
      Reachable(opus, d0, trace);
      assert compressedQueue[0] == m.h.accepted[Front(m.h)];
    }

    lemma ShortMeansEmpty()
      requires Valid() && m.w.pc.Returning?
      ensures |m.w.dst| == m.w.want || (|m.w.dst| < m.w.want && m.w.pc.sawEmpty)
    {
      hide Run;
      Reachable(opus, d0, trace);
    }

    /** Lines 86-97 of one pass, under the lock. */
    method DrainLocked(dst: array<byte>, from: nat, maxLen: nat) returns (written: nat)
      requires Valid() && m.w.pc.Draining? && m.w.want == maxLen <= dst.Length
      requires from < maxLen && m.w.dst == dst[..from]
      modifies this, dst
      ensures Valid() && trace == old(trace) + [Drain]
      ensures from <= written <= maxLen && m.w.want == maxLen && m.w.dst == dst[..written]
      ensures if written == maxLen then m.w.pc.Returning? else m.w.pc.Popping?
      ensures dst[written..] == old(dst[written..])
      ensures m.h == old(m.h) && compressedQueue == old(compressedQueue)
      ensures PassCount() == old(PassCount()) + 1
    {
      hide Run, Passes;
      PassesSnoc(opus, Init(d0), trace, Drain);
      PassSteps(opus, m);
      hide Next;
      written := DrainLoop(dst, from, maxLen);
      ghost var moved := dst[from..written];
      assert dst[..written] == dst[..from] + moved;
      ghost var before := m;
      var full := written == maxLen;
      var pc := if full then Returning(playbackQueue == [] && compressedQueue == []) else Popping;
      w := w.(pc := pc, dst := dst[..written]);
      Step(Drain);
      assert m.w.dst == before.w.dst + before.playback[..written - from];
    }

    method DrainPass(dst: array<byte>, from: nat, maxLen: nat, sched: Schedule, g: nat)
      returns (written: nat)
      requires Valid() && ScheduleOk(sched) && m.w.pc.Draining? && m.w.want == maxLen <= dst.Length
      requires from < maxLen && m.w.dst == dst[..from]
      modifies this, dst
      ensures Valid() && GoesOn(sched == [])
      ensures from <= written <= maxLen && m.w.want == maxLen && m.w.dst == dst[..written]
      ensures if written == maxLen then m.w.pc.Returning? else m.w.pc.Popping?
      ensures dst[written..] == old(dst[written..]) && m.h.taken == old(m.h.taken)
      ensures Backlog(sched, g + 1) <= old(Backlog(sched, g))
      ensures PassCount() == old(PassCount()) + 1
      ensures trace == old(trace) + Gap(sched, g) + [Drain]
    {
      hide Run, Passes;
      ArrivalsFrom(sched, g);
      Interfere(Gap(sched, g));
      written := DrainLocked(dst, from, maxLen);
    }

    /** Lines 99-108: the oldest frame, or None when the call has to give up. */
    method FetchFrame(sched: Schedule, g: nat) returns (frame: Option<Packet>)
      requires Valid() && ScheduleOk(sched) && m.w.pc.Popping?
      modifies this
      ensures Valid() && GoesOn(sched == [])
      ensures m.w.want == old(m.w.want) && m.w.dst == old(m.w.dst)
      ensures frame.None? ==> m.w.pc.Returning?
      ensures frame.Some? ==> |frame.value| > 0 && m.w.pc == Decoding(frame.value)
      ensures frame.Some? ==> Backlog(sched, g + 1) < old(Backlog(sched, g))
      ensures |m.h.taken| == |old(m.h.taken)| + (if frame.Some? then 1 else 0)
      ensures PassCount() == old(PassCount())
      ensures trace == old(trace) + Gap(sched, g) + [Pop]
    {
      hide Run, Passes;
      ArrivalsFrom(sched, g);
      Interfere(Gap(sched, g));
      frame := FetchLocked();
    }

    /** The critical section itself. */
    method FetchLocked() returns (frame: Option<Packet>)
      requires Valid() && m.w.pc.Popping?
      modifies this
      ensures Valid() && trace == old(trace) + [Pop]
      ensures m.h.returned == old(m.h.returned) && m.h.served == old(m.h.served)
      ensures m.w == old(m.w).(pc := m.w.pc)
      ensures frame.None? <==> old(compressedQueue) == []
      ensures frame.None? ==> m.w.pc.Returning? && compressedQueue == old(compressedQueue)
      ensures frame.Some? ==> |frame.value| > 0 && m.w.pc == Decoding(frame.value)
      ensures frame.Some? ==> old(compressedQueue) == [frame.value] + compressedQueue
      ensures |m.h.taken| == |old(m.h.taken)| + (if frame.Some? then 1 else 0)
      ensures PassCount() == old(PassCount())
    {
      hide Run, Passes;
      PassesSnoc(opus, Init(d0), trace, Pop);
      PassSteps(opus, m);
      hide Next;
      if compressedQueue == [] {
        w := w.(pc := Returning(playbackQueue == []));
        Step(Pop);
        return None;
      }
      HeadNotEmpty();
      frame := Some(compressedQueue[0]);
      compressedQueue := compressedQueue[1..];
      w := w.(pc := Decoding(frame.value));
      Step(Pop);
    }

    /** Lines 110-119. */
    method DecodeFrame(frame: Packet, sched: Schedule, g: nat) returns (n: int)
      requires Valid() && ScheduleOk(sched) && |frame| > 0 && m.w.pc == Decoding(frame)
      modifies this, pcmDecbuf
      ensures Valid() && GoesOn(sched == [])
      ensures m.w.want == old(m.w.want) && m.w.dst == old(m.w.dst)
      ensures Backlog(sched, g + 1) <= old(Backlog(sched, g)) && m.h.taken == old(m.h.taken)
      ensures n < 0 ==> m.w.pc.Draining?
      ensures 0 <= n ==> n <= FRAME_SAMPLES && m.w.pc == Appending(ToBytes(pcmDecbuf[..2 * n]))
      ensures PassCount() == old(PassCount())
      ensures trace == old(trace) + Gap(sched, g) + [Decode]
    {
      hide Run, Passes;
      ArrivalsFrom(sched, g);
      Interfere(Gap(sched, g));
      n := DecodeUnlocked(frame);
    }

    /** No lock is held. */
    method DecodeUnlocked(frame: Packet) returns (n: int)
      requires Valid() && |frame| > 0 && m.w.pc == Decoding(frame)
      modifies this, pcmDecbuf
      ensures Valid() && trace == old(trace) + [Decode]
      ensures m.h == old(m.h) && m.w == old(m.w).(pc := m.w.pc) && compressedQueue == old(compressedQueue)
      ensures n < 0 ==> m.w.pc.Draining?
      ensures 0 <= n ==> n <= FRAME_SAMPLES && m.w.pc == Appending(ToBytes(pcmDecbuf[..2 * n]))
      ensures PassCount() == old(PassCount())
    {
      hide Run, Passes;
      PassesSnoc(opus, Init(d0), trace, Decode);
      PassSteps(opus, m);
      hide Next;
      n := OpusDecode(frame);
      w := w.(pc := if n < 0 then Draining else Appending(ToBytes(pcmDecbuf[..2 * n])));
      Step(Decode);
    }

    /** Lines 121-130, under the lock: the decoded part of the buffer joins the playback queue. */
    method AppendLocked(n: nat)
      requires Valid() && n <= FRAME_SAMPLES && m.w.pc == Appending(ToBytes(pcmDecbuf[..2 * n]))
      modifies this
      ensures Valid() && trace == old(trace) + [Append]
      ensures m.w == old(m.w).(pc := Draining)
      ensures m.h == old(m.h) && compressedQueue == old(compressedQueue)
      ensures PassCount() == old(PassCount())
    {
      hide Run, Passes;
      PassesSnoc(opus, Init(d0), trace, Append);
      PassSteps(opus, m);
      hide Next;
      var pcmBytes := ToBytes(pcmDecbuf[..]);
      var decodedBytes := n * 2 * 2;
      ToBytesPrefix(pcmDecbuf[..], 2 * n);
      assert pcmDecbuf[..][..2 * n] == pcmDecbuf[..2 * n];
      playbackQueue := playbackQueue + pcmBytes[..decodedBytes];
      w := w.(pc := Draining);
      Step(Append);
    }

    method AppendPcm(n: nat, sched: Schedule, g: nat)
      requires Valid() && ScheduleOk(sched)
      requires n <= FRAME_SAMPLES && m.w.pc == Appending(ToBytes(pcmDecbuf[..2 * n]))
      modifies this
      ensures Valid() && GoesOn(sched == [])
      ensures m.w == old(m.w).(pc := Draining)
      ensures Backlog(sched, g + 1) <= old(Backlog(sched, g)) && m.h.taken == old(m.h.taken)
      ensures PassCount() == old(PassCount())
      ensures trace == old(trace) + Gap(sched, g) + [Append]
    {
      hide Run, Passes;
      ArrivalsFrom(sched, g);
      Interfere(Gap(sched, g));
      AppendLocked(n);
    }

    /** Lines 99-131: fetch, decode and append one frame; false when there was none. */
    method Refill(sched: Schedule, g: nat) returns (more: bool)
      requires Valid() && ScheduleOk(sched) && m.w.pc.Popping?
      modifies this, pcmDecbuf
      ensures Valid() && GoesOn(sched == [])
      ensures m.w.want == old(m.w.want) && m.w.dst == old(m.w.dst)
      ensures if more then m.w.pc.Draining? else m.w.pc.Returning?
      ensures more ==> Backlog(sched, g + 3) < old(Backlog(sched, g))
      ensures |m.h.taken| == |old(m.h.taken)| + (if more then 1 else 0)
      ensures PassCount() == old(PassCount())
    {
      hide Run, Passes;
      var frame := FetchFrame(sched, g);
      if frame.None? {
        return false;
      }
      var n := DecodeFrame(frame.value, sched, g + 1);
      ArrivalsFrom(sched, g + 2);
      if n >= 0 {
        AppendPcm(n, sched, g + 2);
      }
      more := true;
    }

    method EntryReadStop(maxLen: nat) returns (stop: bool)
      requires Valid() && m.w == Writer(Idle, 0, []) && maxLen > 0
      modifies this
      ensures Valid() && trace == old(trace) + [Call(maxLen)] && stop == old(shouldStop)
      ensures m == old(m).(w := if stop then Writer(Idle, 0, []) else Writer(Entry, maxLen, []))
      ensures PassCount() == old(PassCount())
    {
      hide Run, Passes;
      PassesSnoc(opus, Init(d0), trace, Call(maxLen));
      stop := shouldStop;
      w := if stop then w else Writer(Entry, maxLen, []);
      Step(Call(maxLen));
    }

    method EntryReadHealthy() returns (ok: bool)
      requires Valid() && m.w.pc.Entry? && m.w.dst == []
      modifies this
      ensures Valid() && trace == old(trace) + [ReadHealthy] && ok == old(healthy)
      ensures m == old(m).(w := if ok then Writer(Draining, old(m.w.want), []) else Writer(Idle, 0, []))
      ensures PassCount() == old(PassCount())
    {
      hide Run, Passes;
      PassesSnoc(opus, Init(d0), trace, ReadHealthy);
      ok := healthy;
      w := if ok then w.(pc := Draining) else Writer(Idle, 0, []);
      Step(ReadHealthy);
    }

    /** `return written`. */
    method Answer()
      requires Valid() && m.w.pc.Returning?
      modifies this
      ensures Valid() && trace == old(trace) + [Return] && m.w == Writer(Idle, 0, [])
      ensures m.h.taken == old(m.h.taken)
      ensures m.h.returned == old(m.h.returned) + old(m.w.dst)
      ensures exists sawEmpty ::
        m.h.served == old(m.h.served) + [Served(old(m.w.want), |old(m.w.dst)|, sawEmpty)]
        && (|old(m.w.dst)| < old(m.w.want) ==> sawEmpty)
      ensures PassCount() == old(PassCount())
    {
      hide Run, Passes;
      PassesSnoc(opus, Init(d0), trace, Return);
      ShortMeansEmpty();
      w := Writer(Idle, 0, []);
      Step(Return);
    }

    /** The entry check: false when the call is answered with nothing. */
    method Enter(maxLen: nat, sched: Schedule) returns (enter: bool)
      requires Valid() && m.w == Writer(Idle, 0, []) && ScheduleOk(sched) && maxLen > 0
      modifies this
      ensures Valid() && old(trace) + [Call(maxLen)] <= trace
      ensures forall i :: |old(trace)| < i < |trace| ==> !trace[i].Call?
      ensures m.h.returned == old(m.h.returned) && m.h.served == old(m.h.served)
      ensures m.w == if enter then Writer(Draining, maxLen, []) else Writer(Idle, 0, [])
      ensures m.h.taken == old(m.h.taken)
      ensures enter ==> old(healthy) && !old(shouldStop)
      ensures healthy && !shouldStop ==> enter
      ensures sched == [] ==> enter == (old(healthy) && !old(shouldStop))
      ensures sched == [] && enter ==> trace == old(trace) + [Call(maxLen)] + [ReadHealthy]
      ensures PassCount() == old(PassCount())
      ensures old(shouldStop) || trace == old(trace) + [Call(maxLen)] + Gap(sched, 0) + [ReadHealthy]
    {
      hide Run, Passes;
      ArrivalsFrom(sched, 0);
      var stop := EntryReadStop(maxLen);
      if stop {
        return false;
      }
      StaysUnhealthy(trace, Gap(sched, 0));
      Interfere(Gap(sched, 0));
      enter := EntryReadHealthy();
    }

    lemma StaysUnhealthy(before: seq<Action>, acts: seq<Action>)
      ensures !Run(opus, Init(d0), before).healthy ==> !Run(opus, Init(d0), before + acts).healthy
    {
      hide Run;
      RunConcat(opus, Init(d0), before, acts);
      Control.FlagsAreSticky(opus, Run(opus, Init(d0), before), acts);
    }

    lemma {:induction false} FramesSince(s: State, before: seq<Action>)
      requires Valid() && before <= trace && s == Run(opus, Init(d0), before)
      ensures |m.h.taken| - |s.h.taken| <= |s.compressed| + (|m.h.accepted| - |s.h.accepted|)
    {
      hide Run;
      var added := trace[|before|..];
      assert before + added == trace;
      RunConcat(opus, Init(d0), before, added);
      TakenAreBounded(opus, d0, s, added);
    }

    /** Lines 85-131: passes until dst is full or nothing is left to fetch. */
    method ServeLoop(dst: array<byte>, maxLen: nat, sched: Schedule)
      returns (written: nat, passes: nat)
      requires Valid() && ScheduleOk(sched) && maxLen > 0 && m.w == Writer(Draining, maxLen, [])
      requires maxLen <= dst.Length
      modifies this, pcmDecbuf, dst
      ensures Valid() && GoesOn(sched == [])
      ensures written <= maxLen && m.w.pc.Returning? && m.w.want == maxLen && m.w.dst == dst[..written]
      ensures dst[written..] == old(dst[written..])
      ensures 0 < passes <= |m.h.taken| - |old(m.h.taken)| + 1
      ensures passes == PassCount() - old(PassCount())
    {
      hide Run, Passes;
      written, passes := 0, 0;
      var g: nat := 1;
      var more := true;
      while written < maxLen && more
        invariant Valid() && GoesOn(sched == [])
        invariant written <= maxLen && m.w.want == maxLen && m.w.dst == dst[..written]
        invariant dst[written..] == old(dst[written..]) && passes == PassCount() - old(PassCount())
        invariant if more && written < maxLen then m.w.pc.Draining? else m.w.pc.Returning?
        invariant if more && written < maxLen
                  then passes == |m.h.taken| - |old(m.h.taken)|
                  else 0 < passes <= |m.h.taken| - |old(m.h.taken)| + 1
        decreases more, written < maxLen, Backlog(sched, g)
      {
        passes := passes + 1;
        written, more := Pass(dst, written, maxLen, sched, g);
        g := g + 4;
      }
    }

    /** The body of the loop: drain, and refill if there is still room. */
    method Pass(dst: array<byte>, from: nat, maxLen: nat, sched: Schedule, g: nat)
      returns (written: nat, more: bool)
      requires Valid() && ScheduleOk(sched) && m.w.pc.Draining? && m.w.want == maxLen <= dst.Length
      requires from < maxLen && m.w.dst == dst[..from]
      modifies this, pcmDecbuf, dst
      ensures Valid() && GoesOn(sched == [])
      ensures from <= written <= maxLen && m.w.want == maxLen && m.w.dst == dst[..written]
      ensures dst[written..] == old(dst[written..])
      ensures if more && written < maxLen then m.w.pc.Draining? else m.w.pc.Returning?
      ensures more && written < maxLen ==> Backlog(sched, g + 4) < old(Backlog(sched, g))
      ensures |m.h.taken| == |old(m.h.taken)| + (if more && written < maxLen then 1 else 0)
      ensures PassCount() == old(PassCount()) + 1
    {
      hide Run, Passes;
      written := DrainPass(dst, from, maxLen, sched, g);
      more := true;
      if written < maxLen {
        more := Refill(sched, g + 1);
      }
    }

    /** The steps of one call in which no other thread runs. */
    static ghost predicate OneCall(steps: seq<Action>, want: nat) {
      && |steps| > 0 && steps[0] == Call(want)
      && forall i :: 1 <= i < |steps| ==> steps[i].IsWriter() && !steps[i].Call?
    }

    static lemma {:induction false} OneCallAsks(dec: Decoder, s: State, steps: seq<Action>, want: nat)
      requires OneCall(steps, want) && s.w.pc.Idle? && !s.shouldStop
      ensures Asked(dec, s, steps) == want && WriterOnly(steps)
    {
      var before := steps[..|steps| - 1];
      if |steps| > 1 {
        OneCallAsks(dec, s, before, want);
      } else {
        assert before == [];
      }
    }

    /** A call that ran alone answers with the front of the stream. */
    lemma {:induction false} Undisturbed(s: State, before: seq<Action>, maxLen: nat)
      requires Valid() && m.w.pc.Idle? && before <= trace && s == Run(opus, Init(d0), before)
      requires OneCall(trace[|before|..], maxLen)
      requires s.w == Writer(Idle, 0, []) && s.healthy && !s.shouldStop
      ensures var stream := Stream(opus, s);
        m.h.returned == s.h.returned + stream[..Min(maxLen, |stream|)]
    {
      hide Run;
      var added := trace[|before|..];
      assert before + added == trace;
      RunConcat(opus, Init(d0), before, added);
      OneCallAsks(opus, s, added, maxLen);
      ChunkingIndependence(opus, d0, s, added);
    }

    /**
     One call of the write callback, with the other threads free to run in every gap between its
     steps. It hands out dst[..written] and nothing beyond; a short answer saw both queues empty in
     the critical section that ended the call; it makes at most one pass more than the frames that
     were queued at entry or accepted during the call; and undisturbed, it hands out exactly the front
     of the byte stream.
     */
    method WriteCallback(dst: array?<byte>, maxLen: nat, sched: Schedule)
      returns (written: nat, passes: nat)
      requires Valid() && m.w == Writer(Idle, 0, []) && ScheduleOk(sched)
      requires dst != null ==> maxLen <= dst.Length
      modifies this, pcmDecbuf, dst
      ensures Valid() && old(trace) <= trace && m.w == Writer(Idle, 0, [])
      ensures forall i :: |old(trace)| <= i < |trace| && trace[i].Call? ==> trace[i].want == maxLen
      ensures written <= maxLen && (dst == null ==> written == 0)
      ensures dst != null ==> dst[written..] == old(dst[written..])
      ensures m.h.returned == old(m.h.returned) + (if dst == null then [] else dst[..written])
      ensures passes <= |old(compressedQueue)| + (|m.h.accepted| - |old(m.h.accepted)|) + 1
      ensures passes == 0 ==> written == 0 && m.h.served == old(m.h.served)
      ensures passes > 0 ==> dst != null && maxLen > 0 && old(healthy) && !old(shouldStop)
      ensures dst != null && maxLen > 0 && healthy && !shouldStop ==> passes > 0
      ensures passes > 0 ==>
        exists sawEmpty :: m.h.served == old(m.h.served) + [Served(maxLen, written, sawEmpty)]
          && (written < maxLen ==> sawEmpty)
      ensures dst != null && sched == [] && old(healthy) && !old(shouldStop) ==>
        var stream := Stream(opus, old(m));
        dst[..written] == stream[..Min(maxLen, |stream|)]
      ensures passes == PassCount() - old(PassCount())
    {
      hide Run, Passes;
      written, passes := 0, 0;
      if dst == null || maxLen == 0 {
        return;
      }
      var enter := Enter(maxLen, sched);
      if !enter {
        FramesSince(old(m), old(trace));
        return;
      }
      written, passes := ServeLoop(dst, maxLen, sched);
      Answer();
      FramesSince(old(m), old(trace));
      if sched == [] {
        Undisturbed(old(m), old(trace), maxLen);
        assert dst[..written] == m.h.returned[|old(m.h.returned)|..];
      }
    }
  }
}
