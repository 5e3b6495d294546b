/** The record stream: who holds it after a recording, however the recording ended. */
module Recorder {

  /** What record meets while it waits for the stream; the data callback may throw there already. */
  datatype StreamState = Creating | StreamReady | StreamGone | ThrewEarly

  /** One pass of the record loop: nothing, a stop or shutdown, the stream lost, or an exception
      from the data callback. */
  datatype Event = Quiet | Shutdown | StopCalled | StreamLost | DataThrew

  datatype RecordEnv = RecordEnv(
    isSource: bool,
    created: bool,
    connected: bool,
    states: seq<StreamState>,
    stopWhileWaiting: bool,
    events: seq<Event>)

  datatype RecordEnd = Finished | NotASource | NotCreated | NotConnected | NeverReady | CallbackThrew

  /** Waiting succeeds if the stream becomes ready and was only being created until then. */
  ghost predicate BecomesReady(states: seq<StreamState>) {
    exists k :: 0 <= k < |states| && states[k].StreamReady? && forall j :: 0 <= j < k ==> states[j].Creating?
  }

  /** Recording ends with an exception if the data callback throws and nothing happened until then. */
  ghost predicate ThrowsFirst(events: seq<Event>) {
    exists k :: 0 <= k < |events| && events[k].DataThrew? && forall j :: 0 <= j < k ==> events[j].Quiet?
  }

  class StreamRecorder {
    var stream: bool   // the handle is not null
    var recording: bool
    var created: nat
    var unreffed: nat

    /** Every stream created has been released but the one held. */
    ghost predicate Valid()
      reads this
    {
      created == unreffed + (if stream then 1 else 0)
    }

    constructor ()
      ensures Valid() && !stream && !recording && created == 0
    {
      stream, recording, created, unreffed := false, false, 0, 0;
    }

    method DestroyStream()
      requires Valid()
      modifies this`stream, this`unreffed
      ensures Valid() && !stream && unreffed == old(unreffed) + (if old(stream) then 1 else 0)
    {
      if !stream {
        return;
      }
      unreffed := unreffed + 1;
      stream := false;
    }

    /** The wait for the stream to become ready; false when it ends by an exception, because the stream
        failed or terminated, or because the data callback threw. */
    method WaitForStreamReady(states: seq<StreamState>) returns (ready: bool)
      ensures ready <==> BecomesReady(states)
    {
      var i := 0;
      while i < |states| && states[i].Creating?
        invariant 0 <= i <= |states|
        invariant forall j :: 0 <= j < i ==> states[j].Creating?
      {
        i := i + 1;
      }
      ready := i < |states| && states[i].StreamReady?;
    }

    /** The record loop; a list of events that ends stands for a shutdown. */
    method RecordLoop(events: seq<Event>) returns (threw: bool)
      modifies this`recording
      ensures (threw <==> ThrowsFirst(events)) && recording == threw
    {
      recording := true;
      var i := 0;
      while recording
        invariant 0 <= i <= |events|
        invariant recording ==> forall j :: 0 <= j < i ==> events[j].Quiet?
        invariant !recording ==> !ThrowsFirst(events)
        decreases recording, |events| - i
      {
        if i == |events| || events[i].Shutdown? {
          recording := false;
          break;
        }
        if events[i].DataThrew? {
          return true;
        }
        if events[i].StopCalled? || events[i].StreamLost? {
          recording := false;
        }
        i := i + 1;
      }
      threw := false;
    }

    /**
     One recording. Nothing is ever released twice or lost track of; the stream is still held
     afterwards if and only if the wait failed, the data callback threw, or nothing was attempted
     and it was held before. A normal return holds nothing and is no longer recording. A stop that
     comes while the stream is awaited has no effect on how the recording ends.
     */
    method Record(env: RecordEnv) returns (end: RecordEnd)
      requires Valid()
      modifies this
      ensures Valid()
      ensures end.NotASource? <==> !env.isSource
      ensures end.NotCreated? <==> env.isSource && !env.created
      ensures end.NotConnected? <==> env.isSource && env.created && !env.connected
      ensures end.NeverReady? <==> env.isSource && env.created && env.connected && !BecomesReady(env.states)
      ensures end.CallbackThrew? <==>
        env.isSource && env.created && env.connected && BecomesReady(env.states) && ThrowsFirst(env.events)
      ensures end.Finished? <==>
        env.isSource && env.created && env.connected && BecomesReady(env.states) && !ThrowsFirst(env.events)
      ensures stream <==> end.NeverReady? || end.CallbackThrew? || (end.NotASource? && old(stream))
      ensures created == old(created) + (if end.NotASource? || end.NotCreated? then 0 else 1)
      ensures recording <==>
        end.CallbackThrew? || (!end.Finished? && old(recording) && !(end.NeverReady? && env.stopWhileWaiting))
    {
      if !env.isSource {
        return NotASource;
      }
      DestroyStream();
      if !env.created {
        return NotCreated;
      }
      stream, created := true, created + 1;
      if !env.connected {
        DestroyStream();
        return NotConnected;
      }
      if env.stopWhileWaiting {
        recording := false;
      }
      var ready := WaitForStreamReady(env.states);
      if !ready {
        return NeverReady;
      }
      var threw := RecordLoop(env.events);
      if threw {
        return CallbackThrew;
      }
      DestroyStream();
      end := Finished;
    }
  }
}
