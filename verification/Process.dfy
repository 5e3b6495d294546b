/** The client's methods together with what they call in the other objects of the process. */
module Process {
  import opened ClientModel
  import opened ClientFrames
  import opened ClientClass
  import opened BackendClass
  import opened RtpClass

  /**
   One call of request_shutdown: the client stops, RTP, if there is one, is torn down, and the
   backend neither records nor plays.
   */
  method RequestShutdown(client: Client, rtp: Rtp?, backend: PulseaudioBackend)
    requires client.Valid() && (rtp != null ==> rtp.Valid())
    modifies client, rtp, backend`playback, backend.recorder`recording
    ensures client.Valid() && client.shouldStop && client.trace == old(client.trace) + [Action.RequestShutdown]
    ensures rtp != null ==>
      && rtp.Valid() && rtp.stopped && !rtp.stream && !rtp.session && RtpModel.TornDown(rtp.m)
      && rtp.m.pushes == old(rtp.m.pushes)
    ensures !backend.playback && !backend.recorder.recording
    ensures backend.State() == old(backend.State()).(playback := false)
  {
    client.RequestStop();
    if rtp != null {
      rtp.Stop();
    }
    backend.StopRecording();
  }

  /**
   One call of set_error, with every other thread of the client free to run between its steps: the
   report that finds the client healthy sets the error and stops client, recording and playback;
   any other leaves error, flags and backend as they are.
   */
  method SetError(client: Client, backend: PulseaudioBackend, id: nat, err: string, sched: Schedule)
    returns (won: bool)
    requires client.Valid() && id !in client.reporters && ScheduleFor(sched, Reporter(id))
    modifies client, backend`playback, backend.recorder`recording
    ensures client.Valid() && !client.healthy && won == old(client.healthy)
    ensures won ==>
      && client.lastError == err && client.shouldStop && client.m.h.errors == [err]
      && !backend.playback && !backend.recorder.recording
      && backend.State() == old(backend.State()).(playback := false)
    ensures !won ==>
      && client.lastError == old(client.lastError) && client.shouldStop == old(client.shouldStop)
      && backend.State() == old(backend.State()) && backend.recorder.recording == old(backend.recorder.recording)
  {
    won := client.SetError(id, err, sched);
    if won {
      backend.StopRecording();
    }
  }
}
