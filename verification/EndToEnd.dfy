/** From the microphone of one machine to the FIFO of the other. */
module EndToEnd {
  import opened Pcm
  import opened Opus
  import opened ClientModel
  import opened ClientStream
  import opened Capture
  import opened Fifo
  import opened ServerClass
  import opened ClientClass
  import opened BackendClass

  /** Decoding a front part of the packets gives a front part of the audio. */
  lemma DecodePrefix(dec: Decoder, d: CodecState, xs: seq<Packet>, all: seq<Packet>)
    requires xs <= all
    ensures DecodeAll(dec, d, xs) <= DecodeAll(dec, d, all)
  {
    DecodeConcat(dec, d, xs, all[|xs|..]);
    assert xs + all[|xs|..] == all;
  }

  /** The first so many packets decode to the first so many times 20 ms of the audio. */
  lemma {:induction false} PacketsDecodeToFront(
      enc: Encoder, e0: CodecState, dec: Decoder, d0: CodecState,
      sync: (CodecState, CodecState) -> bool, channels: nat, frags: seq<seq<byte>>, packets: seq<Packet>)
    requires Inverts(enc, dec, sync) && sync(e0, d0) && NeverThrew(enc, e0, channels, frags)
    requires packets <= PacketsOf(enc, e0, channels, frags)
    ensures var audio := AudioOf(enc, e0, channels, frags);
      && FRAME_BYTES * |packets| <= |audio|
      && DecodeAll(dec, d0, packets) == audio[..FRAME_BYTES * |packets|]
  {
    hide PacketsOf, AudioOf, Inverts, NeverThrew, DecodeAll;
    DecodeGivesAudio(enc, e0, dec, d0, sync, channels, frags);
    DecodePrefix(dec, d0, packets, PacketsOf(enc, e0, channels, frags));
    var k := FrontOfFragments(enc, e0, channels, frags, packets);
    NeverThrewFront(enc, e0, channels, frags, k);
    DecodeGivesAudio(enc, e0, dec, d0, sync, channels, frags[..k]);
    AudioLength(enc, e0, channels, frags[..k]);
  }

  /**
   Take any codec whose decoder undoes its encoder, any capture on which the encoder never fails,
   and any interleaving of the client's threads in which packets have been accepted in order, all
   or only the first so many of them, and none has been dropped. At every moment, the bytes
   returned, in dst, in the playback queue and pending, followed by what is in flight and queued,
   are exactly the captured audio of the packets accepted so far: the first 20 ms of each fragment
   that made one, as stereo bytes, in order. They are all of it when every packet has arrived.
   */
  lemma {:induction false} PipelineCarriesCapture(
      enc: Encoder, e0: CodecState, dec: Decoder, d0: CodecState,
      sync: (CodecState, CodecState) -> bool, channels: nat, frags: seq<seq<byte>>, s: State)
    requires Inverts(enc, dec, sync) && sync(e0, d0) && NeverThrew(enc, e0, channels, frags)
    requires IsReachable(dec, d0, s)
    requires s.h.accepted <= PacketsOf(enc, e0, channels, frags) && s.h.dropped == []
    ensures var audio := AudioOf(enc, e0, channels, frags);
      && s.h.returned <= Total(dec, s)
      && FRAME_BYTES * |s.h.accepted| <= |audio|
      && Total(dec, s) == audio[..FRAME_BYTES * |s.h.accepted|]
      && (s.h.accepted == PacketsOf(enc, e0, channels, frags) ==> Total(dec, s) == audio)
  {
    hide Run, PacketsOf, AudioOf, Inverts, NeverThrew;
    LosslessWithoutDrops(dec, d0, s);
    PacketsDecodeToFront(enc, e0, dec, d0, sync, channels, frags, s.h.accepted);
    AudioLength(enc, e0, channels, frags);
  }

  /** A stream inside a longer one keeps its subsequences; in phase, if it starts in phase. */
  lemma EmbedsInLonger(out: seq<byte>, before: seq<byte>, stream: seq<byte>, longer: seq<byte>)
    requires before + stream <= longer
    ensures IsSubsequence(out, stream) ==> IsSubsequence(out, longer)
    ensures IsAlignedSubsequence(out, stream) && |before| % 4 == 0 ==> IsAlignedSubsequence(out, longer)
  {
    if IsSubsequence(out, stream) {
      var f :| Embeds(out, stream, f);
      ShiftEmbeds(out, before, stream, longer, f);
    }
    if IsAlignedSubsequence(out, stream) && |before| % 4 == 0 {
      var f :| Embeds(out, stream, f) && KeepsPhase(f);
      ShiftEmbeds(out, before, stream, longer, f);
    }
  }

  lemma ShiftEmbeds(out: seq<byte>, before: seq<byte>, stream: seq<byte>, longer: seq<byte>, f: seq<nat>)
    requires before + stream <= longer && Embeds(out, stream, f)
    ensures IsSubsequence(out, longer)
    ensures KeepsPhase(f) && |before| % 4 == 0 ==> IsAlignedSubsequence(out, longer)
  {
    var g := seq(|f|, i requires 0 <= i < |f| => |before| + f[i]);
    forall i | 0 <= i < |g|
      ensures g[i] < |longer| && longer[g[i]] == out[i]
      ensures |before| % 4 == 0 ==> g[i] % 4 == f[i] % 4
    {
      assert (before + stream)[g[i]] == stream[f[i]];
      SamePhase(|before|, 0, f[i]);
    }
    assert Embeds(out, longer, g);
  }

  /** Every write of a run obeys the pipe rule. */
  ghost predicate PipeRules(passes: seq<PassEnv>) {
    forall k :: 0 <= k < |passes| ==> PipeRule(passes[k].results)
  }

  lemma ChunksGoInWhole(passes: seq<PassEnv>, chunks: seq<seq<byte>>, cuts: seq<nat>)
    requires Delivered(passes, chunks, cuts) && WholeSamples(chunks) && PipeRules(passes)
    ensures WholeChunks(chunks, cuts)
  {
    forall k | 0 <= k < |chunks|
      ensures cuts[k] == 0 || cuts[k] == |chunks[k]|
    {
      assert DeliveredAs(passes[k], chunks[k], cuts[k]);
      WholeOrNothing(passes[k].results, |chunks[k]|);
    }
  }

  /** A run of the backend on the client, begun after the client's steps trace0: what
      RunVirtualInput says about its chunks and cuts when it is over. */
  ghost predicate Ran(backend: PulseaudioBackend, client: Client, passes: seq<PassEnv>,
                      chunks: seq<seq<byte>>, cuts: seq<nat>, trace0: seq<Action>, fifo0: seq<byte>)
    reads backend, client
  {
    && client.Valid()
    && backend.Progress(client, passes, chunks, cuts, trace0,
                        Run(client.opus, Init(client.d0), trace0).h.returned, fifo0)
  }

  /**
   What one run of the backend has put in the FIFO, whatever client and FIFO did before: a
   subsequence of what the client handed out during the run; and when pipe writes are all or nothing
   and earlier requests were for whole samples, whole stereo samples, every byte of which sits where
   it sat in the stream modulo the four bytes of a sample.
   */
  lemma {:induction false} FifoFollowsStream(
      backend: PulseaudioBackend, client: Client, passes: seq<PassEnv>,
      chunks: seq<seq<byte>>, cuts: seq<nat>, trace0: seq<Action>, fifo0: seq<byte>)
    requires Ran(backend, client, passes, chunks, cuts, trace0, fifo0)
    ensures var returned0 := Run(client.opus, Init(client.d0), trace0).h.returned;
      && fifo0 <= backend.fifo && returned0 <= client.m.h.returned
      && var out, stream := backend.fifo[|fifo0|..], client.m.h.returned[|returned0|..];
      && IsSubsequence(out, stream)
      && (PipeRules(passes) && AlignedRequests(trace0) ==> |out| % 4 == 0 && IsAlignedSubsequence(out, stream))
  {
    hide Run;
    var returned0 := Run(client.opus, Init(client.d0), trace0).h.returned;
    assert client.m.h.returned[|returned0|..] == Flatten(chunks);
    assert backend.fifo[|fifo0|..] == FlattenCut(chunks, cuts);
    OutputIsSubsequence(chunks, cuts);
    if PipeRules(passes) && AlignedRequests(trace0) {
      ChunksGoInWhole(passes, chunks, cuts);
      AlignedLengths(chunks, cuts);
      OutputKeepsPhase(chunks, cuts);
    }
  }

  /**
   End to end, on the objects: a server that captured, a client that accepted packets in the order
   they were handed to the network and dropped none, and a backend that ran on it. What the run put
   in the FIFO is a subsequence of the captured audio, in stereo phase if pipe writes are all or
   nothing and no request before the run was for part of a sample.
   */
  lemma {:induction false} FifoCarriesCapture(
      server: Server, client: Client, backend: PulseaudioBackend, sync: (CodecState, CodecState) -> bool,
      passes: seq<PassEnv>, chunks: seq<seq<byte>>, cuts: seq<nat>, trace0: seq<Action>, fifo0: seq<byte>)
    requires server.Valid() && Ran(backend, client, passes, chunks, cuts, trace0, fifo0)
    requires Inverts(server.opus, client.opus, sync) && sync(server.e0, client.d0)
    requires NeverThrew(server.opus, server.e0, server.channels, server.delivered)
    requires client.m.h.accepted <= server.handed && client.m.h.dropped == []
    ensures fifo0 <= backend.fifo
    ensures var audio := AudioOf(server.opus, server.e0, server.channels, server.delivered);
      var out := backend.fifo[|fifo0|..];
      && IsSubsequence(out, audio)
      && (PipeRules(passes) && AlignedRequests(trace0) ==> |out| % 4 == 0 && IsAlignedSubsequence(out, audio))
  {
    hide Run, AudioOf, Inverts, NeverThrew, IsSubsequence, IsAlignedSubsequence;
    PipelineCarriesCapture(server.opus, server.e0, client.opus, client.d0, sync,
                           server.channels, server.delivered, client.m);
    FifoFollowsStream(backend, client, passes, chunks, cuts, trace0, fifo0);
    var returned0 := Run(client.opus, Init(client.d0), trace0).h.returned;
    var stream := client.m.h.returned[|returned0|..];
    assert returned0 + stream == client.m.h.returned;
    if AlignedRequests(trace0) {
      AlignedReturned(client.opus, client.d0, trace0);
    }
    EmbedsInLonger(backend.fifo[|fifo0|..], returned0, stream,
                   AudioOf(server.opus, server.e0, server.channels, server.delivered));
  }
}
