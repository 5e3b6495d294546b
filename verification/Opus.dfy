/**
 The Opus codec as the program sees it: a deterministic function of the codec struct and the
 call's input. Nothing is assumed of it but the sizes the calls ask for (at most 960 samples per
 channel decoded, at most 3840 bytes encoded).
 */
module Opus {
  import opened Pcm

  /** The memory of an OpusDecoder or OpusEncoder struct. */
  type CodecState = seq<byte>

  /** What one decode call may put in the PCM buffer: interleaved stereo, at most 20 ms. */
  type Pcm20 = s: seq<int16> | |s| % 2 == 0 && |s| <= 2 * FRAME_SAMPLES

  /** What one encode call reads: exactly 20 ms of interleaved stereo. */
  type StereoFrame = s: seq<int16> | |s| == 2 * FRAME_SAMPLES
    witness seq(1920, i => 0)

  /** What one encode call may put in the output buffer. */
  type Payload = p: Packet | |p| <= FRAME_BYTES

  datatype Decoded = DecodeFailed(next: CodecState) | Decoded(next: CodecState, pcm: Pcm20) {
    /** The bytes a decode adds to the playback stream. */
    function Bytes(): (bytes: seq<byte>)
      ensures |bytes| % 4 == 0 && |bytes| <= FRAME_BYTES
      ensures DecodeFailed? ==> bytes == []
    {
      if Decoded? then ToBytes(pcm) else []
    }
  }

  datatype Encoded = EncodeFailed(next: CodecState) | Encoded(next: CodecState, packet: Payload)

  type Decoder = (CodecState, Packet) -> Decoded

  type Encoder = (CodecState, StereoFrame) -> Encoded

  /** The PCM bytes of a list of packets, the decoder state threaded through; failures add nothing. */
  function DecodeAll(dec: Decoder, d: CodecState, packets: seq<Packet>): seq<byte>
    decreases |packets|
  {
    if packets == [] then []
    else dec(d, packets[0]).Bytes() + DecodeAll(dec, dec(d, packets[0]).next, packets[1..])
  }

  /** The decoder state after a list of packets. */
  function AfterAll(dec: Decoder, d: CodecState, packets: seq<Packet>): CodecState
    decreases |packets|
  {
    if packets == [] then d
    else AfterAll(dec, dec(d, packets[0]).next, packets[1..])
  }

  lemma AddNothing(x: seq<byte>)
    ensures x + [] == x
  {
  }

  lemma Assoc(a: seq<byte>, b: seq<byte>, c: seq<byte>)
    ensures (a + b) + c == a + (b + c)
  {
  }

  lemma {:induction false} DecodeConcat(dec: Decoder, d: CodecState, xs: seq<Packet>, ys: seq<Packet>)
    ensures AfterAll(dec, d, xs + ys) == AfterAll(dec, AfterAll(dec, d, xs), ys)
    ensures DecodeAll(dec, d, xs + ys)
         == DecodeAll(dec, d, xs) + DecodeAll(dec, AfterAll(dec, d, xs), ys)
    decreases |xs|
  {
    if xs == [] {
      assert xs + ys == ys;
    } else {
      var r := dec(d, xs[0]);
      assert (xs + ys)[1..] == xs[1..] + ys && (xs + ys)[0] == xs[0];
      DecodeConcat(dec, r.next, xs[1..], ys);
      Assoc(r.Bytes(), DecodeAll(dec, r.next, xs[1..]), DecodeAll(dec, AfterAll(dec, d, xs), ys));
    }
  }

  /** One more packet at the end of the list. */
  lemma DecodeSnoc(dec: Decoder, d: CodecState, xs: seq<Packet>, p: Packet)
    ensures AfterAll(dec, d, xs + [p]) == dec(AfterAll(dec, d, xs), p).next
    ensures DecodeAll(dec, d, xs + [p])
         == DecodeAll(dec, d, xs) + dec(AfterAll(dec, d, xs), p).Bytes()
  {
    DecodeConcat(dec, d, xs, [p]);
    var d' := AfterAll(dec, d, xs);
    assert DecodeAll(dec, d', [p]) == dec(d', p).Bytes() + [];
  }

  lemma AlignedConcat(a: seq<byte>, b: seq<byte>)
    requires |a| % 4 == 0 && |b| % 4 == 0
    ensures |a + b| % 4 == 0
  {
  }
}
