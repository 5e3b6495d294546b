/** The server's methods as they stand: encode into a buffer, hand the buffer to RTP. */
module ServerClass {
  import opened Options
  import opened Pcm
  import opened Opus
  import opened Capture
  import opened RtpModel
  import opened RtpClass

  class Server {
    const opus: Encoder
    const channels: nat
    const rtp: Rtp

    var opusenc: CodecState
    const opusEncOutbuf: array<byte>
    var opusEncOutbufSize: nat
    const pcmStereoBuf: array<int16>

    /** The record stream: what it has to read, and how many fragments were dropped from it. */
    var readable: seq<Fragment>
    var drops: nat

    ghost const e0: CodecState
    /** The fragments handed to the data callback since the server was built. */
    ghost var delivered: seq<seq<byte>>
    /** The packets handed to RTP since then. */
    ghost var handed: seq<Packet>

    ghost predicate Buffers()
      reads this
    {
      opusEncOutbuf.Length == FRAME_BYTES && pcmStereoBuf.Length == 2 * FRAME_SAMPLES
    }

    /** Encoder and network are where the fragments delivered so far bring them. */
    ghost predicate Valid()
      reads this, rtp
    {
      && Buffers() && rtp.Valid()
      && opusenc == AfterFragments(opus, e0, channels, delivered)
      && handed == PacketsOf(opus, e0, channels, delivered)
    }

    constructor (opus: Encoder, e0: CodecState, channels: nat, readable: seq<Fragment>)
      ensures Valid() && delivered == [] && handed == [] && this.readable == readable && drops == 0
      ensures this.opus == opus && this.e0 == e0 && this.channels == channels
      ensures opusenc == e0 && !rtp.stopped && rtp.m.pushes == []
      ensures fresh(rtp) && fresh(opusEncOutbuf) && fresh(pcmStereoBuf)
    {
      this.opus, this.channels, this.e0 := opus, channels, e0;
      opusenc := e0;
      opusEncOutbuf := new byte[FRAME_BYTES](_ => 0);
      opusEncOutbufSize := 0;
      pcmStereoBuf := new int16[2 * FRAME_SAMPLES](_ => 0);
      this.readable, drops := readable, 0;
      delivered, handed := [], [];
      rtp := new Rtp();
    }

    /** The library call: a packet in the output buffer and its size, or a negative code. */
    method OpusEncode(input: StereoFrame) returns (res: int)
      requires Buffers()
      modifies this`opusenc, opusEncOutbuf
      ensures opusenc == opus(old(opusenc), input).next
      ensures var r := opus(old(opusenc), input);
        if r.EncodeFailed? then res < 0
        else res == |r.packet| && opusEncOutbuf[..res] == r.packet
    {
      var r := opus(opusenc, input);
      opusenc := r.next;
      if r.EncodeFailed? {
        return -1;
      }
      forall i | 0 <= i < |r.packet| {
        opusEncOutbuf[i] := r.packet[i];
      }
      res := |r.packet|;
    }

    /** Duplicates 960 mono samples into the stereo buffer. */
    method UpmixInto(input: seq<int16>)
      requires Buffers() && |input| >= FRAME_SAMPLES
      modifies pcmStereoBuf
      ensures pcmStereoBuf[..] == Upmix(input[..FRAME_SAMPLES])
    {
      for i := 0 to FRAME_SAMPLES
        invariant pcmStereoBuf[..2 * i] == Upmix(input[..i])
      {
        var sample := input[i];
        pcmStereoBuf[2 * i] := sample;
        pcmStereoBuf[2 * i + 1] := sample;
        UpmixSnoc(input[..i], sample);
        assert input[..i + 1] == input[..i] + [sample];
        assert pcmStereoBuf[..2 * (i + 1)] == pcmStereoBuf[..2 * i] + [sample, sample];
      }
      assert pcmStereoBuf[..] == pcmStereoBuf[..2 * FRAME_SAMPLES];
    }

    /** Leaves in the output buffer the packet for a fragment, of size 0 if there is none. */
    method BytesToOpus(data: Option<seq<byte>>) returns (threw: bool)
      requires Buffers()
      modifies this`opusenc, this`opusEncOutbufSize, opusEncOutbuf, pcmStereoBuf
      ensures opusEncOutbufSize <= FRAME_BYTES
      ensures data.None? ==> !threw && opusEncOutbufSize == 0 && opusenc == old(opusenc)
      ensures data.Some? ==>
        var out := EncodeFragment(opus, old(opusenc), channels, data.value);
        && opusenc == out.next && opusEncOutbuf[..opusEncOutbufSize] == out.packet && threw == out.threw
        && EncodedAs(opus, old(opusenc), channels, data.value, out)
    {
      opusEncOutbufSize := 0;
      if data.Some? {
        EncodesFront(opus, opusenc, channels, data.value);
      }
      if data.None? || |data.value| < 2 {
        return false;
      }
      forall i | 0 <= i < opusEncOutbuf.Length {
        opusEncOutbuf[i] := 0;
      }
      var input := ToSamples(data.value);
      var samplesTotal := |data.value| / 2;
      var encodeIn;
      if channels == 1 {
        if samplesTotal < FRAME_SAMPLES {
          return false;
        }
        UpmixInto(input);
        encodeIn := pcmStereoBuf[..];
      } else {
        if samplesTotal < 2 * FRAME_SAMPLES {
          return false;
        }
        encodeIn := input[..2 * FRAME_SAMPLES];
      }
      assert FrameOf(channels, data.value) == Some(encodeIn);
      var res := OpusEncode(encodeIn);
      if res < 0 {
        return true;
      }
      opusEncOutbufSize := res;
      threw := false;
    }

    /** The data callback: encode, and hand a non-empty packet to RTP. */
    method DataCallback(data: seq<byte>) returns (threw: bool, ghost sent: seq<Packet>)
      requires Valid()
      modifies this, rtp, opusEncOutbuf, pcmStereoBuf
      ensures Valid() && delivered == old(delivered) + [data]
      ensures readable == old(readable) && drops == old(drops)
      ensures var out := EncodeFragment(opus, old(opusenc), channels, data);
        && threw == out.threw && opusenc == out.next
        && sent == if out.packet == [] then [] else [out.packet]
      ensures handed == old(handed) + sent
      ensures rtp.m.pushes == old(rtp.m.pushes) + (if old(rtp.stopped) then [] else sent)
      ensures rtp.stopped == old(rtp.stopped)
    {
      FragmentSnoc(opus, e0, channels, delivered, data);
      threw := BytesToOpus(Some(data));
      delivered := delivered + [data];
      sent := [];
      if threw || opusEncOutbufSize == 0 {
        return;
      }
      var packet := opusEncOutbuf[..opusEncOutbufSize];
      sent := [packet];
      handed := handed + sent;
      rtp.WriteFrames(packet);
    }

    ghost function CurrentReading(delivered0: seq<seq<byte>>, threw: bool): Reading
      reads this
      requires delivered0 <= delivered
    {
      Reading(readable, drops, delivered[|delivered0|..], threw)
    }

    /** One non-empty peek: skip a hole, or deliver the data, then drop unless that threw. */
    method OneFragment(ghost d0: seq<seq<byte>>) returns (threw: bool, ghost sent: seq<Packet>)
      requires Valid() && d0 <= delivered && readable != [] && readable[0].Length() > 0
      modifies this, rtp, opusEncOutbuf, pcmStereoBuf
      ensures Valid() && old(delivered) <= delivered && rtp.stopped == old(rtp.stopped)
      ensures |sent| <= 1 && handed == old(handed) + sent
      ensures rtp.m.pushes == old(rtp.m.pushes) + (if old(rtp.stopped) then [] else sent)
      ensures !threw ==> |readable| < |old(readable)|
      ensures forall peeks: nat :: peeks > 0 ==>
        ReadLoop(opus, old(opusenc), channels, old(CurrentReading(d0, false)), peeks)
        == if threw then CurrentReading(d0, true)
           else ReadLoop(opus, opusenc, channels, CurrentReading(d0, false), peeks - 1)
    {
      hide AfterFragments, PacketsOf, Run, EncodeFragment, ReadLoop;
      if readable[0].Hole? {
        readable, drops := readable[1..], drops + 1;
        threw, sent := false, [];
      } else {
        threw, sent := OneData(d0);
      }
      forall peeks: nat | peeks > 0
        ensures ReadLoop(opus, old(opusenc), channels, old(CurrentReading(d0, false)), peeks)
             == if threw then CurrentReading(d0, true)
                else ReadLoop(opus, opusenc, channels, CurrentReading(d0, false), peeks - 1)
      {
        if old(readable)[0].Hole? {
          ReadHole(opus, old(opusenc), channels, old(CurrentReading(d0, false)), peeks);
        } else {
          ReadData(opus, old(opusenc), channels, old(CurrentReading(d0, false)), peeks);
        }
      }
    }

    method OneData(ghost d0: seq<seq<byte>>) returns (threw: bool, ghost sent: seq<Packet>)
      requires Valid() && d0 <= delivered && readable != [] && readable[0].Data?
      modifies this, rtp, opusEncOutbuf, pcmStereoBuf
      ensures Valid() && d0 <= delivered && old(delivered) <= delivered && rtp.stopped == old(rtp.stopped)
      ensures |sent| <= 1 && handed == old(handed) + sent
      ensures rtp.m.pushes == old(rtp.m.pushes) + (if old(rtp.stopped) then [] else sent)
      ensures var out := EncodeFragment(opus, old(opusenc), channels, old(readable)[0].bytes);
        var r := old(CurrentReading(d0, false));
        var heard := r.(delivered := r.delivered + [old(readable)[0].bytes]);
        && threw == out.threw && opusenc == out.next
        && CurrentReading(d0, threw) ==
             if threw then heard.(threw := true) else heard.(rest := r.rest[1..], drops := r.drops + 1)
    {
      hide AfterFragments, PacketsOf, Run, EncodeFragment;
      ghost var bytes := readable[0].bytes;
      threw, sent := DataCallback(readable[0].bytes);
      assert delivered[|d0|..] == old(delivered)[|d0|..] + [bytes];
      if !threw {
        readable, drops := readable[1..], drops + 1;
      }
    }

    /** The read callback, when `peeks` peeks succeed before one fails. */
    method StreamReadCb(peeks: nat) returns (threw: bool, ghost sent: seq<Packet>)
      requires Valid()
      modifies this, rtp, opusEncOutbuf, pcmStereoBuf
      ensures Valid() && old(delivered) <= delivered && rtp.stopped == old(rtp.stopped)
      ensures CurrentReading(old(delivered), threw)
           == ReadLoop(opus, old(opusenc), channels, Reading(old(readable), old(drops), [], false), peeks)
      ensures handed == old(handed) + sent
      ensures rtp.m.pushes == old(rtp.m.pushes) + (if old(rtp.stopped) then [] else sent)
    {
      hide AfterFragments, PacketsOf, Run;
      threw, sent := false, [];
      var done := 0;
      ghost var d0 := delivered;
      ghost var goal := ReadLoop(opus, opusenc, channels, Reading(readable, drops, [], false), peeks);
      assert delivered[|d0|..] == [];
      while done < peeks && !threw
        invariant Valid() && done <= peeks && d0 <= delivered && rtp.stopped == old(rtp.stopped)
        invariant handed == old(handed) + sent
        invariant rtp.m.pushes == old(rtp.m.pushes) + (if old(rtp.stopped) then [] else sent)
        invariant goal == if threw then CurrentReading(d0, true)
                          else ReadLoop(opus, opusenc, channels, CurrentReading(d0, false), peeks - done)
        decreases peeks - done
      {
        var length := if readable == [] then 0 else readable[0].Length();
        if length == 0 {
          break;
        }
        ghost var more;
        threw, more := OneFragment(d0);
        sent := sent + more;
        done := done + 1;
      }
    }
  }
}
