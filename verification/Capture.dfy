/** The capture side: PulseAudio fragments become Opus packets on the network. */
module Capture {
  import opened Options
  import opened Pcm
  import opened Opus

  /** What the record stream has to read: a hole in the buffer, or data. */
  datatype Fragment = Hole(len: nat) | Data(bytes: seq<byte>) {
    function Length(): nat {
      match this
      case Hole(len) => len
      case Data(bytes) => |bytes|
    }
  }

  // ---------- One fragment ----------

  /** The 20 ms of stereo encoded for a fragment: its front, upmixed if mono; None exactly when the
      fragment is shorter than 20 ms. */
  function FrameOf(channels: nat, data: seq<byte>): (frame: Option<StereoFrame>)
    ensures frame.Some? <==> |data| >= (if channels == 1 then 1920 else 3840)
  {
    var samples := ToSamples(data);
    if channels == 1 then
      if |samples| < FRAME_SAMPLES then None else Some(Upmix(samples[..FRAME_SAMPLES]))
    else
      if |samples| < 2 * FRAME_SAMPLES then None else Some(samples[..2 * FRAME_SAMPLES])
  }

  /** The outcome of encoding one fragment; an empty packet is not sent. */
  datatype Outcome = Outcome(next: CodecState, packet: Payload, threw: bool)

  function EncodeFragment(enc: Encoder, e: CodecState, channels: nat, data: seq<byte>): Outcome {
    match FrameOf(channels, data)
    case None => Outcome(e, [], false)
    case Some(frame) =>
      match enc(e, frame)
      case EncodeFailed(next) => Outcome(next, [], true)
      case Encoded(next, packet) => Outcome(next, packet, false)
  }

  // ---------- Many fragments ----------

  /** The encoder state, threaded through a list of fragments. */
  function AfterFragments(enc: Encoder, e: CodecState, channels: nat, frags: seq<seq<byte>>): CodecState {
    if frags == [] then e
    else
      var n := |frags| - 1;
      EncodeFragment(enc, AfterFragments(enc, e, channels, frags[..n]), channels, frags[n]).next
  }

  /** The packets for a list of fragments: at most one each, in order. */
  function PacketsOf(enc: Encoder, e: CodecState, channels: nat, frags: seq<seq<byte>>): seq<Packet> {
    if frags == [] then []
    else
      var n := |frags| - 1;
      var out := EncodeFragment(enc, AfterFragments(enc, e, channels, frags[..n]), channels, frags[n]);
      PacketsOf(enc, e, channels, frags[..n]) + (if out.packet == [] then [] else [out.packet])
  }

  /** The audio carried by those packets: for each one, the bytes of the frame it encodes. */
  function AudioOf(enc: Encoder, e: CodecState, channels: nat, frags: seq<seq<byte>>): seq<byte> {
    if frags == [] then []
    else
      var n := |frags| - 1;
      var out := EncodeFragment(enc, AfterFragments(enc, e, channels, frags[..n]), channels, frags[n]);
      AudioOf(enc, e, channels, frags[..n]) + (if out.packet == [] then [] else FrameBytes(channels, frags[n]))
  }

  /** The first 20 ms of a fragment as S16LE stereo, told in bytes: a mono sample is on both channels. */
  function FrameBytes(channels: nat, data: seq<byte>): (bytes: seq<byte>)
    requires |data| >= (if channels == 1 then 1920 else 3840)
    ensures |bytes| == 3840
    ensures forall i :: 0 <= i < 3840 ==> bytes[i] == data[if channels == 1 then 2 * (i / 4) + i % 2 else i]
  {
    if channels == 1 then
      assert forall i :: 0 <= i < 3840 ==> RepeatPairs(data, FRAME_SAMPLES)[i] == data[2 * (i / 4) + i % 2] by {
        forall i | 0 <= i < 3840
          ensures RepeatPairs(data, FRAME_SAMPLES)[i] == data[2 * (i / 4) + i % 2]
        {
          RepeatPairsAt(data, FRAME_SAMPLES, i);
        }
      }
      RepeatPairs(data, FRAME_SAMPLES)
    else data[..FRAME_BYTES]
  }

  /** What becomes of a fragment: shorter than 20 ms, nothing; else the encoder's answer to the frame
      whose bytes are the fragment's front. */
  ghost predicate EncodedAs(enc: Encoder, e: CodecState, channels: nat, data: seq<byte>, out: Outcome) {
    if |data| < (if channels == 1 then 1920 else 3840) then out == Outcome(e, [], false)
    else
      exists frame: StereoFrame :: ToBytes(frame) == FrameBytes(channels, data)
        && out == match enc(e, frame)
                  case EncodeFailed(next) => Outcome(next, [], true)
                  case Encoded(next, packet) => Outcome(next, packet, false)
  }

  lemma EncodesFront(enc: Encoder, e: CodecState, channels: nat, data: seq<byte>)
    ensures EncodedAs(enc, e, channels, data, EncodeFragment(enc, e, channels, data))
  {
    if FrameOf(channels, data).Some? {
      FrameIsFragmentFront(channels, data);
    }
  }

  lemma FragmentSnoc(enc: Encoder, e: CodecState, channels: nat, frags: seq<seq<byte>>, data: seq<byte>)
    ensures var out := EncodeFragment(enc, AfterFragments(enc, e, channels, frags), channels, data);
      && AfterFragments(enc, e, channels, frags + [data]) == out.next
      && PacketsOf(enc, e, channels, frags + [data])
         == PacketsOf(enc, e, channels, frags) + (if out.packet == [] then [] else [out.packet])
  {
    assert (frags + [data])[..|frags|] == frags;
  }

  lemma AudioSnoc(enc: Encoder, e: CodecState, channels: nat, frags: seq<seq<byte>>, data: seq<byte>)
    ensures var out := EncodeFragment(enc, AfterFragments(enc, e, channels, frags), channels, data);
      AudioOf(enc, e, channels, frags + [data])
      == AudioOf(enc, e, channels, frags) + (if out.packet == [] then [] else FrameBytes(channels, data))
  {
    assert (frags + [data])[..|frags|] == frags;
  }

  /** What the k-th fragment encodes to, after all fragments before it. */
  function OutcomeAt(enc: Encoder, e: CodecState, channels: nat, frags: seq<seq<byte>>, k: nat): Outcome
    requires k < |frags|
  {
    EncodeFragment(enc, AfterFragments(enc, e, channels, frags[..k]), channels, frags[k])
  }

  /** from tells, packet by packet and in order, which fragment it was made of; the fragments it
      leaves out made none. */
  ghost predicate MadeOf(enc: Encoder, e: CodecState, channels: nat, frags: seq<seq<byte>>,
                         packets: seq<Packet>, from: seq<nat>)
  {
    && |from| == |packets|
    && (forall i :: 0 <= i < |from| ==>
          from[i] < |frags| && packets[i] != [] && packets[i] == OutcomeAt(enc, e, channels, frags, from[i]).packet)
    && (forall i, j :: 0 <= i < j < |from| ==> from[i] < from[j])
    && (forall k: nat :: k < |frags| && k !in from ==> OutcomeAt(enc, e, channels, frags, k).packet == [])
  }

  lemma MadeOfSnoc(enc: Encoder, e: CodecState, channels: nat, frags: seq<seq<byte>>,
                   packets: seq<Packet>, from: seq<nat>, data: seq<byte>)
    requires MadeOf(enc, e, channels, frags, packets, from)
    ensures var packet := EncodeFragment(enc, AfterFragments(enc, e, channels, frags), channels, data).packet;
      if packet == [] then MadeOf(enc, e, channels, frags + [data], packets, from)
      else MadeOf(enc, e, channels, frags + [data], packets + [packet], from + [|frags|])
  {
    hide EncodeFragment, AfterFragments;
    var more := frags + [data];
    assert more[..|frags|] == frags;
    forall k: nat | k < |frags|
      ensures OutcomeAt(enc, e, channels, more, k) == OutcomeAt(enc, e, channels, frags, k)
    {
      assert more[..k] == frags[..k];
    }
    assert OutcomeAt(enc, e, channels, more, |frags|)
        == EncodeFragment(enc, AfterFragments(enc, e, channels, frags), channels, data);
    hide OutcomeAt;
    var from' := from + [|frags|];
    assert forall k: nat :: k !in from' ==> k !in from && k != |frags| by {
      assert from'[|from|] == |frags|;
      assert forall k: nat :: k in from ==> k in from';
    }
  }

  /**
   Packets and fragments correspond: each packet is the non-empty encoding of one fragment by the
   encoder as all fragments before it left it, in fragment order, no fragment makes two packets, and
   none that encodes to something is passed over.
   */
  lemma {:induction false} PacketsMatchFragments(enc: Encoder, e: CodecState, channels: nat, frags: seq<seq<byte>>)
    ensures exists from :: MadeOf(enc, e, channels, frags, PacketsOf(enc, e, channels, frags), from)
  {
    hide EncodeFragment;
    if frags == [] {
      assert MadeOf(enc, e, channels, frags, PacketsOf(enc, e, channels, frags), []);
    } else {
      var n := |frags| - 1;
      PacketsMatchFragments(enc, e, channels, frags[..n]);
      var packets := PacketsOf(enc, e, channels, frags[..n]);
      var from :| MadeOf(enc, e, channels, frags[..n], packets, from);
      MadeOfSnoc(enc, e, channels, frags[..n], packets, from, frags[n]);
      FragmentSnoc(enc, e, channels, frags[..n], frags[n]);
      assert frags[..n] + [frags[n]] == frags;
      assert packets + [] == packets;
    }
  }

  /** Every packet carries 20 ms. */
  lemma {:induction false} AudioLength(enc: Encoder, e: CodecState, channels: nat, frags: seq<seq<byte>>)
    ensures |AudioOf(enc, e, channels, frags)| == FRAME_BYTES * |PacketsOf(enc, e, channels, frags)|
  {
    if frags != [] {
      AudioLength(enc, e, channels, frags[..|frags| - 1]);
    }
  }

  /** A front part of the packets is what some front part of the fragments makes. */
  lemma {:induction false} FrontOfFragments(
      enc: Encoder, e: CodecState, channels: nat, frags: seq<seq<byte>>, packets: seq<Packet>)
    returns (k: nat)
    requires packets <= PacketsOf(enc, e, channels, frags)
    ensures k <= |frags| && PacketsOf(enc, e, channels, frags[..k]) == packets
  {
    if packets == PacketsOf(enc, e, channels, frags) {
      k := |frags|;
      assert frags[..k] == frags;
    } else {
      var n := |frags| - 1;
      k := FrontOfFragments(enc, e, channels, frags[..n], packets);
      assert frags[..n][..k] == frags[..k];
    }
  }

  /** A fragment of less than 20 ms, or with no whole sample, changes nothing at all. */
  lemma ShortFragment(enc: Encoder, e: CodecState, channels: nat, frags: seq<seq<byte>>, data: seq<byte>)
    requires |data| < (if channels == 1 then 1920 else 3840)
    ensures AfterFragments(enc, e, channels, frags + [data]) == AfterFragments(enc, e, channels, frags)
    ensures PacketsOf(enc, e, channels, frags + [data]) == PacketsOf(enc, e, channels, frags)
  {
    FragmentSnoc(enc, e, channels, frags, data);
  }

  /** The bytes of the frame the encoder is given are the fragment's own first bytes. */
  lemma FrameIsFragmentFront(channels: nat, data: seq<byte>)
    requires FrameOf(channels, data).Some?
    ensures ToBytes(FrameOf(channels, data).value) == FrameBytes(channels, data)
  {
    if channels == 1 {
      UpmixOfPrefix(data, FRAME_SAMPLES);
    } else {
      BytesOfPrefix(data, 2 * FRAME_SAMPLES);
    }
  }

  // ---------- One read callback ----------

  /** What one read callback has done so far, and what the stream still holds. */
  datatype Reading = Reading(
    rest: seq<Fragment>,
    drops: nat,
    delivered: seq<seq<byte>>,
    threw: bool)

  /**
   The peek/drop loop, when `peeks` peeks succeed before one fails. Whether the data callback
   throws on a fragment depends on the encoder state, so the state is threaded along.
   */
  function ReadLoop(enc: Encoder, e: CodecState, channels: nat, r: Reading, peeks: nat): Reading
    decreases |r.rest|
  {
    if peeks == 0 || r.rest == [] || r.rest[0].Length() == 0 then r
    else
      match r.rest[0]
      case Hole(_) =>
        ReadLoop(enc, e, channels, r.(rest := r.rest[1..], drops := r.drops + 1), peeks - 1)
      case Data(bytes) =>
        var out := EncodeFragment(enc, e, channels, bytes);
        if out.threw then r.(delivered := r.delivered + [bytes], threw := true)
        else
          ReadLoop(enc, out.next, channels,
                   r.(rest := r.rest[1..], drops := r.drops + 1, delivered := r.delivered + [bytes]),
                   peeks - 1)
  }

  /** The loop past one hole. */
  lemma ReadHole(enc: Encoder, e: CodecState, channels: nat, r: Reading, peeks: nat)
    requires peeks > 0 && r.rest != [] && r.rest[0].Hole? && r.rest[0].Length() > 0
    ensures ReadLoop(enc, e, channels, r, peeks)
         == ReadLoop(enc, e, channels, r.(rest := r.rest[1..], drops := r.drops + 1), peeks - 1)
  {
  }

  /** The loop past one piece of data, or up to the one that threw. */
  lemma ReadData(enc: Encoder, e: CodecState, channels: nat, r: Reading, peeks: nat)
    requires peeks > 0 && r.rest != [] && r.rest[0].Data? && r.rest[0].Length() > 0
    ensures var out := EncodeFragment(enc, e, channels, r.rest[0].bytes);
      var heard := r.(delivered := r.delivered + [r.rest[0].bytes]);
      ReadLoop(enc, e, channels, r, peeks)
      == if out.threw then heard.(threw := true)
         else ReadLoop(enc, out.next, channels, heard.(rest := r.rest[1..], drops := r.drops + 1), peeks - 1)
  {
  }

  /** The data of a list of fragments, holes left out. */
  function DataOf(frags: seq<Fragment>): seq<seq<byte>> {
    if frags == [] then []
    else (if frags[0].Data? then [frags[0].bytes] else []) + DataOf(frags[1..])
  }

  /** From r to r', a front part of the stream was dropped and its data delivered. */
  ghost predicate TookFront(r: Reading, r': Reading) {
    var taken := |r.rest| - |r'.rest|;
    && 0 <= taken && r'.rest == r.rest[taken..]
    && r'.drops == r.drops + taken
    && r'.delivered == r.delivered + DataOf(r.rest[..taken])
  }

  /** The first fragment taken on its own, and the rest after it. */
  lemma TookOneMore(r: Reading, r1: Reading, r': Reading)
    requires r.rest != [] && r1.rest == r.rest[1..] && r1.drops == r.drops + 1
    requires r1.delivered == r.delivered + (if r.rest[0].Data? then [r.rest[0].bytes] else [])
    requires TookFront(r1, r')
    ensures TookFront(r, r')
  {
    var taken := |r.rest| - |r'.rest|;
    DataOfCons(r.rest, taken);
    assert r.rest[1..][taken - 1..] == r.rest[taken..];
  }

  /**
   If the data callback does not throw, a read callback takes a front part of the stream: each of
   its fragments is dropped once, and exactly those that are not holes are delivered, in order. It
   takes everything, unless a peek fails or an empty peek says so earlier.
   */
  lemma {:induction false} ReadTakesFront(enc: Encoder, e: CodecState, channels: nat, r: Reading, peeks: nat)
    requires !ReadLoop(enc, e, channels, r, peeks).threw
    ensures var r' := ReadLoop(enc, e, channels, r, peeks);
      && TookFront(r, r') && |r.rest| - |r'.rest| <= peeks
      && (|r.rest| - |r'.rest| < peeks ==> r'.rest == [] || r'.rest[0].Length() == 0)
    decreases |r.rest|
  {
    hide EncodeFragment, TookFront;
    if peeks == 0 || r.rest == [] || r.rest[0].Length() == 0 {
      TookNothing(r);
    } else {
      var heard := if r.rest[0].Hole? then [] else [r.rest[0].bytes];
      var r1 := r.(rest := r.rest[1..], drops := r.drops + 1, delivered := r.delivered + heard);
      if r.rest[0].Hole? {
        ReadHole(enc, e, channels, r, peeks);
        assert r.delivered + [] == r.delivered;
        ReadTakesFront(enc, e, channels, r1, peeks - 1);
        TookOneMore(r, r1, ReadLoop(enc, e, channels, r1, peeks - 1));
      } else {
        var e1 := EncodeFragment(enc, e, channels, r.rest[0].bytes).next;
        ReadData(enc, e, channels, r, peeks);
        ReadTakesFront(enc, e1, channels, r1, peeks - 1);
        TookOneMore(r, r1, ReadLoop(enc, e1, channels, r1, peeks - 1));
      }
    }
  }

  lemma TookNothing(r: Reading)
    ensures TookFront(r, r)
  {
  }

  lemma DataOfCons(frags: seq<Fragment>, n: nat)
    requires 0 < n <= |frags|
    ensures DataOf(frags[..n]) == (if frags[0].Data? then [frags[0].bytes] else []) + DataOf(frags[1..][..n - 1])
  {
    assert frags[..n][1..] == frags[1..][..n - 1];
  }

  lemma {:induction false} AfterCons(enc: Encoder, e: CodecState, channels: nat, x: seq<byte>, xs: seq<seq<byte>>)
    ensures AfterFragments(enc, e, channels, [x] + xs)
         == AfterFragments(enc, EncodeFragment(enc, e, channels, x).next, channels, xs)
  {
    hide EncodeFragment;
    var all := [x] + xs;
    if xs == [] {
      assert all[..0] == [];
    } else {
      var n := |xs| - 1;
      AfterCons(enc, e, channels, x, xs[..n]);
      assert all[..|all| - 1] == [x] + xs[..n];
    }
  }

  /** From r to r', a front part was taken as usual, and the fragment after it, which the encoder
      refuses in the state that the front part leaves, was delivered but not dropped. */
  ghost predicate ThrewOnNext(enc: Encoder, e: CodecState, channels: nat, r: Reading, r': Reading) {
    && r'.rest != [] && r'.rest[0].Data? && |r'.rest| <= |r.rest| && r'.delivered != []
    && var last, heard := r'.rest[0].bytes, r'.delivered[..|r'.delivered| - 1];
    && r'.delivered == heard + [last]
    && TookFront(r, r'.(delivered := heard))
    && var before := AfterFragments(enc, e, channels, DataOf(r.rest[..|r.rest| - |r'.rest|]));
    && EncodeFragment(enc, before, channels, last).threw
  }

  lemma ThrewAtOnce(enc: Encoder, e: CodecState, channels: nat, r: Reading, r': Reading)
    requires r.rest != [] && r.rest[0].Data? && EncodeFragment(enc, e, channels, r.rest[0].bytes).threw
    requires r' == r.(delivered := r.delivered + [r.rest[0].bytes], threw := true)
    ensures ThrewOnNext(enc, e, channels, r, r')
  {
    hide EncodeFragment, TookFront;
    assert r'.delivered[..|r'.delivered| - 1] == r.delivered;
    TookNothingYet(r, r'.(delivered := r.delivered, threw := false));
    NoFragments(enc, e, channels, r.rest[..0]);
  }

  lemma TookNothingYet(r: Reading, r': Reading)
    requires r'.rest == r.rest && r'.drops == r.drops && r'.delivered == r.delivered
    ensures TookFront(r, r') && TookFront(r, r'.(threw := true))
  {
  }

  lemma NoFragments(enc: Encoder, e: CodecState, channels: nat, none: seq<Fragment>)
    requires none == []
    ensures AfterFragments(enc, e, channels, DataOf(none)) == e
  {
  }

  lemma ThrewOneLater(enc: Encoder, e: CodecState, e1: CodecState, channels: nat, r: Reading, r1: Reading, r': Reading)
    requires r.rest != [] && r1.rest == r.rest[1..] && r1.drops == r.drops + 1
    requires r1.delivered == r.delivered + (if r.rest[0].Data? then [r.rest[0].bytes] else [])
    requires e1 == if r.rest[0].Data? then EncodeFragment(enc, e, channels, r.rest[0].bytes).next else e
    requires ThrewOnNext(enc, e1, channels, r1, r')
    ensures ThrewOnNext(enc, e, channels, r, r')
  {
    hide EncodeFragment, TookFront, AfterFragments;
    var taken := |r.rest| - |r'.rest|;
    TookOneMore(r, r1, r'.(delivered := r'.delivered[..|r'.delivered| - 1]));
    DataOfCons(r.rest, taken);
    if r.rest[0].Data? {
      AfterCons(enc, e, channels, r.rest[0].bytes, DataOf(r.rest[1..][..taken - 1]));
    } else {
      assert [] + DataOf(r.rest[1..][..taken - 1]) == DataOf(r.rest[1..][..taken - 1]);
    }
  }

  /** The other way for a read callback to end: the data callback throws. */
  lemma {:induction false} ReadThrows(enc: Encoder, e: CodecState, channels: nat, r: Reading, peeks: nat)
    requires !r.threw && ReadLoop(enc, e, channels, r, peeks).threw
    ensures ThrewOnNext(enc, e, channels, r, ReadLoop(enc, e, channels, r, peeks))
    decreases |r.rest|
  {
    hide EncodeFragment, ThrewOnNext;
    var heard := if r.rest[0].Hole? then [] else [r.rest[0].bytes];
    var r1 := r.(rest := r.rest[1..], drops := r.drops + 1, delivered := r.delivered + heard);
    var r' := ReadLoop(enc, e, channels, r, peeks);
    if r.rest[0].Hole? {
      ReadHole(enc, e, channels, r, peeks);
      assert r.delivered + [] == r.delivered;
      ReadThrows(enc, e, channels, r1, peeks - 1);
      ThrewOneLater(enc, e, e, channels, r, r1, r');
    } else {
      var out := EncodeFragment(enc, e, channels, r.rest[0].bytes);
      ReadData(enc, e, channels, r, peeks);
      if out.threw {
        ThrewAtOnce(enc, e, channels, r, r');
      } else {
        ReadThrows(enc, out.next, channels, r1, peeks - 1);
        ThrewOneLater(enc, e, out.next, channels, r, r1, r');
      }
    }
  }

  // ---------- Composition with a decoder ----------

  /** One encoded frame: a packet that is sent decodes to it, and none is needed for an empty one. */
  ghost predicate Undoes(dec: Decoder, d: CodecState, frame: StereoFrame, r: Encoded,
                         sync: (CodecState, CodecState) -> bool)
    requires r.Encoded?
  {
    var d' := dec(d, r.packet).next;
    if r.packet == [] then sync(r.next, d)
    else dec(d, r.packet) == Decoded(d', frame) && sync(r.next, d')
  }

  /**
   The decoder undoes the encoder, `sync` telling which states belong together: a non-empty packet
   decodes to the frame it was made from, and an empty one, which is never sent, can be skipped.
   */
  ghost predicate Inverts(enc: Encoder, dec: Decoder, sync: (CodecState, CodecState) -> bool) {
    forall e, d, frame: StereoFrame :: sync(e, d) && enc(e, frame).Encoded? ==>
      Undoes(dec, d, frame, enc(e, frame), sync)
  }

  /** A codec that ships the samples as they are. */
  function RawEncode(e: CodecState, frame: StereoFrame): Encoded { Encoded(e, ToBytes(frame)) }

  function RawDecode(d: CodecState, packet: Packet): Decoded {
    if |packet| == FRAME_BYTES then Decoded(d, ToSamples(packet)) else DecodeFailed(d)
  }

  /** Codecs whose decoder undoes the encoder exist. */
  lemma RawCodecInverts()
    ensures Inverts(RawEncode, RawDecode, (e, d) => true)
  {
    var enc: Encoder, dec: Decoder := RawEncode, RawDecode;
    var sync: (CodecState, CodecState) -> bool := (e, d) => true;
    forall e, d, frame: StereoFrame | sync(e, d) && enc(e, frame).Encoded?
      ensures Undoes(dec, d, frame, enc(e, frame), sync)
    {
      SamplesRoundTrip(frame);
    }
    assert Inverts(enc, dec, sync);
  }

  /** No fragment made the encoder fail. */
  ghost predicate NeverThrew(enc: Encoder, e: CodecState, channels: nat, frags: seq<seq<byte>>) {
    forall n: nat :: n < |frags| ==> !OutcomeAt(enc, e, channels, frags, n).threw
  }

  /** Decoding the packets of a capture gives back the captured audio. */
  lemma {:induction false} DecodeGivesAudio(
      enc: Encoder, e: CodecState, dec: Decoder, d: CodecState,
      sync: (CodecState, CodecState) -> bool, channels: nat, frags: seq<seq<byte>>)
    requires Inverts(enc, dec, sync) && sync(e, d) && NeverThrew(enc, e, channels, frags)
    ensures DecodeAll(dec, d, PacketsOf(enc, e, channels, frags)) == AudioOf(enc, e, channels, frags)
    ensures sync(AfterFragments(enc, e, channels, frags),
                 AfterAll(dec, d, PacketsOf(enc, e, channels, frags)))
  {
    hide EncodeFragment, Inverts, DecodeAll, AfterAll;
    if frags == [] {
      NothingDecodes(dec, d);
    } else {
      var n := |frags| - 1;
      assert !OutcomeAt(enc, e, channels, frags, n).threw;
      hide NeverThrew;
      NeverThrewFront(enc, e, channels, frags, n);
      DecodeGivesAudio(enc, e, dec, d, sync, channels, frags[..n]);
      AudioStep(enc, e, dec, d, sync, channels, frags[..n], frags[n]);
      assert frags[..n] + [frags[n]] == frags;
    }
  }

  lemma NeverThrewFront(enc: Encoder, e: CodecState, channels: nat, frags: seq<seq<byte>>, k: nat)
    requires NeverThrew(enc, e, channels, frags) && k <= |frags|
    ensures NeverThrew(enc, e, channels, frags[..k])
  {
    hide EncodeFragment, AfterFragments;
    forall n: nat | n < k
      ensures OutcomeAt(enc, e, channels, frags[..k], n) == OutcomeAt(enc, e, channels, frags, n)
    {
      assert frags[..k][..n] == frags[..n];
    }
  }

  lemma NothingDecodes(dec: Decoder, d: CodecState)
    ensures DecodeAll(dec, d, []) == [] && AfterAll(dec, d, []) == d
  {
  }

  /** One more fragment, with encoder and decoder in step before it. */
  lemma AudioStep(enc: Encoder, e: CodecState, dec: Decoder, d: CodecState,
                  sync: (CodecState, CodecState) -> bool, channels: nat,
                  frags: seq<seq<byte>>, data: seq<byte>)
    requires Inverts(enc, dec, sync)
    requires !EncodeFragment(enc, AfterFragments(enc, e, channels, frags), channels, data).threw
    requires DecodeAll(dec, d, PacketsOf(enc, e, channels, frags)) == AudioOf(enc, e, channels, frags)
    requires sync(AfterFragments(enc, e, channels, frags),
                  AfterAll(dec, d, PacketsOf(enc, e, channels, frags)))
    ensures var frags' := frags + [data];
      && DecodeAll(dec, d, PacketsOf(enc, e, channels, frags')) == AudioOf(enc, e, channels, frags')
      && sync(AfterFragments(enc, e, channels, frags'),
              AfterAll(dec, d, PacketsOf(enc, e, channels, frags')))
  {
    FragmentSnoc(enc, e, channels, frags, data);
    AudioSnoc(enc, e, channels, frags, data);
    var packets := PacketsOf(enc, e, channels, frags);
    var e1, d1 := AfterFragments(enc, e, channels, frags), AfterAll(dec, d, packets);
    var out := EncodeFragment(enc, e1, channels, data);
    if out.packet != [] {
      FrameIsFragmentFront(channels, data);
      DecodeSnoc(dec, d, packets, out.packet);
      SentFrameDecodes(enc, dec, sync, e1, d1, FrameOf(channels, data).value);
    } else {
      assert packets + [] == packets;
      AddNothing(AudioOf(enc, e, channels, frags));
      if FrameOf(channels, data).Some? {
        SentFrameDecodes(enc, dec, sync, e1, d1, FrameOf(channels, data).value);
      }
    }
  }

  lemma SentFrameDecodes(enc: Encoder, dec: Decoder, sync: (CodecState, CodecState) -> bool,
                         e: CodecState, d: CodecState, frame: StereoFrame)
    requires Inverts(enc, dec, sync) && sync(e, d) && enc(e, frame).Encoded?
    ensures Undoes(dec, d, frame, enc(e, frame), sync)
  {
  }
}
