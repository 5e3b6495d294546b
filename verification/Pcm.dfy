/** Raw audio: bytes, 16-bit samples and their little-endian layout (S16LE). */
module Pcm {
  type byte = x: int | 0 <= x < 0x100
  type int16 = x: int | -0x8000 <= x < 0x8000

  /** An Opus payload as it travels in one RTP frame. */
  type Packet = seq<byte>

  /** Samples per channel in 20 ms at 48 kHz. */
  const FRAME_SAMPLES: nat := 960

  /** Bytes of a 20 ms stereo frame. */
  const FRAME_BYTES: nat := 3840

  function Low(s: int16): byte { s % 0x100 }

  function High(s: int16): byte { (s / 0x100) % 0x100 }

  function ToSample(lo: byte, hi: byte): int16 {
    var u := lo + 0x100 * hi;
    if u < 0x8000 then u else u - 0x1_0000
  }

  /** The memory of a sample buffer, read as bytes. */
  function ToBytes(samples: seq<int16>): (bytes: seq<byte>)
    ensures |bytes| == 2 * |samples|
  {
    if samples == [] then []
    else
      var n := |samples| - 1;
      ToBytes(samples[..n]) + [Low(samples[n]), High(samples[n])]
  }

  /** The first k samples of a byte buffer. */
  function SamplesUpTo(bytes: seq<byte>, k: nat): (samples: seq<int16>)
    requires 2 * k <= |bytes|
    ensures |samples| == k
  {
    if k == 0 then []
    else SamplesUpTo(bytes, k - 1) + [ToSample(bytes[2 * k - 2], bytes[2 * k - 1])]
  }

  /** A byte buffer, read as samples; an odd last byte belongs to no sample. */
  function ToSamples(bytes: seq<byte>): (samples: seq<int16>)
    ensures |samples| == |bytes| / 2
  {
    SamplesUpTo(bytes, |bytes| / 2)
  }

  /** A mono buffer with every sample repeated for both channels. */
  function Upmix(mono: seq<int16>): (stereo: seq<int16>)
    ensures |stereo| == 2 * |mono|
  {
    if mono == [] then []
    else
      var n := |mono| - 1;
      Upmix(mono[..n]) + [mono[n], mono[n]]
  }

  /** The same on bytes: each of the first k pairs repeated. */
  function RepeatPairs(bytes: seq<byte>, k: nat): (twice: seq<byte>)
    requires 2 * k <= |bytes|
    ensures |twice| == 4 * k
  {
    if k == 0 then []
    else
      var lo, hi := bytes[2 * k - 2], bytes[2 * k - 1];
      RepeatPairs(bytes, k - 1) + [lo, hi, lo, hi]
  }

  lemma SampleRoundTrip(s: int16)
    ensures ToSample(Low(s), High(s)) == s
  {
    if s < 0 {
      assert s / 0x100 == (s + 0x1_0000) / 0x100 - 0x100;
    }
  }

  lemma ByteRoundTrip(lo: byte, hi: byte)
    ensures Low(ToSample(lo, hi)) == lo && High(ToSample(lo, hi)) == hi
  {
    var u := lo + 0x100 * hi;
    var s := ToSample(lo, hi);
    assert s == 0x100 * (if u < 0x8000 then hi else hi - 0x100) + lo;
  }

  /** S16LE: two bytes make the sample that has their value modulo 2^16, low byte first. */
  lemma TwosComplement(s: int16, lo: byte, hi: byte)
    ensures Low(s) + 0x100 * High(s) == s % 0x1_0000
    ensures ToSample(lo, hi) % 0x1_0000 == lo + 0x100 * hi
  {
    if s < 0 {
      assert s / 0x100 == (s + 0x1_0000) / 0x100 - 0x100;
    }
  }

  /** The two bytes of the i-th sample in memory. */
  lemma {:induction false} ToBytesAt(samples: seq<int16>, i: nat)
    requires i < |samples|
    ensures var lo: int, hi: int, sample: int := ToBytes(samples)[2 * i], ToBytes(samples)[2 * i + 1], samples[i];
      lo + 0x100 * hi == sample % 0x1_0000
  {
    var n := |samples| - 1;
    TwosComplement(samples[n], 0, 0);
    if i < n {
      ToBytesAt(samples[..n], i);
    }
  }

  /** The i-th sample of a byte buffer. */
  lemma {:induction false} ToSamplesAt(bytes: seq<byte>, i: nat)
    requires i < |bytes| / 2
    ensures var lo: int, hi: int, sample: int := bytes[2 * i], bytes[2 * i + 1], ToSamples(bytes)[i];
      sample % 0x1_0000 == lo + 0x100 * hi
  {
    SamplesPrefix(bytes, i + 1, |bytes| / 2);
    assert ToSamples(bytes)[i] == ToSamples(bytes)[..i + 1][i];
    TwosComplement(0, bytes[2 * i], bytes[2 * i + 1]);
  }

  /** Upmixing puts each sample on both channels. */
  lemma {:induction false} UpmixAt(mono: seq<int16>, i: nat)
    requires i < |mono|
    ensures Upmix(mono)[2 * i] == Upmix(mono)[2 * i + 1] == mono[i]
  {
    var n := |mono| - 1;
    if i < n {
      UpmixAt(mono[..n], i);
    }
  }

  /** Repeating pairs, byte by byte. */
  lemma {:induction false} RepeatPairsAt(bytes: seq<byte>, k: nat, i: nat)
    requires 2 * k <= |bytes| && i < 4 * k
    ensures 2 * (i / 4) + i % 2 < |bytes|
    ensures RepeatPairs(bytes, k)[i] == bytes[2 * (i / 4) + i % 2]
  {
    if i < 4 * (k - 1) {
      RepeatPairsAt(bytes, k - 1, i);
    }
  }

  lemma ToBytesSnoc(samples: seq<int16>, s: int16)
    ensures ToBytes(samples + [s]) == ToBytes(samples) + [Low(s), High(s)]
  {
    assert (samples + [s])[..|samples|] == samples;
  }

  lemma UpmixSnoc(mono: seq<int16>, s: int16)
    ensures Upmix(mono + [s]) == Upmix(mono) + [s, s]
  {
    assert (mono + [s])[..|mono|] == mono;
  }

  /** The bytes of the first k samples are the first 2k bytes. */
  lemma {:induction false} ToBytesPrefix(samples: seq<int16>, k: nat)
    requires k <= |samples|
    ensures ToBytes(samples)[..2 * k] == ToBytes(samples[..k])
  {
    var n := |samples| - 1;
    if k < |samples| {
      ToBytesPrefix(samples[..n], k);
      assert samples[..n][..k] == samples[..k];
    } else {
      assert samples[..k] == samples;
    }
  }

  lemma {:induction false} SamplesPrefix(bytes: seq<byte>, k: nat, n: nat)
    requires k <= n && 2 * n <= |bytes|
    ensures SamplesUpTo(bytes, n)[..k] == SamplesUpTo(bytes, k)
  {
    if k < n {
      SamplesPrefix(bytes, k, n - 1);
      assert SamplesUpTo(bytes, n)[..k] == SamplesUpTo(bytes, n - 1)[..k];
    }
  }

  lemma {:induction false} SamplesBack(samples: seq<int16>, k: nat)
    requires k <= |samples|
    ensures SamplesUpTo(ToBytes(samples), k) == samples[..k]
  {
    if k > 0 {
      SamplesBack(samples, k - 1);
      SampleRoundTrip(samples[k - 1]);
      var bytes := ToBytes(samples);
      ToBytesPrefix(samples, k);
      assert samples[..k] == samples[..k - 1] + [samples[k - 1]];
      ToBytesSnoc(samples[..k - 1], samples[k - 1]);
      assert bytes[2 * k - 2] == bytes[..2 * k][2 * k - 2] && bytes[2 * k - 1] == bytes[..2 * k][2 * k - 1];
    }
  }

  /** Writing samples to memory and reading them back loses nothing. */
  lemma SamplesRoundTrip(samples: seq<int16>)
    ensures ToSamples(ToBytes(samples)) == samples
  {
    SamplesBack(samples, |samples|);
  }

  lemma {:induction false} BytesBack(bytes: seq<byte>, k: nat)
    requires 2 * k <= |bytes|
    ensures ToBytes(SamplesUpTo(bytes, k)) == bytes[..2 * k]
  {
    if k > 0 {
      var lo, hi := bytes[2 * k - 2], bytes[2 * k - 1];
      BytesBack(bytes, k - 1);
      ByteRoundTrip(lo, hi);
      ToBytesSnoc(SamplesUpTo(bytes, k - 1), ToSample(lo, hi));
    }
  }

  /** Samples read from a buffer's front are the buffer's own first bytes. */
  lemma BytesOfPrefix(bytes: seq<byte>, k: nat)
    requires 2 * k <= |bytes|
    ensures ToBytes(ToSamples(bytes)[..k]) == bytes[..2 * k]
  {
    SamplesPrefix(bytes, k, |bytes| / 2);
    BytesBack(bytes, k);
  }

  lemma {:induction false} UpmixBack(bytes: seq<byte>, k: nat)
    requires 2 * k <= |bytes|
    ensures ToBytes(Upmix(SamplesUpTo(bytes, k))) == RepeatPairs(bytes, k)
  {
    if k > 0 {
      var lo, hi := bytes[2 * k - 2], bytes[2 * k - 1];
      var before, s := SamplesUpTo(bytes, k - 1), ToSample(lo, hi);
      UpmixBack(bytes, k - 1);
      ByteRoundTrip(lo, hi);
      UpmixSnoc(before, s);
      assert Upmix(before) + [s, s] == Upmix(before) + [s] + [s];
      ToBytesSnoc(Upmix(before), s);
      ToBytesSnoc(Upmix(before) + [s], s);
    }
  }

  /** Upmixing the first k samples of a buffer repeats its first k pairs of bytes. */
  lemma UpmixOfPrefix(bytes: seq<byte>, k: nat)
    requires 2 * k <= |bytes|
    ensures ToBytes(Upmix(ToSamples(bytes)[..k])) == RepeatPairs(bytes, k)
  {
    SamplesPrefix(bytes, k, |bytes| / 2);
    UpmixBack(bytes, k);
  }
}
