/**
 * The sample arithmetic of the microphone pipeline. Samples are 16-bit signed
 * integers; the numeric work of the FFT resampler is abstract and only the
 * number of samples it produces is modelled.
 */
module Audio {
  import opened Bytes

  /** The rate the speech detector requires. */
  const VadSampleRate: nat := 16000
  /** The exact frame length the speech detector requires at that rate. */
  const VadChunkSamples: nat := 512

  type Sample = x: int | -0x8000 <= x < 0x8000

  /**
   * A resampler stands for `scipy.signal.resample(audio, n)` cast back to
   * int16: some function of the input that returns exactly n samples. scipy
   * rejects an empty input or n = 0 with an error; here those cases give the
   * empty sequence.
   */
  type Resampler = f: (seq<Sample>, nat) -> seq<Sample> | forall s, n :: |f(s, n)| == n
    witness (s: seq<Sample>, n: nat) => seq(n, _ => 0)

  /** `int(len * target_sr / orig_sr)`, the number of samples `_resample` asks for. */
  function ResampleLength(len: nat, origRate: nat, targetRate: nat): (n: nat)
    requires origRate > 0
    ensures n * origRate <= len * targetRate < (n + 1) * origRate
  {
    len * targetRate / origRate
  }

  /** `_resample`: the identity when the rates agree, otherwise a resampling to the scaled length. */
  function Resample(f: Resampler, audio: seq<Sample>, origRate: nat, targetRate: nat): (r: seq<Sample>)
    requires origRate == targetRate || origRate > 0
    ensures origRate == targetRate ==> r == audio
    ensures origRate != targetRate ==> |r| * origRate <= |audio| * targetRate < (|r| + 1) * origRate
    ensures |audio| == 0 ==> |r| == 0
  {
    if origRate == targetRate then audio
    else f(audio, ResampleLength(|audio|, origRate, targetRate))
  }

  /** The block size the input stream is opened with: `int(512 * device_rate / 16000)`. */
  function ChunkSize(deviceRate: nat): (c: nat)
    ensures c * VadSampleRate <= VadChunkSamples * deviceRate < (c + 1) * VadSampleRate
  {
    VadChunkSamples * deviceRate / VadSampleRate
  }

  /** The block size is positive exactly from a device rate of 32 Hz upwards. */
  lemma ChunkSizePositive(deviceRate: nat)
    ensures ChunkSize(deviceRate) >= 1 <==> deviceRate >= 32
  {
  }

  /** Block sizes at common device rates. */
  lemma ChunkSizeExamples()
    ensures ChunkSize(48000) == 1536
    ensures ChunkSize(44100) == 1411
    ensures ChunkSize(16000) == 512
  {
  }

  /** Multiplying by a positive rate preserves the order of two integers, in both directions. */
  lemma MulLeCancel(a: int, b: int, r: int)
    requires r > 0 && a * r <= b * r
    ensures a <= b
  {
  }

  lemma MulLtCancel(a: int, b: int, r: int)
    requires r > 0 && a * r < b * r
    ensures a < b
  {
  }

  /** A block resampled to 16 kHz never exceeds one detector frame. */
  lemma {:induction false} ResampledBlockAtMostFrame(deviceRate: nat)
    requires deviceRate > 0
    ensures ResampleLength(ChunkSize(deviceRate), deviceRate, VadSampleRate) <= VadChunkSamples
  {
    var c := ChunkSize(deviceRate);
    var n := ResampleLength(c, deviceRate, VadSampleRate);
    assert n * deviceRate <= 512 * deviceRate;
    MulLeCancel(n, 512, deviceRate);
  }

  /** If the block resamples to a whole frame, the device rate is a multiple of 125. */
  lemma {:induction false} FullFrameNeedsMultipleOf125(deviceRate: nat)
    requires deviceRate > 0
    requires ResampleLength(ChunkSize(deviceRate), deviceRate, VadSampleRate) == VadChunkSamples
    ensures deviceRate % 125 == 0
  {
    var c := ChunkSize(deviceRate);
    assert 512 * deviceRate <= c * 16000;
    assert c * 16000 == 512 * deviceRate;
    assert c * 125 == 4 * deviceRate;
    var k := deviceRate - 31 * c;
    assert c == 4 * k;
    assert deviceRate == 125 * k;
  }

  /** If the device rate is a multiple of 125, the block resamples to exactly one frame. */
  lemma {:induction false} MultipleOf125GivesFullFrame(deviceRate: nat)
    requires deviceRate > 0 && deviceRate % 125 == 0
    ensures ResampleLength(ChunkSize(deviceRate), deviceRate, VadSampleRate) == VadChunkSamples
  {
    var k := deviceRate / 125;
    var c := ChunkSize(deviceRate);
    assert c * 16000 <= 64000 * k < (c + 1) * 16000;
    MulLeCancel(c, 4 * k, 16000);
    MulLtCancel(4 * k, c + 1, 16000);
    assert c == 4 * k;
    var n := ResampleLength(c, deviceRate, VadSampleRate);
    assert n * deviceRate <= 512 * deviceRate < (n + 1) * deviceRate;
    MulLeCancel(n, 512, deviceRate);
    MulLtCancel(512, n + 1, deviceRate);
  }

  /**
   * The block is the floor of the ideal size, never larger, so its resampled
   * length reaches a whole frame exactly when 125 divides the device rate.
   */
  lemma ResampledBlockIsFullFrameIff(deviceRate: nat)
    requires deviceRate > 0
    ensures ResampleLength(ChunkSize(deviceRate), deviceRate, VadSampleRate) == VadChunkSamples
            <==> deviceRate % 125 == 0
  {
    if deviceRate % 125 == 0 {
      MultipleOf125GivesFullFrame(deviceRate);
    }
    if ResampleLength(ChunkSize(deviceRate), deviceRate, VadSampleRate) == VadChunkSamples {
      FullFrameNeedsMultipleOf125(deviceRate);
    }
  }

  /** Each block of a device at 32 Hz or faster resamples to at least one sample. */
  lemma {:induction false} ResampledBlockNonEmpty(deviceRate: nat)
    requires deviceRate >= 32
    ensures ResampleLength(ChunkSize(deviceRate), deviceRate, VadSampleRate) >= 1
  {
    var c := ChunkSize(deviceRate);
    assert c * 16000 > 512 * deviceRate - 16000;
    assert c * 16000 >= deviceRate;
  }

  /** At 44100 Hz a block of 1411 samples becomes 511 samples at 16 kHz: one short of a frame. */
  lemma BlockAt44100IsOneShort()
    ensures ResampleLength(ChunkSize(44100), 44100, VadSampleRate) == 511
  {
    ChunkSizeExamples();
    assert 1411 * 16000 == 22576000;
  }

  function Zeros(n: nat): (z: seq<Sample>)
    ensures |z| == n
    ensures forall i :: 0 <= i < n ==> z[i] == 0
  {
    seq(n, _ => 0)
  }

  /** The truncate-or-pad step: keep the first 512 samples and fill any shortfall with silence. */
  function FitToFrame(s: seq<Sample>): (r: seq<Sample>)
    ensures |r| == VadChunkSamples
    ensures forall i :: 0 <= i < VadChunkSamples && i < |s| ==> r[i] == s[i]
    ensures forall i :: |s| <= i < VadChunkSamples ==> r[i] == 0
  {
    if |s| > VadChunkSamples then s[..VadChunkSamples]
    else if |s| < VadChunkSamples then s + Zeros(VadChunkSamples - |s|)
    else s
  }

  /** `_resample_to_vad_chunk`: resample to 16 kHz unless the device already runs at 16 kHz, then fit to 512 samples. */
  function ResampleToVadChunk(f: Resampler, deviceRate: nat, audio: seq<Sample>): (r: seq<Sample>)
    requires deviceRate > 0
    ensures |r| == VadChunkSamples
    ensures deviceRate == VadSampleRate ==> r == FitToFrame(audio)
    ensures deviceRate != VadSampleRate ==> r == FitToFrame(f(audio, ResampleLength(|audio|, deviceRate, VadSampleRate)))
  {
    var resampled := if deviceRate != VadSampleRate then Resample(f, audio, deviceRate, VadSampleRate) else audio;
    FitToFrame(resampled)
  }

  /**
   * For a block of the size the stream delivers, the fit step only ever pads:
   * the frame is the whole resampled block followed by silence.
   */
  lemma CallbackBlockOnlyPads(f: Resampler, deviceRate: nat, block: seq<Sample>)
    requires deviceRate > 0
    requires |block| == ChunkSize(deviceRate)
    ensures var resampled := Resample(f, block, deviceRate, VadSampleRate);
            |resampled| <= VadChunkSamples
            && ResampleToVadChunk(f, deviceRate, block) == resampled + Zeros(VadChunkSamples - |resampled|)
  {
    var resampled := Resample(f, block, deviceRate, VadSampleRate);
    if deviceRate != VadSampleRate {
      ResampledBlockAtMostFrame(deviceRate);
    }
    var r := ResampleToVadChunk(f, deviceRate, block);
    assert r == resampled + Zeros(VadChunkSamples - |resampled|);
  }

  // ---------------------------------------------------------------------------
  // 16-bit little-endian PCM, the byte layout `ndarray.tobytes()` gives int16 audio

  function EncodeSample(x: Sample): (b: seq<Byte>)
    ensures |b| == 2
  {
    var u := if x < 0 then x + 0x1_0000 else x;
    [u % 0x100, u / 0x100]
  }

  function DecodeSample(lo: Byte, hi: Byte): Sample
  {
    var u := lo + 0x100 * hi;
    if u >= 0x8000 then u - 0x1_0000 else u
  }

  lemma SampleRoundTrip(x: Sample)
    ensures DecodeSample(EncodeSample(x)[0], EncodeSample(x)[1]) == x
  {
  }

  lemma BytesRoundTrip(lo: Byte, hi: Byte)
    ensures EncodeSample(DecodeSample(lo, hi)) == [lo, hi]
  {
  }

  /** `tobytes()`: two bytes per sample, low byte first. */
  function ToBytes(s: seq<Sample>): (b: seq<Byte>)
    ensures |b| == 2 * |s|
  {
    if |s| == 0 then [] else EncodeSample(s[0]) + ToBytes(s[1..])
  }

  /** Reading 16-bit little-endian PCM back into samples; a trailing odd byte is ignored. */
  function FromBytes(b: seq<Byte>): (s: seq<Sample>)
    ensures |s| == |b| / 2
  {
    if |b| < 2 then [] else [DecodeSample(b[0], b[1])] + FromBytes(b[2..])
  }

  /** Encoding loses nothing: decoding the bytes gives the samples back. */
  lemma {:induction false} PcmRoundTrip(s: seq<Sample>)
    ensures FromBytes(ToBytes(s)) == s
  {
    if |s| > 0 {
      var b := ToBytes(s);
      SampleRoundTrip(s[0]);
      assert b[2..] == ToBytes(s[1..]);
      PcmRoundTrip(s[1..]);
    }
  }

  /** Every even-length byte string is the encoding of some audio. */
  lemma {:induction false} PcmRoundTripBytes(b: seq<Byte>)
    requires |b| % 2 == 0
    ensures ToBytes(FromBytes(b)) == b
  {
    if |b| > 0 {
      BytesRoundTrip(b[0], b[1]);
      PcmRoundTripBytes(b[2..]);
      assert b == [b[0], b[1]] + b[2..];
    }
  }
}
