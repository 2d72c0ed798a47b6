/**
  The audio side of narration: 16-bit PCM samples read from a byte payload, and the
  Web Audio `AudioBuffer` they are copied into. Samples are exact rationals: a sample
  value `v` is stored as `v / 32768` instead of a 32-bit float.
*/
module Audio {
  import opened Types

  /** Sample `k` of the payload viewed as an `Int16Array`: bytes `2k` and `2k+1`, little-endian, two's complement. */
  function Int16At(bytes: seq<Byte>, k: int): (v: int)
    requires 0 <= k && 2 * k + 1 < |bytes|
    ensures -32768 <= v <= 32767
    ensures (v + 65536) % 65536 == (bytes[2 * k] as int) + 256 * (bytes[2 * k + 1] as int)
  {
    var u := (bytes[2 * k] as int) + 256 * (bytes[2 * k + 1] as int);
    if u >= 32768 then u - 65536 else u
  }

  /** Division by 32768 maps every 16-bit sample into [-1, 32767/32768], and loses nothing. */
  function Normalize(v: int): (r: real)
    requires -32768 <= v <= 32767
    ensures -1.0 <= r <= 32767.0 / 32768.0
    ensures r * 32768.0 == v as real
  {
    v as real / 32768.0
  }

  /** `frameCount`: the number of 16-bit samples divided among the channels, rounded down. */
  function FrameCount(byteLength: nat, numChannels: int): (frames: nat)
    requires numChannels >= 1
    ensures frames * numChannels <= byteLength / 2 < (frames + 1) * numChannels
  {
    byteLength / 2 / numChannels
  }

  /** Interleaved layout: frame `i` of channel `c` is 16-bit sample `i * n + c`, which lies within the payload. */
  lemma FrameIndexInRange(i: int, c: int, n: int, samples: nat)
    requires n >= 1 && 0 <= c < n && 0 <= i < samples / n
    ensures 0 <= i * n + c < samples
  {
    assert (i + 1) * n <= samples / n * n by {
      MulMonotone(i + 1, samples / n, n);
    }
  }

  lemma MulMonotone(a: int, b: int, n: int)
    requires 0 <= a <= b && 0 <= n
    ensures a * n <= b * n
  {
  }

  /** Sample `i` of channel `c` after de-interleaving an `n`-channel payload. */
  function Sample(bytes: seq<Byte>, n: int, c: int, i: int): real
    requires n >= 1 && 0 <= c < n && 0 <= i < FrameCount(|bytes|, n)
  {
    FrameIndexInRange(i, c, n, |bytes| / 2);
    Normalize(Int16At(bytes, i * n + c))
  }

  /** Every sample lies in [-1, 32767/32768]. */
  lemma SampleBounds(bytes: seq<Byte>, n: int, c: int, i: int)
    requires n >= 1 && 0 <= c < n && 0 <= i < FrameCount(|bytes|, n)
    ensures -1.0 <= Sample(bytes, n, c, i) <= 32767.0 / 32768.0
  {
  }

  /** De-interleaving covers the payload: each of the first `frameCount * n` 16-bit samples lands in channel `k % n` at frame `k / n`. */
  lemma DeinterleaveCovers(bytes: seq<Byte>, n: int, k: int)
    requires n >= 1 && 0 <= k < FrameCount(|bytes|, n) * n
    ensures 0 <= k / n < FrameCount(|bytes|, n)
    ensures 2 * k + 1 < |bytes|
    ensures Sample(bytes, n, k % n, k / n) == Normalize(Int16At(bytes, k))
  {
    var f := FrameCount(|bytes|, n);
    var q, r := k / n, k % n;
    assert q * n + r == k && 0 <= r < n;
    QuotientBelow(k, n, f);
    FrameIndexInRange(q, r, n, |bytes| / 2);
  }

  lemma QuotientBelow(k: int, n: int, f: int)
    requires n >= 1 && 0 <= k < f * n
    ensures 0 <= k / n < f
  {
    if k / n >= f {
      MulMonotone(f, k / n, n);
      assert false;
    }
  }

  /** An `AudioBuffer` of `numberOfChannels` channels of `length` frames; `samples[c, i]` is `getChannelData(c)[i]`. */
  class AudioBuffer {
    const numberOfChannels: nat
    const length: nat
    const sampleRate: int
    const samples: array2<real>

    /** `createBuffer`: a buffer of silence. */
    constructor (numberOfChannels: nat, length: nat, sampleRate: int)
      ensures this.numberOfChannels == numberOfChannels && this.length == length && this.sampleRate == sampleRate
      ensures fresh(samples) && samples.Length0 == numberOfChannels && samples.Length1 == length
      ensures forall c, i :: 0 <= c < numberOfChannels && 0 <= i < length ==> samples[c, i] == 0.0
    {
      this.numberOfChannels := numberOfChannels;
      this.length := length;
      this.sampleRate := sampleRate;
      samples := new real[numberOfChannels, length]((c, i) => 0.0);
    }
  }

  /**
    The arguments `createBuffer` accepts (otherwise it throws NotSupportedError): 1 to 32
    channels, at least one frame, and a sample rate from 3000 to 768000 Hz (Chromium's range).
  */
  predicate CreateBufferAccepts(numberOfChannels: int, length: int, sampleRate: int) {
    1 <= numberOfChannels <= 32 && 1 <= length && 3000 <= sampleRate <= 768000
  }
}
