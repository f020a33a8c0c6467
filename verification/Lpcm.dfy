/**
  LPCM samples between WAV order and Blu-ray order (tsMuxer/lpcmStreamReader.cpp): byte order,
  channel order and the padding channel, changed in place.
  */
module Lpcm {
  import opened Bits

  // ------------------------------------------------------------------ cutting a sequence into equal pieces

  /** Pieces of `n` elements; what does not fill one is dropped. */
  function Chunk<T>(s: seq<T>, n: nat): (r: seq<seq<T>>)
    requires n > 0
    ensures forall i :: 0 <= i < |r| ==> |r[i]| == n
    decreases |s|
  {
    if |s| < n then [] else [s[..n]] + Chunk(s[n..], n)
  }

  function Flat<T>(r: seq<seq<T>>): seq<T> {
    if r == [] then [] else r[0] + Flat(r[1..])
  }

  predicate AllOf<T>(r: seq<seq<T>>, n: nat) { forall i :: 0 <= i < |r| ==> |r[i]| == n }

  lemma {:induction false} FlatLength<T>(r: seq<seq<T>>, n: nat)
    requires AllOf(r, n)
    ensures |Flat(r)| == |r| * n
  {
    if r != [] {
      FlatLength(r[1..], n);
      assert (|r| - 1) * n + n == |r| * n;
    }
  }

  lemma {:induction false} ChunkFlat<T>(r: seq<seq<T>>, n: nat)
    requires n > 0 && AllOf(r, n)
    ensures Chunk(Flat(r), n) == r
  {
    if r != [] {
      ChunkFlat(r[1..], n);
      assert Flat(r)[..n] == r[0] && Flat(r)[n..] == Flat(r[1..]);
    }
  }

  lemma {:induction false} FlatChunk<T>(s: seq<T>, n: nat, k: nat)
    requires n > 0 && |s| == k * n
    ensures Flat(Chunk(s, n)) == s && |Chunk(s, n)| == k
    decreases k
  {
    if k > 0 {
      MulGrows(k, n);
      assert (k - 1) * n == k * n - n;
      FlatChunk(s[n..], n, k - 1);
      assert Chunk(s, n)[1..] == Chunk(s[n..], n);
    }
  }

  /** Piece `i` stands at `i * n`. */
  lemma {:induction false} ChunkAt<T>(s: seq<T>, n: nat, i: nat)
    requires n > 0 && (i + 1) * n <= |s|
    ensures i < |Chunk(s, n)| && i * n + n == (i + 1) * n && Chunk(s, n)[i] == s[i * n..i * n + n]
    decreases i
  {
    assert (i + 1) * n == i * n + n;
    MulMonotone(0, i, n);
    if i > 0 {
      assert (i - 1) * n == i * n - n;
      ChunkAt(s[n..], n, i - 1);
      assert s[n..][(i - 1) * n..i * n] == s[i * n..i * n + n];
    }
  }

  /** Exchanging piece `i` exchanges it alone. */
  lemma {:induction false} ChunkUpdate<T>(s: seq<T>, s': seq<T>, n: nat, i: nat, x: seq<T>)
    requires n > 0 && (i + 1) * n <= |s| && |x| == n && 0 <= i * n <= |s| && i * n + n == (i + 1) * n
    requires s' == s[..i * n] + x + s[i * n + n..]
    ensures i < |Chunk(s, n)| && Chunk(s', n) == Chunk(s, n)[i := x]
    decreases i
  {
    if i == 0 {
      assert s' == x + s[n..];
      assert s'[..n] == x && s'[n..] == s[n..];
    } else {
      MulMonotone(1, i, n);
      assert (i - 1) * n == i * n - n;
      var t, t' := s[n..], s'[n..];
      assert s'[..n] == s[..n];
      assert t' == t[..(i - 1) * n] + x + t[(i - 1) * n + n..];
      ChunkUpdate(t, t', n, i - 1, x);
    }
  }

  // ------------------------------------------------------------------ samples and frames

  type Sample = seq<Byte>

  /** One sample of every channel. */
  type Frame = seq<Sample>

  function Reversed(x: Sample): (r: Sample)
    ensures |r| == |x|
  {
    seq(|x|, i requires 0 <= i < |x| => x[|x| - 1 - i])
  }

  /** Blu-ray order: the LFE channel goes behind the others; 7 and 8 channels also move their surrounds. */
  function Remap(f: Frame, channels: nat): (r: Frame)
    requires |f| >= channels
    ensures |r| == |f|
  {
    if channels == 6 then f[3 := f[4]][4 := f[5]][5 := f[3]]
    else if channels == 7 then f[3 := f[5]][5 := f[4]][4 := f[3]]
    else if channels == 8 then f[3 := f[6]][6 := f[7]][7 := f[3]]
    else f
  }

  /** WAV order again. */
  function Unmap(f: Frame, channels: nat): (r: Frame)
    requires |f| >= channels
    ensures |r| == |f|
  {
    if channels == 6 then f[5 := f[4]][4 := f[3]][3 := f[5]]
    else if channels == 7 then f[3 := f[4]][4 := f[5]][5 := f[3]]
    else if channels == 8 then f[7 := f[6]][6 := f[3]][3 := f[7]]
    else f
  }

  /** Bytes of a sample: 20 bits are stored in three. */
  function SampleSize(bits: nat): nat { if bits == 20 then 3 else bits / 8 }

  predicate Supported(channels: nat, bits: nat) { 1 <= channels <= 8 && bits in {16, 20, 24} }

  /** Channels of a Blu-ray frame: an odd number is padded. */
  function Padded(channels: nat): (mch: nat)
    ensures mch >= channels
  {
    if channels % 2 == 1 then channels + 1 else channels
  }

  function Silence(size: nat): Sample { seq(size, _ => 0) }

  function ReversedAll(f: Frame): (r: Frame)
    ensures |r| == |f|
  {
    seq(|f|, i requires 0 <= i < |f| => Reversed(f[i]))
  }

  /** One frame to Blu-ray order, and back. */
  function FrameToPcm(f: Frame, channels: nat, size: nat): Frame
    requires |f| == channels
  {
    Remap(ReversedAll(f), channels) + if channels % 2 == 1 then [Silence(size)] else []
  }

  function FrameToWav(f: Frame, channels: nat): Frame
    requires |f| == Padded(channels)
  {
    Unmap(ReversedAll(f), channels)[..channels]
  }

  predicate WellSized(f: Frame, channels: nat, size: nat) { |f| == channels && AllOf(f, size) }

  lemma UnmapRemap(f: Frame, channels: nat)
    requires |f| >= channels
    ensures Unmap(Remap(f, channels), channels) == f && Remap(Unmap(f, channels), channels) == f
  {}

  lemma ReversedTwice(x: Sample)
    ensures Reversed(Reversed(x)) == x
  {}

  lemma ReversedAllTwice(f: Frame)
    ensures ReversedAll(ReversedAll(f)) == f
  {
    hide Reversed;
    forall i | 0 <= i < |f|
      ensures ReversedAll(ReversedAll(f))[i] == f[i]
    {
      ReversedTwice(f[i]);
    }
  }

  /** The order of channels and the order of bytes do not get in each other's way. */
  lemma RemapReversed(f: Frame, channels: nat)
    requires |f| >= channels
    ensures ReversedAll(Remap(f, channels)) == Remap(ReversedAll(f), channels)
    ensures ReversedAll(Unmap(f, channels)) == Unmap(ReversedAll(f), channels)
  {
    hide Reversed;
  }

  /** A frame comes back unchanged. */
  lemma FrameRoundTrip(f: Frame, channels: nat, size: nat)
    requires |f| == channels
    ensures var p := FrameToPcm(f, channels, size); |p| == Padded(channels) && FrameToWav(p, channels) == f
  {
    hide Reversed, Remap, Unmap;
    var p := FrameToPcm(f, channels, size);
    var r := Remap(ReversedAll(f), channels);
    RemapReversed(ReversedAll(f), channels);
    ReversedAllTwice(f);
    assert ReversedAll(r) == Remap(f, channels);
    if channels % 2 == 1 {
      assert ReversedAll(p) == Remap(f, channels) + [Reversed(Silence(size))];
    } else {
      assert p == r;
    }
    UnmapPrefix(Remap(f, channels), ReversedAll(p), channels);
    UnmapRemap(f, channels);
  }

  /** A padding channel at the end is left alone. */
  lemma UnmapPrefix(f: Frame, g: Frame, channels: nat)
    requires |f| == channels && |g| >= channels && g[..channels] == f
    ensures Unmap(g, channels)[..channels] == Unmap(f, channels)
  {}

  /** The other way a frame comes back exactly when its padding channel is silent. */
  lemma PcmFrameRoundTrip(f: Frame, channels: nat, size: nat)
    requires |f| == Padded(channels) && AllOf(f, size)
    ensures FrameToPcm(FrameToWav(f, channels), channels, size) == f <==> (channels % 2 == 1 ==> f[channels] == Silence(size))
  {
    hide Reversed, Remap, Unmap;
    var head := f[..channels];
    var w := FrameToWav(f, channels);
    assert ReversedAll(f)[..channels] == ReversedAll(head);
    UnmapPrefix(ReversedAll(head), ReversedAll(f), channels);
    RemapReversed(Unmap(ReversedAll(head), channels), channels);
    RemapReversed(ReversedAll(head), channels);
    ReversedAllTwice(head);
    UnmapRemap(head, channels);
    assert Remap(ReversedAll(w), channels) == head;
    assert f == head + f[channels..];
  }

  // ------------------------------------------------------------------ whole buffers

  function Frames(s: seq<Byte>, channels: nat, size: nat): (fs: seq<Frame>)
    requires channels > 0 && size > 0
    ensures forall i :: 0 <= i < |fs| ==> |fs[i]| == channels
  {
    Chunk(Chunk(s, size), channels)
  }

  function Bytes(fs: seq<Frame>): seq<Byte> { Flat(Flat(fs)) }

  function AllToPcm(fs: seq<Frame>, channels: nat, size: nat): (r: seq<Frame>)
    requires forall i :: 0 <= i < |fs| ==> |fs[i]| == channels
    ensures |r| == |fs|
  {
    seq(|fs|, i requires 0 <= i < |fs| => FrameToPcm(fs[i], channels, size))
  }

  function AllToWav(fs: seq<Frame>, channels: nat): (r: seq<Frame>)
    requires forall i :: 0 <= i < |fs| ==> |fs[i]| == Padded(channels)
    ensures |r| == |fs|
  {
    seq(|fs|, i requires 0 <= i < |fs| => FrameToWav(fs[i], channels))
  }

  /** The payload made of WAV data: an incomplete frame at the end is dropped. */
  function ToPcm(wav: seq<Byte>, channels: nat, bits: nat): seq<Byte>
    requires Supported(channels, bits)
  {
    Bytes(AllToPcm(Frames(wav, channels, SampleSize(bits)), channels, SampleSize(bits)))
  }

  function ToWav(pcm: seq<Byte>, channels: nat, bits: nat): seq<Byte>
    requires Supported(channels, bits)
  {
    Bytes(AllToWav(Frames(pcm, Padded(channels), SampleSize(bits)), channels))
  }

  predicate SizedFrames(fs: seq<Frame>, channels: nat, size: nat) {
    forall i :: 0 <= i < |fs| ==> WellSized(fs[i], channels, size)
  }

  lemma {:induction false} FlatSized(fs: seq<Frame>, channels: nat, size: nat)
    requires SizedFrames(fs, channels, size)
    ensures AllOf(Flat(fs), size) && AllOf(fs, channels)
  {
    if fs != [] {
      assert WellSized(fs[0], channels, size);
      FlatSized(fs[1..], channels, size);
    }
  }

  /** Frames made into bytes are found again. */
  lemma FramesOfBytes(fs: seq<Frame>, channels: nat, size: nat)
    requires channels > 0 && size > 0 && SizedFrames(fs, channels, size)
    ensures Frames(Bytes(fs), channels, size) == fs
  {
    FlatSized(fs, channels, size);
    ChunkFlat(Flat(fs), size);
    ChunkFlat(fs, channels);
  }

  /** Whole frames made of bytes are the bytes. */
  lemma BytesOfFrames(s: seq<Byte>, channels: nat, size: nat, n: nat)
    requires channels > 0 && size > 0 && |s| == n * channels * size
    ensures Bytes(Frames(s, channels, size)) == s && |Frames(s, channels, size)| == n
    ensures SizedFrames(Frames(s, channels, size), channels, size)
  {
    FlatChunk(s, size, n * channels);
    FlatChunk(Chunk(s, size), channels, n);
    FramesAreSized(s, channels, size);
  }

  lemma FramesAreSized(s: seq<Byte>, channels: nat, size: nat)
    requires channels > 0 && size > 0
    ensures SizedFrames(Frames(s, channels, size), channels, size)
  {
    PiecesKeep(Chunk(s, size), channels, size);
  }

  lemma {:induction false} PiecesKeep(r: seq<Sample>, n: nat, size: nat)
    requires n > 0 && AllOf(r, size)
    ensures SizedFrames(Chunk(r, n), n, size)
    decreases |r|
  {
    if |r| >= n {
      PiecesKeep(r[n..], n, size);
    }
  }

  lemma PcmIsSized(f: Frame, channels: nat, size: nat)
    requires WellSized(f, channels, size)
    ensures WellSized(FrameToPcm(f, channels, size), Padded(channels), size)
  {
    hide Reversed;
  }

  lemma WavIsSized(f: Frame, channels: nat, size: nat)
    requires WellSized(f, Padded(channels), size)
    ensures WellSized(FrameToWav(f, channels), channels, size)
  {
    hide Reversed;
  }

  /** WAV data of whole frames survives the way to the payload and back, for every channel count and depth. */
  lemma WavRoundTrip(wav: seq<Byte>, channels: nat, bits: nat, n: nat)
    requires Supported(channels, bits) && |wav| == n * channels * SampleSize(bits)
    ensures ToWav(ToPcm(wav, channels, bits), channels, bits) == wav
  {
    hide Frames, Bytes, FrameToPcm, FrameToWav;
    var size := SampleSize(bits);
    var fs := Frames(wav, channels, size);
    var ps := AllToPcm(fs, channels, size);
    BytesOfFrames(wav, channels, size, n);
    forall i | 0 <= i < |fs|
      ensures WellSized(ps[i], Padded(channels), size) && FrameToWav(ps[i], channels) == fs[i]
    {
      assert WellSized(fs[i], channels, size);
      PcmIsSized(fs[i], channels, size);
      FrameRoundTrip(fs[i], channels, size);
    }
    FramesOfBytes(ps, Padded(channels), size);
    assert AllToWav(ps, channels) == fs;
  }

  /** The padding channels of a payload are silent. */
  predicate PaddingSilent(fs: seq<Frame>, channels: nat, size: nat) {
    channels % 2 == 1 ==> forall i :: 0 <= i < |fs| ==> |fs[i]| > channels && fs[i][channels] == Silence(size)
  }

  /** A payload survives the other way exactly when its padding is silent. */
  lemma PcmRoundTrip(pcm: seq<Byte>, channels: nat, bits: nat, n: nat)
    requires Supported(channels, bits) && |pcm| == n * Padded(channels) * SampleSize(bits)
    ensures ToPcm(ToWav(pcm, channels, bits), channels, bits) == pcm
            <==> PaddingSilent(Frames(pcm, Padded(channels), SampleSize(bits)), channels, SampleSize(bits))
  {
    hide Frames, Bytes, FrameToPcm, FrameToWav, Silence;
    var size, mch := SampleSize(bits), Padded(channels);
    var fs := Frames(pcm, mch, size);
    var ws := AllToWav(fs, channels);
    BytesOfFrames(pcm, mch, size, n);
    forall i | 0 <= i < |fs|
      ensures WellSized(ws[i], channels, size) && WellSized(FrameToPcm(ws[i], channels, size), mch, size)
      ensures FrameToPcm(ws[i], channels, size) == fs[i] <==> (channels % 2 == 1 ==> fs[i][channels] == Silence(size))
    {
      assert WellSized(fs[i], mch, size);
      WavIsSized(fs[i], channels, size);
      PcmIsSized(ws[i], channels, size);
      PcmFrameRoundTrip(fs[i], channels, size);
    }
    FramesOfBytes(ws, channels, size);
    var ps := AllToPcm(ws, channels, size);
    FramesOfBytes(ps, mch, size);
    if Bytes(ps) == pcm {
      assert ps == fs;
      assert forall i :: 0 <= i < |fs| ==> ps[i] == fs[i];
    }
    if PaddingSilent(fs, channels, size) {
      assert ps == fs;
    }
  }

  // ------------------------------------------------------------------ addresses

  /** Where a channel's sample stands in the buffer. */
  function Place(channels: nat, size: nat, f: nat, k: nat): nat { (f * channels + k) * size }

  lemma {:induction false} PlaceFits(n: nat, channels: nat, size: nat, f: nat, k: nat)
    requires f < n && k < channels
    ensures f * channels + k < n * channels && Place(channels, size, f, k) + size == (f * channels + k + 1) * size <= n * channels * size
  {
    MulMonotone(f + 1, n, channels);
    assert (f + 1) * channels == f * channels + channels;
    MulMonotone(f * channels + k + 1, n * channels, size);
  }

  /** The bytes of a sample, by its frame and channel. */
  lemma SampleAt(s: seq<Byte>, n: nat, channels: nat, size: nat, f: nat, k: nat)
    requires channels > 0 && size > 0 && |s| == n * channels * size && f < n && k < channels
    ensures var p := Place(channels, size, f, k);
            p + size <= |s| && f < |Frames(s, channels, size)| && Frames(s, channels, size)[f][k] == s[p..p + size]
  {
    hide Chunk;
    var q := f * channels + k;
    PlaceFits(n, channels, size, f, k);
    ChunkAt(s, size, q);
    FlatChunk(s, size, n * channels);
    MulMonotone(f + 1, n, channels);
    ChunkAt(Chunk(s, size), channels, f);
  }

  /** Where the Blu-ray Disc puts a channel of a WAV frame. */
  function PcmPlace(channels: nat, c: nat): (r: nat) {
    match (channels, c)
    case (6, 3) => 5
    case (6, 4) => 3
    case (6, 5) => 4
    case (7, 3) => 4
    case (7, 4) => 5
    case (7, 5) => 3
    case (8, 3) => 7
    case (8, 6) => 3
    case (8, 7) => 6
    case _ => c
  }

  lemma PcmPlaces(f: Frame, g: Frame, channels: nat, c: nat, size: nat)
    requires c < channels == |f| && |g| == Padded(channels)
    ensures |FrameToPcm(f, channels, size)| == Padded(channels) && |FrameToWav(g, channels)| == channels
    ensures PcmPlace(channels, c) < channels && FrameToPcm(f, channels, size)[PcmPlace(channels, c)] == Reversed(f[c])
    ensures FrameToWav(g, channels)[c] == Reversed(g[PcmPlace(channels, c)])
  {
    hide Reversed;
  }

  /** The frames of the payload are those made of the WAV frames. */
  lemma {:induction false} PayloadFrames(wav: seq<Byte>, channels: nat, size: nat, n: nat)
    requires channels > 0 && size > 0 && |wav| == n * channels * size
    ensures var fs := Frames(wav, channels, size);
            var pcm := Bytes(AllToPcm(fs, channels, size));
            && |fs| == n && |pcm| == n * Padded(channels) * size
            && Frames(pcm, Padded(channels), size) == AllToPcm(fs, channels, size)
  {
    hide Frames, Bytes, FrameToPcm, Padded;
    var fs, padded := Frames(wav, channels, size), Padded(channels);
    var ps := AllToPcm(fs, channels, size);
    BytesOfFrames(wav, channels, size, n);
    forall i | 0 <= i < |fs|
      ensures WellSized(ps[i], padded, size)
    {
      assert WellSized(fs[i], channels, size);
      PcmIsSized(fs[i], channels, size);
    }
    FramesOfBytes(ps, padded, size);
    BytesLength(ps, padded, size);
  }

  /**
    The payload, byte by byte: a sample's bytes stand in the opposite order at the place of its channel, two
    for 16 bits and three for more ...
    */
  lemma {:induction false} PcmBytes(wav: seq<Byte>, channels: nat, bits: nat, size: nat, n: nat, k: nat, c: nat, j: nat, from: int, to: int)
    requires 1 <= channels <= 8 && ((bits == 16 && size == 2) || (bits == 20 && size == 3) || (bits == 24 && size == 3))
    requires |wav| == n * channels * size && k < n && c < channels && j < size
    requires var padded := if channels % 2 == 1 then channels + 1 else channels;
             from == (k * channels + c) * size + size - 1 - j && to == (k * padded + PcmPlace(channels, c)) * size + j
    ensures var pcm, padded := ToPcm(wav, channels, bits), if channels % 2 == 1 then channels + 1 else channels;
            |pcm| == n * padded * size && 0 <= from < |wav| && 0 <= to < |pcm| && pcm[to] == wav[from]
  {
    hide Frames, Bytes, FrameToPcm, FrameToWav, PcmPlace;
    var fs, pcm, padded := Frames(wav, channels, size), ToPcm(wav, channels, bits), Padded(channels);
    PayloadFrames(wav, channels, size, n);
    var p := AllToPcm(fs, channels, size)[k];
    PcmPlaces(fs[k], p, channels, c, size);
    SampleAt(wav, n, channels, size, k, c);
    SampleAt(pcm, n, padded, size, k, PcmPlace(channels, c));
    ByteOfSample(wav, Place(channels, size, k, c), size, size - 1 - j, from);
    ByteOfSample(pcm, Place(padded, size, k, PcmPlace(channels, c)), size, j, to);
  }

  /** ... and an odd number of channels is followed by zeros. */
  lemma {:induction false} PcmPadding(wav: seq<Byte>, channels: nat, bits: nat, size: nat, n: nat, k: nat, j: nat, to: int)
    requires channels in {1, 3, 5, 7} && ((bits == 16 && size == 2) || (bits == 20 && size == 3) || (bits == 24 && size == 3))
    requires |wav| == n * channels * size && k < n && j < size && to == (k * (channels + 1) + channels) * size + j
    ensures var pcm := ToPcm(wav, channels, bits); 0 <= to < |pcm| && pcm[to] == 0
  {
    hide Frames, Bytes, FrameToPcm;
    var fs, pcm, padded := Frames(wav, channels, size), ToPcm(wav, channels, bits), Padded(channels);
    assert padded == channels + 1;
    PayloadFrames(wav, channels, size, n);
    assert pcm == Bytes(AllToPcm(fs, channels, size));
    SampleAt(pcm, n, padded, size, k, channels);
    PadsSilence(fs[k], channels, size, j);
    assert AllToPcm(fs, channels, size)[k] == FrameToPcm(fs[k], channels, size);
    ByteOfSample(pcm, Place(padded, size, k, channels), size, j, to);
  }

  lemma {:induction false} WavFrames(pcm: seq<Byte>, channels: nat, size: nat, n: nat)
    requires channels > 0 && size > 0 && |pcm| == n * Padded(channels) * size
    ensures var fs := Frames(pcm, Padded(channels), size);
            var wav := Bytes(AllToWav(fs, channels));
            && |fs| == n && |wav| == n * channels * size
            && Frames(wav, channels, size) == AllToWav(fs, channels)
  {
    hide Frames, Bytes, FrameToWav, Padded;
    var padded := Padded(channels);
    var fs := Frames(pcm, padded, size);
    var ws := AllToWav(fs, channels);
    BytesOfFrames(pcm, padded, size, n);
    forall i | 0 <= i < |fs|
      ensures WellSized(ws[i], channels, size)
    {
      assert WellSized(fs[i], padded, size);
      WavIsSized(fs[i], channels, size);
    }
    FramesOfBytes(ws, channels, size);
    BytesLength(ws, channels, size);
  }

  /** And the WAV data made of a payload, whatever its padding. */
  lemma {:induction false} WavBytes(pcm: seq<Byte>, channels: nat, bits: nat, size: nat, n: nat, k: nat, c: nat, j: nat, from: int, to: int)
    requires 1 <= channels <= 8 && ((bits == 16 && size == 2) || (bits == 20 && size == 3) || (bits == 24 && size == 3))
    requires |pcm| == n * (if channels % 2 == 1 then channels + 1 else channels) * size && k < n && c < channels && j < size
    requires var padded := if channels % 2 == 1 then channels + 1 else channels;
             from == (k * padded + PcmPlace(channels, c)) * size + size - 1 - j && to == (k * channels + c) * size + j
    ensures var wav := ToWav(pcm, channels, bits);
            |wav| == n * channels * size && 0 <= from < |pcm| && 0 <= to < |wav| && wav[to] == pcm[from]
  {
    hide Frames, Bytes, FrameToWav, FrameToPcm, PcmPlace;
    var padded, wav := Padded(channels), ToWav(pcm, channels, bits);
    var fs := Frames(pcm, padded, size);
    WavFrames(pcm, channels, size, n);
    PcmPlaces(AllToWav(fs, channels)[k], fs[k], channels, c, size);
    SampleAt(pcm, n, padded, size, k, PcmPlace(channels, c));
    SampleAt(wav, n, channels, size, k, c);
    ByteOfSample(pcm, Place(padded, size, k, PcmPlace(channels, c)), size, size - 1 - j, from);
    ByteOfSample(wav, Place(channels, size, k, c), size, j, to);
  }

  lemma ByteOfSample(s: seq<Byte>, p: nat, size: nat, j: nat, at: int)
    requires j < size && p + size <= |s| && at == p + j
    ensures 0 <= at < |s| && s[p..p + size][j] == s[at]
  {}

  lemma PadsSilence(f: Frame, channels: nat, size: nat, j: nat)
    requires |f| == channels && channels % 2 == 1 && j < size
    ensures var p := FrameToPcm(f, channels, size); |p| == channels + 1 && |p[channels]| == size && p[channels][j] == 0
  {
    hide ReversedAll, Remap;
  }

  lemma BytesLength(fs: seq<Frame>, channels: nat, size: nat)
    requires SizedFrames(fs, channels, size)
    ensures |Bytes(fs)| == |fs| * channels * size
  {
    FlatSized(fs, channels, size);
    FlatLength(fs, channels);
    FlatLength(Flat(fs), size);
  }

  /** Writing a sample changes its frame in its channel, and nothing else. */
  lemma SampleUpdate(s: seq<Byte>, s': seq<Byte>, n: nat, channels: nat, size: nat, f: nat, k: nat, x: Sample)
    requires channels > 0 && size > 0 && |s| == n * channels * size && f < n && k < channels && |x| == size
    requires var p := Place(channels, size, f, k); p + size <= |s| && s' == s[..p] + x + s[p + size..]
    ensures var fs := Frames(s, channels, size);
            f < |fs| && Frames(s', channels, size) == fs[f := fs[f][k := x]]
  {
    hide Chunk;
    var q := f * channels + k;
    var c := Chunk(s, size);
    PlaceFits(n, channels, size, f, k);
    ChunkUpdate(s, s', size, q, x);
    FlatChunk(s, size, n * channels);
    MulMonotone(f + 1, n, channels);
    MulMonotone(0, f, channels);
    ChunkAt(c, channels, f);
    var frame := Chunk(c, channels)[f];
    assert c[q := x] == c[..f * channels] + frame[k := x] + c[f * channels + channels..];
    ChunkUpdate(c, c[q := x], channels, f, frame[k := x]);
  }

  // ------------------------------------------------------------------ the loops

  method ReadSample(buf: array<Byte>, n: nat, channels: nat, size: nat, f: nat, k: nat) returns (x: Sample)
    requires channels > 0 && size > 0 && buf.Length == n * channels * size && f < n && k < channels
    ensures f < |Frames(buf[..], channels, size)| && x == Frames(buf[..], channels, size)[f][k]
  {
    hide Frames;
    SampleAt(buf[..], n, channels, size, f, k);
    var p := Place(channels, size, f, k);
    x := buf[p..p + size];
  }

  /** The innermost loops: the bytes of one sample. */
  method WriteBytes(buf: array<Byte>, p: nat, x: Sample)
    requires p + |x| <= buf.Length
    modifies buf
    ensures buf[..] == old(buf[..p]) + x + old(buf[p + |x|..])
  {
    ghost var before := buf[..];
    var j := 0;
    while j < |x|
      invariant 0 <= j <= |x| && buf[..p] == before[..p] && buf[p + j..] == before[p + j..] && buf[p..p + j] == x[..j]
    {
      buf[p + j] := x[j];
      j := j + 1;
    }
    assert buf[..] == buf[..p] + buf[p..p + j] + buf[p + j..];
  }

  method WriteSample(buf: array<Byte>, n: nat, channels: nat, size: nat, f: nat, k: nat, x: Sample)
    requires channels > 0 && size > 0 && buf.Length == n * channels * size && f < n && k < channels && |x| == size
    modifies buf
    ensures var fs := old(Frames(buf[..], channels, size));
            f < |fs| && Frames(buf[..], channels, size) == fs[f := fs[f][k := x]]
  {
    hide *;
    var p := Place(channels, size, f, k);
    ghost var before := buf[..];
    SampleAt(before, n, channels, size, f, k);
    WriteBytes(buf, p, x);
    SampleUpdate(before, buf[..], n, channels, size, f, k, x);
  }

  /** The first `n` frames with one channel copied over another. */
  function Copied(fs: seq<Frame>, n: nat, from: nat, to: nat, channels: nat): (r: seq<Frame>)
    requires 1 <= from <= channels && 1 <= to <= channels && forall i :: 0 <= i < |fs| ==> |fs[i]| == channels
    ensures |r| == |fs|
  {
    seq(|fs|, i requires 0 <= i < |fs| => if i < n then fs[i][to - 1 := fs[i][from - 1]] else fs[i])
  }

  /** The first `n` frames with one channel taken from the store. */
  function Restored(fs: seq<Frame>, n: nat, stored: seq<Sample>, to: nat, channels: nat): (r: seq<Frame>)
    requires 1 <= to <= channels && |stored| == |fs| && forall i :: 0 <= i < |fs| ==> |fs[i]| == channels
    ensures |r| == |fs|
  {
    seq(|fs|, i requires 0 <= i < |fs| => if i < n then fs[i][to - 1 := stored[i]] else fs[i])
  }

  /** storeChannelData; the store holds one channel only. */
  method StoreChannelData(buf: array<Byte>, n: nat, channels: nat, size: nat, chNum: nat, tmp: array<Byte>)
    requires size > 0 && buf.Length == n * channels * size && 1 <= chNum <= channels && tmp.Length == n * 1 * size && tmp != buf
    modifies tmp
    ensures var fs, ts := Frames(buf[..], channels, size), Frames(tmp[..], 1, size);
            |fs| == |ts| == n && forall i :: 0 <= i < n ==> ts[i] == [fs[i][chNum - 1]]
  {
    hide Frames;
    BytesOfFrames(buf[..], channels, size, n);
    BytesOfFrames(tmp[..], 1, size, n);
    ghost var fs := Frames(buf[..], channels, size);
    var f := 0;
    while f < n
      invariant 0 <= f <= n && |Frames(tmp[..], 1, size)| == n && SizedFrames(fs, channels, size)
      invariant forall i :: 0 <= i < f ==> Frames(tmp[..], 1, size)[i] == [fs[i][chNum - 1]]
    {
      var x := ReadSample(buf, n, channels, size, f, chNum - 1);
      assert WellSized(fs[f], channels, size);
      WriteSample(tmp, n, 1, size, f, 0, x);
      f := f + 1;
    }
  }

  /** copyChannelData. */
  method CopyChannelData(buf: array<Byte>, n: nat, channels: nat, size: nat, chFrom: nat, chTo: nat)
    requires size > 0 && buf.Length == n * channels * size && 1 <= chFrom <= channels && 1 <= chTo <= channels
    modifies buf
    ensures Frames(buf[..], channels, size) == Copied(old(Frames(buf[..], channels, size)), n, chFrom, chTo, channels)
  {
    hide Frames;
    BytesOfFrames(buf[..], channels, size, n);
    ghost var fs := Frames(buf[..], channels, size);
    var f := 0;
    while f < n
      invariant 0 <= f <= n && |fs| == n && SizedFrames(fs, channels, size)
      invariant Frames(buf[..], channels, size) == Copied(fs, f, chFrom, chTo, channels)
    {
      var x := ReadSample(buf, n, channels, size, f, chFrom - 1);
      assert WellSized(fs[f], channels, size);
      WriteSample(buf, n, channels, size, f, chTo - 1, x);
      f := f + 1;
    }
  }

  /** restoreChannelData. */
  method RestoreChannelData(buf: array<Byte>, n: nat, channels: nat, size: nat, chNum: nat, tmp: array<Byte>, ghost stored: seq<Sample>)
    requires size > 0 && buf.Length == n * channels * size && 1 <= chNum <= channels && tmp.Length == n * 1 * size && tmp != buf
    requires |stored| == n == |Frames(tmp[..], 1, size)| && forall i :: 0 <= i < n ==> Frames(tmp[..], 1, size)[i] == [stored[i]]
    modifies buf
    ensures |old(Frames(buf[..], channels, size))| == n
    ensures Frames(buf[..], channels, size) == Restored(old(Frames(buf[..], channels, size)), n, stored, chNum, channels)
  {
    hide Frames;
    BytesOfFrames(buf[..], channels, size, n);
    BytesOfFrames(tmp[..], 1, size, n);
    ghost var fs, ts := Frames(buf[..], channels, size), Frames(tmp[..], 1, size);
    var f := 0;
    while f < n
      invariant 0 <= f <= n && |fs| == |ts| == n && ts == Frames(tmp[..], 1, size) && SizedFrames(ts, 1, size)
      invariant Frames(buf[..], channels, size) == Restored(fs, f, stored, chNum, channels)
    {
      var x := ReadSample(tmp, n, 1, size, f, 0);
      assert WellSized(ts[f], 1, size);
      WriteSample(buf, n, channels, size, f, chNum - 1, x);
      f := f + 1;
    }
  }

  /** The frames with every sample's bytes in reverse, up to sample `k` of frame `n`. */
  function Swapped(fs: seq<Frame>, n: nat): (r: seq<Frame>)
    ensures |r| == |fs| && forall i :: 0 <= i < |r| ==> |r[i]| == |fs[i]|
  {
    seq(|fs|, i requires 0 <= i < |fs| => if i < n then ReversedAll(fs[i]) else fs[i])
  }

  /** A sample of two or three bytes is reversed by exchanging the outer ones. */
  method SwapOne(buf: array<Byte>, cur: nat, ghost i: nat, ghost count: nat, size: nat)
    requires 2 <= size <= 3 && buf.Length == count * size && i < count && cur == i * size
    modifies buf
    ensures i < |Chunk(old(buf[..]), size)|
    ensures Chunk(buf[..], size) == old(Chunk(buf[..], size))[i := Reversed(old(Chunk(buf[..], size))[i])]
  {
    hide Chunk, Reversed;
    ghost var before := buf[..];
    MulMonotone(i + 1, count, size);
    assert (i + 1) * size == i * size + size;
    ChunkAt(before, size, i);
    var tmp := buf[cur];
    buf[cur] := buf[cur + size - 1];
    buf[cur + size - 1] := tmp;
    OuterSwap(before[cur..cur + size], buf[cur..cur + size]);
    assert buf[..] == before[..cur] + buf[cur..cur + size] + before[cur + size..];
    ChunkUpdate(before, buf[..], size, i, buf[cur..cur + size]);
  }

  method SwapBytes(buf: array<Byte>, count: nat, size: nat)
    requires 2 <= size <= 3 && buf.Length == count * size
    modifies buf
    ensures |Chunk(old(buf[..]), size)| == count
    ensures Chunk(buf[..], size) == ReversedAll(Chunk(old(buf[..]), size))
  {
    hide Chunk, Reversed;
    ghost var cs := Chunk(buf[..], size);
    FlatChunk(buf[..], size, count);
    var i, cur := 0, 0;
    assert ReversedUpTo(cs, 0) == cs;
    while i < count
      invariant 0 <= i <= count && cur == i * size && |cs| == count && Chunk(buf[..], size) == ReversedUpTo(cs, i)
    {
      SwapOne(buf, cur, i, count, size);
      assert (i + 1) * size == i * size + size;
      i := i + 1;
      cur := cur + size;
    }
    assert ReversedUpTo(cs, count) == ReversedAll(cs);
  }

  function ReversedUpTo(cs: seq<Sample>, n: nat): (r: seq<Sample>)
    ensures |r| == |cs|
  {
    seq(|cs|, i requires 0 <= i < |cs| => if i < n then Reversed(cs[i]) else cs[i])
  }

  lemma OuterSwap(x: Sample, y: Sample)
    requires 2 <= |x| <= 3 && |y| == |x| && y == x[0 := x[|x| - 1]][|x| - 1 := x[0]]
    ensures y == Reversed(x)
  {}

  /** Reversing all samples of a buffer reverses them in all its frames. */
  lemma ChunkReversed(cs: seq<Sample>, channels: nat)
    requires channels > 0
    ensures |Chunk(ReversedAll(cs), channels)| == |Chunk(cs, channels)|
    ensures Chunk(ReversedAll(cs), channels) == Swapped(Chunk(cs, channels), |Chunk(cs, channels)|)
    decreases |cs|
  {
    hide Reversed;
    if |cs| >= channels {
      ChunkReversed(cs[channels..], channels);
      assert ReversedAll(cs)[..channels] == ReversedAll(cs[..channels]);
      assert ReversedAll(cs)[channels..] == ReversedAll(cs[channels..]);
      SwappedCons(cs[..channels], Chunk(cs[channels..], channels));
    }
  }

  lemma SwappedCons(f: Frame, fs: seq<Frame>)
    ensures Swapped([f] + fs, 1 + |fs|) == [ReversedAll(f)] + Swapped(fs, |fs|)
  {
    hide ReversedAll;
  }

  /** Byte order of the whole buffer. */
  method SwapAll(buf: array<Byte>, n: nat, channels: nat, size: nat)
    requires 2 <= size <= 3 && channels > 0 && buf.Length == n * channels * size
    modifies buf
    ensures |old(Frames(buf[..], channels, size))| == n
    ensures Frames(buf[..], channels, size) == Swapped(old(Frames(buf[..], channels, size)), n)
  {
    hide Chunk;
    ghost var before := buf[..];
    BytesOfFrames(before, channels, size, n);
    SwapBytes(buf, n * channels, size);
    ChunkReversed(Chunk(before, size), channels);
  }

  /** All frames in Blu-ray order. */
  function RemappedAll(fs: seq<Frame>, channels: nat): (r: seq<Frame>)
    requires forall i :: 0 <= i < |fs| ==> |fs[i]| >= channels
    ensures |r| == |fs| && forall i :: 0 <= i < |r| ==> |r[i]| == |fs[i]|
  {
    seq(|fs|, i requires 0 <= i < |fs| => Remap(fs[i], channels))
  }

  function UnmappedAll(fs: seq<Frame>, channels: nat): (r: seq<Frame>)
    requires forall i :: 0 <= i < |fs| ==> |fs[i]| >= channels
    ensures |r| == |fs| && forall i :: 0 <= i < |r| ==> |r[i]| == |fs[i]|
  {
    seq(|fs|, i requires 0 <= i < |fs| => Unmap(fs[i], channels))
  }

  /** A rotation of three channels through the store: store `a`, copy `b` over it, `c` over `b`, the store over `c`. */
  method Rotate(buf: array<Byte>, n: nat, channels: nat, size: nat, a: nat, b: nat, c: nat)
    requires size > 0 && buf.Length == n * channels * size
    requires 1 <= a <= channels && 1 <= b <= channels && 1 <= c <= channels && a != b && b != c && a != c
    modifies buf
    ensures var fs, r := old(Frames(buf[..], channels, size)), Frames(buf[..], channels, size);
            && |fs| == |r| == n
            && forall i :: 0 <= i < n ==> r[i] == fs[i][a - 1 := fs[i][b - 1]][b - 1 := fs[i][c - 1]][c - 1 := fs[i][a - 1]]
  {
    hide Frames;
    BytesOfFrames(buf[..], channels, size, n);
    ghost var fs := Frames(buf[..], channels, size);
    var tmp := new Byte[n * 1 * size](_ => 0);
    StoreChannelData(buf, n, channels, size, a, tmp);
    ghost var stored := seq(n, i requires 0 <= i < n => fs[i][a - 1]);
    CopyChannelData(buf, n, channels, size, b, a);
    CopyChannelData(buf, n, channels, size, c, b);
    BytesOfFrames(tmp[..], 1, size, n);
    RestoreChannelData(buf, n, channels, size, c, tmp, stored);
  }

  /** The remapping of convertWavToPCM. */
  method RemapChannels(buf: array<Byte>, n: nat, channels: nat, size: nat)
    requires size > 0 && channels > 0 && buf.Length == n * channels * size
    modifies buf
    ensures Frames(buf[..], channels, size) == RemappedAll(old(Frames(buf[..], channels, size)), channels)
  {
    hide Frames;
    ghost var fs := Frames(buf[..], channels, size);
    BytesOfFrames(buf[..], channels, size, n);
    if channels == 6 {
      Rotate(buf, n, channels, size, 4, 5, 6);
    } else if channels == 7 {
      Rotate(buf, n, channels, size, 4, 6, 5);
    } else if channels == 8 {
      Rotate(buf, n, channels, size, 4, 7, 8);
    }
    assert Frames(buf[..], channels, size) == RemappedAll(fs, channels);
  }

  /** The remapping of convertLPCMToWAV; a padding channel stays where it is. */
  method UnmapChannels(buf: array<Byte>, n: nat, channels: nat, mch: nat, size: nat)
    requires size > 0 && 0 < channels <= mch && buf.Length == n * mch * size
    modifies buf
    ensures Frames(buf[..], mch, size) == UnmappedAll(old(Frames(buf[..], mch, size)), channels)
  {
    hide Frames;
    ghost var fs := Frames(buf[..], mch, size);
    BytesOfFrames(buf[..], mch, size, n);
    if channels == 6 {
      Rotate(buf, n, mch, size, 6, 5, 4);
    } else if channels == 7 {
      Rotate(buf, n, mch, size, 4, 5, 6);
    } else if channels == 8 {
      Rotate(buf, n, mch, size, 8, 7, 4);
    }
    assert Frames(buf[..], mch, size) == UnmappedAll(fs, channels);
  }

  // ------------------------------------------------------------------ padding and its removal

  lemma FlatFirst<T>(r: seq<seq<T>>)
    requires r != []
    ensures Flat(r) == r[0] + Flat(r[1..])
  {}

  lemma FlatNothing<T>()
    ensures Flat<T>([]) == []
  {}

  lemma {:induction false} FlatConcat<T>(a: seq<seq<T>>, b: seq<seq<T>>)
    ensures Flat(a + b) == Flat(a) + Flat(b)
  {
    hide Flat;
    if a == [] {
      FlatNothing<T>();
      assert a + b == b;
    } else {
      var a', all := a[1..], a + b;
      FlatConcat(a', b);
      assert all[1..] == a' + b && all[0] == a[0];
      FlatFirst(a);
      FlatFirst(all);
      assert a[0] + (Flat(a') + Flat(b)) == a[0] + Flat(a') + Flat(b);
    }
  }

  lemma BytesConcat(a: seq<Frame>, b: seq<Frame>)
    ensures Bytes(a + b) == Bytes(a) + Bytes(b)
  {
    FlatConcat(a, b);
    FlatConcat(Flat(a), Flat(b));
  }

  /** The bytes of one frame in the buffer. */
  lemma FrameBytes(s: seq<Byte>, n: nat, channels: nat, size: nat, f: nat)
    requires channels > 0 && size > 0 && |s| == n * channels * size && f < n
    ensures f < |Frames(s, channels, size)|
    ensures var p := f * channels * size;
            p + channels * size == (f + 1) * channels * size <= |s| && Flat(Frames(s, channels, size)[f]) == s[p..p + channels * size]
  {
    hide Chunk;
    MulMonotone(f + 1, n, channels);
    assert (f + 1) * channels == f * channels + channels;
    MulMonotone((f + 1) * channels, n * channels, size);
    assert (f + 1) * channels * size == f * channels * size + channels * size;
    FlatChunk(s, size, n * channels);
    ChunkAt(Chunk(s, size), channels, f);
    ChunkSlice(s, size, f * channels, channels);
    FlatChunk(s[f * channels * size..f * channels * size + channels * size], size, channels);
  }

  /** Some neighbouring pieces are the pieces of their bytes. */
  lemma {:induction false} ChunkSlice(s: seq<Byte>, size: nat, a: nat, len: nat)
    requires size > 0 && 0 <= a * size <= a * size + len * size <= |s|
    ensures a + len <= |Chunk(s, size)|
    ensures Chunk(s[a * size..a * size + len * size], size) == Chunk(s, size)[a..a + len]
    decreases a
  {
    if a == 0 {
      ChunkPrefix(s, size, len);
      assert s[0..len * size] == s[..len * size];
    } else {
      MulMonotone(1, a, size);
      assert (a - 1) * size == a * size - size;
      var t := s[size..];
      ChunkSlice(t, size, a - 1, len);
      assert t[(a - 1) * size..(a - 1) * size + len * size] == s[a * size..a * size + len * size];
      assert Chunk(s, size) == [s[..size]] + Chunk(t, size);
    }
  }

  lemma {:induction false} ChunkPrefix(s: seq<Byte>, size: nat, len: nat)
    requires size > 0 && 0 <= len * size <= |s|
    ensures len <= |Chunk(s, size)| && Chunk(s[..len * size], size) == Chunk(s, size)[..len]
    decreases len
  {
    if len == 0 {
      assert Chunk(s[..0], size) == [];
    } else {
      MulMonotone(1, len, size);
      assert (len - 1) * size == len * size - size;
      ChunkPrefix(s[size..], size, len - 1);
      assert s[..len * size][size..] == s[size..][..(len - 1) * size];
      assert s[..len * size][..size] == s[..size];
    }
  }

  /** The payload loop: frame by frame, with a silent channel behind an odd number. */
  method CopyFrames(buf: array<Byte>, n: nat, channels: nat, size: nat) returns (dst: seq<Byte>)
    requires size > 0 && channels > 0 && buf.Length == n * channels * size
    ensures dst == Bytes(PaddedAll(Frames(buf[..], channels, size), channels, size))
  {
    hide Frames, Bytes, PaddingOf, Flat, Silence;
    BytesOfFrames(buf[..], channels, size, n);
    ghost var fs := Frames(buf[..], channels, size);
    ghost var ps := PaddedAll(fs, channels, size);
    dst := [];
    var f, src := 0, 0;
    NoBytes();
    assert ps[..0] == [];
    while f < n
      invariant 0 <= f <= n && src == f * channels * size && dst == Bytes(ps[..f])
    {
      FrameBytes(buf[..], n, channels, size, f);
      dst := dst + buf[src..src + channels * size];
      if channels % 2 == 1 {
        dst := dst + Silence(size);
      }
      PaddedBytes(fs[f], channels, size);
      BytesConcat(ps[..f], [ps[f]]);
      assert ps[..f + 1] == ps[..f] + [ps[f]];
      src := src + channels * size;
      f := f + 1;
    }
    assert ps[..n] == ps;
  }

  function PaddedAll(fs: seq<Frame>, channels: nat, size: nat): (r: seq<Frame>)
    ensures |r| == |fs|
  {
    seq(|fs|, i requires 0 <= i < |fs| => fs[i] + PaddingOf(channels, size))
  }

  function StrippedAll(fs: seq<Frame>, mch: nat): (r: seq<Frame>)
    requires mch > 0 && forall i :: 0 <= i < |fs| ==> |fs[i]| == mch
    ensures |r| == |fs|
  {
    seq(|fs|, i requires 0 <= i < |fs| => fs[i][..mch - 1])
  }

  predicate Wide(fs: seq<Frame>, channels: nat) { forall i :: 0 <= i < |fs| ==> |fs[i]| == channels }

  /** The three steps of convertWavToPCM together. */
  lemma PcmSteps(fs: seq<Frame>, ss: seq<Frame>, channels: nat, size: nat)
    requires Wide(fs, channels) && Wide(ss, channels) && ss == Swapped(fs, |fs|)
    ensures PaddedAll(RemappedAll(ss, channels), channels, size) == AllToPcm(fs, channels, size)
  {
    hide Remap, ReversedAll, Silence;
    var ps, qs := PaddedAll(RemappedAll(ss, channels), channels, size), AllToPcm(fs, channels, size);
    forall i | 0 <= i < |fs|
      ensures ps[i] == qs[i]
    {
      var r := Remap(ReversedAll(fs[i]), channels);
      assert ss[i] == ReversedAll(fs[i]);
      assert RemappedAll(ss, channels)[i] == r;
      assert ps[i] == r + PaddingOf(channels, size);
    }
  }

  /** The steps of convertLPCMToWAV together. */
  lemma WavSteps(fs: seq<Frame>, ss: seq<Frame>, channels: nat)
    requires channels > 0 && Wide(fs, Padded(channels)) && Wide(ss, Padded(channels)) && ss == Swapped(fs, |fs|)
    ensures var us := UnmappedAll(ss, channels);
            AllToWav(fs, channels) == if channels % 2 == 1 then StrippedAll(us, channels + 1) else us
  {
    hide Unmap, ReversedAll;
    var us, ws := UnmappedAll(ss, channels), AllToWav(fs, channels);
    forall i | 0 <= i < |fs|
      ensures ws[i] == us[i][..channels] && (channels % 2 == 0 ==> ws[i] == us[i])
    {
      assert ss[i] == ReversedAll(fs[i]);
      if channels % 2 == 0 {
        assert us[i][..channels] == us[i];
      }
    }
    if channels % 2 == 1 {
      assert StrippedAll(us, channels + 1) == ws;
    } else {
      assert us == ws;
    }
  }

  function PaddingOf(channels: nat, size: nat): Frame { if channels % 2 == 1 then [Silence(size)] else [] }

  lemma NoBytes()
    ensures Bytes([]) == []
  {}

  lemma PaddedBytes(f: Frame, channels: nat, size: nat)
    ensures Bytes([f + PaddingOf(channels, size)]) == Flat(f) + if channels % 2 == 1 then Silence(size) else []
  {
    FlatOne(f + PaddingOf(channels, size));
    FlatConcat(f, PaddingOf(channels, size));
    FlatOne(Silence(size));
    if channels % 2 == 0 {
      assert f + [] == f;
    }
  }

  lemma FlatOne<T>(x: seq<T>)
    ensures Flat([x]) == x
  {
    assert [x][1..] == [];
    assert x + [] == x;
  }

  /** memmove to a lower or the same address. */
  method MoveDown(buf: array<Byte>, dst: nat, cur: nat, full: nat)
    requires dst <= cur && cur + full <= buf.Length
    modifies buf
    ensures buf[..dst] == old(buf[..dst]) && buf[dst..dst + full] == old(buf[cur..cur + full])
    ensures buf[cur + full..] == old(buf[cur + full..])
  {
    forall j | 0 <= j < full {
      buf[dst + j] := buf[cur + j];
    }
  }

  /** One turn of removeChannel: a frame is moved, its last channel to be overwritten. */
  method StripOne(buf: array<Byte>, ghost before: seq<Byte>, ghost n: nat, mch: nat, size: nat, ghost f: nat, cur: nat, dst: nat)
    requires size > 0 && mch > 1 && buf.Length == |before| == n * mch * size && f < n && cur == f * mch * size && dst <= cur
    requires |Frames(before, mch, size)| == n && buf[cur..] == before[cur..]
    requires buf[..dst] == Bytes(StrippedAll(Frames(before, mch, size), mch)[..f])
    modifies buf
    ensures cur + mch * size <= buf.Length && dst + (mch - 1) * size <= cur + mch * size
    ensures buf[cur + mch * size..] == before[cur + mch * size..]
    ensures buf[..dst + (mch - 1) * size] == Bytes(StrippedAll(Frames(before, mch, size), mch)[..f + 1])
  {
    hide *;
    ghost var fs := Frames(before, mch, size);
    ghost var ws, w := StrippedAll(fs, mch), fs[f][..mch - 1];
    var full, out := mch * size, (mch - 1) * size;
    assert out == full - size;
    ghost var mid := buf[..];
    FrameBytes(before, n, mch, size, f);
    FrameIsSized(before, n, mch, size, f);
    StrippedBytes(fs[f], mch, size);
    MoveDown(buf, dst, cur, full);
    Stripped(before, mid, buf[..], dst, cur, full, out);
    BytesConcat(ws[..f], [w]);
    StrippedStep(fs, mch, f);
  }

  lemma Stripped(before: seq<Byte>, mid: seq<Byte>, after: seq<Byte>, dst: nat, cur: nat, full: nat, out: nat)
    requires |before| == |mid| == |after| && dst <= cur && cur + full <= |mid| && out <= full && mid[cur..] == before[cur..]
    requires after[..dst] == mid[..dst] && after[dst..dst + full] == mid[cur..cur + full] && after[cur + full..] == mid[cur + full..]
    ensures after[cur + full..] == before[cur + full..]
    ensures after[..dst + out] == mid[..dst] + before[cur..cur + full][..out]
  {
    assert mid[cur..cur + full] == mid[cur..][..full] == before[cur..][..full] == before[cur..cur + full];
    assert after[dst..dst + out] == after[dst..dst + full][..out];
    assert after[..dst + out] == after[..dst] + after[dst..dst + out];
    assert mid[cur + full..] == mid[cur..][full..] == before[cur..][full..] == before[cur + full..];
  }

  lemma StrippedStep(fs: seq<Frame>, mch: nat, f: nat)
    requires mch > 0 && f < |fs| && forall i :: 0 <= i < |fs| ==> |fs[i]| == mch
    ensures StrippedAll(fs, mch)[..f + 1] == StrippedAll(fs, mch)[..f] + [fs[f][..mch - 1]]
  {}

  lemma FrameIsSized(s: seq<Byte>, n: nat, mch: nat, size: nat, f: nat)
    requires mch > 0 && size > 0 && |s| == n * mch * size && f < n
    ensures f < |Frames(s, mch, size)| && WellSized(Frames(s, mch, size)[f], mch, size)
  {
    hide Frames, Bytes;
    BytesOfFrames(s, mch, size, n);
  }

  /** removeChannel, for the last channel: frames are moved together in place. */
  method RemoveChannel(buf: array<Byte>, n: nat, mch: nat, size: nat)
    requires size > 0 && mch > 1 && buf.Length == n * mch * size
    modifies buf
    ensures n * (mch - 1) * size <= buf.Length
    ensures buf[..n * (mch - 1) * size] == Bytes(StrippedAll(Frames(old(buf[..]), mch, size), mch))
  {
    hide *;
    ghost var before := buf[..];
    BytesOfFrames(before, mch, size, n);
    ghost var fs := Frames(before, mch, size);
    ghost var ws := StrippedAll(fs, mch);
    var full, out := mch * size, (mch - 1) * size;
    assert out == full - size;
    var f, cur, dst := 0, 0, 0;
    NoBytes();
    assert ws[..0] == [];
    while f < n
      invariant 0 <= f <= n && cur == f * mch * size && dst == f * (mch - 1) * size && dst <= cur <= buf.Length
      invariant buf[cur..] == before[cur..] && buf[..dst] == Bytes(ws[..f])
    {
      StripOne(buf, before, n, mch, size, f, cur, dst);
      NextFrame(f, mch - 1, size);
      NextFrame(f, mch, size);
      f := f + 1;
      cur := cur + full;
      dst := dst + out;
    }
    assert ws[..n] == ws;
  }

  lemma NextFrame(f: nat, m: nat, size: nat)
    ensures (f + 1) * m * size == f * m * size + m * size
  {
    assert (f + 1) * m == f * m + m;
  }

  lemma StrippedBytes(f: Frame, mch: nat, size: nat)
    requires mch > 1 && WellSized(f, mch, size)
    ensures |Flat(f)| == mch * size >= (mch - 1) * size && Bytes([f[..mch - 1]]) == Flat(f)[..(mch - 1) * size]
  {
    FlatLength(f, size);
    FlatOne(f[..mch - 1]);
    assert f == f[..mch - 1] + [f[mch - 1]];
    FlatConcat(f[..mch - 1], [f[mch - 1]]);
    FlatLength(f[..mch - 1], size);
    MulMonotone(mch - 1, mch, size);
  }

  // ------------------------------------------------------------------ the conversions

  class LpcmReader {
    const channels: nat
    const bits: nat
    // The buffer whose channels were put in order last.
    var lastChannelRemapPos: array?<Byte>

    constructor (channels: nat, bits: nat)
      ensures this.channels == channels && this.bits == bits && lastChannelRemapPos == null
    {
      this.channels, this.bits := channels, bits;
      lastChannelRemapPos := null;
    }

    /** convertWavToPCM on whole frames; the payload is returned without the frame header. */
    method ConvertWavToPcm(buf: array<Byte>, n: nat) returns (payload: seq<Byte>)
      requires Supported(channels, bits) && buf.Length == n * channels * SampleSize(bits)
      modifies buf
      ensures payload == ToPcm(old(buf[..]), channels, bits)
    {
      hide Frames, Bytes, RemappedAll, Swapped, AllToPcm, PaddedAll;
      var size := SampleSize(bits);
      ghost var fs := Frames(buf[..], channels, size);
      SwapAll(buf, n, channels, size);
      PcmSteps(fs, Frames(buf[..], channels, size), channels, size);
      RemapChannels(buf, n, channels, size);
      payload := CopyFrames(buf, n, channels, size);
    }

    /** convertLPCMToWAV: the buffer is converted when it is met for the first time; its used length is returned. */
    method ConvertLpcmToWav(buf: array<Byte>, n: nat) returns (len: nat)
      requires Supported(channels, bits) && buf.Length == n * Padded(channels) * SampleSize(bits)
      modifies this, buf
      ensures lastChannelRemapPos == buf && len == n * channels * SampleSize(bits) <= buf.Length
      ensures if old(lastChannelRemapPos) == buf then buf[..] == old(buf[..]) else buf[..len] == ToWav(old(buf[..]), channels, bits)
    {
      var size := SampleSize(bits);
      LengthsAgree(n, channels, size);
      len := buf.Length - if channels % 2 == 1 then n * size else 0;
      if lastChannelRemapPos != buf {
        lastChannelRemapPos := buf;
        Convert(buf, n);
      }
    }

    /** Byte order, channel order, and the padding channel, one after the other. */
    method Convert(buf: array<Byte>, n: nat)
      requires Supported(channels, bits) && buf.Length == n * Padded(channels) * SampleSize(bits)
      modifies buf
      ensures n * channels * SampleSize(bits) <= buf.Length
      ensures buf[..n * channels * SampleSize(bits)] == ToWav(old(buf[..]), channels, bits)
    {
      hide Frames, Bytes, UnmappedAll, Swapped, AllToWav, StrippedAll;
      var size, mch := SampleSize(bits), Padded(channels);
      LengthsAgree(n, channels, size);
      ghost var fs := Frames(buf[..], mch, size);
      SwapAll(buf, n, mch, size);
      WavSteps(fs, Frames(buf[..], mch, size), channels);
      UnmapChannels(buf, n, channels, mch, size);
      if channels % 2 == 1 {
        RemoveChannel(buf, n, mch, size);
      } else {
        BytesOfFrames(buf[..], mch, size, n);
        assert buf[..buf.Length] == buf[..];
      }
    }
  }

  lemma LengthsAgree(n: nat, channels: nat, size: nat)
    ensures n * Padded(channels) * size == n * channels * size + if channels % 2 == 1 then n * size else 0
  {
    if channels % 2 == 1 {
      assert n * (channels + 1) == n * channels + n;
      assert (n * channels + n) * size == n * channels * size + n * size;
    }
  }
}
