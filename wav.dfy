// The WAV writer of the logger (c_src/xample_logger.c): a RIFF WAVE file
// with a PCM "fmt " chunk, as laid down by the Microsoft/IBM Multimedia
// Programming Interface and Data Specifications 1.0 (RIFF WAVE form). The
// file is a byte sequence; fseek + fwrite is an overwrite at an offset.

module Wav {
  import opened Base
  import opened Arith

  /** "RIFF", "WAVE", "fmt " and "data" in ASCII. */
  const RiffTag: seq<u8> := [0x52, 0x49, 0x46, 0x46]
  const WaveTag: seq<u8> := [0x57, 0x41, 0x56, 0x45]
  const FmtTag: seq<u8> := [0x66, 0x6D, 0x74, 0x20]
  const DataTag: seq<u8> := [0x64, 0x61, 0x74, 0x61]

  /** Where ftell finds the RIFF size and the data size, and the length of
      the preamble. */
  const RiffOffset: nat := 4
  const DataOffset: nat := 40
  const HeaderSize: nat := 44
  const BytesPerSample: nat := 2
  const PcmFormat: nat := 1
  const FmtChunkSize: nat := 16

  /** byte_rate as file_wav_init computes it: uint32_t arithmetic stored
      into a uint16_t, so the value is truncated modulo 2^16. */
  function ByteRate(sampleRate: nat, numChannels: nat): nat
  {
    (sampleRate * numChannels * BytesPerSample) % U16
  }

  /** "RIFF", the RIFF size, "WAVE". */
  function RiffChunkHeader(riffSize: nat): (b: seq<u8>)
    ensures |b| == 12
  {
    RiffTag + LE32(riffSize) + WaveTag
  }

  /** The PCM "fmt " chunk: size 16, format 1, channels, sample rate, byte
      rate, block align and bits per sample. */
  function FmtChunk(numChannels: nat, sampleRate: nat): (b: seq<u8>)
    ensures |b| == 24
  {
    FmtFields(numChannels, sampleRate, ByteRate(sampleRate, numChannels), numChannels * BytesPerSample)
  }

  function FmtFields(numChannels: nat, sampleRate: nat, byteRate: nat, blockAlign: nat): (b: seq<u8>)
    ensures |b| == 24
  {
    FmtTag + LE32(FmtChunkSize) + LE16(PcmFormat) + LE16(numChannels)
    + LE32(sampleRate) + LE32(byteRate)
    + LE16(blockAlign) + LE16(8 * BytesPerSample)
  }

  /** "data" and the data size. */
  function DataChunkHeader(size: nat): (b: seq<u8>)
    ensures |b| == 8
  {
    DataTag + LE32(size)
  }

  /** file_wav_init: the 44-byte preamble, with 36 and 0 as placeholders
      for the two sizes. channels is xp->channels and rate the 24.8
      fixed-point xp->rate. */
  function Preamble(channels: nat, rate: nat): (b: seq<u8>)
    ensures |b| == HeaderSize
  {
    RiffChunkHeader(36) + FmtChunk(channels % U32, (rate / 256) % U32) + DataChunkHeader(0)
  }

  /** Samples as little-endian 16-bit values, in order. */
  function EncodeSamples(v: seq<u16>): (b: seq<u8>)
    ensures |b| == 2 * |v|
  {
    if v == [] then [] else LE16(v[0] as nat) + EncodeSamples(v[1..])
  }

  /** Reads the bytes back as little-endian 16-bit values; a trailing odd
      byte is not a sample. */
  function DecodeSamples(b: seq<u8>): (v: seq<u16>)
    ensures |v| == |b| / 2
  {
    if |b| < 2 then [] else [U16At(b, 0) as u16] + DecodeSamples(b[2..])
  }

  /** fseek to off and fwrite w. */
  function Patch(b: seq<u8>, off: nat, w: seq<u8>): seq<u8>
    requires off + |w| <= |b|
  {
    b[..off] + w + b[off + |w|..]
  }

  /** The state of an open wav_file_t: the bytes written to the file so
      far, num_samples and num_channels. */
  datatype WavState = WavState(bytes: seq<u8>, numSamples: nat, numChannels: nat)

  /** file_wav_open followed by file_wav_init. */
  function WavOpen(channels: nat, rate: nat): (w: WavState)
    ensures |w.bytes| == HeaderSize && w.numSamples == 0
  {
    WavState(Preamble(channels, rate), 0, channels % U32)
  }

  /** file_write_samples: appends the samples and counts them in the size_t
      num_samples. */
  function WavWrite(w: WavState, v: seq<u16>): WavState
  {
    w.(bytes := w.bytes + EncodeSamples(v), numSamples := (w.numSamples + |v|) % U64)
  }

  /** The size file_wav_close declares: bytes_per_sample * num_channels *
      num_samples in size_t, stored into a uint32_t. */
  function DeclaredSize(w: WavState): nat
  {
    (BytesPerSample * w.numChannels * w.numSamples) % U32
  }

  /** file_wav_close: the RIFF size at offset 4 becomes 36 + size and the
      data size at offset 40 becomes size. */
  function WavClose(w: WavState): seq<u8>
    requires |w.bytes| >= HeaderSize
  {
    var size := DeclaredSize(w);
    Patch(Patch(w.bytes, RiffOffset, LE32((36 + size) % U32)), DataOffset, LE32(size))
  }

  // ---------------------------------------------------------------------
  // The file handle

  /** wav_file_t: the FILE's contents and the bookkeeping fields. */
  class WavFile {
    var bytes: seq<u8>
    var numSamples: nat
    var numChannels: nat
    var bytesPerSample: nat
    var riffOffs: nat
    var dataOffs: nat

    function Value(): WavState
      reads this
    {
      WavState(bytes, numSamples, numChannels)
    }

    ghost predicate Valid()
      reads this
    {
      && riffOffs == RiffOffset && dataOffs == DataOffset
      && bytesPerSample == BytesPerSample
      && |bytes| >= HeaderSize
    }

    /** file_wav_open and file_wav_init on a file that fopen created empty:
        the preamble is written field by field and the two size offsets are
        taken with ftell. */
    constructor (channels: nat, rate: nat)
      ensures Valid()
      ensures Value() == WavOpen(channels, rate)
    {
      var nch := channels % U32;
      var sampleRate := (rate / 256) % U32;
      var byteRate := ByteRate(sampleRate, nch);
      var size := BytesPerSample * 0 * nch;
      numChannels := nch;
      bytesPerSample := BytesPerSample;
      numSamples := 0;
      var b := RiffTag;
      riffOffs := |b|;
      b := b + LE32(36 + size) + WaveTag;
      assert b == RiffChunkHeader(36);
      b := b + FmtTag + LE32(FmtChunkSize) + LE16(PcmFormat) + LE16(nch);
      b := b + LE32(sampleRate) + LE32(byteRate);
      b := b + LE16(nch * BytesPerSample) + LE16(8 * BytesPerSample);
      assert b == RiffChunkHeader(36) + FmtChunk(nch, sampleRate);
      b := b + DataTag;
      dataOffs := |b|;
      bytes := b + LE32(size);
    }

    /** file_write_samples: each sample is written as a little-endian
        uint16 and num_samples grows by n. */
    method WriteSamples(vec: seq<u16>)
      requires Valid()
      modifies this
      ensures Valid()
      ensures Value() == WavWrite(old(Value()), vec)
    {
      var j := 0;
      while j < |vec|
        invariant 0 <= j <= |vec| && Valid()
        invariant bytes == old(bytes) + EncodeSamples(vec[..j])
        invariant numSamples == old(numSamples) && numChannels == old(numChannels)
      {
        EncodeSamplesAppend(vec[..j], [vec[j]]);
        assert vec[..j + 1] == vec[..j] + [vec[j]];
        bytes := bytes + LE16(vec[j] as nat);
        j := j + 1;
      }
      assert vec[..j] == vec;
      numSamples := (numSamples + |vec|) % U64;
    }

    /** file_wav_close: patches the two sizes and returns the final
        contents of the file. */
    method Close() returns (contents: seq<u8>)
      requires Valid()
      modifies this
      ensures contents == WavClose(old(Value()))
      ensures bytes == contents
    {
      var size := (bytesPerSample * numChannels * numSamples) % U32;
      bytes := Patch(bytes, riffOffs, LE32((36 + size) % U32));
      bytes := Patch(bytes, dataOffs, LE32(size));
      contents := bytes;
    }
  }

  // ---------------------------------------------------------------------
  // Properties

  lemma {:induction false} EncodeSamplesAppend(a: seq<u16>, b: seq<u16>)
    ensures EncodeSamples(a + b) == EncodeSamples(a) + EncodeSamples(b)
  {
    if a == [] {
      assert a + b == b;
    } else {
      assert (a + b)[1..] == a[1..] + b;
      EncodeSamplesAppend(a[1..], b);
    }
  }

  /** The sample bytes decode back to the samples. */
  lemma {:induction false} EncodeDecodeRoundTrip(v: seq<u16>)
    ensures DecodeSamples(EncodeSamples(v)) == v
  {
    if v != [] {
      var b := EncodeSamples(v);
      LE16Decodes(v[0] as nat);
      assert b[2..] == EncodeSamples(v[1..]);
      assert b[..2] == LE16(v[0] as nat);
      EncodeDecodeRoundTrip(v[1..]);
    }
  }

  /** A little-endian field inside a sequence reads the same as inside
      the part that holds it. */
  lemma FieldInPart(pre: seq<u8>, part: seq<u8>, post: seq<u8>, k: nat)
    ensures k + 2 <= |part| ==> U16At(pre + part + post, |pre| + k) == U16At(part, k)
    ensures k + 4 <= |part| ==> U32At(pre + part + post, |pre| + k) == U32At(part, k)
  {
  }

  lemma RiffChunkHeaderLayout(riffSize: nat)
    ensures var b := RiffChunkHeader(riffSize);
      b[0..4] == RiffTag && U32At(b, 4) == riffSize % U32 && b[8..12] == WaveTag
  {
    var b := RiffChunkHeader(riffSize);
    LE32Decodes(riffSize);
    assert b[4..8] == LE32(riffSize);
  }

  lemma DataChunkHeaderLayout(size: nat)
    ensures var b := DataChunkHeader(size);
      b[0..4] == DataTag && U32At(b, 4) == size % U32
  {
    var b := DataChunkHeader(size);
    LE32Decodes(size);
    assert b[4..8] == LE32(size);
  }

  lemma FmtFieldsLayout(numChannels: nat, sampleRate: nat, byteRate: nat, blockAlign: nat)
    ensures var b := FmtFields(numChannels, sampleRate, byteRate, blockAlign);
      && b[0..4] == FmtTag
      && U32At(b, 4) == FmtChunkSize && U16At(b, 8) == PcmFormat
      && U16At(b, 10) == numChannels % U16
      && U32At(b, 12) == sampleRate % U32
      && U32At(b, 16) == byteRate % U32
      && U16At(b, 20) == blockAlign % U16
      && U16At(b, 22) == 16
  {
    var p1 := FmtTag + LE32(FmtChunkSize) + LE16(PcmFormat) + LE16(numChannels);
    var p2 := LE32(sampleRate) + LE32(byteRate);
    var p3 := LE16(blockAlign) + LE16(8 * BytesPerSample);
    assert FmtFields(numChannels, sampleRate, byteRate, blockAlign) == p1 + p2 + p3;
    FmtHead(numChannels);
    LE32Decodes(sampleRate);
    LE32Decodes(byteRate);
    LE16Decodes(blockAlign);
    LE16Decodes(16);
    FieldInPart([], p1, p2 + p3, 4);
    FieldInPart([], p1, p2 + p3, 8);
    FieldInPart([], p1, p2 + p3, 10);
    FieldInPart(p1, p2, p3, 0);
    FieldInPart(p1, p2, p3, 4);
    FieldInPart(p1 + p2, p3, [], 0);
    FieldInPart(p1 + p2, p3, [], 2);
    assert [] + p1 + (p2 + p3) == p1 + p2 + p3;
    assert p1 + p2 + p3 + [] == p1 + p2 + p3;
    assert U32At(p2, 0) == U32At(LE32(sampleRate), 0);
    assert U32At(p2, 4) == U32At(LE32(byteRate), 0);
    assert U16At(p3, 0) == U16At(LE16(blockAlign), 0);
    assert U16At(p3, 2) == U16At(LE16(16), 0);
  }

  lemma FmtHead(numChannels: nat)
    ensures var p1 := FmtTag + LE32(FmtChunkSize) + LE16(PcmFormat) + LE16(numChannels);
      U32At(p1, 4) == FmtChunkSize && U16At(p1, 8) == PcmFormat && U16At(p1, 10) == numChannels % U16
  {
    LE16Decodes(numChannels);
  }

  lemma FmtChunkLayout(numChannels: nat, sampleRate: nat)
    ensures var b := FmtChunk(numChannels, sampleRate);
      && b[0..4] == FmtTag
      && U32At(b, 4) == FmtChunkSize && U16At(b, 8) == PcmFormat
      && U16At(b, 10) == numChannels % U16
      && U32At(b, 12) == sampleRate % U32
      && U32At(b, 16) == ByteRate(sampleRate, numChannels)
      && U16At(b, 20) == (numChannels * 2) % U16
      && U16At(b, 22) == 16
  {
    FmtFieldsLayout(numChannels, sampleRate, ByteRate(sampleRate, numChannels), numChannels * BytesPerSample);
  }

  /** Fields of the three parts of the preamble at their file offsets. */
  lemma PartsAtOffsets(r: seq<u8>, f: seq<u8>, d: seq<u8>)
    requires |r| == 12 && |f| == 24 && |d| == 8
    ensures var b := r + f + d;
      && b[0..4] == r[0..4] && b[8..12] == r[8..12] && U32At(b, 4) == U32At(r, 4)
      && b[12..16] == f[0..4]
      && U32At(b, 16) == U32At(f, 4) && U16At(b, 20) == U16At(f, 8)
      && U16At(b, 22) == U16At(f, 10) && U32At(b, 24) == U32At(f, 12)
      && U32At(b, 28) == U32At(f, 16) && U16At(b, 32) == U16At(f, 20)
      && U16At(b, 34) == U16At(f, 22)
      && b[36..40] == d[0..4] && U32At(b, 40) == U32At(d, 4)
  {
  }

  /** The channel count is stored as a uint32_t and written as 16 bits. */
  lemma ChannelFields(channels: nat)
    ensures (channels % U32) % U16 == channels % U16
    ensures ((channels % U32) * 2) % U16 == (2 * channels) % U16
  {
    var q, nch := channels / U32, channels % U32;
    DivMod(channels, U32);
    ModOfMod(channels, U16, U16);
    assert 2 * channels == ((q * 2 * U16) * U16) + nch * 2;
    ModAddMultiple(q * 2 * U16, nch * 2, U16);
  }

  lemma PartsLayout(nch: nat, sr: nat)
    ensures var b := RiffChunkHeader(36) + FmtChunk(nch, sr) + DataChunkHeader(0);
      && b[0..4] == RiffTag && U32At(b, RiffOffset) == 36
      && b[8..12] == WaveTag && b[12..16] == FmtTag
      && U32At(b, 16) == FmtChunkSize && U16At(b, 20) == PcmFormat
      && U16At(b, 22) == nch % U16
      && U32At(b, 24) == sr % U32
      && U32At(b, 28) == ByteRate(sr, nch)
      && U16At(b, 32) == (nch * 2) % U16
      && U16At(b, 34) == 16
      && b[36..40] == DataTag && U32At(b, DataOffset) == 0
  {
    RiffChunkHeaderLayout(36);
    FmtChunkLayout(nch, sr);
    DataChunkHeaderLayout(0);
    PartsAtOffsets(RiffChunkHeader(36), FmtChunk(nch, sr), DataChunkHeader(0));
  }

  /** The layout of the preamble: tags, PCM format fields little-endian at
      their offsets, and the two size placeholders at 4 and 40. */
  lemma PreambleLayout(channels: nat, rate: nat)
    ensures var b := Preamble(channels, rate);
      && b[0..4] == RiffTag && U32At(b, RiffOffset) == 36
      && b[8..12] == WaveTag && b[12..16] == FmtTag
      && U32At(b, 16) == FmtChunkSize && U16At(b, 20) == PcmFormat
      && U16At(b, 22) == channels % U16
      && U32At(b, 24) == (rate / 256) % U32
      && U32At(b, 28) == ByteRate((rate / 256) % U32, channels % U32)
      && U16At(b, 32) == (2 * channels) % U16
      && U16At(b, 34) == 16
      && b[36..40] == DataTag && U32At(b, DataOffset) == 0
  {
    var nch, sr := channels % U32, (rate / 256) % U32;
    var b := Preamble(channels, rate);
    assert b == RiffChunkHeader(36) + FmtChunk(nch, sr) + DataChunkHeader(0);
    PartsLayout(nch, sr);
    ChannelFields(channels);
    assert sr % U32 == sr by {
      SmallMod(sr);
    }
    assert U16At(b, 22) == channels % U16;
    assert U16At(b, 32) == (2 * channels) % U16;
  }

  /** Writing appends exactly the encoded samples and nothing else. */
  lemma WriteAppends(w: WavState, v: seq<u16>)
    ensures var w2 := WavWrite(w, v);
      |w2.bytes| == |w.bytes| + 2 * |v|
      && w2.bytes[..|w.bytes|] == w.bytes
      && DecodeSamples(w2.bytes[|w.bytes|..]) == v
  {
    var w2 := WavWrite(w, v);
    assert w2.bytes[|w.bytes|..] == EncodeSamples(v);
    EncodeDecodeRoundTrip(v);
  }

  /** An overwrite keeps the length, places w at off, and leaves every
      other byte alone. */
  lemma PatchFacts(b: seq<u8>, off: nat, w: seq<u8>)
    requires off + |w| <= |b|
    ensures var p := Patch(b, off, w);
      && |p| == |b| && p[off..off + |w|] == w
      && forall k :: 0 <= k < |b| && !(off <= k < off + |w|) ==> p[k] == b[k]
  {
  }

  /** The two size patches of file_wav_close on any contents. */
  lemma SizePatches(bytes: seq<u8>, riffSize: nat, dataSize: nat)
    requires |bytes| >= HeaderSize
    ensures var c := Patch(Patch(bytes, RiffOffset, LE32(riffSize)), DataOffset, LE32(dataSize));
      && |c| == |bytes|
      && (forall k :: 0 <= k < |c| && !(RiffOffset <= k < RiffOffset + 4) && !(DataOffset <= k < DataOffset + 4)
            ==> c[k] == bytes[k])
      && U32At(c, RiffOffset) == riffSize % U32
      && U32At(c, DataOffset) == dataSize % U32
  {
    var p1 := Patch(bytes, RiffOffset, LE32(riffSize));
    PatchFacts(bytes, RiffOffset, LE32(riffSize));
    PatchFacts(p1, DataOffset, LE32(dataSize));
    var c := Patch(p1, DataOffset, LE32(dataSize));
    LE32Decodes(riffSize);
    LE32Decodes(dataSize);
    assert c[RiffOffset..RiffOffset + 4] == p1[RiffOffset..RiffOffset + 4];
    assert U32At(c, RiffOffset) == U32At(LE32(riffSize), 0);
    assert U32At(c, DataOffset) == U32At(LE32(dataSize), 0);
  }

  /** Closing keeps the length and every byte outside offsets 4..8 and
      40..44. */
  lemma CloseKeepsOtherBytes(w: WavState)
    requires |w.bytes| >= HeaderSize
    ensures var c := WavClose(w);
      && |c| == |w.bytes|
      && forall k :: 0 <= k < |c| && !(RiffOffset <= k < RiffOffset + 4) && !(DataOffset <= k < DataOffset + 4)
           ==> c[k] == w.bytes[k]
  {
    var size := DeclaredSize(w);
    assert WavClose(w) == Patch(Patch(w.bytes, RiffOffset, LE32((36 + size) % U32)), DataOffset, LE32(size));
    SizePatches(w.bytes, (36 + size) % U32, size);
  }

  /** Closing writes the RIFF size 36 + size at offset 4 and the data size
      at offset 40. */
  lemma CloseSizes(w: WavState)
    requires |w.bytes| >= HeaderSize
    ensures var c := WavClose(w);
      && U32At(c, RiffOffset) == (36 + DeclaredSize(w)) % U32
      && U32At(c, DataOffset) == DeclaredSize(w)
  {
    var size := DeclaredSize(w);
    var riff := (36 + size) % U32;
    assert WavClose(w) == Patch(Patch(w.bytes, RiffOffset, LE32(riff)), DataOffset, LE32(size));
    SizePatches(w.bytes, riff, size);
    SmallMod(riff);
    SmallMod(size);
  }

  lemma SmallMod(x: nat)
    requires x < U32
    ensures x % U32 == x
  {
  }

  // ---------------------------------------------------------------------
  // A whole recording

  /** Writes one page after the other. */
  function WriteAll(w: WavState, pages: seq<seq<u16>>): (r: WavState)
    ensures |r.bytes| >= |w.bytes|
    decreases |pages|
  {
    if pages == [] then w else WriteAll(WavWrite(w, pages[0]), pages[1..])
  }

  /** One more page written after the others. */
  lemma {:induction false} WriteAllSnoc(w: WavState, pages: seq<seq<u16>>, v: seq<u16>)
    ensures WriteAll(w, pages + [v]) == WavWrite(WriteAll(w, pages), v)
    decreases |pages|
  {
    if pages == [] {
      assert [] + [v] == [v];
      assert WriteAll(w, [v]) == WriteAll(WavWrite(w, v), []);
    } else {
      assert (pages + [v])[1..] == pages[1..] + [v];
      WriteAllSnoc(WavWrite(w, pages[0]), pages[1..], v);
    }
  }

  function Flatten(pages: seq<seq<u16>>): seq<u16>
  {
    if pages == [] then [] else pages[0] + Flatten(pages[1..])
  }

  /** Writing page by page is writing their concatenation, with counts
      taken modulo 2^64. */
  lemma {:induction false} WriteAllIsWriteFlat(w: WavState, pages: seq<seq<u16>>)
    requires w.numSamples < U64
    ensures WriteAll(w, pages) == WavWrite(w, Flatten(pages))
    decreases |pages|
  {
    if pages == [] {
      assert EncodeSamples([]) == [];
      assert w.bytes + [] == w.bytes;
    } else {
      var v0, rest := pages[0], Flatten(pages[1..]);
      var w1 := WavWrite(w, v0);
      assert WriteAll(w, pages) == WriteAll(w1, pages[1..]);
      assert Flatten(pages) == v0 + rest;
      WriteAllIsWriteFlat(w1, pages[1..]);
      WriteTwice(w, v0, rest);
    }
  }

  /** Two writes in a row are one write of both runs of samples. */
  lemma WriteTwice(w: WavState, a: seq<u16>, b: seq<u16>)
    ensures WavWrite(WavWrite(w, a), b) == WavWrite(w, a + b)
  {
    var x, y := WavWrite(WavWrite(w, a), b), WavWrite(w, a + b);
    assert x.bytes == y.bytes by {
      EncodeSamplesAppend(a, b);
      assert (w.bytes + EncodeSamples(a)) + EncodeSamples(b) == w.bytes + (EncodeSamples(a) + EncodeSamples(b));
    }
    assert x.numSamples == y.numSamples by {
      assert |a + b| == |a| + |b|;
      ModAddMod(w.numSamples + |a|, |b|);
    }
  }

  lemma ModAddMod(a: nat, b: nat)
    ensures ((a % U64) + b) % U64 == (a + b) % U64
  {
    var q := a / U64;
    assert a + b == q * U64 + ((a % U64) + b);
    assert (q * U64 + ((a % U64) + b)) % U64 == ((a % U64) + b) % U64;
  }

  /** The file a recording of the given pages leaves behind. */
  function RecordedFile(channels: nat, rate: nat, pages: seq<seq<u16>>): (b: seq<u8>)
    ensures |b| >= HeaderSize
  {
    WavClose(WriteAll(WavOpen(channels, rate), pages))
  }

  /** Closing a file after writing v to a freshly opened one. */
  lemma ClosedAfterWrite(w0: WavState, v: seq<u16>)
    requires |w0.bytes| == HeaderSize && w0.numSamples == 0 && |v| < U64
    ensures var w := WavWrite(w0, v);
      && w.numSamples == |v| && w.numChannels == w0.numChannels
      && var c := WavClose(w);
      && |c| == HeaderSize + 2 * |v|
      && c[HeaderSize..] == w.bytes[HeaderSize..]
      && DecodeSamples(c[HeaderSize..]) == v
      && U32At(c, RiffOffset) == (36 + DeclaredSize(w)) % U32
      && U32At(c, DataOffset) == DeclaredSize(w)
  {
    var w := WavWrite(w0, v);
    assert w.numSamples == (0 + |v|) % U64;
    SmallMod64(|v|);
    WriteAppends(w0, v);
    assert |w.bytes| == HeaderSize + 2 * |v|;
    CloseKeepsOtherBytes(w);
    CloseSizes(w);
    var c := WavClose(w);
    assert |c| == |w.bytes|;
    assert c[HeaderSize..] == w.bytes[HeaderSize..];
  }

  lemma SmallMod64(x: nat)
    requires x < U64
    ensures x % U64 == x
  {
  }

  /** The declared size as a product of its parts. */
  lemma DeclaredSizeIs(w: WavState, n: nat, nch: nat)
    requires w.numSamples == n && w.numChannels == nch
    ensures DeclaredSize(w) == (nch * (2 * n)) % U32
  {
    assert BytesPerSample * nch * n == nch * (2 * n);
  }

  /** For a single channel, a recording that fits 32-bit sizes is a
      well-formed WAVE file: the RIFF size counts every byte after offset 8,
      the data size every byte after the preamble, and those bytes decode to
      the samples in order. */
  lemma MonoRecording(rate: nat, pages: seq<seq<u16>>)
    requires 36 + 2 * |Flatten(pages)| < U32
    ensures var b := RecordedFile(1, rate, pages);
      && |b| == HeaderSize + 2 * |Flatten(pages)|
      && U32At(b, RiffOffset) == |b| - 8
      && U32At(b, DataOffset) == |b| - HeaderSize
      && DecodeSamples(b[HeaderSize..]) == Flatten(pages)
  {
    var w0 := WavOpen(1, rate);
    var v := Flatten(pages);
    WriteAllIsWriteFlat(w0, pages);
    assert RecordedFile(1, rate, pages) == WavClose(WavWrite(w0, v));
    ClosedMono(w0, v);
  }

  /** The same for any freshly opened single-channel state. */
  lemma ClosedMono(w0: WavState, v: seq<u16>)
    requires |w0.bytes| == HeaderSize && w0.numSamples == 0 && w0.numChannels == 1
    requires 36 + 2 * |v| < U32
    ensures var b := WavClose(WavWrite(w0, v));
      && |b| == HeaderSize + 2 * |v|
      && U32At(b, RiffOffset) == |b| - 8
      && U32At(b, DataOffset) == |b| - HeaderSize
      && DecodeSamples(b[HeaderSize..]) == v
  {
    var w := WavWrite(w0, v);
    ClosedAfterWrite(w0, v);
    DeclaredSizeIs(w, |v|, 1);
    MonoSizes(|v|, DeclaredSize(w));
  }

  lemma MonoSizes(n: nat, d: nat)
    requires 36 + 2 * n < U32 && d == (1 * (2 * n)) % U32
    ensures d == 2 * n && (36 + d) % U32 == 36 + 2 * n
  {
    SmallMod(2 * n);
    SmallMod(36 + 2 * n);
  }

  /** With c channels the declared data size is c times the bytes actually
      written, modulo 2^32: num_samples already counts interleaved values
      and file_wav_close multiplies by num_channels again. */
  lemma InflatedDataSize(channels: nat, rate: nat, pages: seq<seq<u16>>)
    requires |Flatten(pages)| < U64
    ensures var b := RecordedFile(channels, rate, pages);
      && |b| == HeaderSize + 2 * |Flatten(pages)|
      && U32At(b, DataOffset) == ((channels % U32) * (|b| - HeaderSize)) % U32
  {
    var w0 := WavOpen(channels, rate);
    var v := Flatten(pages);
    WriteAllIsWriteFlat(w0, pages);
    var w := WavWrite(w0, v);
    assert RecordedFile(channels, rate, pages) == WavClose(w);
    ClosedAfterWrite(w0, v);
    DeclaredSizeIs(w, |v|, channels % U32);
  }
}
