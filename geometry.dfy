// The layout manager: how a requested capacity becomes a shared region made
// of one header page followed by whole pages of 16-bit samples, each page
// split into 2^fdivpow2 frames (c_src/xample_mem.c).

module Geometry {
  import opened Base
  import opened Arith

  /** sizeof(sample_t) */
  const SampleSize: nat := 2

  /** The control header at the start of the shared region, every field that
      xample_create assigns. All fields are unsigned long / size_t values. */
  datatype Header = Header(
    currentPage: nat,
    firstPage: nat,
    lastPage: nat,
    pageSize: nat,
    samplesPerPage: nat,
    framesPerPage: nat,
    currentFrame: nat,
    firstFrame: nat,
    lastFrame: nat,
    frameSize: nat,
    samplesPerFrame: nat,
    rate: nat,       // 24.8 fixed point
    channels: nat)

  /** Outcome of the operating-system calls made while creating a segment. */
  datatype CreateOs = CreateOk | ShmOpenFailed | TruncateFailed | CreateMapFailed

  /** Outcome of the operating-system calls made while opening a segment. */
  datatype OpenOs = OpenOk | OpenShmFailed | HeaderMapFailed | HeaderUnmapFailed | RemapFailed

  datatype Error = AllocationError | ResourceError | MappingError | NotFoundError

  datatype Result<+T> = Ok(value: T) | Err(error: Error)

  /** A mapped segment: its header, the number of bytes mapped, and the byte
      offset of the first sample from the start of the mapping. */
  datatype Mapping = Mapping(header: Header, length: nat, dataOffset: nat)

  function Pow2(n: nat): (p: nat)
    ensures p >= 1
  {
    if n == 0 then 1 else 2 * Pow2(n - 1)
  }

  /** buffer_size: bytes needed for nsamples interleaved samples of nchannels. */
  function BufferSize(nsamples: nat, nchannels: nat): nat
  {
    nsamples * nchannels * SampleSize
  }

  /** real_size: the buffer rounded up to whole pages, plus one header page. */
  function RealSize(bufferSize: nat, pageSize: nat): (r: nat)
    requires pageSize > 0
    ensures r % pageSize == 0
    ensures bufferSize + pageSize <= r < bufferSize + 2 * pageSize
  {
    var pages := (bufferSize + pageSize - 1) / pageSize;
    CeilDiv(bufferSize, pageSize);
    MulDistrib(pages, pageSize);
    DivOfMul(pages + 1, pageSize);
    (pages + 1) * pageSize
  }

  /** The rate handed to create, a non-negative rational rateNum/rateDen Hz,
      stored as (unsigned long)(rate*256). */
  function FixedRate(rateNum: nat, rateDen: nat): (r: nat)
    requires rateDen > 0
    ensures r * rateDen <= rateNum * 256 < (r + 1) * rateDen
    ensures r / 256 == rateNum / rateDen
  {
    FloorOfFloor(rateNum, rateDen);
    DivBounds(rateNum * 256, rateDen);
    (rateNum * 256) / rateDen
  }

  /** The precondition create places on its inputs: fdivpow2 small enough
      that 1 << fdivpow2 is defined on a 32-bit int, and no size_t overflow
      while sizing the region. */
  predicate CreateArgsOk(nsamples: nat, fdivpow2: nat, nchannels: nat,
                         rateNum: nat, rateDen: nat, pageSize: nat)
  {
    && fdivpow2 <= 30
    && rateDen > 0
    && rateNum * 256 / rateDen < U64
    && BufferSize(nsamples, nchannels) + 2 * pageSize <= U64
  }

  /** last_frame is computed without wrapping around 2^64. */
  predicate FramesFit(nsamples: nat, fdivpow2: nat, nchannels: nat)
  {
    BufferSize(nsamples, nchannels) * Pow2(fdivpow2) <= U64
  }

  /** xample_create: the page-size query, the three system calls (as an
      outcome) and the field-by-field initialisation of the header. */
  function Create(nsamples: nat, fdivpow2: nat, nchannels: nat,
                  rateNum: nat, rateDen: nat, pageSize: nat, os: CreateOs): (r: Result<Mapping>)
    requires CreateArgsOk(nsamples, fdivpow2, nchannels, rateNum, rateDen, pageSize)
    ensures r.Err? <==> pageSize == 0 || os != CreateOk
    ensures pageSize == 0 ==> r == Err(AllocationError)
    ensures r.Ok? ==> r.value.dataOffset == pageSize && r.value.length % pageSize == 0
  {
    if pageSize == 0 then Err(AllocationError)
    else
      var bufferSize := BufferSize(nsamples, nchannels);
      var realSize := RealSize(bufferSize, pageSize);
      match os
      case ShmOpenFailed => Err(ResourceError)
      case TruncateFailed => Err(ResourceError)
      case CreateMapFailed => Err(MappingError)
      case CreateOk =>
        Ok(Mapping(InitialHeader(realSize, pageSize, fdivpow2, FixedRate(rateNum, rateDen), nchannels),
                   realSize, pageSize))
  }

  /** The header fields as xample_create assigns them, in unsigned long
      arithmetic: last_page = real_size/page_size - 2 wraps around to 2^64 - 1
      when the region is the header page alone. */
  function InitialHeader(realSize: nat, pageSize: nat, fdivpow2: nat, rate: nat, nchannels: nat): Header
    requires 0 < pageSize && realSize < U64
  {
    var framesPerPage := Pow2(fdivpow2);
    var frameSize := FrameSize(pageSize, framesPerPage);
    var lastPage := WrapSub(PagesOf(realSize, pageSize), 2);
    var lastFrame := WrapSub(WrapMul(WrapAdd(WrapSub(lastPage, 0), 1), framesPerPage), 1);
    Header(
      currentPage := 0,
      firstPage := 0,
      lastPage := lastPage,
      pageSize := pageSize,
      samplesPerPage := pageSize / SampleSize,
      framesPerPage := framesPerPage,
      currentFrame := 0,
      firstFrame := 0,
      lastFrame := lastFrame,
      frameSize := frameSize,
      samplesPerFrame := frameSize / SampleSize,
      rate := rate,
      channels := nchannels)
  }

  /** frame_size: page_size / (1 << fdivpow2), the divisor being
      frames_per_page. */
  function FrameSize(pageSize: nat, framesPerPage: nat): nat
    requires framesPerPage > 0
  {
    pageSize / framesPerPage
  }

  /** real_size / page_size: the number of pages in the region. */
  function PagesOf(realSize: nat, pageSize: nat): (r: nat)
    requires pageSize > 0 && realSize < U64
    ensures r <= realSize
  {
    DivLe(realSize, pageSize);
    realSize / pageSize
  }

  /** a - b on unsigned long operands: wraps around below zero. */
  function WrapSub(a: nat, b: nat): (r: nat)
    requires a < U64 && b < U64
    ensures r < U64
    ensures a >= b ==> r == a - b
    ensures a < b ==> r == U64 - (b - a)
  {
    (a - b) % U64
  }

  /** a + b on unsigned long operands. */
  function WrapAdd(a: nat, b: nat): (r: nat)
    ensures r < U64
    ensures a + b < U64 ==> r == a + b
  {
    (a + b) % U64
  }

  /** a * b on unsigned long operands. */
  function WrapMul(a: nat, b: nat): (r: nat)
    ensures r < U64
    ensures a * b < U64 ==> r == a * b
  {
    (a * b) % U64
  }

  /** The mapping length computed by xample_open and xample_close from the
      header: (last_page + 2) * page_size in unsigned long arithmetic. */
  function MapLength(lastPage: nat, pageSize: nat): nat
  {
    ((lastPage + 2) % U64 * pageSize) % U64
  }

  /** xample_open: learn last_page from the stored header, then map the whole
      region; the samples start one page in. */
  function Open(stored: Header, pageSize: nat, os: OpenOs): (r: Result<Mapping>)
    ensures r.Err? <==> pageSize == 0 || os != OpenOk
    ensures os == OpenShmFailed && pageSize > 0 ==> r == Err(NotFoundError)
    ensures r.Ok? ==> r.value.header == stored && r.value.dataOffset == pageSize
  {
    if pageSize == 0 then Err(AllocationError)
    else
      match os
      case OpenShmFailed => Err(NotFoundError)
      case HeaderMapFailed => Err(MappingError)
      case HeaderUnmapFailed => Err(MappingError)
      case RemapFailed => Err(MappingError)
      case OpenOk => Ok(Mapping(stored, MapLength(stored.lastPage, pageSize), pageSize))
  }

  /** xample_close: the number of bytes unmapped, or None for a NULL header,
      which is accepted and does nothing. */
  function CloseLength(xp: Option<Header>): (r: Option<nat>)
    ensures xp.None? <==> r.None?
  {
    match xp
    case None => None
    case Some(h) => Some(MapLength(h.lastPage, h.pageSize))
  }

  /** What the producer relies on: indices start at zero, frames tile the
      pages exactly in count, and a frame fits inside a page. */
  ghost predicate ProducerReady(h: Header)
  {
    && h.currentPage == 0 && h.firstPage == 0
    && h.currentFrame == 0 && h.firstFrame == 0
    && h.framesPerPage >= 1
    && h.lastFrame + 1 == (h.lastPage + 1) * h.framesPerPage
    && h.framesPerPage * h.samplesPerFrame <= h.samplesPerPage
  }

  // ---------------------------------------------------------------------
  // Properties of a created segment

  /** The header of a successful create. */
  function Created(nsamples: nat, fdivpow2: nat, nchannels: nat,
                   rateNum: nat, rateDen: nat, pageSize: nat): (m: Mapping)
    requires CreateArgsOk(nsamples, fdivpow2, nchannels, rateNum, rateDen, pageSize)
    requires pageSize > 0
    ensures m.length == RealSize(BufferSize(nsamples, nchannels), pageSize)
    ensures m.header == InitialHeader(m.length, pageSize, fdivpow2, FixedRate(rateNum, rateDen), nchannels)
  {
    Create(nsamples, fdivpow2, nchannels, rateNum, rateDen, pageSize, CreateOk).value
  }

  /** A created header starts at page 0 and frame 0, holds the sample rate in
      24.8 fixed point (so rate >> 8 is the integer part of the requested
      rate) and the channel count; samples_per_page counts 16-bit values in a
      page regardless of the channel count. */
  lemma CreateInitialHeader(nsamples: nat, fdivpow2: nat, nchannels: nat,
                            rateNum: nat, rateDen: nat, pageSize: nat)
    requires CreateArgsOk(nsamples, fdivpow2, nchannels, rateNum, rateDen, pageSize)
    requires pageSize > 0
    ensures var h := Created(nsamples, fdivpow2, nchannels, rateNum, rateDen, pageSize).header;
      && h.currentPage == 0 && h.firstPage == 0 && h.currentFrame == 0 && h.firstFrame == 0
      && h.rate / 256 == rateNum / rateDen
      && h.channels == nchannels
      && h.pageSize == pageSize
      && 2 * h.samplesPerPage <= pageSize < 2 * h.samplesPerPage + 2
  {
  }

  /** Frames: 2^fdivpow2 of them per page, frame_size is the page size divided
      by that count (rounded down), samples_per_frame counts 16-bit values in a
      frame, and the frames of one page never extend past the page. */
  lemma FrameGeometry(realSize: nat, pageSize: nat, fdivpow2: nat, rate: nat, nchannels: nat)
    requires 0 < pageSize && realSize < U64
    ensures var h := InitialHeader(realSize, pageSize, fdivpow2, rate, nchannels);
      && h.framesPerPage == Pow2(fdivpow2)
      && h.frameSize * h.framesPerPage <= pageSize < (h.frameSize + 1) * h.framesPerPage
      && 2 * h.samplesPerFrame <= h.frameSize < 2 * h.samplesPerFrame + 2
      && h.framesPerPage * h.samplesPerFrame <= h.samplesPerPage
  {
    var h := InitialHeader(realSize, pageSize, fdivpow2, rate, nchannels);
    var fpp, fs, spf := h.framesPerPage, h.frameSize, h.samplesPerFrame;
    assert fs == pageSize / fpp;
    DivBounds(pageSize, fpp);
    DivBounds(fs, 2);
    MulMonoRight(2 * spf, fs, fpp);
    MulAssoc(2, spf, fpp);
    LeDivLe(spf * fpp, pageSize);
  }

  /** The same, for the header create makes. */
  lemma CreateFrameGeometry(nsamples: nat, fdivpow2: nat, nchannels: nat,
                            rateNum: nat, rateDen: nat, pageSize: nat)
    requires CreateArgsOk(nsamples, fdivpow2, nchannels, rateNum, rateDen, pageSize)
    requires pageSize > 0
    ensures var h := Created(nsamples, fdivpow2, nchannels, rateNum, rateDen, pageSize).header;
      && h.framesPerPage == Pow2(fdivpow2)
      && h.frameSize * h.framesPerPage <= pageSize < (h.frameSize + 1) * h.framesPerPage
      && 2 * h.samplesPerFrame <= h.frameSize < 2 * h.samplesPerFrame + 2
      && h.framesPerPage * h.samplesPerFrame <= h.samplesPerPage
  {
    var m := Created(nsamples, fdivpow2, nchannels, rateNum, rateDen, pageSize);
    FrameGeometry(m.length, pageSize, fdivpow2, FixedRate(rateNum, rateDen), nchannels);
  }

  /** The number of data pages for a non-empty buffer: the least count of
      pages covering it, never more than its byte count. */
  lemma DataPages(b: nat, pageSize: nat) returns (pages: nat)
    requires pageSize > 0 && b > 0
    ensures pages == (b + pageSize - 1) / pageSize
    ensures 1 <= pages <= b
    ensures (pages - 1) * pageSize < b <= pages * pageSize
    ensures RealSize(b, pageSize) == (pages + 1) * pageSize
  {
    pages := (b + pageSize - 1) / pageSize;
    CeilDiv(b, pageSize);
    assert pages >= 1;
    MulDistrib(pages - 1, pageSize);
    assert pages <= b by {
      MulMonoRight(1, pageSize, pages - 1);
    }
  }

  /** Pages of a region of pages * page_size bytes: last_page is pages - 2
      and, without wrap-around, last_frame closes the last page. */
  lemma PageGeometry(pages: nat, pageSize: nat, fdivpow2: nat, rate: nat, nchannels: nat)
    requires 0 < pageSize && pages >= 2 && pages * pageSize < U64
    requires (pages - 1) * Pow2(fdivpow2) <= U64
    ensures var h := InitialHeader(pages * pageSize, pageSize, fdivpow2, rate, nchannels);
      && h.lastPage == pages - 2
      && h.lastFrame + 1 == (h.lastPage - h.firstPage + 1) * h.framesPerPage
  {
    DivOfMul(pages, pageSize);
    var fpp := Pow2(fdivpow2);
    MulMonoRight(1, pages - 1, fpp);
  }

  /** For a non-empty request the data area is the smallest whole number of
      pages holding buffer_size bytes, the region is that plus the header page,
      and last_frame is the index of the last frame of the last page. */
  lemma CreatePages(nsamples: nat, fdivpow2: nat, nchannels: nat,
                    rateNum: nat, rateDen: nat, pageSize: nat)
    requires CreateArgsOk(nsamples, fdivpow2, nchannels, rateNum, rateDen, pageSize)
    requires pageSize > 0
    requires BufferSize(nsamples, nchannels) > 0
    requires FramesFit(nsamples, fdivpow2, nchannels)
    ensures var m := Created(nsamples, fdivpow2, nchannels, rateNum, rateDen, pageSize);
      var b := BufferSize(nsamples, nchannels);
      && m.header.lastPage * pageSize < b <= (m.header.lastPage + 1) * pageSize
      && m.length == (m.header.lastPage + 2) * pageSize
      && m.header.lastFrame + 1 == (m.header.lastPage - m.header.firstPage + 1) * m.header.framesPerPage
  {
    var m := Created(nsamples, fdivpow2, nchannels, rateNum, rateDen, pageSize);
    var b := BufferSize(nsamples, nchannels);
    var pages := DataPages(b, pageSize);
    MulMonoRight(pages, b, Pow2(fdivpow2));
    PageGeometry(pages + 1, pageSize, fdivpow2, FixedRate(rateNum, rateDen), nchannels);
    MulDistrib(pages + 1, pageSize);
  }

  /** With pages of an even number of bytes the data area holds at least the
      nsamples * nchannels samples that were asked for. */
  lemma CreateHoldsRequest(nsamples: nat, fdivpow2: nat, nchannels: nat,
                           rateNum: nat, rateDen: nat, pageSize: nat)
    requires CreateArgsOk(nsamples, fdivpow2, nchannels, rateNum, rateDen, pageSize)
    requires pageSize > 0 && pageSize % 2 == 0
    requires BufferSize(nsamples, nchannels) > 0
    requires FramesFit(nsamples, fdivpow2, nchannels)
    ensures var h := Created(nsamples, fdivpow2, nchannels, rateNum, rateDen, pageSize).header;
      (h.lastPage + 1) * h.samplesPerPage >= nsamples * nchannels
  {
    CreatePages(nsamples, fdivpow2, nchannels, rateNum, rateDen, pageSize);
    var h := Created(nsamples, fdivpow2, nchannels, rateNum, rateDen, pageSize).header;
    var k := nsamples * nchannels;
    assert BufferSize(nsamples, nchannels) == 2 * k;
    assert pageSize == 2 * h.samplesPerPage;
    HalveProduct(h.lastPage + 1, h.samplesPerPage, k);
  }

  lemma HalveProduct(a: nat, s: nat, k: nat)
    requires 2 * k <= a * (2 * s)
    ensures k <= a * s
  {
    MulAssoc(a, 2, s);
  }

  /** An empty request (buffer_size == 0) makes real_size a single page, so
      last_page = real_size/page_size - 2 wraps around to 2^64 - 1, and so
      does last_frame. */
  lemma CreateEmptyUnderflows(nsamples: nat, fdivpow2: nat, nchannels: nat,
                              rateNum: nat, rateDen: nat, pageSize: nat)
    requires CreateArgsOk(nsamples, fdivpow2, nchannels, rateNum, rateDen, pageSize)
    requires pageSize > 0
    requires BufferSize(nsamples, nchannels) == 0
    ensures var m := Created(nsamples, fdivpow2, nchannels, rateNum, rateDen, pageSize);
      && m.length == pageSize
      && m.header.lastPage == U64 - 1
      && m.header.lastFrame == U64 - 1
  {
    var m := Created(nsamples, fdivpow2, nchannels, rateNum, rateDen, pageSize);
    DivUnique(pageSize - 1, pageSize, 0, pageSize - 1);
    assert m.length == pageSize;
    DivOfMul(1, pageSize);
    var h := m.header;
    assert h.lastPage == U64 - 1;
    assert WrapAdd(WrapSub(h.lastPage, 0), 1) == 0;
    assert WrapMul(0, h.framesPerPage) == 0;
  }

  /** The length xample_open maps (and xample_close unmaps) for a header made
      by xample_create is the real_size create chose; this holds also when
      last_page wrapped, because last_page + 2 wraps back to 1. */
  lemma OpenMapsCreatedLength(nsamples: nat, fdivpow2: nat, nchannels: nat,
                              rateNum: nat, rateDen: nat, pageSize: nat)
    requires CreateArgsOk(nsamples, fdivpow2, nchannels, rateNum, rateDen, pageSize)
    requires pageSize > 0
    ensures var m := Created(nsamples, fdivpow2, nchannels, rateNum, rateDen, pageSize);
      && Open(m.header, pageSize, OpenOk) == Ok(Mapping(m.header, m.length, pageSize))
      && CloseLength(Some(m.header)) == Some(m.length)
  {
    var m := Created(nsamples, fdivpow2, nchannels, rateNum, rateDen, pageSize);
    var h := m.header;
    assert h.pageSize == pageSize;
    assert MapLength(h.lastPage, pageSize) == m.length by {
      var b := BufferSize(nsamples, nchannels);
      if b == 0 {
        CreateEmptyUnderflows(nsamples, fdivpow2, nchannels, rateNum, rateDen, pageSize);
        assert (h.lastPage + 2) % U64 == 1;
      } else {
        var pages := DataPages(b, pageSize);
        DivOfMul(pages + 1, pageSize);
        assert h.lastPage == pages - 1;
        MapLengthNoWrap(pages - 1, pageSize, m.length);
      }
    }
  }

  /** A non-empty segment is ready for the producer loop. */
  lemma CreateIsProducerReady(nsamples: nat, fdivpow2: nat, nchannels: nat,
                              rateNum: nat, rateDen: nat, pageSize: nat)
    requires CreateArgsOk(nsamples, fdivpow2, nchannels, rateNum, rateDen, pageSize)
    requires pageSize > 0
    requires BufferSize(nsamples, nchannels) > 0
    requires FramesFit(nsamples, fdivpow2, nchannels)
    ensures ProducerReady(Created(nsamples, fdivpow2, nchannels, rateNum, rateDen, pageSize).header)
  {
    CreatePages(nsamples, fdivpow2, nchannels, rateNum, rateDen, pageSize);
    CreateFrameGeometry(nsamples, fdivpow2, nchannels, rateNum, rateDen, pageSize);
  }

  // ---------------------------------------------------------------------
  // Arithmetic helpers

  lemma MapLengthNoWrap(lastPage: nat, pageSize: nat, length: nat)
    requires length == (lastPage + 2) * pageSize && length < U64 && lastPage + 2 < U64
    ensures MapLength(lastPage, pageSize) == length
  {
  }

  lemma FloorOfFloor(n: nat, d: nat)
    requires d > 0
    ensures ((n * 256) / d) / 256 == n / d
  {
    var q, r := n / d, n % d;
    DivNat(r * 256, d);
    DivNat(n * 256, d);
    var r2: nat := (r * 256) / d;
    ScaledQuotient(n, d);
    ShiftedQuotient((n * 256) / d, q, r2);
  }

  /** (256 n) / d splits into 256 (n / d) plus a part below 256. */
  lemma ScaledQuotient(n: nat, d: nat)
    requires d > 0
    ensures (n * 256) / d == (n / d) * 256 + ((n % d) * 256) / d
    ensures ((n % d) * 256) / d < 256
  {
    var q, r := n / d, n % d;
    DivMod(n, d);
    var r2, r3 := (r * 256) / d, (r * 256) % d;
    DivMod(r * 256, d);
    RemainderQuotient(r, d);
    ScaledSum(n, q, r, d, r2, r3);
    DivUnique(n * 256, d, q * 256 + r2, r3);
  }

  lemma RemainderQuotient(r: nat, d: nat)
    requires r < d
    ensures (r * 256) / d < 256
  {
    var r2 := (r * 256) / d;
    DivMod(r * 256, d);
    if r2 >= 256 {
      MulMonoRight(256, r2, d);
    }
  }

  lemma ScaledSum(n: nat, q: nat, r: nat, d: nat, r2: nat, r3: nat)
    requires n == q * d + r && r * 256 == r2 * d + r3
    ensures n * 256 == (q * 256 + r2) * d + r3
  {
  }

  lemma ShiftedQuotient(x: nat, q: nat, r: nat)
    requires x == q * 256 + r && r < 256
    ensures x / 256 == q
  {
    DivUnique(x, 256, q, r);
  }
}
