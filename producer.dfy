// The sampling producer (c_src/xample.c): the chunk and delay clamps, the
// cursor that walks frames and pages of the ring, the shared header it
// publishes, and the index and decode arithmetic of the sample sources.

module Producer {
  import opened Base
  import opened Geometry
  import opened Arith

  const MinChunkSize: nat := 1
  const MaxChunkSize: nat := 256
  const DefChunkSize: nat := 10
  /** The largest pacing delay a uint16_t can carry. */
  const MaxDelay: nat := 65535
  /** read_n_samples_spi serves at most this many samples per call. */
  const MaxTransfers: nat := 256

  // ---------------------------------------------------------------------
  // Clamps

  /** The -k option: atoi's int stored into a size_t and clamped to
      [MinChunkSize, MaxChunkSize]. A negative request wraps to a huge
      size_t and is clamped to the maximum. */
  function ClampChunk(requested: int): (c: nat)
    requires -0x8000_0000 <= requested < 0x8000_0000
    ensures MinChunkSize <= c <= MaxChunkSize
    ensures MinChunkSize <= requested <= MaxChunkSize ==> c == requested
    ensures requested == 0 ==> c == MinChunkSize
    ensures requested < 0 || requested > MaxChunkSize ==> c == MaxChunkSize
  {
    var size := requested % U64;
    if size < MinChunkSize then MinChunkSize
    else if size > MaxChunkSize then MaxChunkSize
    else size
  }

  /** The number of samples requested at cursor i of a frame of spf
      samples: the chunk size, cut to the room left in the frame. */
  function ChunkRequest(chunk: nat, spf: nat, i: nat): (ns: nat)
    requires i <= spf
    ensures ns <= chunk && i + ns <= spf
    ensures ns == chunk || i + ns == spf
  {
    if chunk > spf - i then spf - i else chunk
  }

  /** The delay handed to the sample source, saturated to 16 bits. */
  function PacingDelay(udelay: nat): (d: nat)
    ensures d <= MaxDelay
    ensures udelay <= MaxDelay ==> d == udelay
    ensures udelay > MaxDelay ==> d == MaxDelay
  {
    if udelay > MaxDelay then MaxDelay else udelay
  }

  // ---------------------------------------------------------------------
  // The cursor of the producer loop

  /** The loop variables of the producer: the sample index i inside the
      current frame, the frame index f inside the current page, the current
      page and frame, and the sample offset of the current frame. */
  datatype Cursor = Cursor(i: nat, f: nat, page: nat, frame: nat, offset: nat)

  /** One pass of the producer loop after ns samples were requested. */
  function Advance(h: Header, c: Cursor, ns: nat): Cursor
  {
    var i := c.i + ns;
    if i < h.samplesPerFrame then c.(i := i)
    else
      var f := c.f + 1;
      var pageDone := f >= h.framesPerPage;
      var page := if !pageDone then c.page else if c.page >= h.lastPage then h.firstPage else c.page + 1;
      var wrap := c.frame >= h.lastFrame;
      Cursor(
        0,
        if pageDone then 0 else f,
        page,
        if wrap then h.firstFrame else c.frame + 1,
        if wrap then h.firstFrame * h.samplesPerFrame else c.offset + h.samplesPerFrame)
  }

  /** The cursor is within its frame and page, the frame counter runs in
      step with the page counter, and the offset is that of the frame. */
  predicate LockStep(h: Header, c: Cursor)
  {
    && c.i <= h.samplesPerFrame
    && c.f < h.framesPerPage
    && c.page <= h.lastPage
    && c.frame == c.page * h.framesPerPage + c.f
    && c.offset == c.frame * h.samplesPerFrame
  }

  /** Every pass of the loop keeps the lock step, including the wrap from
      the last frame back to the first. */
  lemma AdvanceKeepsLockStep(h: Header, c: Cursor, ns: nat)
    requires ProducerReady(h) && LockStep(h, c)
    requires c.i + ns <= h.samplesPerFrame
    ensures LockStep(h, Advance(h, c, ns))
  {
    var fpp, spf := h.framesPerPage, h.samplesPerFrame;
    if c.i + ns >= spf {
      MulDistrib(c.frame, spf);
      MulDistrib(c.page, fpp);
      if c.frame >= h.lastFrame {
        LastFrameIsLastOfLastPage(h, c);
      } else if c.f + 1 >= fpp && c.page >= h.lastPage {
        LastFrameIsLastOfLastPage(h, c);
      }
    }
  }

  /** Under the lock step the frame reaches last_frame exactly at the last
      frame of the last page. */
  lemma LastFrameIsLastOfLastPage(h: Header, c: Cursor)
    requires ProducerReady(h) && LockStep(h, c)
    ensures c.frame >= h.lastFrame <==> c.page == h.lastPage && c.f + 1 == h.framesPerPage
  {
    var fpp := h.framesPerPage;
    MulDistrib(h.lastPage, fpp);
    if c.page < h.lastPage {
      MulMonoRight(c.page + 1, h.lastPage, fpp);
      MulDistrib(c.page, fpp);
    }
  }

  /** The frame counter f is current_frame mod frames_per_page and the page
      is current_frame / frames_per_page. */
  lemma LockStepDivMod(h: Header, c: Cursor)
    requires ProducerReady(h) && LockStep(h, c)
    ensures c.f == c.frame % h.framesPerPage
    ensures c.page == c.frame / h.framesPerPage
  {
    DivUnique(c.frame, h.framesPerPage, c.page, c.f);
  }

  /** Under the lock step the current frame lies inside the data pages:
      writes at frame_offset + i for a chunk the request allows stay inside
      the frame, and the frame inside the (last_page + 1) data pages. */
  lemma WriteWithinFrame(h: Header, c: Cursor, chunk: nat)
    requires ProducerReady(h) && LockStep(h, c)
    ensures var ns := ChunkRequest(chunk, h.samplesPerFrame, c.i);
      c.offset <= c.offset + c.i && c.offset + c.i + ns <= c.offset + h.samplesPerFrame
    ensures c.offset + h.samplesPerFrame <= (h.lastPage + 1) * h.samplesPerPage
  {
    var fpp, spf := h.framesPerPage, h.samplesPerFrame;
    MulDistrib(c.frame, spf);
    LastFrameIsLastOfLastPage(h, c);
    MulMonoRight(c.frame + 1, h.lastFrame + 1, spf);
    MulAssoc(h.lastPage + 1, fpp, spf);
    MulMonoLeft(h.lastPage + 1, fpp * spf, h.samplesPerPage);
  }

  /** The page only moves when a frame completes as the last of its page,
      and then f restarts at 0; the frame only moves when a frame
      completes, and then the cursor restarts at 0. */
  lemma PageMovesOnlyAtPageBoundary(h: Header, c: Cursor, ns: nat)
    requires ProducerReady(h) && LockStep(h, c)
    requires c.i + ns <= h.samplesPerFrame
    ensures var r := Advance(h, c, ns);
      r.page != c.page ==> c.i + ns == h.samplesPerFrame && c.f + 1 == h.framesPerPage && r.f == 0
    ensures var r := Advance(h, c, ns);
      r.frame != c.frame ==> c.i + ns == h.samplesPerFrame && r.i == 0
  {
  }

  // ---------------------------------------------------------------------
  // The producer state

  /** An overwrite of a sequence: vals placed at position at, clipped to the
      length of a. */
  function Overwrite(a: seq<u16>, at: nat, vals: seq<u16>): (r: seq<u16>)
    ensures |r| == |a|
  {
    seq(|a|, k requires 0 <= k < |a| => if at <= k < at + |vals| then vals[k - at] else a[k])
  }

  /** The producer: the shared header, the mapped sample pages, and the
      loop variables of main. */
  class Ring {
    /** The header as the producer read it at start-up. */
    const geo: Header
    /** The shared header record; the producer stores current_page and
        current_frame into it. */
    var hdr: Header
    /** The mapped data pages. */
    const samples: array<u16>
    const chunkSize: nat
    const udelay: nat
    var i: nat
    var f: nat
    var currentPage: nat
    var currentFrame: nat
    var frameOffset: nat

    function Position(): Cursor
      reads this
    {
      Cursor(i, f, currentPage, currentFrame, frameOffset)
    }

    ghost predicate Valid()
      reads this
    {
      && ProducerReady(geo)
      && samples.Length >= (geo.lastPage + 1) * geo.samplesPerPage
      && MinChunkSize <= chunkSize <= MaxChunkSize
      && LockStep(geo, Position())
      && hdr == geo.(currentPage := currentPage, currentFrame := currentFrame)
    }

    /** The set-up of main: the header fields are read once and the cursor
        starts at the first frame. */
    constructor (h: Header, data: array<u16>, chunk: nat, delay: nat)
      requires ProducerReady(h)
      requires data.Length >= (h.lastPage + 1) * h.samplesPerPage
      requires MinChunkSize <= chunk <= MaxChunkSize
      ensures Valid()
      ensures geo == h && hdr == h && samples == data
      ensures chunkSize == chunk && udelay == delay
      ensures Position() == Cursor(0, 0, 0, 0, 0)
    {
      geo := h;
      hdr := h;
      samples := data;
      chunkSize := chunk;
      udelay := delay;
      i, f := 0, 0;
      currentPage := h.currentPage;
      currentFrame := h.currentFrame;
      frameOffset := h.firstFrame * h.samplesPerFrame;
    }

    /** One pass of the producer loop. src is what the sample source
        delivers; when delivered is false the source failed (an ioctl error)
        and left the buffer untouched, and the loop advances anyway. */
    method Step(src: seq<u16>, delivered: bool) returns (ns: nat, delay: nat)
      requires Valid()
      requires |src| >= chunkSize
      modifies this, samples
      ensures Valid()
      ensures ns == ChunkRequest(chunkSize, geo.samplesPerFrame, old(i))
      ensures delay == PacingDelay(udelay)
      ensures Position() == Advance(geo, old(Position()), ns)
      ensures samples[..] == if delivered then Overwrite(old(samples[..]), Pos(old(Position())), src[..ns])
                             else old(samples[..])
      ensures hdr == old(hdr).(currentPage := currentPage, currentFrame := currentFrame)
    {
      ns := chunkSize;
      var remain := geo.samplesPerFrame - i;
      if ns > remain {
        ns := remain;
      }
      delay := if udelay > MaxDelay then MaxDelay else udelay;
      WriteWithinFrame(geo, Position(), chunkSize);
      if delivered {
        Store(frameOffset + i, src[..ns]);
      }
      AdvanceKeepsLockStep(geo, Position(), ns);
      Move(ns);
    }

    /** The producer loop (xample.c:441-487) for a finite run of passes,
        passes[k] being what the sample source did in pass k. */
    method Run(passes: seq<Read>)
      requires Valid() && ReadsFit(chunkSize, passes)
      modifies this, samples
      ensures Valid()
      ensures Position() == Walk(geo, old(Position()), chunkSize, |passes|)
      ensures samples[..] == Fill(geo, old(Position()), chunkSize, passes, old(samples[..]))
    {
      ghost var c0, a0 := Position(), samples[..];
      var k := 0;
      while k < |passes|
        invariant 0 <= k <= |passes| && Valid()
        invariant Position() == Walk(geo, c0, chunkSize, k)
        invariant samples[..] == Fill(geo, c0, chunkSize, passes[..k], a0)
      {
        var ns, delay := Step(passes[k].values, passes[k].ok);
        FillNext(geo, c0, chunkSize, passes, k, a0);
        k := k + 1;
      }
      assert passes[..k] == passes;
    }

    /** The sample source filling sample_buffer + frame_offset + i. */
    method Store(lo: nat, vals: seq<u16>)
      requires lo + |vals| <= samples.Length
      modifies samples
      ensures samples[..] == Overwrite(old(samples[..]), lo, vals)
    {
      var j := 0;
      while j < |vals|
        invariant 0 <= j <= |vals|
        invariant samples[..] == Overwrite(old(samples[..]), lo, vals[..j])
      {
        samples[lo + j] := vals[j];
        j := j + 1;
        assert samples[..] == Overwrite(old(samples[..]), lo, vals[..j]);
      }
      assert vals[..j] == vals;
    }

    /** The bookkeeping after a request of ns samples: frame completion,
        page publication and frame wrap-around. */
    method Move(ns: nat)
      requires hdr.currentPage == currentPage && hdr.currentFrame == currentFrame
      modifies this
      ensures Position() == Advance(geo, old(Position()), ns)
      ensures hdr == old(hdr).(currentPage := currentPage, currentFrame := currentFrame)
    {
      var spf := geo.samplesPerFrame;
      i := i + ns;
      if i >= spf {
        f := f + 1;
        if f >= geo.framesPerPage {
          if currentPage >= geo.lastPage {
            currentPage := geo.firstPage;
          } else {
            currentPage := currentPage + 1;
          }
          f := 0;
          hdr := hdr.(currentPage := currentPage);
        }
        i := 0;
        if currentFrame >= geo.lastFrame {
          currentFrame := geo.firstFrame;
          frameOffset := geo.firstFrame * spf;
        } else {
          currentFrame := currentFrame + 1;
          frameOffset := frameOffset + spf;
        }
        hdr := hdr.(currentFrame := currentFrame);
      }
    }
  }

  // ---------------------------------------------------------------------
  // A run of passes: pages are filled in order before they are published

  /** What one call of read_n_samples_fn did: the samples it delivered and
      whether the transfer succeeded. */
  datatype Read = Read(values: seq<u16>, ok: bool)

  /** Every read can serve a request of up to chunk samples. */
  predicate ReadsFit(chunk: nat, passes: seq<Read>)
  {
    forall k :: 0 <= k < |passes| ==> |passes[k].values| >= chunk
  }

  /** The sample index the next request writes to: frame_offset + i. */
  function Pos(c: Cursor): nat
  {
    c.offset + c.i
  }

  /** Whether the pass that requested ns samples at c completes the last
      frame of its page, and so stores current_page (xample.c:460-467). */
  predicate Publishes(h: Header, c: Cursor, ns: nat)
  {
    c.i + ns >= h.samplesPerFrame && c.f + 1 >= h.framesPerPage
  }

  /** The cursor after n passes from c, each requesting the chunk cut to
      its frame. */
  function Walk(h: Header, c: Cursor, chunk: nat, n: nat): (r: Cursor)
    requires ProducerReady(h) && LockStep(h, c)
    ensures LockStep(h, r)
  {
    if n == 0 then c
    else
      var w := Walk(h, c, chunk, n - 1);
      var ns := ChunkRequest(chunk, h.samplesPerFrame, w.i);
      AdvanceKeepsLockStep(h, w, ns);
      Advance(h, w, ns)
  }

  /** Whether pass k from c publishes its page. */
  predicate PublishesAt(h: Header, c: Cursor, chunk: nat, k: nat)
    requires ProducerReady(h) && LockStep(h, c)
  {
    var w := Walk(h, c, chunk, k);
    Publishes(h, w, ChunkRequest(chunk, h.samplesPerFrame, w.i))
  }

  /** The sample area after the passes of passes from c: each successful
      read is stored at frame_offset + i of its pass. */
  function Fill(h: Header, c: Cursor, chunk: nat, passes: seq<Read>, a: seq<u16>): (r: seq<u16>)
    requires ProducerReady(h) && LockStep(h, c) && ReadsFit(chunk, passes)
    ensures |r| == |a|
    decreases |passes|
  {
    if passes == [] then a
    else
      var n := |passes| - 1;
      var w := Walk(h, c, chunk, n);
      var ns := ChunkRequest(chunk, h.samplesPerFrame, w.i);
      var prev := Fill(h, c, chunk, passes[..n], a);
      if passes[n].ok then Overwrite(prev, Pos(w), passes[n].values[..ns]) else prev
  }

  /** The samples the passes of passes request, in order. */
  function Delivered(h: Header, c: Cursor, chunk: nat, passes: seq<Read>): seq<u16>
    requires ProducerReady(h) && LockStep(h, c) && ReadsFit(chunk, passes)
    decreases |passes|
  {
    if passes == [] then []
    else
      var n := |passes| - 1;
      var w := Walk(h, c, chunk, n);
      Delivered(h, c, chunk, passes[..n]) + passes[n].values[..ChunkRequest(chunk, h.samplesPerFrame, w.i)]
  }

  /** One pass writes a non-empty run inside the frames of its page. If
      it does not publish, the next pass writes right after it on the same
      page; if it does, the run ends exactly at the end of the page's
      frames and the next pass starts at the beginning of the next page
      (page 0 after the last one). */
  lemma {:induction false} StepTiles(h: Header, c: Cursor, chunk: nat)
    requires ProducerReady(h) && LockStep(h, c) && c.i < h.samplesPerFrame && chunk >= 1
    ensures var ns := ChunkRequest(chunk, h.samplesPerFrame, c.i);
      var r := Advance(h, c, ns);
      var span := h.framesPerPage * h.samplesPerFrame;
      && 0 < ns
      && c.page * span <= Pos(c) && Pos(c) + ns <= (c.page + 1) * span
      && (!Publishes(h, c, ns) ==> r.page == c.page && Pos(r) == Pos(c) + ns && r.i < h.samplesPerFrame)
      && (Publishes(h, c, ns) ==>
            && Pos(c) + ns == (c.page + 1) * span
            && r.i == 0 && r.f == 0 && r.page == (if c.page >= h.lastPage then 0 else c.page + 1)
            && Pos(r) == r.page * span)
  {
    var ns := ChunkRequest(chunk, h.samplesPerFrame, c.i);
    var r := Advance(h, c, ns);
    StepCursor(h, c, chunk);
    PageBounds(h, c, ns);
    if Publishes(h, c, ns) {
      PublishEnd(h, c, ns);
      AdvanceKeepsLockStep(h, c, ns);
      EntryPos(h, r);
    }
  }

  /** A request that fits its frame lies inside the frames of its page. */
  lemma PageBounds(h: Header, c: Cursor, ns: nat)
    requires LockStep(h, c) && c.i + ns <= h.samplesPerFrame
    ensures var span := h.framesPerPage * h.samplesPerFrame;
      c.page * span <= Pos(c) && Pos(c) + ns <= (c.page + 1) * span
  {
    var fpp, spf := h.framesPerPage, h.samplesPerFrame;
    MulAssoc(c.page, fpp, spf);
    MulAssoc(c.page + 1, fpp, spf);
    MulMonoRight(c.page * fpp, c.frame, spf);
    MulDistrib(c.frame, spf);
    MulDistrib(c.page, fpp);
    MulMonoRight(c.frame + 1, (c.page + 1) * fpp, spf);
  }

  /** The cursor part of StepTiles: a pass that does not publish stays on
      its page and moves the write position by its request; one that
      publishes restarts at the first sample of the next page. */
  lemma {:induction false} StepCursor(h: Header, c: Cursor, chunk: nat)
    requires ProducerReady(h) && LockStep(h, c) && c.i < h.samplesPerFrame && chunk >= 1
    ensures var ns := ChunkRequest(chunk, h.samplesPerFrame, c.i);
      var r := Advance(h, c, ns);
      && 0 < ns
      && (!Publishes(h, c, ns) ==> r.page == c.page && Pos(r) == Pos(c) + ns && r.i < h.samplesPerFrame)
      && (Publishes(h, c, ns) ==>
            r.i == 0 && r.f == 0 && r.page == (if c.page >= h.lastPage then 0 else c.page + 1))
  {
    LastFrameIsLastOfLastPage(h, c);
    MulDistrib(c.frame, h.samplesPerFrame);
  }

  /** Overwriting a run changes exactly that run. */
  lemma OverwriteSlices(a: seq<u16>, at: nat, v: seq<u16>)
    requires at + |v| <= |a|
    ensures var r := Overwrite(a, at, v);
      && r[..at] == a[..at] && r[at..at + |v|] == v && r[at + |v|..] == a[at + |v|..]
  {
  }

  /** A run d written from lo, followed by v written right after it, is
      the run d + v written from lo. */
  lemma ExtendRun(r: seq<u16>, a: seq<u16>, lo: nat, d: seq<u16>, v: seq<u16>, r': seq<u16>, d': seq<u16>)
    requires lo + |d| + |v| <= |r| == |a|
    requires r[lo..lo + |d|] == d && r[..lo] == a[..lo] && r[lo + |d|..] == a[lo + |d|..]
    requires r' == Overwrite(r, lo + |d|, v) && d' == d + v
    ensures |d'| == |d| + |v| && lo + |d'| <= |r'| == |a|
    ensures r'[lo..lo + |d'|] == d' && r'[..lo] == a[..lo] && r'[lo + |d'|..] == a[lo + |d'|..]
  {
    var at := lo + |d|;
    OverwriteSlices(r, at, v);
    assert r'[..at] == r[..at];
    assert r'[lo..at] == r[lo..at] by {
      assert r'[lo..at] == r'[..at][lo..] && r[lo..at] == r[..at][lo..];
    }
    assert r'[lo..at + |v|] == r'[lo..at] + r'[at..at + |v|];
    assert r'[..lo] == r[..lo] by {
      assert r'[..lo] == r'[..at][..lo] && r[..lo] == r[..at][..lo];
    }
    assert r'[at + |v|..] == r[at + |v|..];
    assert r[at + |v|..] == a[at + |v|..] by {
      assert r[at + |v|..] == r[at..][|v|..] && a[at + |v|..] == a[at..][|v|..];
    }
  }

  /** One more pass on top of the first k. */
  lemma {:induction false} FillNext(h: Header, c: Cursor, chunk: nat, passes: seq<Read>, k: nat, a: seq<u16>)
    requires ProducerReady(h) && LockStep(h, c) && ReadsFit(chunk, passes) && k < |passes|
    ensures ReadsFit(chunk, passes[..k]) && ReadsFit(chunk, passes[..k + 1])
    ensures var w := Walk(h, c, chunk, k);
      Walk(h, c, chunk, k + 1) == Advance(h, w, ChunkRequest(chunk, h.samplesPerFrame, w.i))
    ensures var w := Walk(h, c, chunk, k);
      var ns := ChunkRequest(chunk, h.samplesPerFrame, w.i);
      var prev := Fill(h, c, chunk, passes[..k], a);
      Fill(h, c, chunk, passes[..k + 1], a)
        == if passes[k].ok then Overwrite(prev, Pos(w), passes[k].values[..ns]) else prev
  {
    var pre, next := passes[..k], passes[..k + 1];
    assert next[..k] == pre;
    assert ReadsFit(chunk, next) by {
      forall j | 0 <= j < |next| ensures |next[j].values| >= chunk {
        assert next[j] == passes[j];
      }
    }
    assert ReadsFit(chunk, pre) by {
      forall j | 0 <= j < |pre| ensures |pre[j].values| >= chunk {
        assert pre[j] == passes[j];
      }
    }
  }

  /** The last of a run of passes, taken apart. */
  lemma {:induction false} UnfoldLast(h: Header, c: Cursor, chunk: nat, passes: seq<Read>, a: seq<u16>)
    requires ProducerReady(h) && LockStep(h, c) && ReadsFit(chunk, passes)
    requires |passes| > 0 && passes[|passes| - 1].ok
    ensures var n := |passes| - 1;
      var w := Walk(h, c, chunk, n);
      var ns := ChunkRequest(chunk, h.samplesPerFrame, w.i);
      var v := passes[n].values[..ns];
      && ReadsFit(chunk, passes[..n])
      && Delivered(h, c, chunk, passes) == Delivered(h, c, chunk, passes[..n]) + v
      && Fill(h, c, chunk, passes, a) == Overwrite(Fill(h, c, chunk, passes[..n], a), Pos(w), v)
  {
    var n := |passes| - 1;
    assert ReadsFit(chunk, passes[..n]) by {
      forall k | 0 <= k < n ensures |passes[..n][k].values| >= chunk {
        assert passes[..n][k] == passes[k];
      }
    }
  }

  /** Passes that all succeed and do not publish write their requests one
      after the other from frame_offset + i on, inside the page, and
      change nothing else. */
  lemma {:induction false} FillWithinPage(h: Header, c: Cursor, chunk: nat, passes: seq<Read>, a: seq<u16>)
    requires ProducerReady(h) && LockStep(h, c) && c.i < h.samplesPerFrame && chunk >= 1
    requires ReadsFit(chunk, passes) && (c.page + 1) * (h.framesPerPage * h.samplesPerFrame) <= |a|
    requires forall k :: 0 <= k < |passes| ==> passes[k].ok && !PublishesAt(h, c, chunk, k)
    ensures var w := Walk(h, c, chunk, |passes|);
      var d := Delivered(h, c, chunk, passes);
      var r := Fill(h, c, chunk, passes, a);
      && w.page == c.page && w.i < h.samplesPerFrame && Pos(w) == Pos(c) + |d|
      && Pos(c) + |d| <= (c.page + 1) * (h.framesPerPage * h.samplesPerFrame)
      && r[Pos(c)..Pos(c) + |d|] == d
      && r[..Pos(c)] == a[..Pos(c)] && r[Pos(c) + |d|..] == a[Pos(c) + |d|..]
    decreases |passes|
  {
    if passes == [] {
      StepTiles(h, c, chunk);
    } else {
      var n := |passes| - 1;
      var pre := passes[..n];
      UnfoldLast(h, c, chunk, passes, a);
      PrefixPasses(h, c, chunk, passes, n);
      FillWithinPage(h, c, chunk, pre, a);
      var w := Walk(h, c, chunk, n);
      var ns := ChunkRequest(chunk, h.samplesPerFrame, w.i);
      assert |pre| == n;
      QuietStep(h, c, chunk, n, w, ns);
      var r0, d0 := Fill(h, c, chunk, pre, a), Delivered(h, c, chunk, pre);
      var v := passes[n].values[..ns];
      assert Pos(w) == Pos(c) + |d0| && |v| == ns;
      assert Pos(c) + |d0| + |v| <= |a|;
      ExtendRun(r0, a, Pos(c), d0, v, Fill(h, c, chunk, passes, a), Delivered(h, c, chunk, passes));
    }
  }

  /** A pass n that does not publish, on the page the run started on,
      keeps the cursor on that page and moves the write position by its
      request, which ends inside the page. */
  lemma QuietStep(h: Header, c: Cursor, chunk: nat, n: nat, w: Cursor, ns: nat)
    requires ProducerReady(h) && LockStep(h, c) && chunk >= 1 && !PublishesAt(h, c, chunk, n)
    requires w == Walk(h, c, chunk, n) && w.page == c.page && w.i < h.samplesPerFrame
    requires ns == ChunkRequest(chunk, h.samplesPerFrame, w.i)
    ensures var r := Walk(h, c, chunk, n + 1);
      r.page == c.page && r.i < h.samplesPerFrame && Pos(r) == Pos(w) + ns
    ensures Pos(w) + ns <= (c.page + 1) * (h.framesPerPage * h.samplesPerFrame)
  {
    assert Walk(h, c, chunk, n + 1) == Advance(h, w, ns);
    StepCursor(h, w, chunk);
    PageBounds(h, w, ns);
  }

  /** A prefix of passes that all succeed without publishing. */
  lemma {:induction false} PrefixPasses(h: Header, c: Cursor, chunk: nat, passes: seq<Read>, n: nat)
    requires ProducerReady(h) && LockStep(h, c) && n <= |passes|
    requires forall k :: 0 <= k < n ==> passes[k].ok && !PublishesAt(h, c, chunk, k)
    ensures forall k :: 0 <= k < |passes[..n]| ==> passes[..n][k].ok && !PublishesAt(h, c, chunk, k)
  {
    forall k | 0 <= k < n ensures passes[..n][k].ok && !PublishesAt(h, c, chunk, k) {
      assert passes[..n][k] == passes[k];
    }
  }

  /** The passes from c up to the one that publishes its page, all
      succeeding, write the delivered samples from frame_offset + i to the
      end of the page's frames and change nothing else. */
  lemma {:induction false} PublishingRun(h: Header, c: Cursor, chunk: nat, passes: seq<Read>, a: seq<u16>)
    requires ProducerReady(h) && LockStep(h, c) && c.i < h.samplesPerFrame && chunk >= 1
    requires ReadsFit(chunk, passes) && (c.page + 1) * (h.framesPerPage * h.samplesPerFrame) <= |a|
    requires |passes| >= 1 && forall k :: 0 <= k < |passes| ==> passes[k].ok
    requires forall k :: 0 <= k < |passes| - 1 ==> !PublishesAt(h, c, chunk, k)
    requires PublishesAt(h, c, chunk, |passes| - 1)
    ensures var span := h.framesPerPage * h.samplesPerFrame;
      var lo, hi := Pos(c), (c.page + 1) * span;
      var d := Delivered(h, c, chunk, passes);
      var r := Fill(h, c, chunk, passes, a);
      && lo + |d| == hi && hi <= |r|
      && r[lo..hi] == d && r[..lo] == a[..lo] && r[hi..] == a[hi..]
  {
    var span := h.framesPerPage * h.samplesPerFrame;
    var n := |passes| - 1;
    var pre := passes[..n];
    var w := Walk(h, c, chunk, n);
    var ns := ChunkRequest(chunk, h.samplesPerFrame, w.i);
    var r0, d0 := Fill(h, c, chunk, pre, a), Delivered(h, c, chunk, pre);
    var r1, d1 := Fill(h, c, chunk, passes, a), Delivered(h, c, chunk, passes);
    var v := passes[n].values[..ns];
    assert r1 == Overwrite(r0, Pos(w), v) && d1 == d0 + v && |v| == ns by {
      UnfoldLast(h, c, chunk, passes, a);
    }
    PrefixRun(h, c, chunk, passes, a, w, r0, d0);
    PublishingStepEnd(h, c, chunk, n, w, ns);
    ExtendRun(r0, a, Pos(c), d0, v, r1, d1);
  }

  /** The publishing pass n, on the page the run started on, ends at the
      end of that page's frames. */
  lemma PublishingStepEnd(h: Header, c: Cursor, chunk: nat, n: nat, w: Cursor, ns: nat)
    requires ProducerReady(h) && LockStep(h, c) && PublishesAt(h, c, chunk, n)
    requires w == Walk(h, c, chunk, n) && w.page == c.page
    requires ns == ChunkRequest(chunk, h.samplesPerFrame, w.i)
    ensures Pos(w) + ns == (c.page + 1) * (h.framesPerPage * h.samplesPerFrame)
  {
    assert Publishes(h, w, ns);
    PublishEnd(h, w, ns);
  }

  /** The passes before the publishing one, as FillWithinPage states them. */
  lemma {:induction false} PrefixRun(h: Header, c: Cursor, chunk: nat, passes: seq<Read>, a: seq<u16>,
                                     w: Cursor, r0: seq<u16>, d0: seq<u16>)
    requires ProducerReady(h) && LockStep(h, c) && c.i < h.samplesPerFrame && chunk >= 1
    requires ReadsFit(chunk, passes) && (c.page + 1) * (h.framesPerPage * h.samplesPerFrame) <= |a|
    requires |passes| >= 1 && forall k :: 0 <= k < |passes| ==> passes[k].ok
    requires forall k :: 0 <= k < |passes| - 1 ==> !PublishesAt(h, c, chunk, k)
    requires ReadsFit(chunk, passes[..|passes| - 1])
    requires w == Walk(h, c, chunk, |passes| - 1)
    requires r0 == Fill(h, c, chunk, passes[..|passes| - 1], a)
    requires d0 == Delivered(h, c, chunk, passes[..|passes| - 1])
    ensures w.page == c.page && w.i < h.samplesPerFrame && Pos(w) == Pos(c) + |d0| && |r0| == |a|
    ensures Pos(c) + |d0| <= |r0|
    ensures r0[Pos(c)..Pos(c) + |d0|] == d0
    ensures r0[..Pos(c)] == a[..Pos(c)] && r0[Pos(c) + |d0|..] == a[Pos(c) + |d0|..]
  {
    var n := |passes| - 1;
    var pre := passes[..n];
    assert |pre| == n;
    PrefixPasses(h, c, chunk, passes, n);
    FillWithinPage(h, c, chunk, pre, a);
  }

  /** A publishing pass ends exactly at the end of its page's frames. */
  lemma PublishEnd(h: Header, c: Cursor, ns: nat)
    requires ProducerReady(h) && LockStep(h, c) && c.i + ns <= h.samplesPerFrame
    requires Publishes(h, c, ns)
    ensures Pos(c) + ns == (c.page + 1) * (h.framesPerPage * h.samplesPerFrame)
  {
    var fpp, spf := h.framesPerPage, h.samplesPerFrame;
    MulAssoc(c.page + 1, fpp, spf);
    MulDistrib(c.frame, spf);
    MulDistrib(c.page, fpp);
  }

  /** The passes from c up to the one that publishes its page, all
      succeeding, leave exactly the delivered samples from frame_offset + i
      to the end of the page's frames and change nothing else; the next
      pass starts at the first frame of the next page. From the first
      frame of a page (i = f = 0) that is the whole page: a page is
      complete, in order and without gaps, when current_page moves past it. */
  lemma {:induction false} PageFill(h: Header, c: Cursor, chunk: nat, passes: seq<Read>, a: seq<u16>)
    requires ProducerReady(h) && LockStep(h, c) && c.i < h.samplesPerFrame && chunk >= 1
    requires ReadsFit(chunk, passes) && |a| >= (h.lastPage + 1) * (h.framesPerPage * h.samplesPerFrame)
    requires |passes| >= 1 && forall k :: 0 <= k < |passes| ==> passes[k].ok
    requires forall k :: 0 <= k < |passes| - 1 ==> !PublishesAt(h, c, chunk, k)
    requires PublishesAt(h, c, chunk, |passes| - 1)
    ensures var span := h.framesPerPage * h.samplesPerFrame;
      var lo, hi := Pos(c), (c.page + 1) * span;
      var r := Fill(h, c, chunk, passes, a);
      var w := Walk(h, c, chunk, |passes|);
      && lo <= hi <= |r|
      && r[lo..hi] == Delivered(h, c, chunk, passes)
      && r[..lo] == a[..lo] && r[hi..] == a[hi..]
      && w.i == 0 && w.f == 0 && w.page == (if c.page >= h.lastPage then 0 else c.page + 1)
      && (c.i == 0 && c.f == 0 ==> lo == c.page * span)
  {
    var span := h.framesPerPage * h.samplesPerFrame;
    assert (c.page + 1) * span <= |a| by {
      MulMonoRight(c.page + 1, h.lastPage + 1, span);
    }
    PublishingRun(h, c, chunk, passes, a);
    PublishingWalk(h, c, chunk, |passes|);
    if c.i == 0 && c.f == 0 {
      EntryPos(h, c);
    }
  }

  /** At the first sample of a page the write position is the page's
      first sample. */
  lemma EntryPos(h: Header, c: Cursor)
    requires LockStep(h, c) && c.i == 0 && c.f == 0
    ensures Pos(c) == c.page * (h.framesPerPage * h.samplesPerFrame)
  {
    MulAssoc(c.page, h.framesPerPage, h.samplesPerFrame);
  }

  /** Passes that do not publish keep the cursor on its page and inside
      a frame. */
  lemma {:induction false} WalkWithinPage(h: Header, c: Cursor, chunk: nat, n: nat)
    requires ProducerReady(h) && LockStep(h, c) && c.i < h.samplesPerFrame && chunk >= 1
    requires forall k :: 0 <= k < n ==> !PublishesAt(h, c, chunk, k)
    ensures Walk(h, c, chunk, n).page == c.page && Walk(h, c, chunk, n).i < h.samplesPerFrame
  {
    if n > 0 {
      WalkWithinPage(h, c, chunk, n - 1);
      assert !PublishesAt(h, c, chunk, n - 1);
      StepCursor(h, Walk(h, c, chunk, n - 1), chunk);
    }
  }

  /** The pass that publishes moves the cursor to the first sample of the
      next page, or of page 0 after the last page. */
  lemma {:induction false} PublishingWalk(h: Header, c: Cursor, chunk: nat, m: nat)
    requires ProducerReady(h) && LockStep(h, c) && c.i < h.samplesPerFrame && chunk >= 1
    requires m >= 1
    requires forall k :: 0 <= k < m - 1 ==> !PublishesAt(h, c, chunk, k)
    requires PublishesAt(h, c, chunk, m - 1)
    ensures var w := Walk(h, c, chunk, m);
      w.i == 0 && w.f == 0 && w.page == (if c.page >= h.lastPage then 0 else c.page + 1)
  {
    WalkWithinPage(h, c, chunk, m - 1);
    var w := Walk(h, c, chunk, m - 1);
    var ns := ChunkRequest(chunk, h.samplesPerFrame, w.i);
    assert Walk(h, c, chunk, m) == Advance(h, w, ns);
    assert Publishes(h, w, ns);
    StepCursor(h, w, chunk);
  }

  // ---------------------------------------------------------------------
  // Sample sources: channel cycling and the MCP3202 decode

  /** Three bytes of one SPI transfer. */
  datatype Triple = Triple(b0: u8, b1: u8, b2: u8)

  /** One spi_ioc_transfer: its transmit bytes and its delay. */
  datatype Transfer = Transfer(tx: Triple, delayUsecs: nat)

  /** (2 + channel) << 6 stored into a uint8_t: the start, single-ended and
      channel-select bits of the converter's second command byte. */
  function CommandByte(channel: nat): (r: u8)
    ensures r as nat % 64 == 0
    ensures channel < 2 ==> r as nat == 128 + 64 * channel
  {
    ShiftSixByte(2 + channel);
    (((2 + channel) * 64) % 256) as u8
  }

  /** x << 6 cut to eight bits keeps the two low bits of x, in bits 6-7. */
  lemma ShiftSixByte(x: nat)
    ensures (x * 64) % 256 == 64 * (x % 4)
  {
    DivMod(x, 4);
    var q, r := x / 4, x % 4;
    assert x * 64 == q * 256 + 64 * r;
    DivUnique(x * 64, 256, q, 64 * r);
  }

  /** ((rx[j+1] & 0xf) << 8) + rx[j+2], shifted left by 4: a 12-bit reading
      scaled to 16 bits. */
  function DecodeSample(hi: u8, lo: u8): (v: u16)
    ensures v as nat % 16 == 0 && v as nat <= 0xFFF0
  {
    (((hi as nat % 16) * 256 + lo as nat) * 16) as u16
  }

  /** The decode recovers a 12-bit reading sent as its high nibble and low
      byte, scaled by 16, and ignores the upper nibble of the first byte. */
  lemma DecodeTwelveBits(x: nat, junk: nat)
    requires x < 4096 && junk < 16
    ensures DecodeSample((junk * 16 + x / 256) as u8, (x % 256) as u8) as nat == x * 16
  {
    assert (junk * 16 + x / 256) % 16 == x / 256;
  }

  /** The k-cycling of the sample sources: k is i mod nchan and the number
      of wraps so far is i / nchan. */
  lemma CycleStep(t: nat, k: nat, nchan: nat)
    requires nchan >= 1 && k == t % nchan
    ensures (if k + 1 >= nchan then 0 else k + 1) == (t + 1) % nchan
    ensures (t + 1) / nchan == t / nchan + (if k + 1 >= nchan then 1 else 0)
  {
    var q := t / nchan;
    DivMod(t, nchan);
    if k + 1 >= nchan {
      MulDistrib(q, nchan);
      DivUnique(t + 1, nchan, q + 1, 0);
    } else {
      DivUnique(t + 1, nchan, q, k + 1);
    }
  }

  /** read_n_samples_spi: at most 256 transfers, the i-th addressed to
      channel selector[i mod nchan]; on success each sample is decoded from
      its reply, on an ioctl failure nothing is stored and 0 is returned. */
  method ReadNSamplesSpi(selector: seq<nat>, nchan: nat, delay: nat, n: nat, rx: seq<Triple>, transferOk: bool)
    returns (count: nat, transfers: seq<Transfer>, samples: seq<u16>)
    requires 1 <= nchan <= |selector|
    requires |rx| >= Min(n, MaxTransfers)
    ensures |transfers| == Min(n, MaxTransfers)
    ensures forall t :: 0 <= t < |transfers| ==>
      transfers[t] == Transfer(Triple(1, CommandByte(selector[t % nchan]), 0), delay)
    ensures count == if transferOk then Min(n, MaxTransfers) else 0
    ensures |samples| == count
    ensures forall t :: 0 <= t < count ==> samples[t] == DecodeSample(rx[t].b1, rx[t].b2)
  {
    var m := n;
    if m > MaxTransfers {
      m := MaxTransfers;
    }
    transfers := [];
    var t, k := 0, 0;
    while t < m
      invariant 0 <= t <= m && |transfers| == t
      invariant k == t % nchan
      invariant forall u :: 0 <= u < t ==>
        transfers[u] == Transfer(Triple(1, CommandByte(selector[u % nchan]), 0), delay)
    {
      transfers := transfers + [Transfer(Triple(1, CommandByte(selector[k]), 0), delay)];
      CycleStep(t, k, nchan);
      k := k + 1;
      if k >= nchan {
        k := 0;
      }
      t := t + 1;
    }
    if !transferOk {
      return 0, transfers, [];
    }
    samples := [];
    t := 0;
    while t < m
      invariant 0 <= t <= m && |samples| == t
      invariant forall u :: 0 <= u < t ==> samples[u] == DecodeSample(rx[u].b1, rx[u].b2)
    {
      samples := samples + [DecodeSample(rx[t].b1, rx[t].b2)];
      t := t + 1;
    }
    count := m;
  }

  /** The index logic of read_n_samples_sim: the i-th sample is read from
      channel selector[i mod nchan], and the source sleeps once each time
      the selector wraps. */
  method ReadNSamplesSim(selector: seq<nat>, nchan: nat, n: nat) returns (channels: seq<nat>, sleeps: nat)
    requires 1 <= nchan <= |selector|
    ensures |channels| == n
    ensures forall t :: 0 <= t < n ==> channels[t] == selector[t % nchan]
    ensures sleeps == n / nchan
  {
    channels := [];
    sleeps := 0;
    var t, k := 0, 0;
    while t < n
      invariant 0 <= t <= n && |channels| == t
      invariant k == t % nchan && sleeps == t / nchan
      invariant forall u :: 0 <= u < t ==> channels[u] == selector[u % nchan]
    {
      channels := channels + [selector[k]];
      CycleStep(t, k, nchan);
      k := k + 1;
      if k >= nchan {
        k := 0;
        sleeps := sleeps + 1;
      }
      t := t + 1;
    }
  }

  // ---------------------------------------------------------------------
  // read_sample_spi as written

  /** A byte read through a signed char. */
  function SignedChar(b: u8): int
  {
    if b >= 128 then b as int - 256 else b as int
  }

  /** read_sample_spi as written: rx is a char array, so where char is
      signed rx[2] is sign-extended before the addition; the sum is stored
      in a sample_t and the shifted value truncated to sample_t on return. */
  function DecodeSampleSignedChar(hi: u8, lo: u8): (v: u16)
  {
    var sum := ((hi as int % 16) * 256 + SignedChar(lo)) % U16;
    ((sum * 16) % U16) as u16
  }

  /** The as-written decode agrees with the intended one exactly when the
      low byte is below 0x80. */
  lemma SignedCharDecodeDiffers(hi: u8, lo: u8)
    ensures DecodeSampleSignedChar(hi, lo) == DecodeSample(hi, lo) <==> lo < 128
  {
    var x := (hi as int % 16) * 256 + lo as int;
    if lo >= 128 {
      if x >= 256 {
        assert DecodeSampleSignedChar(hi, lo) as int == (x - 256) * 16;
      } else {
        assert DecodeSampleSignedChar(hi, lo) as int == (x - 256 + U16) * 16 - 15 * U16;
      }
    }
  }

  /** The reply 0x01 0x80 (reading 0x180) decodes to 0x0800 instead of
      0x1800. */
  lemma SignedCharCounterexample()
    ensures DecodeSampleSignedChar(0x01, 0x80) == 0x0800
    ensures DecodeSample(0x01, 0x80) == 0x1800
  {
  }
}
