// The consumer of the sample ring (c_src/xample_logger.c, main): it waits
// for the producer to publish a new current page, scans the page it had
// been waiting on for a start condition, records whole pages into
// xam_<fno>.wav until a stop condition, a sample count or a time budget
// ends the recording, and rotates the file index over 0..9.
//
// The polling of xp->current_page becomes a sequence of Poll values: what
// the wait loop read, the contents of the sample area at that moment, and
// whether fopen would succeed if a file were opened while handling it.

module Logger {
  import opened Base
  import opened Arith
  import opened Trigger
  import opened Wav

  /** DEF_MAX_SAMPLES and the number of file names xam_0 .. xam_9. */
  const DefMaxSamples: nat := 1024 * 1024
  const FileCount: nat := 10

  /** cond1 when no -s is given: above 0 or at most 1, which every value is. */
  const DefaultStart: Trigger := Trigger(UpperLimitExceeded | BelowLowerLimit, 0, 1, 0, 0, 0)

  // ---------------------------------------------------------------------
  // page_align and the options

  /** page_align on size_t: rounds v up to a multiple of page_size. When
      v + page_size - 1 wraps past 2^64 the result is 0. page_size is an
      int in the source, so it is positive and below 2^31 here. */
  function PageAlign(v: nat, pageSize: nat): (r: nat)
    requires v < U64 && 0 < pageSize < 0x8000_0000
    ensures r < U64
    ensures v + pageSize - 1 < U64 ==> r % pageSize == 0 && v <= r < v + pageSize
    ensures v + pageSize - 1 >= U64 ==> r == 0
  {
    var x := (v + pageSize - 1) % U64;
    PageAlignFacts(v, pageSize, x);
    (x / pageSize) * pageSize
  }

  lemma PageAlignFacts(v: nat, pageSize: nat, x: nat)
    requires v < U64 && 0 < pageSize < 0x8000_0000 && x == (v + pageSize - 1) % U64
    ensures var r := (x / pageSize) * pageSize;
      && r <= x && r % pageSize == 0
      && (v + pageSize - 1 < U64 ==> v <= r < v + pageSize)
      && (v + pageSize - 1 >= U64 ==> r == 0)
  {
    var q := x / pageSize;
    DivMod(x, pageSize);
    DivOfMul(q, pageSize);
    if v + pageSize - 1 < U64 {
      assert x == v + pageSize - 1;
      CeilDiv(v, pageSize);
    } else {
      assert x == v + pageSize - 1 - U64;
      assert x < pageSize;
      assert q == 0;
    }
  }

  /** What the logger runs with once the options are read and the ring is
      open. pages is last_page + 1 (the sample area starts at page 0). */
  datatype Config = Config(
    samplesPerPage: nat,
    pages: nat,
    channels: nat,
    rate: nat,
    maxSamples: nat,
    maxSamplesT: nat,
    start: Trigger,
    stop: Trigger)

  /** A -s or -e option: absent keeps the default, present replaces it
      by the parsed trigger, and a parse error (None) makes main exit. */
  function Condition(arg: Option<string>, fallback: Trigger): (t: Option<Trigger>)
    ensures arg.None? ==> t == Some(fallback)
    ensures arg.Some? ==> t == ParseTriggerSpec(arg)
    ensures Canonical(fallback) && t.Some? ==> Canonical(t.value)
  {
    if arg.None? then Some(fallback)
    else
      ParsedIsCanonical(arg.value);
      ParseTriggerSpec(arg)
  }

  lemma ParsedIsCanonical(s: string)
    ensures ParseTriggerSpec(Some(s)).Some? ==> Canonical(ParseTriggerSpec(Some(s)).value)
  {
    if ParseItems(s, Disarmed).Some? {
      ParseItemsCanonical(s, Disarmed);
    }
  }

  /** main up to the polling loop. maxArg is atoi of -n (an int, stored
      in a size_t), timeSamples the size_t rate * max_time. main copies
      xp->page_size into an int, so only page sizes an int holds as a
      positive value are modelled. */
  function Configure(samplesPerPage: nat, pages: nat, pageSize: nat, channels: nat, rate: nat,
                     maxArg: Option<int>, timeSamples: nat,
                     startArg: Option<string>, stopArg: Option<string>): (c: Option<Config>)
    requires 0 < pageSize < 0x8000_0000 && timeSamples < U64
    requires maxArg.Some? ==> -0x8000_0000 <= maxArg.value < 0x8000_0000
    ensures c.Some? <==> Condition(startArg, DefaultStart).Some? && Condition(stopArg, Disarmed).Some?
    ensures c.Some? ==> c.value.start == Condition(startArg, DefaultStart).value
    ensures c.Some? ==> c.value.stop == Condition(stopArg, Disarmed).value
    ensures c.Some? && maxArg.None? ==> c.value.maxSamples == DefMaxSamples
    ensures c.Some? && maxArg.Some? && maxArg.value >= 0 ==> c.value.maxSamples == maxArg.value
    ensures c.Some? && maxArg.Some? && maxArg.value < 0 ==> c.value.maxSamples == U64 + maxArg.value
    ensures c.Some? && maxArg.Some? ==> c.value.maxSamples == IntToSize(maxArg.value)
    ensures c.Some? ==> c.value.maxSamplesT == PageAlign(timeSamples, pageSize)
    ensures c.Some? ==> && c.value.samplesPerPage == samplesPerPage && c.value.pages == pages
                        && c.value.channels == channels && c.value.rate == rate
  {
    var start := Condition(startArg, DefaultStart);
    var stop := Condition(stopArg, Disarmed);
    if start.None? || stop.None? then None
    else
      var maxSamples := if maxArg.None? then DefMaxSamples else IntToSize(maxArg.value);
      Some(Config(samplesPerPage, pages, channels, rate, maxSamples,
                  PageAlign(timeSamples, pageSize), start.value, stop.value))
  }

  /** An int converted to size_t: the value modulo 2^64. */
  function IntToSize(x: int): (r: nat)
    requires -0x8000_0000 <= x < 0x8000_0000
    ensures r == x % U64
    ensures x >= 0 ==> r == x
  {
    if x >= 0 then x else U64 + x
  }

  // ---------------------------------------------------------------------
  // The consumer's state

  /** Whether a recording is in progress (start in main), with the samples
      written so far, the open file, if fopen succeeded, and the pages the
      recording has taken, in order. */
  datatype Mode = Idle | Recording(written: nat, file: Option<WavState>, taken: seq<seq<u16>>)

  /** A closed xam_<index>.wav and its final contents. */
  datatype Saved = Saved(index: nat, contents: seq<u8>)

  datatype State = State(
    currentPage: nat,
    v0: u16,
    m0: bv8,
    fno: nat,
    mode: Mode,
    saved: seq<Saved>)

  /** One return of the wait loop: the value of xp->current_page that
      differs (or not) from the local copy, the sample area as pages, and
      whether fopen would succeed. */
  datatype Poll = Poll(observed: nat, ring: seq<seq<u16>>, openOk: bool)

  predicate PollOk(cfg: Config, p: Poll)
  {
    && p.observed < cfg.pages
    && |p.ring| == cfg.pages
    && forall k :: 0 <= k < |p.ring| ==> |p.ring[k]| == cfg.samplesPerPage
  }

  predicate AllPollsOk(cfg: Config, polls: seq<Poll>)
  {
    forall k :: 0 <= k < |polls| ==> PollOk(cfg, polls[k])
  }

  /** The state main sets up before its loop (xample_logger.c:311, 376, 401-403). */
  function Init(startPage: nat): (st: State)
    ensures st.currentPage == startPage && st.v0 == 0
    ensures st.mode == Idle && st.m0 == 0 && st.fno == 0 && st.saved == []
  {
    State(startPage, 0, 0, 0, Idle, [])
  }

  /** What holds between polls. While recording, m0 is 0 (it is reset at
      the start and any stop hit ends the recording), the sample count is
      below both budgets and counts the pages taken, and the open file is a
      fresh file into which exactly those pages were written, in order. */
  predicate Inv(cfg: Config, st: State)
  {
    && st.currentPage < cfg.pages
    && st.fno < FileCount
    && (forall j :: 0 <= j < |st.saved| ==> st.saved[j].index < FileCount)
    && match st.mode
       case Idle => true
       case Recording(written, file, taken) =>
         && st.m0 == 0
         && written < cfg.maxSamples && written < cfg.maxSamplesT
         && written == (|taken| * cfg.samplesPerPage) % U64
         && (file.Some? ==>
               && |file.value.bytes| >= HeaderSize
               && file.value.numSamples == written
               && file.value.numChannels == cfg.channels % U32
               && file.value == WriteAll(WavOpen(cfg.channels, cfg.rate), taken))
  }

  /** The pages the current recording has taken; none when idle. */
  function Taken(st: State): seq<seq<u16>>
  {
    if st.mode.Recording? then st.mode.taken else []
  }

  // ---------------------------------------------------------------------
  // Scanning a page

  /** The first sample at or after from whose trigger mask is actionable,
      with v0 and m0 as they stand (they only change on a hit, which ends
      the scan). */
  function FirstHit(vals: seq<u16>, from: nat, v0: u16, m0: bv8, t: Trigger): (k: Option<nat>)
    requires from <= |vals|
    ensures k.Some? ==>
      && from <= k.value < |vals|
      && Actionable(EvalTrigger(vals[k.value], v0, t), m0)
      && forall j :: from <= j < k.value ==> !Actionable(EvalTrigger(vals[j], v0, t), m0)
    ensures k.None? ==> forall j :: from <= j < |vals| ==> !Actionable(EvalTrigger(vals[j], v0, t), m0)
    decreases |vals| - from
  {
    if from == |vals| then None
    else if Actionable(EvalTrigger(vals[from], v0, t), m0) then Some(from)
    else FirstHit(vals, from + 1, v0, m0, t)
  }

  /** The scan loops of xample_logger.c:418-429 and 445-457: from index
      from, evaluate each sample until one is actionable; i ends one past
      the hit, or at the end of the page. */
  method Scan(vals: seq<u16>, from: nat, v0: u16, m0: bv8, t: Trigger) returns (hit: bool, i: nat, m: bv8)
    requires from <= |vals|
    ensures hit <==> FirstHit(vals, from, v0, m0, t).Some?
    ensures hit ==> 0 < i <= |vals| && FirstHit(vals, from, v0, m0, t) == Some(i - 1)
    ensures hit ==> m == EvalTrigger(vals[i - 1], v0, t) && Actionable(m, m0)
    ensures !hit ==> i == |vals|
  {
    i := from;
    hit := false;
    m := 0;
    while !hit && i < |vals|
      invariant from <= i <= |vals|
      invariant !hit ==> FirstHit(vals, from, v0, m0, t) == FirstHit(vals, i, v0, m0, t)
      invariant hit ==> 0 < i && FirstHit(vals, from, v0, m0, t) == Some(i - 1)
      invariant hit ==> m == EvalTrigger(vals[i - 1], v0, t)
      decreases |vals| - i, if hit then 0 else 1
    {
      var e := EvalTrigger(vals[i], v0, t);
      if Actionable(e, m0) {
        hit := true;
        m := e;
      }
      i := i + 1;
    }
  }

  // ---------------------------------------------------------------------
  // One completed page

  /** The next file index (xample_logger.c:482-483). */
  function NextFno(fno: nat): (r: nat)
    ensures fno < FileCount ==> r == (fno + 1) % FileCount
  {
    if fno + 1 >= FileCount then 0 else fno + 1
  }

  /** The body of the do-loop (xample_logger.c:445-467) on one page, and
      the close at 480-485 when it stops: scan for the stop condition from
      index from, count and write the whole page, and stop on a hit or when
      written reaches either budget. */
  function RecordPage(cfg: Config, st: State, written: nat, file: Option<WavState>,
                      taken: seq<seq<u16>>, vals: seq<u16>, from: nat): (r: State)
    requires from <= |vals| && |vals| == cfg.samplesPerPage
    requires file.Some? ==> |file.value.bytes| >= HeaderSize
    ensures r.currentPage == st.currentPage
  {
    var hit := FirstHit(vals, from, st.v0, st.m0, cfg.stop);
    var v0 := if hit.Some? then vals[hit.value] else st.v0;
    var m0 := if hit.Some? then EvalTrigger(vals[hit.value], st.v0, cfg.stop) else st.m0;
    var written' := (written + cfg.samplesPerPage) % U64;
    var file' := if file.Some? then Some(WavWrite(file.value, vals)) else None;
    if hit.None? && written' < cfg.maxSamples && written' < cfg.maxSamplesT then
      st.(v0 := v0, m0 := m0, mode := Recording(written', file', taken + [vals]))
    else if file'.Some? then
      st.(v0 := v0, m0 := m0, mode := Idle, fno := NextFno(st.fno),
          saved := st.saved + [Saved(st.fno, WavClose(file'.value))])
    else
      st.(v0 := v0, m0 := m0, mode := Idle)
  }

  /** One return of the wait loop. If xp->current_page still equals the
      local copy the logger keeps waiting. Otherwise it takes the page it
      had been waiting on, adopts the new current page and, when idle,
      scans for the start condition; a hit sets v0, resets m0, opens
      xam_<fno>.wav and continues with the stop scan after the hit. */
  function Consume(cfg: Config, st: State, p: Poll): (r: State)
    requires Inv(cfg, st) && PollOk(cfg, p)
    ensures Inv(cfg, r)
  {
    if p.observed == st.currentPage then st
    else
      var vals := p.ring[st.currentPage];
      var st1 := st.(currentPage := p.observed);
      match st.mode
      case Recording(written, file, taken) =>
        RecordPageKeepsInv(cfg, st1, written, file, taken, vals, 0);
        RecordPage(cfg, st1, written, file, taken, vals, 0)
      case Idle =>
        var hit := FirstHit(vals, 0, st.v0, st.m0, cfg.start);
        if hit.None? then st1
        else
          var file := if p.openOk then Some(WavOpen(cfg.channels, cfg.rate)) else None;
          var st2 := st1.(v0 := vals[hit.value], m0 := 0, mode := Recording(0, file, []));
          RecordPageKeepsInv(cfg, st2, 0, file, [], vals, hit.value + 1);
          RecordPage(cfg, st2, 0, file, [], vals, hit.value + 1)
  }

  /** A page recorded from a state whose count and file are in step with
      the pages taken leaves a state where the invariant holds: the
      recording either continues with the page added, or ends and the file
      is closed under an index below 10. */
  lemma {:induction false} RecordPageKeepsInv(cfg: Config, st: State, written: nat, file: Option<WavState>,
                           taken: seq<seq<u16>>, vals: seq<u16>, from: nat)
    requires Inv(cfg, st.(mode := Idle)) && st.m0 == 0
    requires from <= |vals| && |vals| == cfg.samplesPerPage
    requires written == (|taken| * cfg.samplesPerPage) % U64
    requires file.Some? ==>
      && |file.value.bytes| >= HeaderSize
      && file.value.numSamples == written
      && file.value.numChannels == cfg.channels % U32
      && file.value == WriteAll(WavOpen(cfg.channels, cfg.rate), taken)
    ensures Inv(cfg, RecordPage(cfg, st, written, file, taken, vals, from))
  {
    StreamPage(cfg, written, file, taken, vals);
    var r := RecordPage(cfg, st, written, file, taken, vals, from);
    if r.mode.Recording? {
      assert r.mode.taken == taken + [vals] && r.m0 == 0;
    } else {
      assert r.fno < FileCount;
    }
  }

  /** Streaming one more page keeps the count and the file in step with
      the pages taken. */
  lemma StreamPage(cfg: Config, written: nat, file: Option<WavState>, taken: seq<seq<u16>>, vals: seq<u16>)
    requires written == (|taken| * cfg.samplesPerPage) % U64
    requires file.Some? ==> file.value == WriteAll(WavOpen(cfg.channels, cfg.rate), taken)
    ensures (written + cfg.samplesPerPage) % U64 == (|taken + [vals]| * cfg.samplesPerPage) % U64
    ensures file.Some? ==> WavWrite(file.value, vals) == WriteAll(WavOpen(cfg.channels, cfg.rate), taken + [vals])
  {
    var s := cfg.samplesPerPage;
    MulDistrib(|taken|, s);
    ModAddMod(|taken| * s, s);
    WriteAllSnoc(WavOpen(cfg.channels, cfg.rate), taken, vals);
  }

  /** The polling loop over a sequence of polls. */
  function RunSpec(cfg: Config, st: State, polls: seq<Poll>): (r: State)
    requires Inv(cfg, st) && AllPollsOk(cfg, polls)
    ensures Inv(cfg, r)
    decreases |polls|
  {
    if polls == [] then st else RunSpec(cfg, Consume(cfg, st, polls[0]), polls[1..])
  }

  // ---------------------------------------------------------------------
  // The polling loop of main

  /** The state the loop variables of main stand for. */
  function StateOf(currentPage: nat, v0: u16, m0: bv8, fno: nat, start: bool, written: nat,
                   wf: WavFile?, taken: seq<seq<u16>>, saved: seq<Saved>): State
    reads wf
  {
    State(currentPage, v0, m0, fno,
          if start then Recording(written, if wf == null then None else Some(wf.Value()), taken) else Idle,
          saved)
  }

  /** One pass of the do-loop of main (xample_logger.c:445-467) and the
      close at 480-485 when it stops. going is start afterwards. */
  method RecordStep(cfg: Config, currentPage: nat, vals: seq<u16>, from: nat, v0: u16, m0: bv8, fno: nat,
                    written: nat, wf: WavFile?, ghost taken: seq<seq<u16>>, saved: seq<Saved>)
    returns (v0': u16, m0': bv8, fno': nat, going: bool, written': nat, ghost taken': seq<seq<u16>>,
             saved': seq<Saved>)
    requires from <= |vals| && |vals| == cfg.samplesPerPage
    requires wf != null ==> wf.Valid()
    modifies wf
    ensures going && wf != null ==> wf.Valid()
    ensures var file := if wf == null then None else Some(old(wf.Value()));
      StateOf(currentPage, v0', m0', fno', going, written', wf, taken', saved')
      == RecordPage(cfg, State(currentPage, v0, m0, fno, Recording(written, file, taken), saved),
                    written, file, taken, vals, from)
  {
    var hit, k, m := Scan(vals, from, v0, m0, cfg.stop);
    v0', m0' := v0, m0;
    if hit {
      v0' := vals[k - 1];
      m0' := m;
    }
    written' := (written + cfg.samplesPerPage) % U64;
    taken' := taken + [vals];
    if wf != null {
      wf.WriteSamples(vals);
    }
    fno', saved', going := fno, saved, true;
    if hit || written' >= cfg.maxSamples || written' >= cfg.maxSamplesT {
      if wf != null {
        var contents := wf.Close();
        saved' := saved + [Saved(fno, contents)];
        fno' := fno + 1;
        if fno' >= FileCount {
          fno' := 0;
        }
      }
      going := false;
    }
  }

  /** One return of the wait loop of main (xample_logger.c:410-486). */
  method Handle(cfg: Config, p: Poll, currentPage: nat, v0: u16, m0: bv8, fno: nat, start: bool,
                written: nat, wf: WavFile?, ghost taken: seq<seq<u16>>, saved: seq<Saved>)
    returns (currentPage': nat, v0': u16, m0': bv8, fno': nat, start': bool,
             written': nat, wf': WavFile?, ghost taken': seq<seq<u16>>, saved': seq<Saved>)
    requires PollOk(cfg, p) && Inv(cfg, StateOf(currentPage, v0, m0, fno, start, written, wf, taken, saved))
    requires start && wf != null ==> wf.Valid()
    modifies wf
    ensures start' && wf' != null ==> wf'.Valid()
    ensures wf' != null ==> wf' == wf || fresh(wf')
    ensures StateOf(currentPage', v0', m0', fno', start', written', wf', taken', saved')
      == Consume(cfg, old(StateOf(currentPage, v0, m0, fno, start, written, wf, taken, saved)), p)
  {
    currentPage', v0', m0', fno', start', written', wf', taken', saved' :=
      currentPage, v0, m0, fno, start, written, wf, taken, saved;
    if p.observed == currentPage {
      return;
    }
    var vals := p.ring[currentPage];
    currentPage' := p.observed;
    if start {
      v0', m0', fno', start', written', taken', saved' :=
        RecordStep(cfg, currentPage', vals, 0, v0, m0, fno, written, wf, taken, saved);
      return;
    }
    var hit, k, m := Scan(vals, 0, v0, m0, cfg.start);
    if !hit {
      return;
    }
    v0' := vals[k - 1];
    m0' := m;
    start' := true;
    m0' := 0;
    written' := 0;
    taken' := [];
    if p.openOk {
      wf' := new WavFile(cfg.channels, cfg.rate);
    } else {
      wf' := null;
    }
    v0', m0', fno', start', written', taken', saved' :=
      RecordStep(cfg, currentPage', vals, k, v0', m0', fno', written', wf', taken', saved');
  }

  /** main from xample_logger.c:401 on, for a finite run of polls: returns
      the files it closed, in order. */
  method Run(cfg: Config, startPage: nat, polls: seq<Poll>) returns (saved: seq<Saved>)
    requires startPage < cfg.pages && AllPollsOk(cfg, polls)
    ensures saved == RunSpec(cfg, Init(startPage), polls).saved
  {
    var currentPage := startPage;
    var v0: u16 := 0;
    var m0: bv8 := 0;
    var fno: nat := 0;
    var start := false;
    var written: nat := 0;
    var wf: WavFile? := null;
    ghost var taken: seq<seq<u16>> := [];
    saved := [];
    var n := 0;
    while n < |polls|
      invariant 0 <= n <= |polls|
      invariant start && wf != null ==> wf.Valid()
      invariant wf != null ==> fresh(wf)
      invariant Inv(cfg, StateOf(currentPage, v0, m0, fno, start, written, wf, taken, saved))
      invariant RunSpec(cfg, StateOf(currentPage, v0, m0, fno, start, written, wf, taken, saved), polls[n..])
                == RunSpec(cfg, Init(startPage), polls)
    {
      assert PollOk(cfg, polls[n]);
      currentPage, v0, m0, fno, start, written, wf, taken, saved :=
        Handle(cfg, polls[n], currentPage, v0, m0, fno, start, written, wf, taken, saved);
      assert polls[n..][1..] == polls[n + 1..];
      n := n + 1;
    }
  }

  // ---------------------------------------------------------------------
  // Properties of the recording loop

  /** A hit ends a scan at once, and no earlier sample from the same start
      index acts: the scan never skips an actionable sample. */
  lemma FirstHitIsFirst(vals: seq<u16>, from: nat, v0: u16, m0: bv8, t: Trigger, j: nat)
    requires from <= j < |vals| && Actionable(EvalTrigger(vals[j], v0, t), m0)
    ensures FirstHit(vals, from, v0, m0, t).Some?
    ensures FirstHit(vals, from, v0, m0, t).value <= j
  {
  }

  /** The file index advances, modulo 10, exactly when a file is closed,
      and the closed file carries the index it was opened under. A
      recording whose fopen failed never advances it. */
  lemma FileRotation(cfg: Config, st: State, p: Poll)
    requires Inv(cfg, st) && PollOk(cfg, p)
    ensures var r := Consume(cfg, st, p);
      && (r.saved == st.saved ==> r.fno == st.fno)
      && (r.saved != st.saved ==>
            && r.saved == st.saved + [r.saved[|st.saved|]]
            && r.saved[|st.saved|].index == st.fno
            && r.fno == (st.fno + 1) % FileCount
            && r.mode == Idle)
      && (r.saved != st.saved ==>
            (st.mode.Recording? && st.mode.file.Some?) || (st.mode.Idle? && p.openOk))
  {
    if p.observed != st.currentPage {
      var vals := p.ring[st.currentPage];
      var st1 := st.(currentPage := p.observed);
      match st.mode
      case Recording(written, file, taken) =>
        RecordPageRotates(cfg, st1, written, file, taken, vals, 0);
      case Idle =>
        var hit := FirstHit(vals, 0, st.v0, st.m0, cfg.start);
        if hit.Some? {
          var file := if p.openOk then Some(WavOpen(cfg.channels, cfg.rate)) else None;
          RecordPageRotates(cfg, st1.(v0 := vals[hit.value], m0 := 0, mode := Recording(0, file, [])), 0, file, [], vals, hit.value + 1);
        }
    }
  }

  /** A recorded page saves at most one file, only an open one, under the
      current index, which then advances. */
  lemma RecordPageRotates(cfg: Config, st: State, written: nat, file: Option<WavState>,
                          taken: seq<seq<u16>>, vals: seq<u16>, from: nat)
    requires from <= |vals| && |vals| == cfg.samplesPerPage && st.fno < FileCount
    requires file.Some? ==> |file.value.bytes| >= HeaderSize
    ensures var r := RecordPage(cfg, st, written, file, taken, vals, from);
      && (r.saved == st.saved ==> r.fno == st.fno)
      && (r.saved != st.saved ==>
            && file.Some?
            && r.saved == st.saved + [r.saved[|st.saved|]]
            && r.saved[|st.saved|].index == st.fno
            && r.fno == (st.fno + 1) % FileCount
            && r.mode == Idle)
  {
  }

  /** Every page that a recording takes counts samples_per_page samples:
      the count after a continuing page is the old count plus
      samples_per_page (size_t arithmetic), and a recording just started
      has counted one page. */
  lemma PagesCounted(cfg: Config, st: State, p: Poll)
    requires Inv(cfg, st) && PollOk(cfg, p) && p.observed != st.currentPage
    ensures var r := Consume(cfg, st, p);
      && (st.mode.Recording? && r.mode.Recording? ==>
            r.mode.written == (st.mode.written + cfg.samplesPerPage) % U64)
      && (st.mode.Idle? && r.mode.Recording? ==> r.mode.written == cfg.samplesPerPage % U64)
  {
  }

  /** A recording ends only on a stop hit (then m0 holds its nonzero mask)
      or when the count reaches max_samples or max_samples_t. */
  lemma StopReasons(cfg: Config, st: State, p: Poll)
    requires Inv(cfg, st) && PollOk(cfg, p) && st.mode.Recording?
    ensures var r := Consume(cfg, st, p);
      r.mode.Idle? ==>
        var w := (st.mode.written + cfg.samplesPerPage) % U64;
        r.m0 != 0 || w >= cfg.maxSamples || w >= cfg.maxSamplesT
  {
  }

  /** The data size a closed file declares is 2 * channels * written
      modulo 2^32, with written the logger's own count of the samples
      streamed into it. */
  lemma SavedDataSize(cfg: Config, st: State, p: Poll)
    requires Inv(cfg, st) && PollOk(cfg, p) && st.mode.Recording?
    ensures var r := Consume(cfg, st, p);
      |r.saved| > |st.saved| ==>
        U32At(r.saved[|st.saved|].contents, DataOffset)
        == ((cfg.channels % U32) * (2 * ((st.mode.written + cfg.samplesPerPage) % U64))) % U32
  {
    var r := Consume(cfg, st, p);
    if |r.saved| > |st.saved| {
      var vals := p.ring[st.currentPage];
      var f := WavWrite(st.mode.file.value, vals);
      assert r.saved[|st.saved|].contents == WavClose(f);
      CloseSizes(f);
      DeclaredSizeIs(f, f.numSamples, f.numChannels);
    }
  }

  /** Each page the logger takes is the page it waited on, streamed whole:
      a recording that continues has taken one more page, a recording that
      starts has taken just the page its start hit is on, and a file that
      is closed holds exactly the pages taken, in order, as RecordedFile
      describes them. */
  lemma PagesTaken(cfg: Config, st: State, p: Poll)
    requires Inv(cfg, st) && PollOk(cfg, p) && p.observed != st.currentPage
    ensures var r := Consume(cfg, st, p);
      var pages := Taken(st) + [p.ring[st.currentPage]];
      && (r.mode.Recording? ==> r.mode.taken == pages)
      && (|r.saved| > |st.saved| ==>
            r.saved[|st.saved|].contents == RecordedFile(cfg.channels, cfg.rate, pages))
  {
    var vals := p.ring[st.currentPage];
    var w0 := WavOpen(cfg.channels, cfg.rate);
    if st.mode.Recording? {
      StreamPage(cfg, st.mode.written, st.mode.file, st.mode.taken, vals);
    } else {
      assert Taken(st) + [vals] == [vals];
      StreamPage(cfg, 0, Some(w0), [], vals);
    }
  }

  /** With one channel a closed file is a well-formed WAVE file whose data
      is the pages taken, in order, as long as its sizes fit 32 bits. */
  lemma SavedMonoFile(cfg: Config, st: State, p: Poll)
    requires Inv(cfg, st) && PollOk(cfg, p) && p.observed != st.currentPage && cfg.channels == 1
    requires 36 + 2 * |Flatten(Taken(st) + [p.ring[st.currentPage]])| < U32
    ensures var r := Consume(cfg, st, p);
      |r.saved| > |st.saved| ==>
        var b := r.saved[|st.saved|].contents;
        && |b| >= HeaderSize
        && U32At(b, RiffOffset) == |b| - 8
        && U32At(b, DataOffset) == |b| - HeaderSize
        && DecodeSamples(b[HeaderSize..]) == Flatten(Taken(st) + [p.ring[st.currentPage]])
  {
    PagesTaken(cfg, st, p);
    MonoRecording(cfg.rate, Taken(st) + [p.ring[st.currentPage]]);
  }

  /** m0 only changes on a hit. When the start condition has no rate
      bits and every limit bit it has is already in m0, no sample of any
      page acts, so an idle logger stays idle and keeps v0, m0, the file
      index and its files. */
  lemma HeldLimitsKeepIdle(cfg: Config, st: State, p: Poll)
    requires Inv(cfg, st) && PollOk(cfg, p) && st.mode.Idle?
    requires (cfg.start.mask & DeltaBits) == 0 && (cfg.start.mask & LimitBits & !st.m0) == 0
    ensures Consume(cfg, st, p) == st.(currentPage := p.observed)
  {
    if p.observed != st.currentPage {
      var vals := p.ring[st.currentPage];
      forall j | 0 <= j < |vals|
        ensures !Actionable(EvalTrigger(vals[j], st.v0, cfg.start), st.m0)
      {
        var m := EvalTrigger(vals[j], st.v0, cfg.start);
        HeldLimitsDoNotAct(m, st.m0);
      }
    }
  }

  /** The same over any run of polls. */
  lemma {:induction false} HeldLimitsNeverRestart(cfg: Config, st: State, polls: seq<Poll>)
    requires Inv(cfg, st) && AllPollsOk(cfg, polls) && st.mode.Idle?
    requires (cfg.start.mask & DeltaBits) == 0 && (cfg.start.mask & LimitBits & !st.m0) == 0
    ensures var r := RunSpec(cfg, st, polls);
      r.mode == Idle && r.v0 == st.v0 && r.m0 == st.m0 && r.fno == st.fno && r.saved == st.saved
    decreases |polls|
  {
    if polls != [] {
      HeldLimitsKeepIdle(cfg, st, polls[0]);
      HeldLimitsNeverRestart(cfg, Consume(cfg, st, polls[0]), polls[1..]);
    }
  }

  /** When both conditions are "u:N" alone, a recording that the stop
      condition ends leaves the upper-limit bit in m0, which is only
      cleared by a start: the logger never records again. */
  lemma UpperStopIsFinal(cfg: Config, st: State, p: Poll, polls: seq<Poll>)
    requires cfg.start.mask == UpperLimitExceeded && cfg.stop.mask == UpperLimitExceeded
    requires Inv(cfg, st) && PollOk(cfg, p) && AllPollsOk(cfg, polls) && st.mode.Recording?
    requires Consume(cfg, st, p).mode.Idle? && Consume(cfg, st, p).m0 != 0
    ensures RunSpec(cfg, Consume(cfg, st, p), polls).mode == Idle
  {
    var r := Consume(cfg, st, p);
    var m := r.m0;
    assert (m & !cfg.stop.mask) == 0 by {
      var vals := p.ring[st.currentPage];
      var k := FirstHit(vals, 0, st.v0, st.m0, cfg.stop).value;
      assert m == EvalTrigger(vals[k], st.v0, cfg.stop);
    }
    assert (cfg.start.mask & LimitBits & !m) == 0 by {
      OnlyBitSet(m);
    }
    HeldLimitsNeverRestart(cfg, r, polls);
  }

  lemma OnlyBitSet(m: bv8)
    requires (m & !UpperLimitExceeded) == 0 && m != 0
    ensures m == UpperLimitExceeded
  {
  }

  /** Without -s, every sample acts on an idle logger whose m0 holds no
      limit bit: v > 0 or v <= 1 always holds. */
  lemma DefaultStartActs(v: u16, v0: u16, m0: bv8)
    requires (m0 & LimitBits) == 0
    ensures Actionable(EvalTrigger(v, v0, DefaultStart), m0)
  {
    var m := EvalTrigger(v, v0, DefaultStart);
    if v as nat > 0 {
      assert (m & UpperLimitExceeded) != 0;
    } else {
      assert (m & BelowLowerLimit) != 0;
    }
  }

  /** Without -e, no sample acts as a stop. */
  lemma DisarmedNeverActs(v: u16, v0: u16, m0: bv8)
    ensures !Actionable(EvalTrigger(v, v0, Disarmed), m0)
  {
    var m := EvalTrigger(v, v0, Disarmed);
    assert (m & !Disarmed.mask) == 0;
  }

  /** With neither -s nor -e, an idle logger starts recording at the first
      sample of the next page it takes, m0 stays 0, and the recording only
      ends when a budget is reached. */
  lemma DefaultsRecordAtOnce(cfg: Config, st: State, p: Poll)
    requires cfg.start == DefaultStart && cfg.stop == Disarmed && cfg.samplesPerPage > 0
    requires Inv(cfg, st) && PollOk(cfg, p) && st.m0 == 0 && p.observed != st.currentPage
    ensures var r := Consume(cfg, st, p);
      && r.m0 == 0
      && (st.mode.Idle? ==> r.v0 == p.ring[st.currentPage][0])
      && (r.mode.Idle? ==>
            var w := if st.mode.Idle? then cfg.samplesPerPage % U64
                     else (st.mode.written + cfg.samplesPerPage) % U64;
            w >= cfg.maxSamples || w >= cfg.maxSamplesT)
  {
    var vals := p.ring[st.currentPage];
    DefaultStartActs(vals[0], st.v0, 0);
    var from := if st.mode.Idle? then 1 else 0;
    var v0 := if st.mode.Idle? then vals[0] else st.v0;
    forall j | from <= j < |vals|
      ensures !Actionable(EvalTrigger(vals[j], v0, cfg.stop), 0)
    {
      DisarmedNeverActs(vals[j], v0, 0);
    }
  }
}
