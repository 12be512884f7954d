# xample in Dafny

A model of the integer core of xample, a sampler that fills a shared-memory
ring of 16-bit samples and logs triggered stretches of it to WAV files.

- **Ring geometry** (`geometry.dfy`, module `Geometry`). It models `xample_create`, `xample_open` and `xample_close`.
  - A request of `nsamples` samples of `nchannels` channels becomes a region of whole pages: one header page, then the data pages.
  - Each page is cut into `2^fdivpow2` frames.
  - The header holds every field `xample_create` assigns, including the 24.8 fixed-point rate.
  - The page size and the outcome of each system call are inputs.
  - Unsigned long wrap-around is written out. For example, `last_page` underflows for an empty request.
- **Producer** (`producer.dfy`, module `Producer`). The loop of the sampler's `main` is the class `Ring`.
  - The class holds the shared header, the sample area (an `array`) and the loop variables.
  - `Step` is one pass of the loop. It clamps the chunk to the frame, stores what the sample source delivered, completes frames and pages with wrap-around, and publishes `current_page` / `current_frame`.
  - `Run` is a sequence of passes. `PageFill` shows that when `current_page` moves past a page, that page holds exactly the samples delivered to it, in order and without gaps.
  - `ReadNSamplesSpi` and `ReadNSamplesSim` model the sample sources' channel cycling, and `ReadNSamplesSpi` also the MCP3202 12-to-16-bit decode.
- **Triggers** (`trigger.dfy`, module `Trigger`).
  - `ParseUnsigned` and `ParseTrigger` parse the trigger language `u:N:l:N:d:N:n:N:p:N`.
  - `Format` is the printer, `EvalTrigger` the bit-mask evaluator.
  - `Actionable` is the gating rule the logger applies to a hit. Limit bits must be new with respect to `m0`; rate bits act every time.
- **WAV writer** (`wav.dfy`, module `Wav`). `WavFile` writes a RIFF WAVE file as defined by the Microsoft/IBM Multimedia Programming Interface and Data Specifications 1.0 (RIFF WAVE form).
  - The file is a byte sequence, and `fseek` + `fwrite` is an overwrite at an offset.
  - The constructor writes the 44-byte preamble, and `WriteSamples` appends samples little-endian.
  - `Close` patches the two size fields.
- **Logger** (`logger.dfy`, module `Logger`). This is the consumer loop of the logger's `main`.
  - Each return of the polling wait is a `Poll`. A `Poll` holds the `current_page` it read, the sample area at that moment, and whether `fopen` would succeed.
  - `Consume` / `RunSpec` are the specification of the loop, and `Handle` and `Run` are the loop itself, with `WavFile` objects.
  - While recording, the state keeps the pages taken so far. A saved file is the closed WAVE file of exactly those pages, starting with the page the start condition was found on (`PagesTaken`).
  - The logger scans the page it waited on for the start condition. It then streams whole pages until a stop hit, `max_samples` or the page-aligned `max_samples_t`. Closed files rotate over `xam_0` … `xam_9`.
- `base.dfy` holds fixed-width integers and little-endian encodings. `arith.dfy` holds the division and multiplication facts the proofs use.

Behaviour as written, where the program's own description says otherwise:

- `byte_rate` is a `uint16_t` (`c_src/xample_logger.c:61,68`), so the byte-rate field holds `rate*channels*2` modulo 2^16, not the full byte rate (`Wav.PreambleLayout`).
- `file_wav_close` multiplies `num_samples` by `num_channels` (`c_src/xample_logger.c:126`). But `num_samples` already counts interleaved values, so with c channels the declared sizes are c times the bytes written (`Wav.InflatedDataSize`).
  - For one channel the file is well formed (`Wav.MonoRecording`).
- The `-k` chunk option is clamped (`c_src/xample.c:309-315`, `Producer.ClampChunk`). But `k` is missing from getopt's option string (`c_src/xample.c:295`), so the chunk size is always `DEF_CHUNK_SIZE` in practice.
- When a start condition acts, `m0` is set to the hit mask and then at once reset to 0 (`c_src/xample_logger.c:425,432`). It does not keep the start mask.
- `m0` changes only when a condition acts, never when a level drops back.
  - A level-only start condition whose bits are all in `m0` therefore never acts again (`Logger.HeldLimitsNeverRestart`).
  - With `-s u:N -e u:N`, a recording ended by its stop condition is the last one (`Logger.UpperStopIsFinal`).
- The file index advances only when a file was actually open (`c_src/xample_logger.c:480-484`). A recording whose `fopen` failed keeps the index (`Logger.FileRotation`).
- When the SPI transfer fails, the producer still advances its cursor over the samples it asked for. Those samples keep their old contents (`Producer.Ring.Step` with `delivered == false`).

## Model

| member | source | states |
|---|---|---|
| Base.LE16Decodes | c_src/xample_logger.c:28-32 | the two bytes htole16 writes read back as the value modulo 2^16 |
| Base.LE32Decodes | c_src/xample_logger.c:34-38 | the four bytes htole32 writes read back as the value modulo 2^32 |
| Geometry.RealSize | c_src/xample_mem.c:30-31 | real_size is a whole number of pages with buffer_size + page_size <= real_size < buffer_size + 2*page_size |
| Geometry.FixedRate | c_src/xample_mem.c:71 | for a rate given as the fraction num/den, the stored 24.8 fixed-point rate r is the floor of num * 256 / den (r * den <= num * 256 < (r + 1) * den), and r shifted right by 8 is the integer part of num/den |
| Geometry.Create | c_src/xample_mem.c:14-75 | create fails exactly when the page size is 0 or a system call fails, with AllocationError for a zero page size; on success the samples start one page in and the length is whole pages |
| Geometry.Open | c_src/xample_mem.c:77-118 | open fails exactly when the page size is 0 or a system call fails, NotFoundError when shm_open fails; on success it keeps the stored header and the samples start one page in |
| Geometry.CloseLength | c_src/xample_mem.c:120-127 | close of NULL does nothing; otherwise it unmaps a length |
| Geometry.CreateInitialHeader | c_src/xample_mem.c:56-72 | InitialHeader, the header create writes, has current/first page and frame 0, rate >> 8 equal to the requested rate's integer part, the channel count, and samples_per_page = page_size / 2 whatever the channel count |
| Geometry.FrameGeometry | c_src/xample_mem.c:62-68 | frames_per_page = 2^fdivpow2, frame_size = page_size / 2^fdivpow2, samples_per_frame = frame_size / 2, and the frames of a page fit in the page |
| Geometry.CreateFrameGeometry | c_src/xample_mem.c:62-68 | the same frame geometry for the header create makes |
| Geometry.DataPages | c_src/xample_mem.c:31 | ceil(buffer_size/page_size) is the least number of pages covering a non-empty buffer, and real_size is that plus one page |
| Geometry.PageGeometry | c_src/xample_mem.c:58-66 | for a region of n pages last_page = n - 2 and last_frame + 1 = (last_page - first_page + 1) * frames_per_page |
| Geometry.CreatePages | c_src/xample_mem.c:30-66 | for a non-empty request the data pages are the fewest that hold buffer_size bytes, real_size = (last_page + 2) * page_size, and last_frame closes the last page |
| Geometry.CreateHoldsRequest | c_src/xample_mem.c:30-60 | with an even page size the data pages hold at least nsamples * nchannels samples |
| Geometry.CreateEmptyUnderflows | c_src/xample_mem.c:58-66 | for buffer_size = 0 the region is one page and last_page and last_frame wrap to 2^64 - 1 |
| Geometry.OpenMapsCreatedLength | c_src/xample_mem.c:102-124 | MapLength, the length open maps and close unmaps, (last_page + 2) * page_size, is the real_size create chose, also when last_page wrapped |
| Geometry.CreateIsProducerReady | c_src/xample_mem.c:56-68 | a non-empty created header starts at frame and page 0 with frames tiling the pages, as the producer loop needs |
| Producer.ClampChunk | c_src/xample.c:309-315 | the chunk size ends in [1, 256]; an in-range request is kept, 0 becomes 1, and a negative request wraps in size_t and becomes 256 |
| Producer.ChunkRequest | c_src/xample.c:442-448 | ns = min(chunk_size, samples_per_frame - i), so i + ns never passes the frame |
| Producer.PacingDelay | c_src/xample.c:449 | the delay is min(udelay, 65535) |
| Producer.AdvanceKeepsLockStep | c_src/xample.c:452-486 | Advance, the bookkeeping of one pass, keeps the lock step: including the wrap, i stays in the frame, f < frames_per_page, the page stays at most last_page, current_frame = current_page * frames_per_page + f and frame_offset = current_frame * samples_per_frame |
| Producer.LastFrameIsLastOfLastPage | c_src/xample.c:460-485 | current_frame reaches last_frame exactly on the last frame of the last page, so frame and page wrap together |
| Producer.LockStepDivMod | c_src/xample.c:457-486 | f = current_frame mod frames_per_page and current_page = current_frame / frames_per_page |
| Producer.WriteWithinFrame | c_src/xample.c:442-452 | each request writes inside [frame_offset, frame_offset + samples_per_frame), and that frame lies inside the data pages |
| Producer.PageMovesOnlyAtPageBoundary | c_src/xample.c:457-486 | the page moves only when the last frame of a page completes (f restarts at 0), and the frame only when a frame completes (i restarts at 0) |
| Producer.Ring.constructor | c_src/xample.c:405-437 | the loop starts from the header it read, at cursor 0 |
| Producer.Ring.Step | c_src/xample.c:441-487 | one pass requests ns samples, hands the 16-bit delay to the source, stores what was delivered at frame_offset + i, advances the cursor as specified, and changes only current_page and current_frame in the header |
| Producer.Walk | c_src/xample.c:441-487 | any number of passes keeps the lock step of the cursor |
| Producer.StepTiles | c_src/xample.c:441-487 | a pass requests a non-empty run inside its page's frames; if it does not publish, the next pass writes right after it on the same page, and if it does, the run ends exactly at the end of the page's frames and the next pass starts at the first sample of the next page, or of page 0 after the last |
| Producer.WalkWithinPage | c_src/xample.c:452-486 | passes that do not publish keep the cursor on its page and inside a frame |
| Producer.FillWithinPage | c_src/xample.c:441-487 | passes that succeed without publishing leave their requests, in order and without gaps, from frame_offset + i on inside the page, and change no other sample |
| Producer.PublishingRun | c_src/xample.c:441-487 | the succeeding passes up to the one that publishes write exactly the delivered samples from frame_offset + i to the end of the page's frames, and change no other sample |
| Producer.PublishingWalk | c_src/xample.c:457-486 | the pass that stores current_page moves the cursor to the first sample of the next page, or of page 0 after last_page |
| Producer.PageFill | c_src/xample.c:441-487 | a page is complete when it is published: from a page's first sample to the pass that stores the next current_page, the page's frames hold exactly the delivered samples in order, nothing else changed, and the next pass starts at the next page's first frame |
| Producer.Ring.Run | c_src/xample.c:441-487 | a run of passes on the class leaves the cursor that Walk gives and the sample area that Fill gives, so PageFill applies to the array itself |
| Producer.Ring.Store | c_src/xample.c:450-451 | the sample source overwrites exactly the requested slice of the sample area |
| Producer.Ring.Move | c_src/xample.c:452-486 | the frame/page bookkeeping is Advance, and the header changes only in current_page and current_frame |
| Producer.DecodeSample | c_src/xample.c:115 | a decoded sample has its low four bits zero and is at most 0xFFF0 |
| Producer.DecodeTwelveBits | c_src/xample.c:114-117 | the decode recovers a 12-bit reading sent as low nibble and byte, times 16, ignoring the upper nibble of the first byte |
| Producer.CycleStep | c_src/xample.c:99-103 | the channel index k resets at nchan, so k = i mod nchan after each sample |
| Producer.CommandByte | c_src/xample.c:101 | (2 + selector) << 6 in a uint8_t has its low six bits clear, and for channel 0 or 1 is 0x80 or 0xC0: the single-ended conversion of that channel |
| Producer.ReadNSamplesSpi | c_src/xample.c:88-119 | at most 256 transfers, the t-th addressed to selector[t mod nchan] with the given delay; on success each sample is the decode of its reply, and an ioctl failure returns 0 samples |
| Producer.ReadNSamplesSim | c_src/xample.c:231-244 | the t-th sample comes from selector[t mod nchan], and the source sleeps once per completed round of channels |
| Producer.SignedCharDecodeDiffers | c_src/xample.c:66-85 | read_sample_spi's decode through a signed char agrees with the intended decode exactly when the low byte is below 0x80 |
| Producer.SignedCharCounterexample | c_src/xample.c:82 | the reply 0x01 0x80 decodes to 0x0800 instead of 0x1800 |
| Trigger.DecimalString | c_src/xample_logger.c:224 | %lu prints at least one digit, only digits, whose decimal value is the number |
| Trigger.AccumulateIsDecimal | c_src/xample_logger.c:159-164 | the wrapping accumulator of parse_unsigned yields the decimal value of the digits modulo 2^64 |
| Trigger.ParseUnsigned | c_src/xample_logger.c:153-167 | parse_unsigned reads the maximal digit run, returns its length and the position after it, and its value modulo 2^64 |
| Trigger.ParseTrigger | c_src/xample_logger.c:169-215 | parse_trigger returns 0 or -1, 0 exactly when the expression parses, and then the trigger the parser specifies |
| Trigger.ParseItemText | c_src/xample_logger.c:181-214 | one "k:N:" item sets k's threshold to N modulo 2^64, arms k's bit, and parsing continues after it |
| Trigger.ParseLastItem | c_src/xample_logger.c:210-214 | a last item may omit its trailing ':' |
| Trigger.ParseItemsText | c_src/xample_logger.c:179-214 | a run of items parses to the items applied in order, so a repeated key keeps the later value |
| Trigger.ParseWithoutTrailingColon | c_src/xample_logger.c:206-214 | a run of items whose last one has no trailing ':' parses to the items applied in order |
| Trigger.ParseItemsCanonical | c_src/xample_logger.c:177-213 | every parsed trigger has only the five condition bits, 64-bit thresholds and zero thresholds for disarmed keys |
| Trigger.ParseEmpty | c_src/xample_logger.c:175-202 | the empty expression parses to the all-zero trigger; NULL is refused |
| Trigger.ParseRejects | c_src/xample_logger.c:203-211 | an unknown key, a key without ':', a key without digits, and digits followed by anything but ':' or the end are each refused |
| Trigger.Format | c_src/xample_logger.c:217-244 | format_trigger's buffer is the text of exactly the armed items, in the order u, l, d, n, p |
| Trigger.FormatIsArmedItems | c_src/xample_logger.c:222-242 | the five conditional strcat calls print the armed items in order |
| Trigger.ArmedItemsRebuild | c_src/xample_logger.c:177-213 | applying the armed items of a parsed trigger to the all-zero trigger gives it back |
| Trigger.FormatThenParse | c_src/xample_logger.c:169-243 | parsing the printed form of any parsed trigger gives it back |
| Trigger.ParseFormatRoundTrip | c_src/xample_logger.c:169-243 | parse, format, parse: a parsed trigger survives the round trip through its printed form |
| Trigger.FormatFitsBuffer | c_src/xample_logger.c:219-225 | the printed text of a parsed trigger is at most 115 characters, within the static 1024-byte buffer |
| Trigger.EvalTrigger | c_src/xample_logger.c:246-276 | the result is a subset of the mask: upper bit iff armed and v > upper, lower iff armed and v <= lower, d iff armed and abs(v - v0) > delta, p iff armed and v - v0 > positive_delta, n iff armed and v0 - v > negative_delta, and no rate bit when v = v0 |
| Trigger.OnlyUpperActsOnEdge | c_src/xample_logger.c:421 | Actionable, the gating of a hit against m0: with only u armed a sample acts exactly when it is above the limit and m0 lacks the upper bit, so a level that stays high acts once |
| Trigger.OnlyDeltaActsEveryTime | c_src/xample_logger.c:448 | Actionable: with only d armed a sample acts exactly when it moved by more than delta from v0, whatever m0 is |
| Trigger.HeldLimitsDoNotAct | c_src/xample_logger.c:421 | Actionable: a hit made only of limit bits already in m0 does not act |
| Wav.EncodeSamplesAppend | c_src/xample_logger.c:43-50 | writing a then b puts the same bytes in the file as writing a + b |
| Wav.EncodeDecodeRoundTrip | c_src/xample_logger.c:43-50 | the sample bytes read back little-endian are the samples in order |
| Wav.WavOpen | c_src/xample_logger.c:98-120 | a fresh file holds exactly the 44-byte preamble and no samples |
| Wav.WavFile.constructor | c_src/xample_logger.c:56-96 | a new file holds exactly what WavOpen specifies: the preamble whose fields PreambleLayout states, and no samples |
| Wav.WavFile.WriteSamples | c_src/xample_logger.c:40-54 | the samples are appended little-endian and num_samples grows by n in size_t |
| Wav.WavFile.Close | c_src/xample_logger.c:122-137 | close leaves the file as WavClose specifies, whose size fields CloseSizes states and whose other bytes CloseKeepsOtherBytes keeps |
| Wav.PreambleLayout | c_src/xample_logger.c:76-94 | Preamble, the 44 bytes file_wav_open writes, holds "RIFF", 36 at offset 4, "WAVE", "fmt ", 16, PCM 1, channels, rate >> 8, byte rate modulo 2^16, block align 2 * channels, 16 bits, "data" at 36 and 0 at offset 40 |
| Wav.ChannelFields | c_src/xample_logger.c:85-89 | the uint32_t channel count written as 16 bits is the channel count modulo 2^16, and so is the block align |
| Wav.WriteAppends | c_src/xample_logger.c:40-54 | WavWrite, file_wav_write on the file's bytes, appends exactly 2n bytes, keeps what was there, and the new bytes decode to the samples |
| Wav.CloseKeepsOtherBytes | c_src/xample_logger.c:126-132 | WavClose, file_wav_close on the file's bytes, changes no byte outside offsets 4-7 and 40-43 |
| Wav.CloseSizes | c_src/xample_logger.c:124-132 | after WavClose, offset 4 reads (36 + size) mod 2^32 and offset 40 reads size, size = 2 * num_channels * num_samples mod 2^32 |
| Wav.WriteAllIsWriteFlat | c_src/xample_logger.c:458-462 | streaming page after page writes the concatenation of the pages |
| Wav.WriteAllSnoc | c_src/xample_logger.c:458-462 | streaming one more page onto a file is one more file_wav_write of that page |
| Wav.WriteTwice | c_src/xample_logger.c:40-54 | two writes in a row are one write of both runs, counts in size_t |
| Wav.ClosedAfterWrite | c_src/xample_logger.c:122-132 | closing after writing v to a fresh file gives 44 + 2 * len(v) bytes whose tail decodes to v, with both sizes as declared |
| Wav.MonoRecording | c_src/xample_logger.c:56-137 | a one-channel recording that fits 32-bit sizes is a well-formed WAVE file: RIFF size = file length - 8, data size = length - 44, data decoding to the samples |
| Wav.InflatedDataSize | c_src/xample_logger.c:126 | with c channels the declared data size is c times the bytes written, modulo 2^32 |
| Logger.PageAlign | c_src/xample_logger.c:139-142 | page_align rounds up to a multiple of page_size below v + page_size, or gives 0 when v + page_size - 1 wraps |
| Logger.Condition | c_src/xample_logger.c:350-361 | an absent -s/-e keeps the default condition, a given one is replaced by its parse, and a parse error is a failure; the condition in force has only the five condition bits and zero thresholds for disarmed keys |
| Logger.Configure | c_src/xample_logger.c:329-385 | the options succeed exactly when both conditions parse; max_samples defaults to 1M and otherwise is atoi's value in size_t; max_samples_t is page_align(rate * max_time, page_size); samples_per_page, the page count, channels and rate are the header's |
| Logger.IntToSize | c_src/xample_logger.c:348 | an int stored into a size_t is the int modulo 2^64: non-negative values are kept and negative ones wrap to 2^64 + x |
| Logger.Init | c_src/xample_logger.c:311-403 | the loop starts idle on the header's current_page with v0 = 0, m0 = 0, file index 0 and no files |
| Logger.FirstHit | c_src/xample_logger.c:418-429 | the first actionable sample from an index on, none before it acts, or none acts at all |
| Logger.Scan | c_src/xample_logger.c:445-457 | the scan loop stops one past the first actionable sample, with its mask, or at the end of the page |
| Logger.NextFno | c_src/xample_logger.c:482-483 | the file index advances modulo 10 |
| Logger.Consume | c_src/xample_logger.c:405-487 | handling one poll keeps the loop invariant: while recording m0 = 0, written is below both budgets, counts samples_per_page per page taken and equals the file's num_samples, and the open file is exactly the preamble followed by the pages taken so far, written in order |
| Logger.RunSpec | c_src/xample_logger.c:405-487 | the invariant holds after any run of polls |
| Logger.RecordStep | c_src/xample_logger.c:444-485 | one pass of the do-loop on the WavFile object does what RecordPage specifies: stop scan, count, write the page, close and rotate on a stop |
| Logger.Handle | c_src/xample_logger.c:410-486 | one return of the wait loop on the loop variables and WavFile objects does what Consume specifies |
| Logger.Run | c_src/xample_logger.c:401-487 | the files the loop closes are those RunSpec specifies from the initial state |
| Logger.RecordPageKeepsInv | c_src/xample_logger.c:445-485 | RecordPage keeps the loop invariant: a continuing recording has the page added to its count and file, and an ending one closes its file under an index below 10 |
| Logger.StreamPage | c_src/xample_logger.c:458-462 | writing the next page keeps written and the open file in step with the pages taken, written modulo 2^64 |
| Logger.PagesTaken | c_src/xample_logger.c:433-485 | RecordPage takes the page current_page named after the ones before it, and a file saved by this poll is the closed WAVE file of the channels, rate and exactly the pages taken, the first being the page the start condition was found on |
| Logger.SavedMonoFile | c_src/xample_logger.c:56-137 | a saved one-channel file that fits 32-bit sizes declares its true RIFF and data sizes and its data decodes to the pages taken, in order |
| Logger.FirstHitIsFirst | c_src/xample_logger.c:418-429 | the scan never skips an actionable sample |
| Logger.FileRotation | c_src/xample_logger.c:480-485 | a file is saved exactly when the index advances modulo 10; it carries the index it was opened under, the logger is idle afterwards, and only a file that was open is saved |
| Logger.PagesCounted | c_src/xample_logger.c:433-458 | every page a recording takes adds samples_per_page to written, a new recording has counted its first page |
| Logger.StopReasons | c_src/xample_logger.c:445-467 | a recording ends only on a stop hit (m0 then holds its nonzero mask) or when written reaches max_samples or max_samples_t |
| Logger.SavedDataSize | c_src/xample_logger.c:458-484 | a closed file declares 2 * channels * written modulo 2^32 data bytes, written being the logger's own count |
| Logger.HeldLimitsKeepIdle | c_src/xample_logger.c:418-429 | a level-only start condition whose bits are all in m0 leaves an idle logger idle, with v0, m0, file index and files unchanged |
| Logger.HeldLimitsNeverRestart | c_src/xample_logger.c:418-432 | the same over any run of polls |
| Logger.UpperStopIsFinal | c_src/xample_logger.c:445-453 | with -s u:N -e u:N a recording ended by its stop condition is never followed by another |
| Logger.DefaultStartActs | c_src/xample_logger.c:332-337 | without -s every sample acts on an idle logger whose m0 has no limit bit |
| Logger.DisarmedNeverActs | c_src/xample_logger.c:334 | without -e no sample acts as a stop |
| Logger.DefaultsRecordAtOnce | c_src/xample_logger.c:332-467 | with neither -s nor -e an idle logger starts at the first sample of the page it waited on, m0 stays 0, and a recording ends only at a budget |

## Left out

- Shared memory and mapping calls (`shm_unlink`, `shm_open`, `ftruncate`, `mmap`, `munmap`, `sysconf`): the page size is an input and each call's outcome is a `CreateOs` / `OpenOs` value. The unlink failure is not fatal in the source and is not modelled.
- Geometry.Create: requires that `buffer_size + 2 * page_size` fits in `size_t` and that `fdivpow2 <= 30`. Requests whose `size_t` products wrap, or for which `1 << fdivpow2` is undefined on an `int`, are not modelled.
- Geometry.CloseLength: returns the length `munmap` is given, not `munmap`'s return code.
- Polling with `usleep` and the visibility of `xp->current_page` between processes: each return of the wait loop is a `Poll` value.
- Logger.Consume: the source reads `xp->current_page` twice, once in the wait condition and once at `c_src/xample_logger.c:415`. The model reads it once, so a page published between the two reads is not captured.
- The sample area in the logger is a sequence of pages, not a flat buffer addressed by the `int` `page_offset`. An `int` overflow of `page * samples_per_page` is not modelled.
- SPI `ioctl`, `open_spi`, `close_spi` and the hidapi source (`open_hid`, `read_n_samples_hid`): foreign driver calls. The replies and the success of the transfer are inputs.
- `read_sample_sim` is a floating-point sine wave. Only the channel cycling and sleeping of `read_n_samples_sim` are modelled.
- Producer.Ring.Step: the source's return value of `read_n_samples_fn` is ignored, as in the source. Whether it delivered is the input `delivered`, and the samples it delivers are the input `src`.
- `gettimeofday` and the throughput report printed when a page is published (`c_src/xample.c:469-474`): clock and output only.
- The `last_sample` copy (`c_src/xample.c:454-455`) is not modelled; only the page report prints its first element. It copies `nchannels` samples starting at the last sample written. After the last frame of the last page it therefore reads `nchannels - 1` samples past the data pages' frames, which lie beyond the mapping when the frames fill the pages exactly, and for `nchannels > 8` it overflows the 8-element `last_sample` (`c_src/xample.c:444`).
- Doubles: `sample_freq`, `rate`, `max_time`, `udelay` and `max_samples_t = rate * max_time`. `udelay` and `rate * max_time` enter as integers (`Producer.PacingDelay`, `Logger.Configure`).
- The `int` conversions of `chunk_size` and `samples_per_frame - i` in the producer loop (`c_src/xample.c:442-443`) are taken as exact; the values involved are small.
- Command-line handling (`getopt`, `atoi`, `atof`, `usage`, `printf`), the channel selector set-up `selector[i] = i` and its fixed size of 8. The selector and the channel count are inputs.
- Logger.Configure: requires the `-n` value to be an `int` (atoi's range). `main` keeps the page size in an `int` (c_src/xample_logger.c:306, 379) and hands it to `page_align`, so page sizes of 2^31 or more, which that `int` turns negative, are not modelled; `Logger.PageAlign` likewise takes page sizes below 2^31.
- `fopen`, `calloc`, `strdup`, `fclose`, `free` and the file name text: a file is a byte sequence, and a saved file is its index `fno` with its contents. Whether `fopen` would succeed is the input `openOk`.
- Trigger.ParseTrigger: on -1 the partly filled trigger is returned but not specified, because `main` exits on that path.
- tool/xample_scope.c, the display tool, is not part of this model. c_src/xample.h contributes only the condition-bit constants, which are used directly.

## Findings

| source | as written | input that shows it | evidently intended | confidence | as-written member | corrected member |
|---|---|---|---|---|---|---|
| c_src/xample.c:69 | `rx` is a `char` array, so where `char` is signed the low byte `rx[2]` is sign-extended before it is added to the high nibble | the reply 0x01 0x80 (reading 0x180) decodes to 0x0800 instead of 0x1800; any low byte of 0x80 or more is off | `rx` as `uint8_t`, as in `read_n_samples_spi` (`c_src/xample.c:91`), giving `(((rx[1] & 0xF) << 8) + rx[2]) << 4` | not executed; only where `char` is signed, and `read_sample_spi` has no caller in `main` | Producer.SignedCharCounterexample | Producer.DecodeTwelveBits |
