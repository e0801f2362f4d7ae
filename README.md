# arpcap filter chain, modelled in Dafny

arpcap captures the screen of an Android device, encodes it and streams
it. The work is done by a chain of named stages ("filters"). Each stage
is a descriptor with optional `init` and `fini` hooks and an `apply` hook,
plus a private, zero-initialised state block. `main` builds a graph string
such as `cap:repeat:av:stat:tcp`. `init_filters` turns it into a chain of
registered descriptors, `filters_init` allocates the state blocks and
initialises the stages with positional roles, and `av_thread` runs ticks:
one call of `apply_filters` passes one packet through every stage in turn.

This project models:

- the filter registry: an append-only linked list searched by exact name
  (`registry.dfy`);
- the chain builder and executor: strtok tokenisation, the fixed-size
  stage table, positional roles, init with rollback, the per-tick rule in
  which `EAGAIN` does not stop a tick, the run loop and teardown
  (`text.dfy`, `chain.dfy`);
- the frame pacer of the capture backend, `FrameRunner`, and the buffer
  and plane logic of `cap_read` (`pacer.dfy`);
- every stage as a state machine over an abstract packet record:
  - `repeat`: re-emits the last packet (`repeat.dfy`);
  - `file`: a reference-counted shared handle (`file_stage.dfy`);
  - `tcp` and `pipe`: optional 32-bit length-prefixed records
    (`tcp.dfy`, `pipe_stage.dfy`);
  - `av`: timestamp and extradata bookkeeping around the encoder, plus
    the encoder settings (`av_stage.dfy`);
  - `stat`: counters and the time decomposition (`stat_stage.dfy`);
  - `cap`: the producer adapter (`cap_stage.dfy`);
- the packet helpers: the width/height packing into `pos`
  (`packet_size.dfy`), the packet record (`packets.dfy`), and packet and
  frame construction (`packet_utils.dfy`).

## How the model is read

- **Oracles.** Everything outside the core enters the model as a
  parameter:
  - the clock;
  - the results of libavcodec and of the pixel conversion;
  - socket and write outcomes;
  - the descriptor `socket()` returns;
  - the capture handle.
- **State blocks.** A stage's state block is identified by its allocation
  number (`Chain.Block`). The executor records every hook call together
  with the block `priv_data` held at the time (`Chain.HookCall`).
- **Assertions.** An `assert` in the source becomes a `requires` on the
  modelled operation, because it is a demand on the caller.
- **Packets.** A packet is a value:
  - unreferencing it clears its data and side data and resets its fields
    to the `av_init_packet` defaults (`Packets.Unref`);
  - cloning it copies it.
- **Sinks.** Files and sockets are append-only byte sequences. The
  pipe's `write_data` is a log of the records it was given.

## Model

| member | source | states |
|---|---|---|
| Registry.FilterList.constructor | jni/arpcap/src/filter.c:21-22 | the static `first_filter = last_filter = NULL`: an empty, well-formed list |
| Registry.FilterList.RegisterFilter | jni/arpcap/src/filter.c:50-61 | the descriptor is appended at the tail and becomes `last_filter`; the first registration sets both ends; the list stays linked from `first_filter` through `next`, in registration order, with distinct nodes (each descriptor registered once, unlinked) |
| Registry.FilterList.FindFilter | jni/arpcap/src/filter.c:42-48 | the loop returns the first node whose name equals the key exactly, NULL iff no registered name equals it, and changes nothing |
| Registry.LookupIsFirstMatch | jni/arpcap/src/filter.c:42-48 | the reference search is NULL iff the key is not among the names; otherwise it returns a node with that name and no earlier node has it |
| Registry.LookupAt | jni/arpcap/src/filter.c:42-48 | a node whose name no earlier node has is what the search for its name returns |
| Registry.FilterList.RegisterAll | jni/arpcap/src/filter.c:32-40 | after `filter_register_all` the list is exactly av, cap, file, pipe, repeat, stat, in that order |
| Registry.RegisteredLookups | jni/arpcap/src/filter.c:32-40 | each of the six names finds its own descriptor, and "tcp" finds nothing even though `tcp_filter` is defined |
| Registry.RegisteredInitials | jni/arpcap/src/filter.c:32-40 | the registered list has six entries, with names starting a, c, f, p, r, s |
| Registry.Descriptors.constructor | jni/arpcap/src/filter.c:32-40 | the seven descriptors are distinct and unlinked, with the names and hooks their files declare: the `Filter` definitions at filters/av.c:156, cap.c:63, file.c:101, pipe.c:67, repeat.c:82, stat.c:125 and tcp.c:121 (av has no init, pipe no fini) |
| Text.RunLength | jni/arpcap/src/arpcap.c:246 | the length of the longest prefix free of the separator, followed by the separator or the end |
| Text.Tokens | jni/arpcap/src/arpcap.c:246 | strtok's tokens: every token is non-empty and free of the separator |
| Text.TokensAreNonEmptyFields | jni/arpcap/src/arpcap.c:246 | strtok's tokens are exactly the non-empty fields of the split at every separator, in order (empty tokens skipped) |
| Text.FieldsOfRun | jni/arpcap/src/arpcap.c:246 | the first field is the separator-free prefix; the rest are the fields after the first separator |
| Text.NonEmptyAppend | jni/arpcap/src/arpcap.c:246 | dropping empty fields distributes over concatenation |
| Text.FieldsSplit | jni/arpcap/src/arpcap.c:246 | splitting `a + sep + b` gives the fields of a, then the fields of b |
| Text.TokensSplit | jni/arpcap/src/arpcap.c:246 | the tokens of `a + sep + b` are the tokens of a, then the tokens of b |
| Text.TokensCons | jni/arpcap/src/arpcap.c:246 | a separator-free non-empty token followed by the separator is the first token |
| Text.TokensSkip | jni/arpcap/src/arpcap.c:246 | a leading separator is skipped |
| Text.TokensSingle | jni/arpcap/src/arpcap.c:246 | a non-empty separator-free string is its own single token |
| Text.RunOfToken | jni/arpcap/src/arpcap.c:246 | the separator run of a token followed by a separator or the end is the token's length |
| Text.SkipSpace | jni/arpcap/src/filters/file.c:41 | sscanf's `%s` skips leading white space: the result is a suffix starting with a non-space |
| Text.WordLength | jni/arpcap/src/filters/file.c:41 | the length of the leading run of non-space characters, which ends at a space or the end |
| Text.ScanString | jni/arpcap/src/filters/file.c:41 | `sscanf(s, "<prefix>%s")` stores something only when s starts with the prefix, and what it stores is a non-empty word without white space |
| Text.ScanStringWord | jni/arpcap/src/filters/file.c:41 | after the prefix, a non-empty space-free word ended by white space or the end of the input is exactly what `%s` stores |
| Text.ScanStringSome | jni/arpcap/src/filters/file.c:41 | `%s` stores something iff the prefix matches and a non-space character follows it after optional white space |
| Text.DecimalValue | jni/arpcap/src/filters/pipe.c:30 | the value `%d` gives a digit string, below 10 to the number of digits |
| Text.DecimalValueLeading | jni/arpcap/src/filters/pipe.c:30 | read from the front, each digit weighs 10 to the number of digits after it |
| Text.DigitsLength | jni/arpcap/src/filters/pipe.c:30 | the length of the leading run of decimal digits |
| Text.ScanInt | jni/arpcap/src/filters/pipe.c:30 | `sscanf(s, "<prefix>%d")` stores something only when s starts with the prefix |
| Text.ScanIntDigits | jni/arpcap/src/filters/pipe.c:30 | after the prefix, an optional `-` or `+` and a run of digits ended by a non-digit or the end: `%d` stores the decimal value of the digits, negated for `-` |
| Text.ScanIntSome | jni/arpcap/src/filters/pipe.c:30 | `%d` stores something iff the prefix matches and, after optional white space and an optional sign, a digit follows |
| Text.DigitsLengthOfDigits | jni/arpcap/src/filters/pipe.c:30 | the digit run of a digit string followed by a non-digit or the end is that string |
| Text.WordLengthOfWord | jni/arpcap/src/filters/file.c:41 | the word of a space-free string followed by white space or the end is that string |
| Packets.Records | jni/arpcap/src/filters/pipe.c:47-55 | the records a non-empty packet is written as: its extradata side data first when present, then always its data |
| Packets.Unref | jni/arpcap/src/utils.c:66 | `av_packet_unref` leaves an empty packet with no side data and the default fields |
| Packets.CDiv | jni/arpcap/src/filters/repeat.c:37 | C's division truncates toward zero: the remainder is smaller than the divisor and has the dividend's sign |
| Packets.TruncatedRemainder | jni/arpcap/src/filters/repeat.c:37 | the remainder of truncating division is the magnitude remainder with the dividend's sign |
| PacketSize.MkSize | jni/arpcap/include/utils.h:26-30 | `PKT_MKSIZE` on 64-bit integers gives a 64-bit value, non-negative for a non-negative height |
| PacketSize.Width | jni/arpcap/include/utils.h:31 | `PKT_WIDTH` is the arithmetic shift by 32: the floor of pos / 2^32, always an int32 |
| PacketSize.Height | jni/arpcap/include/utils.h:32 | `PKT_HEIGHT` is the low 16 bits, always in 0..65535 |
| PacketSize.WidthRoundTrip | jni/arpcap/include/utils.h:29-31 | `PKT_WIDTH(PKT_MKSIZE(w, h)) == w` for non-negative 32-bit w and h |
| PacketSize.HeightRoundTrip | jni/arpcap/include/utils.h:29-32 | `PKT_HEIGHT(PKT_MKSIZE(w, h)) == h mod 65536`, hence h itself below 65536 |
| PacketSize.HeightTruncated | jni/arpcap/include/utils.h:32 | a height of 65536 reads back as 0 |
| PacketSize.NegativeHeightCorruptsWidth | jni/arpcap/include/utils.h:29-31 | a negative height sign-extends over the width: the packed value is h itself and the width reads back as -1 |
| PacketUtils.NewPacketFromData | jni/arpcap/src/utils.c:26-35 | on an empty packet and a positive size, the packet holds exactly the first size bytes, with default fields, and size is returned |
| PacketUtils.FrameMetadata | jni/arpcap/src/utils.c:50-64 | a video packet gives `PKT_WIDTH` x `PKT_HEIGHT` YUV420P; any other gives 2-channel S16 at 44100 Hz with `nb_samples = size / 4` (truncated) |
| PacketUtils.NewFrameFromPacket | jni/arpcap/src/utils.c:48-69 | the frame carries the packet's metadata, the packet is left unreferenced, and 0 is returned |
| PacketUtils.CopyPath | jni/arpcap/src/utils.c:79-93 | the frame is copied as video iff the packet is video or an audio packet shorter than 4 bytes (then a 0x0 picture) |
| Chain.RoleAt | jni/arpcap/src/arpcap.c:191-202 | the role of stage i in a chain of n: the input iff i is 0, the output iff i is the last index and not 0, a filter otherwise |
| Chain.ChainRoles | jni/arpcap/src/arpcap.c:191-202 | index 0 is the input (also in a one-stage chain), the last index of a longer chain the output, every other index a filter, and no other index gets input or output |
| Chain.SepRun | jni/arpcap/src/arpcap.c:169-179 | the number of leading colons |
| Chain.ParseProtocolName | jni/arpcap/src/arpcap.c:169-179 | NULL iff the address is all colons; otherwise the non-empty colon-free text after the leading colons, up to the next colon |
| Chain.ProtocolNameIsFirstToken | jni/arpcap/src/arpcap.c:169-179 | the protocol name is the first strtok token of the address, NULL when there is none |
| Chain.GraphString | jni/arpcap/src/arpcap.c:135-138 | the `snprintf` result: `cap:repeat:av:`, then `stat` when verbose, then `:` and the output protocol |
| Chain.GraphStages | jni/arpcap/src/arpcap.c:135-138 | the graph main builds has the stages cap, repeat, av, [stat when verbose], then the output protocol: the empty slot is skipped |
| Chain.FourSlots | jni/arpcap/src/arpcap.c:135-138 | the tokens of a five-slot graph string with one possibly empty slot are the four fixed slots around the tokens of that slot |
| Chain.Allocated | jni/arpcap/src/arpcap.c:186-190 | the n blocks filters_init allocates are consecutive fresh allocations |
| Chain.FirstFailure | jni/arpcap/src/arpcap.c:203-205 | the index of the stage whose init fails, between the start and the chain length |
| Chain.FirstFailureIsFirst | jni/arpcap/src/arpcap.c:203-205 | every stage before the first failure has no init or one that succeeds; the failed stage has an init that returns a negative value (a NULL init counts as success) |
| Chain.InitCalls | jni/arpcap/src/arpcap.c:186-203 | the reference log of filters_init's init calls for the first hi stages: at most one call per stage (their shape is InitCallsShape) |
| Chain.InitCallsShape | jni/arpcap/src/arpcap.c:186-203 | exactly one init call per stage that has an init, in stage order, each with the stage's positional role and its own block |
| Chain.RollbackCalls | jni/arpcap/src/arpcap.c:207-213 | the reference log of the rollback's fini calls as written: at most one per earlier stage (their shape is RollbackCallsShape) |
| Chain.FiniCalls | jni/arpcap/src/arpcap.c:223-233 | the reference log of filters_fini's fini calls: at most one per stage (their shape is FiniCallsOwnBlocks) |
| Chain.RollbackHandsFailedBlock | jni/arpcap/src/arpcap.c:207-213 | in the rollback as written, every earlier stage with a fini is called on the failed stage's block and never on its own |
| Chain.RollbackCallsShape | jni/arpcap/src/arpcap.c:207-213 | in stage order, every rollback call is a fini of an earlier stage on the one block given, and no earlier stage with a fini is skipped |
| Chain.FiniCallsOwnBlocks | jni/arpcap/src/arpcap.c:223-233 | in stage order, every fini call of the teardown is stage j on block j, and every stage with a fini is called |
| Chain.Tick | jni/arpcap/src/arpcap.c:270-284 | the number of stages a tick runs lies between the start and the chain length |
| Chain.TickRule | jni/arpcap/src/arpcap.c:274-283 | a tick runs the stages in order, each on the packet the previous one left; it goes on past every result that is non-negative or EAGAIN, stops only after a negative non-EAGAIN result, and returns the result of the last stage run, or -1 for an empty chain |
| Chain.TickFrom | jni/arpcap/src/arpcap.c:274-283 | the tick rule from any stage reached without a fatal result |
| Chain.Run | jni/arpcap/src/arpcap.c:308-319 | the loop runs at least the ticks already run, never past the abort point unless it had already stopped |
| Chain.RunEnds | jni/arpcap/src/arpcap.c:308-319 | the loop ends at the abort point or right after the first tick whose result is negative and not EAGAIN: every tick before the last had a result that is not fatal, and the loop's result is its last tick's; a loop entered at the abort point runs no tick and leaves result, packet and calls as they were; the calls made so far are a prefix of the final call log |
| Chain.TranscodeContext.constructor | jni/arpcap/src/arpcap.c:128-138 | the context main sets up: given stream type and graph, empty table, zeroed slots |
| Chain.TranscodeContext.AddFilter | jni/arpcap/src/arpcap.c:259-268 | a full table (8 stages) gives -1 and nothing changes; otherwise the registered descriptor is appended and 0 returned |
| Chain.TranscodeContext.InitFilters | jni/arpcap/src/arpcap.c:235-257 | after clearing the table, one stage per strtok token in order, at most 8; -1 when there is no token or more than 8 of them, else 0; every slot and priv_data NULL |
| Chain.TranscodeContext.Allocate | jni/arpcap/src/arpcap.c:190 | a fresh block goes into the stage's slot and into priv_data; nothing else changes |
| Chain.TranscodeContext.Free | jni/arpcap/src/arpcap.c:212 | `av_freep` frees the slot's block and clears the slot |
| Chain.TranscodeContext.InitStage | jni/arpcap/src/arpcap.c:186-203 | a fresh block for stage i, and its init called with its positional role on that block when it has one |
| Chain.TranscodeContext.InitStages | jni/arpcap/src/arpcap.c:186-205 | stages are initialised in order on fresh blocks up to and including the first failure; the result is that init's (negative), the last stage's when none fails, -1 for an empty chain |
| Chain.TranscodeContext.Rollback | jni/arpcap/src/arpcap.c:207-213 | as written: stages before the failed one have their fini called on the failed stage's block and their own blocks freed, in order |
| Chain.TranscodeContext.FiltersInit | jni/arpcap/src/arpcap.c:181-221 | as written: -1 for an empty chain; full success initialises every stage on its own block; at the first failure the earlier stages are rolled back on the failed stage's block, their blocks freed, the failed block kept and not finalised; priv_data NULL afterwards |
| Chain.TranscodeContext.FiltersInitCorrected | jni/arpcap/src/arpcap.c:204-216 | corrected rollback: each earlier stage's fini runs on its own block, and every block allocated, the failed one included, is freed |
| Chain.TranscodeContext.FiniStages | jni/arpcap/src/arpcap.c:226-232 | stages 0..n-1 in order: priv_data set to the stage's block, its fini called if present, the block freed |
| Chain.TranscodeContext.FiltersFini | jni/arpcap/src/arpcap.c:223-233 | every stage's fini once, in forward order, on its own block; every block freed and every slot cleared |
| Chain.TranscodeContext.ApplyFilter | jni/arpcap/src/arpcap.c:286-296 | the stage's apply runs with priv_data on its own block; priv_data is NULL afterwards |
| Chain.TranscodeContext.ApplyFilters | jni/arpcap/src/arpcap.c:270-284 | the loop computes the tick of the reference rule: same result, same packet, and the stages that ran called in order on their blocks |
| Chain.TranscodeContext.RunTicks | jni/arpcap/src/arpcap.c:305-319 | the loop over ticks, starting from an empty packet carried across ticks, computes the reference run |
| Chain.TranscodeContext.AvThread | jni/arpcap/src/arpcap.c:298-326 | init (required to succeed), the run loop, then every stage's fini once in order on its own block, every block freed, and the abort flag set |
| Pacer.Admitted | jni/arpcap/src/cap.cpp:81-89 | the drop loop never adds frames: it leaves between 0 and the pending count |
| Pacer.AdmittedFrame | jni/arpcap/src/cap.cpp:81-89 | after an arrival at most one frame is pending, and one only when the time since the last admitted frame is at least the frame delay |
| Pacer.FrameRunner.constructor | jni/arpcap/src/cap.cpp:65-73 | nothing pending or held back, unlocked, last update 0, frame delay 1000000000 / framerate (truncating) |
| Pacer.FrameRunner.OnFrameAvailable | jni/arpcap/src/cap.cpp:75-95 | pending ends at 1 iff the frame delay has passed, then with the arrival's timestamp as last update; each dropped frame costs one backend acquire and release when unlocked, or one held-back release when locked; the acquire/release balance is kept |
| Pacer.FrameRunner.Lock | jni/arpcap/src/cap.cpp:97-110 | succeeds iff a frame is pending: locks, acquires one buffer, decrements pending, returns the old count; otherwise returns 0 and changes nothing |
| Pacer.FrameRunner.Release | jni/arpcap/src/cap.cpp:112-127 | when locked: one release, then each held-back release drained with one acquire and release, then unlocked; when unlocked nothing changes; the balance is kept |
| Pacer.PlaneLayout | jni/arpcap/src/cap.cpp:176-181 | three plane offsets and three line sizes, and a non-negative size |
| Pacer.PlanesFit | jni/arpcap/src/cap.cpp:176-181 | the planes lie in order inside the `w*h*3/2` buffer, luma `w*h` bytes and each chroma plane `w*h/4`; for even sizes the chroma planes are (w/2) x (h/2) and fill it exactly |
| Pacer.Cap.constructor | jni/arpcap/src/cap.cpp:157-158 | cap_open's result: a value-initialised context of size 0x0 with no buffer (`pkt = nullptr`), over a balanced, unlocked pacer |
| Pacer.Cap.Allocate | jni/arpcap/src/cap.cpp:169-181 | the first frame fixes the size and the layout, with a buffer of layout size |
| Pacer.Cap.CapRead | jni/arpcap/src/cap.cpp:163-207 | EAGAIN iff no frame is pending, with nothing changed; otherwise one lock and exactly one release on both paths, size and layout fixed on the first read and kept later, -1 iff the conversion fails and 0 otherwise, and on success the buffer as a video packet with `pos = PKT_MKSIZE(w, h)`; the last update time is untouched |
| Repeat.Interval | jni/arpcap/src/filters/repeat.c:23-37 | the maximum of twice the frame period in microseconds (truncating) and 80000, so always at least 80000 |
| Repeat.Repeats | jni/arpcap/src/filters/repeat.c:67-72 | the re-emission times are among the ticks without fresh input |
| Repeat.RepeatsSpaced | jni/arpcap/src/filters/repeat.c:67-72 | with no fresh input, the first re-emission is at least one interval after the last emission and consecutive re-emissions are at least one interval apart |
| Repeat.RepeatContext.constructor | jni/arpcap/src/arpcap.c:190 | the zeroed state block: no stored packet |
| Repeat.RepeatContext.Init | jni/arpcap/src/filters/repeat.c:32-40 | the interval is set from the frame rate whatever the role, and 0 returned |
| Repeat.RepeatContext.Fini | jni/arpcap/src/filters/repeat.c:42-49 | the stored copy is freed |
| Repeat.RepeatContext.Apply | jni/arpcap/src/filters/repeat.c:51-80 | fresh input is stored, restarts the interval and passes through with 0; an empty tick is refilled with the stored packet once the interval has passed (restarting it), else EAGAIN with nothing changed; agrees with `Repeats` |
| FileStage.PacketBytes | jni/arpcap/src/filters/file.c:79-87 | the bytes of a packet: its extradata, if present, then its data, without prefixes |
| FileStage.FileRef.constructor | jni/arpcap/src/filters/file.c:32 | the static `{ NULL, 0 }` |
| FileStage.FileContext.constructor | jni/arpcap/src/arpcap.c:190 | the zeroed state block: no handle |
| FileStage.FileContext.Init | jni/arpcap/src/filters/file.c:34-53 | opens the path after `file://` only while the shared handle is NULL, shares the handle, counts up; never closes; keeps "open iff in use, opens = closes + open" |
| FileStage.FileContext.Fini | jni/arpcap/src/filters/file.c:55-70 | clears the instance's handle, counts down, and closes and nulls the shared handle exactly when the count reaches 0; keeps the invariant |
| FileStage.FileContext.Apply | jni/arpcap/src/filters/file.c:72-99 | a non-empty packet appends its extradata then its data, is unreferenced, gives 0; an empty one gives EAGAIN and writes nothing |
| Tcp.LE32 | jni/arpcap/src/filters/tcp.c:112 | the 4-byte little-endian prefix of a 32-bit length |
| Tcp.ReadLE32 | jni/arpcap/src/filters/tcp.c:112 | a 4-byte prefix reads as a 32-bit length |
| Tcp.LE32RoundTrip | jni/arpcap/src/filters/tcp.c:112 | reading back the prefix gives the length |
| Tcp.Frame | jni/arpcap/src/filters/tcp.c:92-96 | what a packaged packet's records become on the socket: at least 4 bytes per record, the first record's length readable back from the first 4 bytes and followed by that record |
| Tcp.Deframe | jni/arpcap/src/filters/tcp.c:108-119 | reading length, then that many bytes, repeatedly, gives records that each fit the 32-bit prefix |
| Tcp.DeframeFrame | jni/arpcap/src/filters/tcp.c:108-119 | a stream of framed records decodes back to exactly those records |
| Tcp.FrameAppend | jni/arpcap/src/filters/tcp.c:108-119 | framing distributes over concatenation of record lists |
| Tcp.AddressText | jni/arpcap/src/filters/tcp.c:42-43 | the text `%s` stores after `tcp://`: space-free, and non-empty iff sscanf stores something |
| Tcp.ParseAddress | jni/arpcap/src/filters/tcp.c:43-50 | no address iff the text after `tcp://` has fewer than two non-empty `:` tokens; otherwise ip and port are the first two tokens |
| Tcp.ParseAddressExample | jni/arpcap/src/filters/tcp.c:43-50 | `ip:port` tokenises into ip and port; a text without a colon has no port |
| Tcp.SentInOrder | jni/arpcap/src/filters/tcp.c:92-96 | sending the extradata record and then the data record sends the framing of the packet's records |
| Tcp.Sent | jni/arpcap/src/filters/tcp.c:108-119 | the bytes one write_data puts on the socket: none after a failed prefix, only the payload without `package`, one framed record on full success |
| Tcp.TcpContext.constructor | jni/arpcap/src/arpcap.c:190 | the zeroed state block: descriptor 0, `package` 0, no address, nothing sent |
| Tcp.TcpContext.Init | jni/arpcap/src/filters/tcp.c:34-71 | `package` copied first; without ip or port -1 and no socket; otherwise the socket kept and connect's result returned |
| Tcp.TcpContext.Fini | jni/arpcap/src/filters/tcp.c:73-80 | the socket is closed and 0 returned |
| Tcp.TcpContext.WriteData | jni/arpcap/src/filters/tcp.c:108-119 | with `package`: a failed prefix gives -1 and sends nothing, otherwise the 4-byte length then the payload; without it only the payload; the result is negative iff the payload write failed; full success sends exactly one framed record; in every case the stream grows by exactly `Sent` |
| Tcp.TcpContext.Apply | jni/arpcap/src/filters/tcp.c:82-106 | a non-empty packet is unreferenced and gives 0 whatever the writes did; successful writes send the extradata record then the data record, framed iff `package`; an empty packet gives EAGAIN and sends nothing; whatever the writes do, the stream grows by the extradata record's `Sent` bytes then the data record's |
| PipeStage.PipeFd | jni/arpcap/src/filters/pipe.c:30 | the value `%d` stores after `pipe://`, or the zeroed default when it stores nothing (what that value is: `PipeFdValue`) |
| PipeStage.PipeFdValue | jni/arpcap/src/filters/pipe.c:30 | `pipe://` then an optionally signed run of digits names the descriptor with that signed decimal value, whatever follows the digits |
| PipeStage.PipeFdDefault | jni/arpcap/src/filters/pipe.c:30 | an output not starting with `pipe://` leaves the zeroed descriptor |
| PipeStage.PipeContext.constructor | jni/arpcap/src/arpcap.c:190 | the zeroed state block: descriptor 0, `package` 0, nothing written |
| PipeStage.PipeContext.Init | jni/arpcap/src/filters/pipe.c:25-39 | the descriptor parsed, `package` copied, 0 returned |
| PipeStage.PipeContext.Apply | jni/arpcap/src/filters/pipe.c:41-65 | a non-empty packet writes its extradata record, if any, then its data record, is unreferenced and gives 0; an empty one gives EAGAIN and writes nothing |
| AvStage.OpenH264Encoder | jni/arpcap/src/filters/av.c:104-154 | size and YUV420P as given; GOP 100 (1 and global header with fmp4); no B-frames; rate-control fields `bitrate*1000` only for a positive bitrate; frame rate 1/framerate (1/(framerate+1) with fmp4) and a time base 1000 times finer; 1000 ticks per frame; profile/level/preset/tune; crf only when positive |
| AvStage.OpenEncoder | jni/arpcap/src/filters/av.c:93-102 | an encoder iff the codec is H.264, and then the non-fmp4 H.264 encoder |
| AvStage.AvEncoderNotFmp4 | jni/arpcap/src/filters/av.c:97-99 | the encoder av_apply opens has GOP 100, no global header, frame rate 1/framerate and time base 1/(1000*framerate) |
| AvStage.NextPts | jni/arpcap/src/filters/av.c:84 | next_pts grows by the duration when positive, else by 1000, so it strictly increases |
| AvStage.PackableSize | jni/arpcap/src/filters/av.c:69 | a packable packet's frame size is a valid `PKT_MKSIZE` argument |
| AvStage.AvContext.constructor | jni/arpcap/src/arpcap.c:190 | the zeroed state block: no encoder, next_pts 0 |
| AvStage.AvContext.Fini | jni/arpcap/src/filters/av.c:33-43 | the encoder is closed when one was opened; 0 returned |
| AvStage.AvContext.Apply | jni/arpcap/src/filters/av.c:45-91 | empty: EAGAIN, nothing touched; else the frame from the packet, the encoder opened lazily at next_pts 0, the frame sent with pts next_pts; on receipt stream index, `PKT_MKSIZE`, duration 1000 for 0, extradata while next_pts is 0, next_pts advanced; the result is the first failing call's or the receive's |
| AvStage.PtsRun | jni/arpcap/src/filters/av.c:61-84 | the timestamps successive received packets are sent with, one per packet, starting at the given one |
| AvStage.ExtradataOnlyFirst | jni/arpcap/src/filters/av.c:75-84 | successive timestamps strictly increase, so from a non-negative start only the first can be 0 and carry the extradata |
| StatStage.Decompose | jni/arpcap/src/filters/stat.c:103-107 | microseconds, seconds and minutes in their ranges |
| StatStage.DecomposeWithinHour | jni/arpcap/src/filters/stat.c:103-107 | `us + 10^6 * (secs + 60 * mins) == \|pts\| mod one hour` |
| StatStage.ModOfDecomposition | jni/arpcap/src/filters/stat.c:103-107 | a decomposition `a = n*q + r` with `0 <= r < n` has `a % n == r` |
| StatStage.StatContext.constructor | jni/arpcap/src/arpcap.c:190 | the zeroed state block: every counter, the clock and the last-report time 0, no report |
| StatStage.StatContext.Init | jni/arpcap/src/filters/stat.c:43-55 | on the filter role, the frame rate recorded and 0 returned |
| StatStage.StatContext.Info | jni/arpcap/src/filters/stat.c:82-123 | a packet bumps frames and adds its size to both totals, gets `frames*1000` when it has no pts; the first call only starts the clock; later a report fires without a packet or after a full interval, clearing the interval total and restarting the interval |
| StatStage.StatContext.Apply | jni/arpcap/src/filters/stat.c:66-123 | a non-empty packet is passed to info and gives 0: frames bumped, sizes added, `frames*1000` as pts when it had none; the first one starts the clock, and after a full interval a report of the totals and the decomposed pts is emitted and the interval total cleared; an empty one gives EAGAIN with no state change |
| StatStage.StatContext.Fini | jni/arpcap/src/filters/stat.c:57-64 | a last report unless the clock never started; counters unchanged; 0 returned |
| CapStage.CapContext.constructor | jni/arpcap/src/arpcap.c:190 | the zeroed state block: no handle, not closed |
| CapStage.CapContext.Init | jni/arpcap/src/filters/cap.c:32-44 | on the input role of a video chain the handle is kept and 0 returned, even for NULL |
| CapStage.CapContext.Fini | jni/arpcap/src/filters/cap.c:46-53 | the handle is closed and 0 returned |
| CapStage.CapContext.Apply | jni/arpcap/src/filters/cap.c:55-61 | on an empty packet, cap_read's result and effect: EAGAIN with nothing changed when no frame is pending; otherwise one lock and one release, size and layout fixed on the first read and kept later, -1 iff the conversion fails and 0 otherwise, the buffer as a video packet on success |

## Left out

- `main`'s options, `print_usage_and_exit`, the signal handler and the
  thread start and join are process plumbing. The `aborted` flag is a
  parameter of the run loop: the tick before which it is seen set.
- The mutexes and the condition variable are left out because they only
  serialise the methods, and each method is modelled as one atomic step.
  The 10 ms `wait_for` in `lock` is an immediate check for a pending
  frame.
- libavcodec, libavutil and libyuv are foreign code. Their results are
  parameters:
  - `avcodec_send_frame` and `avcodec_receive_packet`, along with the
    received packet and the codec's extradata;
  - the return value of `ABGRToI420` and the bytes it writes;
  - `av_rescale_q` in stat.
  `avcodec_open2` and `av_opt_set` are recorded as the fields of
  `AvStage.EncoderConfig`.
- The byte copies `av_image_*` and `av_samples_*` in utils.c are left
  out, and so is `new_packet_from_frame`. These are pixel and sample
  copies.
- `socket`, `setsockopt`, `connect`, `close`, `fopen`, `fwrite`,
  `fflush`, `fclose` and `setbuf` are I/O:
  - each sink is an append-only byte sequence;
  - each write's outcome is a parameter;
  - the descriptor `socket()` returns is a parameter.
  `write_fully`, file.h's `write_data` and its `FileContext` type are not
  part of this model: the pipe's writes are logged as records.
- The floating-point bit rates and the `fprintf` status line of stat are
  left out as floating point and output. The integer fields of each
  report are kept.
- `av_gettime()` is left out as a clock: it is the parameter `now` of
  stat and repeat.
- `cap_open` and `cap_close` are backend calls. The handle is a parameter
  of `CapStage.CapContext.Init`, and closing sets a flag. filters/cap.c
  passes `cap_open` five arguments, including fields that
  `TranscodeParam` lacks, while cap.cpp takes three. The argument
  passing between them is not modelled.
- `jni/libarpcap/dummy/ScreenCapture.cpp` holds no-op platform stubs and
  is left out. The backend appears only as the acquire and release
  counters of `Pacer.FrameRunner`.
- NULL packet pointers passed to the apply hooks are not modelled. The
  executor always passes its own packet, so only the empty/non-empty
  distinction is kept.
- Integer overflow is not modelled: `frames*1000`, `bitrate*1000`,
  `w*h*3/2`, the timestamp differences in repeat and the pacer, and
  `FFABS(INT64_MIN)` are unbounded integers here. `PKT_MKSIZE`'s 64-bit
  packing is modelled exactly.
- `Chain.GraphString`: `snprintf(names, BUFSIZ, …)` cuts the graph text
  at BUFSIZ - 1 characters; the model's string is unbounded, so an output
  protocol name long enough to be cut is not modelled.
- `Text.DecimalValue`: sscanf's `%d` on a digit run too long for an
  `int` is undefined behaviour in C; here the value is the unbounded
  decimal value, so `pipe://` followed by a huge number names a
  descriptor no `int` can hold.
- Packets are values. In the source, `av_packet_ref` and
  `av_packet_clone` share `Cap`'s single frame buffer, which the next
  conversion in `cap_read` overwrites in place (jni/arpcap/src/cap.cpp:183-202).
  A packet held across ticks, such as repeat's stored copy, would then
  see the newer picture; the model gives each packet its own bytes and
  does not capture that aliasing. In the chains `main` builds, repeat
  re-emits only on ticks without a fresh frame, when cap_read converts
  nothing, and a failed conversion ends the run, so the difference is
  not observable there.
- `AvStage.OpenH264Encoder`: the time base is `av_mul_q`'s product as
  written, without the reduction `av_mul_q` applies.
- `FileStage.FileContext.Init`: `fopen` failure is an assertion in the
  source and is not modelled; the open always succeeds.
- `Tcp.AddressText`: when sscanf stores nothing, the uninitialised
  buffer is read as empty, so the address is missing.
- `Tcp.TcpContext.WriteData`: the prefix is the low 32 bits of `nbyte`,
  little-endian. The target's byte order and the upper bytes of a 64-bit
  `size_t` are not modelled.
- `Chain.TranscodeContext.AvThread`: the source asserts that
  `filters_init` succeeds, which the model takes as a precondition. The
  `priv_data_size` of each descriptor is not modelled. Every block is
  zeroed, and its contents are the stage modules' own classes.

## Findings

In this revision no registered stage's init returns a negative value
(tcp's can, but tcp is not registered), so both defects below are latent
until such a stage is added.

| source | as written | input that shows it | evidently intended | confidence | as-written member | corrected member |
|---|---|---|---|---|---|---|
| jni/arpcap/src/arpcap.c:210 | the rollback sets `priv_data` to `filter_data[i]`, the failed stage's block, before calling the fini of each earlier stage j | a chain `cap:repeat:tcp` (tcp registered) with output `tcp://host`, which has no port: tcp's init returns -1, and the finis of cap and repeat run on tcp's block instead of their own | set `priv_data` to `filter_data[j]`, so each stage finalises its own state | not executed | Chain.RollbackHandsFailedBlock | Chain.FiniCallsOwnBlocks |
| jni/arpcap/src/arpcap.c:204-216 | after stage i's init fails, only blocks 0..i-1 are freed, and the failed stage's block stays allocated in `filter_data[i]` | the same chain: tcp's block is never freed | free every block filters_init allocated, the failed one included | not executed | Chain.TranscodeContext.FiltersInit | Chain.TranscodeContext.FiltersInitCorrected |
