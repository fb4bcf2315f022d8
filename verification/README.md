# Audacity `.aup` reader — a Dafny model

This project models the reconstruction engine of the `audacity` Python package
(`audacity/__init__.py`). The package reads an Audacity 2.x project. A project
is an XML document plus a directory tree of small block files, each holding a
run of 32-bit float samples. The model covers these parts:

- **Loading** (`Aup.__init__`). For every channel, each block reference of each
  wave clip is resolved to a file path under the project's two-level
  directory layout. A missing file raises. Each block is recorded as (source,
  clip start, declared length). The channel's records are stably sorted by
  start. With `fill_gaps`, a walk over the sample positions appends
  zero-filled records and the channel is sorted again.
- **The cursor**. `open` selects a channel and rewinds, and `close` marks the
  reader closed. `seek` is a linear scan over the declared lengths. `read` is
  a generator that yields, for each record from the cursor on, the record's
  samples from the intra-record offset to its end.
- **Export** (`towav`). Each chunk read is scaled by 2^15, clipped to the
  16-bit range and truncated toward zero. When a stop is given, chunks are cut
  to the remaining sample budget and the loop breaks once the budget is used
  up. Every value is packed as a signed 16-bit integer, big-endian for AIFF and
  little-endian for WAV.

Modules follow the program's structure:

- `Results`: the error kinds and `Result`.
- `Seqs`: concatenation helpers.
- `Fragments`: records, the disk, prefix sums and the channel stream.
- `Layout`: the block path.
- `StableSort`: `sorted(..., key=start)`.
- `GapFill`: the `fill_gaps` walk.
- `Project`: the document, the reader and the constructor.
- `Cursor`: `open`, `close`, `seek` and `read`.
- `Export`: `towav`.
- `Scenarios`: worked examples on concrete inputs.

The block files are a map `Disk` from path to the samples a file holds. "The
file exists" means the path is a key of that map. A synthetic gap record holds
`Silence(n)`, which is n samples of 0.0. Samples are Dafny `real`s, an idealised
float32.

### Quirks of the code the model keeps

- The gap filler stores `sample + 1` as the length field of a synthetic
  record (line 49). That is the absolute position of the closing block's
  start plus one, not the gap's length. Only a gap that starts at 0 gets a
  length field equal to the number of zeros it holds.
  `GapFill.SyntheticRecord` states the code's value.
- The walk starts in gap mode (line 40) and writes a zero before it looks at
  the blocks. A channel whose first block starts at 0 therefore still gets a
  record of one zero at 0 (`GapFill.FirstBlockAtZero`). Blocks that touch,
  where one ends where the next starts, produce a record that holds no
  samples (`Scenarios.TouchingBlocksExample`).
- `total_length` is the last record's start plus its length after sorting
  (line 36). This is not necessarily the largest end. Overlapping blocks
  are not treated specially.
- `seek` computes the offset as `pos - s + length`, where `s` is the
  running total *through* the chosen record (lines 81-88). With an empty
  channel the loop leaves `s` at 0 and `length` at 0. A negative position
  then passes the end check, leaving `aunr` at 0 and a negative offset.
  `Cursor.Seek` models that.
- Declared lengths and positions are unconstrained integers, as in the code.
  The properties about landing and reading assume non-negative lengths, or
  sources whose sizes match their declared lengths.

## Model

| member | source | states |
|---|---|---|
| Layout.Slice | audacity/__init__.py:26-27 | Python's clamped slice: its length is min(hi, \|s\|) − min(lo, \|s\|) and element k is s[lo + k] |
| Layout.BlockPath | audacity/__init__.py:26-28 | the path has five parts: dir, project, the first up to three characters of the name, 'd' followed by characters 3–4 as far as they exist, and the name; the two bucket names together spell the first min(5, \|name\|) characters |
| Layout.BlockPathBuckets | audacity/__init__.py:26-27 | for names of five or more characters the buckets are exactly name[..3] and 'd', name[3], name[4] |
| Project.ClipStarts | audacity/__init__.py:22-32 | block bi of clip ci is record (blocks in earlier clips) + bi of the channel and carries its clip's start sample and its own length, whatever its position in the clip |
| Project.Resolve | audacity/__init__.py:24-32 | loading fails exactly when some block's file is absent; the error names the project and the path of the FIRST absent block; otherwise there is one record per block, in document order, with its file, its clip's start and its declared length |
| Project.Locate | audacity/__init__.py:28-32 | one block: a record when its path exists, the missing-file error naming the project and path when it does not |
| Results.Collect | audacity/__init__.py:20-57 | a sequence of outcomes succeeds exactly when each one does, keeping them all in order; otherwise it fails with the error of the first failing one |
| Project.LoadChannel | audacity/__init__.py:21-57 | one channel loads exactly when all its block files exist and, with gap filling, it has a block; otherwise the error names the project and the path of its first absent block, or is the empty-channel error |
| Project.LoadTracks | audacity/__init__.py:20-57 | channels load in document order: on success there is one loaded channel per track; a failure carries the error of the first channel that fails |
| Project.Load | audacity/__init__.py:9-60 | a successful load has one channel per track, each the loaded channel, with the document's rate and project name and a closed cursor; a failure is the error of the first failing channel |
| Project.LoadSucceeds | audacity/__init__.py:20-57 | loading succeeds exactly when every channel's block files exist and, with gap filling, every channel has at least one block |
| Project.LoadFails | audacity/__init__.py:20-57 | a failed load raises for the first channel, in document order, that cannot load: the missing-file error for its first absent block (naming project and path), or the empty-channel error under gap filling |
| Project.LoadedChannel | audacity/__init__.py:33-57 | every loaded channel is sorted by start; without gap filling, its records at each start value are the located records in document order; with gap filling, all located records remain and everything added is zero-filled |
| StableSort.SortByStart | audacity/__init__.py:33 | the result is sorted by start, is a permutation of the input, and lists the records with any given start in their input order |
| StableSort.InsertSorted | audacity/__init__.py:33 | inserting a record into a list sorted by start keeps it sorted |
| StableSort.InsertOrder | audacity/__init__.py:33 | an insertion puts the new record before every record with the same start and keeps the order of every other start |
| StableSort.StableSortUnique | audacity/__init__.py:33 | any sequence that is sorted by start and keeps each start's input order equals the stable sort: the specification determines the result |
| StableSort.SortedUnchanged | audacity/__init__.py:33 | sorting a list already sorted by start leaves it unchanged |
| GapFill.VisitBlock | audacity/__init__.py:47-54 | one inner-loop body keeps the walk invariant: every emitted record is zero-filled, emitted at a declared start s with length field s + 1, starts at 0 or at a declared end, and holds one zero per gap position visited; nothing emitted is lost |
| GapFill.VisitFrom | audacity/__init__.py:47-54 | the inner loop over all blocks keeps the walk invariant and only appends |
| GapFill.Step | audacity/__init__.py:44-54 | one outer iteration (write a zero while in a gap, then visit the blocks) moves the walk invariant from t visited positions to t + 1 |
| GapFill.WalkFrom | audacity/__init__.py:44-54 | the outer loop up to total_length establishes the walk invariant for every position visited |
| GapFill.Synthetic | audacity/__init__.py:36-54 | soundness only (that records exist is GapFill.FirstRecord, which ones exactly is GapFill.SyntheticWellFormed): every appended record is zero-filled and was emitted at a declared start s below total_length with length field s + 1; the first starts at 0 and holds s + 1 zeros, each later one starts at a declared end g and holds s − g zeros |
| GapFill.FillGaps | audacity/__init__.py:35-55 | it raises exactly on an empty channel; otherwise the result is sorted, is the declared records plus the synthetic ones, and at each start value lists the declared records (in their order) before the synthetic ones |
| GapFill.FirstBlockAtZero | audacity/__init__.py:40-51 | a channel whose first block starts at 0 still gets a record of one zero at 0 with length field 1 |
| GapFill.FirstRecord | audacity/__init__.py:40-51 | for a channel sorted by start whose first start m lies inside the walk, a record is emitted and the first one is the initial gap: start 0, m + 1 zeros, length field m + 1 |
| GapFill.VisitSkip | audacity/__init__.py:47-54 | the inner loop leaves the walk unchanged over blocks that neither start at the position nor, outside a gap, end there |
| GapFill.StepTracks | audacity/__init__.py:44-54 | on a well-formed channel one outer iteration emits the gap record of the block starting at the position, if any, and otherwise only adds a zero to an open gap or opens the gap after a block ending there |
| GapFill.WalkTracks | audacity/__init__.py:44-54 | on a well-formed channel the walk up to total_length has emitted exactly the gap records of the blocks that start before it, in block order |
| GapFill.SyntheticWellFormed | audacity/__init__.py:36-54 | for blocks of positive length that start at or after 0 and never overlap, the walk emits exactly one record per block: the initial gap [0, s0] for the first, and for each later block the gap from the previous end e to its start s, with s − e zeros (none when they touch) and length field s + 1 |
| Cursor.Open | audacity/__init__.py:62-68 | open succeeds exactly for a channel in [0, nchannels) and then sets the channel with aunr = 0 and offset = 0; otherwise it fails with the out-of-bounds error and changes nothing |
| Cursor.Close | audacity/__init__.py:70-71 | close marks the reader as not open and keeps the channels, channel and offset |
| Cursor.Scan | audacity/__init__.py:77-84 | the scan answers the first record whose running sum of lengths passes pos: every earlier running sum is at most pos; with no answer, every running sum is at most pos |
| Cursor.Seek | audacity/__init__.py:74-88 | seek before open fails as not opened; otherwise it changes only aunr and offset, the lengths before aunr plus offset equal pos, and every running sum up to aunr is at most pos; it fails past the end only when pos is at least the total length |
| Cursor.SeekLands | audacity/__init__.py:77-88 | for pos ≥ 0 and non-negative lengths, seek fails exactly when pos ≥ the sum of all lengths; otherwise it lands on record i at offset o with sum(len[0..i)) + o = pos and 0 ≤ o < len[i] |
| Cursor.Chunk | audacity/__init__.py:95-96 | a record's chunk is a suffix of its source's samples, and when the position falls inside the source it has exactly len − offset samples |
| Cursor.ReadFrom | audacity/__init__.py:93-99 | from record i there is one chunk per remaining record; for consistent sources the first is the record's samples from the offset on and the others are whole records |
| Cursor.Read | audacity/__init__.py:90-99 | read fails exactly when not open; otherwise it yields max(0, n − aunr) chunks (the first from the offset, the rest whole) and leaves aunr = n with offset 0 |
| Cursor.ReadFromStream | audacity/__init__.py:93-99 | the chunks read from record i at an offset inside it concatenate to the channel's samples from record i on, minus the first offset samples |
| Cursor.StreamAt | audacity/__init__.py:87-99 | the stream from record i at offset o is the whole channel's stream from position (lengths before i) + o |
| Cursor.SeekThenRead | audacity/__init__.py:74-99 | after an open cursor seeks to pos ≥ 0 over consistent sources, seek fails exactly at pos ≥ total; otherwise read yields exactly the whole channel's samples with the first pos dropped |
| Cursor.OpenThenRead | audacity/__init__.py:62-99 | right after open, read yields the whole channel's samples |
| Cursor.ReadTwice | audacity/__init__.py:93-99 | read is single-pass: a second read after the generator is exhausted yields nothing |
| Cursor.ClosedRefuses | audacity/__init__.py:70-92 | after close, both seek and read fail as not opened |
| Export.ToShort | audacity/__init__.py:115-121 | a sample becomes a value in [−2^15, 2^15 − 1]: it saturates at the bounds, and in between it is the scaled sample with its fraction dropped toward zero |
| Export.Convert | audacity/__init__.py:121 | a chunk converts sample by sample, keeping its length, with every value in the 16-bit range |
| Export.Pack16 | audacity/__init__.py:125-131 | a value packs into two bytes holding its two's-complement encoding, high byte first for '>' and last for '<', and unpacking gives the value back |
| Export.PackChunk | audacity/__init__.py:125-131 | a chunk packs into two bytes per value, and unpacking the bytes gives the chunk back |
| Export.PackAllConcat | audacity/__init__.py:131 | the frames written for all chunks, concatenated, are the packing of all the values concatenated |
| Export.Budget | audacity/__init__.py:116-135 | each written chunk is a prefix of its converted chunk; exactly min(max(L, 0), available) values are written, and they are the first ones available; the loop breaks only once the budget is used up; the loop breaks exactly when there is a chunk and the samples available reach max(L, 0) |
| Export.WriteChunks | audacity/__init__.py:118-137 | after a successful seek the loop writes frames and leaves the reader closed on the same channel; without a break the cursor is where exhausting read leaves it, after a break the offset survives only when the loop stopped in the first record |
| Export.ExportChannel | audacity/__init__.py:107-137 | an out-of-range channel raises and leaves the reader untouched; otherwise the reader ends closed on that channel, and the only other failure is seeking past the end |
| Export.WriteChunksWindow | audacity/__init__.py:116-135 | the values written after a seek, read back from the frames, are the converted samples read, cut to the budget |
| Export.ExportWindow | audacity/__init__.py:116-135 | for consistent sources towav raises exactly when the start is at or past the end; otherwise the frames, read back, are the converted samples from the start on, min(max(budget, 0), remaining) of them (all without a stop) |
| Scenarios.PathExample | audacity/__init__.py:26-28 | the block "abcdefgh.au" of project "proj" is found at ./proj/abc/dde/abcdefgh.au |
| Scenarios.ShortNamePath | audacity/__init__.py:26-27 | a two-character name gets the whole name and a bare "d" as buckets |
| Scenarios.ConversionExamples | audacity/__init__.py:115-121 | concrete samples: 0.5 gives 16384, full scale saturates at 32767 and −32768, and small negatives truncate toward zero |
| Scenarios.GapWalkExample | audacity/__init__.py:40-54 | blocks at [0, 2) and [4, 5) produce a one-zero record at 0 with length field 1 and a two-zero record at 2 with length field 5 |
| Scenarios.TouchingBlocksExample | audacity/__init__.py:44-54 | blocks at [0, 2) and [2, 3) produce a record at 2 that holds no samples |
| Scenarios.FillGapsExample | audacity/__init__.py:35-55 | the gap-filled channel for blocks at [0, 2) and [4, 5) is the exact sorted list of declared and synthetic records |

## Left out

- XML parsing and namespace lookup are not modelled. The input is the parsed document: rate, project name, and per channel the clips with their start sample and block references.
- Float conversions of the rate, clip offsets and the start/stop times are not modelled. `int(float(rate))`, `offset * rate`, `rate * start` and `rate * (stop - start)` are given as integers.
- `os.path.join` and `os.path.dirname` are not modelled. A path is the sequence of its components.
- File handles are not modelled. This covers opening at load time, closing by `with` after each record is read, and the error a second read of the same channel would raise on closed handles. File contents are the `Disk` map.
- The float32 byte format of block files (four bytes per sample, native order) is not modelled. Chunks are sequences of samples.
- Export.ToShort: idealised over exact reals. It does not model float32 rounding of `x * 2^15`.
- Cursor.Chunk: a seek position before the start of a source reads the whole source, as an in-memory buffer does. A real block file raises an error there instead. The position falls before the start when the source holds fewer than `len - offset` samples: a source shorter than its declared length, or a negative offset. Synthetic gap records are exactly this case for later gaps: they hold s − g zeros under a length field of s + 1, and being in-memory buffers they clamp to their start. The properties about reading assume sources whose sizes match their declared lengths.
- Cursor.Read: the model consumes the `read()` generator right after the call. In the source the not-opened check runs at the first `next()`, not at the call. The cursor also advances one record per resumption, so a `seek()` or `close()` between resumptions changes what follows; after `close()` the next `aunr += 1` restarts reading at record 0. Only `towav`'s `break` out of a partly consumed generator is modelled, by `Export.Advance`.
- The `wave` and `aifc` writers, their header settings (`setnchannels`, `setsampwidth`, `setframerate`) and the final `writeframes(b'')`/`close()` are not modelled. These are foreign library calls. The model returns the frames that would be handed to `writeframesraw`.
- Export.ExportChannel: the budget is `None` both for an absent stop and for a stop of 0, because `if stop:` treats them alike. The caller turns the stop into a sample count.
- Error message texts are not modelled, only the error kinds and the data they carry.
- Before the first `open`, the source has no `channel` attribute. The model starts it at 0 with the cursor closed, which no operation can observe.
- `__enter__`/`__exit__` appear only as their effect: `towav` closes the cursor also when the seek raises.
