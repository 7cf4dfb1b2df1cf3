# kara-storage, modelled in Dafny

kara-storage keeps datasets as append-only sequences of records on a storage
backend (local disk, HTTP, object storage). This project models the live
Python path of the row store, the manifest rules of the local storage, the
PyTorch adapters that window, shard and shuffle a dataset, and a few small
native pieces. The model is layered the same way as the code:

- **Backend** (`backend.dfy`): a map from object path to bytes, with
  `filesize`, opening for append and `append`. A path is
  `TrunkPath(prefix, id)`, which stands for the string `<prefix><id>.blk`.
- **Trunked byte stream** (`trunk.dfy`, `streams.dfy`):
  - `TrunkController` splits one logical stream over the trunks
    `0.blk, 1.blk, …`.
  - Its offset arithmetic is proved: global offset = sum of earlier trunk
    sizes + in-trunk offset.
  - It covers probing on open, `write` with roll-over on exact fill,
    `seek` with clamping and trunk-boundary normalisation, and `readinto`
    with bounded retries.
  - `pread` is covered across trunks.
- **Record store** (`record_format.dfy`, `dataset.dfy`):
  - `RawDataset` keeps an index stream of 8-byte cumulative end offsets
    (`struct "Q"`, here little-endian) and a data stream of record bytes.
  - Its read, write, seek and pread are proved against the record
    sequence `rs` a writer lays out (`Holds(rs)`). For example, `read`
    returns `rs[tell]`.
  - `pread(k)` is modelled in its corrected form, which returns `rs[k]`.
    The code as written differs for an empty last record and for an
    empty trunk inside the span (see Findings and Left out).
- **Windowed views** (`row.dfy`, `torch_slice.dfy`, `torch_shard.dfy`):
  - `RowDataset`'s begin/end/tell window, clamped seek and `slice`/`slice_`;
  - the client-registry counters of the relay;
  - `SliceDatasetWrapper`;
  - the rank-shard formula of `make_torch_dataset`.
- **Pool shuffle** (`shuffle.dfy`): `ShuffleIterator` over a view. The
  generator is a stream of draws `gen(epoch + seed)`. The multiset
  invariant and determinism are proved.
- **Manifests** (`manifest.dfy`): resolving `"latest"`, recording a
  version without duplicates, and picking the smallest free decimal
  version.
- **Native pieces**:
  - `native_utils.dfy`: the 64-bit address halves of `utils.h`;
  - `native_storage.dfy`: the trunk metadata and trunk placement of the
    C++ `LocalStorage`.
- **Display** (`char_width.dfy`): `char_width` and its width table.

Every exception the code raises is a constructor of `Common.Error`, returned
as `Err(…)`. `PythonClassOf` names the Python class behind each one. Integers
are unbounded except where the native code uses `uint32_t`/`uint64_t`. There
they are `uint32` (a newtype with explicit wrap-around) or `bv32`/`bv64`.

## Model

| member | source | states |
|---|---|---|
| Common.Clamp | kara_storage/row/trunk.py:129-137 | the result never leaves [lo, hi]: x itself inside, lo below, hi above |
| Backend.Storage.constructor | kara_storage/backend/file.py:28-30 | the storage holds exactly the given objects |
| Backend.Storage.FileSize | kara_storage/backend/file.py:45-48 | None exactly for a missing object, otherwise the object's length |
| Backend.Storage.OpenAppend | kara_storage/backend/file.py:37-39 | opening for append creates a missing object empty and changes nothing else |
| Backend.Storage.Append | kara_storage/backend/file.py:12-16 | the object grows by exactly the appended bytes; no other object changes |
| Streams.ConcatSlice | kara_storage/row/trunk.py:212-220 | bytes a..b of trunk k are the stream bytes at global offsets (sum of earlier trunk sizes) + a .. + b |
| Streams.ConcatGrowLast | kara_storage/row/trunk.py:110-114 | appending to the last trunk appends the same bytes to the logical stream |
| Streams.ConcatEmptyLast | kara_storage/row/trunk.py:116-120 | the empty trunk a roll-over creates adds nothing to the logical stream |
| Trunk.NormalizePrefix | kara_storage/row/trunk.py:10-11 | the prefix ends in '/'; it is unchanged if and only if it already did, and gets "/" appended otherwise |
| Trunk.Resolve | kara_storage/row/trunk.py:129-133 | the unclamped target of `seek`: offset from tell for SEEK_CUR, counted back from size for SEEK_END, the offset itself for SEEK_SET (the default) and any other whence |
| Trunk.ProbeFindsAll | kara_storage/row/trunk.py:30-41 | when trunks are numbered without gaps, probing up to the first missing trunk finds all of them |
| Trunk.Locate | kara_storage/row/trunk.py:139-152 | the located (trunk, offset) lies inside its trunk, and earlier sizes + offset = the position; it stops at a trunk end only on the last trunk or an empty one |
| Trunk.Advance | kara_storage/row/trunk.py:80-90 | after n more bytes the global position has moved by n; a completed trunk with a successor leaves the position at offset 0 of that successor |
| Trunk.LocateLoop | kara_storage/row/trunk.py:139-152 | the skip loop and the end-of-trunk step compute the located position |
| Trunk.FindTrunk | kara_storage/row/trunk.py:197-203 | None exactly when the offset is at or past the stream end (where the code raises IndexError); otherwise a trunk and an in-trunk offset strictly inside it whose global position is the offset |
| Trunk.ReadSpan | kara_storage/row/trunk.py:205-226 | the span loop (the empty-trunk case corrected) returns the stream bytes from the start offset up to `length` bytes or the stream end |
| Trunk.SpanAsWritten | kara_storage/row/trunk.py:212-224 | the span loop as written never counts more than the requested bytes, and fails with ZeroDivisionError when `%` meets an empty trunk |
| Trunk.SpanAsWrittenNonEmpty | kara_storage/row/trunk.py:212-224 | with no empty trunk ahead, the loop as written reads min(rest, bytes left in the stream), as the corrected one does |
| Trunk.EmptyTrunkDividesByZero | kara_storage/row/trunk.py:217 | trunks of 16 and 0 bytes: `pread(8, 16)` has 8 bytes to return but raises ZeroDivisionError |
| Trunk.ReadTrunk | kara_storage/row/trunk.py:216-220 | a range read of trunk k from `off` for `lw` bytes yields the stream bytes at the matching global offsets |
| Trunk.PreadTrunks | kara_storage/row/trunk.py:197-226 | IndexError exactly for an offset at or past the end; ValueError for a negative length; otherwise the stream bytes [offset, min(offset + length, size)) |
| Trunk.TrunkController.constructor | kara_storage/row/trunk.py:5-56 | sets up the fields: not closed, tell 0, writable exactly when not readable |
| Trunk.TrunkController.Probe | kara_storage/row/trunk.py:30-41 | the sizes are those of trunks 0 .. n-1, and trunk n is the first missing one |
| Trunk.TrunkController.OpenReader | kara_storage/row/trunk.py:43-48 | RuntimeError "Empty dataset" exactly when trunk 0 is missing; otherwise a valid reader at tell 0, trunk 0, offset 0, whose trunk count is the probe count; any max_file_size is accepted |
| Trunk.TrunkController.OpenWriter | kara_storage/row/trunk.py:49-56 | a missing trunk 0 is created empty and counted; the writer is valid, has tell 0 and appends to the last trunk |
| Trunk.TrunkController.Open | kara_storage/row/trunk.py:5-56 | ValueError for a mode other than "r"/"w"; read mode fails exactly on a missing trunk 0 and changes no object; write mode always opens and creates only trunk 0 if it is missing |
| Trunk.TrunkController.ReadInto | kara_storage/row/trunk.py:67-102 | refuses readers that are closed or writers; fails (not aligned) exactly when the trunk is unfinished and the first try plus `max_retry` retries all return 0 bytes; otherwise returns the stream bytes from tell, 0 bytes only at a trunk end; None (non-blocking) changes nothing |
| Trunk.TrunkController.Consume | kara_storage/row/trunk.py:80-90 | `lw` bytes of the current trunk are delivered, tell and the in-trunk offset advance, and a completed trunk with a successor moves to its start |
| Trunk.TrunkController.Write | kara_storage/row/trunk.py:104-121 | stores and returns min(len(b), max_file_size − infile_offset) bytes; the stream and `size` grow by them; afterwards infile_offset < max_file_size; an exact fill adds a trunk at offset 0; objects under other prefixes are untouched |
| Trunk.TrunkController.AppendLastTrunk | kara_storage/row/trunk.py:110-114 | the chunk is appended to the stream; `size` and the in-trunk offset grow by its length |
| Trunk.TrunkController.RollOver | kara_storage/row/trunk.py:116-120 | a full trunk is followed by a new empty trunk: num_trunks + 1, offset 0, stream unchanged |
| Trunk.TrunkController.Seek | kara_storage/row/trunk.py:123-161 | whence defaults to SEEK_SET; the target (SET: offset, CUR: tell + offset, END: size − offset, any other whence as SET) is clamped to [0, size], returned and stored, and (curr_file, infile_offset) becomes the located position |
| Trunk.TrunkController.Pread | kara_storage/row/trunk.py:191-226 | refused when closed or not readable; IndexError at or past the end; otherwise the corrected span: up to `length` stream bytes from `offset`; the read position is not used |
| Trunk.TrunkController.Flush | kara_storage/row/trunk.py:163-168 | fails exactly for a closed writer |
| Trunk.TrunkController.Close | kara_storage/row/trunk.py:173-181 | afterwards closed; no counter changes, and a second close changes nothing |
| RecordFormat.DecodeEncode | kara_storage/row/dataset.py:65 | decoding the n-byte little-endian encoding of x < 256^n gives x |
| RecordFormat.EncodeDecode | kara_storage/row/dataset.py:80 | every byte string is the encoding of its decoded value |
| RecordFormat.Pack | kara_storage/row/dataset.py:65 | `struct.pack("Q", x)` succeeds exactly for 0 <= x < 2^64 and then gives 8 bytes; struct.error otherwise |
| RecordFormat.Unpack | kara_storage/row/dataset.py:80 | `struct.unpack("Q", v)` succeeds exactly for 8 bytes |
| RecordFormat.PackUnpack | kara_storage/row/dataset.py:65 | unpacking a packed entry gives the value back |
| RecordFormat.UnpackPack | kara_storage/row/dataset.py:80 | every 8-byte entry unpacks to a value below 2^64 that packs back to the same bytes |
| RecordFormat.RecordCount | kara_storage/row/dataset.py:30 | `index_size // 8`: the number of whole 8-byte entries, a trailing partial entry dropped |
| RecordFormat.IndexOf | kara_storage/row/dataset.py:30 | the index of n records is 8n bytes, and `index_size // 8` = n |
| RecordFormat.AppendRecord | kara_storage/row/dataset.py:62-65 | writing one more record appends its bytes to the data and its cumulative end offset to the index |
| RecordFormat.EntryOf | kara_storage/row/dataset.py:63-65 | index entry i of a written store is the total size of records 0..i |
| RecordFormat.RecordSpan | kara_storage/row/dataset.py:80-82 | record i occupies data [entry i−1 or 0, entry i) |
| RecordFormat.RecordRead | kara_storage/row/dataset.py:75-84 | the sequential read of record i succeeds exactly when its start <= end <= data size, and then yields data[start..end]; otherwise it is a broken-dataset or read-length error |
| RecordFormat.RecordBytes | kara_storage/row/dataset.py:81-84 | the data read from `last` for `cur − last` bytes succeeds exactly when last <= cur <= data size; a length below −1 is a ValueError |
| RecordFormat.ReadRoundTrip | kara_storage/row/dataset.py:68-87 | sequential reads give back every record written |
| RecordFormat.Bracket | kara_storage/row/dataset.py:130-141 | the index reads of `pread(k)` fail only on an empty store; otherwise they give record max(k, 0)'s start and end |
| RecordFormat.DataPread | kara_storage/row/dataset.py:143-145 | the data `pread` succeeds exactly when the start is inside the data and start <= end <= data size; IndexError for a start at or past the end |
| RecordFormat.PreadAsWritten | kara_storage/row/dataset.py:122-146 | `pread(k)` as written: a success has the length end − start of record max(k, 0) |
| RecordFormat.EmptyLastRecordOutOfRange | kara_storage/row/dataset.py:143 | a store holding one empty record: `read` returns it, while `pread(0)` as written raises IndexError |
| RecordFormat.PreadRecord | kara_storage/row/dataset.py:122-146 | corrected `pread(k)`: succeeds exactly for an empty record or one inside the data, and then returns data[start..end] |
| RecordFormat.PreadRoundTrip | kara_storage/row/dataset.py:122-146 | random access gives back record max(k, 0) of a written store, an empty last record included |
| RecordFormat.StartInData | kara_storage/row/dataset.py:110-117 | in a written store, the data offset `seek` restores for any position up to `size` lies within the data |
| RecordFormat.WrittenConsistent | kara_storage/row/dataset.py:63-65 | the last index entry of a written store is the data size |
| Dataset.ReadStep | kara_storage/row/dataset.py:19-20 | one raw read returns the stream bytes from tell, with tell past them; it returns nothing only at the stream end |
| Dataset.ReadFully | kara_storage/row/dataset.py:82 | `BufferedReader.read(n)` returns the stream bytes from tell: min(n, bytes left) of them |
| Dataset.WriteStep | kara_storage/row/dataset.py:22-23 | one raw write stores a prefix of b; it stores nothing only when the trunk was full |
| Dataset.WriteFully | kara_storage/row/dataset.py:62 | `BufferedWriter.write(b)` appends all of b to the stream |
| Dataset.WriteTo | kara_storage/row/dataset.py:62-65 | writing one stream appends to it and leaves the other stream of the dataset valid |
| Dataset.WriteRecord | kara_storage/row/dataset.py:62-65 | the record goes to the data stream; its packed end offset goes to the index, or struct.error for an offset of 2^64 or more |
| Dataset.ReadEntry | kara_storage/row/dataset.py:75-80 | reading one entry at entry t yields index entry t and moves to entry t+1 |
| Dataset.ReadBytes | kara_storage/row/dataset.py:81-84 | the record bytes are what RecordBytes says, and the data cursor ends at `cur` |
| Dataset.ReadRecord | kara_storage/row/dataset.py:75-86 | with both streams at record t, yields record t's bytes and end offset and leaves both streams at record t+1 |
| Dataset.SeekIndex | kara_storage/row/dataset.py:110-115 | the index stream is at entry pos, and the restored offset is the end of record pos−1 (0 for pos 0) |
| Dataset.SeekRecord | kara_storage/row/dataset.py:110-117 | both streams stand where record pos starts |
| Dataset.PreadIndex | kara_storage/row/dataset.py:130-141 | the index half of `pread(k)` is Bracket |
| Dataset.PreadAt | kara_storage/row/dataset.py:130-146 | `pread(k)` past its checks is the corrected PreadRecord: the index bracket, then the record bytes |
| Dataset.IndexPrefix | kara_storage/row/dataset.py:8-15 | the index prefix is already normalised |
| Dataset.DataPrefix | kara_storage/row/dataset.py:8-16 | the data prefix is normalised and differs from the index prefix |
| Dataset.OpenReaders | kara_storage/row/dataset.py:15-20 | "Empty dataset" exactly when either stream has no trunk 0; otherwise two readers at 0 |
| Dataset.OpenWriters | kara_storage/row/dataset.py:15-23 | two writers; a new stream starts empty |
| Dataset.RawDataset.constructor | kara_storage/row/dataset.py:7-30 | not closed, tell 0, last_read_pos 0, the given size and data size |
| Dataset.RawDataset.Write | kara_storage/row/dataset.py:56-65 | refused when closed or not writable; otherwise data += d, real_data_size += len(d), size += 1, and the index gains the packed end offset; a writer holding rs then holds rs + [d] |
| Dataset.RawDataset.WriteNext | kara_storage/row/dataset.py:62-65 | the write past its checks, with the same outcome |
| Dataset.RawDataset.Read | kara_storage/row/dataset.py:68-87 | refused when closed or not readable; None exactly at tell == size; otherwise record tell (rs[tell] of a written store) and tell + 1; corruption is an error, never None |
| Dataset.RawDataset.ReadNext | kara_storage/row/dataset.py:75-87 | a successful read returns a record and advances tell |
| Dataset.RawDataset.Seek | kara_storage/row/dataset.py:91-120 | whence has no default here, as in the code; ValueError for an unknown whence; otherwise the target (END counts back: size − offset) clamped to [0, size] is returned and becomes tell; struct.error only when an index entry cannot unpack; on a written store both streams stand at that record |
| Dataset.RawDataset.SeekNext | kara_storage/row/dataset.py:110-120 | `seek` once the target is known: returns it and stores it in tell |
| Dataset.RawDataset.Pread | kara_storage/row/dataset.py:122-146 | refused when closed or not readable; IndexError for k >= size; otherwise, corrected, record max(k, 0) (rs[max(k, 0)] of a written store); no cursor moves |
| Dataset.RawDataset.Flush | kara_storage/row/dataset.py:49-54 | fails exactly for a closed writer |
| Dataset.RawDataset.Close | kara_storage/row/dataset.py:39-47 | closes; a second close changes nothing |
| Dataset.RawDataset.Size | kara_storage/row/dataset.py:148-149 | the record count of the index stream |
| Dataset.RawDataset.Tell | kara_storage/row/dataset.py:151-152 | a reader's tell never exceeds the record count |
| Dataset.RawDataset.Open | kara_storage/row/dataset.py:7-30 | ValueError for an unknown mode; a reader fails exactly when a stream is missing; a reader of a written store starts in sync; a new writer holds no records |
| Row.Window | kara_storage/row/row.py:54-66 | begin and end are each start and start + length, cut down only from above to the store size |
| Row.SliceLength | kara_storage/row/row.py:278-279 | the default length is the rest of the view after `start` |
| Row.SliceInside | kara_storage/row/row.py:278-288 | a slice inside its view is that view shifted by `start` |
| Row.SliceKeepsEnd | kara_storage/row/row.py:278-288 | a slice without a length ends where its view ends |
| Row.SliceEscapesView | kara_storage/row/row.py:61-65 | slices are clamped against the store, not the parent view: records [0, 3) of 10 sliced at 1 for 5 give [1, 6) |
| Row.SliceOfSlice | kara_storage/row/row.py:272-288 | `slice(5)` spans records 5 .. size, and a further `.slice(6, 2)` holds exactly records 11 and 12 |
| Row.RowDataset.constructor | kara_storage/row/row.py:16-70 | sets up the fields with an empty client registry |
| Row.RowDataset.Open | kara_storage/row/row.py:16-70 | ValueError for an unknown mode; a reader of a missing store is "Empty dataset", and a reader of an existing store opens unless the store's seek raises struct.error; a reader opens its window with tell 0, and a writer's length is the store's record count |
| Row.RowDataset.WriterView | kara_storage/row/row.py:69-70 | a writer view's length is the store size |
| Row.RowDataset.OpenView | kara_storage/row/row.py:54-68 | the reader's window, tell 0, and the store moved to begin; the only failure is the store seek's struct.error |
| Row.RowDataset.ReadRaw | kara_storage/row/row.py:72-82 | refused when not readable or closed; None exactly at tell == length; otherwise tell + 1 and the store's next record (rs[begin + tell]) |
| Row.RowDataset.ReadNext | kara_storage/row/row.py:78-82 | past its checks: tell + 1 and the store's next record |
| Row.RowDataset.Read | kara_storage/row/row.py:121-125 | EOFError where `_read_raw` returns None, otherwise its record |
| Row.RowDataset.PreadRaw | kara_storage/row/row.py:84-93 | None for k >= length; otherwise the store's corrected `pread` of record begin + k; no cursor moves |
| Row.RowDataset.Pread | kara_storage/row/row.py:148-152 | EOFError for k >= length, otherwise the corrected `pread` of record begin + k |
| Row.RowDataset.GetItem | kara_storage/row/row.py:264-270 | TypeError for a non-int key, IndexError for k >= length, otherwise the corrected `pread(k)` |
| Row.RowDataset.Write | kara_storage/row/row.py:95-102 | refused when not writable or closed; otherwise the store's `write`, so a store holding rs then holds rs + [d] |
| Row.RowDataset.Seek | kara_storage/row/row.py:127-146 | whence defaults to SEEK_SET; SET/CUR/END against begin, tell and end, clamped to [begin, end]; tell = target − begin; returns the store's clamped position; UnboundLocalError for another whence |
| Row.RowDataset.Slice | kara_storage/row/row.py:272-288 | a new reader over the same store with the window for begin + start and the default length (`start` defaults to 0); an open reader's slice opens unless the store is empty or its seek raises struct.error |
| Row.RowDataset.SliceInPlace | kara_storage/row/row.py:290-311 | `start` defaults to 0; begin = min(begin + start, size), end = min(begin + length, size), length = end − begin, tell = 0, with the store moved to begin |
| Row.RowDataset.Rebase | kara_storage/row/row.py:300-311 | the re-basing of `slice_` once its checks pass |
| Row.RowDataset.Size | kara_storage/row/row.py:154-156 | a reader's size is end − begin, within the store |
| Row.RowDataset.Tell | kara_storage/row/row.py:158-162 | RuntimeError when not readable; otherwise tell, which lies in [0, size] and is the store's position minus begin |
| Row.RowDataset.Close | kara_storage/row/row.py:109-111 | the store is closed and its contents are unchanged |
| Row.RowDataset.Flush | kara_storage/row/row.py:113-115 | fails exactly for a closed writer |
| Row.RowDataset.Reduce | kara_storage/row/row.py:238-251 | client count + 1, serial + 1, one new pipe pair under the new serial, and the relay running |
| Row.RowDataset.Exit | kara_storage/row/row.py:220-228 | client count − 1, and exactly that serial's pipe pair is removed; KeyError for an unknown serial |
| Row.RowDataset.RelayCheck | kara_storage/row/row.py:166-173 | at count 0 the relay stops and resets the serial to 0; the assertion on leftover pipes cannot fail while the registry is consistent |
| Row.SeekStore | kara_storage/row/row.py:68 | the store's `seek(pos)` lands on pos clamped to the store, with both streams in sync; it fails only with struct.error |
| TorchSlice.ExactlyRemaining | kara_storage/pytorch/slice.py:29-33 | from cursor p, exactly the first end − p reads yield a record and every later one yields None |
| TorchSlice.SliceDataset.constructor | kara_storage/pytorch/slice.py:4-12 | end = min(start + length, len(ds)), and length = end − start |
| TorchSlice.SliceDataset.Wrap | kara_storage/pytorch/slice.py:4-14 | the constructor, then `seek(0, 0)`: the cursor at start and the view positioned there |
| TorchSlice.SliceDataset.Seek | kara_storage/pytorch/slice.py:16-27 | whence has no default, as in the code; cur = clamp(start + offset, cur + offset or end − offset, start, end), so start <= cur <= end; the view is moved to cur |
| TorchSlice.SliceDataset.Read | kara_storage/pytorch/slice.py:29-33 | None exactly when cur >= end; otherwise cur + 1 and the view's next record |
| TorchSlice.SliceDataset.ReadNext | kara_storage/pytorch/slice.py:32-33 | the read short of end: cur + 1 and a record |
| TorchSlice.SliceDataset.Len | kara_storage/pytorch/slice.py:35-36 | the (possibly cut) length end − start, within the view |
| TorchSlice.SeekView | kara_storage/pytorch/slice.py:27 | the view's `seek(pos, 0)` puts its tell at pos |
| TorchSlice.ReadView | kara_storage/pytorch/slice.py:33 | the view's `read()` advances it and yields its next record |
| TorchShard.ShardOf | kara_storage/pytorch/__init__.py:10-21 | a rank gets a shard exactly when the group is initialised and `distributed` is set; the shard is (L*r//n, L//n) and lies inside [0, L] |
| TorchShard.ShardEndsBeforeNext | kara_storage/pytorch/__init__.py:16 | L*r//n + L//n <= L*(r+1)//n |
| TorchShard.ShardInside | kara_storage/pytorch/__init__.py:16 | L*r//n + L//n <= L for r < n |
| TorchShard.ShardsDisjoint | kara_storage/pytorch/__init__.py:16 | the shards of distinct ranks do not overlap |
| TorchShard.AssignedTotal | kara_storage/pytorch/__init__.py:16 | the ranks together get n*(L//n) records; the L mod n < n left over go to nobody |
| TorchShard.ShardNotClamped | kara_storage/pytorch/__init__.py:16 | a shard is never cut by the wrapper's clamp |
| Shuffle.Pick | kara_storage/pytorch/shuffle.py:25 | the picked slot lies in [0, len(pool)) |
| Shuffle.ScaledBelow | kara_storage/pytorch/shuffle.py:25 | a draw below its range, scaled by n, floors to below n |
| Shuffle.Preload | kara_storage/pytorch/shuffle.py:14-19 | the pool is the first min(buffer_size, available) records in order, and the rest is what follows |
| Shuffle.Refilled | kara_storage/pytorch/shuffle.py:28-34 | the pool keeps its size after a read and shrinks by one at the end |
| Shuffle.Step | kara_storage/pytorch/shuffle.py:21-35 | StopIteration iff the pool is empty, and then nothing changes; the picked slot's record goes out; the slot takes the next upstream record, or the last slot's record while the pool shrinks by one |
| Shuffle.StepKeepsAll | kara_storage/pytorch/shuffle.py:26-34 | one step hands out one record and loses nothing else, as a multiset |
| Shuffle.RefilledSwaps | kara_storage/pytorch/shuffle.py:28-34 | the slot update trades the handed-out record for the one read, or just drops it |
| Shuffle.Run | kara_storage/pytorch/shuffle.py:21-35 | after n calls at most n records went out, the pool never grew, and out + pool + unread upstream keep their total count |
| Shuffle.RunKeepsAll | kara_storage/pytorch/shuffle.py:21-35 | emitted + pool + unread upstream = the original records, as multisets |
| Shuffle.RunCounts | kara_storage/pytorch/shuffle.py:21-35 | each of the first |held| calls hands out exactly one record |
| Shuffle.FullIteration | kara_storage/pytorch/shuffle.py:14-35 | a full iteration emits every record exactly once and empties the pool |
| Shuffle.EmptyBufferEmitsNothing | kara_storage/pytorch/shuffle.py:15-23 | with buffer_size <= 0 every call stops |
| Shuffle.RunStaysPrimed | kara_storage/pytorch/shuffle.py:28-34 | the pool has free slots only when nothing is left upstream, after any number of calls |
| Shuffle.RunOneMore | kara_storage/pytorch/shuffle.py:21-35 | one more call on a non-empty pool extends the output by the record it hands out |
| Shuffle.DrawsUpTo | kara_storage/pytorch/shuffle.py:9 | the first n draws of the seeded generator, in order |
| Shuffle.ShuffleIterator.constructor | kara_storage/pytorch/shuffle.py:8-19 | the fields set up: no draw used, nothing emitted |
| Shuffle.ShuffleIterator.Start | kara_storage/pytorch/shuffle.py:8-19 | the generator is gen(epoch + seed), the view is rewound, and the pool is Preload of the view's window |
| Shuffle.ShuffleIterator.Next | kara_storage/pytorch/shuffle.py:21-35 | StopIteration exactly on an empty pool; otherwise the picked slot's record, with the pool never growing; once exhausted, everything emitted is the window as a multiset |
| Shuffle.ShuffleIterator.Draw | kara_storage/pytorch/shuffle.py:25-35 | `next()` on a non-empty pool hands out the picked slot's record |
| Shuffle.ShuffleIterator.Skip | kara_storage/pytorch/shuffle.py:25-29 | a read error leaves the pool, and the draw is used |
| Shuffle.ShuffleIterator.Commit | kara_storage/pytorch/shuffle.py:31-35 | the refilled pool is stored and the record goes out |
| Shuffle.Track | kara_storage/pytorch/shuffle.py:21-35 | a faithful view and a replay make a tracked iterator |
| Shuffle.Begin | kara_storage/pytorch/shuffle.py:14-19 | a freshly loaded pool replays zero calls |
| Shuffle.Advance | kara_storage/pytorch/shuffle.py:25-35 | one call extends the replay by the picked record and the refilled pool |
| Shuffle.SameDrawsSameOutput | kara_storage/pytorch/shuffle.py:9 | the same seed + epoch over the same records gives the same output and pool |
| Shuffle.Drained | kara_storage/pytorch/shuffle.py:14-35 | an exhausted iterator has emitted each record of its window exactly once |
| Shuffle.Rewind | kara_storage/pytorch/shuffle.py:12 | `seek(0)` puts the view at its first record |
| Shuffle.ReadUpstream | kara_storage/pytorch/shuffle.py:29 | the view's `read()` yields the window's next record, or EOFError at its end |
| Shuffle.ReadInto | kara_storage/pytorch/shuffle.py:17 | `pool.append(ds.read())` grows the pool by one, or leaves it at EOFError |
| Shuffle.Fill | kara_storage/pytorch/shuffle.py:15-19 | at most buffer_size reads, stopping early only at the window's end |
| Shuffle.Load | kara_storage/pytorch/shuffle.py:12-19 | after the rewind and the loop, the pool and the unread rest are Preload of the window |
| Shuffle.PreloadLoaded | kara_storage/pytorch/shuffle.py:15-19 | the pool the loop fills is Preload's |
| Manifest.Resolve | kara_storage/storage/local.py:24-27 | "latest" resolves exactly when the manifest has a latest version, and ValueError otherwise; any other name stands for itself |
| Manifest.LatestIsListed | kara_storage/storage/local.py:24-27 | in a consistent manifest "latest" resolves to a listed version |
| Manifest.Record | kara_storage/storage/local.py:30-34 | the version becomes latest and is appended only if absent |
| Manifest.RecordKeepsConsistent | kara_storage/storage/local.py:30-34 | recording keeps the versions duplicate-free and drops nothing |
| Manifest.RecordIdempotent | kara_storage/storage/local.py:30-34 | recording the same version twice is recording it once |
| Manifest.LastWrittenIsDefault | kara_storage/storage/local.py:24-37 | after a write of v, "latest" resolves to v and v is listed |
| Manifest.Decimal | kara_storage/storage/local.py:75-77 | `"%d" % n`: decimal digits without a leading zero |
| Manifest.DecimalRoundTrip | kara_storage/storage/local.py:75-77 | reading the digits back gives n, so distinct counters give distinct names |
| Manifest.NamesFit | kara_storage/storage/local.py:74-76 | if the names of all numbers in a set are listed, there are at least as many entries |
| Manifest.AutoVersion | kara_storage/storage/local.py:72-77 | the smallest number whose decimal name is not listed, and at most the number of entries |
| Manifest.LocalStorage.constructor | kara_storage/storage/local.py:7-10 | the storage over the manifests already stored |
| Manifest.LocalStorage.Open | kara_storage/storage/local.py:12-39 | ValueError for a missing dataset without "w"; "w" creates a fresh manifest and records the resolved version; "r" needs that version listed; manifests stay consistent |
| Manifest.LocalStorage.LoadDirectory | kara_storage/storage/local.py:41-60 | ValueError for a missing store, an unresolvable "latest" or an unlisted version; otherwise the resolved version; nothing changes |
| Manifest.LocalStorage.SaveDirectory | kara_storage/storage/local.py:62-96 | with no version, the smallest unused decimal; "latest" resolved; the result becomes latest and is listed; manifests stay consistent |
| NativeUtils.Low32 | csrc/includes/utils.h:4-6 | the low half is x mod 2^32 |
| NativeUtils.High32 | csrc/includes/utils.h:7-9 | the high half is x div 2^32 |
| NativeUtils.Halves | csrc/includes/utils.h:4-9 | x = high32(x)·2^32 + low32(x) |
| NativeUtils.Unpack | csrc/includes/utils.h:4-9 | high32 and low32 of (h << 32) \| l give back h and l |
| NativeUtils.Repack | csrc/includes/utils.h:4-9 | every 64-bit value is the packing of its halves |
| NativeUtils.Pack | csrc/trunk_controller.cpp:108 | a packed address is h·2^32 + l |
| NativeStorage.Inc | csrc/storage/local.cpp:68 | `x + 1` in uint32_t: +1 below 2^32 − 1, and 0 at 2^32 − 1 |
| NativeStorage.AcceptsLastOrNext | csrc/storage/local.cpp:68-71 | with at least one trunk, `write` accepts exactly num_trunks and num_trunks − 1 |
| NativeStorage.WrapCollides | csrc/storage/local.cpp:73 | with 2^31-byte trunks, 4 per file, the wrapped placement puts trunks 0 and 2 on the same bytes |
| NativeStorage.PlacementAsWritten | csrc/storage/local.cpp:43-44 | the wrapped placement of the code: an offset below 2^32, the intended file, and the intended placement whenever the product fits in 32 bits |
| NativeStorage.Placement | csrc/storage/local.cpp:43-44 | a trunk's range ends within its file of trunks_per_file · max_trunk_size bytes |
| NativeStorage.PlacementDisjoint | csrc/storage/local.cpp:72-73 | distinct trunks occupy non-overlapping byte ranges |
| NativeStorage.PlacementIdentifies | csrc/storage/local.cpp:106-107 | file · trunks_per_file + offset / max_trunk_size is the trunk id |
| NativeStorage.LocalStorage.constructor | csrc/storage/local.cpp:22-33 | a fresh store starts at (1, 0, max_trunk_size, trunks_per_file); an existing one keeps its metadata |
| NativeStorage.LocalStorage.Read | csrc/storage/local.cpp:41-54 | a trunk id error exactly for trunk_id >= num_trunks; otherwise the trunk's placement, computed without wrap-around |
| NativeStorage.LocalStorage.Pread | csrc/storage/local.cpp:103-117 | a trunk id error for trunk_id >= num_trunks and an invalid-offset error for offset >= max_trunk_size; otherwise placement + offset, inside the trunk |
| NativeStorage.LocalStorage.Write | csrc/storage/local.cpp:67-101 | only trunk num_trunks or the last one is accepted; a new trunk increments num_trunks; either sets last_trunk_size; sizes never change; a refused id changes nothing; the placement is computed without wrap-around |
| Display.TableShape | kara_storage/cmd/funcs/row.py:6-15 | the bounds increase strictly, every width is 0, 1 or 2, and the table starts at 126 and ends at 1114109 |
| Display.FirstAtLeast | kara_storage/cmd/funcs/row.py:21-23 | the scan stops at the first entry whose bound is >= o, or the table end |
| Display.WidthIn | kara_storage/cmd/funcs/row.py:17-24 | 0 for 0x0e and 0x0f, 1 past the table, and always 0, 1 or 2 |
| Display.CharWidth | kara_storage/cmd/funcs/row.py:17-24 | 0 for 0x0e and 0x0f, 1 above 1114109, and always 0, 1 or 2 |
| Display.WidthInInterval | kara_storage/cmd/funcs/row.py:21-23 | a code point between the previous bound and entry i's bound gets entry i's width |
| Display.CharWidthInInterval | kara_storage/cmd/funcs/row.py:21-23 | `char_width` is the table's step function |
| Display.AsciiIsNarrow | kara_storage/cmd/funcs/row.py:7-23 | every o <= 126 except 14 and 15 has width 1 |

## Left out

- Buffering: `io.BufferedReader`/`BufferedWriter` are modelled as direct
  stream access. A buffered read loops over `readinto` until n bytes are in
  or a raw read returns 0 bytes. A buffered write loops over `write` until
  every byte is taken. Buffer sizes and the moment bytes reach the backend
  are not modelled.
- Backends: the storage backend is a map from path to bytes with
  `filesize`, append and range reads. The oss2/urllib/os calls are not
  modelled.
  - A range read of a stored trunk always delivers the whole range.
  - Short reads of `readinto` are an explicit list of replies, one per
    attempt, which includes the non-blocking `None`.
- Trunk.TrunkController.ReadInto: the non-blocking `None` reply is only
  shown to leave the controller unchanged. Its effect on the buffered
  reader above it is not modelled; the buffered reads assume a backend
  that delivers what is asked.
- Trunk.TrunkController.OpenWriter: opens only a stream whose trunks are
  numbered without gaps and whose last trunk holds at most
  `max_file_size` bytes, with `max_file_size > 0`. The code opens any
  stream in "w". With a smaller `max_file_size` than the one the stream
  was written with, its first `write` computes a negative length, appends
  a truncated prefix of the bytes and lowers `size`. With a gap in the
  numbering, a roll-over appends onto a trunk that already holds data.
  Neither leaves a stream that the controller's invariant (stream =
  trunks in order, `size` its length) can describe.
- Trunk.TrunkController.Open: write mode carries the same requirement as
  OpenWriter, for the same reason. Read mode accepts any `max_file_size`.
- Dataset.OpenWriters: both streams carry the OpenWriter requirement, for
  the same reason.
- Dataset.RawDataset.Open: write mode carries the OpenWriter requirement
  for both streams, for the same reason.
- Row.RowDataset.Open: write mode carries the OpenWriter requirement for
  both streams of the store, for the same reason.
- Trunk.TrunkController.Pread: returns the corrected span of
  Trunk.ReadSpan. When the span reaches an empty trunk with bytes still to
  read, the code raises ZeroDivisionError at trunk.py:217 (for trunks of
  16 and 0 bytes, `pread(8, 16)`); the model returns the bytes that
  remain. Trunk.SpanAsWritten states the code's loop.
- Trunk.TrunkController.Pread: `offset` is a natural number. The code
  passes a negative offset on to the backend's range read. RawDataset
  never does this, because its offsets come from unsigned index entries.
- Dataset.PreadAt: returns the corrected RecordFormat.PreadRecord. For an
  empty last record the code raises IndexError (dataset.py:143) where the
  model returns the empty record; RecordFormat.PreadAsWritten and
  RecordFormat.EmptyLastRecordOutOfRange state the code's behaviour.
- Dataset.RawDataset.Pread: the corrected `pread`, as for PreadAt.
- Row.RowDataset.PreadRaw: passes on the corrected `pread` of the store,
  so an empty last record of the view is returned where the code raises
  IndexError.
- Row.RowDataset.Pread: the corrected `pread`, as for PreadRaw.
- Row.RowDataset.GetItem: the corrected `pread`, as for PreadRaw. The
  code's IndexError for an empty last record is not the `IndexError`
  that GetItem raises for k >= length.
- RecordFormat.DataPread: the data read is built on the corrected trunk
  read. When a corrupt index points past the end of a data stream whose
  last trunk is empty, the code raises ZeroDivisionError where the model
  reports a broken dataset. RecordFormat.PreadAsWritten inherits this.
- Serializers: records are opaque byte sequences, so `write`/`read`/
  `pread` of a `RowDataset` carry bytes. JSON and pickle are not modelled.
- Relay: the `__ipc_main` thread, `select`, pipes, `ForkingPickler` and the
  proxy are left out, because they are concurrency and IPC. Only the
  registry counters are modelled.
  - Locks are not modelled; each method is one atomic step.
  - The relay command dispatch tests "size" twice, so "tell" falls
    through to ValueError; the dispatch itself is not modelled.
- Row.RowDataset.Seek: an unknown whence raises UnboundLocalError in the
  code (row.py:139 reads an unassigned `ds_offset`). It is modelled as that
  error, with the view unchanged.
- Dataset.RawDataset.WriteNext: the counters move before the two stream
  writes, while the code moves them after the data write. Nothing can fail
  in between, so the outcome is the same.
- Shuffle: the Mersenne Twister and the float from `random()` are a stream
  of 53-bit draws `gen(epoch + seed)`, and the slot is
  `draw * len / 2^53`. Floating-point rounding is not modelled.
  - The view's own behaviour is taken from `RowDataset`. `Sound()`
    assumes a store written as `Holds(rs)` describes.
- TorchShard.ShardOf: `torch.distributed` is parameters: whether the group
  is initialised, the rank and the world size. Wrapping in
  `ShuffleDatasetWrapper`/`IterDatasetWrapper` is not modelled; those
  classes are not part of this model.
- Manifest: `meta.json` files and JSON I/O are a map from dataset key to
  manifest. The directory copies of `loadDirectory`/`saveDirectory` and
  the `LocalDataset` that `open` returns are not modelled.
- NativeStorage: file I/O, `fallocate`, `lseek` and their errors, the
  persistence of the meta file, and the trunk bytes are left out. Each
  operation yields the file and byte position it would use.
  - The getters `TrunkSize`, `TrunkNum` and `LastTrunkSize` are plain
    reads of the metadata fields, with no contract of their own.
  - The unused `trunks_per_file` member of the class is not modelled.
- NativeStorage.LocalStorage.Pread: `length` is not checked against the
  trunk end, as in the code. It is left out of the result.
- NativeStorage.LocalStorage.constructor: `trunks_per_file == 0` is
  required away. The code divides by it (undefined behaviour in C++).
- NativeStorage.Placement: the placement is computed without the uint32
  wrap-around of the code (see Findings). NativeStorage.PlacementAsWritten
  is the code's product. The two agree whenever
  `(trunk_id % trunks_per_file) * max_trunk_size` is below 2^32.
- NativeStorage.LocalStorage.Read: returns the unwrapped Placement, where
  the code's offset wraps modulo 2^32 (local.cpp:44).
- NativeStorage.LocalStorage.Write: returns the unwrapped Placement, where
  the code's offset wraps modulo 2^32 (local.cpp:73). The wrapped
  `fallocate` length at line 80 is not modelled either.
- NativeStorage.LocalStorage.Pread: starts from the unwrapped Placement,
  where the code's offset wraps modulo 2^32 (local.cpp:107).
- The native prototype (trunk controller, dataset, Python binding) is not
  part of this model. Only the packing of `utils.h` is, which the trunk
  controller uses for its append address.
- `struct "Q"` uses native byte order. The model fixes it to
  little-endian.

## Findings

| source | as written | input that shows it | evidently intended | confidence | as-written member | corrected member |
|---|---|---|---|---|---|---|
| kara_storage/row/trunk.py:217 | `offset = ed % self.__file_sizes[trunk_id]` divides by the size of the trunk just read, which is 0 for the empty trunk a writer leaves after filling the last one exactly | trunks of 16 and 0 bytes, `pread(8, 16)` | skip the empty trunk and return the 8 bytes that remain | not executed | Trunk.EmptyTrunkDividesByZero | Trunk.PreadTrunks |
| kara_storage/row/dataset.py:143 | the data `pread(last_pos, 0)` for an empty last record starts exactly at the data end, which raises IndexError | a store holding one empty record, `pread(0)` | return the empty record, as `read` does | not executed | RecordFormat.EmptyLastRecordOutOfRange | RecordFormat.PreadRoundTrip |
| csrc/storage/local.cpp:73 | `(trunk_id % trunks_per_file) * max_trunk_size` is computed in uint32_t and wraps, as do lines 44 and 107 | max_trunk_size 2^31, trunks_per_file 4, trunks 0 and 2 | distinct trunks at distinct, non-overlapping offsets | not executed | NativeStorage.WrapCollides | NativeStorage.PlacementDisjoint |
