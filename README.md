# OpenMXR download and cache core, in Dafny

A verified model of two parts of OpenMXR.

**Ranged downloader** (`DownloadTask`).
- It asks the server for a resource's size with a HEAD request.
- It requests the resource in consecutive byte ranges of `chunk_size` bytes (1,000,000 by default) on a pool of 12 workers.
- It tags each finished download with its chunk index, sorts the results by that index and concatenates them.

**Filesystem cache** (`Cache` and `AudioCache`).
- An entry lives at `./.cache/<name>/<md5(key)>.cache`.
- `get` treats an entry that cannot be read back as a miss.
- `set` creates the namespace directory if it is missing, then overwrites the entry.
- `AudioCache` stores bz2-compressed WAV data. It writes the WAV at 48000 Hz and streams it through one compressor and one decompressor shared by every instance. Both directions work in 16384-byte reads.

Modules:

- `Common` (common.dfy) holds:
  - bytes, `Option`, and `Outcome`, which models Python's raised exceptions;
  - `Flatten`, which concatenates a list of byte strings;
  - `Pieces(s, n)`, the sequence of `read(n)` results over a buffer until an empty read.
- `FileSystem` (filesystem.dfy) holds:
  - `posixpath.join`;
  - a `Disk` value, meaning regular files with their bytes plus a set of directories;
  - a `FileSystem` class with the `os` operations the cache uses.
- `CacheStore` (cache.dfy) states `check_cache_exists`, `get` and `set` twice:
  - as functions on a `Disk` value (`CheckIn`, `GetIn`, `SetIn`), where the lemmas are proved;
  - as the class `Cache`, whose methods are proved to change the live filesystem exactly as those functions say.
- `Bz2` (bz2.dfy): the incremental compressor and decompressor objects. Their algorithm is abstract; the state they carry between calls is modelled.
- `AudioStore` (audio_cache.dfy): `AudioCache`, with its two streaming loops as `while` loops proved against `Encode` and `Decode`.
- `Downloader` (download_task.dfy) holds:
  - Python's `range`;
  - the request list;
  - the sort by index;
  - the class `DownloadTask`, whose methods are loops proved against `Payloads` and `Flatten`.

Foreign code is passed in as function values:
- `mkmd5`;
- the JSON codec;
- the bz2 step functions;
- the madmom WAV writer and the soundfile WAV reader;
- the HTTP server (`Remote`).

The thread pool's completion order is a parameter: any permutation of the chunk indices. Every property is proved for all of them.

Three behaviours of the code that a reader might not expect; the model follows the code:
- The last range is not clamped. For 2,500,000 bytes in chunks of 1,000,000 the third request is `[2000000, 2999999]`, running past the last byte (`Downloader.ThreeChunkExample`). Section 2.1 of RFC 7233 lets a server read that as "up to the last byte", so the result is still exact.
- There is no fallback when the reported size is 0. No range is requested and the result is the empty byte string (`Downloader.EmptyResourceDownloadsNothing`).
- `set` does not write through a temporary file. It truncates the entry and writes into it, so a codec that raises part-way leaves a partial file (`CacheStore.SetIn`).

## Model

| member | source | states |
|---|---|---|
| Common.Flatten | openmxr/downloader/DownloadTask.py:50-52 | concatenating the parts in order gives a byte string whose length is the sum of the parts' lengths, what a progress bar advanced once per part shows |
| Common.Pieces | openmxr/cache.py:76-82 | the successive non-empty `read(n)` results on a buffer; there are none exactly when the buffer is empty, so the loop stops at its first read |
| Common.ReadAt | openmxr/cache.py:77 | one `read(16384)` at offset `pos` returns the next `min(16384, remaining)` bytes of the buffer |
| Common.PiecesStep | openmxr/cache.py:76-82 | the loop's next read is the first piece of what remains, and the rest of the loop reads the pieces after it |
| Common.PiecesFlatten | openmxr/cache.py:96-102 | the 16 KiB reads, concatenated, give back the whole input in order, and their lengths add up to its size (the progress total) |
| Common.PiecesShape | openmxr/cache.py:76-82 | there are ceil(size / 16384) reads; each is non-empty and at most 16384 bytes; all but the last are exactly 16384 |
| FileSystem.JoinShape | openmxr/cache.py:37-42 | `posixpath.join(a, b)` with an absolute `b` is `b`; with a relative `b` it is `a`, at most one `/`, then `b` |
| FileSystem.FileSystem.IsDir | openmxr/cache.py:37 | `path.isdir` holds of directories only, never of a regular file |
| FileSystem.FileSystem.Exists | openmxr/cache.py:46 | `path.exists` holds of regular files and directories; an existing path that is not a directory is a regular file |
| FileSystem.FileSystem.ReadAll | openmxr/cache.py:49-51 | a file opened for reading, in mode `r` or `rb`, yields exactly its stored bytes |
| FileSystem.FileSystem.MakeDirs | openmxr/cache.py:39 | `makedirs` raises FileExistsError on an existing path; otherwise it adds the directory and leaves every file unchanged |
| FileSystem.FileSystem.OpenForWrite | openmxr/cache.py:59 | opening for writing, in mode `w` or `wb`, raises IsADirectoryError on a directory; otherwise the file exists and is empty, and nothing else changes |
| FileSystem.FileSystem.Append | openmxr/cache.py:102 | `file.write(b)` appends `b` to that file only |
| CacheStore.CacheDir | openmxr/cache.py:37-39 | the namespace directory is `./.cache/` followed by the name; an absolute name replaces `./.cache/` altogether |
| CacheStore.EntryPath | openmxr/cache.py:41-42 | an entry path lies strictly inside the namespace directory `./.cache/<name>` |
| CacheStore.EntryPathShape | openmxr/cache.py:42 | for a plain name, the entry path is exactly `./.cache/` + name + `/` + digest + `.cache` |
| CacheStore.EntryPathSeparatesDigests | openmxr/cache.py:42 | in one namespace, two keys share an entry if and only if their digests are equal |
| CacheStore.EntryPathInjective | openmxr/cache.py:41-42 | with plain names and 32-hex-digit digests, the entry path determines both the name and the digest |
| CacheStore.Mode | openmxr/cache.py:49 | the `open` mode starts with `r` or `w` and contains `b` exactly when `binary_format` is set |
| CacheStore.CheckIn | openmxr/cache.py:36-39 | creating the namespace directory succeeds unless a regular file holds its path; it adds only that directory; on failure it raises FileExistsError and changes nothing; an existing directory is left as is |
| CacheStore.ReadEntry | openmxr/cache.py:46-49 | a missing path is a miss; a directory makes `open` raise; a regular file yields its bytes |
| CacheStore.GetIn | openmxr/cache.py:44-53 | `get` raises only when the entry path is a directory; it returns None exactly when the entry is missing or `load` fails on it; a hit is what `load` makes of the stored bytes |
| CacheStore.SetIn | openmxr/cache.py:55-60 | `set` succeeds exactly when the namespace can be made, the entry is not a directory and `dump` completes; only the entry's file changes, and it holds what `dump` wrote, partial if `dump` raised |
| CacheStore.CheckIdempotent | openmxr/cache.py:36-39 | a second `check_cache_exists` changes nothing and reports what the first did |
| CacheStore.CheckKeepsEntries | openmxr/cache.py:23-25 | constructing a cache, or `set` ensuring the namespace, never changes what `get` returns for any key |
| CacheStore.GetAfterSet | openmxr/cache.py:27-33 | after a successful `set`, `get` on the same key returns the stored value whenever `load` inverts `dump`, as the JSON codec does |
| CacheStore.SetLeavesOtherKeys | openmxr/cache.py:55-60 | `set` on one key leaves `get` on every key with a different digest unchanged |
| CacheStore.SetOverwrites | openmxr/cache.py:59-60 | two `set`s on one key leave exactly the disk and outcome of the second alone |
| CacheStore.CheckCacheExists | openmxr/cache.py:36-39 | on the live filesystem, `check_cache_exists` does exactly what `CheckIn` describes |
| CacheStore.Cache.Open | openmxr/cache.py:23-25 | the constructor runs `check_cache_exists` and fails exactly when that raises, with the same error |
| CacheStore.Cache.GetCacheFilename | openmxr/cache.py:41-42 | for a plain name and an md5 digest, the entry file is `./.cache/<name>/<digest>.cache` |
| CacheStore.Cache.Get | openmxr/cache.py:44-53 | `get` opens the entry in mode `r` and returns what `GetIn` says, changing nothing, so a corrupt entry stays on disk |
| CacheStore.Cache.Set | openmxr/cache.py:55-60 | `set` opens the entry in mode `w` and leaves the filesystem and outcome that `SetIn` describes for `dump(data)` |
| Bz2.Compressor.Compress | openmxr/cache.py:102 | `compress(chunk)` returns what the stream emits for the chunk, given all earlier input, and remembers the chunk |
| Bz2.DecompressOnce | openmxr/cache.py:82 | a decompressor whose stream has ended raises and stays unchanged; corrupt input raises and changes nothing; otherwise the chunk is consumed |
| Bz2.Decompressor.Decompress | openmxr/cache.py:82 | `decompress(chunk)` on the shared object behaves as `DecompressOnce` |
| Bz2.DeflateBelowBlockIsEmpty | openmxr/cache.py:96-102 | without a `flush`, a compressor that has taken in less than one block has emitted nothing at all |
| Bz2.InflateAfterEnd | openmxr/cache.py:65 | once the shared decompressor's stream has ended, feeding it any pieces raises at once, with no state change |
| Bz2.InflateConsumes | openmxr/cache.py:76-82 | a successful run of the decompression loop consumes every piece, in order |
| AudioStore.Transpose | openmxr/cache.py:86 | `np.transpose` swaps the shape, zero dimensions included, and moves element (i, j) to (j, i) |
| AudioStore.TransposeTwice | openmxr/cache.py:85-92 | transposing twice gives every two-dimensional array back, shape included, even with no frames |
| AudioStore.DumpIgnoresSampleRate | openmxr/cache.py:92 | the WAV `dump` writes depends on the samples only: the artifact's own sample rate is never used |
| AudioStore.FromWav | openmxr/cache.py:85-86 | parsing succeeds exactly when the WAV reader does; the result carries the WAV's rate, and its samples transposed once more are the reader's frames |
| AudioStore.Encode | openmxr/cache.py:88-102 | `dump` writes something exactly when the WAV write succeeds; a WAV write that raises leaves nothing in the file |
| AudioStore.Decode | openmxr/cache.py:68-86 | an empty file is never fed to the decompressor, so the WAV reader gets no bytes and the decompressor is unchanged; a loaded artifact means the decompression went through |
| AudioStore.AudioGetIn | openmxr/cache.py:44-53 | `get` raises IsADirectoryError exactly when the entry is a directory, leaving the decompressor alone; a missing entry is a miss with the decompressor unchanged; a regular file is what `load` makes of it |
| AudioStore.WavRoundTripAt48k | openmxr/cache.py:85-92 | if the WAV reader inverts the writer at every rate, parsing the WAV that `dump` writes yields the stored samples at 48000 Hz, which equals the stored artifact if and only if its rate was 48000 |
| AudioStore.LoadAfterDump | openmxr/cache.py:68-102 | when decompressing a stored entry yields the WAV that `dump` wrote, `load` returns the stored samples at 48000 Hz; the stored artifact comes back exactly when its rate was 48000 |
| AudioStore.LoadFeedsEveryByte | openmxr/cache.py:76-82 | a `load` whose decompression succeeds has fed the decompressor every byte of the file once, in order |
| AudioStore.LoadAfterEndOfStreamFails | openmxr/cache.py:65 | after the shared decompressor reaches end of stream, every `load` of a non-empty entry fails, so `get` reports a miss |
| AudioStore.UnflushedDumpLeavesNothing | openmxr/cache.py:96-102 | while the shared compressor has taken in less than one block, `dump` writes an empty entry, and `load` hands the WAV reader no bytes |
| AudioStore.EntryModes | openmxr/cache.py:21-66 | `Cache` opens its entries in modes `r` and `w` (text), `AudioCache` in `rb` and `wb` (binary) |
| AudioStore.AudioCache.Open | openmxr/cache.py:23-25 | the inherited constructor fails exactly when `check_cache_exists` raises, and shares the compressor and decompressor it is given |
| AudioStore.AudioCache.GetCacheFilename | openmxr/cache.py:41-42 | the inherited entry name: for a plain name and an md5 digest, `./.cache/<name>/<digest>.cache` |
| AudioStore.AudioCache.Load | openmxr/cache.py:68-86 | the read loop feeds the shared decompressor one 16 KiB piece at a time and parses the buffer; result and new decompressor state are those of `Decode` |
| AudioStore.AudioCache.Dump | openmxr/cache.py:88-102 | a failed WAV write raises and changes nothing. Otherwise the file gains the compressor's output for every 16 KiB piece of the 48000 Hz WAV, and the compressor has consumed the whole WAV, in order |
| AudioStore.AudioCache.CompressInto | openmxr/cache.py:96-102 | the 16 KiB read loop appends to the open entry exactly the compressor's output for each successive piece of the WAV, and leaves the compressor having consumed every byte of it, in order. No other file or directory changes |
| AudioStore.AudioCache.Get | openmxr/cache.py:44-53 | the inherited `get` with this `load`, opening the entry in mode `rb`: a missing entry is a miss and leaves the decompressor as it was; otherwise the result is `Decode` of the entry |
| AudioStore.AudioCache.Set | openmxr/cache.py:55-60 | the inherited `set` with this `dump`, opening the entry in mode `wb`; the compressor consumes the WAV exactly when the entry is opened and the WAV write succeeds |
| Downloader.PyRange | openmxr/downloader/DownloadTask.py:29 | `range(start, stop, step)` is empty exactly when `stop` is not beyond `start` in the step's direction, and otherwise begins at `start` |
| Downloader.PyRangeAscending | openmxr/downloader/DownloadTask.py:29 | `range(start, stop, step)` with step > 0 holds ceil((stop - start) / step) values, the i-th being start + i*step |
| Downloader.Requests | openmxr/downloader/DownloadTask.py:29-31 | one request per value of the range: there are as many requests as range values; request i carries index i and spans `chunk_size` bytes, end included |
| Downloader.RequestsShape | openmxr/downloader/DownloadTask.py:29-31 | there are ceil(file_size / C) requests; request i carries index i and asks for `[i*C, i*C + C - 1]` |
| Downloader.NegativeChunkSizeRequestsNothing | openmxr/downloader/DownloadTask.py:29 | a negative chunk size gives an empty range, so no request is made |
| Downloader.RequestsContiguous | openmxr/downloader/DownloadTask.py:31 | the first request starts at 0, every request starts inside the resource, and each starts one past where the previous one ends |
| Downloader.RequestOfByte | openmxr/downloader/DownloadTask.py:29-31 | every byte of the resource lies in exactly one requested range: the one numbered byte / C |
| Downloader.LastRequestUnclamped | openmxr/downloader/DownloadTask.py:31 | the last request ends at n*C - 1, at or past the last byte, and strictly past it exactly when C does not divide the size |
| Downloader.Insert | openmxr/downloader/DownloadTask.py:41 | inserting one pair gives a list one longer holding the same pairs plus the new one, headed by the new pair or the old head |
| Downloader.SortByIndex | openmxr/downloader/DownloadTask.py:41 | `sorted(intermediate, key=index)` is a permutation of its input, ordered by chunk index |
| Downloader.SortDistinctIsStrict | openmxr/downloader/DownloadTask.py:41 | with distinct chunk indices the sorted list is strictly increasing |
| Downloader.SortKeepsPayloadLength | openmxr/downloader/DownloadTask.py:37-41 | sorting keeps the payloads' summed length, so the progress counted in completion order is the result's size |
| Downloader.Completed | openmxr/downloader/DownloadTask.py:37-40 | `intermediate` holds one pair per completed future, and when the futures are the chunks in some order, no two pairs share an index |
| Downloader.IndicesArePositions | openmxr/downloader/DownloadTask.py:38-41 | in a strictly sorted list of n pairs with indices below n, the pair at position j has index j |
| Downloader.SortRestoresChunkOrder | openmxr/downloader/DownloadTask.py:37-41 | whatever permutation the futures complete in, the sorted payloads are the payloads in chunk order |
| Downloader.Reassemble | openmxr/downloader/DownloadTask.py:41-52 | the sorted payloads concatenated are exactly as long as the payload bytes counted while the pairs arrived |
| Downloader.ReassemblyIgnoresCompletionOrder | openmxr/downloader/DownloadTask.py:37-41 | any two completion orders reassemble to the same bytes, the chunks concatenated in index order |
| Downloader.DownloadRecoversResource | openmxr/downloader/DownloadTask.py:48-53 | from a server that honours byte ranges, the chunks concatenate to exactly the resource and their lengths sum to its size |
| Downloader.EmptyResourceDownloadsNothing | openmxr/downloader/DownloadTask.py:29 | a size of 0 means no request, and the result is the empty byte string |
| Downloader.ThreeChunkExample | openmxr/downloader/DownloadTask.py:31 | 2,500,000 bytes in chunks of 1,000,000 are requested as `[0, 999999]`, `[1000000, 1999999]` and `[2000000, 2999999]`; completion order 2, 0, 1 still reassembles the resource |
| Downloader.DownloadTask.constructor | openmxr/downloader/DownloadTask.py:44-46 | a new task keeps its URL, and its chunk size defaults to 1,000,000 |
| Downloader.DownloadTask.GetSize | openmxr/downloader/DownloadTask.py:12-15 | the size is the Content-Length the HEAD response reports |
| Downloader.DownloadTask.DownloadRange | openmxr/downloader/DownloadTask.py:17-24 | the output is the streamed parts concatenated in order, and the progress bar advances by the sum of their lengths |
| Downloader.DownloadTask.RunAsyncFunctions | openmxr/downloader/DownloadTask.py:26-42 | for any completion order, the result lists each chunk's payload in index order, and the progress bar's total is the reported size. Its count equals the payloads' total length. A zero chunk size raises ValueError |
| Downloader.SortedCompletion | openmxr/downloader/DownloadTask.py:37-41 | whatever order the futures complete in, sorting the collected (index, payload) pairs by index yields the payloads in chunk order. The lengths added to the progress bar sum to the payloads' total length |
| Downloader.Payloads | openmxr/downloader/DownloadTask.py:17-31 | one payload per request, each as long as the parts the server streams for that range |
| Downloader.PayloadOfChunk | openmxr/downloader/DownloadTask.py:29-31 | chunk `i` is requested for bytes start..start+chunk_size-1, with `start` the `i`-th value of range(0, size, chunk_size). Its payload is the concatenation of the parts the server returns for that range |
| Downloader.DownloadTask.Start | openmxr/downloader/DownloadTask.py:48-53 | the buffer is the chunk payloads concatenated in index order, and the progress count equals its length |

## Left out

- The thread pool and its futures: the completion order is a permutation passed in. The pool size of 12 (`Downloader.MaxWorkers`) only affects scheduling, so it is a named constant that no operation reads.
- HTTP is the `Remote` value: the size a HEAD reports and the parts a ranged GET streams. A missing or non-numeric `Content-Length` header, HTTP errors and exceptions surfacing through `future.result()` are not modelled.
- `tqdm` progress bars: only the downloader's counter and total are fields. The bars inside `AudioCache.load` and `dump` are left out; their totals are the input sizes that `Common.PiecesFlatten` sums.
- `logging.debug` calls carry no behaviour and are left out.
- `mkmd5` is an abstract function value, because openmxr/utils/hash.py is not part of this model.
- JSON, bz2 and WAV encoding are abstract function values. Only the contracts they are assumed to meet appear, as hypotheses of the lemmas that need them.
- CacheStore.Cache.Open: a Python constructor that raises is modelled as a static method returning an `Outcome`.
- CacheStore.CheckIn: `makedirs` also creates missing parent directories and can fail on permissions. Only the namespace directory is tracked.
- Bz2.DecompressOnce: on corrupt data the decompressor's state is kept unchanged. What the real object keeps after an OSError is not modelled.
- AudioStore.Transpose: only two-dimensional sample arrays are modelled, zero dimensions included. A one-dimensional (mono) array, which `np.transpose` leaves as is and `sf.read` returns for a one-channel WAV, is not.
- AudioStore.AudioCache.Load: it receives the file's bytes rather than a file object. `seek`/`tell` only measure the size for the progress bar.
- AudioStore.LoadAfterDump: its hypothesis, that decompressing the stored entry yields the WAV, is not derived from `Encode`. The bz2 format is abstract, and without a flush the stored entry can lack the end of the stream (`AudioStore.UnflushedDumpLeavesNothing`).
- AudioStore.AudioCache.Dump: it assumes the WAV writer leaves the in-memory buffer positioned at its start, so the read loop sees the whole WAV.
- Downloader.DownloadTask.GetSize: sizes are natural numbers. A negative `Content-Length` is not modelled.
- Concurrent writers to one cache entry, and concurrent progress-bar updates, are not modelled: every operation here is sequential.
