# Velo Rift: a verified model

Velo Rift keeps file contents in a content-addressed store, maps paths to them in
manifests, serves stats from a memory-mapped index and talks to its daemon over a framed
protocol. This project models its stateful algorithms in Dafny and proves what they keep.

Algorithms that work in place on a buffer are methods over arrays, objects that update
their fields are classes, and protocols between threads are step systems whose runs are
all lists of steps with all outcomes. Verify everything with `dafny verify dfyconfig.toml`.

## What is modelled

- `PathNormalize`, `PathMeaning`, `PathText`, `PathResolver`, `Utf8`: the in-place path
  normaliser and the resolver of virtual paths, against a stack of components.
- `ProbeTable`, `MmapImage`, `MmapBuilder`, `MmapReader`, `MmapAdded`, `Bloom`: the byte image with
  its two open-addressing tables, child pool and filter, and a reader that probes it.
- `IngestProtocol`, `IngestResults`, `IngestDedup`: parallel zero-copy ingest, one worker per
  file, under every interleaving and every failure.
- `LmdbManifest`, `LmdbHistory`, `IngestCache`: the two-layer manifest as one map, and re-ingest
  with the size and mtime cache against re-hashing everything.
- `BlobNames`, `Cas`, `CasSweep`, `FilterGap`, `Gc`: blob names, the store, the sweep and the
  chain from registered manifests to what a collection deletes.
- `Pipeline`, `PipelineRuns`, `PipelineFlight`, `PipelineHandles`, `PipelineChannels`,
  `PipelineContent`, `PipelineMissing`, `PipelineDiscard`, `PipelineEnds`, `PipelineCommitter`: the
  streaming pipeline of scanner, workers and batch committer.
- `FuseTree`, `FuseWalk`: the inode tree, lookups and paged listings.
- `Frames`, `LockManager`, `CircuitBreaker`, `Packfile`: framing, file locks, the RPC circuit
  breaker and packfiles.

Hashes are function parameters; where a statement needs it, they do not confuse the contents
or paths it speaks of. Serialisation by rkyv is a pair of functions with a round trip. Clocks, system
calls and their failures are parameters. LMDB, the concurrent set and the channels are a
map, a set and sequences.

## Where the code differs from what it promises

Each item names the members that state when the promise holds, or give a run in which it fails.

- A relative path with ".." can lose its meaning (`RelativeMeaning`), and a path longer than
  1024 bytes is cut, and refused when the cut falls inside a character (`ResolvesExactly`,
  `LongPathEscapes`).
- The memory-mapped index serves entries and directories only up to 65536 each
  (`ServesEveryEntryExactly`, `ListsEveryDirectoryExactly`), and lists a name of more than 127
  bytes cut or empty, so that two entries can look alike (`ListsTrueNamesExactly`,
  `NamesClashExactly`).
- A deduplicated tier-1 ingest can report success for a dangling symlink
  (`ResultIsBackedExactly`, `LinkFailureDangles`), and counts claims rather than blobs
  (`Tier1CountsBlobsExactly`). A copy across devices that breaks off leaves a part under the
  blob's name, which the next worker takes for the blob (`AlwaysAddressedExactly`,
  `TornCopyIsTaken`); the content stays in the first worker's source (`ContentIsPreserved`).
- The ingest cache looks files up without the prefix it stores them under
  (`CacheIsSafeExactly`), and does not notice a change of mode (`ModeAgreesExactly`).
- The search for a blob also recognises temporary files. A write that fails leaves one, and
  then blocks the blob (`StoredIsReadableExactly`), lets a moved file vanish
  (`MovedIsReadableExactly`, `FailedWriteLosesMovedFile`) and shields it from a sweep
  (`OrphanIsGoneExactly`). A cross-device move that fails leaves part of the data under the
  final name (`StaysAddressedExactly`).
- A read error in an LMDB manifest ends its iteration silently, so a collection can delete what
  the manifest refers to (`KeepSetIsWholeExactly`, `LosesReferencedBlob`).
- Pipeline workers share temporary names between small files whose hashes share four bytes:
  blobs are stored with other content (`StoreIsAddressedExactly`), a write truncates another
  file's data for a while, or for good when it fails (`TornIsSafeExactly`, `PartIsStored`), and
  commits fail (`NoTempIsMissingExactly`, `DiscardIsSafeExactly`).
- Without workers the pipeline ends with nothing done when what it scans fits the channel, and
  otherwise never ends (`EndsAccountedExactly`, `FinishesExactly`). With a file larger than the
  memory budget it never ends (`EndsFromExactly`), and a batch size of zero lets the batch hold
  two files (`BatchBoundExactly`). A breaker threshold of zero acts as one (`Breaker.Call`).
- A directory listing goes unanswered when the first buffer does not take both dot entries
  (`ListsAllExactly`), and a reader that resumes after "." starts over (`ResumesExactly`).

## Model

| member | source | states |
|---|---|---|
| `PathNormalize.Normalize` | crates/vrift-inception-layer/src/path.rs:179-257 | The in-place, backtracking normaliser leaves in the buffer exactly the text of `Normalized`, and reports failure exactly when that is undefined. |
| `PathNormalize.Backtrack` | crates/vrift-inception-layer/src/path.rs:212-222 | Backtracking over the last name stops at the end of the text before it, but never below one byte. |
| `PathNormalize.Append` | crates/vrift-inception-layer/src/path.rs:224-243 | Appending a name succeeds exactly when the text with it fits, and then the buffer holds that text. |
| `PathNormalize.NextName` | crates/vrift-inception-layer/src/path.rs:195-209 | The scan finds exactly the next component of the path, or that there is none. |
| `PathMeaning.AbsoluteNormalizes` | crates/vrift-inception-layer/src/path.rs:179-257 | For every absolute path and a buffer at least as long, the normaliser succeeds with the canonical text of the stack evaluation, plus one slash exactly when the path ends by popping to a name. |
| `PathMeaning.AbsoluteMeaning` | crates/vrift-inception-layer/src/path.rs:179-257 | That text has exactly the components of the stack evaluation, no double slash, and is a fixed point of normalising. |
| `PathMeaning.AbsoluteFailsExactly` | crates/vrift-inception-layer/src/path.rs:224-243 | With any buffer, normalising an absolute path fails exactly when some prefix of it denotes a directory whose canonical text is too long. |
| `PathMeaning.RelativeMeaning` | crates/vrift-inception-layer/src/path.rs:212-222 | A relative path keeps its meaning exactly when no ".." meets a stack of one name, or the byte left behind is a dot. |
| `PathMeaning.RelativeParentLeavesByte` | crates/vrift-inception-layer/src/path.rs:212-222 | The concrete case: "ab/.." comes out as "a". |
| `PathResolver.StackWriter.WriteStr` | crates/vrift-inception-layer/src/macros.rs:147-171 | Writing to the stack buffer appends what fits and silently drops the rest. |
| `PathResolver.Resolve` | crates/vrift-inception-layer/src/path.rs:35-173 | The resolver, over its stack buffers, computes `Resolved`. |
| `PathResolver.InsideIsContainment` | crates/vrift-inception-layer/src/path.rs:61-86 | The string test for the prefix holds exactly when the prefix's names are the first names of the path. |
| `PathResolver.StackWriter.AsText` | crates/vrift-inception-layer/src/macros.rs:157-159 | What was written, or the empty text when it is not UTF-8. |
| `Utf8.CutIsText` | crates/vrift-inception-layer/src/macros.rs:157-159 | A text cut at a byte is a text exactly when no character straddles that byte. |
| `Utf8.TextExactly` | crates/vrift-inception-layer/src/macros.rs:157-159 | The UTF-8 test accepts exactly the encodings of sequences of Unicode scalar values. |
| `PathText.DenotedIsText` | crates/vrift-inception-layer/src/path.rs:57-59 | Normalising a text leaves a text, so the second UTF-8 test never refuses an absolute path. |
| `PathResolver.ResolvesExactly` | crates/vrift-inception-layer/src/path.rs:35-86 | For a canonical prefix and every path of any length, resolution succeeds exactly when the 1024-byte buffer does not cut the path inside a character and the names that the kept part denotes begin with the prefix's names; the result has those names. |
| `PathResolver.ResolvesExactlyInside` | crates/vrift-inception-layer/src/path.rs:35-173 | So for every path that fits the buffer it succeeds exactly when the names the path denotes begin with the prefix's names. |
| `PathResolver.LongPathEscapes` | crates/vrift-inception-layer/src/path.rs:35-86 | A concrete path longer than the buffer that denotes a name outside the prefix and resolves inside it. |
| `PathResolver.KeyIsAbsolute` | crates/vrift-inception-layer/src/path.rs:88-162 | Every manifest key starts with a slash. |
| `PathResolver.RootFollowedByKey` | crates/vrift-inception-layer/src/path.rs:88-162 | Below the project root, root followed by key has the components of the resolved path, and is the same text exactly when a slash follows the root in it. |
| `PathResolver.KeyIsRelativePath` | crates/vrift-inception-layer/src/path.rs:88-162 | Below a canonical root the key names the kept part of the path relative to the root. |
| `PathResolver.KeyExactly` | crates/vrift-inception-layer/src/path.rs:88-162 | For a canonical prefix and root, the names of the key are those behind the root when the path lies below it; otherwise those behind the prefix when the prefix text starts with the root's, and otherwise all of them. |
| `PathResolver.KeyAwayFromRoot` | crates/vrift-inception-layer/src/path.rs:88-162 | Away from the root the key of a path in a virtual namespace, whose prefix text does not start with the root's, is the whole resolved path; under a mount point it names what lies behind the prefix. |
| `PathResolver.NothingResolves` | crates/vrift-inception-layer/src/path.rs:35-60 | Without a prefix nothing resolves, and without a project root no relative path does. |
| `Bloom.BloomHashes` | crates/vrift-cas/src/lib.rs:605-617 | The loop over wrapping 64-bit arithmetic computes the two hashes. |
| `Bloom.FirstHashIsNumber` | crates/vrift-cas/src/lib.rs:605-617 | The first hash is the string read as digits in base 33 behind the digit 5381, modulo 2^64. |
| `Bloom.SecondHashIsNumber` | crates/vrift-cas/src/lib.rs:605-617 | The second hash is the difference of each byte and the first hash up to it, read as digits in base 65, modulo 2^64. |
| `Bloom.BitsOfKeys` | crates/vrift-cas/src/lib.rs:587-593 | Bit p of a filter filled with keys is set exactly when p is one of the two hashes of a key modulo the number of bits. |
| `Bloom.AcceptsExactly` | crates/vrift-cas/src/lib.rs:587-601 | A filter filled with keys accepts exactly the strings both of whose bits are bits of keys, so it accepts every key. |
| `Bloom.BloomFilter.Add` | crates/vrift-cas/src/lib.rs:587-593 | Setting the two bits of a key in the byte array leaves every other bit as it was. |
| `Bloom.BloomFilter.Contains` | crates/vrift-cas/src/lib.rs:596-601 | The test reads those two bits. |
| `ProbeTable.EveryRecordHasItsSlot` | crates/vrift-ipc/src/lib.rs:1217-1242 | Every record within the capacity has a slot of its own that holds it; every record past it is dropped and recorded at slot 0. |
| `ProbeTable.FindsFirstAdded` | crates/vrift-ipc/src/lib.rs:1217-1242 | A linear probe from the hash's home slot reaches the first-added record with that hash before any empty slot. |
| `ProbeTable.NeverAddedNeverFound` | crates/vrift-ipc/src/lib.rs:1217-1242 | A hash never added within the capacity is never found. |
| `MmapImage.StatRoundTrip` | crates/vrift-ipc/src/lib.rs:999-1011 | A stat record reads back as it was written. |
| `MmapImage.DirRoundTrip` | crates/vrift-ipc/src/lib.rs:1030-1036 | A directory record reads back as it was written. |
| `MmapImage.ChildRoundTrip` | crates/vrift-ipc/src/lib.rs:1044-1064 | A child record reads back with its name as the field keeps it, and so as it was written exactly when the name has no zero byte and at most 127 bytes. |
| `MmapImage.LongNameIsRead` | crates/vrift-ipc/src/lib.rs:1056-1063 | A longer name reads as its first 127 bytes, or as nothing when they end inside a character. |
| `MmapImage.NamesClashExactly` | crates/vrift-ipc/src/lib.rs:1056-1063 | Two names read alike exactly when they share their first 127 bytes or are both cut inside a character. |
| `MmapImage.SectionsTileTheFile` | crates/vrift-ipc/src/lib.rs:968-992 | For the capacities the builder computes no 32-bit offset wraps, the sections follow one another, and the last ends at the computed file size. |
| `MmapImage.KidsOfExactly` | crates/vrift-ipc/src/lib.rs:1156-1177 | A directory's child list has only entries under it, each at most once, in entry order. |
| `MmapImage.KidsAreComplete` | crates/vrift-ipc/src/lib.rs:1156-1177 | And every entry under it. |
| `MmapBuilder.GroupChildren` | crates/vrift-ipc/src/lib.rs:1156-1177 | The grouping loop builds exactly those lists. |
| `MmapBuilder.InsertRecord` | crates/vrift-ipc/src/lib.rs:1217-1242 | Inserting a record into the byte buffer puts it into the first free slot of its probe path and touches nothing outside the table. |
| `MmapBuilder.WriteStatTable` | crates/vrift-ipc/src/lib.rs:1217-1242 | The stat loop fills the table with all entries and returns the slot of each. |
| `MmapBuilder.WriteDirectories` | crates/vrift-ipc/src/lib.rs:1244-1300 | The directory loops fill the index and the packed child pool, for every iteration order of the directory map. |
| `MmapBuilder.ManifestMmapBuilder.AddEntry` | crates/vrift-ipc/src/lib.rs:1121-1149 | Adding an entry appends its record and adds its path to the filter. |
| `MmapBuilder.ManifestMmapBuilder.Write` | crates/vrift-ipc/src/lib.rs:1152-1310 | The bytes handed to the file system are an image of the entries: header, filter, stat table, directory index and pool. |
| `MmapReader.RangesTileThePool` | crates/vrift-ipc/src/lib.rs:1244-1300 | In every iteration order the child ranges follow one another without gap or overlap and have together one record for each entry with a parent. |
| `MmapReader.HeaderNamesSections` | crates/vrift-ipc/src/lib.rs:1189-1203 | The header read back names the sections where they were written, up to the end of the file. |
| `MmapReader.ImageIsServed` | crates/vrift-ipc/src/lib.rs:1152-1310 | Every image the builder writes is served through the header it holds. |
| `MmapReader.RecordIsStat` | crates/vrift-ipc/src/lib.rs:1217-1242 | The stat index recorded for an entry is the slot with its own record. |
| `MmapReader.StatIsFound` | crates/vrift-ipc/src/lib.rs:1217-1242 | Looking up a path hash in the bytes gives the stat of the first entry added under it, for the first 65536 entries of any list. |
| `MmapReader.StatIsNotFound` | crates/vrift-ipc/src/lib.rs:1217-1242 | A hash that none of those has is not found. |
| `MmapReader.ServesEveryEntryExactly` | crates/vrift-ipc/src/lib.rs:1179-1184 | With distinct hashes the file serves every entry exactly when there are at most 65536. |
| `MmapReader.OverflowIndexIsWrong` | crates/vrift-ipc/src/lib.rs:1217-1242 | Past that, an entry's recorded stat index is 0, the slot of another entry. |
| `MmapReader.DirectoryIsListed` | crates/vrift-ipc/src/lib.rs:1244-1300 | Listing one of the first 65536 directories through index and pool gives exactly its entries, each with its name as the field keeps it and its stat index. |
| `MmapReader.DirectoryIsNotListed` | crates/vrift-ipc/src/lib.rs:1244-1275 | A directory beyond them is not found. |
| `MmapReader.ListsEveryDirectoryExactly` | crates/vrift-ipc/src/lib.rs:1181-1182 | So every directory is found exactly when there are at most 65536. |
| `MmapReader.ListsTrueNamesExactly` | crates/vrift-ipc/src/lib.rs:1278-1293 | A listing shows every entry under its own name exactly when each name fits its field. |
| `MmapReader.WrittenIsFound` | crates/vrift-ipc/src/lib.rs:1121-1310 | From adding entries to a lookup by path in the bytes written: the path's first entry is found, among the first 65536. |
| `MmapReader.UnwrittenIsNotFound` | crates/vrift-ipc/src/lib.rs:1121-1310 | A path that was not added is not found. |
| `MmapReader.ListedOnce` | crates/vrift-ipc/src/lib.rs:1156-1177 | Every entry with a parent occurs once among that parent's children, and the parent is indexed. |
| `MmapReader.FilterAcceptsPaths` | crates/vrift-ipc/src/lib.rs:1201-1203 | The filter section accepts every path that was added. |
| `MmapAdded.WriteAdded` | crates/vrift-ipc/src/lib.rs:1121-1310 | From the arguments of any list of `add_entry` calls to the image: every record keeps its arguments, with bit 0 of the flags for a directory and bit 1 for a symlink. |
| `MmapAdded.HeaderTells` | crates/vrift-ipc/src/lib.rs:968-992 | The header read back has the magic, the version and the number of entries added, and the filter section is the filter. |
| `MmapAdded.AddedIsFound` | crates/vrift-ipc/src/lib.rs:1121-1242 | A lookup in the bytes gives size, mtime, mode, directory bit and symlink bit as they were given to the first `add_entry` of the path. |
| `MmapAdded.AddedIsListed` | crates/vrift-ipc/src/lib.rs:1156-1300 | The listing of a directory shows exactly the entries added under it, in the order added, each marked as a directory exactly when it was added as one. |
| `MmapAdded.NothingIsListed` | crates/vrift-ipc/src/lib.rs:1156-1300 | A directory under which nothing was added is not found. |
| `IngestProtocol.StepKeepsInv` | crates/vrift-cas/src/zero_copy_ingest.rs:163-316 | Every step of every worker, with any outcome, keeps the invariant of the shared state. |
| `IngestProtocol.ContentIsPreserved` | crates/vrift-cas/src/zero_copy_ingest.rs:163-273 | For every interleaving of workers of all five modes, and whatever calls fail or copies break off, after every step each original content is in a blob or in a source file still present. |
| `IngestProtocol.StoreStaysAddressed` | crates/vrift-cas/src/zero_copy_ingest.rs:474-547 | At every step every blob is named by its content unless a worker is copying it or failed to, and none that was there before is lost or changed. |
| `IngestProtocol.AlwaysAddressedExactly` | crates/vrift-cas/src/link_strategy.rs:146-170 | The whole store is content-addressed at every step of every schedule exactly when no worker has anything to copy: it moves its file, its blob was there, or it is empty. |
| `IngestProtocol.TornCopyIsTaken` | crates/vrift-cas/src/link_strategy.rs:146-170 | A concrete schedule in which a copy breaks off and the next worker takes what it left for the blob, links to it and reports success. |
| `IngestResults.DoneIsStored` | crates/vrift-cas/src/zero_copy_ingest.rs:163-547 | In every schedule a worker that reports success has a blob under its name, holding its content unless a copy into it is unfinished. |
| `IngestResults.PhantomSourceExactly` | crates/vrift-cas/src/zero_copy_ingest.rs:474-547 | A phantom worker that reports success has moved or removed its source, unless removing a duplicate failed; until then the source is there unchanged. |
| `IngestResults.Tier2KeepsSource` | crates/vrift-cas/src/zero_copy_ingest.rs:276-466 | A tier-2 worker, with the shared set or without, never touches its source. |
| `IngestResults.NewMeansAbsent` | crates/vrift-cas/src/zero_copy_ingest.rs:163-547 | `was_new` is reported exactly when the blob was absent at the moment the worker looked and no rename of it was denied. |
| `IngestResults.NewNamesAreAdded` | crates/vrift-cas/src/zero_copy_ingest.rs:163-547 | When all workers have succeeded, the names reported as new are exactly the blobs that were added. |
| `IngestResults.FailsExactly` | crates/vrift-cas/src/zero_copy_ingest.rs:163-547 | A worker fails exactly when one of the calls whose error the function returns failed. |
| `IngestResults.EndsExactly` | crates/vrift-cas/src/zero_copy_ingest.rs:163-547 | After seven turns every worker has ended, with success exactly when no such call failed. |
| `IngestDedup.ResultIsBackedExactly` | crates/vrift-cas/src/zero_copy_ingest.rs:413-471 | When a parallel batch has ended, a reported result has its content in the store exactly when the store held it before or no worker failed between claiming that content and storing it whole. |
| `IngestDedup.DoneIsSymlink` | crates/vrift-cas/src/zero_copy_ingest.rs:219-273 | A finished tier-1 worker has replaced its file by a symlink to the blob's name. |
| `IngestDedup.LinkFailureDangles` | crates/vrift-cas/src/zero_copy_ingest.rs:219-273 | A concrete schedule of two equal files after which a worker reports success while its symlink points to no blob. |
| `IngestDedup.Tier2CountsBlobs` | crates/vrift-cas/src/zero_copy_ingest.rs:413-471 | A tier-2 batch in which no worker fails ends with every content in the store and as many `was_new` results as blobs added. |
| `IngestDedup.Tier1CountsBlobsExactly` | crates/vrift-cas/src/zero_copy_ingest.rs:219-273 | A tier-1 batch reports as many new blobs as it added exactly when the store held none of the contents before. |
| `LmdbManifest.AnswersAsPlainMap` | crates/vrift-manifest/src/lmdb.rs:149-262 | Over every sequence of operations, lookups by path answer as one plain map from paths would. |
| `LmdbManifest.Manifest.InsertEntry` | crates/vrift-manifest/src/lmdb.rs:149-158 | Inserting updates the visible map at the path's hash and nothing else. |
| `LmdbManifest.Manifest.GetByHash` | crates/vrift-manifest/src/lmdb.rs:167-183 | The two-layer lookup, whiteouts included, answers from the visible map. |
| `LmdbManifest.Manifest.GetPathByHash` | crates/vrift-manifest/src/lmdb.rs:214-227 | Every visible entry has a recorded path, and it hashes to the key. |
| `LmdbManifest.Manifest.MarkEntryStale` | crates/vrift-manifest/src/lmdb.rs:186-204 | Marking stale changes that flag of that entry only, copying a base entry up when needed. |
| `LmdbManifest.Manifest.RemoveEntry` | crates/vrift-manifest/src/lmdb.rs:207-211 | Removing takes exactly that entry out of the visible map. |
| `LmdbManifest.Manifest.CommitDelta` | crates/vrift-manifest/src/lmdb.rs:230-262 | Committing leaves the visible map unchanged; it empties the delta exactly when the transaction succeeds. |
| `LmdbManifest.Manifest.ApplyDelta` | crates/vrift-manifest/src/lmdb.rs:230-256 | The write loop, over the delta in any order, leaves the base equal to the visible map and a hashing path for every key. |
| `LmdbManifest.Manifest.Len` | crates/vrift-manifest/src/lmdb.rs:265-290 | The length is the cardinality of the visible map, computed without underflow. |
| `LmdbManifest.Manifest.Iter` | crates/vrift-manifest/src/lmdb.rs:300-333 | Iteration lists each visible entry once, with a path that hashes to its key. |
| `LmdbManifest.Manifest.Execute` | crates/vrift-manifest/src/lmdb.rs:149-262 | Any sequence of operations acts as it would on one plain map. |
| `LmdbManifest.MergedSize` | crates/vrift-manifest/src/lmdb.rs:265-290 | Base plus added less removed is the size of the merged map, and the removed are at most the base. |
| `LmdbHistory.GetAfter` | crates/vrift-manifest/src/lmdb.rs:149-262 | After any operations and commits a path is answered by its last insertion, unless it was removed since, and is stale exactly when it was marked since. |
| `LmdbHistory.GetInNew` | crates/vrift-manifest/src/lmdb.rs:149-262 | In a new manifest a path is absent exactly when a removal follows each of its insertions. |
| `IngestCache.CacheAgreesWithRehash` | crates/vrift-cas/src/zero_copy_ingest.rs:367-396 | Over every run of edits and scans with an empty prefix, the cached re-ingest leaves every scanned key with the content hash, size and mtime of re-hashing everything. |
| `IngestCache.CacheIsSafeExactly` | crates/vrift-cas/src/streaming_ingest.rs:219-246 | With a prefix, a file is always served as re-hashing would serve it exactly when its lookup key does not start with the stored prefix. |
| `IngestCache.ClashDisagrees` | crates/vrift-cas/src/streaming_ingest.rs:219-246 | When it does start with it, two concrete scans leave the file with its old hash and size. |
| `IngestCache.ModeAgreesExactly` | crates/vrift-cas/src/zero_copy_ingest.rs:367-396 | Over every run, the cached re-ingest leaves the mode that re-hashing would leave exactly when the file misses the cache or the manifest records its mode already. |
| `IngestCache.ModeIsTracked` | crates/vrift-cas/src/zero_copy_ingest.rs:367-396 | Told from the file's own scans: exactly when its mode is that of the first of its latest scans over which size and mtime stayed the same. |
| `IngestCache.ModeChangeIsMissed` | crates/vrift-cas/src/zero_copy_ingest.rs:367-396 | The smallest failing run: a change of mode alone between two scans. |
| `IngestCache.IngestOne` | crates/vrift-cas/src/zero_copy_ingest.rs:367-396 | One worker returns the cached hash exactly on a size and mtime match, and otherwise the hash of the content. |
| `IngestCache.LoadCache` | crates/vrift-daemon/src/main.rs:867-921 | The pre-loaded cache is the manifest as a map from paths. |
| `IngestCache.WriteIngestManifest` | crates/vrift-daemon/src/main.rs:1063-1097 | Writing the results that were not skipped and committing gives the manifest of the specification. |
| `IngestCache.IngestFullScan` | crates/vrift-daemon/src/main.rs:867-921 | The whole handler leaves the manifest that the specification of a cached ingest gives. |
| `IngestCache.WriteKeyExactly` | crates/vrift-daemon/src/main.rs:1057-1086 | A prefix counts without its trailing slashes, however many; "" and "/" are no prefix. |
| `IngestCache.IngestThenGet` | crates/vrift-daemon/src/main.rs:1063-1097 | What the manifest tells about a file after a scan, field by field: its content hash, size, mtime, mode, tier and no stale mark, or on a cache hit what its key held before. |
| `BlobNames.HexRoundTrip` | crates/vrift-cas/src/lib.rs:117-132 | The printed form of a hash parses back to it. |
| `BlobNames.HexToHash` | crates/vrift-cas/src/lib.rs:122-132 | The parsing loop agrees with the recursive definition, which accepts upper case and a leading plus as the library call does. |
| `BlobNames.FileNameRoundTrip` | crates/vrift-cas/src/lib.rs:149-185 | The name printed for a blob is recognised by the search for its hash and parsed by the iterator to the same hash, unless its extension makes it a temporary name. |
| `BlobNames.MatchParses` | crates/vrift-cas/src/lib.rs:846-853 | Any recognised name that is not temporary parses to the hash it was recognised for. |
| `BlobNames.ParsesExactly` | crates/vrift-cas/src/lib.rs:122-132 | Exactly the strings parse that are the printed form of a hash, up to letter case and a plus sign for a leading zero of a pair. |
| `BlobNames.DecimalRoundTrip` | crates/vrift-cas/src/lib.rs:149-185 | The printed size reads back as the size and has no leading zero. |
| `BlobNames.NamesExactly` | crates/vrift-cas/src/lib.rs:846-853 | Anything may follow the underscore of a recognised name, and a temporary name has something before ".tmp". |
| `Cas.StaysAddressedExactly` | crates/vrift-cas/src/lib.rs:193-307 | An operation keeps every non-temporary name telling its content exactly when it is not a cross-device move of new content whose copy fails half way. |
| `Cas.RunStaysAddressed` | crates/vrift-cas/src/lib.rs:193-368 | So over every run of operations without that failure, every blob's content hashes to the hash in its name. |
| `Cas.StoredIsReadableExactly` | crates/vrift-cas/src/lib.rs:193-242 | Data stored successfully can be read back, whatever the directory order, exactly when no unfinished temporary file of its hash was in the store. |
| `Cas.MovedIsReadableExactly` | crates/vrift-cas/src/lib.rs:265-307 | The same for a file moved into the store. |
| `Cas.StaysReadable` | crates/vrift-cas/src/lib.rs:193-368 | What can be read stays readable through every operation that removes no file of its hash. |
| `Cas.FailedWriteBlocksTheBlob` | crates/vrift-cas/src/lib.rs:210-222 | A write that fails early, then a second store of the same data: the second reports success and nothing in the store has the data. |
| `Cas.FailedWriteLosesMovedFile` | crates/vrift-cas/src/lib.rs:265-275 | After the same failed write, moving the file in reports success and takes the source away, and its content is in no file of the store. |
| `Cas.CasStore.FindBlobPath` | crates/vrift-cas/src/lib.rs:149-168 | The directory scan finds a file of the hash exactly when there is one. |
| `Cas.CasStore.Put` | crates/vrift-cas/src/lib.rs:193-242 | Storing, with its early returns and its best-effort clean-up, has the effect of `AfterStore`: a repeated store adds no file, and a temporary file that cannot be removed after a failed rename counts as the blob. |
| `Cas.CasStore.PutByMove` | crates/vrift-cas/src/lib.rs:265-307 | Moving in, with its early returns, has the effect of `AfterMove`; the source is left when the move fails or its best-effort removal does. |
| `Cas.CasStore.Get` | crates/vrift-cas/src/lib.rs:320-344 | Bytes returned hash to the requested hash and are a file's content; absent exactly when no file is recognised; readable data is what is returned. |
| `Cas.CasStore.Delete` | crates/vrift-cas/src/lib.rs:354-368 | Deleting removes one file recognised for the hash, and nothing when there is none. |
| `CasSweep.Visit` | crates/vrift-cas/src/lib.rs:498-517 | One yielded name leads to the deletion of one file of its hash exactly when the filter rejects the hash and it has a file. |
| `CasSweep.Sweep` | crates/vrift-cas/src/lib.rs:490-520 | A sweep removes only files of rejected hashes, of each as many as it was yielded; the count and the bytes reported are those of the files gone. |
| `CasSweep.OrphanIsGoneExactly` | crates/vrift-cas/src/lib.rs:490-520 | All files of a rejected hash are gone exactly when the store held no temporary file of that hash. |
| `CasSweep.TempSavesOrphan` | crates/vrift-cas/src/lib.rs:498-517 | A concrete store in which the sweep takes the temporary file and leaves the blob. |
| `CasSweep.CleanSweep` | crates/vrift-cas/src/lib.rs:490-520 | Without temporary files the sweep keeps exactly the blobs the filter accepts. |
| `CasSweep.AcceptedIsKept` | crates/vrift-cas/src/lib.rs:498-517 | A file of an accepted hash stays, with its content. |
| `CasSweep.YieldsBlobs` | crates/vrift-cas/src/lib.rs:826-894 | The iterator yields a hash once for each of its blobs. |
| `CasSweep.RebuildIndex` | crates/vrift-daemon/src/main.rs:743-760 | The rebuilt index maps every yielded hash that has a file to the size of one of its files. |
| `CasSweep.IndexIsExact` | crates/vrift-daemon/src/main.rs:743-760 | Without temporary files that index is exactly the surviving blobs with their sizes. |
| `Gc.ManifestRegistry.VerifyAll` | crates/vrift-cli/src/registry.rs:243-259 | Every entry is marked by whether its manifest exists, and the two counts are those of the marks. |
| `Gc.ManifestRegistry.PruneStale` | crates/vrift-cli/src/registry.rs:264-277 | Exactly the stale entries are removed, and counted. |
| `Gc.IterateHashes` | crates/vrift-manifest/src/lmdb.rs:300-333 | Iterating a database just opened shows exactly the rows before the first that does not decode and whose path is known, and fails exactly when a path lookup before it does. |
| `Gc.ManifestRegistry.GetAllBlobHashes` | crates/vrift-cli/src/registry.rs:280-314 | The result is the union of what reading the active existing manifests shows, or a failure exactly when one of them cannot be loaded. |
| `Gc.KeepSet` | crates/vrift-cli/src/gc.rs:46-83 | The keep set is what reading the manifests looked at shows; the registry keeps every entry with the status of its manifest, less those without one when pruning. |
| `Gc.ReadHashes` | crates/vrift-cli/src/registry.rs:280-314 | What reading a flat manifest or a database gives, told from its rows. |
| `Gc.KeepSetIsWholeExactly` | crates/vrift-manifest/src/lmdb.rs:321-329 | The keep set is what the manifests hold exactly when every hash at or behind the error of an iteration, and every one without a path, is also shown by some manifest looked at. |
| `Gc.VerifiedReferences` | crates/vrift-cli/src/gc.rs:46-77 | After verification, with or without pruning, the collected hashes are those that reading any registered existing manifest shows. |
| `Gc.BuildFilter` | crates/vrift-cli/src/gc.rs:85-90 | The bits are those of a filter of exactly the keep set, whatever the order. |
| `Gc.Collect` | crates/vrift-cli/src/gc.rs:35-142 | A run fails before deleting exactly when a manifest cannot be loaded; otherwise no file of a hash that reading the manifests shows is touched, nor of any they hold when nothing is lost in reading, and count and bytes are the difference. |
| `Gc.LosesReferencedBlob` | crates/vrift-manifest/src/lmdb.rs:321-329 | A manifest of two entries whose second does not decode: a confirmed collection deletes the blob of the second, given hashes that the filter tells apart. |
| `FilterGap.SomeAreApart` | crates/vrift-cas/src/lib.rs:605-617 | Such hashes exist: of any three that differ in the last byte as 0, 1 and 2, the filter of the first rejects one of the others. |
| `Pipeline.StepConserves` | crates/vrift-cas/src/streaming_pipeline.rs:107-145 | Every step keeps outstanding permits plus available bytes equal to the budget. |
| `Pipeline.StepStages` | crates/vrift-cas/src/streaming_pipeline.rs:242-347 | Every step keeps every claimed path in exactly one stage, and any other in none. |
| `PipelineRuns.StepBatchFits` | crates/vrift-cas/src/streaming_pipeline.rs:530-595 | Every step keeps the batch within its bound at each point of the committer's loop. |
| `PipelineRuns.EveryStep` | crates/vrift-cas/src/streaming_pipeline.rs:490-595 | In every run, at every point: one stage per claimed path, the budget conserved, and a batch of at most one file more than its size, or than one when its size is zero. |
| `PipelineRuns.AtTheEnd` | crates/vrift-cas/src/streaming_pipeline.rs:490-595 | When a run ends, with at least one worker every walked path was committed or given up once, all permits are back, files processed equals blobs added plus files deduplicated, and every committed file has its blob. |
| `PipelineRuns.BatchBoundExactly` | crates/vrift-cas/src/streaming_pipeline.rs:530-595 | In every run the batch holds at most one file above its size exactly when that size is at least one. |
| `PipelineRuns.ZeroBatchHoldsTwo` | crates/vrift-cas/src/streaming_pipeline.rs:530-560 | With a batch size of zero some run has two files in the batch. |
| `PipelineEnds.EndsFromExactly` | crates/vrift-cas/src/streaming_pipeline.rs:490-604 | From every moment of every run with a worker in which each file in flight can be committed, some continuation ends exactly when no file still to be read demands more than the whole budget, and then one that reads every file left whole, whatever it holds, and gives up none. |
| `PipelineEnds.SteadyRunEndsExactly` | crates/vrift-cas/src/streaming_pipeline.rs:490-604 | That covers every run in which no file changes and no commit failed, when small contents that share four bytes of hash belong to the same blob. |
| `PipelineEnds.FinishesExactly` | crates/vrift-cas/src/streaming_pipeline.rs:597-605 | Some run ends exactly when no walked file demands more than the whole budget, or without workers exactly when the items and the end mark fit the channel; with workers some run then ends with every file committed. |
| `PipelineEnds.PendingNeverEnds` | crates/vrift-cas/src/streaming_pipeline.rs:119-130 | Once such a file is still to be read, no continuation ends: it stays untaken or its worker waits. |
| `PipelineEnds.EndsAccountedExactly` | crates/vrift-cas/src/streaming_pipeline.rs:490-605 | Every run that ends has committed or given up every walked path exactly when there is a worker, nothing is walked, or what is walked does not fit the channel. |
| `PipelineContent.StoreIsAddressedExactly` | crates/vrift-cas/src/streaming_pipeline.rs:242-363 | Every run without a failing write leaves every added blob that no worker is still writing named by its hash exactly when small contents that share the first four bytes of their hashes share the hash. |
| `PipelineContent.ClashSpoilsBlob` | crates/vrift-cas/src/streaming_pipeline.rs:351-360 | Two small contents that share those bytes and not the hash: a run of one worker stores one under the other's hash. |
| `PipelineContent.TornIsSafeExactly` | crates/vrift-cas/src/streaming_pipeline.rs:292-311 | With failing writes, or at every moment, the same holds of every blob exactly when, besides, no part of a small content has another hash than the whole. |
| `PipelineContent.PartIsStored` | crates/vrift-cas/src/streaming_pipeline.rs:305-307 | Two equal small files: the second truncates the shared temporary file, which is renamed while it is open, so that the blob holds a part for a while. |
| `PipelineContent.TornWriteSpoilsBlob` | crates/vrift-cas/src/streaming_pipeline.rs:292-312 | A failed write of an equal file truncates the shared temporary file: a run stores a part of the content under the hash of the whole. |
| `PipelineMissing.NoTempIsMissingExactly` | crates/vrift-cas/src/streaming_pipeline.rs:396-441 | While no file changes, whatever writes fail, no commit misses its temporary file exactly when small contents that share four bytes of hash belong to the same blob. |
| `PipelineMissing.ClashLosesTemp` | crates/vrift-cas/src/streaming_pipeline.rs:416-430 | Otherwise a run of one worker commits the first file and misses the second one's temporary file. |
| `PipelineFlight.SameTempExactly` | crates/vrift-cas/src/streaming_pipeline.rs:317-363 | Two small files share a temporary name exactly when one worker reads both and their hashes begin with the same four bytes; a large file's name is its own. |
| `PipelineHandles.HandlesFollow` | crates/vrift-cas/src/streaming_pipeline.rs:292-430 | At every moment of every run the file behind each writer's handle holds exactly the bytes written so far, under its temporary name or as the blob it was renamed to, and no two handles lead to one blob. |
| `PipelineChannels.ChannelsBounded` | crates/vrift-cas/src/streaming_pipeline.rs:478-479 | Neither channel ever holds more than its capacity; of capacity zero, at most the one item being handed over. |
| `PipelineChannels.OneSentinel` | crates/vrift-cas/src/streaming_pipeline.rs:500-513 | When no file has the empty path, at most one sentinel is ever in the commit channel, and none before a worker has taken the end mark. |
| `PipelineChannels.ExitExactly` | crates/vrift-cas/src/streaming_pipeline.rs:500-513 | A worker that takes the end mark leaves a sentinel in the commit channel exactly when it gets it in before the time-out. |
| `PipelineChannels.ReceivedExactly` | crates/vrift-cas/src/streaming_pipeline.rs:543-560 | The committer passes over a file without size and path; any other one joins the batch and the count. |
| `PipelineDiscard.DiscardIsSafeExactly` | crates/vrift-cas/src/streaming_pipeline.rs:270-280 | With files that may be found modified, no commit over a tree misses its temporary file exactly when no two small files share four bytes of hash. |
| `PipelineDiscard.DiscardLosesTemp` | crates/vrift-cas/src/streaming_pipeline.rs:270-280 | Otherwise, in a run over that very tree, the second file's discard takes the first one's temporary file. |
| `PipelineCommitter.BatchCommitter.Commit` | crates/vrift-cas/src/streaming_pipeline.rs:396-441 | The renaming loop has the effect of `Renamed` and reports the count and duplicates, or an error. |
| `PipelineCommitter.RenamedStores` | crates/vrift-cas/src/streaming_pipeline.rs:412-430 | A batch that goes through loses no blob, leaves one for every file, and blobs added plus duplicates are the files. |
| `PipelineCommitter.CommitStepsAgree` | crates/vrift-cas/src/streaming_pipeline.rs:396-441 | Without workers in between, the pipeline's commit steps do what the method does. |
| `FuseTree.VeloFs.InitFromManifest` | crates/vrift-fuse/src/lib.rs:65-129 | The loop gives the paths consecutive inodes with their attributes, and every directory its children in order, for any sorted manifest of normalised paths. |
| `FuseTree.VeloFs.Lookup` | crates/vrift-fuse/src/lib.rs:177-197 | Lookup answers with the attributes of the first child of that name. |
| `FuseTree.ParentLess` | crates/vrift-fuse/src/lib.rs:80-82 | A parent sorts before its children. |
| `FuseWalk.InodesAreDistinct` | crates/vrift-fuse/src/lib.rs:84-104 | No two paths share an inode, and an inode carries its own number and its path's content hash. |
| `FuseWalk.WalkReachesExactly` | crates/vrift-fuse/src/lib.rs:177-197 | Looking up the names of a path from inode 1 reaches that path's inode exactly when every prefix of it is in the manifest, and nothing otherwise. |
| `FuseWalk.ClosedIsReached` | crates/vrift-fuse/src/lib.rs:106-127 | In a parent-closed manifest the walk reaches every listed path and nothing else. |
| `FuseWalk.Open` | crates/vrift-fuse/src/lib.rs:177-197 | Looking up one name after another from inode 1 answers with the attributes of the inode that the walk reaches. |
| `FuseWalk.MountAndOpen` | crates/vrift-fuse/src/lib.rs:65-197 | Mounting a manifest and looking up a path name by name shows size, blocks, mtime, permissions, kind and link count of its own entry exactly when the path and every directory on the way are in the manifest, and nothing otherwise. |
| `FuseWalk.RootShows` | crates/vrift-fuse/src/lib.rs:65-79 | The root is inode 1, an empty directory with two links and mode 0755. |
| `FuseWalk.Readdir` | crates/vrift-fuse/src/lib.rs:240-284 | One reply has the entries of `Page`. |
| `FuseWalk.ListsAllExactly` | crates/vrift-fuse/src/lib.rs:240-284 | Paging lists the dot entries and every child once, in order, exactly when the first buffer takes both dot entries, given that later ones take at least one entry. |
| `FuseWalk.EntriesAre` | crates/vrift-fuse/src/lib.rs:240-284 | Entry by entry: "." with the directory's own inode, ".." with inode 1, and then each child's inode and name with the offset at which the next child starts. |
| `FuseWalk.ResumesExactly` | crates/vrift-fuse/src/lib.rs:256-282 | Resuming from an entry's offset gives exactly the entries after it, unless the entry is the first. |
| `FuseWalk.ListingNamesEachChild` | crates/vrift-fuse/src/lib.rs:106-127 | A directory's children of a given name are the inode of exactly that path, and no child occurs twice. |
| `Frames.HeaderRoundTrip` | crates/vrift-ipc/src/lib.rs:122-142 | A header whose numbers fit 32 bits reads back as it was written. |
| `Frames.StreamRoundTrip` | crates/vrift-ipc/src/lib.rs:252-278 | Any list of messages with any heartbeats between them is read back as those messages with their sequence numbers, in order, up to the end of the stream. |
| `Frames.FrameLaidOut` | crates/vrift-ipc/src/lib.rs:52-142 | Where the magic, the type and version, the flags, the length, the number and the payload of a frame stand, byte by byte. |
| `Frames.ParsesExactly` | crates/vrift-ipc/src/lib.rs:220-278 | What one read makes of every stream, told from its bytes: which error, what is skipped, which message and what is left. |
| `Frames.ReadTakesOneMessage` | crates/vrift-ipc/src/lib.rs:252-278 | One read takes exactly the frames up to and including the next message, past any heartbeats. |
| `Frames.Sender.SendRequest` | crates/vrift-ipc/src/lib.rs:165-188 | A request appends one frame under a fresh sequence number, or is refused for its size with nothing written. |
| `Frames.Sender.SendHeartbeat` | crates/vrift-ipc/src/lib.rs:310-318 | A heartbeat appends one frame of length zero. |
| `Frames.ReadHeader` | crates/vrift-ipc/src/lib.rs:220-249 | A header is read and validated, with the error the first failing test gives. |
| `Frames.ReadMessage` | crates/vrift-ipc/src/lib.rs:252-278 | The reading loop computes `Parse` and leaves the rest of the stream. |
| `Frames.Exchange` | crates/vrift-ipc/src/lib.rs:165-278 | Whatever mix of requests and heartbeats is sent, the peer reads exactly the requests that were not refused, with their numbers and in order, and then the end of the stream. |
| `Frames.SendAll` | crates/vrift-ipc/src/lib.rs:165-188 | A run of sends puts exactly its numbered frames on the stream. |
| `Frames.NumbersInTurn` | crates/vrift-ipc/src/lib.rs:150-157 | The k-th frame sent is that of the k-th request or heartbeat not refused, under the k-th number after the first, modulo 2^32. |
| `Frames.WriteAll` | crates/vrift-inception-layer/src/raw_context.rs:119-134 | Under every schedule of short writes all is written exactly when calls that make progress allow it together; otherwise exactly what they allowed up to the first that makes none. |
| `Frames.ReadExact` | crates/vrift-inception-layer/src/raw_context.rs:137-151 | Under every schedule of short reads a prefix of the stream moves into the buffer and the rest of the buffer is untouched; it succeeds when full, and fails only at the end of the stream or at a call that makes no progress. |
| `LockManager.TryIsReference` | crates/vrift-daemon/src/main.rs:195-233 | A request is granted exactly when it is compatible with the other holders; granted, it changes only the requester's hold, to the requested one; refused, nothing. |
| `LockManager.Manager.TryAcquire` | crates/vrift-daemon/src/main.rs:195-233 | The method does that on its path and leaves every other path as it was; with the exclusive bit set it leaves an exclusive hold, with the shared bit alone a shared one, and with neither it is an error. |
| `LockManager.Manager.Release` | crates/vrift-daemon/src/main.rs:235-250 | Releasing ends that process's hold on that path only. |
| `LockManager.Manager.Serve` | crates/vrift-daemon/src/main.rs:696-742 | After any requests by anyone a path with an exclusive owner has no other holder, and paths not named are unchanged. |
| `CircuitBreaker.Breaker.Call` | crates/vrift-inception-layer/src/ipc.rs:129-176 | A call connects exactly when fewer than the limit of connects in a row have failed since the last success or recovery, or the delay has passed; the circuit is open exactly at the limit. |
| `CircuitBreaker.NoConnectWhileOpen` | crates/vrift-inception-layer/src/ipc.rs:276-318 | In every run no connect happens between the failure that reached the limit and the end of the delay. |
| `CircuitBreaker.StreakIsRun` | crates/vrift-inception-layer/src/ipc.rs:154-176 | The counted streak is a run of failed connects at the end, started by a success, a recovery or the beginning. |
| `Packfile.PackWriter.Add` | crates/vrift-pack/src/lib.rs:211-222 | Adding records the blob behind those before it. |
| `Packfile.PackWriter.Finish` | crates/vrift-pack/src/lib.rs:225-253 | The finished file is header, index and data, with the header written last. |
| `Packfile.HeaderRoundTrip` | crates/vrift-pack/src/lib.rs:60-80 | The 32-byte header reads back as it was written. |
| `Packfile.PackRoundTrip` | crates/vrift-pack/src/lib.rs:118-165 | Opening a finished pack answers, for every hash, with the bytes of its last add, and with nothing for a hash never added. |
| `Packfile.WriteAndGet` | crates/vrift-pack/src/lib.rs:118-253 | Writing any blobs and looking up a hash gives the bytes of the last blob with it, or that there is none. |
| `Packfile.ImageLaidOut` | crates/vrift-pack/src/lib.rs:60-80 | Where magic, version, count, the two offsets, the index and the data of a finished pack stand. |
| `Packfile.OpensExactly` | crates/vrift-pack/src/lib.rs:118-150 | A file opens exactly when its magic and version are right, the index range lies inside it and the index decodes. |

## Left out

- Reflinks, hard-link inode sharing, permissions, immutable flags, flock and fsync: every other file-system call is one step that succeeds or fails.
- Interposed system calls, the C bridge, the file-descriptor table and the virtual-directory daemon: foreign code and ABI, or not part of this model.
- Concurrent use of one manifest or one store object: the manifest, the store and the breaker are modelled for sequential runs.
- Lock wake-ups: the source does not guarantee them, so only who may hold what is stated.
- Command line, configuration, doctor, service installation, mounts and isolation: user interface.
- Tier classification, ignore patterns, session files and the ingest queue's transition table: each is settled by reading one function.
- The dry run of garbage collection: it only counts.
- The asynchronous frame functions: the same framing as the synchronous ones.
- `read` of the FUSE file system: a slice of what the store returns.
- CasSweep.Sweep: the iterator is taken to visit the files present when it starts; a directory listing that loses entries while files are deleted is not modelled.
- Cas.CasStore.Put: one store call at a time; a concurrent store of the same data appears only as the temporary file it leaves.
- LmdbManifest.Manifest.Iter: reading the base is taken to succeed; an iteration that meets an error is `Gc.IterateHashes`.
- Pipeline.StepStages: the scanner is taken to start its watcher; one that cannot sends neither items nor the end mark.
- IngestProtocol.StoreStaysAddressed: what two copies into one target leave between their writes is any bytes no longer than the content.
- Frames.Sender.SendRequest: also stands for sending a response, which echoes the request's number instead of drawing one.
- Packfile.PackRoundTrip: a header whose index range lies outside the file makes the source panic; here opening it is invalid. The index ends below 2^64.
- FuseTree.VeloFs.InitFromManifest: sorting the paths is a library call, so the sorted list is an input.
- PathResolver.ResolvesExactlyInside: the Linux branch, and fixed strings that do not truncate.
