# libamdrdf chunk container, modelled in Dafny

libamdrdf stores named, versioned, optionally compressed chunks in one
seekable container. Each chunk has a header and a data payload. A trailing
index makes random access possible. This project models and proves:

- An in-memory seekable stream (`MemoryStreams`). It is a byte buffer and
  a cursor, driven by Write, Read, Tell, Seek and GetSize callbacks.
- The rule that decides whether an embedder's callback table becomes a
  stream (`UserStreams`).
- The chunk index and its per-identifier numbering (`ChunkIndex`). Every
  chunk of an identifier gets the next index `0, 1, 2, ...` in write order.
  Lookups and counts are derived from that numbering.
- The reader (`ChunkFiles`). It covers existence, count, version, header
  and data queries by `(identifier, index)`, the index-less version query,
  and a forward iterator. The stream a container lives in is a class that
  holds either a complete container or none.
- The writer (`ChunkFileWriters`). It covers single-call `WriteChunk`, the
  streamed `BeginChunk`/`EndChunk`, `Close`, and the Create and Append
  open modes. On Close the index is flushed to the stream. `AppendToChunk`
  stands for the engine's call that streams data into the open chunk.
  Neither the tests nor `rdfm` call it, so it has no row below.
- End-to-end writer/reader behaviours on a fresh stream (`Scenarios`).
- The `rdfm` merge tool (`Merge`). It collects both inputs' identifier sets
  by iteration and refuses to merge when they intersect. Otherwise it
  copies every chunk of the first input, then of the second, into one new
  container.

The engine's own implementation is not part of this model. Its semantics
are taken from the assertions in `rdf/test/src/RDF_test.cpp` and
`rdf/test/src/IO_test.cpp`, and the merge from `rdfm/src/rdfm.cpp`. The
container is modelled as its ordered sequence of chunk descriptors, each
carrying its header and data bytes.

Files:

- `types.dfy`: bytes, `uint32`, `Option`, `Result` and `Status`, and the
  error kinds.
- `memory_stream.dfy`, `user_stream.dfy`: the two stream parts.
- `chunk_index.dfy`: the index, numbering, lookups, and the 16-character
  identifier field.
- `chunk_file.dfy`: the container stream, the reader and the iterator.
- `chunk_file_writer.dfy`: the writer.
- `scenarios.dfy`: the test scenarios as methods with exact results.
- `merge.dfy`: `GetChunkIdentifiers`, `CopyChunks` and `MergeChunkFiles`.

## Model

| member | source | states |
|---|---|---|
| MemoryStreams.Resized | rdf/test/src/IO_test.cpp:20 | `vector::resize(n)`: the length is n, bytes below both lengths are kept, and growth is zero-filled |
| MemoryStreams.Written | rdf/test/src/IO_test.cpp:20-22 | after a write at `offset` the buffer is `offset + count` long, holds the written bytes from `offset`, keeps the old bytes before `offset` (zeros where it was shorter), and has nothing after them |
| MemoryStreams.OverwriteTruncates | rdf/test/src/IO_test.cpp:17-22 | a write that ends inside the buffer keeps the bytes before the cursor, then the new bytes, and drops the old tail, so the buffer gets shorter |
| MemoryStreams.MemoryStream.constructor | rdf/test/src/IO_test.cpp:13-14 | a new stream has cursor 0 and an empty buffer |
| MemoryStreams.MemoryStream.Write | rdf/test/src/IO_test.cpp:17-29 | the buffer becomes `Written(old buffer, old cursor, data[..count])`; the cursor advances by count; `bytesWritten == count`; the result is ok |
| MemoryStreams.MemoryStream.Read | rdf/test/src/IO_test.cpp:31-43 | returns `min(count, size - cursor)` bytes starting at the cursor, advances the cursor by that many, never passes the end, and leaves the buffer unchanged |
| MemoryStreams.MemoryStream.Tell | rdf/test/src/IO_test.cpp:45-50 | returns the cursor |
| MemoryStreams.MemoryStream.Seek | rdf/test/src/IO_test.cpp:52-57 | sets the cursor to the given position exactly and leaves the buffer unchanged |
| MemoryStreams.MemoryStream.GetSize | rdf/test/src/IO_test.cpp:59-64 | returns the buffer length |
| MemoryStreams.WriteSeekRead | rdf/test/src/IO_test.cpp:71-83 | writing n bytes to a fresh stream gives Tell == n; after Seek(0), reading n bytes returns exactly those bytes. This is proved for the callback stream of lines 11-64. The test runs on the library's own `CreateMemoryStream` (line 69), which is only taken to behave the same |
| UserStreams.CreateFromUserStream | rdf/test/src/IO_test.cpp:252-321 | creation succeeds iff Read or Write is present and Seek, Tell and GetSize all are; a refusal is an invalid-argument status with a null handle |
| UserStreams.RequiredFunctions | rdf/test/src/IO_test.cpp:263-320 | each section of the test: write-only, read-only and read-write tables are accepted; no Read and no Write gives a null handle; a missing Seek, Tell or GetSize gives a non-ok status and a null handle |
| UserStreams.CloseIsOptional | rdf/test/src/IO_test.cpp:255-261 | whether Close is supplied never changes the outcome |
| UserStreams.AddingCallbacksKeepsAcceptance | rdf/test/src/IO_test.cpp:263-296 | an accepted table stays accepted when more callbacks are supplied |
| ChunkIndex.AppendNumbered | rdf/test/src/RDF_test.cpp:104-109 | adding a chunk keeps the existing index and appends one entry under the chunk's identifier, whose index is the number of earlier chunks with that identifier |
| ChunkIndex.CountAfterAppend | rdf/test/src/RDF_test.cpp:50-62 | adding a chunk raises its own identifier's count by one and leaves every other count unchanged |
| ChunkIndex.AppendNumberedKeepsNumbering | rdf/test/src/RDF_test.cpp:104-109 | adding a chunk keeps the index well numbered: each entry's index counts the earlier entries with its identifier |
| ChunkIndex.AppendAllKeepsNumbering | rdf/test/src/RDF_test.cpp:219-239 | any sequence of writes onto a well-numbered index, including one taken over in append mode, keeps it well numbered |
| ChunkIndex.AppendAllNumbersInOrder | rdf/test/src/RDF_test.cpp:104-109 | n writes under one identifier get indices `Count, Count+1, ...` in call order, raise the count by n, and keep the old index as a prefix |
| ChunkIndex.AppendNumberedIgnoresIndex | rdf/test/src/RDF_test.cpp:104-109 | the writer assigns the index itself, so requests that differ only in their index are stored alike |
| ChunkIndex.AppendAllFreshIdentifiers | rdfm/src/rdfm.cpp:101-102 | requests numbered among themselves, under identifiers the index does not hold yet, are stored unchanged after the index |
| ChunkIndex.IndicesIncrease | rdf/test/src/RDF_test.cpp:20-22 | in a well-numbered index the indices of one identifier strictly increase in write order, so no key occurs twice |
| ChunkIndex.FindChunk | rdf/test/src/RDF_test.cpp:20-22 | finds the first position holding the key `(id, index)`, or none exactly when no chunk holds it |
| ChunkIndex.FindFirst | rdf/test/src/RDF_test.cpp:16-24 | finds the first position with the identifier, or none exactly when no chunk carries it |
| ChunkIndex.HasKeyIffBelowCount | rdf/test/src/RDF_test.cpp:20-22 | in a well-numbered index, the key `(id, index)` exists iff `0 <= index < Count(id)` |
| ChunkIndex.CountPositiveIff | rdf/test/src/RDF_test.cpp:16-24 | the count of an identifier is positive iff some chunk carries it |
| ChunkIndex.IdentifiersIff | rdfm/src/rdfm.cpp:13-37 | an identifier is in the identifier set iff its count is positive |
| ChunkIndex.FindChunkAtPosition | rdf/test/src/RDF_test.cpp:45-47 | looking up the key of the chunk at position k finds position k |
| ChunkIndex.FirstInsertedIsIndexZero | rdf/test/src/RDF_test.cpp:33 | in a well-numbered index, the first chunk under an identifier is the one with index 0 |
| ChunkIndex.Padded | rdfm/src/rdfm.cpp:26 | the 16-character identifier field is the name followed by NUL padding |
| ChunkIndex.CString | rdfm/src/rdfm.cpp:28 | `std::string(buffer)` is the longest NUL-free prefix, stopped by a NUL when shorter than the buffer |
| ChunkIndex.TerminatedField | rdfm/src/rdfm.cpp:24-28 | the field copied into a zeroed buffer one character longer reads back as the identifier, also when it fills all 16 characters |
| ChunkFiles.ContainerStream.constructor | rdf/test/src/RDF_test.cpp:38 | a fresh memory stream holds no container |
| ChunkFiles.ChunkFile.ContainsChunk | rdf/test/src/RDF_test.cpp:16-24 | holds exactly when some chunk carries the identifier; `ContainsChunkIffCountPositive` ties it to the count |
| ChunkFiles.ChunkFile.GetChunkCount | rdf/test/src/RDF_test.cpp:60-61 | the number of chunks under the identifier: at most the container's size, and positive exactly when `ContainsChunk(id)` holds |
| ChunkFiles.ChunkFile.GetChunkVersion | rdf/test/src/RDF_test.cpp:46-47 | succeeds exactly when the key is present and answers with the version of a stored chunk with that key. A negative index is an argument error, any other absent key not-found. `ReadAtPosition` gives the chunk at each position, `LookupSucceedsIffPresent` the indices below the count |
| ChunkFiles.ChunkFile.GetChunkVersionFirst | rdf/test/src/RDF_test.cpp:33 | succeeds exactly when the identifier is present, with the version of the first chunk that carries it. `VersionWithoutIndexIsIndexZero` shows that chunk is index 0 in every writer-made container |
| ChunkFiles.ChunkFile.GetChunkHeaderSize | rdfm/src/rdfm.cpp:55-57 | the length of exactly the header `ReadChunkHeader` returns, or the same error, so the buffer resized to it takes the header |
| ChunkFiles.ChunkFile.GetChunkDataSize | rdfm/src/rdfm.cpp:59-61 | the length of exactly the data `ReadChunkData` returns, or the same error |
| ChunkFiles.ChunkFile.ReadChunkHeader | rdfm/src/rdfm.cpp:57 | succeeds exactly when the key is present, with the header of a stored chunk with that key; fails as `GetChunkVersion` does otherwise |
| ChunkFiles.ChunkFile.ReadChunkData | rdf/test/src/RDF_test.cpp:26-31 | succeeds exactly when the key is present, with the data of a stored chunk with that key; fails as `GetChunkVersion` does otherwise |
| ChunkFiles.ChunkFile.ContainsChunkAt | rdf/test/src/RDF_test.cpp:20-22 | a negative index is an argument error; otherwise the answer is whether the key exists |
| ChunkFiles.ChunkFile.Lookup | rdf/test/src/RDF_test.cpp:45-47 | returns a descriptor of the index with exactly that key; fails with not-found when the key is absent, or invalid-argument when the index is negative |
| ChunkFiles.OpenStream | rdf/test/src/RDF_test.cpp:214 | opening a stream yields its container, or a format error when it holds none |
| ChunkFiles.ChunkFileIterator.constructor | rdf/test/src/RDF_test.cpp:71 | the iterator starts on the first entry |
| ChunkFiles.ChunkFileIterator.IsAtEnd | rdf/test/src/RDF_test.cpp:72 | on a valid iterator, true exactly when no entry is left to visit; `CountByIteration` shows the loop that tests it visits every entry once |
| ChunkFiles.ChunkFileIterator.Advance | rdf/test/src/RDF_test.cpp:72-75 | moves to the next entry, and stays put at the end |
| ChunkFiles.ChunkFileIterator.GetChunkIdentifier | rdfm/src/rdfm.cpp:49-50 | copies the padded 16-character identifier field of the current entry |
| ChunkFiles.ChunkFileIterator.GetChunkIndex | rdfm/src/rdfm.cpp:52 | returns the current entry's index |
| ChunkFiles.CountByIteration | rdf/test/src/RDF_test.cpp:64-78 | stepping until IsAtEnd counts exactly the number of chunks |
| ChunkFiles.ContainsChunkAtIffBelowCount | rdf/test/src/RDF_test.cpp:20-22 | `ContainsChunk(id, index)` holds iff `0 <= index < GetChunkCount(id)` |
| ChunkFiles.ContainsChunkIffCountPositive | rdf/test/src/RDF_test.cpp:16-24 | `ContainsChunk(id)` holds iff `GetChunkCount(id) > 0` |
| ChunkFiles.LookupSucceedsIffPresent | rdf/test/src/RDF_test.cpp:26-31 | GetChunkVersion and ReadChunkData succeed iff the index lies below the identifier's count |
| ChunkFiles.ReadAtPosition | rdfm/src/rdfm.cpp:52-61 | asked for the key of the chunk at position k, the version, header size, data size, header and data queries answer with that chunk's values |
| ChunkFiles.VersionWithoutIndexIsIndexZero | rdf/test/src/RDF_test.cpp:33 | in every container a writer produces, the index-less `GetChunkVersion(id)` equals `GetChunkVersion(id, 0)` |
| ChunkFiles.VersionWithoutIndexIgnoresIndex | rdf/test/src/RDF_test.cpp:33 | in an index whose first entry under "c" has index 1, the index-less query answers from that first entry (5), not from index 0 (7) |
| ChunkFileWriters.ChunkFileWriter.Open | rdf/test/src/RDF_test.cpp:198-212 | Create starts an empty index and discards the stream's container; Append takes over the existing chunks, or fails with a format error when there are none |
| ChunkFileWriters.ChunkFileWriter.WriteChunk | rdf/test/src/RDF_test.cpp:104-109 | succeeds iff both sizes are non-negative and no streamed chunk is open on an open writer; returns the count of earlier chunks under the identifier; appends the chunk numbered as AppendNumbered; a refusal is an argument error that changes nothing |
| ChunkFileWriters.ChunkFileWriter.BeginChunk | rdf/test/src/RDF_test.cpp:94-97 | opens one streamed chunk with no data; refuses a negative header size, a second open chunk, or a closed writer |
| ChunkFileWriters.ChunkFileWriter.EndChunk | rdf/test/src/RDF_test.cpp:126-131 | appends the open chunk numbered as WriteChunk does and returns its index; refuses a call with no open chunk |
| ChunkFileWriters.ChunkFileWriter.Close | rdf/test/src/RDF_test.cpp:40-45 | flushes the index: afterwards the stream holds exactly the chunks written; refuses a second close or a close with a chunk still open |
| Scenarios.VersionsByIndex | rdf/test/src/RDF_test.cpp:36-48 | two chunks under "chunk0" with versions 1 and 2 read back with versions 1 and 2 by index |
| Scenarios.CountsByIdentifier | rdf/test/src/RDF_test.cpp:50-62 | GetChunkCount is 2 for "chunk0" and 0 for "chunk1" |
| Scenarios.IndicesInWriteOrder | rdf/test/src/RDF_test.cpp:104-109 | two WriteChunk calls return 0 then 1; `(id, 0)` and `(id, 1)` exist, `(id, 2)` does not, and an identifier never written is absent |
| Scenarios.MaximumNameLength | rdf/test/src/RDF_test.cpp:85-102 | a 16-character identifier is counted once under its full name, via WriteChunk and via BeginChunk/EndChunk (index 0) |
| Scenarios.NegativeSizes | rdf/test/src/IO_test.cpp:136-150 | a negative header size and a negative data size are each refused with an argument error, and nothing is added |
| Scenarios.AppendKeepsChunks | rdf/test/src/RDF_test.cpp:198-217 | after an append session, both the old "chunk0" and the new "chunk1" are contained |
| Scenarios.AppendContinuesNumbering | rdf/test/src/RDF_test.cpp:219-239 | in append mode the next chunk under an existing identifier gets index 1, and `(id, 0)` and `(id, 1)` both exist |
| Scenarios.AppendSessionsNumberContiguously | rdf/test/src/RDF_test.cpp:219-239 | N chunks, then M more in an append session, under one identifier are numbered 0 .. N+M-1 |
| Merge.Codec | rdfm/src/rdfm.cpp:68 | the copy asks for Zstd exactly when `compress` is set, and for no compression otherwise |
| Merge.Transfer | rdfm/src/rdfm.cpp:63-68 | a copied chunk keeps its identifier, index, header and data; its codec is Zstd iff `compress`; its version is the source's only when passed on |
| Merge.TransferAll | rdfm/src/rdfm.cpp:44-71 | one copy per source chunk, in iteration order |
| Merge.GetChunkIdentifiers | rdfm/src/rdfm.cpp:13-37 | walking the iterator from start to end collects exactly the identifier set of the container |
| Merge.ReadEntry | rdfm/src/rdfm.cpp:49-61 | the identifier, index, version, header size, header, data size and data read for the current entry are those of that entry |
| Merge.CopyEntry | rdfm/src/rdfm.cpp:49-70 | one loop pass appends the current entry's copy through the writer and advances the iterator by one |
| Merge.CopyChunks | rdfm/src/rdfm.cpp:39-72 | as written: the writer's index afterwards is its old index with the copies of every source chunk appended through WriteChunk in order, each with the default version |
| Merge.CopyChunksPreservingVersion | rdfm/src/rdfm.cpp:39-72 | the same loop with the version read passed on: every copy keeps its source version |
| Merge.CopiedPrefixIsAppendAll | rdfm/src/rdfm.cpp:44-71 | copying the first n chunks one pass at a time equals the writer appending their n copies |
| Merge.MergeChunkFiles | rdfm/src/rdfm.cpp:74-108 | returns 1 iff the identifier sets intersect, leaving the output unchanged. Otherwise it returns 0, and the output holds exactly the copies of input 1 followed by those of input 2, each under its source index. With `keepVersion` false the copies go through CopyChunks as written; with it true they go through the corrected copy |
| Merge.Merged | rdfm/src/rdfm.cpp:101-102 | the merged index has one entry per chunk of the two inputs |
| Merge.MergedIsAppendAll | rdfm/src/rdfm.cpp:99-102 | with disjoint identifier sets, writing input 1's copies and then input 2's into a fresh writer stores exactly the merged index |
| Merge.RefusedIffSharedIdentifier | rdfm/src/rdfm.cpp:85-96 | the identifier sets intersect iff some chunk of input 1 and some chunk of input 2 carry the same identifier |
| Merge.CountTransferred | rdfm/src/rdfm.cpp:63-68 | copying keeps every identifier's count |
| Merge.TransferKeepsNumbering | rdfm/src/rdfm.cpp:63-68 | the copies of a well-numbered index are well numbered |
| Merge.CopyIntoDisjoint | rdfm/src/rdfm.cpp:101-102 | when no source identifier is already in the output, the writer stores the copies with their source indices, right after the output's chunks |
| Merge.DisjointCounts | rdfm/src/rdfm.cpp:85-102 | with disjoint identifier sets, no identifier of input 2 occurs among the copies of input 1 |
| Merge.MergedWellNumbered | rdfm/src/rdfm.cpp:98-105 | a merged container is well numbered |
| Merge.MergedAt | rdfm/src/rdfm.cpp:101-102 | position k of the merged index holds the k-th chunk of the inputs taken in order, under the requested codec. It keeps its own version when `keepVersion` holds (the corrected copy) and has version 0 otherwise (the code as written) |
| Merge.MergedKeepsKeys | rdfm/src/rdfm.cpp:101-105 | in the merged container, every `(id, index)` key of either input reads back that chunk's header and data in both cases. It reads back the chunk's version only with `keepVersion` (the corrected copy); as written it reads back version 0 |
| Merge.CopyChunksDropsVersion | rdfm/src/rdfm.cpp:53 | a source chunk of version 3 is copied, as written, with version 0 |
| Merge.CopyPreservingVersionKeepsChunks | rdfm/src/rdfm.cpp:53-68 | with the version passed on, every copy equals its source chunk except for the codec tag |

## Left out

- The engine's byte layout: the container header, the header and data
  blocks, the index block, the footer and all byte offsets. The container
  is its descriptor sequence.
- The Zstd codec. Compression is a tag. Data reads back as written, and
  compressed sizes are not modelled.
- File-backed streams (`rdf::ChunkFile(path)`, `Stream::OpenFile`) and the
  command-line front ends. That covers the CLI11 `main` of `rdfm` and all
  of `rdfi`. `MergeChunkFiles` takes the two inputs as opened `ChunkFile`
  values and the output as a `ContainerStream`.
- The message written to standard error when a merge is refused.
- The embedded known-good file `test_rdf` (`rdf/test/src/IO_test.cpp:86-104`
  and `120-134`, `rdf/test/src/RDF_test.cpp:10-34` and `64-78`). The model
  does not reproduce its bytes. The tests assert only some facts about it:
  its chunk names, its four chunks, one data payload and one version.
- The counting user-stream lambdas and the write-only user stream under a
  writer (`rdf/test/src/IO_test.cpp:173-250`). They carry no data that
  the model keeps.
- How a user stream dispatches to its callbacks, and Close failing and
  being retried. Callbacks are opaque values.
- Destroying a writer without Close (`rdfChunkFileWriterDestroy`,
  `rdf/test/src/RDF_test.cpp:133-141` and `162-170`). The tests read the
  container back after it, so Destroy evidently flushes the index too. The
  model has no Destroy; its scenarios call Close explicitly.
- Null pointers, and identifiers longer than 16 bytes. `Identifier` is a
  NUL-free string of at most 16 ASCII characters, one byte each. Non-ASCII
  names, whose UTF-8 encoding is longer than their character count, are
  not modelled.
- MemoryStreams.MemoryStream.Write: the 64-bit cursor and sizes are
  unbounded integers. The method requires `0 <= cursor` and
  `0 <= count`. `Seek` accepts any position, so a cursor below 0 can occur
  (`rdf/test/src/IO_test.cpp:55`). A Write from such a cursor, or with a
  negative count, is not modelled. The source then either has `resize`
  throw on a wrapped size or has `memcpy` write before the buffer.
- MemoryStreams.MemoryStream.Read: requires `0 <= cursor <= size` and
  `0 <= count`. With the cursor past the end, or a negative count, the
  source hands a negative length to `memcpy`. With the cursor below 0 it
  copies from before the buffer. Neither case is modelled.
- ChunkFileWriters.ChunkFileWriter.WriteChunk: a chunk written while a
  streamed chunk is open, or after Close, is refused with an argument
  error. Close with a chunk still open is refused the same way. The
  engine's choice here is not part of this model.
- Merge.CopyChunks: the source must be well numbered, as every container a
  writer produces is.

## Findings

| source | as written | input that shows it | evidently intended | confidence | as-written member | corrected member |
|---|---|---|---|---|---|---|
| rdfm/src/rdfm.cpp:53-68 | `CopyChunks` reads each chunk's version into `version` (line 53) but never passes it to `WriteChunk` (lines 63-68). Every merged chunk gets the writer's default version 0. | An input chunk "chunk1" of version 3: its merged copy has version 0 | The merged chunk keeps version 3, as it keeps its header and data | not executed; high (the variable read is never used) | Merge.CopyChunks, Merge.CopyChunksDropsVersion | Merge.CopyChunksPreservingVersion, Merge.CopyPreservingVersionKeepsChunks |

`Merge.MergeChunkFiles` takes a `keepVersion` flag. False is the code as
written and goes through `Merge.CopyChunks`. True is the corrected copy.
`Merge.MergedKeepsKeys` states what a merged container reads back in
each case.
