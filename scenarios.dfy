/** End-to-end behaviours of writer and reader on a fresh memory-backed
    container: numbering, counts, versions, the 16-character identifier,
    negative sizes and append mode. */
module Scenarios {
  import opened Types
  import opened ChunkIndex
  import opened ChunkFiles
  import opened ChunkFileWriters

  const Chunk0: Identifier := "chunk0"
  const Chunk1: Identifier := "chunk1"
  const ChunkName: Identifier := "chunk"
  const LongName: Identifier := "0123456789012345"
  const Test: seq<byte> := [0x54, 0x65, 0x73, 0x74]

  /** Two empty chunks under "chunk0" with versions 1 and 2 are found by
      index with their own versions. */
  method VersionsByIndex() returns (v0: Result<uint32>, v1: Result<uint32>)
    ensures v0 == Success(1) && v1 == Success(2)
  {
    var ms := new ContainerStream();
    var w := ChunkFileWriter.Open(ms, Create);
    var writer := w.value;
    var i0 := writer.WriteChunk(Chunk0, 0, [], 0, [], CompressionNone, 1);
    var i1 := writer.WriteChunk(Chunk0, 0, [], 0, [], CompressionNone, 2);
    var closed := writer.Close();
    var cf := OpenStream(ms);
    FindChunkAtPosition(cf.value.chunks, 0);
    FindChunkAtPosition(cf.value.chunks, 1);
    v0 := cf.value.GetChunkVersion(Chunk0, 0);
    v1 := cf.value.GetChunkVersion(Chunk0, 1);
  }

  /** GetChunkCount is 2 for the identifier written twice and 0 for one
      never written. */
  method CountsByIdentifier() returns (c0: nat, c1: nat)
    ensures c0 == 2 && c1 == 0
  {
    var ms := new ContainerStream();
    var w := ChunkFileWriter.Open(ms, Create);
    var writer := w.value;
    var i0 := writer.WriteChunk(Chunk0, 0, [], 0, [], CompressionNone, 1);
    CountAfterAppend([], Chunk(Chunk0, 0, 1, CompressionNone, [], []), Chunk1);
    var i1 := writer.WriteChunk(Chunk0, 0, [], 0, [], CompressionNone, 2);
    CountAfterAppend(writer.chunks[..1], Chunk(Chunk0, 0, 2, CompressionNone, [], []), Chunk1);
    var closed := writer.Close();
    var cf := OpenStream(ms);
    c0 := cf.value.GetChunkCount(Chunk0);
    c1 := cf.value.GetChunkCount(Chunk1);
  }

  /** Successive WriteChunk calls under one identifier return 0, then 1;
      afterwards ContainsChunk holds for indices 0 and 1 and not for 2,
      and an identifier never written is not contained. */
  method IndicesInWriteOrder() returns (i0: Result<nat>, i1: Result<nat>, has: seq<Result<bool>>, absent: bool)
    ensures i0 == Success(0) && i1 == Success(1)
    ensures has == [Success(true), Success(true), Success(false)]
    ensures !absent
  {
    var ms := new ContainerStream();
    var w := ChunkFileWriter.Open(ms, Create);
    var writer := w.value;
    i0 := writer.WriteChunk(ChunkName, 0, [], 0, [], CompressionNone, DefaultVersion);
    i1 := writer.WriteChunk(ChunkName, 0, [], 0, [], CompressionNone, DefaultVersion);
    var closed := writer.Close();
    var cf := OpenStream(ms);
    var file := cf.value;
    ContainsChunkAtIffBelowCount(file, ChunkName, 0);
    ContainsChunkAtIffBelowCount(file, ChunkName, 1);
    ContainsChunkAtIffBelowCount(file, ChunkName, 2);
    ContainsChunkIffCountPositive(file, Chunk1);
    has := [file.ContainsChunkAt(ChunkName, 0), file.ContainsChunkAt(ChunkName, 1),
            file.ContainsChunkAt(ChunkName, 2)];
    absent := file.ContainsChunk(Chunk1);
  }

  /** A 16-character identifier written with WriteChunk, and one written
      with BeginChunk/EndChunk, is counted once under its full name; the
      streamed chunk gets index 0. */
  method MaximumNameLength() returns (written: nat, index: Result<nat>, streamed: nat)
    ensures written == 1 && index == Success(0) && streamed == 1
  {
    var ms := new ContainerStream();
    var w := ChunkFileWriter.Open(ms, Create);
    var writer := w.value;
    var i := writer.WriteChunk(LongName, 0, [], 0, [], CompressionNone, DefaultVersion);
    var closed := writer.Close();
    var cf := OpenStream(ms);
    written := cf.value.GetChunkCount(LongName);

    var ms2 := new ContainerStream();
    var w2 := ChunkFileWriter.Open(ms2, Create);
    var writer2 := w2.value;
    var begun := writer2.BeginChunk(LongName, 0, [], CompressionNone, 1);
    index := writer2.EndChunk();
    var closed2 := writer2.Close();
    var cf2 := OpenStream(ms2);
    streamed := cf2.value.GetChunkCount(LongName);
  }

  /** A negative header size or a negative data size is refused with an
      argument error and adds nothing to the index. */
  method NegativeSizes() returns (headerResult: Result<nat>, dataResult: Result<nat>, added: nat)
    ensures headerResult == Failure(InvalidArgument)
    ensures dataResult == Failure(InvalidArgument)
    ensures added == 0
  {
    var ms := new ContainerStream();
    var w := ChunkFileWriter.Open(ms, Create);
    var writer := w.value;
    headerResult := writer.WriteChunk(Chunk0, -1, [], 0, [], CompressionNone, DefaultVersion);
    dataResult := writer.WriteChunk(Chunk0, 0, [], -1, [], CompressionNone, DefaultVersion);
    added := |writer.chunks|;
  }

  /** A second writer in append mode keeps "chunk0" of the first one and
      adds "chunk1": both are contained after it closes. */
  method AppendKeepsChunks() returns (has0: bool, has1: bool)
    ensures has0 && has1
  {
    var ms := new ContainerStream();
    var w := ChunkFileWriter.Open(ms, Create);
    var writer := w.value;
    var i := writer.WriteChunk(Chunk0, 0, [], 4, Test, CompressionNone, DefaultVersion);
    var closed := writer.Close();

    var a := ChunkFileWriter.Open(ms, Append);
    var appender := a.value;
    var j := appender.WriteChunk(Chunk1, 0, [], 4, Test, CompressionNone, DefaultVersion);
    var closed2 := appender.Close();

    var cf := OpenStream(ms);
    ContainsChunkIffCountPositive(cf.value, Chunk0);
    ContainsChunkIffCountPositive(cf.value, Chunk1);
    has0 := cf.value.ContainsChunk(Chunk0);
    has1 := cf.value.ContainsChunk(Chunk1);
  }

  /** In append mode the first chunk under an identifier already present
      gets index 1, and afterwards both (id, 0) and (id, 1) exist. */
  method AppendContinuesNumbering() returns (index: Result<nat>, has0: Result<bool>, has1: Result<bool>)
    ensures index == Success(1)
    ensures has0 == Success(true) && has1 == Success(true)
  {
    var ms := new ContainerStream();
    var w := ChunkFileWriter.Open(ms, Create);
    var writer := w.value;
    var i := writer.WriteChunk(ChunkName, 0, [], 4, Test, CompressionNone, DefaultVersion);
    var closed := writer.Close();

    var a := ChunkFileWriter.Open(ms, Append);
    var appender := a.value;
    index := appender.WriteChunk(ChunkName, 0, [], 4, Test, CompressionNone, DefaultVersion);
    var closed2 := appender.Close();

    var cf := OpenStream(ms);
    ContainsChunkAtIffBelowCount(cf.value, ChunkName, 0);
    ContainsChunkAtIffBelowCount(cf.value, ChunkName, 1);
    has0 := cf.value.ContainsChunkAt(ChunkName, 0);
    has1 := cf.value.ContainsChunkAt(ChunkName, 1);
  }

  /** Across a close and a reopen in append mode, N chunks then M more under
      one identifier are numbered 0 .. N + M - 1 in call order. */
  lemma AppendSessionsNumberContiguously(first: seq<Chunk>, second: seq<Chunk>, id: Identifier)
    requires forall k :: 0 <= k < |first| ==> first[k].id == id
    requires forall k :: 0 <= k < |second| ==> second[k].id == id
    ensures var all := AppendAll(AppendAll([], first), second);
            forall k :: 0 <= k < |all| ==> all[k].index == k
  {
    var before := AppendAll([], first);
    var all := AppendAll(before, second);
    AppendAllKeepsNumbering([], first);
    AppendAllKeepsNumbering(before, second);
    SameIdentifier([], first, id);
    SameIdentifier(before, second, id);
    forall k | 0 <= k < |all|
      ensures all[k].index == k
    {
      CountUniform(all[..k], id);
    }
  }
}
