/** The merge tool: collect the identifiers of two containers, refuse to
    merge when they share one, and otherwise copy every chunk of the first
    and then of the second into a new container. */
module Merge {
  import opened Types
  import opened ChunkIndex
  import opened ChunkFiles
  import opened ChunkFileWriters

  /** The codec the copy asks for: Zstd when compressing, none otherwise. */
  function Codec(compress: bool): (c: Compression)
    ensures c == CompressionZstd <==> compress
    ensures c == CompressionNone <==> !compress
  {
    if compress then CompressionZstd else CompressionNone
  }

  /** The chunk a copy writes for source chunk `c`: the same identifier,
      index, header and data under the requested codec. With `keepVersion`
      false (the tool as written) the version is not passed on and the
      chunk gets the writer's default. */
  function Transfer(c: Chunk, compress: bool, keepVersion: bool): (t: Chunk)
    ensures t.id == c.id && t.index == c.index && t.header == c.header && t.data == c.data
    ensures t.compression == Codec(compress)
    ensures t.version == if keepVersion then c.version else DefaultVersion
  {
    Chunk(c.id, c.index, if keepVersion then c.version else DefaultVersion,
          Codec(compress), c.header, c.data)
  }

  /** The copies of `cs`, one per chunk, in order. */
  function TransferAll(cs: seq<Chunk>, compress: bool, keepVersion: bool): (r: seq<Chunk>)
    ensures |r| == |cs|
    ensures forall k :: 0 <= k < |cs| ==> r[k] == Transfer(cs[k], compress, keepVersion)
  {
    if cs == [] then []
    else TransferAll(cs[..|cs| - 1], compress, keepVersion) + [Transfer(cs[|cs| - 1], compress, keepVersion)]
  }

  /** GetChunkIdentifiers: walks the iterator from the start to the end and
      collects each entry's identifier, read back from a zeroed buffer one
      character longer than the field. */
  method GetChunkIdentifiers(cf: ChunkFile) returns (chunkIds: set<string>)
    ensures chunkIds == Identifiers(cf.chunks)
  {
    chunkIds := {};
    var it := new ChunkFileIterator(cf);
    while true
      invariant it.Valid() && it.chunks == cf.chunks
      invariant chunkIds == Identifiers(cf.chunks[..it.position])
      decreases |cf.chunks| - it.position
    {
      if it.IsAtEnd() {
        break;
      }
      var raw := it.GetChunkIdentifier();
      var name := raw + ['\0'];
      TerminatedField(cf.chunks[it.position].id);
      var s := CString(name);
      if s !in chunkIds {
        chunkIds := chunkIds + {s};
      }
      assert cf.chunks[..it.position + 1][..it.position] == cf.chunks[..it.position];
      it.Advance();
    }
    assert cf.chunks[..it.position] == cf.chunks;
  }

  /** The reads CopyChunks makes for the entry under the iterator: its
      identifier (through a zeroed buffer one character longer than the
      field) and index, then by that key its version, header size, header,
      data size and data. Each read answers from that entry. */
  method ReadEntry(cf: ChunkFile, it: ChunkFileIterator)
    returns (id: Identifier, index: nat, version: uint32,
             headerSize: nat, header: seq<byte>, dataSize: nat, data: seq<byte>)
    requires WellNumbered(cf.chunks)
    requires it.Valid() && it.chunks == cf.chunks && !it.IsAtEnd()
    ensures id == cf.chunks[it.position].id && index == cf.chunks[it.position].index
    ensures version == cf.chunks[it.position].version
    ensures header == cf.chunks[it.position].header && headerSize == |header|
    ensures data == cf.chunks[it.position].data && dataSize == |data|
  {
    var raw := it.GetChunkIdentifier();
    TerminatedField(cf.chunks[it.position].id);
    id := CString(raw + ['\0']);
    index := it.GetChunkIndex();
    ReadAtPosition(cf, it.position);
    version := cf.GetChunkVersion(id, index).value;
    headerSize := cf.GetChunkHeaderSize(id, index).value;
    header := cf.ReadChunkHeader(id, index).value;
    dataSize := cf.GetChunkDataSize(id, index).value;
    data := cf.ReadChunkData(id, index).value;
  }

  /** One pass of CopyChunks' loop: read the entry under the iterator,
      write it to `output` under the requested codec (with the version read
      only when `keepVersion` holds), and advance. */
  method CopyEntry(cf: ChunkFile, it: ChunkFileIterator, output: ChunkFileWriter,
                   compress: bool, keepVersion: bool, ghost start: seq<Chunk>)
    requires WellNumbered(cf.chunks)
    requires it.Valid() && it.chunks == cf.chunks && !it.IsAtEnd()
    requires output.Valid() && !output.closed && output.pending == None
    requires output.chunks == CopiedPrefix(start, cf.chunks, it.position, compress, keepVersion)
    modifies output, it
    ensures it.Valid() && it.chunks == cf.chunks && it.position == old(it.position) + 1
    ensures output.Valid() && !output.closed && output.pending == None
    ensures output.chunks == CopiedPrefix(start, cf.chunks, it.position, compress, keepVersion)
  {
    ghost var p := it.position;
    var id, index, version, headerSize, header, dataSize, data := ReadEntry(cf, it);
    assert header[..headerSize] == header && data[..dataSize] == data;
    var written := output.WriteChunk(id, headerSize, header, dataSize, data, Codec(compress),
                                     if keepVersion then version else DefaultVersion);
    AppendNumberedIgnoresIndex(old(output.chunks),
                               Chunk(id, 0, if keepVersion then version else DefaultVersion,
                                     Codec(compress), header, data),
                               Transfer(cf.chunks[p], compress, keepVersion));
    it.Advance();
  }

  /** CopyChunks as written: every chunk of `cf`, in iteration order, is
      written to `output` with its identifier, header and data and the
      requested codec; the version it reads is not passed on. */
  method CopyChunks(cf: ChunkFile, output: ChunkFileWriter, compress: bool)
    requires WellNumbered(cf.chunks)
    requires output.Valid() && !output.closed && output.pending == None
    modifies output
    ensures output.Valid() && !output.closed && output.pending == None
    ensures output.chunks == AppendAll(old(output.chunks), TransferAll(cf.chunks, compress, false))
  {
    var it := new ChunkFileIterator(cf);
    while true
      invariant it.Valid() && it.chunks == cf.chunks
      invariant output.Valid() && !output.closed && output.pending == None
      invariant output.chunks == CopiedPrefix(old(output.chunks), cf.chunks, it.position, compress, false)
      decreases |cf.chunks| - it.position
    {
      if it.IsAtEnd() {
        break;
      }
      CopyEntry(cf, it, output, compress, false, old(output.chunks));
    }
    CopiedPrefixIsAppendAll(old(output.chunks), cf.chunks, it.position, compress, false);
    assert cf.chunks[..it.position] == cf.chunks;
  }

  /** CopyChunks with the version it reads passed on to the writer. */
  method CopyChunksPreservingVersion(cf: ChunkFile, output: ChunkFileWriter, compress: bool)
    requires WellNumbered(cf.chunks)
    requires output.Valid() && !output.closed && output.pending == None
    modifies output
    ensures output.Valid() && !output.closed && output.pending == None
    ensures output.chunks == AppendAll(old(output.chunks), TransferAll(cf.chunks, compress, true))
  {
    var it := new ChunkFileIterator(cf);
    while true
      invariant it.Valid() && it.chunks == cf.chunks
      invariant output.Valid() && !output.closed && output.pending == None
      invariant output.chunks == CopiedPrefix(old(output.chunks), cf.chunks, it.position, compress, true)
      decreases |cf.chunks| - it.position
    {
      if it.IsAtEnd() {
        break;
      }
      CopyEntry(cf, it, output, compress, true, old(output.chunks));
    }
    CopiedPrefixIsAppendAll(old(output.chunks), cf.chunks, it.position, compress, true);
    assert cf.chunks[..it.position] == cf.chunks;
  }

  /** The writer's index once the first `n` chunks of `cs` have been
      copied onto `start`, one append at a time. */
  ghost function CopiedPrefix(start: seq<Chunk>, cs: seq<Chunk>, n: nat, compress: bool, keepVersion: bool): seq<Chunk>
    requires n <= |cs|
  {
    if n == 0 then start
    else AppendNumbered(CopiedPrefix(start, cs, n - 1, compress, keepVersion), Transfer(cs[n - 1], compress, keepVersion))
  }

  /** Copying the first `n` chunks one at a time is the writer appending
      their copies. */
  lemma {:induction false} CopiedPrefixIsAppendAll(start: seq<Chunk>, cs: seq<Chunk>, n: nat, compress: bool, keepVersion: bool)
    requires n <= |cs|
    ensures CopiedPrefix(start, cs, n, compress, keepVersion) == AppendAll(start, TransferAll(cs[..n], compress, keepVersion))
  {
    if n == 0 {
      assert cs[..0] == [];
    } else {
      CopiedPrefixIsAppendAll(start, cs, n - 1, compress, keepVersion);
      CopiedOneMore(start, cs, n - 1, compress, keepVersion);
    }
  }

  /** Copying one more source chunk is one more writer append. */
  lemma CopiedOneMore(start: seq<Chunk>, cs: seq<Chunk>, p: nat, compress: bool, keepVersion: bool)
    requires p < |cs|
    ensures AppendAll(start, TransferAll(cs[..p + 1], compress, keepVersion)) ==
            AppendNumbered(AppendAll(start, TransferAll(cs[..p], compress, keepVersion)),
                           Transfer(cs[p], compress, keepVersion))
  {
    assert cs[..p + 1][..p] == cs[..p];
    var front := TransferAll(cs[..p], compress, keepVersion);
    var t := Transfer(cs[p], compress, keepVersion);
    assert (front + [t])[..|front|] == front;
  }

  /** MergeChunkFiles: returns 1 and leaves the output alone when the two
      inputs share an identifier; otherwise writes all chunks of the first
      input and then all of the second, each under its own identifier and
      index, closes the output and returns 0. With `keepVersion` false the
      copies go through CopyChunks as written and get the default version;
      with it true they go through the corrected copy and keep theirs. */
  method MergeChunkFiles(file1: ChunkFile, file2: ChunkFile, output: ContainerStream,
                         compress: bool, keepVersion: bool)
    returns (code: int)
    requires WellNumbered(file1.chunks) && WellNumbered(file2.chunks)
    requires output.Valid()
    modifies output
    ensures output.Valid()
    ensures code == 1 <==> Identifiers(file1.chunks) * Identifiers(file2.chunks) != {}
    ensures code == 1 ==> output.container == old(output.container)
    ensures code != 1 ==> code == 0
    ensures code == 0 ==> output.container == Some(Merged(file1.chunks, file2.chunks, compress, keepVersion))
  {
    var file1Ids := GetChunkIdentifiers(file1);
    var file2Ids := GetChunkIdentifiers(file2);
    var intersection := file1Ids * file2Ids;
    if intersection != {} {
      return 1;
    }
    var w := ChunkFileWriter.Open(output, Create);
    var writer := w.value;
    if keepVersion {
      CopyChunksPreservingVersion(file1, writer, compress);
      CopyChunksPreservingVersion(file2, writer, compress);
    } else {
      CopyChunks(file1, writer, compress);
      CopyChunks(file2, writer, compress);
    }
    var closed := writer.Close();
    MergedIsAppendAll(file1.chunks, file2.chunks, compress, keepVersion);
    return 0;
  }

  /** The index of a successful merge: the copies of the first input's
      chunks, then those of the second's. */
  function Merged(a: seq<Chunk>, b: seq<Chunk>, compress: bool, keepVersion: bool): (m: seq<Chunk>)
    ensures |m| == |a| + |b|
  {
    TransferAll(a, compress, keepVersion) + TransferAll(b, compress, keepVersion)
  }

  /** With disjoint identifier sets, writing the copies of `a` and then of
      `b` into an empty writer stores exactly the merged index. */
  lemma MergedIsAppendAll(a: seq<Chunk>, b: seq<Chunk>, compress: bool, keepVersion: bool)
    requires WellNumbered(a) && WellNumbered(b)
    requires Identifiers(a) * Identifiers(b) == {}
    ensures AppendAll(AppendAll([], TransferAll(a, compress, keepVersion)), TransferAll(b, compress, keepVersion)) ==
            Merged(a, b, compress, keepVersion)
  {
    var first := TransferAll(a, compress, keepVersion);
    CopyIntoDisjoint([], a, compress, keepVersion);
    assert [] + first == first;
    DisjointCounts(a, b, compress, keepVersion);
    CopyIntoDisjoint(first, b, compress, keepVersion);
  }

  // ---------------------------------------------------------------
  // Laws of the copy

  /** Copying keeps every identifier's count. */
  lemma {:induction false} CountTransferred(cs: seq<Chunk>, compress: bool, keepVersion: bool, id: string)
    ensures Count(TransferAll(cs, compress, keepVersion), id) == Count(cs, id)
  {
    if cs != [] {
      var n := |cs| - 1;
      assert TransferAll(cs, compress, keepVersion)[..n] == TransferAll(cs[..n], compress, keepVersion);
      CountTransferred(cs[..n], compress, keepVersion, id);
    }
  }

  /** The first n copies are the copies of the first n chunks. */
  lemma TransferAllPrefix(src: seq<Chunk>, compress: bool, keepVersion: bool, n: nat)
    requires n <= |src|
    ensures TransferAll(src, compress, keepVersion)[..n] == TransferAll(src[..n], compress, keepVersion)
  {
  }

  /** Copies are numbered as their sources. */
  lemma TransferKeepsNumbering(src: seq<Chunk>, compress: bool, keepVersion: bool)
    requires WellNumbered(src)
    ensures WellNumbered(TransferAll(src, compress, keepVersion))
  {
    var copies := TransferAll(src, compress, keepVersion);
    forall k | 0 <= k < |copies|
      ensures copies[k].index == Count(copies[..k], copies[k].id)
    {
      TransferAllPrefix(src, compress, keepVersion, k);
      CountTransferred(src[..k], compress, keepVersion, src[k].id);
    }
  }

  /** When none of the source identifiers is already in the output, the
      writer's numbering gives every copied chunk its source index, so the
      output is the old index followed by the copies, unchanged. */
  lemma CopyIntoDisjoint(existing: seq<Chunk>, src: seq<Chunk>, compress: bool, keepVersion: bool)
    requires WellNumbered(src)
    requires forall k :: 0 <= k < |src| ==> Count(existing, src[k].id) == 0
    ensures AppendAll(existing, TransferAll(src, compress, keepVersion)) ==
            existing + TransferAll(src, compress, keepVersion)
  {
    TransferKeepsNumbering(src, compress, keepVersion);
    AppendAllFreshIdentifiers(existing, TransferAll(src, compress, keepVersion));
  }

  /** With disjoint identifier sets, an identifier of `b` occurs nowhere
      in `a`. */
  lemma AbsentFromOther(a: seq<Chunk>, b: seq<Chunk>, k: nat)
    requires Identifiers(a) * Identifiers(b) == {} && k < |b|
    ensures Count(a, b[k].id) == 0
  {
    var id := b[k].id;
    CountPositiveIff(b, id);
    IdentifiersIff(b, id);
    IdentifiersIff(a, id);
    assert id !in Identifiers(a) * Identifiers(b);
  }

  /** With disjoint identifier sets, no identifier of `b` occurs among the
      copies of `a`. */
  lemma DisjointCounts(a: seq<Chunk>, b: seq<Chunk>, compress: bool, keepVersion: bool)
    requires Identifiers(a) * Identifiers(b) == {}
    ensures forall k :: 0 <= k < |b| ==> Count(TransferAll(a, compress, keepVersion), b[k].id) == 0
  {
    forall k | 0 <= k < |b|
      ensures Count(TransferAll(a, compress, keepVersion), b[k].id) == 0
    {
      AbsentFromOther(a, b, k);
      CountTransferred(a, compress, keepVersion, b[k].id);
    }
  }

  /** The merge is refused exactly when some chunk of the first input and
      some chunk of the second carry the same identifier. */
  lemma RefusedIffSharedIdentifier(a: seq<Chunk>, b: seq<Chunk>)
    ensures Identifiers(a) * Identifiers(b) != {} <==>
            exists j, k :: 0 <= j < |a| && 0 <= k < |b| && a[j].id == b[k].id
  {
    if Identifiers(a) * Identifiers(b) != {} {
      var id :| id in Identifiers(a) * Identifiers(b);
      IdentifiersIff(a, id);
      IdentifiersIff(b, id);
      CountPositiveIff(a, id);
      CountPositiveIff(b, id);
      var j :| 0 <= j < |a| && a[j].id == id;
      var k :| 0 <= k < |b| && b[k].id == id;
      assert a[j].id == b[k].id;
    }
    if exists j, k :: 0 <= j < |a| && 0 <= k < |b| && a[j].id == b[k].id {
      var j, k :| 0 <= j < |a| && 0 <= k < |b| && a[j].id == b[k].id;
      CountPositiveIff(a, a[j].id);
      CountPositiveIff(b, a[j].id);
      IdentifiersIff(a, a[j].id);
      IdentifiersIff(b, a[j].id);
      assert a[j].id in Identifiers(a) * Identifiers(b);
    }
  }

  /** The source version is lost: a chunk of version 3 is copied with the
      default version 0. */
  lemma CopyChunksDropsVersion()
    ensures var src := [Chunk("chunk1", 0, 3, CompressionNone, [], [])];
            TransferAll(src, false, false)[0].version == 0 != src[0].version
  {
  }

  /** Copying with the version passed on keeps every chunk as it was
      except for the codec tag. */
  lemma CopyPreservingVersionKeepsChunks(src: seq<Chunk>, compress: bool)
    ensures forall k :: 0 <= k < |src| ==>
              TransferAll(src, compress, true)[k] == src[k].(compression := Codec(compress))
  {
  }

  /** A merged container is numbered as the writer numbers: every copy
      keeps its source index, which no chunk of the other input competes
      for. */
  lemma MergedWellNumbered(a: seq<Chunk>, b: seq<Chunk>, compress: bool, keepVersion: bool)
    requires WellNumbered(a) && WellNumbered(b)
    requires Identifiers(a) * Identifiers(b) == {}
    ensures WellNumbered(Merged(a, b, compress, keepVersion))
  {
    var first := TransferAll(a, compress, keepVersion);
    MergedIsAppendAll(a, b, compress, keepVersion);
    AppendAllKeepsNumbering([], first);
    AppendAllKeepsNumbering(AppendAll([], first), TransferAll(b, compress, keepVersion));
  }

  /** Position k of a merged index holds the k-th chunk of the inputs
      taken in order, under the requested codec, with its own version only
      when `keepVersion` holds. */
  lemma MergedAt(a: seq<Chunk>, b: seq<Chunk>, compress: bool, keepVersion: bool, k: nat)
    requires k < |a| + |b|
    ensures var src := if k < |a| then a[k] else b[k - |a|];
            Merged(a, b, compress, keepVersion)[k] ==
            src.(compression := Codec(compress), version := if keepVersion then src.version else DefaultVersion)
  {
  }

  /** In a merged container every key of either input still answers with
      that chunk's header and data; its version is the source's when
      `keepVersion` holds and the default version otherwise. */
  lemma MergedKeepsKeys(a: seq<Chunk>, b: seq<Chunk>, compress: bool, keepVersion: bool, k: nat)
    requires WellNumbered(a) && WellNumbered(b)
    requires Identifiers(a) * Identifiers(b) == {}
    requires k < |a| + |b|
    ensures var src := if k < |a| then a[k] else b[k - |a|];
            var cf := ChunkFile(Merged(a, b, compress, keepVersion));
            cf.GetChunkVersion(src.id, src.index) ==
              Success(if keepVersion then src.version else DefaultVersion) &&
            cf.ReadChunkHeader(src.id, src.index) == Success(src.header) &&
            cf.ReadChunkData(src.id, src.index) == Success(src.data)
  {
    MergedWellNumbered(a, b, compress, keepVersion);
    MergedAt(a, b, compress, keepVersion, k);
    ReadAtPosition(ChunkFile(Merged(a, b, compress, keepVersion)), k);
  }
}
