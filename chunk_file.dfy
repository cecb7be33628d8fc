/** The reader side of the container: the stream a container lives in, the
    random-access queries of `ChunkFile` and its forward iterator. */
module ChunkFiles {
  import opened Types
  import opened ChunkIndex

  /** A stream as the container engine sees it: either it holds a complete
      container (the index flushed by a writer's Close) or it does not
      (empty, or truncated by a writer opened in Create mode). What a
      writer destroyed without Close leaves behind is not modelled. */
  class ContainerStream {
    var container: Option<seq<Chunk>>

    /** Every container in a stream was flushed by a writer, so its index
        is numbered the way the writer numbers. */
    ghost predicate Valid()
      reads this
    {
      container.Some? ==> WellNumbered(container.value)
    }

    /** `CreateMemoryStream`: an empty stream. */
    constructor ()
      ensures Valid() && container == None
    {
      container := None;
    }
  }

  /** An opened container: its index in stored (write) order. */
  datatype ChunkFile = ChunkFile(chunks: seq<Chunk>) {

    /** ContainsChunk(id): some chunk carries the identifier. */
    predicate ContainsChunk(id: Identifier)
      ensures ContainsChunk(id) <==> exists k :: 0 <= k < |chunks| && chunks[k].id == id
    {
      FindFirst(chunks, id).Some?
    }

    /** ContainsChunk(id, index): the exact key is present; a negative
        index is a bad argument, not an absent chunk. */
    function ContainsChunkAt(id: Identifier, index: int): (r: Result<bool>)
      ensures r.Failure? <==> index < 0
      ensures r.Failure? ==> r.error == InvalidArgument
      ensures r.Success? ==> (r.value <==> HasKey(chunks, id, index))
    {
      if index < 0 then Failure(InvalidArgument)
      else Success(FindChunk(chunks, id, index).Some?)
    }

    /** GetChunkCount(id): how many chunks carry the identifier; zero
        exactly when the container does not contain it. */
    function GetChunkCount(id: Identifier): (n: nat)
      ensures n <= |chunks|
      ensures n > 0 <==> ContainsChunk(id)
    {
      CountPositiveIff(chunks, id);
      Count(chunks, id)
    }

    /** The descriptor with key (id, index). */
    function Lookup(id: Identifier, index: int): (r: Result<Chunk>)
      ensures r.Success? <==> 0 <= index && HasKey(chunks, id, index)
      ensures r.Success? ==> r.value in chunks && r.value.id == id && r.value.index == index
      ensures r.Failure? ==> r.error == (if index < 0 then InvalidArgument else NotFound)
    {
      if index < 0 then Failure(InvalidArgument)
      else
        match FindChunk(chunks, id, index)
        case None => Failure(NotFound)
        case Some(k) => Success(chunks[k])
    }

    /** GetChunkVersion(id, index): the version of the chunk with that key. */
    function GetChunkVersion(id: Identifier, index: int): (r: Result<uint32>)
      ensures r.Success? <==> 0 <= index && HasKey(chunks, id, index)
      ensures r.Failure? ==> r.error == (if index < 0 then InvalidArgument else NotFound)
      ensures r.Success? ==> exists c :: c in chunks && c.id == id && c.index == index && c.version == r.value
    {
      var c :- Lookup(id, index);
      Success(c.version)
    }

    /** GetChunkVersion(id) without an index: the version of the first
        descriptor inserted under the identifier, whatever its index. */
    function GetChunkVersionFirst(id: Identifier): (r: Result<uint32>)
      ensures r.Success? <==> ContainsChunk(id)
      ensures r.Failure? ==> r.error == NotFound
      ensures r.Success? ==> exists k :: 0 <= k < |chunks| && chunks[k].id == id && chunks[k].version == r.value &&
                                         forall j :: 0 <= j < k ==> chunks[j].id != id
    {
      match FindFirst(chunks, id)
      case None => Failure(NotFound)
      case Some(k) => Success(chunks[k].version)
    }

    /** GetChunkHeaderSize: the length of the header ReadChunkHeader yields,
        so a buffer of that size takes it exactly. */
    function GetChunkHeaderSize(id: Identifier, index: int): (r: Result<nat>)
      ensures r.Success? <==> ReadChunkHeader(id, index).Success?
      ensures r.Failure? ==> r.error == ReadChunkHeader(id, index).error
      ensures r.Success? ==> r.value == |ReadChunkHeader(id, index).value|
    {
      var c :- Lookup(id, index);
      Success(|c.header|)
    }

    /** GetChunkDataSize: the length of the data ReadChunkData yields. */
    function GetChunkDataSize(id: Identifier, index: int): (r: Result<nat>)
      ensures r.Success? <==> ReadChunkData(id, index).Success?
      ensures r.Failure? ==> r.error == ReadChunkData(id, index).error
      ensures r.Success? ==> r.value == |ReadChunkData(id, index).value|
    {
      var c :- Lookup(id, index);
      Success(|c.data|)
    }

    /** ReadChunkHeaderToBuffer: the header bytes as written. */
    function ReadChunkHeader(id: Identifier, index: int): (r: Result<seq<byte>>)
      ensures r.Success? <==> 0 <= index && HasKey(chunks, id, index)
      ensures r.Failure? ==> r.error == (if index < 0 then InvalidArgument else NotFound)
      ensures r.Success? ==> exists c :: c in chunks && c.id == id && c.index == index && c.header == r.value
    {
      var c :- Lookup(id, index);
      Success(c.header)
    }

    /** ReadChunkDataToBuffer / ReadChunkData: the data bytes as written,
        the codec's decompression undone. */
    function ReadChunkData(id: Identifier, index: int): (r: Result<seq<byte>>)
      ensures r.Success? <==> 0 <= index && HasKey(chunks, id, index)
      ensures r.Failure? ==> r.error == (if index < 0 then InvalidArgument else NotFound)
      ensures r.Success? ==> exists c :: c in chunks && c.id == id && c.index == index && c.data == r.value
    {
      var c :- Lookup(id, index);
      Success(c.data)
    }
  }

  /** Opening a stream yields its container, or a format error when the
      stream holds none. */
  method OpenStream(stream: ContainerStream) returns (r: Result<ChunkFile>)
    ensures r.Success? <==> stream.container.Some?
    ensures r.Failure? ==> r.error == FormatError
    ensures r.Success? ==> r.value.chunks == stream.container.value
  {
    match stream.container
    case None => r := Failure(FormatError);
    case Some(cs) => r := Success(ChunkFile(cs));
  }

  /** The forward iterator: positioned on an entry, or at the end. */
  class ChunkFileIterator {
    const chunks: seq<Chunk>
    var position: nat

    ghost predicate Valid()
      reads this
    {
      position <= |chunks|
    }

    /** GetIterator: on the first entry, or at the end of an empty container. */
    constructor (cf: ChunkFile)
      ensures Valid() && chunks == cf.chunks && position == 0
    {
      chunks := cf.chunks;
      position := 0;
    }

    /** IsAtEnd: no entry is left to visit. */
    predicate IsAtEnd()
      reads this
      ensures Valid() ==> (IsAtEnd() <==> chunks[position..] == [])
    {
      position >= |chunks|
    }

    /** Moves to the next entry; past the last one it reaches the end, and
        at the end it does nothing. */
    method Advance()
      requires Valid()
      modifies this
      ensures Valid()
      ensures position == if old(position) < |chunks| then old(position) + 1 else old(position)
    {
      if position < |chunks| {
        position := position + 1;
      }
    }

    /** Copies the 16-character identifier field of the current entry. */
    method GetChunkIdentifier() returns (raw: seq<char>)
      requires Valid() && !IsAtEnd()
      ensures raw == Padded(chunks[position].id)
    {
      raw := Padded(chunks[position].id);
    }

    method GetChunkIndex() returns (index: nat)
      requires Valid() && !IsAtEnd()
      ensures index == chunks[position].index
    {
      index := chunks[position].index;
    }
  }

  /** Stepping the iterator until it reports the end visits every entry
      once: the count equals the number of chunks in the container. */
  method CountByIteration(cf: ChunkFile) returns (chunkCount: nat)
    ensures chunkCount == |cf.chunks|
  {
    chunkCount := 0;
    var it := new ChunkFileIterator(cf);
    while !it.IsAtEnd()
      invariant it.Valid() && it.chunks == cf.chunks
      invariant chunkCount == it.position
      decreases |cf.chunks| - it.position
    {
      chunkCount := chunkCount + 1;
      it.Advance();
    }
  }

  // ---------------------------------------------------------------
  // Reader laws

  /** ContainsChunk(id, index) holds exactly for index in [0, GetChunkCount(id)). */
  lemma ContainsChunkAtIffBelowCount(cf: ChunkFile, id: Identifier, index: int)
    requires WellNumbered(cf.chunks)
    ensures cf.ContainsChunkAt(id, index) == Success(true) <==> 0 <= index < cf.GetChunkCount(id)
  {
    HasKeyIffBelowCount(cf.chunks, id, index);
  }

  /** ContainsChunk(id) holds exactly when GetChunkCount(id) is positive. */
  lemma ContainsChunkIffCountPositive(cf: ChunkFile, id: Identifier)
    ensures cf.ContainsChunk(id) <==> cf.GetChunkCount(id) > 0
  {
  }

  /** The accessors succeed exactly on present keys. */
  lemma LookupSucceedsIffPresent(cf: ChunkFile, id: Identifier, index: int)
    requires WellNumbered(cf.chunks)
    ensures cf.GetChunkVersion(id, index).Success? <==> 0 <= index < cf.GetChunkCount(id)
    ensures cf.ReadChunkData(id, index).Success? <==> 0 <= index < cf.GetChunkCount(id)
  {
    HasKeyIffBelowCount(cf.chunks, id, index);
  }

  /** Asked for the key of the chunk at position k, every accessor answers
      from that chunk. */
  lemma ReadAtPosition(cf: ChunkFile, k: nat)
    requires WellNumbered(cf.chunks) && k < |cf.chunks|
    ensures cf.GetChunkVersion(cf.chunks[k].id, cf.chunks[k].index) == Success(cf.chunks[k].version)
    ensures cf.GetChunkHeaderSize(cf.chunks[k].id, cf.chunks[k].index) == Success(|cf.chunks[k].header|)
    ensures cf.GetChunkDataSize(cf.chunks[k].id, cf.chunks[k].index) == Success(|cf.chunks[k].data|)
    ensures cf.ReadChunkHeader(cf.chunks[k].id, cf.chunks[k].index) == Success(cf.chunks[k].header)
    ensures cf.ReadChunkData(cf.chunks[k].id, cf.chunks[k].index) == Success(cf.chunks[k].data)
  {
    FindChunkAtPosition(cf.chunks, k);
  }

  /** In every container a writer produces, GetChunkVersion(id) without an
      index agrees with GetChunkVersion(id, 0). */
  lemma VersionWithoutIndexIsIndexZero(cf: ChunkFile, id: Identifier)
    requires WellNumbered(cf.chunks)
    ensures cf.GetChunkVersionFirst(id) == cf.GetChunkVersion(id, 0)
  {
    FirstInsertedIsIndexZero(cf.chunks, id);
  }

  /** In a foreign index whose first entry under an identifier is not its
      index 0, the index-less query still answers with the first entry. */
  lemma VersionWithoutIndexIgnoresIndex()
    ensures var cf := ChunkFile([Chunk("c", 1, 5, CompressionNone, [], []),
                                 Chunk("c", 0, 7, CompressionNone, [], [])]);
            cf.GetChunkVersionFirst("c") == Success(5) && cf.GetChunkVersion("c", 0) == Success(7)
  {
    var cs := [Chunk("c", 1, 5, CompressionNone, [], []), Chunk("c", 0, 7, CompressionNone, [], [])];
    assert cs[1..] == [cs[1]];
  }
}
