/** The writer side of the container: chunks are added one call at a time
    (WriteChunk) or streamed (BeginChunk, AppendToChunk, EndChunk), and the
    index is flushed to the stream once, on Close. */
module ChunkFileWriters {
  import opened Types
  import opened ChunkIndex
  import opened ChunkFiles

  /** The version a chunk gets when the caller supplies none. */
  const DefaultVersion: uint32 := 0

  /** Create starts a new container; Append keeps the existing chunks. */
  datatype WriteMode = Create | Append

  class ChunkFileWriter {
    const stream: ContainerStream
    /** The index built so far: pre-existing chunks (Append), then new ones. */
    var chunks: seq<Chunk>
    /** The chunk opened by BeginChunk and not yet ended, with its data so far. */
    var pending: Option<Chunk>
    var closed: bool

    ghost predicate Valid()
      reads this
    {
      WellNumbered(chunks) && (closed ==> pending == None)
    }

    constructor Start(stream: ContainerStream, existing: seq<Chunk>)
      requires WellNumbered(existing)
      ensures Valid() && this.stream == stream
      ensures chunks == existing && pending == None && !closed
    {
      this.stream := stream;
      chunks := existing;
      pending := None;
      closed := false;
    }

    /** Opens a writer on a stream. Create discards what the stream holds;
        Append takes over the chunks of the container already in it and
        fails with a format error when there is none. */
    static method Open(stream: ContainerStream, mode: WriteMode) returns (r: Result<ChunkFileWriter>)
      requires stream.Valid()
      modifies stream
      ensures stream.Valid()
      ensures r.Success? ==> fresh(r.value) && r.value.Valid() && r.value.stream == stream
      ensures r.Success? ==> r.value.pending == None && !r.value.closed
      ensures r.Failure? ==> r.error == FormatError
      ensures mode == Create ==> r.Success? && r.value.chunks == [] && stream.container == None
      ensures mode == Append ==> stream.container == old(stream.container)
      ensures mode == Append ==> (r.Success? <==> stream.container.Some?)
      ensures mode == Append && r.Success? ==> r.value.chunks == stream.container.value
    {
      if mode == Create {
        stream.container := None;
        var w := new ChunkFileWriter.Start(stream, []);
        r := Success(w);
      } else if stream.container == None {
        r := Failure(FormatError);
      } else {
        var w := new ChunkFileWriter.Start(stream, stream.container.value);
        r := Success(w);
      }
    }

    /** Adds one chunk. Negative sizes are refused before anything changes,
        as is a call while a streamed chunk is open or after Close. The
        returned index is the number of chunks already written under the
        identifier, pre-existing ones included. */
    method WriteChunk(id: Identifier, headerSize: int, header: seq<byte>,
                      dataSize: int, data: seq<byte>,
                      compression: Compression, version: uint32) returns (r: Result<nat>)
      requires Valid()
      requires headerSize <= |header| && dataSize <= |data|
      modifies this
      ensures Valid() && pending == old(pending) && closed == old(closed)
      ensures r.Success? <==> 0 <= headerSize && 0 <= dataSize && !closed && pending == None
      ensures r.Failure? ==> r.error == InvalidArgument && chunks == old(chunks)
      ensures r.Success? ==> r.value == Count(old(chunks), id)
      ensures r.Success? ==>
                chunks == AppendNumbered(old(chunks),
                            Chunk(id, 0, version, compression, header[..headerSize], data[..dataSize]))
    {
      if headerSize < 0 || dataSize < 0 || closed || pending != None {
        r := Failure(InvalidArgument);
        return;
      }
      var index := Count(chunks, id);
      AppendNumberedKeepsNumbering(chunks, Chunk(id, 0, version, compression, header[..headerSize], data[..dataSize]));
      chunks := AppendNumbered(chunks, Chunk(id, 0, version, compression, header[..headerSize], data[..dataSize]));
      r := Success(index);
    }

    /** Opens a streamed chunk whose data size is not known yet. */
    method BeginChunk(id: Identifier, headerSize: int, header: seq<byte>,
                      compression: Compression, version: uint32) returns (s: Status)
      requires Valid()
      requires headerSize <= |header|
      modifies this
      ensures Valid() && chunks == old(chunks) && closed == old(closed)
      ensures s == Ok <==> 0 <= headerSize && !closed && old(pending) == None
      ensures s != Ok ==> s == Fail(InvalidArgument) && pending == old(pending)
      ensures s == Ok ==> pending == Some(Chunk(id, 0, version, compression, header[..headerSize], []))
    {
      if headerSize < 0 || closed || pending != None {
        s := Fail(InvalidArgument);
        return;
      }
      pending := Some(Chunk(id, 0, version, compression, header[..headerSize], []));
      s := Ok;
    }

    /** Adds the first `count` bytes of `data` to the open chunk. */
    method AppendToChunk(count: int, data: seq<byte>) returns (s: Status)
      requires Valid()
      requires count <= |data|
      modifies this
      ensures Valid() && chunks == old(chunks) && closed == old(closed)
      ensures s == Ok <==> 0 <= count && old(pending) != None
      ensures s != Ok ==> s == Fail(InvalidArgument) && pending == old(pending)
      ensures s == Ok ==> pending == Some(old(pending).value.(data := old(pending).value.data + data[..count]))
    {
      if count < 0 || pending == None {
        s := Fail(InvalidArgument);
        return;
      }
      pending := Some(pending.value.(data := pending.value.data + data[..count]));
      s := Ok;
    }

    /** Closes the open chunk; its data size is what was streamed. The
        returned index is numbered as for WriteChunk. */
    method EndChunk() returns (r: Result<nat>)
      requires Valid()
      modifies this
      ensures Valid() && closed == old(closed)
      ensures r.Success? <==> old(pending) != None
      ensures r.Failure? ==> r.error == InvalidArgument && chunks == old(chunks) && pending == None
      ensures r.Success? ==> pending == None
      ensures r.Success? ==> r.value == Count(old(chunks), old(pending).value.id)
      ensures r.Success? ==> chunks == AppendNumbered(old(chunks), old(pending).value)
    {
      match pending
      case None =>
        r := Failure(InvalidArgument);
      case Some(c) =>
        var index := Count(chunks, c.id);
        AppendNumberedKeepsNumbering(chunks, c);
        chunks := AppendNumbered(chunks, c);
        pending := None;
        r := Success(index);
    }

    /** Flushes the index: afterwards the stream holds exactly the chunks
        written (all pre-existing ones first in Append mode). Closing twice,
        or with a streamed chunk still open, is refused and changes nothing. */
    method Close() returns (s: Status)
      requires Valid()
      modifies this, stream
      ensures Valid() && chunks == old(chunks) && pending == old(pending)
      ensures s == Ok <==> !old(closed) && pending == None
      ensures s == Ok ==> closed && stream.container == Some(chunks) && stream.Valid()
      ensures s != Ok ==> s == Fail(InvalidArgument) && closed == old(closed)
      ensures s != Ok ==> stream.container == old(stream.container)
    {
      if closed || pending != None {
        s := Fail(InvalidArgument);
        return;
      }
      stream.container := Some(chunks);
      closed := true;
      s := Ok;
    }
  }
}
