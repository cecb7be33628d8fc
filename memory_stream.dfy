/** The in-memory seekable stream: a growable byte buffer and a cursor,
    driven by the Write, Read, Tell, Seek and GetSize callbacks. */
module MemoryStreams {
  import opened Types

  /** The buffer after `std::vector::resize(n)`: cut to a prefix when `n`
      shrinks it, extended with zero bytes when `n` grows it. */
  function Resized(buffer: seq<byte>, n: nat): (r: seq<byte>)
    ensures |r| == n
    ensures forall i :: 0 <= i < n && i < |buffer| ==> r[i] == buffer[i]
    ensures forall i :: |buffer| <= i < n ==> r[i] == 0
  {
    if n <= |buffer| then buffer[..n] else buffer + seq(n - |buffer|, _ => 0)
  }

  /** What a write of `data` at `offset` leaves in the buffer: the bytes
      before `offset` (zero-filled where the buffer was shorter), then
      `data`, and nothing after it. */
  function Written(buffer: seq<byte>, offset: nat, data: seq<byte>): (r: seq<byte>)
    ensures |r| == offset + |data|
    ensures r[offset..] == data
    ensures forall i :: 0 <= i < offset && i < |buffer| ==> r[i] == buffer[i]
    ensures forall i :: |buffer| <= i < offset ==> r[i] == 0
  {
    Resized(buffer, offset) + data
  }

  class MemoryStream {
    var currentOffset: int
    var buffer: seq<byte>

    constructor ()
      ensures currentOffset == 0 && buffer == []
    {
      currentOffset := 0;
      buffer := [];
    }

    /** Resizes the buffer to cursor + count, copies the first `count`
        bytes of `data` in at the cursor and advances the cursor; a write
        that ends before the old end of the buffer discards the tail. */
    method Write(count: int, data: seq<byte>) returns (status: Status, bytesWritten: int)
      requires 0 <= currentOffset && 0 <= count <= |data|
      modifies this
      ensures buffer == Written(old(buffer), old(currentOffset), data[..count])
      ensures currentOffset == old(currentOffset) + count
      ensures bytesWritten == count && status == Ok
    {
      var offset := currentOffset;
      buffer := Resized(buffer, offset + count);
      buffer := buffer[..offset] + data[..count];
      currentOffset := currentOffset + count;
      bytesWritten := count;
      status := Ok;
      assert Resized(old(buffer), offset + count)[..offset] == Resized(old(buffer), offset);
    }

    /** Copies out min(count, size - cursor) bytes from the cursor and
        advances the cursor by that many; never reads past the end. */
    method Read(count: int) returns (status: Status, data: seq<byte>, bytesRead: int)
      requires 0 <= currentOffset <= |buffer| && 0 <= count
      modifies this
      ensures buffer == old(buffer)
      ensures bytesRead == Min(count, |buffer| - old(currentOffset))
      ensures 0 <= bytesRead && old(currentOffset) + bytesRead <= |buffer|
      ensures data == buffer[old(currentOffset)..old(currentOffset) + bytesRead]
      ensures currentOffset == old(currentOffset) + bytesRead
      ensures status == Ok
    {
      var bytesToRead := Min(count, |buffer| - currentOffset);
      data := buffer[currentOffset..currentOffset + bytesToRead];
      currentOffset := currentOffset + bytesToRead;
      bytesRead := bytesToRead;
      status := Ok;
    }

    method Tell() returns (status: Status, position: int)
      ensures position == currentOffset && status == Ok
    {
      position := currentOffset;
      status := Ok;
    }

    /** Moves the cursor to `position` exactly, without any check. */
    method Seek(position: int) returns (status: Status)
      modifies this
      ensures currentOffset == position && buffer == old(buffer)
      ensures status == Ok
    {
      currentOffset := position;
      status := Ok;
    }

    method GetSize() returns (status: Status, size: int)
      ensures size == |buffer| && status == Ok
    {
      size := |buffer|;
      status := Ok;
    }
  }

  /** Writing bytes into a fresh stream leaves the cursor at their length,
      and reading the same number back after seeking to 0 returns them. */
  method WriteSeekRead(data: seq<byte>) returns (told: int, readBack: seq<byte>)
    ensures told == |data|
    ensures readBack == data
  {
    var ms := new MemoryStream();
    var writeStatus, written := ms.Write(|data|, data);
    var tellStatus, position := ms.Tell();
    told := position;
    var seekStatus := ms.Seek(0);
    var readStatus, bytes, bytesRead := ms.Read(|data|);
    readBack := bytes;
  }

  /** Rewriting at an offset inside the buffer keeps the bytes before it,
      puts the new bytes after them and drops the old tail. */
  lemma {:induction false} OverwriteTruncates(buffer: seq<byte>, offset: nat, data: seq<byte>)
    requires offset + |data| < |buffer|
    ensures Written(buffer, offset, data) == buffer[..offset] + data
    ensures |Written(buffer, offset, data)| < |buffer|
  {
    assert Resized(buffer, offset) == buffer[..offset];
  }
}
