/** Streams built from an embedder-supplied table of callbacks, and the rule
    that decides whether such a table is accepted. */
module UserStreams {
  import opened Types

  /** An embedder-supplied function pointer; what it does is opaque here. */
  datatype Callback = Callback(address: nat)

  /** The callback table of `rdfUserStream`: every entry may be null. */
  datatype UserStream = UserStream(
    context: nat,
    read: Option<Callback>,
    write: Option<Callback>,
    seek: Option<Callback>,
    tell: Option<Callback>,
    getSize: Option<Callback>,
    close: Option<Callback>)

  /** A stream handle that delegates every operation to the table. */
  datatype Stream = UserBacked(callbacks: UserStream)

  /** The status code and the output handle of a creation call. */
  datatype Creation = Creation(status: Status, stream: Option<Stream>)

  /** `rdfStreamCreateFromUserStream`: the table is accepted when at least
      one of Read and Write is present and Seek, Tell and GetSize all are;
      Close is optional. A rejected table leaves the output handle null. */
  function CreateFromUserStream(us: UserStream): (r: Creation)
    ensures r.status == Ok <==>
              (us.read.Some? || us.write.Some?) &&
              us.seek.Some? && us.tell.Some? && us.getSize.Some?
    ensures r.status != Ok ==> r.status == Fail(InvalidArgument) && r.stream == None
    ensures r.status == Ok ==> r.stream == Some(UserBacked(us))
  {
    if us.read.None? && us.write.None? then
      Creation(Fail(InvalidArgument), None)
    else if us.seek.None? || us.tell.None? || us.getSize.None? then
      Creation(Fail(InvalidArgument), None)
    else
      Creation(Ok, Some(UserBacked(us)))
  }

  /** The memory-stream callbacks wired into a table (Close left null). */
  const MemoryStreamTable := UserStream(0, Some(Callback(1)), Some(Callback(2)),
                                        Some(Callback(3)), Some(Callback(4)),
                                        Some(Callback(5)), None)

  /** The sections of the required-functions rule: write-only, read-only and
      read-write tables are accepted; a table without Read and Write, or
      without Seek, Tell or GetSize, is refused with a null handle. */
  lemma RequiredFunctions()
    ensures CreateFromUserStream(MemoryStreamTable.(read := None)).status == Ok
    ensures CreateFromUserStream(MemoryStreamTable.(write := None)).status == Ok
    ensures CreateFromUserStream(MemoryStreamTable).status == Ok
    ensures CreateFromUserStream(MemoryStreamTable.(read := None, write := None)).stream == None
    ensures CreateFromUserStream(MemoryStreamTable.(seek := None)) == Creation(Fail(InvalidArgument), None)
    ensures CreateFromUserStream(MemoryStreamTable.(tell := None)) == Creation(Fail(InvalidArgument), None)
    ensures CreateFromUserStream(MemoryStreamTable.(getSize := None)) == Creation(Fail(InvalidArgument), None)
  {
  }

  /** Whether a Close callback is supplied never decides acceptance. */
  lemma CloseIsOptional(us: UserStream, close: Option<Callback>)
    ensures CreateFromUserStream(us.(close := close)).status == CreateFromUserStream(us).status
  {
  }

  /** Supplying a further callback never turns an accepted table into a
      refused one. */
  lemma AddingCallbacksKeepsAcceptance(us: UserStream, more: UserStream)
    requires CreateFromUserStream(us).status == Ok
    requires us.read.Some? ==> more.read.Some?
    requires us.write.Some? ==> more.write.Some?
    requires us.seek.Some? ==> more.seek.Some?
    requires us.tell.Some? ==> more.tell.Some?
    requires us.getSize.Some? ==> more.getSize.Some?
    ensures CreateFromUserStream(more).status == Ok
  {
  }
}
