/** The index of a chunk container: the ordered sequence of chunk
    descriptors, the per-identifier numbering the writer assigns, and the
    lookups the reader derives from it. */
module ChunkIndex {
  import opened Types

  /** RDF_IDENTIFIER_SIZE: the capacity of an identifier field. */
  const IdentifierSize := 16

  /** A chunk identifier as the C++ interface takes it: a NUL-terminated
      string of at most 16 bytes (the terminator is not part of it). Each
      character is one ASCII byte, so 16 characters fill the field. */
  type Identifier = s: string | |s| <= IdentifierSize && '\0' !in s && forall c :: c in s ==> c as int < 0x80

  /** The codec tag stored per chunk; the codecs themselves are opaque. */
  datatype Compression = CompressionNone | CompressionZstd

  /** One index entry with the payload it describes. The header and data
      are the bytes as written (and as read back after decompression);
      their lengths are the descriptor's header and data sizes. */
  datatype Chunk = Chunk(
    id: Identifier,
    index: nat,
    version: uint32,
    compression: Compression,
    header: seq<byte>,
    data: seq<byte>)

  /** The number of chunks carrying identifier `id`. */
  function Count(cs: seq<Chunk>, id: string): (n: nat)
    ensures n <= |cs|
  {
    if cs == [] then 0
    else Count(cs[..|cs| - 1], id) + (if cs[|cs| - 1].id == id then 1 else 0)
  }

  /** Every chunk's disambiguation index is the number of earlier chunks
      with the same identifier: indices per identifier are 0, 1, 2, ... in
      write order. Every index the writer builds has this shape. */
  ghost predicate WellNumbered(cs: seq<Chunk>)
  {
    forall k {:trigger Count(cs[..k], cs[k].id)} :: 0 <= k < |cs| ==> cs[k].index == Count(cs[..k], cs[k].id)
  }

  /** The index after the writer adds `c`: its own disambiguation index is
      replaced by the number of chunks already carrying its identifier. */
  function AppendNumbered(cs: seq<Chunk>, c: Chunk): (r: seq<Chunk>)
    ensures |r| == |cs| + 1 && r[..|cs|] == cs
    ensures r[|cs|].id == c.id && r[|cs|].index == Count(cs, c.id)
  {
    var r := cs + [c.(index := Count(cs, c.id))];
    assert r[..|cs|] == cs;
    r
  }

  /** Adding `c` raises the count of its own identifier by one and leaves
      every other count alone. */
  lemma CountAfterAppend(cs: seq<Chunk>, c: Chunk, x: string)
    ensures Count(AppendNumbered(cs, c), x) == Count(cs, x) + (if c.id == x then 1 else 0)
  {
  }

  /** The index after the writer adds every chunk of `requests` in order. */
  function AppendAll(cs: seq<Chunk>, requests: seq<Chunk>): (r: seq<Chunk>)
    ensures |r| == |cs| + |requests|
  {
    if requests == [] then cs
    else AppendNumbered(AppendAll(cs, requests[..|requests| - 1]), requests[|requests| - 1])
  }

  /** Some chunk carries the key (id, index). */
  ghost predicate HasKey(cs: seq<Chunk>, id: string, index: int)
  {
    exists k :: 0 <= k < |cs| && cs[k].id == id && cs[k].index == index
  }

  /** The position of the first chunk with key (id, index), if any. */
  function FindChunk(cs: seq<Chunk>, id: string, index: int): (r: Option<nat>)
    ensures r.Some? ==> r.value < |cs| && cs[r.value].id == id && cs[r.value].index == index
    ensures r.Some? ==> forall j :: 0 <= j < r.value ==> !(cs[j].id == id && cs[j].index == index)
    ensures r.None? <==> !HasKey(cs, id, index)
  {
    if cs == [] then None
    else if cs[0].id == id && cs[0].index == index then Some(0)
    else
      match FindChunk(cs[1..], id, index)
      case None =>
        assert forall k :: 1 <= k < |cs| ==> cs[k] == cs[1..][k - 1];
        None
      case Some(k) => Some(k + 1)
  }

  /** The position of the first chunk inserted with identifier `id`, if any. */
  function FindFirst(cs: seq<Chunk>, id: string): (r: Option<nat>)
    ensures r.Some? ==> r.value < |cs| && cs[r.value].id == id
    ensures r.Some? ==> forall j :: 0 <= j < r.value ==> cs[j].id != id
    ensures r.None? ==> forall j :: 0 <= j < |cs| ==> cs[j].id != id
  {
    if cs == [] then None
    else if cs[0].id == id then Some(0)
    else
      match FindFirst(cs[1..], id)
      case None =>
        assert forall k :: 1 <= k < |cs| ==> cs[k] == cs[1..][k - 1];
        None
      case Some(k) => Some(k + 1)
  }

  /** The set of identifiers that occur in the index. */
  function Identifiers(cs: seq<Chunk>): (ids: set<string>)
  {
    if cs == [] then {} else Identifiers(cs[..|cs| - 1]) + {cs[|cs| - 1].id}
  }

  // ---------------------------------------------------------------
  // Counting

  lemma {:induction false} CountConcat(a: seq<Chunk>, b: seq<Chunk>, id: string)
    ensures Count(a + b, id) == Count(a, id) + Count(b, id)
    decreases |b|
  {
    if b != [] {
      assert (a + b)[..|a + b| - 1] == a + b[..|b| - 1];
      CountConcat(a, b[..|b| - 1], id);
    } else {
      assert a + b == a;
    }
  }

  /** Count of a longer prefix is never smaller. */
  lemma {:induction false} CountPrefixMonotone(s: seq<Chunk>, m: nat, n: nat, id: string)
    requires m <= n <= |s|
    ensures Count(s[..m], id) <= Count(s[..n], id)
    decreases n - m
  {
    if m < n {
      assert s[..n][..n - 1] == s[..n - 1];
      CountPrefixMonotone(s, m, n - 1, id);
    }
  }

  /** A chunk with identifier `id` adds one to the count of every prefix
      that takes it in. */
  lemma CountStep(s: seq<Chunk>, j: nat, id: string)
    requires j < |s|
    ensures Count(s[..j + 1], id) == Count(s[..j], id) + (if s[j].id == id then 1 else 0)
  {
    assert s[..j + 1][..j] == s[..j];
  }

  /** The count is positive exactly when some chunk carries the identifier. */
  lemma {:induction false} CountPositiveIff(cs: seq<Chunk>, id: string)
    ensures Count(cs, id) > 0 <==> exists k :: 0 <= k < |cs| && cs[k].id == id
  {
    if cs != [] {
      var p := cs[..|cs| - 1];
      CountPositiveIff(p, id);
      if Count(p, id) > 0 {
        var k :| 0 <= k < |p| && p[k].id == id;
        assert cs[k].id == id;
      }
      if exists k :: 0 <= k < |cs| && cs[k].id == id {
        var k :| 0 <= k < |cs| && cs[k].id == id;
        if k < |p| { assert p[k].id == id; }
      }
    }
  }

  /** Membership in the identifier set agrees with a positive count. */
  lemma {:induction false} IdentifiersIff(cs: seq<Chunk>, id: string)
    ensures id in Identifiers(cs) <==> Count(cs, id) > 0
  {
    if cs != [] {
      IdentifiersIff(cs[..|cs| - 1], id);
    }
  }

  // ---------------------------------------------------------------
  // Numbering

  lemma WellNumberedPrefix(cs: seq<Chunk>, n: nat)
    requires WellNumbered(cs) && n <= |cs|
    ensures WellNumbered(cs[..n])
  {
    forall k | 0 <= k < n
      ensures cs[..n][k].index == Count(cs[..n][..k], cs[..n][k].id)
    {
      assert cs[..n][..k] == cs[..k];
    }
  }

  /** Adding a chunk through the writer keeps the numbering. */
  lemma AppendNumberedKeepsNumbering(cs: seq<Chunk>, c: Chunk)
    requires WellNumbered(cs)
    ensures WellNumbered(AppendNumbered(cs, c))
  {
    var r := AppendNumbered(cs, c);
    forall k | 0 <= k < |r|
      ensures r[k].index == Count(r[..k], r[k].id)
    {
      if k < |cs| {
        assert r[..k] == cs[..k];
      } else {
        assert r[..k] == cs;
      }
    }
  }

  lemma {:induction false} AppendAllKeepsNumbering(cs: seq<Chunk>, requests: seq<Chunk>)
    requires WellNumbered(cs)
    ensures WellNumbered(AppendAll(cs, requests))
    decreases |requests|
  {
    if requests != [] {
      AppendAllKeepsNumbering(cs, requests[..|requests| - 1]);
      AppendNumberedKeepsNumbering(AppendAll(cs, requests[..|requests| - 1]), requests[|requests| - 1]);
    }
  }

  /** The writer overwrites the index a request carries, so requests that
      differ only there are added alike. */
  lemma AppendNumberedIgnoresIndex(cs: seq<Chunk>, c: Chunk, d: Chunk)
    requires c.(index := 0) == d.(index := 0)
    ensures AppendNumbered(cs, c) == AppendNumbered(cs, d)
  {
    assert c.id == d.id;
  }

  /** A request that already carries the index the writer would give it is
      stored unchanged. */
  lemma AppendNumberedKeepsNumberedRequest(cs: seq<Chunk>, c: Chunk)
    requires c.index == Count(cs, c.id)
    ensures AppendNumbered(cs, c) == cs + [c]
  {
    assert c.(index := Count(cs, c.id)) == c;
  }

  /** Requests that are numbered among themselves, under identifiers the
      index does not hold yet, are stored as they are, after the index. */
  lemma {:induction false} AppendAllFreshIdentifiers(cs: seq<Chunk>, requests: seq<Chunk>)
    requires WellNumbered(requests)
    requires forall k :: 0 <= k < |requests| ==> Count(cs, requests[k].id) == 0
    ensures AppendAll(cs, requests) == cs + requests
    decreases |requests|
  {
    if requests == [] {
      assert cs + requests == cs;
    } else {
      var n := |requests| - 1;
      var front, last := requests[..n], requests[n];
      WellNumberedPrefix(requests, n);
      AppendAllFreshIdentifiers(cs, front);
      CountConcat(cs, front, last.id);
      AppendNumberedKeepsNumberedRequest(cs + front, last);
      ConcatLast(cs, requests);
    }
  }

  /** Splitting the last element off the right operand of a concatenation. */
  lemma ConcatLast(a: seq<Chunk>, b: seq<Chunk>)
    requires b != []
    ensures a + b == (a + b[..|b| - 1]) + [b[|b| - 1]]
  {
    assert b == b[..|b| - 1] + [b[|b| - 1]];
  }

  /** Writing `requests` under one identifier numbers them Count(cs, id),
      Count(cs, id) + 1, ... in call order, and keeps everything else. */
  lemma {:induction false} AppendAllNumbersInOrder(cs: seq<Chunk>, requests: seq<Chunk>, id: Identifier)
    requires forall k :: 0 <= k < |requests| ==> requests[k].id == id
    ensures AppendAll(cs, requests)[..|cs|] == cs
    ensures Count(AppendAll(cs, requests), id) == Count(cs, id) + |requests|
    ensures forall k :: 0 <= k < |requests| ==>
              AppendAll(cs, requests)[|cs| + k] == requests[k].(index := Count(cs, id) + k)
    decreases |requests|
  {
    if requests != [] {
      var n := |requests| - 1;
      var front := requests[..n];
      AppendAllNumbersInOrder(cs, front, id);
      var p := AppendAll(cs, front);
      var r := AppendAll(cs, requests);
      assert r == AppendNumbered(p, requests[n]);
      assert r[..|p|] == p;
      forall k | 0 <= k < |requests|
        ensures r[|cs| + k] == requests[k].(index := Count(cs, id) + k)
      {
        if k < n {
          assert r[|cs| + k] == p[|cs| + k];
          assert front[k] == requests[k];
        }
      }
      calc {
        r[..|cs|];
        p[..|cs|];
        cs;
      }
    }
  }

  /** In a well-numbered index the indices of one identifier strictly
      increase in write order, so no key occurs twice. */
  lemma IndicesIncrease(cs: seq<Chunk>, j: nat, k: nat)
    requires WellNumbered(cs) && j < k < |cs| && cs[j].id == cs[k].id
    ensures cs[j].index < cs[k].index
  {
    CountStep(cs, j, cs[j].id);
    CountPrefixMonotone(cs, j + 1, k, cs[j].id);
  }

  /** The key (id, index) occurs exactly when index lies in [0, Count(id)). */
  lemma {:induction false} HasKeyIffBelowCount(cs: seq<Chunk>, id: string, index: int)
    requires WellNumbered(cs)
    ensures HasKey(cs, id, index) <==> 0 <= index < Count(cs, id)
  {
    if cs != [] {
      var n := |cs| - 1;
      var p, c := cs[..n], cs[n];
      WellNumberedPrefix(cs, n);
      HasKeyIffBelowCount(p, id, index);
      assert c.index == Count(p, c.id);
      if HasKey(cs, id, index) {
        var k :| 0 <= k < |cs| && cs[k].id == id && cs[k].index == index;
        if k < n {
          assert p[k] == cs[k];
        }
      }
      if HasKey(p, id, index) {
        var k :| 0 <= k < |p| && p[k].id == id && p[k].index == index;
        assert cs[k] == p[k];
      }
      if c.id == id && index == Count(p, id) {
        assert cs[n].id == id && cs[n].index == index;
      }
    }
  }

  /** Looking up the key of the chunk at position k finds that very chunk. */
  lemma FindChunkAtPosition(cs: seq<Chunk>, k: nat)
    requires WellNumbered(cs) && k < |cs|
    ensures FindChunk(cs, cs[k].id, cs[k].index) == Some(k)
  {
    var id, index := cs[k].id, cs[k].index;
    var r := FindChunk(cs, id, index);
    assert HasKey(cs, id, index) by {
      assert cs[k].id == id && cs[k].index == index;
    }
    var m := r.value;
    assert m <= k;
    if m < k {
      IndicesIncrease(cs, m, k);
    }
  }

  /** In a well-numbered index the first chunk inserted under an identifier
      is the one with index 0. */
  lemma FirstInsertedIsIndexZero(cs: seq<Chunk>, id: string)
    requires WellNumbered(cs)
    ensures FindFirst(cs, id) == FindChunk(cs, id, 0)
  {
    match FindFirst(cs, id)
    case None =>
      assert !HasKey(cs, id, 0);
    case Some(k) =>
      CountPositiveIff(cs[..k], id);
      assert Count(cs[..k], id) == 0;
      assert cs[k].index == 0;
      FindChunkAtPosition(cs, k);
  }

  /** Appending chunks that all carry `id` to an index of such chunks
      gives an index of such chunks. */
  lemma SameIdentifier(cs: seq<Chunk>, requests: seq<Chunk>, id: Identifier)
    requires forall k :: 0 <= k < |cs| ==> cs[k].id == id
    requires forall k :: 0 <= k < |requests| ==> requests[k].id == id
    ensures forall k :: 0 <= k < |AppendAll(cs, requests)| ==> AppendAll(cs, requests)[k].id == id
  {
    AppendAllNumbersInOrder(cs, requests, id);
    var r := AppendAll(cs, requests);
    forall k | 0 <= k < |r|
      ensures r[k].id == id
    {
      if k < |cs| {
        assert r[..|cs|][k] == cs[k];
      } else {
        assert r[|cs| + (k - |cs|)] == requests[k - |cs|].(index := Count(cs, id) + (k - |cs|));
      }
    }
  }

  /** When every chunk carries `id`, the count of `id` is the length. */
  lemma {:induction false} CountUniform(s: seq<Chunk>, id: Identifier)
    requires forall k :: 0 <= k < |s| ==> s[k].id == id
    ensures Count(s, id) == |s|
  {
    if s != [] {
      CountUniform(s[..|s| - 1], id);
    }
  }

  // ---------------------------------------------------------------
  // Identifier fields

  /** The 16-character identifier field: the name, then NUL padding. */
  function Padded(id: Identifier): (raw: seq<char>)
    ensures |raw| == IdentifierSize
    ensures raw[..|id|] == id
    ensures forall i :: |id| <= i < IdentifierSize ==> raw[i] == '\0'
  {
    id + seq(IdentifierSize - |id|, _ => '\0')
  }

  /** `std::string(buffer)`: the characters before the first NUL. */
  function CString(buffer: seq<char>): (s: string)
    ensures |s| <= |buffer| && s == buffer[..|s|]
    ensures '\0' !in s
    ensures |s| < |buffer| ==> buffer[|s|] == '\0'
  {
    if buffer == [] || buffer[0] == '\0' then []
    else [buffer[0]] + CString(buffer[1..])
  }

  /** The field copied into a zeroed buffer one character longer reads back
      as the identifier itself, also when it fills all 16 characters. */
  lemma TerminatedField(id: Identifier)
    ensures CString(Padded(id) + ['\0']) == id
  {
    var buffer := Padded(id) + ['\0'];
    assert buffer[..|id|] == id;
    assert buffer[|id|] == '\0';
  }
}
