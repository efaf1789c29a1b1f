/**
 The capped body readers of the Node and Rust SDKs. Each collects chunks the transport chooses into a buffer that grows
 by doubling, and must give the whole body or refuse it, never asking for or holding more than its limit.
 */
module StreamReaders {
  import opened Common

  // What a reader gives for a body: all of it, a refusal, or the transport's error.
  datatype Result = Whole(bytes: seq<byte>) | TooLarge | Failed

  function Bounded(data: seq<byte>, broken: bool, cap: nat): Result
  {
    if |data| > cap then TooLarge else if broken then Failed else Whole(data)
  }

  // One read's outcome.
  datatype Chunk = Data(bytes: seq<byte>) | Done | Error

  class Stream {
    const data: seq<byte>
    const broken: bool
    var pos: nat
    var empties: nat    // how many more empty chunks will come

    constructor (data: seq<byte>, broken: bool, empties: nat)
      ensures Valid() && pos == 0 && this.data == data && this.broken == broken
    {
      this.data, this.broken, this.pos, this.empties := data, broken, 0, empties;
    }

    predicate Valid()
      reads this
    {
      pos <= |data|
    }

    // A read into a view of n bytes: between one byte and n of them, or the end.
    method ReadInto(n: nat) returns (chunk: Chunk)
      requires Valid() && n > 0
      modifies this`pos
      ensures Valid()
      ensures chunk.Data? ==>
                0 < |chunk.bytes| <= n && pos == old(pos) + |chunk.bytes| && chunk.bytes == data[old(pos)..pos]
      ensures !chunk.Data? ==> pos == old(pos) == |data| && (chunk.Error? <==> broken)
    {
      if pos == |data| {
        return if broken then Error else Done;
      }
      var k: nat :| 0 < k <= n && pos + k <= |data|;
      chunk := Data(data[pos..pos + k]);
      pos := pos + k;
    }

    // A read that takes whatever the transport has, possibly nothing.
    method Next() returns (chunk: Chunk)
      requires Valid()
      modifies this
      ensures Valid() && empties <= old(empties)
      ensures chunk.Data? ==> pos == old(pos) + |chunk.bytes| && chunk.bytes == data[old(pos)..pos]
      ensures chunk == Data([]) ==> empties < old(empties)
      ensures !chunk.Data? ==> pos == old(pos) == |data| && (chunk.Error? <==> broken)
    {
      if empties > 0 {
        if * {
          empties := empties - 1;
          return Data([]);
        }
      }
      chunk := ReadInto(|data| + 1);
    }
  }

  const READ_CHUNK_BYTES := 16384

  // Copies of a doubling buffer add up to less than two buffers: kept while it doubles, and once it is at its limit.
  predicate CopiedLittle(copied: nat, size: nat, limit: nat)
  {
    copied <= size || (size == limit && copied < 2 * limit)
  }

  method CopyInto(target: array<byte>, at: nat, bytes: seq<byte>)
    requires at + |bytes| <= target.Length
    modifies target
    ensures target[..at + |bytes|] == old(target[..at]) + bytes
  {
    for i := 0 to |bytes|
      invariant target[..at] == old(target[..at])
      invariant target[at..at + i] == bytes[..i]
    {
      target[at + i] := bytes[i];
    }
    assert target[..at + |bytes|] == target[..at] + target[at..at + |bytes|];
  }

  // Puts what has been read next after what was, in a buffer of twice the size or more if need be, up to the limit.
  method Append(buffer: array<byte>, length: nat, bytes: seq<byte>, limit: nat)
    returns (target: array<byte>, moved: nat)
    requires length <= buffer.Length <= limit && length + |bytes| <= limit
    modifies buffer
    ensures target == buffer || fresh(target)
    ensures length + |bytes| <= target.Length && target[..length + |bytes|] == old(buffer[..length]) + bytes
    ensures target.Length ==
            if length + |bytes| <= buffer.Length then buffer.Length
            else Min(Max(buffer.Length * 2, length + |bytes|), limit)
    ensures moved == if length + |bytes| <= buffer.Length then 0 else length
  {
    target, moved := buffer, 0;
    if length + |bytes| > buffer.Length {
      target := new byte[Min(Max(buffer.Length * 2, length + |bytes|), limit)];
      CopyInto(target, 0, buffer[..length]);
      moved := length;
    }
    CopyInto(target, length, bytes);
  }

  // Node, on a byte stream. asked is the furthest byte ever requested, held the largest buffer, copied the bytes moved
  // by its regrowth.
  method ReadCapped(s: Stream, cap: nat) returns (r: Result, asked: nat, held: nat, copied: nat)
    requires s.Valid() && s.pos == 0
    modifies s
    ensures r == Bounded(s.data, s.broken, cap)
    ensures asked <= cap + 1 && held <= cap + 1 && s.pos <= cap + 1
    ensures copied < 2 * (cap + 1)
    ensures held <= Max(Min(16 * 1024, cap + 1), 2 * s.pos)
  {
    var limit := cap + 1;
    var scratch := Min(READ_CHUNK_BYTES, limit);
    var buffer := new byte[Min(READ_CHUNK_BYTES, limit)];
    var length := 0;
    asked, held, copied := 0, buffer.Length, 0;
    var chunk := Done;
    while length < limit
      invariant fresh(buffer) && 0 < buffer.Length <= limit && held == buffer.Length
      invariant s.Valid() && length == s.pos <= buffer.Length && asked <= limit
      invariant buffer[..length] == s.data[..length] && !chunk.Error?
      invariant CopiedLittle(copied, buffer.Length, limit)
      invariant held <= Max(Min(READ_CHUNK_BYTES, limit), 2 * length)
      decreases limit - length
    {
      var want := Min(scratch, limit - length);
      asked := Max(asked, length + want);
      chunk := s.ReadInto(want);
      if !chunk.Data? {
        break;
      }
      var value := chunk.bytes;
      assert s.data[..length + |value|] == s.data[..length] + value;
      var moved: nat;
      buffer, moved := Append(buffer, length, value, limit);
      copied, held := copied + moved, buffer.Length;
      length := length + |value|;
    }
    if chunk.Error? {
      return Failed, asked, held, copied;
    }
    if length > cap {
      return TooLarge, asked, held, copied;
    }
    r := Whole(buffer[..length]);
  }

  function Concat(chunks: seq<seq<byte>>): seq<byte>
  {
    if chunks == [] then [] else Concat(chunks[..|chunks| - 1]) + chunks[|chunks| - 1]
  }

  lemma {:induction false} ConcatPrefix(chunks: seq<seq<byte>>, i: nat)
    requires i < |chunks|
    ensures |Concat(chunks[..i])| + |chunks[i]| <= |Concat(chunks)|
    ensures Concat(chunks[..i + 1]) == Concat(chunks[..i]) + chunks[i]
  {
    assert chunks[..i + 1][..i] == chunks[..i];
    if i + 1 == |chunks| {
      assert chunks[..i + 1] == chunks;
    } else {
      var pre := chunks[..|chunks| - 1];
      ConcatPrefix(pre, i);
      assert pre[..i] == chunks[..i];
    }
  }

  // Node, on any other stream: the chunks are kept as they are and joined once.
  method ReadCappedChunks(s: Stream, cap: nat) returns (r: Result, kept: nat)
    requires s.Valid() && s.pos == 0
    modifies s
    ensures r == Bounded(s.data, s.broken, cap) && kept <= cap
  {
    var chunks: seq<seq<byte>> := [];
    var length := 0;
    while true
      invariant s.Valid() && length == s.pos <= cap
      invariant Concat(chunks) == s.data[..length]
      decreases |s.data| - s.pos + s.empties
    {
      var chunk := s.Next();
      if chunk.Error? {
        return Failed, length;
      }
      if chunk.Done? {
        break;
      }
      if length + |chunk.bytes| > cap {
        return TooLarge, length;
      }
      assert (chunks + [chunk.bytes])[..|chunks|] == chunks;
      chunks := chunks + [chunk.bytes];
      length := length + |chunk.bytes|;
    }
    var out := new byte[length];
    var offset := 0;
    for i := 0 to |chunks|
      invariant offset == |Concat(chunks[..i])| <= length == |Concat(chunks)|
      invariant out[..offset] == Concat(chunks[..i])
    {
      ConcatPrefix(chunks, i);
      CopyInto(out, offset, chunks[i]);
      offset := offset + |chunks[i]|;
    }
    assert chunks[..|chunks|] == chunks;
    r, kept := Whole(out[..]), length;
  }

  // Rust: a vector whose capacity grows as it is filled and stops at the cap. An allocation is taken to be of exactly
  // the capacity asked for.
  method ReadCappedVec(s: Stream, cap: nat) returns (r: Result, held: nat, copied: nat)
    requires s.Valid() && s.pos == 0
    modifies s
    ensures r == Bounded(s.data, s.broken, cap)
    ensures held <= cap && held <= 2 * s.pos && (copied == 0 || copied < 2 * cap)
  {
    var body := new byte[0];
    var filled := 0;
    held, copied := 0, 0;
    while true
      invariant fresh(body) && held == body.Length <= cap
      invariant s.Valid() && filled == s.pos <= body.Length
      invariant body[..filled] == s.data[..filled]
      invariant CopiedLittle(copied, body.Length, cap)
      invariant body.Length <= 2 * filled
      invariant copied > 0 ==> cap > 0 && copied < 2 * cap
      decreases |s.data| - s.pos + s.empties
    {
      var chunk := s.Next();
      if chunk.Error? {
        return Failed, held, copied;
      }
      if chunk.Done? {
        break;
      }
      var len := filled + |chunk.bytes|;
      if len > cap {
        return TooLarge, held, copied;
      }
      assert s.data[..len] == s.data[..filled] + chunk.bytes;
      var moved: nat;
      body, moved := Append(body, filled, chunk.bytes, cap);
      copied, held := copied + moved, body.Length;
      filled := len;
    }
    r := Whole(body[..filled]);
  }
}
