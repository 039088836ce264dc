/**
 Bytes, the byte stream a body is read from and the buffer in front of it.

 A stream is the bytes still to arrive. How many of them one read delivers is up to the network, so
 `Read` returns any number from one to the number asked for, and none only at the end of the stream
 or when asked for none.
 */
module ByteIO {
  import opened Wrappers

  type Byte = x: int | 0 <= x < 256

  function Concat(chunks: seq<seq<Byte>>): seq<Byte> {
    if chunks == [] then [] else chunks[0] + Concat(chunks[1..])
  }

  lemma {:induction false} ConcatAdd(chunks: seq<seq<Byte>>, chunk: seq<Byte>)
    ensures Concat(chunks + [chunk]) == Concat(chunks) + chunk
  {
    if chunks == [] {
      assert [] + [chunk] == [chunk] && [chunk][1..] == [];
    } else {
      ConcatAdd(chunks[1..], chunk);
      assert (chunks + [chunk])[1..] == chunks[1..] + [chunk];
    }
  }

  class ByteStream {
    var pending: seq<Byte>

    constructor (bytes: seq<Byte>)
      ensures pending == bytes
    {
      pending := bytes;
    }

    method Read(len: nat) returns (bytes: seq<Byte>)
      modifies this
      ensures |bytes| <= len && old(pending) == bytes + pending
      ensures bytes == [] <==> len == 0 || old(pending) == []
    {
      if len == 0 || pending == [] {
        return [];
      }
      var n :| 1 <= n <= len && n <= |pending|;
      bytes, pending := pending[..n], pending[n..];
    }

    /** All `len` bytes, however they arrive, or none at the end of the stream. */
    method ReadExact(len: nat) returns (r: Option<seq<Byte>>)
      modifies this
      ensures r.None? <==> |old(pending)| < len
      ensures r.Some? ==> |r.value| == len && old(pending) == r.value + pending
    {
      var total: seq<Byte> := [];
      while |total| < len
        invariant |total| <= len && old(pending) == total + pending
      {
        var more := Read(len - |total|);
        if |more| == 0 {
          return None;
        }
        total := total + more;
      }
      return Some(total);
    }
  }

  /** The unread bytes are `buffer[readOffset..writeOffset]`; what lies after them is free space. */
  class StringBuffer {
    var buffer: seq<Byte>
    var readOffset: nat
    var writeOffset: nat

    ghost predicate Valid()
      reads this
    {
      readOffset <= writeOffset <= |buffer|
    }

    constructor ()
      ensures Valid() && View() == []
    {
      buffer, readOffset, writeOffset := [], 0, 0;
    }

    function View(): seq<Byte>
      requires Valid()
      reads this
    {
      buffer[readOffset..writeOffset]
    }

    function RemainSize(): (n: nat)
      requires Valid()
      reads this
      ensures n == |View()|
    {
      writeOffset - readOffset
    }

    method Consume(n: nat)
      requires Valid() && n <= |View()|
      modifies this
      ensures Valid() && View() == old(View()[n..])
    {
      readOffset := readOffset + n;
    }

    /** Makes room for `len` bytes: compacts when that is enough, else grows. The unread bytes stay the same. */
    method PrepareWrite(len: nat)
      requires Valid()
      modifies this
      ensures Valid() && View() == old(View()) && |buffer| - writeOffset >= len
      ensures |buffer| == if old(|View()|) + len <= old(|buffer|) then old(|buffer|) else old(writeOffset) + len
      ensures old(|buffer| - writeOffset) >= len ==>
                buffer == old(buffer) && readOffset == old(readOffset) && writeOffset == old(writeOffset)
    {
      if |buffer| - writeOffset < len {
        if readOffset > 0 && |buffer| - (writeOffset - readOffset) >= len {
          var remaining := writeOffset - readOffset;
          buffer := buffer[readOffset..writeOffset] + buffer[remaining..];
          writeOffset, readOffset := remaining, 0;
        } else {
          buffer := buffer + seq(writeOffset + len - |buffer|, i => 0);
        }
      }
    }

    /** Puts `bytes` where the write position points, as a read into it does, and commits them. */
    method CommitWrite(bytes: seq<Byte>)
      requires Valid() && |bytes| <= |buffer| - writeOffset
      modifies this
      ensures Valid() && View() == old(View()) + bytes
    {
      buffer := buffer[..writeOffset] + bytes + buffer[writeOffset + |bytes|..];
      writeOffset := writeOffset + |bytes|;
    }

    /** Reads up to 128 more bytes from the stream behind the unread ones. */
    method Fill(stream: ByteStream) returns (n: nat)
      requires Valid()
      modifies this, stream
      ensures Valid() && View() + stream.pending == old(View() + stream.pending)
      ensures n == |View()| - |old(View())| && old(View()) <= View()
      ensures n == 0 <==> old(stream.pending) == []
    {
      PrepareWrite(128);
      var bytes := stream.Read(128);
      CommitWrite(bytes);
      n := |bytes|;
    }
  }
}
