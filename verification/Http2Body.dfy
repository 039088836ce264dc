/**
 A request body on its way from the session to the handler: the session pushes the contents of DATA
 frames into a pipe and closes it at the end of the stream; the reader hands them out in any portions.
 The pipe is a first-in first-out queue here: session and handlers share one scheduler, so no sender is
 interrupted, and then its `recv` yields nothing only when it is closed and drained.
 */
module Http2Body {
  import opened Wrappers
  import opened ByteIO

  /** Pipe and reader together, and what was ever pushed into them and taken out. */
  datatype Reader = Reader(queue: seq<seq<Byte>>, closed: bool, buf: seq<Byte>, pos: nat, done: bool, pushed: seq<Byte>,
                           taken: seq<Byte>)

  /** What is held back of the last chunk. */
  function Held(r: Reader): seq<Byte> {
    if r.buf != [] && r.pos < |r.buf| then r.buf[r.pos..] else []
  }

  /** What was pushed is what was taken, what is held back, and what is queued. */
  predicate IsReader(r: Reader) {
    && (forall c | c in r.queue :: c != [])
    && (r.buf != [] ==> r.pos < |r.buf|)
    && r.pushed == r.taken + Held(r) + Concat(r.queue)
    && (r.done ==> r.closed && r.queue == [])
  }

  function NewReader(closed: bool): (r: Reader)
    ensures IsReader(r)
  {
    Reader([], closed, [], 0, false, [], [])
  }

  function Pushed(r: Reader, chunk: seq<Byte>): Reader {
    r.(queue := r.queue + [chunk], pushed := r.pushed + chunk)
  }

  function Shut(r: Reader): Reader {
    r.(closed := true)
  }

  /** A read returns only when there is something to return or nothing more will come. */
  predicate CanRead(r: Reader) {
    r.buf != [] || r.queue != [] || r.closed
  }

  function ReadSome(r: Reader, len: nat): (Reader, seq<Byte>)
    requires IsReader(r) && CanRead(r)
  {
    if r.buf != [] then ReadHeld(r, len)
    else if r.queue == [] then (r.(done := true), [])
    else
      var chunk, rest := r.queue[0], r.(queue := r.queue[1..]);
      assert chunk in r.queue;
      if |chunk| <= len then (rest.(taken := r.taken + chunk), chunk) else ReadHeld(rest.(buf := chunk, pos := 0), len)
  }

  function ReadHeld(r: Reader, len: nat): (Reader, seq<Byte>)
    requires r.pos < |r.buf|
  {
    var n := if len < |r.buf| - r.pos then len else |r.buf| - r.pos;
    var bytes := r.buf[r.pos..r.pos + n];
    (r.(taken := r.taken + bytes, pos := r.pos + n, buf := if r.pos + n == |r.buf| then [] else r.buf), bytes)
  }

  lemma PushedIsReader(r: Reader, chunk: seq<Byte>)
    requires IsReader(r) && !r.closed && chunk != []
    ensures IsReader(Pushed(r, chunk))
  {
    hide Concat;
    ConcatAdd(r.queue, chunk);
    assert r.taken + Held(r) + (Concat(r.queue) + chunk) == r.taken + Held(r) + Concat(r.queue) + chunk;
  }

  lemma MovesAcross(taken: seq<Byte>, bytes: seq<Byte>, held: seq<Byte>, queued: seq<Byte>)
    ensures taken + (bytes + held) + queued == taken + bytes + held + queued
    ensures taken + [] + (bytes + queued) == taken + bytes + [] + queued
    ensures taken + [] + (bytes + queued) == taken + bytes + queued
  {
  }

  lemma HeldIsRead(r: Reader, len: nat)
    requires IsReader(r) && r.buf != []
    ensures var (r', bytes) := ReadHeld(r, len);
            && IsReader(r') && |bytes| <= len
            && r'.taken == r.taken + bytes && r'.pushed == r.pushed && r'.closed == r.closed
            && (len > 0 ==> bytes != [])
  {
    hide Concat;
    var (r', bytes) := ReadHeld(r, len);
    assert Held(r) == bytes + Held(r');
    MovesAcross(r.taken, bytes, Held(r'), Concat(r.queue));
  }

  lemma ChunkIsRead(r: Reader, len: nat)
    requires IsReader(r) && r.buf == [] && r.queue != []
    ensures var (r', bytes) := ReadSome(r, len);
            && IsReader(r') && |bytes| <= len
            && r'.taken == r.taken + bytes && r'.pushed == r.pushed && r'.closed == r.closed
            && (len > 0 ==> bytes != [])
  {
    var chunk, rest := r.queue[0], r.queue[1..];
    assert Concat(r.queue) == chunk + Concat(rest);
    hide Concat;
    assert chunk in r.queue && forall c | c in rest :: c in r.queue;
    MovesAcross(r.taken, chunk, [], Concat(rest));
    if |chunk| > len {
      var held := r.(queue := rest, buf := chunk, pos := 0);
      assert IsReader(held);
      HeldIsRead(held, len);
    }
  }

  /**
   A read hands out the next bytes; none, when some are asked for, only when all have been taken and
   no more will come.
   */
  lemma SomeIsRead(r: Reader, len: nat)
    requires IsReader(r) && CanRead(r)
    ensures var (r', bytes) := ReadSome(r, len);
            && IsReader(r') && |bytes| <= len
            && r'.taken == r.taken + bytes && r'.taken <= r'.pushed
            && r'.pushed == r.pushed && r'.closed == r.closed
            && (len > 0 ==> (bytes == [] <==> r.taken == r.pushed))
            && (len > 0 && bytes == [] ==> r.closed)
  {
    if r.buf != [] {
      HeldIsRead(r, len);
    } else if r.queue != [] {
      ChunkIsRead(r, len);
    }
  }

  /** The reader with its fields in place. */
  class BodyReader {
    var queue: seq<seq<Byte>>
    var closed: bool
    var buf: seq<Byte>
    var pos: nat
    var done: bool
    var pushed: seq<Byte>
    var taken: seq<Byte>

    function State(): Reader
      reads this
    {
      Reader(queue, closed, buf, pos, done, pushed, taken)
    }

    constructor ()
      ensures State() == NewReader(false)
    {
      queue, closed, buf, pos, done, pushed, taken := [], false, [], 0, false, [], [];
    }

    method Recv() returns (r: Option<seq<Byte>>)
      requires queue != [] || closed
      modifies this`queue
      ensures r == if old(queue) == [] then None else Some(old(queue)[0])
      ensures queue == if old(queue) == [] then [] else old(queue)[1..]
    {
      if queue == [] {
        return None;
      }
      r := Some(queue[0]);
      queue := queue[1..];
    }

    method Read(len: nat) returns (bytes: seq<Byte>)
      requires IsReader(State()) && CanRead(State())
      modifies this
      ensures (State(), bytes) == ReadSome(old(State()), len)
    {
      if buf == [] {
        var chunk := Recv();
        if chunk.None? {
          done := true;
          return [];
        }
        if |chunk.value| <= len {
          taken := taken + chunk.value;
          return chunk.value;
        }
        buf, pos := chunk.value, 0;
      }
      var n := if len < |buf| - pos then len else |buf| - pos;
      bytes := buf[pos..pos + n];
      taken := taken + bytes;
      pos := pos + n;
      if pos == |buf| {
        buf := [];
      }
    }
  }
}
