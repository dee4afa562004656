/** The `io.Writer` and bounded `io.Reader` the codec talks to.

    A writer is a byte sink with a fixed capacity: a write stores as much of
    its argument as still fits, reports how many bytes it stored and fails
    with a short write when that is fewer than it was given (the `io.Writer`
    contract: `n < len(p)` comes with a non-nil error). It also keeps a log
    of the writes it was offered, so that a caller's contract can say how
    many writes it made, including any after a failure. A reader is the byte
    sequence that remains in a stream already bounded by its caller. */
module Streams {
  import opened Bytes

  /** The errors a write can report. `FieldFailed` is the
      `fmt.Errorf("field #%d: %w", i, err)` wrapping done by field writing. */
  datatype Error = ShortWrite | FieldFailed(index: nat, cause: Error)

  /** A Go `error` result: `nil` or an error value. */
  datatype Status = Ok | Failed(error: Error)

  /** What a sink of `capacity` bytes holds after it has been offered `s`. */
  function Clip(s: seq<byte>, capacity: nat): (r: seq<byte>)
    ensures |r| == if |s| <= capacity then |s| else capacity
    ensures r == s[..|r|]
  {
    if |s| <= capacity then s else s[..capacity]
  }

  /** Offering more bytes to a sink that is already full changes nothing. */
  lemma ClipFull(s: seq<byte>, t: seq<byte>, capacity: nat)
    requires capacity < |s|
    ensures Clip(s + t, capacity) == Clip(s, capacity)
  {
    assert (s + t)[..capacity] == s[..capacity];
  }

  class Sink {
    var data: seq<byte>
    const capacity: nat
    /** Every argument the sink has been offered, one entry per write call,
        whether or not it fitted. */
    ghost var offered: seq<seq<byte>>

    ghost predicate Valid()
      reads this
    {
      |data| <= capacity
    }

    constructor (capacity: nat)
      ensures Valid() && data == [] && this.capacity == capacity && offered == []
    {
      data := [];
      offered := [];
      this.capacity := capacity;
    }

    /** `w.Write(p)`. */
    method Write(p: seq<byte>) returns (n: nat, err: Status)
      requires Valid()
      modifies this
      ensures Valid()
      ensures data == Clip(old(data) + p, capacity)
      ensures n == |data| - |old(data)| && n <= |p|
      ensures err == if n == |p| then Ok else Failed(ShortWrite)
      ensures offered == old(offered) + [p]
    {
      offered := offered + [p];
      var room := capacity - |data|;
      n := if |p| <= room then |p| else room;
      data := data + p[..n];
      assert old(data) + p[..n] == (old(data) + p)[..|old(data)| + n];
      err := if n == |p| then Ok else Failed(ShortWrite);
    }
  }

  class Reader {
    var remaining: seq<byte>

    constructor (input: seq<byte>)
      ensures remaining == input
    {
      remaining := input;
    }

    /** `io.ReadAll(r)` on an in-memory, already bounded stream. */
    method ReadAll() returns (b: seq<byte>)
      modifies this
      ensures b == old(remaining) && remaining == []
    {
      b := remaining;
      remaining := [];
    }
  }
}
