/** A pipe: a ring buffer that delivers bytes in the order it accepted them. */
module Pipes {
  import opened Bytes

  const PIPE_CAPACITY := 4096

  /** The `length` bytes of a ring that start at `head`. */
  function Ring(buffer: seq<byte>, head: nat, length: nat): (s: seq<byte>)
    requires |buffer| == PIPE_CAPACITY
    ensures |s| == length
  {
    seq(length, (i: nat) => buffer[(head + i) % PIPE_CAPACITY])
  }

  lemma RingPop(buffer: seq<byte>, head: nat, length: nat)
    requires |buffer| == PIPE_CAPACITY && head < PIPE_CAPACITY && length > 0
    ensures Ring(buffer, head, length) == [buffer[head]] + Ring(buffer, (head + 1) % PIPE_CAPACITY, length - 1)
  {
  }

  lemma RingPush(buffer: seq<byte>, head: nat, length: nat, b: byte)
    requires |buffer| == PIPE_CAPACITY && head < PIPE_CAPACITY && length < PIPE_CAPACITY
    ensures Ring(buffer[(head + length) % PIPE_CAPACITY := b], head, length + 1) == Ring(buffer, head, length) + [b]
  {
    var after := Ring(buffer[(head + length) % PIPE_CAPACITY := b], head, length + 1);
    assert forall i :: 0 <= i < length ==> after[i] == Ring(buffer, head, length)[i];
  }

  class Pipe {
    const bytes: array<byte>
    var head: nat
    var length: nat
    var readers: nat
    var writers: nat
    ghost var accepted: seq<byte>
    ghost var delivered: seq<byte>

    ghost predicate InRange()
      reads this`head, this`length
    {
      bytes.Length == PIPE_CAPACITY && head < PIPE_CAPACITY && length <= PIPE_CAPACITY
    }

    /** The bytes in the buffer, oldest first. */
    ghost function Contents(): (s: seq<byte>)
      requires InRange()
      reads this`head, this`length, bytes
    {
      Ring(bytes[..], head, length)
    }

    /** What was read, followed by what is buffered, is what was written. */
    ghost predicate Valid()
      reads this`head, this`length, this`accepted, this`delivered, bytes
    {
      InRange() && accepted == delivered + Contents()
    }

    constructor ()
      ensures Valid() && fresh(bytes) && readers == 1 && writers == 1 && accepted == delivered == [] && length == 0
    {
      bytes := new byte[PIPE_CAPACITY](i => 0);
      head := 0;
      length := 0;
      readers := 1;
      writers := 1;
      accepted := [];
      delivered := [];
    }

    /** Fills an output buffer of `room` bytes as far as it can. */
    method Read(room: nat) returns (output: seq<byte>)
      requires Valid()
      modifies this`head, this`length, this`delivered
      ensures Valid() && accepted == old(accepted)
      ensures |output| == if room < old(length) then room else old(length)
      ensures output == old(Contents())[..|output|]
      ensures delivered == old(delivered) + output && Contents() == old(Contents())[|output|..]
    {
      hide Ring;
      var count := if room < length then room else length;
      output := [];
      ghost var before := Contents();
      for k := 0 to count
        invariant delivered == old(delivered) && accepted == old(accepted)
        invariant InRange() && length == |before| - k && output == before[..k]
        invariant Contents() == before[k..]
      {
        RingPop(bytes[..], head, length);
        output := output + [bytes[head]];
        head := (head + 1) % PIPE_CAPACITY;
        length := length - 1;
        assert Contents() == before[k..][1..];
      }
      delivered := delivered + output;
      assert before == output + Contents();
      assert accepted == old(delivered) + (output + Contents());
    }

    /** Accepts as much of the input as there is room for. */
    method Write(input: seq<byte>) returns (count: nat)
      requires Valid()
      modifies this`length, this`accepted, bytes
      ensures Valid() && delivered == old(delivered)
      ensures count == if |input| < PIPE_CAPACITY - old(length) then |input| else PIPE_CAPACITY - old(length)
      ensures accepted == old(accepted) + input[..count] && Contents() == old(Contents()) + input[..count]
    {
      hide Ring;
      count := if |input| < PIPE_CAPACITY - length then |input| else PIPE_CAPACITY - length;
      ghost var before := Contents();
      for k := 0 to count
        invariant delivered == old(delivered) && accepted == old(accepted)
        invariant InRange() && length == |before| + k
        invariant Contents() == before + input[..k]
      {
        RingPush(bytes[..], head, length, input[k]);
        ghost var now := bytes[..];
        var tail := (head + length) % PIPE_CAPACITY;
        bytes[tail] := input[k];
        assert bytes[..] == now[tail := input[k]];
        length := length + 1;
        assert before + input[..k + 1] == before + input[..k] + [input[k]];
      }
      accepted := accepted + input[..count];
      assert delivered + (before + input[..count]) == (delivered + before) + input[..count];
    }
  }
}
