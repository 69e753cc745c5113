/** `src/dataQueue.c`: a ring buffer of bytes with a second read position. */
module Ring {
  import opened Bytes
  import opened Bytecode

  /** Positions wrap around at the end of the buffer. */
  function Wrap(x: nat, size: nat): (r: nat)
    requires x < 2 * size
    ensures r < size
  {
    if x >= size then x - size else x
  }

  /** `n` bytes of a ring from position `head` on. */
  function Cyclic(bytes: seq<Byte>, head: nat, n: nat): (q: seq<Byte>)
    requires head < |bytes| && n <= |bytes|
    ensures |q| == n && forall i :: 0 <= i < n ==> q[i] == bytes[Wrap(head + i, |bytes|)]
  {
    seq(n, i requires 0 <= i < n => bytes[Wrap(head + i, |bytes|)])
  }

  /** Moving the start forward drops bytes. */
  lemma CyclicDrop(bytes: seq<Byte>, head: nat, n: nat, k: nat)
    requires head < |bytes| && k <= n <= |bytes|
    ensures k == |bytes| || Cyclic(bytes, Wrap(head + k, |bytes|), n - k) == Cyclic(bytes, head, n)[k..]
    ensures k == |bytes| ==> Cyclic(bytes, head, 0) == Cyclic(bytes, head, n)[k..]
  {
  }

  /** Writing at the end adds a byte. */
  lemma CyclicAdd(bytes: seq<Byte>, head: nat, n: nat, b: Byte)
    requires head < |bytes| && n < |bytes|
    ensures Cyclic(bytes[Wrap(head + n, |bytes|) := b], head, n + 1) == Cyclic(bytes, head, n) + [b]
  {
  }

  class ByteQueue {
    const buffer: array<Byte>
    var head: nat
    var tail: nat
    var peek: nat
    var count: nat
    var peek_count: nat

    ghost predicate Valid()
      reads this
    {
      && 0 < buffer.Length
      && head < buffer.Length
      && peek_count <= count <= buffer.Length
      && tail == Wrap(head + count, buffer.Length)
      && peek == Wrap(head + (count - peek_count), buffer.Length)
    }

    /** The bytes in the queue, oldest first. */
    ghost function Contents(): (q: seq<Byte>)
      requires Valid()
      reads this, buffer
      ensures |q| == count
    {
      Cyclic(buffer[..], head, count)
    }

    /** How many bytes of the contents lie before the second read position. */
    ghost function Peeked(): nat
      requires Valid()
      reads this
    {
      count - peek_count
    }

    constructor (size: nat)
      requires size > 0
      ensures Valid() && Contents() == [] && Peeked() == 0 && buffer.Length == size && fresh(buffer)
    {
      buffer := new Byte[size](_ => 0);
      head, tail, peek, count, peek_count := 0, 0, 0, 0, 0;
    }

    method ReadOne() returns (byte: Option<Byte>)
      requires Valid()
      modifies this
      ensures Valid()
      ensures old(Contents()) == [] ==> byte == None && Contents() == [] && Peeked() == old(Peeked())
      ensures old(Contents()) != [] ==>
        byte == Some(old(Contents())[0]) && Contents() == old(Contents())[1..] && Peeked() == 0
    {
      if head == tail && count == 0 {
        return None;
      }
      CyclicDrop(buffer[..], head, count, 1);
      byte := Some(buffer[head]);
      head := head + 1;
      count := count - 1;
      if head >= buffer.Length {
        head := 0;
      }
      peek_count := count;
      peek := head;
    }

    method PeekOne() returns (byte: Option<Byte>)
      requires Valid()
      modifies this`peek, this`peek_count
      ensures Valid() && Contents() == old(Contents())
      ensures byte == if old(Peeked()) < count then Some(Contents()[old(Peeked())]) else None
      ensures Peeked() == if old(Peeked()) < count then old(Peeked()) + 1 else old(Peeked())
    {
      if peek == tail && peek_count == 0 {
        return None;
      }
      byte := Some(buffer[peek]);
      peek := peek + 1;
      peek_count := peek_count - 1;
      if peek >= buffer.Length {
        peek := 0;
      }
    }

    method ResetPeek()
      requires Valid()
      modifies this`peek, this`peek_count
      ensures Valid() && Contents() == old(Contents()) && Peeked() == 0
    {
      peek_count := count;
      peek := head;
    }

    method DropAllPeeked()
      requires Valid()
      modifies this`head, this`count
      ensures Valid() && Contents() == old(Contents())[old(Peeked())..] && Peeked() == 0
    {
      CyclicDrop(buffer[..], head, count, count - peek_count);
      count := peek_count;
      head := peek;
    }

    method WriteOne(byte: Byte) returns (result: bool)
      requires Valid()
      modifies this`tail, this`count, this`peek_count, buffer
      ensures Valid() && Peeked() == old(Peeked())
      ensures result <==> |old(Contents())| < buffer.Length
      ensures Contents() == if result then old(Contents()) + [byte] else old(Contents())
    {
      if head == tail && count != 0 {
        return false;
      }
      CyclicAdd(buffer[..], head, count, byte);
      buffer[tail] := byte;
      assert buffer[..] == old(buffer[..])[tail := byte];
      tail := tail + 1;
      count := count + 1;
      peek_count := peek_count + 1;
      if tail >= buffer.Length {
        tail := 0;
      }
      result := true;
    }
  }
}
