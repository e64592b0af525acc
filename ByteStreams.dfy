/** The two in-memory byte streams of java.io that the UUID codec works on:
    a byte array read one byte at a time (ByteArrayInputStream) and a
    growing byte buffer written one byte at a time (ByteArrayOutputStream). */
module ByteStreams {
  import opened JavaArith

  /** java.io.ByteArrayInputStream over a fixed byte array: `pos` is the index
      of the next byte to deliver. */
  class ByteInput {
    const buf: seq<Byte>
    var pos: nat

    ghost predicate Valid()
      reads this
    {
      pos <= |buf|
    }

    /** The bytes not yet delivered. */
    ghost function Remaining(): seq<Byte>
      reads this
      requires Valid()
    {
      buf[pos..]
    }

    constructor (data: seq<Byte>)
      ensures Valid() && buf == data && Remaining() == data
    {
      buf := data;
      pos := 0;
    }

    /** `read()`: the next byte as an int in 0..255 and one step forward, or
        -1 (and no step) once every byte has been delivered. */
    method Read() returns (n: int)
      requires Valid()
      modifies this`pos
      ensures Valid()
      ensures old(Remaining()) == [] ==> n == -1 && Remaining() == []
      ensures old(Remaining()) != [] ==>
        n == old(Remaining())[0] && Remaining() == old(Remaining())[1..]
    {
      if pos < |buf| {
        n := buf[pos];
        pos := pos + 1;
      } else {
        n := -1;
      }
    }
  }

  /** java.io.ByteArrayOutputStream: the bytes written so far, in order. */
  class ByteOutput {
    var bytes: seq<Byte>

    constructor ()
      ensures bytes == []
    {
      bytes := [];
    }

    /** `write(int b)`: appends the low eight bits of `b`. */
    method Write(b: int)
      modifies this
      ensures bytes == old(bytes) + [b % 256]
    {
      bytes := bytes + [b % 256];
    }

    /** `toByteArray()`: a fresh array holding a copy of the bytes written. */
    method ToByteArray() returns (a: array<Byte>)
      ensures fresh(a) && a[..] == bytes
    {
      a := new Byte[|bytes|](i requires 0 <= i < |bytes| reads this => bytes[i]);
    }
  }
}
