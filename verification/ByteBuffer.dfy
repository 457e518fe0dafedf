/** java.nio.ByteBuffer in big-endian order: a fixed array filled at a moving position. */
module Buffers {
  import opened Bytes

  class ByteBuffer {
    const data: array<byte>
    var position: nat

    constructor (capacity: nat)
      ensures data.Length == capacity && position == 0 && fresh(data)
    {
      data := new byte[capacity];
      position := 0;
    }

    predicate Valid()
      reads this
    {
      position <= data.Length
    }

    /** What has been put so far. */
    function Written(): bytes
      requires Valid()
      reads this, data
    {
      data[..position]
    }

    method Put(b: byte)
      requires Valid() && position < data.Length
      modifies this, data
      ensures Valid() && position == old(position) + 1
      ensures Written() == old(Written()) + [b]
    {
      data[position] := b;
      position := position + 1;
    }

    method PutBytes(s: bytes)
      requires Valid() && position + |s| <= data.Length
      modifies this, data
      ensures Valid() && position == old(position) + |s|
      ensures Written() == old(Written()) + s
    {
      for i := 0 to |s|
        invariant position == old(position) + i
        invariant Written() == old(Written()) + s[..i]
      {
        Put(s[i]);
      }
    }

    /** putShort(n.toShort()). */
    method PutShort(n: int)
      requires Valid() && position + 2 <= data.Length
      modifies this, data
      ensures Valid() && position == old(position) + 2
      ensures Written() == old(Written()) + Be16(n)
    {
      Put(Be16(n)[0]);
      Put(Be16(n)[1]);
    }

    /** putInt(n.toInt()). */
    method PutInt(n: int)
      requires Valid() && position + 4 <= data.Length
      modifies this, data
      ensures Valid() && position == old(position) + 4
      ensures Written() == old(Written()) + Be32(n)
    {
      PutShort(n / 0x1_0000);
      PutShort(n);
      ConcatAssoc(old(Written()), Be16(n / 0x1_0000), Be16(n));
    }

    /** putShort(index, n.toShort()): the position does not move. */
    method PutShortAt(index: nat, n: int)
      requires Valid() && index + 2 <= position
      modifies data
      ensures Written() == old(Written()[..index]) + (Be16(n) + old(Written()[index + 2..]))
    {
      data[index] := Be16(n)[0];
      data[index + 1] := Be16(n)[1];
    }
  }
}
