/**
  A memory-backed `Stream`: its bytes, a read/write position, and whether it is
  still open.
*/
module Streams {
  import opened Bytes

  class MemoryStream {
    var data: seq<byte>
    var position: nat
    /** False once the stream has been closed or disposed. */
    var isOpen: bool

    ghost predicate Valid()
      reads this
    {
      position <= |data|
    }

    /** `new MemoryStream()`: empty, open, positioned at 0. */
    constructor ()
      ensures Valid() && data == [] && position == 0 && isOpen
    {
      data := [];
      position := 0;
      isOpen := true;
    }

    /** `Stream.Length`, defined while the stream is open. */
    function Length(): nat
      reads this
      requires isOpen
    {
      |data|
    }

    /** `Write`: overwrites from the position on, growing the stream as needed. */
    method Write(bytes: seq<byte>)
      requires Valid() && isOpen
      modifies this
      ensures Valid() && isOpen
      ensures position == old(position) + |bytes|
      ensures data[..old(position)] == old(data[..position])
      ensures data[old(position)..position] == bytes
      ensures data[position..] == if position < |old(data)| then old(data)[position..] else []
    {
      var tail := if position + |bytes| < |data| then data[position + |bytes|..] else [];
      data := data[..position] + bytes + tail;
      position := position + |bytes|;
    }

    /** Reading to the end, as `CopyTo` does with its source. */
    method ReadToEnd() returns (bytes: seq<byte>)
      requires Valid() && isOpen
      modifies this
      ensures Valid() && isOpen
      ensures bytes == old(data[position..])
      ensures data == old(data) && position == |data|
    {
      bytes := data[position..];
      position := |data|;
    }

    /** `Seek(0, SeekOrigin.Begin)`. */
    method SeekToBegin()
      requires Valid() && isOpen
      modifies this
      ensures Valid() && isOpen && data == old(data) && position == 0
    {
      position := 0;
    }

    /**
      `Dispose`, as a `CryptoStream` that does not leave its inner stream open
      runs it when it is itself disposed. Closing twice is allowed.
    */
    method Close()
      modifies this
      ensures !isOpen && data == old(data) && position == old(position)
    {
      isOpen := false;
    }
  }
}
