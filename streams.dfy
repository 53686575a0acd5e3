/**
 * System.IO.Stream as the content helpers use it: a byte sequence, a position,
 * whether the stream is still open, whether it can seek, and the most bytes a
 * single Read hands back (a network or file stream may return fewer bytes than
 * asked for; a MemoryStream never does).
 */
module Streams {
  import opened Basics

  function Min(a: int, b: int): int { if a <= b then a else b }

  class Stream {
    var data: seq<byte>
    var position: nat
    var isOpen: bool
    /** Whether this kind of stream supports seeking while it is open. */
    const seekable: bool
    /** The most bytes one Read returns; 0 means no limit beyond the request. */
    const readLimit: nat

    ghost predicate Valid()
      reads this
    {
      position <= |data|
    }

    /** Stream.CanSeek: false once the stream is disposed. */
    predicate CanSeek()
      reads this
    {
      seekable && isOpen
    }

    /** The bytes a Read of count bytes delivers from the current position. */
    function Available(count: nat): (n: nat)
      requires Valid()
      reads this
      ensures n <= count && position + n <= |data|
      ensures readLimit == 0 ==> n == Min(count, |data| - position)
      ensures readLimit > 0 ==> n == Min(Min(count, |data| - position), readLimit)
    {
      var n := Min(count, |data| - position);
      if readLimit == 0 then n else Min(n, readLimit)
    }

    constructor (data: seq<byte>, seekable: bool, readLimit: nat)
      ensures this.data == data && position == 0 && isOpen
      ensures this.seekable == seekable && this.readLimit == readLimit
      ensures Valid()
    {
      this.data := data;
      this.position := 0;
      this.isOpen := true;
      this.seekable := seekable;
      this.readLimit := readLimit;
    }

    /** Stream.Read(buffer, offset, count): 0 only at the end of the stream or when count is 0. */
    method Read(buffer: array<byte>, offset: nat, count: nat) returns (n: nat)
      requires Valid() && isOpen
      requires offset + count <= buffer.Length
      modifies this`position, buffer
      ensures Valid()
      ensures n == old(Available(count)) && n <= count
      ensures n == 0 ==> count == 0 || old(position) == |data|
      ensures position == old(position) + n
      ensures buffer[..offset + n] == old(buffer[..offset]) + data[old(position)..position]
    {
      n := Available(count);
      var i := 0;
      while i < n
        invariant 0 <= i <= n
        invariant position == old(position)
        invariant buffer[..offset + i] == old(buffer[..offset]) + data[position..position + i]
      {
        buffer[offset + i] := data[position + i];
        i := i + 1;
      }
      position := position + n;
    }

    /** Stream.ReadByte: the next byte, or -1 at the end of the stream. */
    method ReadByte() returns (b: int)
      requires Valid() && isOpen
      modifies this`position
      ensures Valid()
      ensures old(position) < |data| ==> b == data[old(position)] && position == old(position) + 1
      ensures old(position) == |data| ==> b == -1 && position == old(position)
    {
      if position < |data| {
        b := data[position];
        position := position + 1;
      } else {
        b := -1;
      }
    }

    /** The rest of the stream from the current position, as StreamReader.ReadToEnd consumes it. */
    method ReadToEnd() returns (bytes: seq<byte>)
      requires Valid() && isOpen
      modifies this`position
      ensures Valid()
      ensures bytes == data[old(position)..] && position == |data|
    {
      bytes := data[position..];
      position := |data|;
    }

    /** Stream.Write at the current position, overwriting and then extending. */
    method Write(bytes: seq<byte>)
      requires Valid() && isOpen
      modifies this`data, this`position
      ensures Valid()
      ensures position == old(position) + |bytes|
      ensures data[..old(position)] == old(data[..position])
      ensures data[old(position)..position] == bytes
      ensures |data| == if position < |old(data)| then |old(data)| else position
      ensures data[position..] == if position < |old(data)| then old(data)[position..] else []
    {
      var tail := if position + |bytes| < |data| then data[position + |bytes|..] else [];
      data := data[..position] + bytes + tail;
      position := position + |bytes|;
    }

    /** Setting Stream.Position on a seekable stream. */
    method Seek(p: nat)
      requires CanSeek() && p <= |data|
      modifies this`position
      ensures Valid() && position == p
    {
      position := p;
    }

    /** Stream.Dispose, which a StreamReader performs on the stream it wraps. */
    method Dispose()
      modifies this`isOpen
      ensures !isOpen
    {
      isOpen := false;
    }
  }
}
