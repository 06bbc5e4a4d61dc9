/**
 The two ends of the wire: the fixed-capacity output buffer (copiedbuffer.h over
 outbuffer.h) and the cursor over a received frame (receivedframe.h).
 */
module Buffers {
  import opened Basics
  import opened Wire

  const END_OF_FRAME: byte := 206

  class CopiedBuffer {
    const buffer: array<byte>
    var size: nat

    ghost predicate Valid()
      reads this
    {
      size <= buffer.Length
    }

    ghost function Contents(): (bs: bytes)
      requires Valid()
      reads this, buffer
      ensures |bs| == size
    {
      buffer[..size]
    }

    constructor (capacity: nat)
      ensures Valid() && fresh(buffer) && buffer.Length == capacity && Contents() == []
    {
      buffer := new byte[capacity](_ => 0);
      size := 0;
    }

    /** memcpy behind the last octet; the caller answers for the capacity. */
    method Append(data: bytes)
      requires Valid() && size + |data| <= buffer.Length
      modifies this`size, buffer
      ensures Valid() && Contents() == old(Contents()) + data
    {
      forall i | 0 <= i < |data| {
        buffer[size + i] := data[i];
      }
      size := size + |data|;
    }

    /** OutBuffer::add of an integer: the memory image of the value after htobe. */
    method AddInt(host: Host, t: IntType, value: int)
      requires t.Holds(value)
      requires Valid() && size + t.width <= buffer.Length
      modifies this`size, buffer
      ensures Valid() && Contents() == old(Contents()) + EncodeInt(t, value)
    {
      ConvertedMemoryIsNetworkOrder(host, t.width, ToUnsigned(t, value));
      Append(MemoryImage(host, t.width, HostToBig(host, t.width, ToUnsigned(t, value))));
    }
  }

  class ReceivedFrame {
    const data: bytes
    var pos: nat

    ghost predicate Valid()
      reads this
    {
      pos <= |data|
    }

    ghost function Rest(): bytes
      requires Valid()
      reads this
    {
      data[pos..]
    }

    constructor (data: bytes)
      ensures Valid() && this.data == data && pos == 0 && Rest() == data
    {
      this.data := data;
      pos := 0;
    }

    /** The next `size` octets; None where the frame ends first (a protocol exception). */
    method NextData(size: nat) returns (r: Option<bytes>)
      requires Valid()
      modifies this`pos
      ensures Valid()
      ensures if size <= |old(Rest())|
              then r == Some(old(Rest())[..size]) && pos == old(pos) + size
              else r.None? && pos == old(pos)
    {
      if |data| - pos < size {
        return None;
      }
      r := Some(data[pos..pos + size]);
      pos := pos + size;
      assert r.value == old(Rest())[..size];
    }

    /** nextUint8 ... nextInt64: the next integer in network byte order. */
    method NextInt(t: IntType) returns (r: Option<int>)
      requires Valid()
      modifies this`pos
      ensures Valid()
      ensures if t.width <= |old(Rest())|
              then r == Some(DecodeInt(t, old(Rest())[..t.width])) && pos == old(pos) + t.width
              else r.None? && pos == old(pos)
    {
      var octets :- NextData(t.width);
      r := Some(DecodeInt(t, octets));
    }
  }
}
