/** The linear byte buffer under every connection (src/net/Buffer.cpp): consumed
    bytes, then readable bytes, then free space, in one array. */
module ByteBuffer {

  const PREPEND_SIZE: nat := 8
  const INITIAL_SIZE: nat := 1024
  const EXTRA_SIZE: nat := 65536

  class Buffer {
    var data: array<char>
    var readIndex: nat
    var writeIndex: nat

    ghost predicate Valid()
      reads this, data
    {
      PREPEND_SIZE <= readIndex <= writeIndex <= data.Length
    }

    /** The bytes a reader still has to see. */
    ghost function Contents(): string
      reads this, data
      requires Valid()
    {
      data[readIndex..writeIndex]
    }

    constructor (initialSize: nat := INITIAL_SIZE)
      ensures Valid() && Contents() == "" && fresh(data)
    {
      data := new char[PREPEND_SIZE + initialSize];
      readIndex, writeIndex := PREPEND_SIZE, PREPEND_SIZE;
    }

    function ReadableBytes(): (n: nat)
      reads this, data
      requires Valid()
      ensures n == |Contents()|
    {
      writeIndex - readIndex
    }

    function WritableBytes(): nat
      reads this, data
      requires Valid()
    {
      data.Length - writeIndex
    }

    /** A copy of the first n readable bytes. */
    method Peek(n: nat) returns (s: string)
      requires Valid() && n <= |Contents()|
      ensures s == Contents()[..n]
    {
      s := data[readIndex..readIndex + n];
    }

    method RetrieveAll()
      requires Valid()
      modifies this`readIndex, this`writeIndex
      ensures Valid() && data == old(data) && Contents() == ""
    {
      readIndex, writeIndex := PREPEND_SIZE, PREPEND_SIZE;
    }

    method Retrieve(len: nat)
      requires Valid()
      modifies this`readIndex, this`writeIndex
      ensures Valid() && data == old(data)
      ensures Contents() == if len <= |old(Contents())| then old(Contents())[len..] else ""
    {
      if len >= ReadableBytes() {
        RetrieveAll();
      } else {
        readIndex := readIndex + len;
      }
    }

    method RetrieveAsString(len: nat) returns (s: string)
      requires Valid()
      modifies this`readIndex, this`writeIndex
      ensures Valid() && data == old(data)
      ensures s + Contents() == old(Contents())
      ensures |s| == if len <= |old(Contents())| then len else |old(Contents())|
    {
      var n := if len <= ReadableBytes() then len else ReadableBytes();
      s := Peek(n);
      Retrieve(n);
    }

    /** Makes room either by moving the readable bytes down over the consumed
        ones or by growing the storage; no byte is lost either way. */
    method MakeSpace(len: nat)
      requires Valid() && WritableBytes() < len
      modifies this, data
      ensures Valid() && (data == old(data) || fresh(data))
      ensures Contents() == old(Contents()) && WritableBytes() >= len
    {
      if WritableBytes() + readIndex < len + PREPEND_SIZE {
        var bigger := new char[writeIndex + len];
        forall i | 0 <= i < writeIndex { bigger[i] := data[i]; }
        data := bigger;
      } else {
        var readable := ReadableBytes();
        forall i | 0 <= i < readable { data[PREPEND_SIZE + i] := data[readIndex + i]; }
        readIndex, writeIndex := PREPEND_SIZE, PREPEND_SIZE + readable;
      }
    }

    method Append(bytes: string)
      requires Valid()
      modifies this, data
      ensures Valid() && (data == old(data) || fresh(data))
      ensures Contents() == old(Contents()) + bytes
    {
      if WritableBytes() < |bytes| {
        MakeSpace(|bytes|);
      }
      forall i | 0 <= i < |bytes| { data[writeIndex + i] := bytes[i]; }
      writeIndex := writeIndex + |bytes|;
    }

    /** How many bytes one readv may deliver: the free tail, plus the 64 KiB
        stack area when the tail is the smaller of the two. */
    function ReadLimit(): nat
      reads this, data
      requires Valid()
    {
      WritableBytes() + if WritableBytes() < EXTRA_SIZE then EXTRA_SIZE else 0
    }

    /** One successful readv that delivered `incoming`: the part that fits goes
        into the tail, the overflow is appended from the stack area. */
    method ReadFd(incoming: string)
      requires Valid() && |incoming| <= ReadLimit()
      modifies this, data
      ensures Valid() && (data == old(data) || fresh(data))
      ensures Contents() == old(Contents()) + incoming
    {
      var writable := WritableBytes();
      var direct := if |incoming| <= writable then |incoming| else writable;
      forall i | 0 <= i < direct { data[writeIndex + i] := incoming[i]; }
      if |incoming| <= writable {
        writeIndex := writeIndex + |incoming|;
      } else {
        writeIndex := data.Length;
        Append(incoming[writable..]);
      }
    }
  }
}
