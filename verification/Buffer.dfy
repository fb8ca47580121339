/** The sliding byte buffer: a growing array with a read and a write position, used as a byte queue. */
module Buffer {
  import opened Text

  const STACK_SIZE: nat := 65535
  const HEAD_END: string := "\r\n\r\n"

  /** The outcome of one `readv` into a buffer with `room` writable bytes and the stack block behind it. */
  datatype ReadResult = Failed | Got(bytes: string)

  class Buffer {
    var buffer: array<char>
    var readPos: nat
    var writePos: nat

    ghost predicate Valid()
      reads this
    {
      readPos <= writePos <= buffer.Length
    }

    /** The bytes written and not yet retrieved, oldest first. */
    ghost function Contents(): string
      reads this, buffer
      requires Valid()
    {
      buffer[readPos..writePos]
    }

    constructor (size: nat)
      ensures Valid() && Contents() == "" && fresh(buffer) && buffer.Length == size
    {
      buffer := new char[size](_ => '\0');
      readPos, writePos := 0, 0;
    }

    function ReadableBytes(): nat
      reads this
      requires Valid()
    {
      writePos - readPos
    }

    function WritableBytes(): nat
      reads this
      requires Valid()
    {
      buffer.Length - writePos
    }

    /** Moves everything to a larger array. */
    method Grow(size: nat)
      requires Valid() && size > buffer.Length
      modifies this`buffer
      ensures Valid() && Contents() == old(Contents()) && fresh(buffer) && buffer.Length == size
    {
      var bigger := new char[size](_ => '\0');
      var k := 0;
      while k < buffer.Length
        invariant k <= buffer.Length < bigger.Length
        invariant forall j :: 0 <= j < k ==> bigger[j] == buffer[j]
        modifies bigger
      {
        bigger[k] := buffer[k];
        k := k + 1;
      }
      assert bigger[readPos..writePos] == Contents();
      buffer := bigger;
    }

    /** Moves the contents to the front of the array. */
    method Compact()
      requires Valid()
      modifies this`readPos, this`writePos, buffer
      ensures Valid() && Contents() == old(Contents()) && WritableBytes() == old(WritableBytes() + readPos)
    {
      var readable := ReadableBytes();
      ghost var before := Contents();
      var k := 0;
      // source and destination overlap: what is still to be copied has not been overwritten yet
      while k < readable
        invariant k <= readable
        invariant forall j :: 0 <= j < k ==> buffer[j] == before[j]
        invariant forall j :: k <= j < readable ==> buffer[readPos + j] == before[j]
        modifies buffer
      {
        buffer[k] := buffer[readPos + k];
        k := k + 1;
      }
      readPos, writePos := 0, readable;
      assert Contents() == before;
    }

    /** Makes room for `len` bytes, by moving the contents to the front of the same array if that is enough, else by
        growing the array. */
    method MakeSpace(len: nat)
      requires Valid() && WritableBytes() < len
      modifies this, buffer
      ensures Valid() && Contents() == old(Contents()) && WritableBytes() >= len
      ensures buffer == old(buffer) || fresh(buffer)
    {
      if WritableBytes() + readPos < len {
        Grow(writePos + len + 1);
      } else {
        Compact();
      }
    }

    method EnsureWriteable(len: nat)
      requires Valid()
      modifies this, buffer
      ensures Valid() && Contents() == old(Contents()) && WritableBytes() >= len
      ensures buffer == old(buffer) || fresh(buffer)
    {
      if WritableBytes() < len { MakeSpace(len); }
    }

    method Append(str: string)
      requires Valid()
      modifies this, buffer
      ensures Valid() && Contents() == old(Contents()) + str
      ensures buffer == old(buffer) || fresh(buffer)
    {
      EnsureWriteable(|str|);
      Fill(str);
      writePos := writePos + |str|;
    }

    /** Copies `str` behind the write position. */
    method Fill(str: string)
      requires Valid() && |str| <= WritableBytes()
      modifies buffer
      ensures buffer[..writePos] == old(buffer[..writePos]) && buffer[writePos..writePos + |str|] == str
    {
      var k := 0;
      while k < |str|
        invariant k <= |str|
        invariant buffer[..writePos] == old(buffer[..writePos]) && buffer[writePos..writePos + k] == str[..k]
        modifies buffer
      {
        buffer[writePos + k] := str[k];
        k := k + 1;
      }
    }

    method Retrieve(len: nat)
      requires Valid() && len <= ReadableBytes()
      modifies this`readPos
      ensures Valid() && Contents() == old(Contents())[len..]
    {
      readPos := readPos + len;
    }

    method RetrieveAll()
      requires Valid()
      modifies this`readPos, this`writePos, buffer
      ensures Valid() && Contents() == ""
    {
      forall k | 0 <= k < buffer.Length { buffer[k] := '\0'; }
      readPos, writePos := 0, 0;
    }

    /** One `readv` into the writable part and, behind it, a block on the stack that is appended afterwards. */
    method ReadFd(result: ReadResult) returns (n: int)
      requires Valid() && (result.Got? ==> |result.bytes| <= WritableBytes() + STACK_SIZE)
      modifies this, buffer
      ensures Valid() && (buffer == old(buffer) || fresh(buffer))
      ensures if result.Failed? then n == -1 && Contents() == old(Contents())
              else n == |result.bytes| && Contents() == old(Contents()) + result.bytes
    {
      if result.Failed? { return -1; }
      var writable := WritableBytes();
      n := |result.bytes|;
      if n <= writable {
        Fill(result.bytes);
        writePos := writePos + n;
      } else {
        var head := result.bytes[..writable];
        Fill(head);
        writePos := buffer.Length;
        assert Contents() == old(Contents()) + head;
        Append(result.bytes[writable..]);
        assert result.bytes == head + result.bytes[writable..];
      }
    }

    /** The distance from the read position to the first CRLF CRLF in the contents, or -1. */
    method FindCrlf() returns (r: int)
      requires Valid()
      ensures r == -1 <==> !Contains(Contents(), HEAD_END)
      ensures r >= 0 ==> At(Contents(), HEAD_END, r) && forall k: nat :: k < r ==> !At(Contents(), HEAD_END, k)
    {
      r := Find(buffer[readPos..writePos], HEAD_END, 0);
    }
  }
}
