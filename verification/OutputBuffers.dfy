/** `FileOutputBuffer`: appended bytes pass through a fixed buffer on their way to a file. */
module OutputBuffers {
  type byte = x: nat | x < 256

  class FileOutputBuffer {
    var file: seq<byte>
    const buffer: array<byte>
    var position: nat

    ghost predicate Valid()
      reads this
    {
      position <= buffer.Length
    }

    /** Everything appended so far: what is in the file, then what waits in the buffer. */
    ghost function Contents(): seq<byte>
      requires Valid()
      reads this, buffer
    {
      file + buffer[..position]
    }

    constructor (bufferSize: nat)
      ensures Valid() && fresh(buffer) && buffer.Length == bufferSize && file == [] && position == 0
      ensures Contents() == []
    {
      file, position := [], 0;
      buffer := new byte[bufferSize](i => 0);
    }

    method FlushBuffer()
      requires Valid()
      modifies this
      ensures Valid() && position == 0 && file == old(Contents()) && Contents() == old(Contents())
    {
      if position > 0 {
        file := file + buffer[..position];
        position := 0;
      }
    }

    /** Copies `data` into the buffer from index `at` on. */
    method Copy(at: nat, data: seq<byte>)
      requires at + |data| <= buffer.Length
      modifies buffer
      ensures buffer[..at] == old(buffer[..at]) && buffer[at..at + |data|] == data
    {
      for i := 0 to |data|
        invariant buffer[..at] == old(buffer[..at]) && buffer[at..at + i] == data[..i]
      {
        buffer[at + i] := data[i];
      }
    }

    /** Three cases: fits behind what waits, fits after a flush, or goes out in buffer-sized chunks. With a buffer
        of size 0 the chunk loop would not advance, so such a buffer accepts empty data only. */
    method Append(data: seq<byte>)
      requires Valid() && (buffer.Length > 0 || data == [])
      modifies this, buffer
      ensures Valid() && Contents() == old(Contents()) + data
    {
      if |data| + position <= buffer.Length {
        Copy(position, data);
        assert buffer[..position + |data|] == buffer[..position] + buffer[position..position + |data|];
      } else if |data| <= buffer.Length {
        FlushBuffer();
        Copy(0, data);
      } else {
        FlushBuffer();
        AppendChunks(data);
        return;
      }
      position := position + |data|;
    }

    method AppendChunks(data: seq<byte>)
      requires Valid() && position == 0 && buffer.Length > 0
      modifies this, buffer
      ensures Valid() && position == 0 && file == old(file) + data
    {
      var i := 0;
      while i < |data|
        invariant Valid() && position == 0 && file == old(file) + data[..if i < |data| then i else |data|]
      {
        var nbytes := if |data| - i < buffer.Length then |data| - i else buffer.Length;
        Copy(0, data[i..i + nbytes]);
        position := nbytes;
        assert data[..i + nbytes] == data[..i] + data[i..i + nbytes];
        FlushBuffer();
        i := i + buffer.Length;
      }
    }

    method Close()
      requires Valid()
      modifies this
      ensures Valid() && file == old(Contents()) && position == 0
    {
      FlushBuffer();
    }
  }
}
