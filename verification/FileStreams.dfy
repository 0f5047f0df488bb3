/** The byte streams of the file drivers: a 255-byte write buffer and a 255-byte read buffer over a file. */
module FileStreams {
  import opened Telemetry
  import Framing

  const WRITE_BUFFER_SIZE := 255
  const READ_BUFFER_SIZE := 255

  /**
   An output stream that collects bytes before it writes them. A stream to a file is `reliable`;
   a stream to a device may refuse a byte when its write times out.
   */
  class OutputStream {
    const reliable: bool
    var file: seq<Byte>
    const buffer: array<Byte>
    var index: nat

    ghost predicate Valid()
      reads this
    {
      buffer.Length == WRITE_BUFFER_SIZE && index <= WRITE_BUFFER_SIZE
    }

    /** All bytes put so far: those in the file, then those still buffered. */
    ghost function Contents(): seq<Byte>
      requires Valid()
      reads this, buffer
    {
      file + buffer[..index]
    }

    constructor (reliable: bool)
      ensures Valid() && fresh(buffer)
      ensures Contents() == [] && this.reliable == reliable
    {
      this.reliable := reliable;
      file := [];
      buffer := new Byte[WRITE_BUFFER_SIZE];
      index := 0;
    }

    method Put(byte: Byte) returns (ok: bool)
      requires Valid()
      modifies this, buffer
      ensures Valid() && (reliable ==> ok)
      ensures Contents() == if ok then old(Contents()) + [byte] else old(Contents())
    {
      ok := true;
      if !reliable {
        ok := *;
        if !ok {
          return;
        }
      }
      if index >= WRITE_BUFFER_SIZE {
        file := file + buffer[..WRITE_BUFFER_SIZE];
        index := 0;
      }
      buffer[index] := byte;
      index := index + 1;
      assert buffer[..index] == buffer[..index - 1] + [byte];
    }

    method Flush() returns (ok: bool)
      requires Valid()
      modifies this
      ensures Valid() && (reliable ==> ok)
      ensures Contents() == old(Contents())
      ensures ok ==> file == old(Contents())
    {
      ok := true;
      if !reliable {
        ok := *;
        if !ok {
          return;
        }
      }
      file := file + buffer[..index];
      index := 0;
    }
  }

  /** An input stream over a file, freshly opened. `position` counts the bytes handed out. */
  class InputStream {
    const file: seq<Byte>
    var unread: nat
    var good: bool
    const buffer: array<Byte>
    var index: nat
    var limit: nat
    ghost var position: nat

    /** What is buffered, followed by what was not yet read, is what the file holds from `position` on. */
    ghost predicate Valid()
      reads this, buffer
    {
      && buffer.Length == READ_BUFFER_SIZE
      && index <= limit <= READ_BUFFER_SIZE
      && unread <= |file|
      && (!good ==> unread == |file|)
      && buffer[index..limit] + file[unread..] == if position <= |file| then file[position..] else []
    }

    constructor (file: seq<Byte>)
      ensures Valid() && fresh(buffer)
      ensures this.file == file && position == 0
    {
      this.file := file;
      unread := 0;
      good := true;
      buffer := new Byte[READ_BUFFER_SIZE];
      index := 0;
      limit := 0;
      position := 0;
    }

    /** Reads up to a full buffer from the file; a short read ends the stream. */
    method Refill()
      requires Valid() && index >= limit && good
      modifies this`unread, this`good, this`index, this`limit, buffer
      ensures Valid() && index == 0
      ensures unread >= old(unread) && (limit == 0 ==> !good) && (limit > 0 ==> unread > old(unread))
    {
      var count := if |file| - unread < READ_BUFFER_SIZE then |file| - unread else READ_BUFFER_SIZE;
      ghost var rest := file[unread..];
      forall i | 0 <= i < count {
        buffer[i] := file[unread + i];
      }
      good := count == READ_BUFFER_SIZE;
      unread := unread + count;
      limit := count;
      index := 0;
      assert buffer[..count] == rest[..count] && file[unread..] == rest[count..];
    }

    /** The next byte of the file, and 0x7E for ever once there is none. */
    method Get() returns (byte: Byte)
      requires Valid()
      modifies this, buffer
      ensures Valid() && position == old(position) + 1
      ensures byte == Framing.Get(file, old(position))
    {
      while index >= limit
        invariant Valid() && position == old(position)
        modifies this, buffer
        decreases good, |file| - unread
      {
        if !good {
          assert buffer[index..limit] + file[unread..] == [];
          position := position + 1;
          return 0x7E;
        }
        Refill();
      }
      TakeFirst(buffer[index..limit], file[unread..], file, position);
      byte := buffer[index];
      index := index + 1;
      position := position + 1;
      assert buffer[index..limit] == buffer[index - 1..limit][1..];
    }
  }

  lemma TakeFirst(buffered: seq<Byte>, rest: seq<Byte>, file: seq<Byte>, position: nat)
    requires buffered != [] && buffered + rest == if position <= |file| then file[position..] else []
    ensures position < |file| && buffered[0] == file[position] && buffered[1..] + rest == file[position + 1..]
  {
    assert (buffered + rest)[0] == buffered[0] && (buffered + rest)[1..] == buffered[1..] + rest;
  }
}
