/** Sockets with their buffers, and the two functions of session.c that fill and empty them. */
module Sockets {
  import opened Options
  import opened Packet
  import opened SessionModel

  class Socket {
    const fd: int
    const buffer: array<char>
    var bufferUsed: nat
    ghost var offered: string
    ghost var written: string
    ghost var lost: nat

    ghost predicate Valid()
      reads this
    {
      bufferUsed <= buffer.Length
    }

    ghost function View(): Sock
      requires Valid()
      reads this, buffer
    {
      Sock(fd, buffer.Length, buffer[..bufferUsed], offered, written, lost)
    }

    // socket_create and socket_create_by_socket
    constructor (fd: int, bufferSize: nat)
      ensures Valid() && View() == NewSock(fd, bufferSize) && fresh(buffer)
    {
      this.fd := fd;
      buffer := new char[bufferSize](_ => 0 as char);
      bufferUsed, offered, written, lost := 0, "", "", 0;
    }

    // session_buffer_write; where the C code would copy past the buffer, nothing is done.
    method BufferWrite(source: array<char>, length: nat) returns (kind: Append)
      requires Valid() && length <= source.Length && source != buffer
      modifies this, buffer
      ensures Valid()
      ensures kind == AppendKind(old(bufferUsed), buffer.Length, length)
      ensures View() == Appended(old(View()), source[..length])
    {
      if length == 0 {
        return Nothing;
      }
      var size := length;
      kind := Stored;
      if size + bufferUsed > buffer.Length {
        size := buffer.Length;
        kind := Truncated;
      }
      if bufferUsed + size > buffer.Length {
        return Overruns;
      }
      ghost var before := buffer[..bufferUsed];
      forall i | 0 <= i < size { buffer[bufferUsed + i] := source[i]; }
      assert buffer[..bufferUsed + size] == before + source[..size];
      offered := offered + source[..length];
      lost := lost + length - size;
      bufferUsed := bufferUsed + size;
    }

    // session_write_packet once the socket is known
    method Flush(kernel: Kernel)
      requires Valid()
      modifies this, buffer, kernel
      ensures Valid() && View() == Flushed(old(View()), old(kernel.script))
      ensures kernel.written == old(kernel.written) + written[|old(written)|..] && old(written) <= written
      ensures Transmits(Some(old(View())), old(kernel.script), old(kernel.written), kernel.script, kernel.written)
    {
      if bufferUsed > 0 {
        var _ := PacketFullWrite(kernel, buffer, bufferUsed);
        ghost var moved := FullTransfer(old(kernel.script), bufferUsed, 0).moved;
        assert buffer[..bufferUsed][..moved] == buffer[..moved];
        written := written + buffer[..moved];
        lost := lost + bufferUsed - moved;
        bufferUsed := 0;
        forall i | 0 <= i < buffer.Length { buffer[i] := 0 as char; }
      }
    }
  }
}
