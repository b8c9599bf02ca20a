/** The short-count loops of packet.c over a kernel that answers in its own way. */
module Packet {

  // What the kernel does with one read or write: it is interrupted, fails, or moves up
  // to `n` bytes. Count(0) is the end of the stream.
  datatype Outcome = Interrupted | Failed | Count(n: nat)

  type Script = seq<Outcome>

  function Min(a: nat, b: nat): nat { if a <= b then a else b }

  // The answer to one call that asks for `size` bytes; an exhausted script only fails.
  function Answer(script: Script, size: nat): int {
    if script == [] || !script[0].Count? then -1 else Min(script[0].n, size)
  }

  // One descriptor, seen from the process.
  class Kernel {
    var script: Script
    var written: string           // accepted so far
    const incoming: nat -> char   // the stream that reads take from
    var position: nat

    constructor (script: Script, incoming: nat -> char)
      ensures this.script == script && written == "" && this.incoming == incoming && position == 0
    {
      this.script, written, this.incoming, position := script, "", incoming, 0;
    }

    method Write(data: string) returns (ret: int, interrupted: bool)
      modifies this
      ensures ret == Answer(old(script), |data|) && interrupted == (old(script) != [] && old(script)[0].Interrupted?)
      ensures script == if old(script) == [] then [] else old(script)[1..]
      ensures written == old(written) + data[..if ret < 0 then 0 else ret] && position == old(position)
    {
      ret := Answer(script, |data|);
      interrupted := script != [] && script[0].Interrupted?;
      if ret >= 0 { written := written + data[..ret]; }
      if script != [] { script := script[1..]; }
    }

    method Read(buffer: array<char>, offset: nat, size: nat) returns (ret: int, interrupted: bool)
      requires offset + size <= buffer.Length
      modifies this, buffer
      ensures ret == Answer(old(script), size) && interrupted == (old(script) != [] && old(script)[0].Interrupted?)
      ensures script == if old(script) == [] then [] else old(script)[1..]
      ensures position == old(position) + (if ret < 0 then 0 else ret) && written == old(written)
      ensures forall i :: offset <= i < offset + ret ==> buffer[i] == incoming(old(position) + (i - offset))
      ensures forall i :: 0 <= i < buffer.Length && !(offset <= i < offset + ret) ==> buffer[i] == old(buffer[i])
    {
      ret := Answer(script, size);
      interrupted := script != [] && script[0].Interrupted?;
      if ret >= 0 {
        forall i | 0 <= i < ret { buffer[offset + i] := incoming(position + i); }
        position := position + ret;
      }
      if script != [] { script := script[1..]; }
    }
  }

  // ---- What the loops compute ----

  function SkipInterrupts(script: Script): (rest: Script)
    ensures |rest| <= |script|
    ensures rest != [] ==> !rest[0].Interrupted?
  {
    if script != [] && script[0].Interrupted? then SkipInterrupts(script[1..]) else script
  }

  datatype Transfer = Transfer(ret: int, moved: nat, rest: Script)

  function Tail(script: Script): Script {
    if script == [] then [] else script[1..]
  }

  // packet_full_write and packet_full_read after `done` bytes, with `size` to go.
  function FullTransfer(script: Script, size: nat, done: nat): Transfer
    decreases |script|
  {
    var now := SkipInterrupts(script);
    var ret := Answer(now, size);
    if ret < 0 then Transfer(ret, 0, Tail(now))
    else if ret == 0 then Transfer(done, 0, Tail(now))
    else if ret == size then Transfer(done + size, size, Tail(now))
    else var t := FullTransfer(Tail(now), size - ret, done + ret); t.(moved := ret + t.moved)
  }

  method PacketWrite(kernel: Kernel, data: string) returns (ret: int)
    modifies kernel
    ensures ret == Answer(SkipInterrupts(old(kernel.script)), |data|)
    ensures kernel.script == Tail(SkipInterrupts(old(kernel.script)))
    ensures kernel.written == old(kernel.written) + data[..if ret < 0 then 0 else ret]
    ensures kernel.position == old(kernel.position)
  {
    var interrupted;
    ghost var start := kernel.script;
    ret, interrupted := kernel.Write(data);
    while ret < 0 && interrupted
      invariant ret == Answer(start, |data|) && interrupted == (start != [] && start[0].Interrupted?)
      invariant kernel.script == Tail(start)
      invariant kernel.written == old(kernel.written) + data[..if ret < 0 then 0 else ret]
      invariant kernel.position == old(kernel.position)
      invariant SkipInterrupts(start) == SkipInterrupts(old(kernel.script))
      decreases |start|
    {
      start := kernel.script;
      ret, interrupted := kernel.Write(data);
    }
  }

  lemma TakeMore(buffer: array<char>, done: nat, size: nat, more: nat)
    requires more <= size && done + size <= buffer.Length
    ensures buffer[..done] + buffer[done..done + size][..more] == buffer[..done + more]
  {
    assert buffer[done..done + size][..more] == buffer[done..done + more];
  }

  lemma Shrinks(script: Script, size: nat)
    ensures |Tail(SkipInterrupts(script))| <= |script|
    ensures Answer(SkipInterrupts(script), size) >= 0 ==> |Tail(SkipInterrupts(script))| < |script|
  {
  }

  method PacketFullWrite(kernel: Kernel, buffer: array<char>, length: nat) returns (result: int)
    requires length <= buffer.Length
    modifies kernel
    ensures var t := FullTransfer(old(kernel.script), length, 0);
            result == t.ret && kernel.script == t.rest && t.moved <= length &&
            kernel.written == old(kernel.written) + buffer[..t.moved]
  {
    hide SkipInterrupts, Tail;
    var size: nat, writtenSize: nat := length, 0;
    TransferWithin(kernel.script, length, 0);
    while true
      invariant writtenSize + size == length && (size == 0 ==> length == 0)
      invariant kernel.written == old(kernel.written) + buffer[..writtenSize]
      invariant var whole := FullTransfer(old(kernel.script), length, 0);
                var t := FullTransfer(kernel.script, size, writtenSize);
                t.ret == whole.ret && t.rest == whole.rest && writtenSize + t.moved == whole.moved
      decreases |kernel.script|
    {
      Shrinks(kernel.script, size);
      var ret := PacketWrite(kernel, buffer[writtenSize..writtenSize + size]);
      if ret < 0 {
        return ret;
      } else if ret == 0 {
        return writtenSize;
      }
      if ret > size {
        return ret;
      }
      TakeMore(buffer, writtenSize, size, ret);
      writtenSize := writtenSize + ret;
      size := size - ret;
      if size == 0 {
        return writtenSize;
      }
    }
  }

  method PacketRead(kernel: Kernel, buffer: array<char>, offset: nat, size: nat) returns (ret: int)
    requires offset + size <= buffer.Length
    modifies kernel, buffer
    ensures ret == Answer(SkipInterrupts(old(kernel.script)), size)
    ensures kernel.script == Tail(SkipInterrupts(old(kernel.script)))
    ensures kernel.position == old(kernel.position) + (if ret < 0 then 0 else ret)
    ensures forall i :: offset <= i < offset + ret ==> buffer[i] == kernel.incoming(old(kernel.position) + (i - offset))
    ensures forall i :: 0 <= i < buffer.Length && !(offset <= i < offset + ret) ==> buffer[i] == old(buffer[i])
  {
    var interrupted;
    ghost var start := kernel.script;
    ret, interrupted := kernel.Read(buffer, offset, size);
    while ret < 0 && interrupted
      invariant ret == Answer(start, size) && interrupted == (start != [] && start[0].Interrupted?)
      invariant kernel.script == Tail(start)
      invariant kernel.position == old(kernel.position) + (if ret < 0 then 0 else ret)
      invariant forall i :: offset <= i < offset + ret ==>
                  buffer[i] == kernel.incoming(old(kernel.position) + (i - offset))
      invariant forall i :: 0 <= i < buffer.Length && !(offset <= i < offset + ret) ==> buffer[i] == old(buffer[i])
      invariant SkipInterrupts(start) == SkipInterrupts(old(kernel.script))
      decreases |start|
    {
      start := kernel.script;
      ret, interrupted := kernel.Read(buffer, offset, size);
    }
  }

  method PacketFullRead(kernel: Kernel, buffer: array<char>, length: nat) returns (result: int)
    requires length <= buffer.Length
    modifies kernel, buffer
    ensures var t := FullTransfer(old(kernel.script), length, 0);
            result == t.ret && kernel.script == t.rest && t.moved <= length &&
            kernel.position == old(kernel.position) + t.moved &&
            (forall i :: 0 <= i < t.moved ==> buffer[i] == kernel.incoming(old(kernel.position) + i)) &&
            forall i :: t.moved <= i < buffer.Length ==> buffer[i] == old(buffer[i])
  {
    var size: nat, readSize: nat := length, 0;
    TransferWithin(kernel.script, length, 0);
    while true
      invariant readSize + size == length && (size == 0 ==> length == 0)
      invariant kernel.position == old(kernel.position) + readSize
      invariant forall i :: 0 <= i < readSize ==> buffer[i] == kernel.incoming(old(kernel.position) + i)
      invariant forall i :: readSize <= i < buffer.Length ==> buffer[i] == old(buffer[i])
      invariant var whole := FullTransfer(old(kernel.script), length, 0);
                var t := FullTransfer(kernel.script, size, readSize);
                t.ret == whole.ret && t.rest == whole.rest && readSize + t.moved == whole.moved
      decreases |kernel.script|
    {
      var ret := PacketRead(kernel, buffer, readSize, size);
      if ret < 0 {
        return ret;
      } else if ret == 0 {
        return readSize;
      }
      if ret > size {
        return ret;
      }
      readSize := readSize + ret;
      size := size - ret;
      if size == 0 {
        return readSize;
      }
    }
  }

  // ---- What that means ----

  // How many bytes the kernel would take before it first fails or reports the end.
  function Capacity(script: Script): nat {
    if script == [] || script[0].Failed? || script[0] == Count(0) then 0
    else (if script[0].Count? then script[0].n else 0) + Capacity(script[1..])
  }

  // Does the script's first refusal come as an error?
  predicate EndsInError(script: Script) {
    script == [] || script[0].Failed? || (script[0] != Count(0) && EndsInError(script[1..]))
  }

  lemma {:induction false} SkipKeeps(script: Script)
    ensures Capacity(SkipInterrupts(script)) == Capacity(script)
    ensures EndsInError(SkipInterrupts(script)) == EndsInError(script)
  {
    if script != [] && script[0].Interrupted? { SkipKeeps(script[1..]); }
  }

  lemma {:induction false} TransferWithin(script: Script, size: nat, done: nat)
    ensures FullTransfer(script, size, done).moved <= size
    decreases |script|
  {
    var now := SkipInterrupts(script);
    var ret := Answer(now, size);
    if 0 < ret < size { TransferWithin(Tail(now), size - ret, done + ret); }
  }

  /** Whatever the kernel does, the loops move as many bytes as it would take, up to the
      request, which may be empty; an error is returned exactly when one came first, and
      else the number of bytes moved. So the whole size is returned only when all was
      moved, and, but for an empty request, whenever it was. */
  lemma {:induction false} TransferMeaning(script: Script, size: nat, done: nat)
    ensures var t := FullTransfer(script, size, done);
            t.moved == Min(size, Capacity(script)) &&
            t.ret == (if (Capacity(script) < size || Capacity(script) + size == 0) && EndsInError(script) then -1
                      else done + t.moved) &&
            (t.ret == done + size ==> t.moved == size) && (size > 0 && t.moved == size ==> t.ret == done + size)
    decreases |script|
  {
    SkipKeeps(script);
    var now := SkipInterrupts(script);
    var ret := Answer(now, size);
    if 0 < ret < size { TransferMeaning(Tail(now), size - ret, done + ret); }
  }

  /** Short counts in plain figures: two of them with an interruption between make one
      transfer; a failure behind the first gives -1, and the end of the stream its count,
      though those bytes have been moved. */
  lemma ShortCounts(a: nat, b: nat, size: nat)
    requires a > 0 && b > 0 && size > a
    ensures FullTransfer([Count(a), Interrupted, Count(b)], a + b, 0) == Transfer(a + b, a + b, [])
    ensures FullTransfer([Count(a), Failed], size, 0) == Transfer(-1, a, [])
    ensures FullTransfer([Count(a), Count(0)], size, 0) == Transfer(a, a, [])
  {
    assert [Count(a), Interrupted, Count(b)][1..] == [Interrupted, Count(b)];
    assert [Interrupted, Count(b)][1..] == [Count(b)] && [Count(b)][1..] == [];
    assert SkipInterrupts([Interrupted, Count(b)]) == [Count(b)];
    assert FullTransfer([Interrupted, Count(b)], b, a) == Transfer(a + b, b, []);
    assert [Count(a), Failed][1..] == [Failed] && [Failed][1..] == [];
    assert [Count(a), Count(0)][1..] == [Count(0)] && [Count(0)][1..] == [];
  }
}
