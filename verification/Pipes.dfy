/** Pipes: the shared buffer and the handles on its two ends. */
module Pipes {
  import opened Words

  const CAPACITY: nat := 0x1_0000

  /** A pipe as a value. */
  datatype Pipe = Pipe(data: seq<u8>, readers: int, writers: int) {
    ghost predicate Valid() { |data| <= CAPACITY }

    /** A read of at least one byte would return end of file. */
    ghost predicate AtEnd() { data == [] && writers == 0 }

    /** A write of at least one byte would return EPIPE. */
    ghost predicate Broken() { readers == 0 }
  }

  datatype ReadResult = Bytes(bytes: seq<u8>) | EndOfFile | ReadBlocks | NotReadable

  datatype WriteResult = Wrote(n: nat) | BrokenPipe | WriteBlocks | NotWritable

  /** What a read of up to `n` bytes through an end of the pipe returns. */
  function ReadOf(p: Pipe, write: bool, n: nat): ReadResult {
    if write then NotReadable
    else if n == 0 then Bytes([])
    else if p.data != [] then Bytes(p.data[..if |p.data| < n then |p.data| else n])
    else if p.writers == 0 then EndOfFile
    else ReadBlocks
  }

  function AfterRead(p: Pipe, r: ReadResult): Pipe {
    if r.Bytes? && |r.bytes| <= |p.data| then p.(data := p.data[|r.bytes|..]) else p
  }

  /** What a write through an end of the pipe returns. */
  function WriteOf(p: Pipe, write: bool, src: seq<u8>): WriteResult {
    if !write then NotWritable
    else if src == [] then Wrote(0)
    else if p.readers == 0 then BrokenPipe
    else if |p.data| >= CAPACITY then WriteBlocks
    else Wrote(if |src| > CAPACITY - |p.data| then CAPACITY - |p.data| else |src|)
  }

  function AfterWrite(p: Pipe, src: seq<u8>, r: WriteResult): Pipe {
    if r.Wrote? && r.n <= |src| then p.(data := p.data + src[..r.n]) else p
  }

  /** Reading hands out the oldest bytes, and stops short only when there are no more. */
  lemma ReadInOrder(p: Pipe, write: bool, n: nat)
    requires p.Valid()
    ensures var r := ReadOf(p, write, n); var q := AfterRead(p, r);
            && q.Valid() && q.readers == p.readers && q.writers == p.writers
            && (r.Bytes? ==> p.data == r.bytes + q.data && |r.bytes| <= n && (|r.bytes| < n ==> q.data == [])
                             && (n > 0 ==> r.bytes != []))
            && (r.NotReadable? <==> write)
            && (r.EndOfFile? <==> !write && n > 0 && p.AtEnd())
            && (r.ReadBlocks? <==> !write && n > 0 && p.data == [] && p.writers != 0)
            && (!r.Bytes? ==> q == p)
  {
    var r := ReadOf(p, write, n);
    if r.Bytes? { assert p.data == r.bytes + p.data[|r.bytes|..]; }
  }

  /** Writing appends as much as fits. */
  lemma WriteInOrder(p: Pipe, write: bool, src: seq<u8>)
    requires p.Valid()
    ensures var r := WriteOf(p, write, src); var q := AfterWrite(p, src, r);
            && q.Valid() && q.readers == p.readers && q.writers == p.writers
            && (r.Wrote? ==> r.n <= |src| && q.data == p.data + src[..r.n] && (src != [] ==> r.n > 0)
                             && (r.n < |src| ==> |q.data| == CAPACITY))
            && (r.NotWritable? <==> !write)
            && (r.BrokenPipe? <==> write && src != [] && p.Broken())
            && (r.WriteBlocks? <==> write && src != [] && !p.Broken() && |p.data| == CAPACITY)
            && (!r.Wrote? ==> q == p)
  {
  }

  class PipeBuffer {
    var data: seq<u8>
    var readers: int
    var writers: int

    function Value(): Pipe
      reads this
    {
      Pipe(data, readers, writers)
    }

    constructor ()
      ensures Value() == Pipe([], 1, 1)
    {
      data, readers, writers := [], 1, 1;
    }
  }

  class PipeHandle {
    const pipe: PipeBuffer
    const write: bool
    var closed: bool

    constructor (pipe: PipeBuffer, write: bool)
      ensures this.pipe == pipe && this.write == write && !closed
    {
      this.pipe, this.write, this.closed := pipe, write, false;
    }

    method CloneHandle() returns (h: PipeHandle)
      modifies pipe
      ensures fresh(h) && h.pipe == pipe && h.write == write && !h.closed
      ensures pipe.Value() == Ends(old(pipe.Value()), write, 1)
    {
      if write { pipe.writers := pipe.writers + 1; } else { pipe.readers := pipe.readers + 1; }
      h := new PipeHandle(pipe, write);
    }

    method Close()
      modifies this, pipe
      ensures closed
      ensures pipe.Value() == if old(closed) then old(pipe.Value()) else Ends(old(pipe.Value()), write, -1)
    {
      if closed { return; }
      closed := true;
      if write { pipe.writers := pipe.writers - 1; } else { pipe.readers := pipe.readers - 1; }
    }

    /** Reads up to `n` bytes: the oldest ones, or nothing. */
    method ReadNonblocking(n: nat) returns (r: ReadResult)
      modifies pipe
      ensures r == ReadOf(old(pipe.Value()), write, n) && pipe.Value() == AfterRead(old(pipe.Value()), r)
      ensures r.Bytes? ==> old(pipe.data) == r.bytes + pipe.data && |r.bytes| <= n
      ensures r.Bytes? && |r.bytes| < n ==> pipe.data == []
      ensures !r.Bytes? ==> pipe.data == old(pipe.data)
      ensures r.EndOfFile? <==> !write && n > 0 && old(pipe.data) == [] && pipe.writers == 0
      ensures r.ReadBlocks? <==> !write && n > 0 && old(pipe.data) == [] && pipe.writers != 0
      ensures r.NotReadable? <==> write
    {
      if write { return NotReadable; }
      if n == 0 { return Bytes([]); }
      if |pipe.data| > 0 {
        var k := if |pipe.data| < n then |pipe.data| else n;
        var bytes := pipe.data[..k];
        pipe.data := pipe.data[k..];
        return Bytes(bytes);
      }
      if pipe.writers == 0 { return EndOfFile; }
      r := ReadBlocks;
    }

    /** Accepts as much of `src` as there is room for, after all earlier bytes. */
    method WriteNonblocking(src: seq<u8>) returns (r: WriteResult)
      requires |pipe.data| <= CAPACITY
      modifies pipe
      ensures r == WriteOf(old(pipe.Value()), write, src) && pipe.Value() == AfterWrite(old(pipe.Value()), src, r)
      ensures r.Wrote? ==> r.n <= |src| && pipe.data == old(pipe.data) + src[..r.n]
      ensures r.Wrote? && r.n < |src| ==> |pipe.data| == CAPACITY
      ensures !r.Wrote? ==> pipe.data == old(pipe.data)
      ensures r.BrokenPipe? <==> write && src != [] && pipe.readers == 0
      ensures r.WriteBlocks? <==> write && src != [] && pipe.readers != 0 && |old(pipe.data)| == CAPACITY
      ensures r.NotWritable? <==> !write
    {
      if !write { return NotWritable; }
      if |src| == 0 { return Wrote(0); }
      if pipe.readers == 0 { return BrokenPipe; }
      var room := CAPACITY - |pipe.data|;
      if room == 0 { return WriteBlocks; }
      var n := if |src| > room then room else |src|;
      pipe.data := pipe.data + src[..n];
      r := Wrote(n);
    }
  }

  /** One more or one fewer handle on an end. */
  function Ends(p: Pipe, write: bool, n: int): Pipe {
    if write then p.(writers := p.writers + n) else p.(readers := p.readers + n)
  }
}
