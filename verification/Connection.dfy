/**
  One TCP connection (netlib/net/TcpConnection.cc): ordered output through
  partial writes, an output buffer, write interest and half-close.
 */
module Connection {
  import opened Framing
  import opened ByteBuffer
  import opened Poller

  datatype State = Connecting | Connected | Disconnecting | Disconnected

  /** What `write` returned: a short count, EWOULDBLOCK, EPIPE or ECONNRESET, or another error. */
  datatype WriteResult = Wrote(n: nat) | WouldBlock | Fault | OtherError

  /** Callbacks handed to `queueInLoop`. */
  datatype Queued = WriteComplete | HighWater(size: nat)

  const TWO_64 := 0x1_0000_0000_0000_0000

  /** Sizes that survive the truncation to `int` or turn negative, so that the kernel refuses the write. */
  predicate SizeFits(size: nat) {
    size < TWO_31 || size % TWO_32 >= TWO_31
  }

  /** Line 161 compares the count with the truncated size, both as `size_t`. */
  lemma SizeGuardExact(size: nat)
    requires size < TWO_64 / 2
    ensures size <= ToInt32(size) % TWO_64 <==> SizeFits(size)
  {}

  /** What `write` takes of the bytes it is offered. */
  function Takes(data: Bytes, r: WriteResult): Bytes {
    if r.Wrote? && r.n <= |data| then data[..r.n] else []
  }

  class TcpConnection {
    const channel: Channel
    const inputBuffer: Buffer
    const outputBuffer: Buffer
    var state: State
    var writeCompleteSet: bool
    var highWaterSet: bool
    var highWaterMark: nat
    var queued: seq<Queued>
    var wire: Bytes              // of the socket: every byte the kernel took
    var writeShut: bool          // of the socket: the write side was shut down

    ghost var accepted: Bytes    // every byte taken for sending, in order
    ghost var faulted: bool      // a write met EPIPE or ECONNRESET

    /** The part that does not depend on what the kernel holds. */
    ghost predicate Consistent()
      reads this, channel, inputBuffer, inputBuffer.data, outputBuffer, outputBuffer.data
    {
      && inputBuffer != outputBuffer && inputBuffer.data != outputBuffer.data
      && inputBuffer.Valid() && outputBuffer.Valid()
      && accepted == wire + outputBuffer.Contents()
      && (state != Disconnected ==> (channel.IsWriting() <==> outputBuffer.Contents() != []))
      && (channel.IsWriting() ==> state != Disconnected)
      && (writeShut && state != Disconnected ==> outputBuffer.Contents() == [])
    }

    ghost predicate Valid()
      reads this, channel, channel.poller, channel.poller.known
      reads inputBuffer, inputBuffer.data, outputBuffer, outputBuffer.data
    {
      Consistent() && channel.Ready() && (channel.IsWriting() ==> channel.Registered())
    }

    constructor (poller: Epoller, fd: int)
      requires poller.Valid() && forall d <- poller.known :: d.fd == fd ==> d.index != Added
      modifies poller
      ensures Valid() && fresh(channel) && channel.poller == poller && channel.fd == fd
      ensures poller.known == old(poller.known) + {channel} && poller.kernel == old(poller.kernel)
      ensures poller.refused == old(poller.refused)
      ensures fresh(inputBuffer) && fresh(inputBuffer.data) && fresh(outputBuffer) && fresh(outputBuffer.data)
      ensures state == Connecting && accepted == [] && wire == [] && !faulted && !writeShut
    {
      var c := poller.NewChannel(fd);
      var input := new Buffer();
      var output := new Buffer();
      channel, inputBuffer, outputBuffer := c, input, output;
      state, queued, writeCompleteSet, highWaterSet, highWaterMark := Connecting, [], false, false, 0;
      accepted, wire, faulted, writeShut := [], [], false, false;
    }

    /** What the kernel may answer to a write of `len` bytes. */
    predicate KernelMayAnswer(r: WriteResult, len: int)
      reads this
    {
      && (r.Wrote? ==> r.n <= len)
      && (writeShut ==> r.Fault?)
    }

    method ConnectEstablished()
      requires Valid() && state == Connecting
      modifies this`state, channel, channel.poller
      ensures Valid() && state == Connected && channel.events == old(channel.events).(read := true)
      ensures channel.Registered()
      ensures channel.poller.OthersKept(channel)
      ensures unchanged(this`accepted, this`wire, this`faulted, this`writeShut)
    {
      state := Connected;
      channel.EnableReading();
    }

    /** The write side is closed only when every byte taken for sending is on the wire. */
    method ShutdownInLoop()
      requires Valid()
      modifies this`writeShut
      ensures Valid()
      ensures writeShut <==> old(writeShut) || !channel.IsWriting()
      ensures writeShut && state != Disconnected ==> wire == accepted
    {
      if !channel.IsWriting() {
        writeShut := true;
      }
    }

    /** The state half of `shutdown`; the other half runs in the loop. */
    method Shutdown() returns (runInLoop: bool)
      requires Valid()
      modifies this`state
      ensures Valid() && runInLoop == (old(state) == Connected)
      ensures state == if old(state) == Connected then Disconnecting else old(state)
    {
      runInLoop := state == Connected;
      if runInLoop {
        state := Disconnecting;
      }
    }

    /** True when `sendInLoop` tries the socket first. */
    predicate WritesDirectly()
      reads this, channel, outputBuffer
    {
      state != Disconnected && !channel.IsWriting() && outputBuffer.ReadableBytes() == 0
    }

    /** The attempt to write straight to the socket; `len` is the size as an `int`. */
    method TryWrite(data: Bytes, r: WriteResult) returns (nwrote: nat, remaining: nat, fault: bool)
      requires Valid() && WritesDirectly() && SizeFits(|data|)
      requires KernelMayAnswer(r, ToInt32(|data|))
      modifies this`wire, this`accepted, this`queued, this`faulted
      ensures Valid()
      ensures nwrote == (if r.Wrote? then r.n else 0) && nwrote <= |data|
      ensures remaining == |data| - nwrote && fault == r.Fault?
      ensures wire == old(wire) + data[..nwrote] && accepted == old(accepted) + data[..nwrote]
      ensures faulted == (old(faulted) || fault)
      ensures queued == old(queued) + if r.Wrote? && remaining == 0 && writeCompleteSet then [WriteComplete] else []
    {
      nwrote, remaining, fault := 0, |data|, false;
      var len := ToInt32(|data|);
      match r
      case Wrote(n) =>
        nwrote, remaining := n, len - n;
        wire, accepted := wire + data[..n], accepted + data[..n];
        if remaining == 0 && writeCompleteSet {
          queued := queued + [WriteComplete];
        }
      case Fault =>
        fault, faulted := true, true;
      case WouldBlock =>
      case OtherError =>
    }

    /** The high-water callback is queued when an append takes the buffer to the mark or over it. */
    function Crossing(oldLen: int, size: nat): seq<Queued>
      reads this`highWaterMark, this`highWaterSet
    {
      if oldLen < highWaterMark <= oldLen + size && highWaterSet then [HighWater(oldLen + size)] else []
    }

    method CheckHighWater(size: nat)
      requires outputBuffer.ReadableBytes() >= 0
      modifies this`queued
      ensures queued == old(queued) + Crossing(outputBuffer.ReadableBytes(), size)
    {
      var oldLen := outputBuffer.ReadableBytes();
      if oldLen + size >= highWaterMark && oldLen < highWaterMark && highWaterSet {
        queued := queued + [HighWater(oldLen + size)];
      }
    }

    /** The unwritten part goes behind what the output buffer holds. */
    method AppendRest(data: Bytes)
      requires outputBuffer.Valid()
      modifies this`accepted, this`queued, outputBuffer, outputBuffer.data
      ensures outputBuffer.Valid()
      ensures outputBuffer.data == old(outputBuffer.data) || fresh(outputBuffer.data)
      ensures outputBuffer.Contents() == old(outputBuffer.Contents()) + data && accepted == old(accepted) + data
      ensures queued == old(queued) + Crossing(old(outputBuffer.ReadableBytes()), |data|)
    {
      hide SpaceBound, Max, Crossing;
      CheckHighWater(|data|);
      outputBuffer.Append(data);
      accepted := accepted + data;
    }

    /** Keeps the unwritten part and asks for write readiness. */
    method Enqueue(data: Bytes)
      requires Valid() && data != [] && state != Disconnected && !writeShut
      modifies this`accepted, this`queued, channel, channel.poller, outputBuffer, outputBuffer.data
      ensures Valid() && channel.poller.OthersKept(channel)
      ensures outputBuffer.data == old(outputBuffer.data) || fresh(outputBuffer.data)
      ensures outputBuffer.Contents() == old(outputBuffer.Contents()) + data
      ensures accepted == old(accepted) + data
      ensures queued == old(queued) + Crossing(old(outputBuffer.ReadableBytes()), |data|)
      ensures channel.IsWriting()
    {
      Assoc(wire, outputBuffer.Contents(), data);
      hide SpaceBound, Max, Crossing, Epoller.Valid;
      AppendRest(data);
      if !channel.IsWriting() {
        channel.EnableWriting();
      }
    }

    /** The tail of `sendInLoop`: what is left is buffered, unless the write failed. */
    method BufferRest(data: Bytes, nwrote: nat, remaining: nat, fault: bool)
      requires Valid() && state != Disconnected && nwrote <= |data| && remaining == |data| - nwrote
      requires !fault && remaining > 0 ==> !writeShut
      modifies this`accepted, this`queued, channel, channel.poller, outputBuffer, outputBuffer.data
      ensures Valid() && channel.poller.OthersKept(channel)
      ensures outputBuffer.data == old(outputBuffer.data) || fresh(outputBuffer.data)
      ensures accepted == old(accepted) + if fault then [] else data[nwrote..]
      ensures queued == old(queued) +
                if !fault && remaining > 0 then Crossing(old(outputBuffer.ReadableBytes()), remaining) else []
    {
      hide Crossing, Epoller.Valid, SpaceBound, Max;
      if !fault && remaining > 0 {
        Enqueue(data[nwrote..]);
      }
    }

    /** The callbacks that a send queues: write-complete when all of it was taken, high-water on crossing the mark. */
    function Announced(direct: bool, data: Bytes, r: WriteResult, oldLen: int): seq<Queued>
      reads this
    {
      var rest := |data| - if direct then |Takes(data, r)| else 0;
      if direct && r.Fault? then []
      else if rest > 0 then Crossing(oldLen, rest)
      else if direct && r.Wrote? && writeCompleteSet then [WriteComplete]
      else []
    }

    /**
      Takes a whole byte string or, on a fault, reports it; nothing is taken
      once disconnected.  The size condition is the assertion of line 161.
     */
    method SendInLoop(data: Bytes, r: WriteResult)
      requires Valid() && SizeFits(|data|)
      requires WritesDirectly() ==> KernelMayAnswer(r, ToInt32(|data|))
      modifies this`wire, this`accepted, this`queued, this`faulted
      modifies channel, channel.poller, outputBuffer, outputBuffer.data
      ensures Valid() && channel.poller.OthersKept(channel)
      ensures outputBuffer.data == old(outputBuffer.data) || fresh(outputBuffer.data)
      ensures faulted == (old(faulted) || (old(WritesDirectly()) && r.Fault?))
      ensures accepted == if state == Disconnected || (old(WritesDirectly()) && r.Fault?) then old(accepted)
                          else old(accepted) + data
      ensures queued == old(queued) + if state == Disconnected then []
                                      else Announced(old(WritesDirectly()), data, r, old(outputBuffer.ReadableBytes()))
      ensures wire == old(wire) + if old(WritesDirectly()) then Takes(data, r) else []
    {
      hide Crossing, Epoller.Valid, SpaceBound, Max, SizeFits, ToInt32;
      if state == Disconnected {
        return;
      }
      var nwrote, remaining, fault := 0, |data|, false;
      if !channel.IsWriting() && outputBuffer.ReadableBytes() == 0 {
        nwrote, remaining, fault := TryWrite(data, r);
      }
      assert data == data[..nwrote] + data[nwrote..];
      Assoc(old(accepted), data[..nwrote], data[nwrote..]);
      BufferRest(data, nwrote, remaining, fault);
    }

    /** The kernel took `n` bytes: they leave the buffer, and write interest ends with the last one. */
    method Flushed(n: nat)
      requires Valid() && channel.IsWriting() && 0 < n <= outputBuffer.ReadableBytes()
      modifies this`wire, channel, channel.poller, outputBuffer`readerIndex
      ensures Valid() && channel.poller.OthersKept(channel)
      ensures wire == old(wire) + old(outputBuffer.Contents())[..n]
      ensures !channel.IsWriting() && state != Disconnected ==> wire == accepted
    {
      hide SpaceBound, Max;
      ghost var pending := outputBuffer.Contents();
      var written := outputBuffer.data[outputBuffer.readerIndex..outputBuffer.readerIndex + n];
      assert written == pending[..n] && pending == pending[..n] + pending[n..];
      wire := wire + written;
      outputBuffer.Retrieve(n);
      Assoc(old(wire), pending[..n], pending[n..]);
      if outputBuffer.ReadableBytes() == 0 {
        channel.DisableWriting();
      }
    }

    /** The socket is writable: sends from the buffer and closes the write side once it is drained. */
    method HandleWrite(r: WriteResult)
      requires Valid()
      requires channel.IsWriting() ==> KernelMayAnswer(r, outputBuffer.ReadableBytes())
      modifies this`wire, this`queued, this`writeShut, channel, channel.poller, outputBuffer`readerIndex
      ensures Valid() && channel.poller.OthersKept(channel)
      ensures wire == old(wire) +
                if old(channel.IsWriting()) then Takes(old(outputBuffer.Contents()), r) else []
      ensures old(channel.IsWriting()) && !channel.IsWriting() ==> wire == accepted
      ensures writeShut <==>
                old(writeShut) || (state == Disconnecting && old(channel.IsWriting()) && !channel.IsWriting())
      ensures queued == old(queued) +
                if old(channel.IsWriting()) && r.Wrote? && r.n > 0 && writeCompleteSet then [WriteComplete] else []
    {
      hide SpaceBound, Max;
      if channel.IsWriting() && r.Wrote? && r.n > 0 {
        Flushed(r.n);
        if writeCompleteSet {
          queued := queued + [WriteComplete];
        }
        if state == Disconnecting {
          ShutdownInLoop();
        }
      }
    }

    /** The peer closed: the connection stops and leaves the poller. */
    method HandleClose()
      requires Valid() && state in {Connected, Disconnecting}
      modifies this`state, channel, channel.poller
      ensures Valid() && state == Disconnected && channel.index == New && channel.events == NO_EVENT
      ensures channel.fd !in channel.poller.kernel
      ensures channel.poller.OthersKept(channel)
    {
      state := Disconnected;
      channel.DisableAll();
      channel.poller.RemoveChannel(channel);
    }

    /** Runs after `HandleClose` too; the second removal asks nothing of the kernel. */
    method ConnectDestroyed()
      requires Valid()
      modifies this`state, channel, channel.poller
      ensures channel.poller.Valid() && channel.index == New
      ensures state == if old(state) == Connected then Disconnected else old(state)
      ensures channel.events == if old(state) == Connected then NO_EVENT else old(channel.events)
      ensures Valid() <==> !channel.IsWriting()
      ensures channel.poller.OthersKept(channel)
      ensures old(channel.index) == New && old(state) != Connected ==>
                channel.poller.kernel == old(channel.poller.kernel)
    {
      if state == Connected {
        state := Disconnected;
        channel.DisableAll();
      }
      channel.poller.RemoveChannel(channel);
    }
  }

  /** Two connections of one loop with nothing in common but the poller. */
  ghost predicate Apart(a: TcpConnection, b: TcpConnection)
    reads a.inputBuffer, a.outputBuffer, b.inputBuffer, b.outputBuffer
  {
    && a != b && a.channel != b.channel && a.channel.poller == b.channel.poller && a.channel.fd != b.channel.fd
    && a.outputBuffer != b.inputBuffer && a.outputBuffer != b.outputBuffer
    && a.outputBuffer.data != b.inputBuffer.data && a.outputBuffer.data != b.outputBuffer.data
  }

  /** Sending on one of them leaves the other as it was, registered as it was. */
  method SendBeside(a: TcpConnection, b: TcpConnection, data: Bytes, r: WriteResult)
    requires a.Valid() && b.Valid() && Apart(a, b) && SizeFits(|data|)
    requires a.WritesDirectly() ==> a.KernelMayAnswer(r, ToInt32(|data|))
    modifies a`wire, a`accepted, a`queued, a`faulted
    modifies a.channel, a.channel.poller, a.outputBuffer, a.outputBuffer.data
    ensures a.Valid() && b.Valid() && Apart(a, b)
    ensures b.channel.IsWriting() ==> b.channel.Registered()
  {
    a.SendInLoop(data, r);
    hide Epoller.Valid, SizeFits;
  }
}
