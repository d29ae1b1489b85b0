/**
  End to end: messages framed and sent on one side, arbitrary partial writes,
  arbitrary chunks on the other side, and the splitter at the end
  (netlib/net/TcpConnection.cc, base/MessageSplitter.h, server/server.cc).
 */
module Pipeline {
  import opened Framing
  import opened ByteBuffer
  import opened Poller
  import opened Connection

  /** The reading side of a connection, with the message callback of the server. */
  class Receiver {
    const inputBuffer: Buffer
    const splitter: MessageSplitter
    var delivered: seq<Bytes>     // messages handed to the worker pool
    var arrived: Bytes            // of the network: bytes read from the socket

    ghost predicate Valid()
      reads this, inputBuffer, inputBuffer.data, splitter
    {
      && inputBuffer.Valid() && inputBuffer.Contents() == []
      && splitter.Valid() && splitter.fed == arrived && splitter.taken == delivered && splitter.messages == []
    }

    constructor ()
      ensures Valid() && delivered == [] && arrived == []
      ensures fresh(inputBuffer) && fresh(inputBuffer.data) && fresh(splitter)
    {
      inputBuffer := new Buffer();
      splitter := new MessageSplitter();
      delivered, arrived := [], [];
    }

    /** The loop of the message callback. */
    method Drain()
      requires splitter.Valid() && splitter.taken == delivered
      modifies splitter, this`delivered
      ensures splitter.Valid() && splitter.fed == old(splitter.fed)
      ensures splitter.messages == [] && splitter.taken == delivered
      ensures splitter.buffer == old(splitter.buffer)
    {
      var ok, next := splitter.NextMessage();
      while ok
        invariant splitter.Valid() && splitter.fed == old(splitter.fed) && splitter.buffer == old(splitter.buffer)
        invariant splitter.taken == delivered + if ok then [next] else []
        invariant !ok ==> splitter.messages == []
        decreases ok, |splitter.messages|
      {
        delivered := delivered + [next];
        ok, next := splitter.NextMessage();
      }
    }

    /** Whatever the chunking, what was delivered is what the parser finds in all bytes that arrived. */
    method OnReadable(chunk: Bytes)
      requires Valid()
      requires |chunk| <= inputBuffer.WritableBytes() + if inputBuffer.WritableBytes() < 65535 then 65535 else 0
      modifies this, inputBuffer, inputBuffer.data, splitter
      ensures Valid() && arrived == old(arrived) + chunk
      ensures inputBuffer.data == old(inputBuffer.data) || fresh(inputBuffer.data)
      ensures delivered == Parse(arrived).msgs
    {
      hide Parse, Complete;
      var n, _ := inputBuffer.ReadFd(Received(chunk));
      if n > 0 {
        var msg := inputBuffer.RetrieveAllAsString();
        splitter.Append(msg);
        Drain();
      } else {
        assert arrived + chunk == arrived;
      }
      arrived := arrived + chunk;
      assert delivered + [] == delivered;
    }
  }

  class Stream {
    const sender: TcpConnection
    const receiver: Receiver
    ghost var sent: seq<Bytes>    // messages given to the sender before it disconnected
    ghost var parts: set<object>  // the objects that belong to the stream

    ghost predicate Apart()
      reads receiver.inputBuffer, sender.outputBuffer, sender.inputBuffer
    {
      && receiver.inputBuffer != sender.outputBuffer && receiver.inputBuffer != sender.inputBuffer
      && receiver.inputBuffer.data != sender.outputBuffer.data
      && receiver.inputBuffer.data != sender.inputBuffer.data
    }

    /** What was sent, taken, put on the wire, read and delivered so far fits together. */
    ghost predicate Linked()
      reads this`sent, sender, receiver
    {
      && Framable(sent)
      && receiver.arrived <= sender.wire
      && receiver.delivered == Parse(receiver.arrived).msgs
      && (!sender.faulted ==> sender.accepted == EncodeAll(sent))
    }

    /** The objects of the stream, with the arrays its buffers have at the moment. */
    ghost predicate Owns()
      reads this, sender.inputBuffer, sender.outputBuffer, receiver.inputBuffer
    {
      && this in parts && sender in parts && sender.channel in parts
      && sender.inputBuffer in parts && sender.inputBuffer.data in parts
      && sender.outputBuffer in parts && sender.outputBuffer.data in parts
      && receiver in parts && receiver.splitter in parts
      && receiver.inputBuffer in parts && receiver.inputBuffer.data in parts
    }

    /** The part that does not depend on what the kernel holds. */
    ghost predicate Consistent()
      reads this, parts
    {
      && sender.inputBuffer in parts && sender.outputBuffer in parts && receiver.inputBuffer in parts
      && Owns() && sender.Consistent() && receiver.Valid() && Apart() && Linked()
    }

    /** Both ends are valid and fit together. */
    ghost predicate Joined()
      reads this`sent, sender, sender.channel, sender.channel.poller, sender.channel.poller.known
      reads sender.inputBuffer, sender.inputBuffer.data, sender.outputBuffer, sender.outputBuffer.data
      reads receiver, receiver.inputBuffer, receiver.inputBuffer.data, receiver.splitter
    {
      sender.Valid() && receiver.Valid() && Apart() && Linked()
    }

    ghost predicate Valid()
      reads this, sender, sender.channel, sender.channel.poller, sender.channel.poller.known
      reads sender.inputBuffer, sender.inputBuffer.data, sender.outputBuffer, sender.outputBuffer.data
      reads receiver, receiver.inputBuffer, receiver.inputBuffer.data, receiver.splitter
    {
      Owns() && Joined()
    }

    /** Nothing is left in the output buffer or on the wire. */
    ghost predicate Drained()
      requires Joined()
      reads this`sent, sender, sender.channel, sender.channel.poller, sender.channel.poller.known
      reads sender.inputBuffer, sender.inputBuffer.data, sender.outputBuffer, sender.outputBuffer.data
      reads receiver, receiver.inputBuffer, receiver.inputBuffer.data, receiver.splitter
    {
      sender.outputBuffer.Contents() == [] && receiver.arrived == sender.wire
    }

    lemma StartsValid()
      requires sender.Valid() && receiver.Valid() && receiver.inputBuffer != sender.outputBuffer
      requires receiver.inputBuffer != sender.inputBuffer && receiver.inputBuffer.data != sender.outputBuffer.data
      requires receiver.inputBuffer.data != sender.inputBuffer.data
      requires sent == [] && receiver.arrived == [] && receiver.delivered == []
      requires sender.wire == [] && sender.accepted == []
      requires parts == {this, sender, sender.channel, sender.inputBuffer, sender.outputBuffer, receiver,
                         receiver.inputBuffer, receiver.splitter, sender.inputBuffer.data, sender.outputBuffer.data,
                         receiver.inputBuffer.data}
      ensures Valid()
    {
      hide TcpConnection.Valid, Receiver.Valid;
      NothingEncoded();
      assert Parse([]) == Parsed([], []);
    }

    constructor (poller: Epoller, fd: int)
      requires poller.Valid() && forall d <- poller.known :: d.fd == fd ==> d.index != Added
      modifies poller
      ensures Valid() && sent == [] && fresh(parts)
      ensures sender.accepted == [] && sender.wire == [] && receiver.arrived == [] && receiver.delivered == []
      ensures sender.state == Connecting && !sender.writeShut && !sender.faulted
      ensures sender.channel.poller == poller && sender.channel.fd == fd
      ensures poller.known == old(poller.known) + {sender.channel}
      ensures poller.kernel == old(poller.kernel) && poller.refused == old(poller.refused)
    {
      hide *;
      sender := new TcpConnection(poller, fd);
      receiver := new Receiver();
      sent := [];
      new;
      parts := {this, sender, sender.channel, sender.inputBuffer, sender.outputBuffer, receiver, receiver.inputBuffer,
                receiver.splitter, sender.inputBuffer.data, sender.outputBuffer.data, receiver.inputBuffer.data};
      StartsValid();
    }

    /**
      The theorem: absent a write fault, in every reachable state the messages
      delivered are a prefix of those sent, and all of them once drained.
     */
    lemma InOrderDelivery()
      requires Joined() && !sender.faulted
      ensures receiver.delivered <= sent
      ensures Drained() ==> receiver.delivered == sent && receiver.splitter.buffer == []
    {
      var arrived, wire, out := receiver.arrived, sender.wire, sender.outputBuffer.Contents();
      var rest := wire[|arrived|..] + out;
      assert wire == arrived + wire[|arrived|..];
      Assoc(arrived, wire[|arrived|..], out);
      PrefixDelivery(sent, arrived, rest);
    }

    /** The rest of the connection's life: what was sent, and so the theorem, stays. */
    method Establish()
      requires Valid() && sender.state == Connecting
      modifies sender`state, sender.channel, sender.channel.poller
      ensures Valid() && sent == old(sent) && sender.state == Connected
      ensures sender.channel.poller.OthersKept(sender.channel)
    {
      hide Parse, EncodeAll;
      sender.ConnectEstablished();
    }

    method Shutdown()
      requires Valid()
      modifies sender`state, sender`writeShut
      ensures Valid() && sent == old(sent)
      ensures sender.state == if old(sender.state) == Connected then Disconnecting else old(sender.state)
      ensures sender.writeShut <==>
                old(sender.writeShut) || (old(sender.state) == Connected && !sender.channel.IsWriting())
      ensures sender.writeShut && !old(sender.writeShut) && !sender.faulted ==> sender.wire == EncodeAll(sent)
    {
      hide Parse, EncodeAll;
      var runInLoop := sender.Shutdown();
      if runInLoop {
        sender.ShutdownInLoop();
      }
    }

    method PeerCloses()
      requires Valid() && sender.state in {Connected, Disconnecting}
      modifies sender`state, sender.channel, sender.channel.poller
      ensures Valid() && sent == old(sent) && sender.state == Disconnected
      ensures sender.channel.poller.OthersKept(sender.channel)
    {
      hide Parse, EncodeAll;
      sender.HandleClose();
    }

    /** The frames of a batch go behind those of everything sent before. */
    method SendFrames(batch: seq<Bytes>, r: WriteResult)
      requires Joined() && Framable(batch) && SizeFits(|EncodeAll(batch)|)
      requires sender.WritesDirectly() ==> sender.KernelMayAnswer(r, ToInt32(|EncodeAll(batch)|))
      modifies this`sent, sender`wire, sender`accepted, sender`queued, sender`faulted
      modifies sender.channel, sender.channel.poller, sender.outputBuffer, sender.outputBuffer.data
      ensures Joined() && sender.channel.poller.OthersKept(sender.channel)
      ensures sender.outputBuffer.data == old(sender.outputBuffer.data) || fresh(sender.outputBuffer.data)
      ensures sent == if sender.state == Disconnected then old(sent) else old(sent) + batch
      ensures sender.wire == old(sender.wire) +
                if old(sender.WritesDirectly()) then Takes(EncodeAll(batch), r) else []
      ensures sender.faulted == (old(sender.faulted) || (old(sender.WritesDirectly()) && r.Fault?))
      ensures sender.accepted ==
                if sender.state == Disconnected || (old(sender.WritesDirectly()) && r.Fault?) then old(sender.accepted)
                else old(sender.accepted) + EncodeAll(batch)
    {
      hide Parse, Complete, EncodeAll, SizeFits, SpaceBound, Takes, ToInt32, TcpConnection.Announced;
      hide TcpConnection.Crossing, TcpConnection.Valid, TcpConnection.Consistent, Receiver.Valid, Epoller.OthersKept;
      EncodeAllAppend(sent, batch);
      sender.SendInLoop(EncodeAll(batch), r);
      if sender.state != Disconnected {
        sent := sent + batch;
      }
    }

    /** One message, or several framed back to back as the history queries send them. */
    method Send(batch: seq<Bytes>, r: WriteResult)
      requires Valid() && Framable(batch) && SizeFits(|EncodeAll(batch)|)
      requires sender.WritesDirectly() ==> sender.KernelMayAnswer(r, ToInt32(|EncodeAll(batch)|))
      modifies this, sender`wire, sender`accepted, sender`queued, sender`faulted
      modifies sender.channel, sender.channel.poller, sender.outputBuffer, sender.outputBuffer.data
      ensures Valid() && sender.channel.poller.OthersKept(sender.channel)
      ensures fresh(parts - old(parts))
      ensures sent == if sender.state == Disconnected then old(sent) else old(sent) + batch
      ensures sender.wire == old(sender.wire) +
                if old(sender.WritesDirectly()) then Takes(EncodeAll(batch), r) else []
      ensures sender.faulted == (old(sender.faulted) || (old(sender.WritesDirectly()) && r.Fault?))
      ensures sender.accepted ==
                if sender.state == Disconnected || (old(sender.WritesDirectly()) && r.Fault?) then old(sender.accepted)
                else old(sender.accepted) + EncodeAll(batch)
      ensures !sender.faulted ==> receiver.delivered <= sent
    {
      hide Linked, Apart, TcpConnection.Valid, Receiver.Valid, EncodeAll, SizeFits;
      SendFrames(batch, r);
      if !sender.faulted {
        InOrderDelivery();
      }
      parts := parts + {sender.outputBuffer.data};
    }

    method Writable(r: WriteResult)
      requires Valid()
      requires sender.channel.IsWriting() ==> sender.KernelMayAnswer(r, sender.outputBuffer.ReadableBytes())
      modifies sender`wire, sender`queued, sender`writeShut
      modifies sender.channel, sender.channel.poller, sender.outputBuffer`readerIndex
      ensures Valid() && sent == old(sent) && sender.channel.poller.OthersKept(sender.channel)
      ensures sender.writeShut == (
                old(sender.writeShut)
                || (sender.state == Disconnecting && old(sender.channel.IsWriting()) && !sender.channel.IsWriting()))
      ensures sender.wire == old(sender.wire) +
                if old(sender.channel.IsWriting()) then Takes(old(sender.outputBuffer.Contents()), r) else []
    {
      hide Parse, EncodeAll;
      sender.HandleWrite(r);
    }

    method Receive(chunk: Bytes)
      requires Joined() && receiver.arrived + chunk <= sender.wire
      requires |chunk| <= receiver.inputBuffer.WritableBytes() +
                          if receiver.inputBuffer.WritableBytes() < 65535 then 65535 else 0
      modifies receiver, receiver.inputBuffer, receiver.inputBuffer.data, receiver.splitter
      ensures Joined() && receiver.arrived == old(receiver.arrived) + chunk
      ensures receiver.inputBuffer.data == old(receiver.inputBuffer.data) || fresh(receiver.inputBuffer.data)
    {
      hide Parse, EncodeAll, Complete;
      receiver.OnReadable(chunk);
    }

    /** The next bytes of the wire arrive as one read. */
    method Deliver(chunk: Bytes)
      requires Valid() && receiver.arrived + chunk <= sender.wire
      requires |chunk| <= receiver.inputBuffer.WritableBytes() +
                          if receiver.inputBuffer.WritableBytes() < 65535 then 65535 else 0
      modifies this`parts, receiver, receiver.inputBuffer, receiver.inputBuffer.data, receiver.splitter
      ensures Valid() && sent == old(sent) && receiver.arrived == old(receiver.arrived) + chunk
      ensures fresh(parts - old(parts))
      ensures !sender.faulted ==> receiver.delivered <= sent
      ensures !sender.faulted && Drained() ==> receiver.delivered == sent
    {
      hide Linked, Apart, TcpConnection.Valid, Receiver.Valid;
      Receive(chunk);
      if !sender.faulted {
        InOrderDelivery();
      }
      parts := parts + {receiver.inputBuffer.data};
    }
  }
}
