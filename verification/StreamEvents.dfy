/**
  The events of one connection as moves of its values: what was sent, accepted, put
  on the wire, read and delivered.
 */
module StreamEvents {
  import opened Framing
  import opened ByteBuffer
  import opened Poller
  import opened Connection
  import opened Pipeline

  /** What happens to one connection. */
  datatype StreamEvent =
    | Established
    | Sends(batch: seq<Bytes>, answer: WriteResult)
    | GetsWritable(answer: WriteResult)
    | Arrives(n: nat)
    | ShutsDown
    | PeerGone

  /** How many bytes one `readv` may deliver. */
  function ReadLimit(b: Buffer): int
    reads b
  {
    b.WritableBytes() + if b.WritableBytes() < 65535 then 65535 else 0
  }

  /** Whether the event is possible: the kernel answers within its contract, and messages fit their frames. */
  predicate Possible(s: Stream, e: StreamEvent)
    reads s, s.sender, s.sender.channel, s.sender.outputBuffer, s.receiver, s.receiver.inputBuffer
  {
    match e
    case Established => s.sender.state == Connecting
    case Sends(batch, r) =>
      && Framable(batch) && SizeFits(|EncodeAll(batch)|)
      && (s.sender.WritesDirectly() ==> s.sender.KernelMayAnswer(r, ToInt32(|EncodeAll(batch)|)))
    case GetsWritable(r) =>
      s.sender.channel.IsWriting() ==> s.sender.KernelMayAnswer(r, s.sender.outputBuffer.ReadableBytes())
    case Arrives(n) => |s.receiver.arrived| + n <= |s.sender.wire| && n <= ReadLimit(s.receiver.inputBuffer)
    case ShutsDown => true
    case PeerGone => s.sender.state == Connected || s.sender.state == Disconnecting
  }

  lemma ArrivedIsPrefix(s: Stream)
    requires s.Valid()
    ensures s.receiver.arrived <= s.sender.wire
  {}

  // ---------- a connection as values ----------

  /** What a connection amounts to; `room` is how much one read may deliver. */
  datatype View = View(fd: int, sent: seq<Bytes>, accepted: Bytes, wire: Bytes, arrived: Bytes, delivered: seq<Bytes>,
                       state: State, shut: bool, faulted: bool, room: int)
  {
    /** What was accepted and is not on the wire yet. */
    function Waiting(): Bytes {
      if |wire| <= |accepted| then accepted[|wire|..] else []
    }

    /** A send goes straight to the socket. */
    predicate Direct() {
      state != Disconnected && Waiting() == []
    }
  }

  ghost function ViewOf(s: Stream): View
    reads s, s.sender, s.receiver, s.receiver.inputBuffer
  {
    View(s.sender.channel.fd, s.sent, s.sender.accepted, s.sender.wire, s.receiver.arrived, s.receiver.delivered,
         s.sender.state, s.sender.writeShut, s.sender.faulted, ReadLimit(s.receiver.inputBuffer))
  }

  /** The kernel writes no more than it is offered, and nothing once the write side is shut. */
  predicate Answers(v: View, r: WriteResult, len: int) {
    (r.Wrote? ==> r.n <= len) && (v.shut ==> r.Fault?)
  }

  predicate CanHappen(v: View, e: StreamEvent) {
    match e
    case Established => v.state == Connecting
    case Sends(batch, r) =>
      && Framable(batch) && SizeFits(|EncodeAll(batch)|)
      && (v.Direct() ==> Answers(v, r, ToInt32(|EncodeAll(batch)|)))
    case GetsWritable(r) => v.state != Disconnected && v.Waiting() != [] ==> Answers(v, r, |v.Waiting()|)
    case Arrives(n) => |v.arrived| + n <= |v.wire| && n <= v.room
    case ShutsDown => true
    case PeerGone => v.state == Connected || v.state == Disconnecting
  }

  function StateAfter(v: View, e: StreamEvent): State {
    match e
    case Established => Connected
    case PeerGone => Disconnected
    case ShutsDown => if v.state == Connected then Disconnecting else v.state
    case _ => v.state
  }

  /** What the kernel takes at an event. */
  function Taken(v: View, e: StreamEvent): Bytes {
    match e
    case Sends(batch, r) => if v.Direct() then Takes(EncodeAll(batch), r) else []
    case GetsWritable(r) => if v.state != Disconnected then Takes(v.Waiting(), r) else []
    case _ => []
  }

  /** A write that fails takes nothing. */
  predicate Faults(v: View, e: StreamEvent) {
    e.Sends? && v.Direct() && e.answer.Fault?
  }

  /** The write side is shut: at once if nothing waits, or when the last byte has gone. */
  predicate ShutAfter(v: View, e: StreamEvent) {
    || v.shut
    || (e.ShutsDown? && v.state == Connected && v.Waiting() == [])
    || (e.GetsWritable? && v.state == Disconnecting && v.Waiting() != [] && Taken(v, e) == v.Waiting())
  }

  /** One event of a connection. */
  ghost predicate Moves(v: View, e: StreamEvent, v': View) {
    && v'.fd == v.fd
    && v'.sent == (if e.Sends? && v.state != Disconnected then v.sent + e.batch else v.sent)
    && v'.accepted == (if e.Sends? && v.state != Disconnected && !Faults(v, e)
                       then v.accepted + EncodeAll(e.batch) else v.accepted)
    && v'.wire == (if e.Sends? || e.GetsWritable? then v.wire + Taken(v, e) else v.wire)
    && |v'.arrived| == |v.arrived| + (if e.Arrives? then e.n else 0) && v'.arrived <= v'.wire
    && v'.delivered == (if e.Arrives? then Parse(v'.arrived).msgs else v.delivered)
    && v'.state == StateAfter(v, e)
    && (v'.shut <==> ShutAfter(v, e)) && (v'.faulted <==> v.faulted || Faults(v, e))
    && if e.Arrives? then v'.room >= 65535 else v'.room == v.room
  }

  twostate predicate Happened(s: Stream, e: StreamEvent)
    reads s, s.sender, s.receiver, s.receiver.inputBuffer
  {
    Moves(old(ViewOf(s)), e, ViewOf(s))
  }

  /** The values tell whether there is write interest, and which bytes wait. */
  lemma ViewIs(s: Stream)
    requires s.Consistent()
    ensures ViewOf(s).Waiting() == s.sender.outputBuffer.Contents()
    ensures s.sender.WritesDirectly() <==> ViewOf(s).Direct()
    ensures s.sender.channel.IsWriting() <==> s.sender.state != Disconnected && ViewOf(s).Waiting() != []
    ensures ViewOf(s).wire <= ViewOf(s).accepted && ViewOf(s).arrived <= ViewOf(s).wire
    ensures s.receiver.delivered == Parse(s.receiver.arrived).msgs
  {
    hide Parse, EncodeAll;
  }

  /** Whether an event is possible is in the values, too. */
  lemma PossibleIs(s: Stream, e: StreamEvent)
    requires s.Consistent()
    ensures Possible(s, e) <==> CanHappen(ViewOf(s), e)
  {
    ViewIs(s);
    assert |ViewOf(s).Waiting()| == s.sender.outputBuffer.ReadableBytes();
    hide Stream.Consistent, EncodeAll, SizeFits, Framable, ToInt32;
  }

  lemma ValidIsConsistent(s: Stream)
    requires s.Valid()
    ensures s.Consistent() && s.sender.channel.poller.Valid()
  {}

  lemma OwnsEach(s: Stream)
    requires s.Valid()
    ensures s in s.parts && s.sender in s.parts && s.sender.channel in s.parts && s.receiver in s.parts
    ensures s.sender.outputBuffer in s.parts && s.sender.outputBuffer.data in s.parts
    ensures s.receiver.inputBuffer in s.parts && s.receiver.inputBuffer.data in s.parts
    ensures s.receiver.splitter in s.parts
  {}

  lemma ArriveMoves(v: View, n: nat, v': View)
    requires |v'.arrived| == |v.arrived| + n && v'.arrived <= v.wire && v'.room >= 65535
    requires v' == v.(arrived := v'.arrived, delivered := Parse(v'.arrived).msgs, room := v'.room)
    ensures Moves(v, Arrives(n), v')
  {
    hide Parse;
  }

  /** The next `n` bytes on the wire arrive. */
  method Arrive(s: Stream, n: nat)
    requires s.Valid() && Possible(s, Arrives(n))
    modifies s`parts, s.receiver, s.receiver.inputBuffer, s.receiver.inputBuffer.data, s.receiver.splitter
    ensures s.Valid() && Happened(s, Arrives(n))
    ensures fresh(s.parts - old(s.parts))
  {
    ArrivedIsPrefix(s);
    hide Stream.Valid, Stream.Drained, Parse, Moves;
    ghost var v := ViewOf(s);
    var from := |s.receiver.arrived|;
    var chunk := s.sender.wire[from..from + n];
    assert s.receiver.arrived == s.sender.wire[..from];
    assert s.receiver.arrived + chunk == s.sender.wire[..from + n];
    s.Deliver(chunk);
    ValidIsConsistent(s);
    ViewIs(s);
    ArriveMoves(v, n, ViewOf(s));
  }

  lemma SendMoves(v: View, batch: seq<Bytes>, r: WriteResult, v': View)
    requires v.wire <= v.accepted && v.arrived <= v.wire
    requires v' == v.(sent := if v.state == Disconnected then v.sent else v.sent + batch,
                      accepted := if v.state == Disconnected || (v.Direct() && r.Fault?) then v.accepted
                                  else v.accepted + EncodeAll(batch),
                      wire := v.wire + if v.Direct() then Takes(EncodeAll(batch), r) else [],
                      faulted := v.faulted || (v.Direct() && r.Fault?))
    ensures Moves(v, Sends(batch, r), v')
  {
    hide Parse, EncodeAll;
  }

  /** A batch is sent. */
  method Says(s: Stream, batch: seq<Bytes>, r: WriteResult)
    requires s.Valid() && Possible(s, Sends(batch, r))
    modifies s.parts, s.sender.channel.poller
    ensures s.Valid() && Happened(s, Sends(batch, r))
    ensures s.sender.channel.poller.OthersKept(s.sender.channel)
    ensures fresh(s.parts - old(s.parts))
  {
    ValidIsConsistent(s);
    ViewIs(s);
    OwnsEach(s);
    hide Framable, Parse, EncodeAll, SizeFits, Takes, Stream.Joined, Stream.Consistent, Stream.Valid, Stream.Owns;
    hide TcpConnection.WritesDirectly, TcpConnection.KernelMayAnswer, Buffer.Contents, Buffer.ReadableBytes;
    hide Epoller.OthersKept, Moves, View.Direct, View.Waiting;
    s.Send(batch, r);
    SendMoves(old(ViewOf(s)), batch, r, ViewOf(s));
  }

  lemma WriteMoves(v: View, r: WriteResult, v': View, writing: bool, writing': bool)
    requires v.wire <= v.accepted && v.arrived <= v.wire && v'.wire <= v'.accepted
    requires writing <==> v.state != Disconnected && v.Waiting() != []
    requires writing' <==> v'.state != Disconnected && v'.Waiting() != []
    requires v' == v.(wire := v.wire + if writing then Takes(v.Waiting(), r) else [],
                      shut := v.shut || (v.state == Disconnecting && writing && !writing'))
    ensures Moves(v, GetsWritable(r), v')
  {
    hide Parse, EncodeAll;
    var waiting, taken := v.Waiting(), if writing then Takes(v.Waiting(), r) else [];
    assert v.accepted == v.wire + waiting;
    assert v'.Waiting() == waiting[|taken|..];
    assert taken == waiting[..|taken|];
  }

  /** The socket is writable. */
  method Writes(s: Stream, r: WriteResult)
    requires s.Valid() && Possible(s, GetsWritable(r))
    modifies s.parts, s.sender.channel.poller
    ensures s.Valid() && Happened(s, GetsWritable(r))
    ensures s.sender.channel.poller.OthersKept(s.sender.channel)
    ensures s.parts == old(s.parts)
  {
    ValidIsConsistent(s);
    ViewIs(s);
    OwnsEach(s);
    hide Takes, Stream.Joined, Stream.Consistent, Stream.Valid, Stream.Owns;
    hide TcpConnection.KernelMayAnswer, Buffer.Contents, Buffer.ReadableBytes, Epoller.OthersKept, Moves, View.Waiting;
    s.Writable(r);
    ValidIsConsistent(s);
    ViewIs(s);
    WriteMoves(old(ViewOf(s)), r, ViewOf(s), old(s.sender.channel.IsWriting()), s.sender.channel.IsWriting());
  }

  lemma TurnMoves(v: View, e: StreamEvent, v': View, writing: bool)
    requires (e.Established? || e.ShutsDown? || e.PeerGone?) && v.arrived <= v.wire
    requires writing <==> v.state != Disconnected && v.Waiting() != []
    requires v' == v.(state := StateAfter(v, e), shut := v.shut || (e.ShutsDown? && v.state == Connected && !writing))
    ensures Moves(v, e, v')
  {
    hide Parse, EncodeAll;
  }

  /** The connection is established. */
  method Establishes(s: Stream)
    requires s.Valid() && Possible(s, Established)
    modifies s.sender`state, s.sender.channel, s.sender.channel.poller
    ensures s.Valid() && Happened(s, Established)
    ensures s.sender.channel.poller.OthersKept(s.sender.channel)
  {
    hide Stream.Joined, Stream.Consistent, Stream.Valid, Stream.Owns, Moves, View.Waiting;
    hide SizeFits, Framable, ReadLimit, EncodeAll, View.Direct, TcpConnection.WritesDirectly;
    hide TcpConnection.KernelMayAnswer, Epoller.OthersKept;
    ghost var v, writing := ViewOf(s), s.sender.channel.IsWriting();
    ValidIsConsistent(s);
    ViewIs(s);
    s.Establish();
    TurnMoves(v, Established, ViewOf(s), writing);
  }

  /** It is shut down on this side. */
  method Shuts(s: Stream)
    requires s.Valid() && Possible(s, ShutsDown)
    modifies s.sender`state, s.sender`writeShut
    ensures s.Valid() && Happened(s, ShutsDown)
  {
    hide Stream.Joined, Stream.Consistent, Stream.Valid, Stream.Owns, Moves, View.Waiting;
    hide SizeFits, Framable, ReadLimit, EncodeAll, View.Direct, TcpConnection.WritesDirectly;
    hide TcpConnection.KernelMayAnswer, Epoller.OthersKept;
    ghost var v, writing := ViewOf(s), s.sender.channel.IsWriting();
    ValidIsConsistent(s);
    ViewIs(s);
    s.Shutdown();
    TurnMoves(v, ShutsDown, ViewOf(s), writing);
  }

  /** The peer is gone. */
  method Closes(s: Stream)
    requires s.Valid() && Possible(s, PeerGone)
    modifies s.sender`state, s.sender.channel, s.sender.channel.poller
    ensures s.Valid() && Happened(s, PeerGone)
    ensures s.sender.channel.poller.OthersKept(s.sender.channel)
  {
    hide Stream.Joined, Stream.Consistent, Stream.Valid, Stream.Owns, Moves, View.Waiting;
    hide SizeFits, Framable, ReadLimit, EncodeAll, View.Direct, TcpConnection.WritesDirectly;
    hide TcpConnection.KernelMayAnswer, Epoller.OthersKept;
    ghost var v, writing := ViewOf(s), s.sender.channel.IsWriting();
    ValidIsConsistent(s);
    ViewIs(s);
    s.PeerCloses();
    TurnMoves(v, PeerGone, ViewOf(s), writing);
  }

  /** The connection is established, shut down or closed. */
  method Turns(s: Stream, e: StreamEvent)
    requires s.Valid() && Possible(s, e) && (e.Established? || e.ShutsDown? || e.PeerGone?)
    modifies s.parts, s.sender.channel.poller
    ensures s.Valid() && Happened(s, e)
    ensures s.sender.channel.poller.OthersKept(s.sender.channel)
    ensures s.parts == old(s.parts)
  {
    OwnsEach(s);
    hide Stream.Valid, Stream.Owns, Moves, ViewOf;
    match e
    case Established => Establishes(s);
    case ShutsDown => Shuts(s);
    case PeerGone => Closes(s);
  }

  /** A possible event; of the poller only the entry and the index of this connection's channel may change. */
  method Do(s: Stream, e: StreamEvent)
    requires s.Valid() && Possible(s, e)
    modifies s.parts, s.sender.channel.poller
    ensures s.Valid() && Happened(s, e)
    ensures s.sender.channel.poller.OthersKept(s.sender.channel)
    ensures fresh(s.parts - old(s.parts))
  {
    ValidIsConsistent(s);
    OwnsEach(s);
    hide Framable, EncodeAll, SizeFits, Stream.Joined, Stream.Consistent, Stream.Valid, Stream.Owns, Moves, ViewOf;
    hide TcpConnection.WritesDirectly, TcpConnection.KernelMayAnswer, Buffer.Contents, Buffer.ReadableBytes, ReadLimit;
    match e
    case Sends(batch, r) => Says(s, batch, r);
    case GetsWritable(r) => Writes(s, r);
    case Arrives(n) => Arrive(s, n);
    case _ => Turns(s, e);
  }

  // ---------- nothing is ever stuck on the way ----------

  /** What a valid connection amounts to fits together. */
  ghost predicate Fits(v: View) {
    && v.arrived <= v.wire <= v.accepted && v.room >= 65535
    && (v.shut && v.state != Disconnected ==> v.Waiting() == [])
  }

  lemma ValidFits(s: Stream)
    requires s.Valid()
    ensures Fits(ViewOf(s)) && s.Consistent()
  {
    ViewIs(s);
    hide Parse, EncodeAll;
  }

  /** The kernel takes everything that waits. */
  method Push(s: Stream)
    requires s.Valid() && ViewOf(s).state != Disconnected
    modifies s.parts, s.sender.channel.poller
    ensures s.Valid() && ViewOf(s).wire == ViewOf(s).accepted == old(s.sender.accepted) && s.sent == old(s.sent)
    ensures ViewOf(s).faulted == old(s.sender.faulted) && s.parts == old(s.parts)
  {
    ValidFits(s);
    ViewIs(s);
    ghost var v := ViewOf(s);
    var r := Wrote(s.sender.outputBuffer.ReadableBytes());
    assert CanHappen(v, GetsWritable(r)) && Taken(v, GetsWritable(r)) == v.Waiting();
    assert v.accepted == v.wire + v.Waiting();
    PossibleIs(s, GetsWritable(r));
    hide Stream.Valid, Stream.Consistent, Possible, CanHappen, Taken, View.Waiting;
    Writes(s, r);
  }

  /** One read of as much as there is, up to 65535 bytes. */
  method PullSome(s: Stream)
    requires s.Valid() && |s.receiver.arrived| < |s.sender.wire|
    modifies s`parts, s.receiver, s.receiver.inputBuffer, s.receiver.inputBuffer.data, s.receiver.splitter
    ensures s.Valid() && s.sent == old(s.sent) && fresh(s.parts - old(s.parts))
    ensures |old(s.receiver.arrived)| < |s.receiver.arrived| <= |s.sender.wire|
  {
    var left := |s.sender.wire| - |s.receiver.arrived|;
    ValidFits(s);
    hide Stream.Valid, Stream.Consistent, Parse;
    Arrive(s, if left < 65535 then left else 65535);
  }

  /** Reads until everything on the wire has arrived. */
  method Pull(s: Stream)
    requires s.Valid()
    modifies s.parts
    ensures s.Valid() && s.sent == old(s.sent) && |s.receiver.arrived| == |s.sender.wire|
    ensures s.sender.wire == old(s.sender.wire) && s.sender.accepted == old(s.sender.accepted)
    ensures s.sender.faulted == old(s.sender.faulted)
  {
    ValidFits(s);
    hide Stream.Valid, Stream.Consistent, Parse;
    while |s.receiver.arrived| < |s.sender.wire|
      invariant s.Valid() && s.sent == old(s.sent) && |s.receiver.arrived| <= |s.sender.wire|
      invariant s.sender.wire == old(s.sender.wire) && s.sender.accepted == old(s.sender.accepted)
      invariant s.sender.faulted == old(s.sender.faulted) && fresh(s.parts - old(s.parts))
      decreases |s.sender.wire| - |s.receiver.arrived|
    {
      OwnsEach(s);
      PullSome(s);
    }
  }

  lemma AllDelivered(s: Stream)
    requires s.Valid() && !s.sender.faulted && s.sender.wire == s.sender.accepted
    requires |s.receiver.arrived| == |s.sender.wire|
    ensures s.receiver.delivered == s.sent
  {
    ValidFits(s);
    ViewIs(s);
    assert s.receiver.arrived == s.sender.wire && s.sender.outputBuffer.Contents() == [];
    hide Stream.Consistent, TcpConnection.Valid, Receiver.Valid, Parse, EncodeAll;
    s.InOrderDelivery();
  }

  /**
    From any state in which nothing was lost, one write of all that waits and reads
    of up to 65535 bytes bring every message that was sent to the other end.
   */
  method Finish(s: Stream)
    requires s.Valid() && !s.sender.faulted && s.sender.state != Disconnected
    modifies s.parts, s.sender.channel.poller
    ensures s.Valid() && s.sent == old(s.sent) && s.receiver.delivered == s.sent
  {
    hide Stream.Valid, Moves, Parse;
    Push(s);
    Pull(s);
    AllDelivered(s);
  }
}
