/**
  Channels and their registration with the kernel (netlib/net/Channel.cc and
  netlib/net/Epoller.cc): a channel's index says whether its descriptor is in
  the epoll set, so every ADD, MOD and DEL that is issued is legal.
 */
module Poller {

  /** The event mask of a channel: kReadEvent and kWriteEvent are only set and cleared whole. */
  datatype Interest = Interest(read: bool, write: bool)

  const NO_EVENT := Interest(false, false)

  /** `_knew`, `_kadded` and `_kdelete`. */
  datatype Index = New | Added | Deleted

  datatype CtlOp = Add | Mod | Del

  /** One entry of the epoll set: the pointer and the mask handed to the kernel. */
  datatype Registration = Registration(channel: Channel, events: Interest)

  class Channel {
    const poller: Epoller
    const fd: int
    var events: Interest
    var index: Index

    constructor (poller: Epoller, fd: int)
      ensures this.poller == poller && this.fd == fd && events == NO_EVENT && index == New
    {
      this.poller, this.fd, events, index := poller, fd, NO_EVENT, New;
    }

    predicate IsNoneEvent() reads this { events == NO_EVENT }
    predicate IsWriting() reads this { events.write }

    /** The channel belongs to a consistent poller, and no other registered channel has its descriptor. */
    ghost predicate Ready()
      reads this, poller, poller.known
    {
      this in poller.known && poller.Valid() && poller.Unshared(this)
    }

    /** The kernel holds this channel with exactly its current mask. */
    ghost predicate Registered()
      reads this, poller
    {
      fd in poller.kernel && poller.kernel[fd] == Registration(this, events)
    }

    /** What `update` does for a channel that is free to register. */
    twostate predicate Updated(want: Interest)
      reads this, poller, poller.known
    {
      && Ready() && events == want && poller.OthersKept(this)
      && (index == Added <==> Registered())
      && (index == Added <==> old(index) != Added || want != NO_EVENT)
      && index != New
      && forall other <- poller.known :: other != this ==> unchanged(other)
    }

    method Update()
      requires Ready()
      modifies this, poller
      ensures Updated(old(events))
    {
      var legal := poller.UpdateChannel(this);
      assert legal;
    }

    method EnableReading()
      requires Ready()
      modifies this, poller
      ensures Updated(old(events).(read := true)) && Registered()
    {
      events := events.(read := true);
      Update();
    }

    /** Does not call `update`: the kernel keeps the mask it has. */
    method DisableReading()
      requires Ready()
      modifies this
      ensures Ready() && events == old(events).(read := false) && index == old(index)
    {
      events := events.(read := false);
    }

    method EnableWriting()
      requires Ready()
      modifies this, poller
      ensures Updated(old(events).(write := true)) && Registered()
    {
      events := events.(write := true);
      Update();
    }

    method DisableWriting()
      requires Ready()
      modifies this, poller
      ensures Updated(old(events).(write := false))
    {
      events := events.(write := false);
      Update();
    }

    method DisableAll()
      requires Ready()
      modifies this, poller
      ensures Updated(NO_EVENT)
    {
      events := NO_EVENT;
      Update();
    }
  }

  class Epoller {
    var kernel: map<int, Registration>    // the epoll set
    var channels: map<int, Channel>
    ghost var known: set<Channel>         // the channels created on this poller
    ghost var refused: nat                // the requests that the kernel refused

    /** A channel's index is Added exactly when the kernel holds its descriptor with its pointer. */
    ghost predicate Valid()
      reads this, known
    {
      && (forall c <- known :: c.poller == this)
      && (forall c <- known :: c.index == Added <==> c.fd in kernel && kernel[c.fd].channel == c)
      && (forall fd <- kernel :: kernel[fd].channel in known && kernel[fd].channel.fd == fd)
    }

    /** No other registered channel has this descriptor. */
    ghost predicate Unshared(c: Channel)
      reads this, known
    {
      forall d <- known :: d != c && d.fd == c.fd ==> d.index != Added
    }

    /** Nothing but the entry and the index of one channel may have changed. */
    twostate predicate OthersKept(c: Channel)
      reads this, known
    {
      && known == old(known) && refused == old(refused)
      && (forall f | f != c.fd :: (f in kernel <==> f in old(kernel)) && (f in kernel ==> kernel[f] == old(kernel)[f]))
      && (forall d <- known :: d != c ==> d.index == old(d.index))
    }

    constructor ()
      ensures Valid() && known == {} && kernel == map[] && refused == 0
    {
      kernel, channels, known, refused := map[], map[], {}, 0;
    }

    method NewChannel(fd: int) returns (c: Channel)
      requires Valid()
      modifies this`known
      ensures Valid() && fresh(c) && known == old(known) + {c} && kernel == old(kernel) && refused == old(refused)
      ensures c.fd == fd && c.poller == this && c.index == New && c.events == NO_EVENT
    {
      c := new Channel(this, fd);
      known := known + {c};
    }

    /** `epoll_ctl`: ADD fails on a descriptor in the set, MOD and DEL on one that is not. */
    method Ctl(op: CtlOp, c: Channel) returns (legal: bool)
      modifies this`kernel, this`refused
      ensures legal <==> (op == Add <==> c.fd !in old(kernel))
      ensures refused == old(refused) + if legal then 0 else 1
      ensures kernel == if !legal then old(kernel)
                        else if op == Del then old(kernel) - {c.fd}
                        else old(kernel)[c.fd := Registration(c, c.events)]
    {
      legal := op == Add <==> c.fd !in kernel;
      if legal {
        if op == Del {
          kernel := kernel - {c.fd};
        } else {
          kernel := kernel[c.fd := Registration(c, c.events)];
        }
      } else {
        refused := refused + 1;
      }
    }

    /**
      The request made of the kernel is legal, and the poller stays consistent,
      exactly when the channel is registered already or its descriptor is free.
     */
    method UpdateChannel(c: Channel) returns (legal: bool)
      requires Valid() && c in known
      modifies this`kernel, this`channels, this`refused, c`index
      ensures legal <==> old(c.index == Added || Unshared(c))
      ensures legal <==> Valid()
      ensures refused == old(refused) + if legal then 0 else 1
      ensures c.index == if old(c.index) == Added && c.events == NO_EVENT then Deleted else Added
      ensures legal && c.index == Added ==> c.Registered()
      ensures channels == if old(c.index) == New then old(channels)[c.fd := c] else old(channels)
      ensures forall fd | fd != c.fd ::
                (fd in kernel <==> fd in old(kernel)) && (fd in kernel ==> kernel[fd] == old(kernel)[fd])
    {
      if c.index != Added {
        if c.index == New {
          channels := channels[c.fd := c];
        }
        c.index := Added;
        legal := Ctl(Add, c);
      } else if c.IsNoneEvent() {
        legal := Ctl(Del, c);
        c.index := Deleted;
      } else {
        legal := Ctl(Mod, c);
      }
    }

    /** Legal in every state, including a second removal of the same channel. */
    method RemoveChannel(c: Channel)
      requires Valid() && c in known
      modifies this`kernel, this`channels, this`refused, c`index
      ensures Valid() && c.index == New && OthersKept(c)
      ensures c.fd in kernel ==> c.fd in old(kernel) && old(kernel[c.fd].channel) != c
      ensures kernel == if old(c.index) == Added then old(kernel) - {c.fd} else old(kernel)
      ensures channels == old(channels) - {c.fd}
    {
      channels := channels - {c.fd};
      if c.index == Added {
        var legal := Ctl(Del, c);
        assert legal;
      }
      c.index := New;
    }
  }

  /** What the users of a poller do: create channels and issue requests for them, in order of creation. */
  datatype Request = Open(fd: int) | Reading(k: nat) | NotReading(k: nat) | Writing(k: nat)
                   | NotWriting(k: nat) | Silent(k: nat) | Remove(k: nat)

  /** The mask that a request asks for. */
  function Wanted(r: Request, events: Interest): Interest {
    match r
    case Reading(_) => events.(read := true)
    case NotReading(_) => events.(read := false)
    case Writing(_) => events.(write := true)
    case NotWriting(_) => events.(write := false)
    case Silent(_) => NO_EVENT
    case Open(_) => events
    case Remove(_) => events
  }

  /** The index that goes with the new mask. */
  function IndexAfter(r: Request, index: Index, events: Interest): Index {
    if r.NotReading? then index else if index == Added && events == NO_EVENT then Deleted else Added
  }

  /** Anything but a removal, for a channel whose descriptor no other one has registered. */
  method Ask(r: Request, c: Channel)
    requires c.Ready() && !r.Open? && !r.Remove?
    modifies c, c.poller
    ensures c.poller.Valid() && c.poller.OthersKept(c) && c.events == Wanted(r, old(c.events))
    ensures !r.NotReading? && c.events != NO_EVENT ==> c.Registered()
    ensures r.NotReading? ==> c.poller.kernel == old(c.poller.kernel)
    ensures c.index == IndexAfter(r, old(c.index), c.events)
  {
    match r
    case Reading(_) => c.EnableReading();
    case NotReading(_) => c.DisableReading();
    case Writing(_) => c.EnableWriting();
    case NotWriting(_) => c.DisableWriting();
    case Silent(_) => c.DisableAll();
  }

  // ---------- whole runs ----------

  /** A channel as values. */
  datatype ChannelView = ChannelView(fd: int, events: Interest, index: Index)

  /** Another channel holds the descriptor. */
  predicate HeldElsewhere(vs: seq<ChannelView>, k: nat)
    requires k < |vs|
  {
    exists j :: 0 <= j < |vs| && j != k && vs[j].fd == vs[k].fd && vs[j].index == Added
  }

  /** One request, without a kernel: what would register a descriptor that is taken is not asked for. */
  function Moved(vs: seq<ChannelView>, r: Request): seq<ChannelView> {
    if r.Open? then vs + [ChannelView(r.fd, NO_EVENT, New)]
    else if r.k >= |vs| then vs
    else if r.Remove? then vs[r.k := vs[r.k].(index := New)]
    else if HeldElsewhere(vs, r.k) then vs
    else
      var events := Wanted(r, vs[r.k].events);
      vs[r.k := ChannelView(vs[r.k].fd, events, IndexAfter(r, vs[r.k].index, events))]
  }

  function MovedAll(requests: seq<Request>): seq<ChannelView> {
    if requests == [] then [] else Moved(MovedAll(requests[..|requests| - 1]), requests[|requests| - 1])
  }

  /** These channels look like this, and they are all there are on this poller. */
  ghost predicate Shows(p: Epoller, all: seq<Channel>, vs: seq<ChannelView>)
    reads p, all
  {
    && |all| == |vs| && (forall i :: 0 <= i < |all| ==> vs[i] == ChannelView(all[i].fd, all[i].events, all[i].index))
    && (forall i, j :: 0 <= i < j < |all| ==> all[i] != all[j])
    && (forall c <- p.known :: c in all) && (forall c <- all :: c in p.known)
  }

  /** The kernel holds the descriptor for another channel exactly if another channel has the index for it. */
  lemma HeldIs(p: Epoller, all: seq<Channel>, vs: seq<ChannelView>, k: nat)
    requires p.Valid() && Shows(p, all, vs) && k < |all|
    ensures HeldElsewhere(vs, k) <==> all[k].fd in p.kernel && p.kernel[all[k].fd].channel != all[k]
    ensures all[k] in p.known && (!HeldElsewhere(vs, k) ==> all[k].Ready())
  {
    var c := all[k];
    assert c in p.known;
    if c.fd in p.kernel && p.kernel[c.fd].channel != c {
      var d := p.kernel[c.fd].channel;
      var j :| 0 <= j < |all| && all[j] == d;
      assert vs[j].fd == vs[k].fd && vs[j].index == Added;
    }
    forall d <- p.known | d != c && d.fd == c.fd && d.index == Added ensures HeldElsewhere(vs, k) {
      var j :| 0 <= j < |all| && all[j] == d;
      assert vs[j].fd == vs[k].fd && vs[j].index == Added;
    }
  }

  /** One request of a run. */
  method Handle(p: Epoller, all: seq<Channel>, ghost vs: seq<ChannelView>, r: Request) returns (all': seq<Channel>)
    requires p.Valid() && Shows(p, all, vs)
    modifies p, p.known
    ensures p.Valid() && p.refused == old(p.refused) && Shows(p, all', Moved(vs, r))
    ensures fresh(p.known - old(p.known))
  {
    all' := all;
    if r.Open? {
      var c := p.NewChannel(r.fd);
      all' := all + [c];
    } else if r.k < |all| {
      var c := all[r.k];
      HeldIs(p, all, vs, r.k);
      if r.Remove? {
        p.RemoveChannel(c);
      } else if c.fd in p.kernel ==> p.kernel[c.fd].channel == c {
        Ask(r, c);
      }
    }
  }

  lemma MovedOne(requests: seq<Request>, i: nat)
    requires i < |requests|
    ensures MovedAll(requests[..i + 1]) == Moved(MovedAll(requests[..i]), requests[i])
  {
    assert requests[..i + 1][..i] == requests[..i];
    hide Moved;
  }

  /**
    Any run that creates channels and asks for anything, except to register a
    descriptor that another channel holds: the kernel refuses no request, and masks
    and indexes are those of the run without a kernel.
   */
  method Run(requests: seq<Request>) returns (p: Epoller, all: seq<Channel>)
    ensures p.Valid() && p.refused == 0 && Shows(p, all, MovedAll(requests))
    ensures forall c <- all :: c in p.known && (c.index == Added <==> c.fd in p.kernel && p.kernel[c.fd].channel == c)
  {
    p := new Epoller();
    all := [];
    assert Shows(p, all, MovedAll(requests[..0]));
    for i := 0 to |requests|
      invariant p.Valid() && p.refused == 0 && fresh(p) && fresh(p.known) && Shows(p, all, MovedAll(requests[..i]))
    {
      MovedOne(requests, i);
      hide Moved, Shows;
      all := Handle(p, all, MovedAll(requests[..i]), requests[i]);
    }
    assert requests[..|requests|] == requests;
    assert forall c <- all :: c in p.known;
  }
}
