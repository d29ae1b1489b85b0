/**
  One event loop with its poller, any number of connections and any other channels,
  such as the one of the wakeup descriptor: no step for one of them disturbs another.
 */
module Loops {
  import opened Framing
  import opened ByteBuffer
  import opened Poller
  import opened Connection
  import opened Pipeline
  import opened StreamEvents

  /** What may happen in a loop. */
  datatype LoopEvent =
    | Opens(fd: int)
    | OpensOther(fd: int)
    | Happens(k: nat, event: StreamEvent)
    | Asks(j: nat, request: Request)
    | Destroys(k: nat)

  /** The connections, in order of arrival, the other channels, and the descriptors in use. */
  datatype LoopView = LoopView(views: seq<View>, others: seq<ChannelView>, fds: set<int>)

  function ChannelViewOf(c: Channel): ChannelView
    reads c
  {
    ChannelView(c.fd, c.events, c.index)
  }

  ghost function ChannelViews(cs: seq<Channel>): (vs: seq<ChannelView>)
    reads cs
    ensures |vs| == |cs| && forall i :: 0 <= i < |cs| ==> vs[i] == ChannelViewOf(cs[i])
  {
    seq(|cs|, i requires 0 <= i < |cs| reads cs => ChannelViewOf(cs[i]))
  }

  /** A request for a channel that is none of a connection's. */
  function Asked(c: ChannelView, r: Request): ChannelView {
    if r.Remove? then c.(index := New)
    else ChannelView(c.fd, Wanted(r, c.events), IndexAfter(r, c.index, Wanted(r, c.events)))
  }

  ghost function FdsOf(channels: set<Channel>): set<int> {
    set c <- channels :: c.fd
  }

  /** A connection on which nothing has happened yet. */
  predicate IsNew(v: View, fd: int) {
    && v.fd == fd && v.sent == [] && v.accepted == [] && v.wire == [] && v.arrived == [] && v.delivered == []
    && v.state == Connecting && !v.shut && !v.faulted && v.room >= 65535
  }

  /** One event of a loop: a connection goes on, comes or goes; an impossible event changes nothing. */
  ghost predicate LoopMoves(v: LoopView, e: LoopEvent, v': LoopView) {
    match e
    case Opens(fd) =>
      if fd in v.fds then v' == v
      else |v'.views| == |v.views| + 1 && v'.views[..|v.views|] == v.views && IsNew(v'.views[|v.views|], fd)
           && v'.others == v.others && v'.fds == v.fds + {fd}
    case OpensOther(fd) =>
      if fd in v.fds then v' == v
      else v' == v.(others := v.others + [ChannelView(fd, NO_EVENT, New)], fds := v.fds + {fd})
    case Happens(k, event) =>
      if k < |v.views| && CanHappen(v.views[k], event)
      then |v'.views| == |v.views| && v'.others == v.others && v'.fds == v.fds
           && Moves(v.views[k], event, v'.views[k])
           && forall i | 0 <= i < |v.views| && i != k :: v'.views[i] == v.views[i]
      else v' == v
    case Asks(j, request) =>
      if j < |v.others| && !request.Open?
      then v' == v.(others := v.others[j := Asked(v.others[j], request)])
      else v' == v
    case Destroys(k) =>
      if k < |v.views|
      then v' == v.(views := v.views[..k] + v.views[k + 1..], fds := v.fds - {v.views[k].fd})
      else v' == v
  }

  lemma OneMoved(v: LoopView, k: nat, e: StreamEvent, v': LoopView)
    requires k < |v.views| == |v'.views| && v'.fds == v.fds && v'.others == v.others && CanHappen(v.views[k], e)
    requires Moves(v.views[k], e, v'.views[k])
    requires forall i | 0 <= i < |v.views| && i != k :: v'.views[i] == v.views[i]
    ensures LoopMoves(v, Happens(k, e), v')
  {
    hide Moves, CanHappen;
  }

  lemma NothingMoved(v: LoopView, k: nat, e: StreamEvent)
    requires k < |v.views| ==> !CanHappen(v.views[k], e)
    ensures LoopMoves(v, Happens(k, e), v)
  {
    hide Moves, CanHappen;
  }

  lemma OneFdLess(used: set<Channel>, c: Channel)
    requires c in used && forall d <- used, d' <- used :: d.fd == d'.fd ==> d == d'
    ensures FdsOf(used - {c}) == FdsOf(used) - {c.fd}
  {}

  lemma OneFdMore(used: set<Channel>, c: Channel)
    ensures FdsOf(used + {c}) == FdsOf(used) + {c.fd}
  {}

  lemma NotOpened(v: LoopView, fd: int)
    requires fd in v.fds
    ensures LoopMoves(v, Opens(fd), v)
  {}

  lemma OpenedMoves(v: LoopView, fd: int, v': LoopView)
    requires fd !in v.fds && |v'.views| == |v.views| + 1 && IsNew(v'.views[|v.views|], fd) && v'.fds == v.fds + {fd}
    requires v'.others == v.others
    requires forall i | 0 <= i < |v.views| :: v'.views[i] == v.views[i]
    ensures LoopMoves(v, Opens(fd), v')
  {
    hide IsNew;
  }

  class Loop {
    const poller: Epoller
    var streams: seq<Stream>
    var others: seq<Channel>
    var used: set<Channel>    // the channels of the streams and the others

    /** The loop as values. */
    ghost function Seen(): (v: LoopView)
      reads *
      ensures |v.views| == |streams| && forall i :: 0 <= i < |streams| ==> v.views[i] == ViewOf(streams[i])
      ensures v.others == ChannelViews(others) && v.fds == FdsOf(used)
    {
      LoopView(seq(|streams|, i requires 0 <= i < |streams| reads * => ViewOf(streams[i])),
               ChannelViews(others), FdsOf(used))
    }

    /** Every object of a connection, and the other channels. */
    ghost function Objects(): set<object>
      reads this, streams
    {
      (set s <- streams, o <- s.parts :: o) + (set c <- others :: c)
    }

    /** Connections have no object in common, with each other or with the other channels. */
    ghost predicate Separate()
      reads *
    {
      && (forall i, j :: 0 <= i < j < |streams| ==> streams[i].parts !! streams[j].parts)
      && (forall s <- streams :: poller !in s.parts && this !in s.parts)
      && (forall s <- streams, c <- others :: c !in s.parts)
    }

    /** The descriptors in use are distinct, and all channels of the loop are in use. */
    ghost predicate Named()
      reads this
    {
      && (forall c <- used, d <- used :: c.fd == d.fd ==> c == d)
      && (forall s <- streams :: s.sender.channel in used)
      && (forall c <- others :: c in used)
      && (forall i, j :: 0 <= i < j < |others| ==> others[i] != others[j])
    }

    /** Only channels in use are registered. */
    ghost predicate Descriptors()
      reads this, poller, poller.known
    {
      && poller.Valid() && used <= poller.known && Named()
      && (forall c <- poller.known :: c.index == Added ==> c in used)
    }

    /** Every connection is consistent, and registered while it has write interest. */
    ghost predicate Fit()
      reads *
    {
      forall s <- streams :: s.Consistent() && s.sender.channel.poller == poller
                             && (s.sender.channel.IsWriting() ==> s.sender.channel.Registered())
    }

    ghost predicate Valid()
      reads *
    {
      Separate() && Descriptors() && Fit()
    }

    /** In such a loop every connection is valid by itself. */
    lemma EachIsValid(s: Stream)
      requires Valid() && s in streams
      ensures s.Valid()
    {
      assert s.sender.channel.Ready();
    }

    constructor ()
      ensures Valid() && fresh(poller) && streams == [] && others == [] && used == {} && poller.refused == 0
    {
      poller := new Epoller();
      streams, others, used := [], [], {};
    }

    /** The objects of each connection, as values. */
    ghost function AllParts(): (r: seq<set<object>>)
      reads *
      ensures |r| == |streams| && forall i :: 0 <= i < |streams| ==> r[i] == streams[i].parts
    {
      seq(|streams|, i requires 0 <= i < |streams| reads * => streams[i].parts)
    }

    lemma SeparateAt(i: nat, k: nat)
      requires Separate() && i < |streams| && k < |streams| && i != k
      ensures streams[i].parts !! streams[k].parts && poller !in streams[i].parts && poller !in streams[k].parts
    {
    }

    lemma FitAt(i: nat)
      requires Fit() && i < |streams|
      ensures streams[i].Consistent() && streams[i].sender.channel.poller == poller
      ensures streams[i].sender.channel.IsWriting() ==> streams[i].sender.channel.Registered()
    {}

    lemma DescriptorsApart(i: nat, k: nat)
      requires Valid() && i < |streams| && k < |streams| && i != k
      ensures streams[i].sender.channel.fd != streams[k].sender.channel.fd
    {
      SeparateAt(i, k);
      FitAt(i);
      FitAt(k);
      assert streams[i].sender.channel in streams[i].parts && streams[k].sender.channel in streams[k].parts;
    }

    lemma OwnApart(k: nat)
      requires Separate() && k < |streams|
      ensures poller !in streams[k].parts && this !in streams[k].parts
      ensures forall c <- others :: c !in streams[k].parts
    {}

    /** Sets of objects with nothing in common, with each other or with what else there is. */
    ghost predicate Disjoint(parts: seq<set<object>>)
      reads this`others
    {
      && (forall i, j :: 0 <= i < j < |parts| ==> parts[i] !! parts[j])
      && (forall i: nat | i < |parts| :: poller !in parts[i] && this !in parts[i])
      && (forall i: nat | i < |parts| :: forall c <- others :: c !in parts[i])
    }

    lemma PartsApart()
      requires Separate()
      ensures Disjoint(AllParts())
    {}

    /** Separation carries over when one connection has new arrays and the others are as they were. */
    lemma DescriptorsAgain(added: set<Channel>)
      requires poller.Valid() && used <= poller.known && added <= used && Named()
      requires forall c <- poller.known :: c.index == Added && c !in added ==> c in used
      ensures Descriptors()
    {}

    /** What the descriptors are like, apart from the indexes. */
    lemma InUse()
      requires Descriptors()
      ensures poller.Valid() && used <= poller.known && Named()
      ensures forall c <- poller.known :: c.index == Added ==> c in used
    {}

    lemma ChannelInUse(k: nat)
      requires Named() && k < |streams|
      ensures streams[k].sender.channel in used
    {}

    /** The objects of all connections but one. */
    ghost function RestOf(parts: seq<set<object>>, k: nat): set<object> {
      set i: nat, o | i < |parts| && i != k && o in parts[i] :: o
    }

    /** What these connections amount to; it reads these objects only. */
    ghost predicate RestSeen(ss: seq<Stream>, views: seq<View>, rest: set<object>)
      reads rest
    {
      && |ss| == |views|
      && forall i: nat | i < |ss| ::
           ss[i] in rest && ss[i].sender in rest && ss[i].receiver in rest && ss[i].receiver.inputBuffer in rest
           && ViewOf(ss[i]) == views[i]
    }

    /**
      The other connections are consistent, own what they did, and are registered in
      this kernel set while they have write interest.  It reads their objects only.
     */
    ghost predicate OthersFine(k: nat, kernel: map<int, Registration>, parts: seq<set<object>>, rest: set<object>,
                               views: seq<View>)
      requires k < |streams|
      reads this`streams, rest
    {
      && |parts| == |streams| == |views|
      && forall i: nat | i < |streams| && i != k ::
           var s := streams[i];
           && s in rest && s.parts == parts[i] && parts[i] <= rest && s.Consistent()
           && s.sender in rest && s.receiver in rest && s.receiver.inputBuffer in rest && ViewOf(s) == views[i]
           && s.sender.channel in rest && s.sender.channel.poller == poller
           && s.sender.channel.fd != streams[k].sender.channel.fd
           && (s.sender.channel.IsWriting() ==>
                 s.sender.channel.fd in kernel
                 && kernel[s.sender.channel.fd] == Registration(s.sender.channel, s.sender.channel.events))
    }

    lemma OthersAreFine(k: nat)
      requires Valid() && k < |streams|
      ensures OthersFine(k, poller.kernel, AllParts(), RestOf(AllParts(), k), Seen().views)
      ensures RestOf(AllParts(), k) !! streams[k].parts
      ensures poller !in RestOf(AllParts(), k) && this !in RestOf(AllParts(), k)
    {
      forall i: nat | i < |streams| && i != k
        ensures streams[i].sender.channel.fd != streams[k].sender.channel.fd
        ensures streams[i].parts !! streams[k].parts && poller !in streams[i].parts && this !in streams[i].parts
        ensures streams[i].Consistent() && streams[i] in streams[i].parts
        ensures streams[i].sender.channel in streams[i].parts
        ensures streams[i].sender in streams[i].parts && streams[i].receiver in streams[i].parts
        ensures streams[i].receiver.inputBuffer in streams[i].parts
      {
        DescriptorsApart(i, k);
        SeparateAt(i, k);
        FitAt(i);
        OwnApart(i);
        hide Separate, Fit, Descriptors;
      }
      hide Separate, Descriptors, Stream.Consistent;
    }

    lemma RestAllocated(k: nat)
      ensures forall o <- RestOf(AllParts(), k) :: allocated(o)
    {}

    /** The step itself: it does not touch what the others depend on. */
    method Step(k: nat, e: StreamEvent, ghost kernel: map<int, Registration>, ghost parts: seq<set<object>>,
                ghost rest: set<object>, ghost views: seq<View>)
      requires k < |streams| && streams[k].Valid() && Possible(streams[k], e)
      requires streams[k].sender.channel.poller == poller
      requires OthersFine(k, kernel, parts, rest, views) && rest !! streams[k].parts && poller !in rest
      requires this !in streams[k].parts && forall c <- others :: c !in streams[k].parts
      modifies streams[k].parts, poller
      ensures ChannelViews(others) == old(ChannelViews(others))
      ensures streams == old(streams) && others == old(others) && used == old(used) && streams[k].Valid()
      ensures OthersFine(k, kernel, parts, rest, views)
      ensures Happened(streams[k], e) && poller.OthersKept(streams[k].sender.channel)
      ensures fresh(streams[k].parts - old(streams[k].parts))
    {
      hide *;
      Do(streams[k], e);
    }

    lemma FitAgain(k: nat, kernel: map<int, Registration>, parts: seq<set<object>>, rest: set<object>, views: seq<View>)
      requires k < |streams| && streams[k].Valid() && streams[k].sender.channel.poller == poller
      requires OthersFine(k, kernel, parts, rest, views)
      requires forall f | f != streams[k].sender.channel.fd ::
                 f in kernel ==> f in poller.kernel && poller.kernel[f] == kernel[f]
      ensures Fit()
    {
      ValidIsConsistent(streams[k]);
      forall i: nat | i < |streams| && streams[i].sender.channel.IsWriting()
        ensures streams[i].sender.channel.Registered()
      {
        var c := streams[i].sender.channel;
        if i != k {
          assert c.fd in poller.kernel;
        }
      }
      hide Stream.Consistent;
    }

    /** Separation carries over when one connection has new arrays and the others are as they were. */
    lemma SeparateAgain(k: nat, kernel: map<int, Registration>, parts: seq<set<object>>, rest: set<object>,
                        views: seq<View>, added: set<object>)
      requires k < |streams| && OthersFine(k, kernel, parts, rest, views) && Disjoint(parts)
      requires added !! rest && streams[k].parts <= parts[k] + added
      requires poller !in added && this !in added && forall c <- others :: c !in added
      ensures Separate()
    {
      forall i, j | 0 <= i < j < |streams| ensures streams[i].parts !! streams[j].parts {
        assert parts[i] !! parts[j];
      }
      forall s <- streams ensures poller !in s.parts && this !in s.parts && forall c <- others :: c !in s.parts {
        var i :| 0 <= i < |streams| && streams[i] == s;
        assert i == k || s.parts == parts[i];
      }
      hide Stream.Consistent;
    }

    lemma OthersAreThere(k: nat, kernel: map<int, Registration>, parts: seq<set<object>>, rest: set<object>,
                         views: seq<View>)
      requires k < |streams| && OthersFine(k, kernel, parts, rest, views)
      ensures forall i: nat | i < |streams| && i != k ::
                streams[i] in rest && streams[i].sender in rest && streams[i].receiver in rest
                && streams[i].receiver.inputBuffer in rest && ViewOf(streams[i]) == views[i]
    {
      hide Stream.Consistent, ViewOf;
    }

    lemma OthersAreSame(k: nat, kernel: map<int, Registration>, parts: seq<set<object>>, rest: set<object>,
                        views: seq<View>)
      requires k < |streams| && OthersFine(k, kernel, parts, rest, views)
      ensures forall i: nat | i < |streams| && i != k :: ViewOf(streams[i]) == views[i] && streams[i].parts == parts[i]
    {
      hide Stream.Consistent, ViewOf;
    }

    lemma SeenMoved(k: nat, e: StreamEvent, v: LoopView)
      requires k < |streams| == |v.views| && v.fds == FdsOf(used) && v.others == ChannelViews(others)
      requires CanHappen(v.views[k], e)
      requires Moves(v.views[k], e, ViewOf(streams[k]))
      requires forall i: nat | i < |streams| && i != k :: ViewOf(streams[i]) == v.views[i]
      ensures LoopMoves(v, Happens(k, e), Seen())
    {
      hide Moves, CanHappen, ViewOf, LoopMoves;
      OneMoved(v, k, e, Seen());
    }

    /** A possible event of one connection keeps the whole loop, and nothing happens to the others. */
    method On(k: nat, e: StreamEvent)
      requires Valid() && k < |streams| && Possible(streams[k], e)
      modifies streams[k].parts, poller
      ensures Valid() && streams == old(streams) && others == old(others) && poller.refused == old(poller.refused)
      ensures fresh(streams[k].parts - old(streams[k].parts))
      ensures forall i: nat | i < |streams| && i != k :: streams[i].parts == old(AllParts())[i]
      ensures LoopMoves(old(Seen()), Happens(k, e), Seen())
    {
      hide Possible, Moves, ViewOf, Stream.Valid, Stream.Consistent, Fit, Separate, Descriptors, Named, Disjoint;
      hide OthersFine, RestOf, CanHappen, LoopMoves, FdsOf;
      ghost var parts, kernel := AllParts(), poller.kernel;
      ghost var rest, seen, views := RestOf(parts, k), Seen(), Seen().views;
      PartsApart();
      InUse();
      OthersAreFine(k);
      EachIsValid(streams[k]);
      FitAt(k);
      PossibleIs(streams[k], e);
      ChannelInUse(k);
      OwnApart(k);
      RestAllocated(k);
      Step(k, e, kernel, parts, rest, views);
      assert Fit() by { FitAgain(k, kernel, parts, rest, views); }
      assert Separate() by { SeparateAgain(k, kernel, parts, rest, views, streams[k].parts - parts[k]); }
      assert Descriptors() by { ValidIsConsistent(streams[k]); DescriptorsAgain({streams[k].sender.channel}); }
      OthersAreSame(k, kernel, parts, rest, views);
      SeenMoved(k, e, seen);
    }

    // ---------- connections and channels come and go ----------

    lemma FitKept(fd: int, kernel: map<int, Registration>)
      requires forall s <- streams :: s.Consistent() && s.sender.channel.poller == poller
      requires forall s <- streams | s.sender.channel.IsWriting() ::
                 var c := s.sender.channel; c.fd != fd && c.fd in kernel && kernel[c.fd] == Registration(c, c.events)
      requires forall f | f != fd :: f in kernel ==> f in poller.kernel && poller.kernel[f] == kernel[f]
      ensures Fit()
    {
      forall s <- streams | s.sender.channel.IsWriting() ensures s.sender.channel.Registered() {
        assert s.sender.channel.fd in poller.kernel;
      }
      hide Stream.Consistent;
    }

    /** What is needed of each connection to see that it is left alone. */
    lemma Untouched()
      requires Separate() && Fit()
      ensures forall s <- streams :: s.Consistent() && s in s.parts && s.sender.channel in s.parts
      ensures forall s <- streams :: poller !in s.parts && this !in s.parts && s.sender.channel.poller == poller
      ensures forall s <- streams, c <- others :: c !in s.parts
      ensures forall s <- streams | s.sender.channel.IsWriting() ::
                var c := s.sender.channel; c.fd in poller.kernel && poller.kernel[c.fd] == Registration(c, c.events)
    {}

    lemma SeparateSame(parts: seq<set<object>>)
      requires |streams| == |parts| && Disjoint(parts)
      requires forall i: nat | i < |parts| :: streams[i].parts == parts[i]
      ensures Separate()
    {
      forall s <- streams ensures poller !in s.parts && this !in s.parts && forall c <- others :: c !in s.parts {
        var i :| 0 <= i < |streams| && streams[i] == s;
        assert s.parts == parts[i];
      }
    }

    lemma FitSame()
      requires forall s <- streams :: s.Consistent() && s.sender.channel.poller == poller
      requires forall s <- streams | s.sender.channel.IsWriting() ::
                 var c := s.sender.channel; c.fd in poller.kernel && poller.kernel[c.fd] == Registration(c, c.events)
      ensures Fit()
    {
      hide Stream.Consistent;
    }

    lemma SeparateMore(parts: seq<set<object>>)
      requires |streams| == |parts| + 1 && Disjoint(parts)
      requires forall i: nat | i < |parts| :: streams[i].parts == parts[i] && parts[i] !! streams[|parts|].parts
      requires poller !in streams[|parts|].parts && this !in streams[|parts|].parts
      requires forall c <- others :: c !in streams[|parts|].parts
      ensures Separate()
    {
      forall s <- streams ensures poller !in s.parts && this !in s.parts && forall c <- others :: c !in s.parts {
        var i :| 0 <= i < |streams| && streams[i] == s;
        assert i < |parts| ==> s.parts == parts[i];
      }
    }

    lemma WritesRegistered(s: Stream)
      requires s.Valid()
      ensures s.Consistent() && s.sender.channel in s.sender.channel.poller.known
      ensures s.sender.channel.IsWriting() ==> s.sender.channel.Registered()
    {}

    /** A new connection leaves the others, which it does not belong to yet, as they are. */
    method Accept(fd: int) returns (s: Stream)
      requires Valid() && forall c <- used :: c.fd != fd
      modifies poller
      ensures s.Valid() && fresh(s) && fresh(s.parts) && s.sender.channel.poller == poller && s.sender.channel.fd == fd
      ensures Valid() && poller.refused == old(poller.refused)
      ensures forall t <- streams :: t.parts == old(t.parts) && t.parts !! s.parts
      ensures poller !in s.parts && this !in s.parts && forall c <- others :: c !in s.parts
      ensures IsNew(ViewOf(s), fd)
    {
      hide Stream.Valid, Stream.Consistent, Fit, Separate, Descriptors;
      ghost var parts, kernel := AllParts(), poller.kernel;
      PartsApart();
      InUse();
      Untouched();
      s := new Stream(poller, fd);
      ValidIsConsistent(s);
      ValidFits(s);
      SeparateSame(parts);
      DescriptorsAgain({});
      FitKept(fd, kernel);
    }

    /** The loop takes up a connection that shares nothing with the others. */
    method Enlist(s: Stream)
      requires Valid() && s.Valid() && s.sender.channel.poller == poller
      requires forall c <- used :: c.fd != s.sender.channel.fd
      requires forall t <- streams :: t.parts !! s.parts
      requires poller !in s.parts && this !in s.parts && forall c <- others :: c !in s.parts
      modifies this`streams, this`used
      ensures Valid() && streams == old(streams) + [s]
      ensures used == old(used) + {s.sender.channel}
    {
      hide Stream.Valid, Stream.Consistent, Fit, Separate, Descriptors, Disjoint;
      ghost var parts := AllParts();
      PartsApart();
      InUse();
      Untouched();
      WritesRegistered(s);
      streams := streams + [s];
      used := used + {s.sender.channel};
      SeparateMore(parts);
      FitSame();
      DescriptorsAgain({});
    }

    /** A new connection on a descriptor that is not in use. */
    method Open(fd: int)
      requires Valid() && forall c <- used :: c.fd != fd
      modifies this`streams, this`used, poller
      ensures Valid() && |streams| == |old(streams)| + 1 && streams == old(streams) + [streams[|old(streams)|]]
      ensures poller.refused == old(poller.refused) && fresh(streams[|old(streams)|].parts)
      ensures forall s <- old(streams) :: s.parts == old(s.parts)
      ensures IsNew(ViewOf(streams[|old(streams)|]), fd)
      ensures used == old(used) + {streams[|old(streams)|].sender.channel}
      ensures streams[|old(streams)|].sender.channel.fd == fd
    {
      hide *;
      var s := Accept(fd);
      Enlist(s);
    }

    /** The same in terms of values. */
    method OpenSeen(fd: int)
      requires Valid() && forall c <- used :: c.fd != fd
      modifies this`streams, this`used, poller
      ensures Valid() && |streams| == |old(streams)| + 1 && streams == old(streams) + [streams[|old(streams)|]]
      ensures poller.refused == old(poller.refused) && fresh(streams[|old(streams)|].parts)
      ensures forall s <- old(streams) :: s.parts == old(s.parts)
      ensures LoopMoves(old(Seen()), Opens(fd), Seen())
    {
      ghost var v := Seen();
      hide Valid, IsNew, LoopMoves;
      Open(fd);
      OneFdMore(old(used), streams[|old(streams)|].sender.channel);
      hide FdsOf;
      OpenedMoves(v, fd, Seen());
    }

    /** Any other channel on a descriptor that is not in use. */
    method OpenOther(fd: int)
      requires Valid() && forall c <- used :: c.fd != fd
      modifies this`others, this`used, poller
      ensures Valid() && |others| == |old(others)| + 1 && others == old(others) + [others[|old(others)|]]
      ensures poller.refused == old(poller.refused) && fresh(others[|old(others)|])
      ensures streams == old(streams) && forall s <- streams :: s.parts == old(s.parts)
      ensures used == old(used) + {others[|old(others)|]}
      ensures ChannelViews(others) == old(ChannelViews(others)) + [ChannelView(fd, NO_EVENT, New)]
    {
      hide Stream.Consistent, Fit, Separate, Descriptors;
      ghost var parts, kernel := AllParts(), poller.kernel;
      PartsApart();
      InUse();
      Untouched();
      var c := poller.NewChannel(fd);
      others := others + [c];
      used := used + {c};
      SeparateSame(parts);
      DescriptorsAgain({});
      FitKept(fd, kernel);
    }

    /** The writers have other descriptors than a channel that belongs to none of the connections. */
    lemma WritersElsewhere(c: Channel)
      requires Separate() && Descriptors() && Fit() && c in used && forall s <- streams :: c !in s.parts
      ensures forall s <- streams :: s.sender.channel.fd != c.fd
    {
      forall s <- streams ensures s.sender.channel.fd != c.fd {
        assert s.sender.channel in s.parts && s.sender.channel in used;
      }
      hide Stream.Consistent;
    }

    lemma OtherIsReady(c: Channel)
      requires Descriptors() && c in used
      ensures c.Ready() && c.poller == poller
    {}

    lemma OthersDistinct(j: nat)
      requires Named() && j < |others|
      ensures forall i: nat | i < |others| && i != j :: others[i] != others[j]
    {}

    /** A request for a channel that is none of the connections'. */
    method Ask(j: nat, r: Request)
      requires Valid() && j < |others| && !r.Open?
      modifies others[j], poller
      ensures Valid() && poller.refused == old(poller.refused)
      ensures forall s <- streams :: s.parts == old(s.parts)
      ensures ChannelViews(others) == old(ChannelViews(others))[j := Asked(old(ChannelViews(others))[j], r)]
    {
      hide Stream.Consistent, Fit, Separate, Descriptors;
      ghost var parts, kernel := AllParts(), poller.kernel;
      var c := others[j];
      PartsApart();
      InUse();
      OthersDistinct(j);
      Untouched();
      WritersElsewhere(c);
      OtherIsReady(c);
      if r.Remove? {
        poller.RemoveChannel(c);
      } else {
        Poller.Ask(r, c);
      }
      SeparateSame(parts);
      DescriptorsAgain({c});
      FitKept(c.fd, kernel);
    }

    /** The connections without one of them, and their objects. */
    ghost function Rest(k: nat): seq<Stream>
      requires k < |streams|
      reads this`streams
    {
      streams[..k] + streams[k + 1..]
    }

    ghost function RestParts(k: nat): (r: seq<set<object>>)
      requires k < |streams|
      reads *
      ensures |r| == |streams| - 1
    {
      AllParts()[..k] + AllParts()[k + 1..]
    }

    lemma RestApart(k: nat)
      requires Separate() && k < |streams|
      ensures forall i, j :: 0 <= i < j < |RestParts(k)| ==> RestParts(k)[i] !! RestParts(k)[j]
      ensures forall i: nat | i < |RestParts(k)| :: poller !in RestParts(k)[i] && this !in RestParts(k)[i]
      ensures forall i: nat | i < |RestParts(k)| :: forall c <- others :: c !in RestParts(k)[i]
      ensures forall i: nat | i < |RestParts(k)| :: Rest(k)[i].parts == RestParts(k)[i]
      ensures forall t <- Rest(k) :: t in streams && t.parts !! streams[k].parts
    {
      PartsApart();
      forall i: nat | i < |Rest(k)| ensures Rest(k)[i] in streams && Rest(k)[i].parts !! streams[k].parts {
        var i' := if i < k then i else i + 1;
        assert Rest(k)[i] == streams[i'];
        SeparateAt(i', k);
      }
      hide Separate;
    }

    lemma ParticipantsValid(s: Stream)
      requires s.Valid()
      ensures s.sender.Valid() && s.sender in s.parts && s.sender.channel in s.parts
    {}

    /** The objects of the loop when only one connection has other objects than before. */
    lemma ObjectsAgain(k: nat, parts: seq<set<object>>, before: set<object>)
      requires k < |streams| == |parts|
      requires forall i: nat | i < |streams| && i != k :: streams[i].parts == parts[i]
      requires forall i: nat | i < |parts| :: parts[i] <= before
      requires forall c <- others :: c in before
      ensures Objects() <= before + streams[k].parts
    {}

    lemma ObjectsAre()
      ensures forall i: nat | i < |streams| :: AllParts()[i] <= Objects()
      ensures forall c <- others :: c in Objects()
    {
      assert forall i: nat | i < |streams| :: streams[i] in streams;
    }

    lemma InObjects(k: nat)
      requires Valid() && k < |streams|
      ensures streams[k].sender in Objects() && streams[k].sender.channel in Objects()
    {
      EachIsValid(streams[k]);
      ParticipantsValid(streams[k]);
      hide Valid, Stream.Valid;
      assert streams[k] in streams;
    }

    /** A connection leaves the loop; its channel is still registered. */
    method Delist(k: nat) returns (s: Stream)
      requires Valid() && k < |streams|
      modifies this`streams
      ensures Valid() && s == old(streams)[k] && streams == old(streams)[..k] + old(streams)[k + 1..]
      ensures s.Valid() && s.sender.channel.poller == poller && s.sender.channel in used
      ensures s.sender in s.parts && s.sender.channel in s.parts
      ensures forall t <- streams :: t.parts !! s.parts
      ensures poller !in s.parts && this !in s.parts && forall c <- others :: c !in s.parts
    {
      hide Stream.Consistent, Stream.Valid, Fit, Descriptors, Separate, RestParts;
      s := streams[k];
      EachIsValid(s);
      ParticipantsValid(s);
      RestApart(k);
      OwnApart(k);
      FitAt(k);
      Untouched();
      InUse();
      ghost var parts := RestParts(k);
      streams := streams[..k] + streams[k + 1..];
      SeparateSame(parts);
      FitSame();
      DescriptorsAgain({});
    }

    /** `connectDestroyed` of a connection that has left. */
    method UnhookStep(s: Stream)
      requires s.Valid() && s.sender.channel.poller == poller
      requires forall t <- streams :: t.parts !! s.parts && poller !in t.parts && this !in t.parts && t in t.parts
      requires forall t <- streams :: t.sender.channel in t.parts && t.Consistent()
      requires poller !in s.parts && this !in s.parts
      modifies s.sender`state, s.sender.channel, poller
      ensures s.sender.channel.index == New && poller.Valid() && poller.OthersKept(s.sender.channel)
      ensures streams == old(streams) && others == old(others) && used == old(used)
      ensures forall t <- streams ::
                t.Consistent() && t.parts == old(t.parts) && t.sender.channel.events == old(t.sender.channel.events)
    {
      hide Stream.Consistent, Stream.Joined;
      ParticipantsValid(s);
      hide Stream.Valid, TcpConnection.Valid;
      s.sender.ConnectDestroyed();
    }

    /** Its channel is unregistered afterwards. */
    method Unhook(s: Stream)
      requires Valid() && s.Valid() && s.sender.channel.poller == poller && s.sender.channel in used
      requires forall t <- streams :: t.parts !! s.parts
      requires poller !in s.parts && this !in s.parts && forall c <- others :: c !in s.parts
      modifies s.sender`state, s.sender.channel, poller
      ensures Valid() && poller.refused == old(poller.refused) && s.sender.channel.index == New
      ensures forall t <- streams :: t.parts == old(t.parts)
      ensures forall t <- streams :: t.sender.channel != s.sender.channel
      ensures s.sender.channel !in others
    {
      hide Stream.Consistent, Stream.Valid, Fit, Separate, Descriptors;
      ghost var parts, kernel := AllParts(), poller.kernel;
      var c := s.sender.channel;
      PartsApart();
      InUse();
      Untouched();
      ParticipantsValid(s);
      WritersElsewhere(c);
      UnhookStep(s);
      assert Fit() by { FitKept(c.fd, kernel); }
      assert Separate() by { SeparateSame(parts); }
      assert Descriptors() by { DescriptorsAgain({}); }
    }

    /** A channel that is not registered and belongs to nothing any more frees its descriptor. */
    method Forget(c: Channel)
      requires Valid() && c in used && c.index != Added && c !in others
      requires forall t <- streams :: t.sender.channel != c
      modifies this`used
      ensures Valid() && used == old(used) - {c}
    {
      hide Stream.Consistent;
      used := used - {c};
    }

    method Destroy(k: nat)
      requires Valid() && k < |streams|
      modifies this`streams, this`used, streams[k].sender`state, streams[k].sender.channel, poller
      ensures Valid() && poller.refused == old(poller.refused)
      ensures streams == old(streams)[..k] + old(streams)[k + 1..] && forall t <- streams :: t.parts == old(t.parts)
      ensures used == old(used) - {old(streams)[k].sender.channel}
    {
      hide *;
      var s := Delist(k);
      Unhook(s);
      Forget(s.sender.channel);
    }

    lemma RestIsThere(k: nat, rest: set<object>, views: seq<View>)
      requires k < |streams| == |views|
      requires forall i: nat | i < |streams| && i != k ::
                 streams[i] in rest && streams[i].sender in rest && streams[i].receiver in rest
                 && streams[i].receiver.inputBuffer in rest && ViewOf(streams[i]) == views[i]
      ensures RestSeen(Rest(k), views[..k] + views[k + 1..], rest)
    {
      hide ViewOf;
      var left := views[..k] + views[k + 1..];
      forall i: nat | i < |Rest(k)|
        ensures Rest(k)[i] in rest && Rest(k)[i].sender in rest && Rest(k)[i].receiver in rest
        ensures Rest(k)[i].receiver.inputBuffer in rest && ViewOf(Rest(k)[i]) == left[i]
      {
        var i' := if i < k then i else i + 1;
        assert Rest(k)[i] == streams[i'] && left[i] == views[i'];
      }
    }

    lemma RestIsSeen(k: nat)
      requires Valid() && k < |streams|
      ensures RestSeen(Rest(k), Seen().views[..k] + Seen().views[k + 1..], RestOf(AllParts(), k))
      ensures RestOf(AllParts(), k) !! streams[k].parts
      ensures poller !in RestOf(AllParts(), k) && this !in RestOf(AllParts(), k)
    {
      hide Valid, OthersFine, RestOf, ViewOf, RestSeen;
      OthersAreFine(k);
      OthersAreThere(k, poller.kernel, AllParts(), RestOf(AllParts(), k), Seen().views);
      RestIsThere(k, RestOf(AllParts(), k), Seen().views);
    }

    lemma SeenLeft(k: nat, v: LoopView, rest: set<object>)
      requires k < |v.views| && FdsOf(used) == v.fds - {v.views[k].fd} && ChannelViews(others) == v.others
      requires RestSeen(streams, v.views[..k] + v.views[k + 1..], rest)
      ensures LoopMoves(v, Destroys(k), Seen())
    {
      assert Seen().views == v.views[..k] + v.views[k + 1..];
    }

    /** What remains of the loop does not notice. */
    method DestroyAside(k: nat, ghost ss: seq<Stream>, ghost views: seq<View>, ghost rest: set<object>)
      requires Valid() && k < |streams| && RestSeen(ss, views, rest)
      requires streams[k].sender !in rest && streams[k].sender.channel !in rest && poller !in rest && this !in rest
      requires streams[k].sender.channel !in others
      modifies this`streams, this`used, streams[k].sender`state, streams[k].sender.channel, poller
      ensures Valid() && poller.refused == old(poller.refused)
      ensures streams == old(streams)[..k] + old(streams)[k + 1..] && forall t <- streams :: t.parts == old(t.parts)
      ensures used == old(used) - {old(streams)[k].sender.channel}
      ensures RestSeen(ss, views, rest) && ChannelViews(others) == old(ChannelViews(others))
    {
      hide *;
      Destroy(k);
    }

    method DestroySeen(k: nat)
      requires Valid() && k < |streams|
      modifies this`streams, this`used, streams[k].sender`state, streams[k].sender.channel, poller
      ensures Valid() && poller.refused == old(poller.refused)
      ensures streams == old(streams)[..k] + old(streams)[k + 1..] && forall t <- streams :: t.parts == old(t.parts)
      ensures LoopMoves(old(Seen()), Destroys(k), Seen())
    {
      ghost var v, rest := Seen(), RestOf(AllParts(), k);
      RestIsSeen(k);
      EachIsValid(streams[k]);
      ParticipantsValid(streams[k]);
      InUse();
      ChannelInUse(k);
      OwnApart(k);
      OneFdLess(used, streams[k].sender.channel);
      hide *;
      DestroyAside(k, Rest(k), v.views[..k] + v.views[k + 1..], rest);
      SeenLeft(k, v, rest);
    }

    /** Of every connection: what was delivered is a prefix of what was sent, and all of it once drained. */
    lemma AllInOrder()
      requires Valid()
      ensures forall s <- streams | !s.sender.faulted ::
                s.Joined() && s.receiver.delivered <= s.sent && (s.Drained() ==> s.receiver.delivered == s.sent)
    {
      forall s <- streams | !s.sender.faulted
        ensures s.Joined() && s.receiver.delivered <= s.sent && (s.Drained() ==> s.receiver.delivered == s.sent)
      {
        EachIsValid(s);
        hide Valid, Stream.Joined;
        s.InOrderDelivery();
      }
    }
  }

  method Proceed(l: Loop, k: nat, event: StreamEvent)
    requires l.Valid()
    modifies l`streams, l`others, l`used, l.poller, l.Objects()
    ensures l.Valid() && l.poller.refused == old(l.poller.refused) && fresh(l.Objects() - old(l.Objects()))
    ensures LoopMoves(old(l.Seen()), Happens(k, event), l.Seen())
  {
    ghost var parts, before := l.AllParts(), l.Objects();
    if k < |l.streams| {
      l.FitAt(k);
      PossibleIs(l.streams[k], event);
    }
    l.ObjectsAre();
    hide Loop.Valid, Possible, Stream.Consistent, CanHappen, LoopMoves, ViewOf, Loop.Seen, Loop.Objects;
    if k < |l.streams| && Possible(l.streams[k], event) {
      l.On(k, event);
      l.ObjectsAgain(k, parts, before);
    } else {
      NothingMoved(l.Seen(), k, event);
    }
  }

  method Leave(l: Loop, k: nat)
    requires l.Valid()
    modifies l`streams, l`others, l`used, l.poller, l.Objects()
    ensures l.Valid() && l.poller.refused == old(l.poller.refused) && fresh(l.Objects() - old(l.Objects()))
    ensures LoopMoves(old(l.Seen()), Destroys(k), l.Seen())
  {
    hide Loop.Valid, Stream.Consistent, Moves;
    if k < |l.streams| {
      l.InObjects(k);
      hide LoopMoves, Loop.Seen;
      l.DestroySeen(k);
    }
  }

  method Take(l: Loop, fd: int)
    requires l.Valid()
    modifies l`streams, l`others, l`used, l.poller, l.Objects()
    ensures l.Valid() && l.poller.refused == old(l.poller.refused) && fresh(l.Objects() - old(l.Objects()))
    ensures LoopMoves(old(l.Seen()), Opens(fd), l.Seen())
  {
    ghost var v := l.Seen();
    hide Loop.Valid, LoopMoves, IsNew;
    if forall c <- l.used :: c.fd != fd {
      l.OpenSeen(fd);
    } else {
      NotOpened(v, fd);
    }
  }

  method TakeOther(l: Loop, fd: int)
    requires l.Valid()
    modifies l`streams, l`others, l`used, l.poller, l.Objects()
    ensures l.Valid() && l.poller.refused == old(l.poller.refused) && fresh(l.Objects() - old(l.Objects()))
    ensures LoopMoves(old(l.Seen()), OpensOther(fd), l.Seen())
  {
    hide Loop.Valid, ViewOf;
    ghost var v := l.Seen();
    if forall c <- l.used :: c.fd != fd {
      l.OpenOther(fd);
      OneFdMore(old(l.used), l.others[|old(l.others)|]);
      hide FdsOf;
      assert l.Seen().views == v.views;
    }
  }

  method Serve(l: Loop, j: nat, request: Request)
    requires l.Valid()
    modifies l`streams, l`others, l`used, l.poller, l.Objects()
    ensures l.Valid() && l.poller.refused == old(l.poller.refused) && fresh(l.Objects() - old(l.Objects()))
    ensures LoopMoves(old(l.Seen()), Asks(j, request), l.Seen())
  {
    ghost var v := l.Seen();
    hide Loop.Valid, Asked, FdsOf;
    if j < |l.others| && !request.Open? {
      assert l.others[j] in l.others;
      l.Ask(j, request);
      assert l.Seen().views == v.views;
    }
  }

  /** One event, if it is possible; nothing happens to the connections it is not about. */
  method Next(l: Loop, e: LoopEvent)
    requires l.Valid()
    modifies l`streams, l`others, l`used, l.poller, l.Objects()
    ensures l.Valid() && l.poller.refused == old(l.poller.refused) && fresh(l.Objects() - old(l.Objects()))
    ensures LoopMoves(old(l.Seen()), e, l.Seen())
  {
    hide Loop.Valid, LoopMoves;
    match e
    case Happens(k, event) => Proceed(l, k, event);
    case Destroys(k) => Leave(l, k);
    case Opens(fd) => Take(l, fd);
    case OpensOther(fd) => TakeOther(l, fd);
    case Asks(j, request) => Serve(l, j, request);
  }

  /** A trace of the first `n` events. */
  ghost predicate Traces(trace: seq<LoopView>, events: seq<LoopEvent>, n: nat) {
    && n <= |events| && |trace| == n + 1 && trace[0] == LoopView([], [], {})
    && forall i | 0 <= i < n :: LoopMoves(trace[i], events[i], trace[i + 1])
  }

  lemma TraceStarts(events: seq<LoopEvent>)
    ensures Traces([LoopView([], [], {})], events, 0)
  {}

  lemma TraceGrows(trace: seq<LoopView>, events: seq<LoopEvent>, n: nat, v: LoopView)
    requires n < |events| && Traces(trace, events, n) && LoopMoves(trace[n], events[n], v)
    ensures Traces(trace + [v], events, n + 1)
  {
    hide LoopMoves;
  }

  lemma NothingSeen(l: Loop)
    requires l.streams == [] && l.others == [] && l.used == {}
    ensures l.Seen() == LoopView([], [], {}) && l.Objects() == {}
  {}

  /**
    Every run of one loop with any number of connections and other channels, on
    descriptors that are reused once free: the kernel refuses no request, and for
    every connection that met no write fault, what the other end got is a prefix of
    what was sent, and all of it once nothing is left on the way.  The trace shows
    the effect of every event, on its own connection and on no other.
   */
  method Run(events: seq<LoopEvent>) returns (l: Loop, ghost trace: seq<LoopView>)
    ensures l.Valid() && l.poller.refused == 0
    ensures forall s <- l.streams | !s.sender.faulted ::
              s.Joined() && s.receiver.delivered <= s.sent && (s.Drained() ==> s.receiver.delivered == s.sent)
    ensures Traces(trace, events, |events|) && trace[|events|] == l.Seen()
  {
    hide Loop.Valid, Stream.Joined, Stream.Drained, LoopMoves, Traces, Loop.Seen;
    l := new Loop();
    NothingSeen(l);
    TraceStarts(events);
    ghost var now := LoopView([], [], {});
    trace := [now];
    for i := 0 to |events|
      invariant l.Valid() && l.poller.refused == 0 && fresh(l) && fresh(l.poller)
      invariant fresh(l.Objects())
      invariant Traces(trace, events, i) && |trace| == i + 1 && trace[i] == now == l.Seen()
    {
      Next(l, events[i]);
      now := l.Seen();
      TraceGrows(trace, events, i, now);
      trace := trace + [now];
    }
    l.AllInOrder();
  }
}
