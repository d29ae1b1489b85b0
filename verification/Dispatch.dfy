/**
  The dispatcher of the server (server/handleData.cc) over lists of requests: what
  its handlers return to the clients, joined to the theorems about runs.
 */
module Dispatch {
  import opened Store
  import opened Friendship
  import opened Groups
  import opened Mailbox
  import opened ChatRuns
  import opened ChatServer

  /** The messages that a step hands to the one who reads. */
  function HandedOver(mail: Mail, step: MailStep): seq<Msg> {
    if step.Read? then Unread(mail, step.to, step.from) else []
  }

  /** Both mailboxes of a chat are complete, so that opening it cannot fail. */
  lemma ChatIsComplete(db: Db, me: Name, other: Name)
    requires FriendInv(db) && AllPresent(db) && (me, other) in db.frie
    ensures MailPresent(db, me, other) && MailPresent(db, other, me)
    ensures Unread(AbsMail(db), me, other) == Queue(db, me, other)
  {
    assert (other, me) in db.frie;
    hide MailPresent, Queue;
  }

  lemma CountsMissingNone(db: Db)
    requires GroupInv(db)
    ensures forall g, sender, u :: CountsAt(db, g, sender, u) ==> (u, g) in db.mygp
  {}

  /** Opening a chat, in a store where nothing is missing. */
  method ServeChat(s: Server, me: Name, other: Name) returns (outcome: Outcome, received: seq<Msg>)
    requires FriendInv(s.db) && AllPresent(s.db)
    modifies s
    ensures outcome != Failed && s.db == OpenChat(old(s.db), me, other)
    ensures received == if (me, other) in old(s.db).frie then Unread(AbsMail(old(s.db)), me, other) else []
  {
    if (me, other) in s.db.frie {
      ChatIsComplete(s.db, me, other);
    }
    hide FriendInv, AllPresent, Queue, MailPresent, AbsMail;
    var unread;
    outcome, received, unread := s.Chat(me, other);
  }

  lemma RefusedKeeps(db: Db, me: Name, other: Name)
    requires (me, other) !in db.frie
    ensures DelFriend(db, me, other) == db
  {}

  /** Requests to join, invitations and their answers. */
  predicate AnswerRequest(q: Request) {
    q.Verifies? || q.VerifiesGroup? || q.AsksGroup? || q.Invites?
  }

  predicate GroupRequest(q: Request) {
    q.CreatesGroup? || q.LeavesGroup? || q.Commands? || q.SendsGroup? || q.OpensGroup? || q.EndsGroupChat?
    || q.SeesHistory?
  }

  /** The requests about accounts, friends and private messages. */
  method ServePrivate(s: Server, q: Request) returns (outcome: Outcome, received: seq<Msg>)
    requires FriendInv(s.db) && AllPresent(s.db) && !GroupRequest(q) && !AnswerRequest(q)
    modifies s
    ensures outcome != Failed && s.db == Handle(old(s.db), q)
    ensures received == if q.OpensChat? && (q.who, q.other) in old(s.db).frie
                        then Unread(AbsMail(old(s.db)), q.who, q.other) else []
  {
    outcome, received := Done, [];
    match q
    case OpensChat(me, other) => outcome, received := ServeChat(s, me, other);
    case Unfriends(me, other) =>
      assert (me, other) in s.db.frie ==> (other, me) in s.db.frie;
      hide FriendInv, AllPresent, DelFriend, AbsMail, WithoutMail;
      outcome := s.DeleteFriend(me, other);
      if outcome == Refused {
        RefusedKeeps(old(s.db), me, other);
      }
    case Leaves(x) => outcome := s.DeleteAccount(x);
    case Registers(x, connected) => s.OnRegister(x, connected);
    case Ships(x) => s.db := Touch(s.db, x);
    case AsksFriend(me, other) => s.AddAllFriend(me, other);
    case Sends(me, other, text, online) => s.OnMessage(me, other, text, online);
    case EndsChat(me, other) => s.db := EndChat(s.db, me, other);
    case Blacks(me, other) => s.OnBlack(me, other);
    case Unblacks(me, other) => s.OnUnblack(me, other);
  }

  method ServeAnswer(s: Server, q: Request)
    requires AnswerRequest(q)
    modifies s
    ensures s.db == Handle(old(s.db), q)
  {
    hide VerifyUser, VerifyGroup, AskGroup, Invite;
    match q
    case Verifies(pass, me, name, yes) => var _ := s.Verify(pass, me, name, yes);
    case VerifiesGroup(g, name, yes) => var _ := s.VerifyJoin(g, name, yes);
    case AsksGroup(me, g) => s.AddAllGroup(me, g);
    case Invites(me, person, g) => s.AddAllInvitation(me, person, g);
  }

  /** No count to increment is missing. */
  method ServeGroupMessage(s: Server, g: Name, sender: Name) returns (outcome: Outcome)
    requires GroupInv(s.db)
    modifies s
    ensures outcome != Failed && s.db == GroupMessage(old(s.db), g, sender)
  {
    CountsMissingNone(s.db);
    hide GroupInv, CountsAt, GroupMessage;
    outcome := s.OnGroupMessage(g, sender);
  }

  method ServeGroup(s: Server, q: Request) returns (outcome: Outcome)
    requires GroupInv(s.db) && GroupRequest(q)
    modifies s
    ensures outcome != Failed && s.db == Handle(old(s.db), q)
  {
    hide GroupInv, CreateGroup, LeaveGroup, Cmd, GroupMessage, OpenGroup, EndGroupChat, GroupHistory;
    outcome := Done;
    match q
    case CreatesGroup(g, me, members) => outcome := s.NewGroup(g, me, members);
    case LeavesGroup(me, g, confirmed) => outcome := s.DeleteGroup(me, g, confirmed);
    case Commands(g, me, target, use) => s.OnCmd(g, me, target, use);
    case SendsGroup(g, me) => outcome := ServeGroupMessage(s, g, me);
    case OpensGroup(me, g) => s.GChat(me, g);
    case EndsGroupChat(me, g) => s.db := EndGroupChat(s.db, me, g);
    case SeesHistory(me, g) => s.db := GroupHistory(s.db, me, g);
  }

  lemma InvIsPresent(db: Db, people: set<Name>, groups: set<Name>)
    requires Inv(db, people, groups)
    ensures FriendInv(db) && GroupInv(db) && AllPresent(db)
  {
    hide FriendInv, GroupInv, Named, Within, Apart, AllPresent;
  }

  lemma OnlyOpeningReads(db: Db, q: Request)
    ensures EffectOf(db, q).Read? <==> q.OpensChat? && (q.who, q.other) in db.frie
    ensures EffectOf(db, q).Read? ==> EffectOf(db, q) == Read(q.who, q.other)
  {}

  lemma HandedIs(db: Db, q: Request)
    requires AllPresent(db)
    ensures HandedOver(AbsMail(db), EffectOf(db, q)) ==
              if q.OpensChat? && (q.who, q.other) in db.frie then Unread(AbsMail(db), q.who, q.other) else []
  {
    OnlyOpeningReads(db, q);
    hide EffectOf, AbsMail, Unread;
  }

  lemma NotOpening(q: Request)
    requires GroupRequest(q) || AnswerRequest(q)
    ensures !q.OpensChat?
  {}

  /**
    One request of an allowed run: no handler fails half-way, the store does what
    the request stands for, and who opens a chat receives exactly the unread queue.
   */
  method Serve(s: Server, q: Request, ghost people: set<Name>, ghost groups: set<Name>)
    returns (outcome: Outcome, received: seq<Msg>)
    requires Inv(s.db, people, groups) && Allowed(s.db, q, people, groups)
    modifies s
    ensures outcome != Failed && s.db == Handle(old(s.db), q)
    ensures Inv(s.db, people, groups) && AbsMail(s.db) == After(AbsMail(old(s.db)), EffectOf(old(s.db), q))
    ensures received == HandedOver(AbsMail(old(s.db)), EffectOf(old(s.db), q))
  {
    hide *;
    StepKeepsInv(s.db, q, people, groups);
    InvIsPresent(s.db, people, groups);
    HandedIs(s.db, q);
    outcome, received := Done, [];
    if AnswerRequest(q) {
      NotOpening(q);
      ServeAnswer(s, q);
    } else if GroupRequest(q) {
      NotOpening(q);
      outcome := ServeGroup(s, q);
    } else {
      outcome, received := ServePrivate(s, q);
    }
  }

  // ---------- lists of requests ----------

  /** What the openings of one chat received, one after the other. */
  function Shown(qs: seq<Request>, received: seq<seq<Msg>>, r: Name, a: Name): seq<Msg>
    requires |received| == |qs|
  {
    if qs == [] then []
    else
      var n := |qs| - 1;
      Shown(qs[..n], received[..n], r, a) + if qs[n] == OpensChat(r, a) then received[n] else []
  }

  /** What is still to be delivered by the rest of a run, after what was shown. */
  ghost predicate Joined(all: seq<Msg>, db: Db, rest: seq<Request>, shown: seq<Msg>, r: Name, a: Name)
    requires AllPresent(db)
  {
    all == shown + Delivered(AbsMail(db), Effects(db, rest), r, a)
  }

  lemma ReadsThis(mail: Mail, db: Db, q: Request, r: Name, a: Name)
    ensures (if q == OpensChat(r, a) then HandedOver(mail, EffectOf(db, q)) else []) ==
              if EffectOf(db, q) == Read(r, a) then Unread(mail, r, a) else []
  {}

  lemma JoinedNext(all: seq<Msg>, db: Db, q: Request, rest: seq<Request>, shown: seq<Msg>, r: Name, a: Name)
    requires AllPresent(db) && AllPresent(Handle(db, q)) && Joined(all, db, [q] + rest, shown, r, a)
    requires AbsMail(Handle(db, q)) == After(AbsMail(db), EffectOf(db, q))
    ensures Joined(all, Handle(db, q), rest,
                   shown + if q == OpensChat(r, a) then HandedOver(AbsMail(db), EffectOf(db, q)) else [], r, a)
  {
    OnlyOpeningReads(db, q);
    var step, steps := EffectOf(db, q), Effects(Handle(db, q), rest);
    assert ([q] + rest)[1..] == rest;
    assert Effects(db, [q] + rest) == [step] + steps && ([step] + steps)[1..] == steps;
    hide Handle, EffectOf, AbsMail, After, Unread, Effects;
    var now := if q == OpensChat(r, a) then HandedOver(AbsMail(db), step) else [];
    ReadsThis(AbsMail(db), db, q, r, a);
    assert Delivered(AbsMail(db), [step] + steps, r, a) == now + Delivered(After(AbsMail(db), step), steps, r, a);
  }

  /** After `i` requests, for every two users. */
  ghost predicate JoinedAt(db0: Db, qs: seq<Request>, db: Db, received: seq<seq<Msg>>, i: nat) {
    && i <= |qs| && |received| == i && AllPresent(db0) && AllPresent(db)
    && forall r, a ::
         Joined(Delivered(AbsMail(db0), Effects(db0, qs), r, a), db, qs[i..], Shown(qs[..i], received, r, a), r, a)
  }

  lemma ShownNext(qs: seq<Request>, received: seq<seq<Msg>>, i: nat, got: seq<Msg>, r: Name, a: Name)
    requires i < |qs| && |received| == i
    ensures Shown(qs[..i + 1], received + [got], r, a) ==
              Shown(qs[..i], received, r, a) + if qs[i] == OpensChat(r, a) then got else []
  {
    assert qs[..i + 1][..i] == qs[..i] && (received + [got])[..i] == received;
  }

  lemma JoinedAtNext(db0: Db, qs: seq<Request>, db: Db, received: seq<seq<Msg>>, i: nat, db': Db, got: seq<Msg>)
    requires JoinedAt(db0, qs, db, received, i) && i < |qs|
    requires AllPresent(db') && db' == Handle(db, qs[i]) && AbsMail(db') == After(AbsMail(db), EffectOf(db, qs[i]))
    requires got == HandedOver(AbsMail(db), EffectOf(db, qs[i]))
    ensures JoinedAt(db0, qs, db', received + [got], i + 1)
  {
    assert qs[i..] == [qs[i]] + qs[i + 1..];
    hide AllPresent, Handle, EffectOf, AbsMail, After, Joined, HandedOver, Shown, Delivered, Effects;
    forall r, a
      ensures Joined(Delivered(AbsMail(db0), Effects(db0, qs), r, a), db', qs[i + 1..],
                     Shown(qs[..i + 1], received + [got], r, a), r, a)
    {
      ShownNext(qs, received, i, got, r, a);
      JoinedNext(Delivered(AbsMail(db0), Effects(db0, qs), r, a), db, qs[i], qs[i + 1..],
                 Shown(qs[..i], received, r, a), r, a);
    }
  }

  lemma JoinedStart(db: Db, qs: seq<Request>)
    requires AllPresent(db)
    ensures JoinedAt(db, qs, db, [], 0)
  {
    hide AllPresent, AbsMail, Delivered, Effects;
    assert qs[0..] == qs && qs[..0] == [];
  }

  lemma JoinedEnd(db0: Db, qs: seq<Request>, db: Db, received: seq<seq<Msg>>)
    requires JoinedAt(db0, qs, db, received, |qs|)
    ensures |received| == |qs| && AllPresent(db0)
    ensures forall r, a :: Shown(qs, received, r, a) == Delivered(AbsMail(db0), Effects(db0, qs), r, a)
  {
    assert qs[|qs|..] == [] && qs[..|qs|] == qs;
    hide AllPresent, AbsMail, Shown;
    forall r, a ensures Shown(qs, received, r, a) == Delivered(AbsMail(db0), Effects(db0, qs), r, a) {
      assert Delivered(AbsMail(db), Effects(db, []), r, a) == [];
    }
  }

  lemma RunNext(db: Db, qs: seq<Request>, i: nat, people: set<Name>, groups: set<Name>)
    requires i < |qs| && AllowedRun(db, qs[i..], people, groups)
    ensures Allowed(db, qs[i], people, groups) && AllowedRun(Handle(db, qs[i]), qs[i + 1..], people, groups)
    ensures Run(db, qs[i..]) == Run(Handle(db, qs[i]), qs[i + 1..])
  {
    hide Allowed, Handle;
    assert qs[i..][1..] == qs[i + 1..];
  }

  lemma RunEnd(db: Db, qs: seq<Request>)
    ensures Run(db, qs[|qs|..]) == db
  {
    assert qs[|qs|..] == [];
  }

  /**
    A whole run through the handlers: none fails, the store is that of the run, and
    for every two users what the openings of their chat received is what the run
    delivers.
   */
  method ServeAll(s: Server, qs: seq<Request>, ghost people: set<Name>, ghost groups: set<Name>)
    returns (received: seq<seq<Msg>>)
    requires Inv(s.db, people, groups) && AllowedRun(s.db, qs, people, groups)
    modifies s
    ensures Inv(s.db, people, groups) && s.db == Run(old(s.db), qs) && |received| == |qs|
    ensures forall r, a :: Shown(qs, received, r, a) == Delivered(AbsMail(old(s.db)), Effects(old(s.db), qs), r, a)
  {
    ghost var db0 := s.db;
    received := [];
    assert qs[0..] == qs;
    InvIsPresent(db0, people, groups);
    JoinedStart(db0, qs);
    hide *;
    for i := 0 to |qs|
      invariant Inv(s.db, people, groups) && JoinedAt(db0, qs, s.db, received, i)
      invariant AllowedRun(s.db, qs[i..], people, groups) && Run(s.db, qs[i..]) == Run(db0, qs)
    {
      ghost var db := s.db;
      RunNext(db, qs, i, people, groups);
      InvIsPresent(db, people, groups);
      var outcome, got := Serve(s, qs[i], people, groups);
      InvIsPresent(s.db, people, groups);
      JoinedAtNext(db0, qs, db, received, i, s.db, got);
      received := received + [got];
    }
    JoinedEnd(db0, qs, s.db, received);
    RunEnd(s.db, qs);
  }

  /**
    From an empty server, for every two users: what was stored for the one by the
    other is, in order, what the openings of the chat received followed by what is
    still unread, provided nothing but reading emptied the queue.
   */
  method EveryStoredMessageIsReceived(s: Server, qs: seq<Request>, ghost people: set<Name>, ghost groups: set<Name>)
    returns (received: seq<seq<Msg>>)
    requires s.db == EMPTY_DB && Apart(people) && AllowedRun(EMPTY_DB, qs, people, groups)
    modifies s
    ensures s.db == Run(EMPTY_DB, qs) && |received| == |qs| && AllPresent(s.db)
    ensures forall r, a | OnlyRead(Effects(EMPTY_DB, qs), r, a) ::
              Stored(Effects(EMPTY_DB, qs), r, a) == Shown(qs, received, r, a) + Unread(AbsMail(s.db), r, a)
  {
    EmptyInv(people, groups);
    hide *;
    received := ServeAll(s, qs, people, groups);
    InvIsPresent(s.db, people, groups);
    forall r, a | OnlyRead(Effects(EMPTY_DB, qs), r, a)
      ensures Stored(Effects(EMPTY_DB, qs), r, a) == Shown(qs, received, r, a) + Unread(AbsMail(s.db), r, a)
    {
      EveryMessageOnceInOrder(qs, people, groups, r, a);
    }
  }
}
