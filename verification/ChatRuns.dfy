/**
  Whole runs of the chat server: any sequence of requests, each handled as one
  atomic step, and what all of them together keep.
 */
module ChatRuns {
  import opened Store
  import opened Friendship
  import opened Groups
  import opened Mailbox

  datatype Request =
    | Registers(who: Name, connected: bool)
    | Ships(who: Name)
    | Leaves(who: Name)
    | AsksFriend(who: Name, other: Name)
    | Verifies(pass: Pass, who: Name, name: Name, yes: bool)
    | VerifiesGroup(group: Name, name: Name, yes: bool)
    | Unfriends(who: Name, other: Name)
    | Sends(who: Name, other: Name, text: Msg, online: bool)
    | OpensChat(who: Name, other: Name)
    | EndsChat(who: Name, other: Name)
    | Blacks(who: Name, other: Name)
    | Unblacks(who: Name, other: Name)
    | CreatesGroup(group: Name, who: Name, members: seq<Name>)
    | AsksGroup(who: Name, group: Name)
    | Invites(who: Name, other: Name, group: Name)
    | LeavesGroup(who: Name, group: Name, confirmed: bool)
    | Commands(group: Name, who: Name, target: Name, use: Use)
    | SendsGroup(group: Name, who: Name)
    | OpensGroup(who: Name, group: Name)
    | EndsGroupChat(who: Name, group: Name)
    | SeesHistory(who: Name, group: Name)

  ghost function Handle(db: Db, q: Request): Db {
    match q
    case Registers(x, connected) => Register(db, x, connected)
    case Ships(x) => Touch(db, x)
    case Leaves(x) => DeleteUser(db, x)
    case AsksFriend(me, other) => AskFriend(db, me, other)
    case Verifies(pass, me, name, yes) => VerifyUser(db, pass, me, name, yes)
    case VerifiesGroup(g, name, yes) => VerifyGroup(db, g, name, yes)
    case Unfriends(me, other) => DelFriend(db, me, other)
    case Sends(me, other, text, online) => Message(db, me, other, text, online)
    case OpensChat(me, other) => OpenChat(db, me, other)
    case EndsChat(me, other) => EndChat(db, me, other)
    case Blacks(me, other) => Black(db, me, other)
    case Unblacks(me, other) => Unblack(db, me, other)
    case CreatesGroup(g, me, members) => CreateGroup(db, g, me, members)
    case AsksGroup(me, g) => AskGroup(db, me, g)
    case Invites(me, person, g) => Invite(db, me, person, g)
    case LeavesGroup(me, g, confirmed) => LeaveGroup(db, me, g, confirmed)
    case Commands(g, me, target, use) => Cmd(db, g, me, target, use)
    case SendsGroup(g, me) => GroupMessage(db, g, me)
    case OpensGroup(me, g) => OpenGroup(db, me, g)
    case EndsGroupChat(me, g) => EndGroupChat(db, me, g)
    case SeesHistory(me, g) => GroupHistory(db, me, g)
  }

  /** What each request may write. */
  function Writes(q: Request): set<Hash> {
    match q
    case Registers(_, _) => {Users, Frie}
    case Ships(_) => {Users}
    case Leaves(_) => {Users, Mess, Frie, FrieOdd, Offl, Grop, Mygp}
    case AsksFriend(_, _) => {Frie, Mess}
    case Verifies(_, _, _, _) => {Mess, Frie, FrieOdd, Grop, Mygp}
    case VerifiesGroup(_, _, _) => {Grop, Mygp, GroupMess}
    case Unfriends(_, _) => {Frie, Offl}
    case Sends(_, _, _, _) => {Frie, Offl}
    case OpensChat(_, _) => {Frie, Offl, Chatting}
    case EndsChat(_, _) => {Chatting}
    case Blacks(_, _) => {Blak}
    case Unblacks(_, _) => {Blak}
    case CreatesGroup(_, _, _) => {Grop, Mygp}
    case AsksGroup(_, _) => {GroupMess}
    case Invites(_, _, _) => {Mess}
    case LeavesGroup(_, _, _) => {Grop, Mygp}
    case Commands(_, _, _, _) => {Grop, Mygp}
    case SendsGroup(_, _) => {Mygp}
    case OpensGroup(_, _) => {Mygp, GroupChatting}
    case EndsGroupChat(_, _) => {GroupChatting}
    case SeesHistory(_, _) => {Mygp}
  }

  lemma Frames(db: Db, q: Request)
    ensures OnlyWrites(db, Handle(db, q), Writes(q))
  {
    hide Register, Touch, DeleteUser, AskFriend, VerifyUser, VerifyGroup, DelFriend, Message, OpenChat, EndChat, Black;
    hide Unblack, CreateGroup, AskGroup, Invite, LeaveGroup, Cmd, GroupMessage, OpenGroup, EndGroupChat, GroupHistory;
    hide OnlyWrites;
  }

  /** Requests come from named people, and invitations are to named groups. */
  ghost predicate Named(db: Db, people: set<Name>, groups: set<Name>) {
    && (forall a, b :: Asks(db, a, b) ==> a in people && b in people)
    && (forall x, i, g :: Invitation(i, g) in db.Pending(x) ==> g in groups)
  }

  ghost predicate Inv(db: Db, people: set<Name>, groups: set<Name>) {
    FriendInv(db) && GroupInv(db) && MailInv(db, people) && Named(db, people, groups)
  }

  /**
    What is asked of the outside: accounts and groups have names of their own,
    a friend verification does not name a group, and one writes to friends only.
   */
  ghost predicate Allowed(db: Db, q: Request, people: set<Name>, groups: set<Name>) {
    match q
    case Registers(x, _) => x in people
    case AsksFriend(me, other) => me in people && other in people
    case Verifies(pass, _, name, _) => pass == AddFriendPass ==> name !in groups
    case Sends(me, other, _, online) => IsStored(db, me, other, online) ==> (other, me) in db.frie
    case Invites(_, _, g) => g in groups
    case _ => true
  }

  // ---------- every request keeps everything ----------

  /** The names make a friend verification meet friend requests only. */
  lemma NamesNeverCross(db: Db, pass: Pass, me: Name, name: Name, yes: bool, people: set<Name>, groups: set<Name>)
    requires Named(db, people, groups) && (pass == AddFriendPass ==> name !in groups)
    ensures !Crosses(db, pass, me, name, yes)
  {
  }

  /** The requests that may touch friends, friend requests or private mail. */
  predicate OfFriends(q: Request) {
    q.Registers? || q.Leaves? || q.AsksFriend? || q.Verifies? || q.Unfriends? || q.Sends? || q.OpensChat?
  }

  /** The requests that may touch members or lists of groups. */
  predicate OfGroups(q: Request) {
    q.Leaves? || q.Verifies? || q.VerifiesGroup? || q.CreatesGroup? || q.LeavesGroup? || q.Commands?
    || q.SendsGroup? || q.OpensGroup? || q.SeesHistory?
  }

  /** A handler that leaves friends, friend requests and private mail alone. */
  ghost predicate Aside(db: Db, db': Db) {
    && db'.frie == db.frie && db'.frieOdd == db.frieOdd && db'.offl == db.offl && db.users <= db'.users
    && db'.mess == db.mess
  }

  lemma FriendsAside(db: Db, q: Request)
    requires !OfFriends(q) && !q.Invites?
    ensures Aside(db, Handle(db, q))
  {
    Frames(db, q);
    hide Register, DeleteUser, AskFriend, VerifyUser, VerifyGroup, DelFriend;
    hide Message, OpenChat, EndChat, Black, Unblack;
    hide CreateGroup, AskGroup, Invite, LeaveGroup, Cmd, GroupMessage, OpenGroup, EndGroupChat, GroupHistory;
  }

  lemma GroupsAside(db: Db, q: Request)
    requires !OfGroups(q)
    ensures Handle(db, q).grop == db.grop && Handle(db, q).mygp == db.mygp
  {
    Frames(db, q);
    hide Handle;
  }

  lemma OpenChatKeeps(db: Db, me: Name, other: Name)
    requires FriendInv(db)
    ensures FriendInv(OpenChat(db, me, other))
  {
    FriendFrame(db, OpenChat(db, me, other));
  }

  lemma FriendsKept(db: Db, q: Request, people: set<Name>, groups: set<Name>)
    requires FriendInv(db) && Named(db, people, groups) && Allowed(db, q, people, groups)
    ensures FriendInv(Handle(db, q))
  {
    hide FriendInv, Named;
    if OfFriends(q) {
      hide AskFriend, DeleteUser, VerifyUser, DelFriend, Message;
      match q
      case Registers(x, connected) => RegisterKeeps(db, x, connected);
      case Leaves(x) => DeleteUserKeeps(db, x);
      case AsksFriend(me, other) => AskFriendKeeps(db, me, other);
      case Verifies(pass, me, name, yes) =>
        NamesNeverCross(db, pass, me, name, yes, people, groups);
        VerifyUserKeeps(db, pass, me, name, yes);
      case Unfriends(me, other) => DelFriendKeeps(db, me, other);
      case Sends(me, other, text, online) => MessageKeeps(db, me, other, text, online);
      case OpensChat(me, other) => OpenChatKeeps(db, me, other);
    } else if q.Invites? {
      InviteKeeps(db, q.who, q.other, q.group);
    } else {
      FriendsAside(db, q);
      FriendFrame(db, Handle(db, q));
    }
  }

  lemma GroupsKept(db: Db, q: Request, people: set<Name>, groups: set<Name>)
    requires GroupInv(db) && Named(db, people, groups) && Allowed(db, q, people, groups)
    ensures GroupInv(Handle(db, q))
  {
    hide GroupInv, Named;
    if OfGroups(q) {
      hide DeleteUser, VerifyUser, VerifyGroup, CreateGroup, LeaveGroup, Cmd, GroupMessage, OpenGroup;
      match q
      case Leaves(x) => DeleteUserLeavesGroups(db, x);
      case Verifies(pass, me, name, yes) =>
        NamesNeverCross(db, pass, me, name, yes, people, groups);
        VerifyUserKeepsGroups(db, pass, me, name, yes);
      case VerifiesGroup(g, name, yes) => VerifyGroupKeeps(db, g, name, yes);
      case CreatesGroup(g, me, members) => CreateGroupKeeps(db, g, me, members);
      case LeavesGroup(me, g, confirmed) => LeaveGroupKeeps(db, me, g, confirmed);
      case Commands(g, me, target, use) => CmdKeeps(db, g, me, target, use);
      case SendsGroup(g, me) => GroupMessageKeeps(db, g, me);
      case OpensGroup(me, g) => OpenGroupKeeps(db, me, g);
      case SeesHistory(me, g) => OpenGroupKeeps(db, me, g);
    } else {
      GroupsAside(db, q);
      SameGroups(db, Handle(db, q));
    }
  }

  /** Lists of pending entries only lose entries, apart from what is added at one user. */
  ghost predicate PendingFrom(db: Db, db': Db) {
    forall x, item :: item in db'.Pending(x) ==> item in db.Pending(x)
  }

  lemma DropItemPending(db: Db, x: Name, item: Item)
    ensures PendingFrom(db, DropItem(db, x, item))
  {
    LremRemoves(db.Pending(x), item);
    hide Lrem;
  }

  lemma VerifyPending(db: Db, pass: Pass, me: Name, name: Name, yes: bool)
    ensures PendingFrom(db, VerifyUser(db, pass, me, name, yes))
  {
    var i := FirstMatch(db.Pending(me), name);
    if i < |db.Pending(me)| {
      var item := db.Pending(me)[i];
      DropItemPending(if yes then Accept(db, pass, me, name, item) else db, me, item);
      hide DropItem;
    }
  }

  lemma Pushed(db: Db, x: Name, item: Item, people: set<Name>, groups: set<Name>)
    requires Named(db, people, groups)
    requires item.FriendRequest? ==> item.who in people && x in people
    requires item.Invitation? ==> item.group in groups
    ensures Named(db.(mess := db.mess[x := [item] + db.Pending(x)]), people, groups)
  {
    var db' := db.(mess := db.mess[x := [item] + db.Pending(x)]);
    assert db'.Pending(x) == [item] + db.Pending(x);
    assert forall y | y != x :: db'.Pending(y) == db.Pending(y);
    forall a, b | Asks(db', a, b) ensures a in people && b in people {
      assert Asks(db, a, b) || (b == x && item == FriendRequest(a));
    }
    assert forall y, i, g :: Invitation(i, g) in db'.Pending(y) ==>
      Invitation(i, g) in db.Pending(y) || (y == x && item == Invitation(i, g));
  }

  lemma NamesFrom(db: Db, db': Db, people: set<Name>, groups: set<Name>)
    requires Named(db, people, groups) && PendingFrom(db, db')
    ensures Named(db', people, groups)
  {
    assert forall a, b :: Asks(db', a, b) ==> Asks(db, a, b);
  }

  lemma AskNames(db: Db, me: Name, other: Name, people: set<Name>, groups: set<Name>)
    requires Named(db, people, groups) && me in people && other in people
    ensures Named(AskFriend(db, me, other), people, groups)
  {
    DropItemPending(Befriend(db, me, other), me, FriendRequest(other));
    Pushed(db, other, FriendRequest(me), people, groups);
    NamesFrom(db, DropItem(Befriend(db, me, other), me, FriendRequest(other)), people, groups);
    hide DropItem, Named, PendingFrom;
  }

  lemma MailsAside(db: Db, q: Request)
    requires !q.AsksFriend? && !q.Verifies? && !q.Invites?
    ensures PendingFrom(db, Handle(db, q))
  {
    if !OfFriends(q) {
      FriendsAside(db, q);
      hide Handle;
    }
  }

  lemma NamesKept(db: Db, q: Request, people: set<Name>, groups: set<Name>)
    requires Named(db, people, groups) && Allowed(db, q, people, groups)
    ensures Named(Handle(db, q), people, groups)
  {
    var db' := Handle(db, q);
    if q.AsksFriend? {
      hide AskFriend, Named;
      AskNames(db, q.who, q.other, people, groups);
    } else if q.Verifies? {
      hide VerifyUser;
      VerifyPending(db, q.pass, q.who, q.name, q.yes);
      NamesFrom(db, db', people, groups);
    } else if q.Invites? {
      hide Named;
      Pushed(db, q.other, Invitation(q.who, q.group), people, groups);
    } else {
      MailsAside(db, q);
      hide Handle;
      NamesFrom(db, db', people, groups);
    }
  }

  // ---------- the mailbox as a machine of queues ----------

  /** What a request means for the mailboxes. */
  datatype MailStep =
    | Put(to: Name, from: Name, text: Msg)
    | Read(to: Name, from: Name)
    | Meet(a: Name, b: Name)
    | Part(a: Name, b: Name)
    | Forget(who: Name)
    | Idle

  function After(mail: Mail, step: MailStep): Mail {
    match step
    case Put(to, from, text) => mail[(to, from) := Unread(mail, to, from) + [text]]
    case Read(to, from) => mail[(to, from) := []]
    case Meet(a, b) => mail[(a, b) := []][(b, a) := []]
    case Part(a, b) => mail - {(a, b), (b, a)}
    case Forget(x) => map p | p in mail && p.0 != x && p.1 != x :: mail[p]
    case Idle => mail
  }

  function EffectOf(db: Db, q: Request): MailStep {
    match q
    case Registers(x, connected) => if x in db.users || !connected then Idle else Meet(x, x)
    case Leaves(x) => Forget(x)
    case AsksFriend(me, other) =>
      if other in db.users && !((me, other) in db.frie && (other, me) in db.frie)
         && FriendRequest(other) in db.Pending(me)
      then Meet(me, other) else Idle
    case Verifies(_, me, name, yes) =>
      var i := FirstMatch(db.Pending(me), name);
      if yes && i < |db.Pending(me)| && db.Pending(me)[i].FriendRequest? then Meet(me, name) else Idle
    case Unfriends(me, other) => if (me, other) in db.frie then Part(me, other) else Idle
    case Sends(me, other, text, online) => if IsStored(db, me, other, online) then Put(other, me, text) else Idle
    case OpensChat(me, other) => if (me, other) in db.frie then Read(me, other) else Idle
    case _ => Idle
  }

  lemma RegisterMail(db: Db, x: Name, connected: bool, people: set<Name>)
    requires MailInv(db, people) && x in people
    ensures MailInv(Register(db, x, connected), people)
    ensures AbsMail(Register(db, x, connected)) == After(AbsMail(db), EffectOf(db, Registers(x, connected)))
  {
    hide MailInv;
    if x in db.users || !connected {
      MailFrame(db, Register(db, x, connected), people);
    } else {
      BefriendRefines(db, Register(db, x, true), people, x, x);
    }
  }

  lemma LeaveMail(db: Db, x: Name, people: set<Name>)
    requires MailInv(db, people) && FriendInv(db)
    ensures MailInv(DeleteUser(db, x), people)
    ensures AbsMail(DeleteUser(db, x)) == After(AbsMail(db), EffectOf(db, Leaves(x)))
  {
    hide MailInv, DeleteUser;
    DeleteUserRefines(db, people, x);
  }

  lemma AskMail(db: Db, me: Name, other: Name, people: set<Name>)
    requires MailInv(db, people) && me in people && other in people
    ensures MailInv(AskFriend(db, me, other), people)
    ensures AbsMail(AskFriend(db, me, other)) == After(AbsMail(db), EffectOf(db, AsksFriend(me, other)))
  {
    hide MailInv;
    if EffectOf(db, AsksFriend(me, other)) == Idle {
      MailFrame(db, AskFriend(db, me, other), people);
    } else {
      BefriendRefines(db, AskFriend(db, me, other), people, me, other);
    }
  }

  lemma VerifyMail(db: Db, pass: Pass, me: Name, name: Name, yes: bool, people: set<Name>, groups: set<Name>)
    requires MailInv(db, people) && Named(db, people, groups)
    ensures MailInv(VerifyUser(db, pass, me, name, yes), people)
    ensures AbsMail(VerifyUser(db, pass, me, name, yes)) ==
              After(AbsMail(db), EffectOf(db, Verifies(pass, me, name, yes)))
  {
    hide MailInv;
    var db' := VerifyUser(db, pass, me, name, yes);
    if EffectOf(db, Verifies(pass, me, name, yes)) == Idle {
      MailFrame(db, db', people);
    } else {
      assert Asks(db, name, me);
      BefriendRefines(db, db', people, me, name);
    }
  }

  lemma UnfriendMail(db: Db, me: Name, other: Name, people: set<Name>)
    requires MailInv(db, people) && FriendInv(db)
    ensures MailInv(DelFriend(db, me, other), people)
    ensures AbsMail(DelFriend(db, me, other)) == After(AbsMail(db), EffectOf(db, Unfriends(me, other)))
  {
    hide MailInv, WithoutMail;
    if (me, other) in db.frie {
      assert (other, me) in db.frie;
      DelFriendRefines(db, people, me, other);
    }
  }

  lemma SendMail(db: Db, me: Name, other: Name, text: Msg, online: bool, people: set<Name>)
    requires MailInv(db, people) && (IsStored(db, me, other, online) ==> (other, me) in db.frie)
    ensures MailInv(Message(db, me, other, text, online), people)
    ensures AbsMail(Message(db, me, other, text, online)) ==
              After(AbsMail(db), EffectOf(db, Sends(me, other, text, online)))
  {
    if IsStored(db, me, other, online) {
      StoreRefines(db, people, other, me, text);
    } else {
      MailFrame(db, Message(db, me, other, text, online), people);
    }
  }

  lemma OpenMail(db: Db, me: Name, other: Name, people: set<Name>)
    requires MailInv(db, people)
    ensures MailInv(OpenChat(db, me, other), people)
    ensures AbsMail(OpenChat(db, me, other)) == After(AbsMail(db), EffectOf(db, OpensChat(me, other)))
  {
    hide MailInv, WithoutMail;
    if (me, other) in db.frie {
      OpenChatRefines(db, people, me, other);
    }
  }

  /** Every handler does to the two hashes what its step does to the queues. */
  lemma MailKept(db: Db, q: Request, people: set<Name>, groups: set<Name>)
    requires FriendInv(db) && MailInv(db, people) && Named(db, people, groups) && Allowed(db, q, people, groups)
    ensures MailInv(Handle(db, q), people)
    ensures AbsMail(Handle(db, q)) == After(AbsMail(db), EffectOf(db, q))
  {
    hide MailInv, Named;
    if OfFriends(q) {
      hide Register, AskFriend, DelFriend, VerifyUser, Message, OpenChat, DeleteUser, After;
      match q
      case Registers(x, connected) => RegisterMail(db, x, connected, people);
      case Leaves(x) => LeaveMail(db, x, people);
      case AsksFriend(me, other) => AskMail(db, me, other, people);
      case Verifies(pass, me, name, yes) => VerifyMail(db, pass, me, name, yes, people, groups);
      case Unfriends(me, other) => UnfriendMail(db, me, other, people);
      case Sends(me, other, text, online) => SendMail(db, me, other, text, online, people);
      case OpensChat(me, other) => OpenMail(db, me, other, people);
    } else {
      if !q.Invites? {
        FriendsAside(db, q);
        hide Handle;
      }
      MailFrame(db, Handle(db, q), people);
    }
  }

  // ---------- runs ----------

  ghost function Run(db: Db, qs: seq<Request>): Db
    decreases qs
  {
    if qs == [] then db else Run(Handle(db, qs[0]), qs[1..])
  }

  ghost predicate AllowedRun(db: Db, qs: seq<Request>, people: set<Name>, groups: set<Name>)
    decreases qs
  {
    qs != [] ==> Allowed(db, qs[0], people, groups) && AllowedRun(Handle(db, qs[0]), qs[1..], people, groups)
  }

  ghost function Effects(db: Db, qs: seq<Request>): seq<MailStep>
    decreases qs
  {
    if qs == [] then [] else [EffectOf(db, qs[0])] + Effects(Handle(db, qs[0]), qs[1..])
  }

  function MailRun(mail: Mail, steps: seq<MailStep>): Mail
    decreases steps
  {
    if steps == [] then mail else MailRun(After(mail, steps[0]), steps[1..])
  }

  lemma StepKeepsInv(db: Db, q: Request, people: set<Name>, groups: set<Name>)
    requires Inv(db, people, groups) && Allowed(db, q, people, groups)
    ensures Inv(Handle(db, q), people, groups)
    ensures AbsMail(Handle(db, q)) == After(AbsMail(db), EffectOf(db, q))
  {
    FriendsKept(db, q, people, groups);
    GroupsKept(db, q, people, groups);
    NamesKept(db, q, people, groups);
    MailKept(db, q, people, groups);
    hide Handle, EffectOf, Allowed, FriendInv, GroupInv, MailInv, Named;
  }

  lemma EmptyInv(people: set<Name>, groups: set<Name>)
    requires Apart(people)
    ensures Inv(EMPTY_DB, people, groups) && AbsMail(EMPTY_DB) == map[]
  {}

  /** Every run keeps every invariant, and its mailboxes are those of the machine of queues. */
  lemma {:induction false} RunRefines(db: Db, qs: seq<Request>, people: set<Name>, groups: set<Name>)
    requires Inv(db, people, groups) && AllowedRun(db, qs, people, groups)
    ensures Inv(Run(db, qs), people, groups)
    ensures AbsMail(Run(db, qs)) == MailRun(AbsMail(db), Effects(db, qs))
    decreases qs
  {
    if qs != [] {
      StepKeepsInv(db, qs[0], people, groups);
      RunRefines(Handle(db, qs[0]), qs[1..], people, groups);
      hide Handle, EffectOf, Allowed, Inv, After, AbsMail;
      assert Effects(db, qs)[1..] == Effects(Handle(db, qs[0]), qs[1..]);
    }
  }

  // ---------- every stored message leaves exactly once, in order ----------

  /** The message that a step adds to one queue. */
  function Entering(step: MailStep, r: Name, a: Name): seq<Msg> {
    if step.Put? && step.to == r && step.from == a then [step.text] else []
  }

  predicate Clears(step: MailStep, r: Name, a: Name) {
    match step
    case Put(_, _, _) => false
    case Read(to, from) => (to, from) == (r, a)
    case Meet(x, y) => (x, y) == (r, a) || (y, x) == (r, a)
    case Part(x, y) => (x, y) == (r, a) || (y, x) == (r, a)
    case Forget(x) => x == r || x == a
    case Idle => false
  }

  function Leaving(mail: Mail, step: MailStep, r: Name, a: Name): seq<Msg> {
    if Clears(step, r, a) then Unread(mail, r, a) else []
  }

  function Stored(steps: seq<MailStep>, r: Name, a: Name): seq<Msg> {
    if steps == [] then [] else Entering(steps[0], r, a) + Stored(steps[1..], r, a)
  }

  function Taken(mail: Mail, steps: seq<MailStep>, r: Name, a: Name): seq<Msg>
    decreases steps
  {
    if steps == [] then [] else Leaving(mail, steps[0], r, a) + Taken(After(mail, steps[0]), steps[1..], r, a)
  }

  lemma StepConserves(mail: Mail, step: MailStep, r: Name, a: Name)
    ensures Unread(mail, r, a) + Entering(step, r, a) == Leaving(mail, step, r, a) + Unread(After(mail, step), r, a)
  {}

  lemma Chain<T>(before: seq<T>, enters: seq<T>, later: seq<T>, leaves: seq<T>, mid: seq<T>, taken: seq<T>,
                 left: seq<T>)
    requires before + enters == leaves + mid && mid + later == taken + left
    ensures before + (enters + later) == (leaves + taken) + left
  {
    calc {
      before + (enters + later);
      (before + enters) + later;
      (leaves + mid) + later;
      leaves + (mid + later);
      leaves + (taken + left);
      (leaves + taken) + left;
    }
  }

  lemma {:induction false} RunConserves(mail: Mail, steps: seq<MailStep>, r: Name, a: Name)
    ensures Unread(mail, r, a) + Stored(steps, r, a) ==
              Taken(mail, steps, r, a) + Unread(MailRun(mail, steps), r, a)
    decreases steps
  {
    if steps != [] {
      var mail' := After(mail, steps[0]);
      StepConserves(mail, steps[0], r, a);
      RunConserves(mail', steps[1..], r, a);
      hide After, Clears, Unread, Leaving, Entering;
      Chain(Unread(mail, r, a), Entering(steps[0], r, a), Stored(steps[1..], r, a), Leaving(mail, steps[0], r, a),
            Unread(mail', r, a), Taken(mail', steps[1..], r, a), Unread(MailRun(mail', steps[1..]), r, a));
    }
  }

  /** What opening the chat delivers over a run. */
  function Delivered(mail: Mail, steps: seq<MailStep>, r: Name, a: Name): seq<Msg>
    decreases steps
  {
    if steps == [] then []
    else
      (if steps[0] == Read(r, a) then Unread(mail, r, a) else []) + Delivered(After(mail, steps[0]), steps[1..], r, a)
  }

  /** The two users stay friends: nothing but reading empties the queue. */
  ghost predicate OnlyRead(steps: seq<MailStep>, r: Name, a: Name) {
    forall step <- steps :: Clears(step, r, a) ==> step == Read(r, a)
  }

  /** Then only reading takes messages out. */
  lemma {:induction false} OnlyReadingTakes(mail: Mail, steps: seq<MailStep>, r: Name, a: Name)
    requires OnlyRead(steps, r, a)
    ensures Taken(mail, steps, r, a) == Delivered(mail, steps, r, a)
    decreases steps
  {
    if steps != [] {
      OnlyReadingTakes(After(mail, steps[0]), steps[1..], r, a);
      hide After, Unread;
    }
  }

  /**
    From an empty server, over every run and for every two users: the messages
    stored for `r` by `a` are, in order, those taken out of the queue followed by
    those in it; if nothing but reading emptied the queue they were all delivered.
   */
  lemma EveryMessageOnceInOrder(qs: seq<Request>, people: set<Name>, groups: set<Name>, r: Name, a: Name)
    requires Apart(people) && AllowedRun(EMPTY_DB, qs, people, groups)
    ensures var steps, db' := Effects(EMPTY_DB, qs), Run(EMPTY_DB, qs);
            Inv(db', people, groups) &&
            Stored(steps, r, a) == Taken(map[], steps, r, a) + Unread(AbsMail(db'), r, a) &&
            (OnlyRead(steps, r, a) ==>
               Stored(steps, r, a) == Delivered(map[], steps, r, a) + Unread(AbsMail(db'), r, a))
  {
    EmptyInv(people, groups);
    RunRefines(EMPTY_DB, qs, people, groups);
    var steps := Effects(EMPTY_DB, qs);
    RunConserves(map[], steps, r, a);
    assert Unread(map[], r, a) == [];
    if OnlyRead(steps, r, a) {
      OnlyReadingTakes(map[], steps, r, a);
    }
    hide Inv, AbsMail, Run, Effects, Clears, Taken, Delivered, Stored, Unread, MailRun;
  }

  // ---------- what the parses and lookups of the handlers rely on ----------

  /**
    In every reachable store: whenever one side lists a friend the other side has
    a count to parse; every unread message has its field; every member of a group
    has a count to increment.
   */
  lemma NothingIsMissing(qs: seq<Request>, people: set<Name>, groups: set<Name>)
    requires Apart(people) && AllowedRun(EMPTY_DB, qs, people, groups)
    ensures var db := Run(EMPTY_DB, qs);
            && (forall a, b :: (a, b) in db.frie ==> (b, a) in db.frie)
            && (forall r, a, i: nat :: (r, a) in db.frie && i < db.frie[(r, a)] ==> (r, Decimal.Field(a, i)) in db.offl)
            && (forall g, u :: (g, u) in db.grop ==> (u, g) in db.mygp)
  {
    EmptyInv(people, groups);
    RunRefines(EMPTY_DB, qs, people, groups);
    var db := Run(EMPTY_DB, qs);
    forall r, a, i: nat | (r, a) in db.frie && i < db.frie[(r, a)] ensures (r, Decimal.Field(a, i)) in db.offl {
      assert MailPresent(db, r, a);
    }
    hide Run, Decimal.Field;
  }

  // ---------- groups in a list without membership ----------

  lemma ListedKept(db: Db, q: Request)
    requires GroupInv(db) && Listed(db) && !q.Leaves? && !q.SeesHistory?
    ensures Listed(Handle(db, q))
  {
    if OfGroups(q) {
      hide GroupInv, Listed, VerifyUser, VerifyGroup, CreateGroup, LeaveGroup, Cmd, GroupMessage, OpenGroup;
      match q
      case Verifies(pass, me, name, yes) => VerifyListed(db, pass, me, name, yes);
      case VerifiesGroup(g, name, yes) => AdmitListed(db, g, name, yes);
      case CreatesGroup(g, me, members) => CreateListed(db, g, me, members);
      case LeavesGroup(me, g, confirmed) => LeaveListed(db, me, g, confirmed);
      case Commands(g, me, target, use) => CmdListed(db, g, me, target, use);
      case SendsGroup(g, me) => CountListed(db, g, me);
      case OpensGroup(me, g) => OpenListed(db, me, g);
    } else {
      GroupsAside(db, q);
      hide Handle;
    }
  }

  /**
    For every request: the lists of groups stay within the memberships exactly
    unless the owner of a group with others in it is deleted, or somebody who is no
    member asks for a group's history.
   */
  lemma ListedExactly(db: Db, q: Request)
    requires GroupInv(db) && Listed(db)
    ensures Listed(Handle(db, q)) <==>
              && !(q.Leaves? && OwnsWithOthers(db, q.who))
              && !(q.SeesHistory? && (q.group, q.who) !in db.grop)
  {
    hide GroupInv, Listed, DeleteUser, GroupHistory, OwnsWithOthers;
    if q.Leaves? {
      DeletionListedExactly(db, q.who);
    } else if q.SeesHistory? {
      HistoryListedExactly(db, q.who, q.group);
    } else {
      ListedKept(db, q);
      hide Handle;
    }
  }

  /** After a deletion no hash of members, friends or mail mentions the account as its own. */
  lemma DeletedIsGone(db: Db, x: Name, people: set<Name>, groups: set<Name>)
    requires Inv(db, people, groups)
    ensures var db' := Handle(db, Leaves(x));
            && x !in db'.users
            && (forall g :: (g, x) !in db'.grop && (x, g) !in db'.mygp)
            && (forall a :: (a, x) !in db'.frie && (x, a) !in db'.frie)
            && (forall f :: (x, f) !in db'.offl)
  {
    DeleteUserLeavesGroups(db, x);
    DeleteUserKeeps(db, x);
    hide MailInv, OneOwner, OneWay, NoneBetweenFriends;
  }

  // ---------- what refusing, opening and closing mean for later messages ----------

  /** Blacklists and open chats change by their own requests only. */
  lemma TalkAside(db: Db, q: Request)
    ensures !q.Blacks? && !q.Unblacks? ==> Handle(db, q).blak == db.blak
    ensures !q.OpensChat? && !q.EndsChat? ==> Handle(db, q).chatting == db.chatting
  {
    Frames(db, q);
    hide Handle;
  }

  lemma StaysBlacked(db: Db, q: Request, me: Name, other: Name)
    requires (me, other) in db.blak && q != Unblacks(me, other)
    ensures (me, other) in Handle(db, q).blak
  {
    if !q.Blacks? && !q.Unblacks? {
      TalkAside(db, q);
      hide Handle;
    }
  }

  /** Over every run in which a user stays on the blacklist, nothing of theirs is stored; off it, the next one is. */
  lemma {:induction false} BlackedIsRefused(db: Db, qs: seq<Request>, me: Name, other: Name)
    requires (me, other) in db.blak && Unblacks(me, other) !in qs
    ensures Stored(Effects(db, qs), me, other) == []
    ensures IsStored(Handle(Run(db, qs), Unblacks(me, other)), other, me, false)
    decreases qs
  {
    if qs != [] {
      var q := qs[0];
      StaysBlacked(db, q, me, other);
      assert Entering(EffectOf(db, q), me, other) == [];
      hide Handle, EffectOf, Entering;
      BlackedIsRefused(Handle(db, q), qs[1..], me, other);
      assert Effects(db, qs)[1..] == Effects(Handle(db, q), qs[1..]);
    }
  }

  /** The chat is open on both sides. */
  ghost predicate Talking(db: Db, a: Name, b: Name) {
    (a, b) in db.chatting && (b, a) in db.chatting
  }

  lemma StaysTalking(db: Db, q: Request, a: Name, b: Name)
    requires Talking(db, a, b) && q != EndsChat(a, b) && q != EndsChat(b, a)
    ensures Talking(Handle(db, q), a, b)
  {
    if !q.OpensChat? && !q.EndsChat? {
      TalkAside(db, q);
      hide Handle;
    } else {
      hide WithoutMail;
    }
  }

  /**
    Over every run in which both sides keep their chat open, what they send each
    other while online is not stored.
   */
  lemma {:induction false} LiveMessagesAreNotStored(db: Db, qs: seq<Request>, me: Name, other: Name)
    requires Talking(db, me, other) && EndsChat(me, other) !in qs && EndsChat(other, me) !in qs
    requires forall q <- qs :: q.Sends? && q.who == me && q.other == other ==> q.online
    ensures Stored(Effects(db, qs), other, me) == []
    decreases qs
  {
    if qs != [] {
      var q := qs[0];
      StaysTalking(db, q, me, other);
      assert Entering(EffectOf(db, q), other, me) == [];
      hide Handle, EffectOf, Entering, Talking;
      LiveMessagesAreNotStored(Handle(db, q), qs[1..], me, other);
      assert Effects(db, qs)[1..] == Effects(Handle(db, q), qs[1..]);
    }
  }

  /** It takes one side to leave for the next message to be stored. */
  lemma LeavingStores(db: Db, me: Name, other: Name)
    requires me != other && Talking(db, me, other) && (other, me) !in db.blak
    ensures !IsStored(db, me, other, true) && IsStored(Handle(db, EndsChat(other, me)), me, other, true)
  {}
}
