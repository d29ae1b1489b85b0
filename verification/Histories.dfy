/**
  What every request does to every hash, entry by entry, and so what a store holds
  after any history of requests: an entry is there exactly if some request made it
  and none took it away since.
 */
module Histories {
  import opened Decimal
  import opened Store
  import opened Friendship
  import opened Groups
  import opened Mailbox
  import opened ChatRuns
  import opened GroupCounts

  /** One field of one hash, one entry of a list, or one flag. */
  datatype Entry =
    | Account(who: Name)
    | Friend(of: Name, who: Name)
    | Untagged(of: Name, field: string)
    | Waits(at: Name, item: Item)
    | Wishes(group: Name, who: Name)
    | Lists(who: Name, group: Name)
    | Ranks(group: Name, who: Name, rank: Rank)
    | Text(of: Name, field: string, text: Msg)
    | Refuses(of: Name, who: Name)
    | InChat(who: Name, other: Name)
    | HasOpen(who: Name, group: Name)

  predicate Holds(db: Db, e: Entry) {
    match e
    case Account(x) => x in db.users
    case Friend(r, a) => (r, a) in db.frie
    case Untagged(r, t) => (r, t) in db.frieOdd
    case Waits(x, item) => item in db.Pending(x)
    case Wishes(g, x) => x in db.Asking(g)
    case Lists(u, g) => (u, g) in db.mygp
    case Ranks(g, u, rank) => (g, u) in db.grop && db.grop[(g, u)] == rank
    case Text(r, f, m) => (r, f) in db.offl && db.offl[(r, f)] == m
    case Refuses(r, a) => (r, a) in db.blak
    case InChat(a, b) => (a, b) in db.chatting
    case HasOpen(u, g) => (g, u) in db.groupChatting
  }

  datatype Option<T> = None | Some(value: T)

  // ---------- when a request does something ----------

  /** The requests about groups only. */
  predicate GroupsAlone(q: Request) {
    q.VerifiesGroup? || q.CreatesGroup? || q.AsksGroup? || q.LeavesGroup? || q.Commands? || q.SendsGroup?
    || q.OpensGroup? || q.EndsGroupChat? || q.SeesHistory?
  }

  predicate Mutual(db: Db, a: Name, b: Name) {
    (a, b) in db.frie && (b, a) in db.frie
  }

  predicate Between(a: Name, b: Name, r: Name, s: Name) {
    (a == r && b == s) || (a == s && b == r)
  }

  /** A friend request that finds one the other way. */
  predicate Meets(db: Db, q: Request) {
    q.AsksFriend? && q.other in db.users && !Mutual(db, q.who, q.other) && FriendRequest(q.other) in db.Pending(q.who)
  }

  /** A verification answers this entry: the first of the list that is about the name. */
  ghost predicate Answers(db: Db, q: Request, item: Item) {
    && q.Verifies?
    && (item == FriendRequest(q.name) || (item.Invitation? && item.group == q.name))
    && exists i: nat :: i < |db.Pending(q.who)| && db.Pending(q.who)[i] == item
         && forall j: nat | j < i :: db.Pending(q.who)[j] != FriendRequest(q.name)
                                     && (db.Pending(q.who)[j].Invitation? ==> db.Pending(q.who)[j].group != q.name)
  }

  ghost predicate AcceptsInvitation(db: Db, q: Request) {
    q.Verifies? && q.yes && exists inviter :: Answers(db, q, Invitation(inviter, q.name))
  }

  /** A message goes to the mailbox: the sender is not refused, and not read live by both. */
  predicate GoesToMailbox(db: Db, q: Request) {
    && q.Sends? && (q.other, q.who) !in db.blak
    && (!q.online || (q.who, q.other) !in db.chatting || (q.other, q.who) !in db.chatting)
  }

  /** A member is removed by somebody of a higher rank, or by somebody who is no member. */
  predicate Removes(db: Db, q: Request, g: Name, u: Name) {
    && q.Commands? && q.use == Del && q.group == g && q.target == u && (g, u) in db.grop
    && ((g, q.who) in db.grop ==> Above(db.grop[(g, q.who)], db.grop[(g, u)]))
  }

  /** A confirmed departure: of the owner, which takes everybody along, or of the member. */
  predicate Departs(db: Db, q: Request, g: Name, u: Name) {
    && q.LeavesGroup? && q.group == g && q.confirmed && (g, q.who) in db.grop
    && (q.who == u || db.grop[(g, q.who)] == Owner)
  }

  /** The rank that a request gives a user in a group. */
  ghost function NewRank(db: Db, q: Request, g: Name, u: Name): Option<Rank> {
    match q
    case CreatesGroup(group, who, members) =>
      if group != g || db.IsGroup(g) || u !in db.users then None
      else if u in members then Some(Member)
      else if u == who then Some(Owner)
      else None
    case Verifies(_, who, name, _) => if who == u && name == g && AcceptsInvitation(db, q) then Some(Member) else None
    case VerifiesGroup(group, name, yes) =>
      if group == g && name == u && yes && u in db.Asking(g) then Some(Member) else None
    case Commands(group, who, target, use) =>
      if group == g && target == u && use != Del && (g, u) in db.grop && db.grop[(g, u)] != Owner
         && (g, who) in db.grop && db.grop[(g, who)] == Owner
      then Some(if use == Upl then Admin else Member) else None
    case _ => None
  }

  /** The friend list of a deleted account mentions this user, with or without a tag. */
  ghost predicate Mentions(db: Db, x: Name, r: Name) {
    (x, r) in db.frie || exists t :: (x, t) in db.frieOdd && |t| >= 5 && t[5..] == r
  }

  /** The field is one of the unread messages of a sender. */
  ghost predicate IsUnread(db: Db, r: Name, a: Name, f: string) {
    exists i: nat :: i < db.Count(r, a) && f == Field(a, i)
  }

  ghost predicate MakesFriend(db: Db, q: Request, r: Name, a: Name) {
    || (q.Registers? && r == a == q.who && q.connected && a !in db.users)
    || (Meets(db, q) && Between(q.who, q.other, r, a))
    || (q.Verifies? && q.yes && Answers(db, q, FriendRequest(q.name)) && Between(q.who, q.name, r, a))
    || (GoesToMailbox(db, q) && r == q.other && a == q.who)
  }

  ghost predicate EndsFriend(db: Db, q: Request, r: Name, a: Name) {
    || (q.Leaves? && (q.who == r || (q.who == a && Mentions(db, a, r))))
    || (q.Unfriends? && (q.who, q.other) in db.frie && Between(q.who, q.other, r, a))
  }

  ghost predicate MakesPending(db: Db, q: Request, x: Name, item: Item) {
    || (q.AsksFriend? && x == q.other && item == FriendRequest(q.who) && x in db.users
        && !Mutual(db, q.who, x) && !Meets(db, q))
    || (q.Invites? && x == q.other && item == Invitation(q.who, q.group) && db.IsGroup(q.group)
        && (q.who, q.group) in db.mygp && Mutual(db, q.who, x) && (x, q.group) !in db.mygp)
  }

  ghost predicate EndsPending(db: Db, q: Request, x: Name, item: Item) {
    || q == Leaves(x)
    || (Meets(db, q) && x == q.who && item == FriendRequest(q.other))
    || (Answers(db, q, item) && x == q.who)
  }

  ghost predicate MakesListing(db: Db, q: Request, u: Name, g: Name) {
    || (q.CreatesGroup? && NewRank(db, q, g, u) != None)
    || (q.VerifiesGroup? && NewRank(db, q, g, u) != None)
    || (AcceptsInvitation(db, q) && q.pass == InvitationPass && q.who == u && q.name == g)
    || (q.SeesHistory? && q.who == u && q.group == g)
  }

  ghost predicate EndsListing(db: Db, q: Request, u: Name, g: Name) {
    q == Leaves(u) || Removes(db, q, g, u) || (Departs(db, q, g, u) && (g, u) in db.grop)
  }

  /** The member goes, or gets another rank. */
  ghost predicate EndsRank(db: Db, q: Request, g: Name, u: Name, rank: Rank) {
    || (q.Leaves? && (q.who, g) in db.mygp && (q.who == u || db.HasRank(g, q.who, Owner)))
    || Removes(db, q, g, u) || Departs(db, q, g, u)
    || (NewRank(db, q, g, u) != None && NewRank(db, q, g, u) != Some(rank))
  }

  ghost predicate EndsText(db: Db, q: Request, r: Name, f: string, m: Msg) {
    || q == Leaves(r)
    || (q.OpensChat? && q.who == r && (r, q.other) in db.frie && IsUnread(db, r, q.other, f))
    || (q.Unfriends? && (q.who, q.other) in db.frie && q.who == r && IsUnread(db, r, q.other, f))
    || (q.Unfriends? && (q.who, q.other) in db.frie && q.other == r && IsUnread(db, r, q.who, f))
    || (GoesToMailbox(db, q) && q.other == r && f == Field(q.who, db.Count(r, q.who)) && q.text != m)
  }

  ghost predicate Gains(db: Db, q: Request, e: Entry) {
    match e
    case Account(x) => (q.Registers? || q.Ships?) && q.who == x
    case Friend(r, a) => MakesFriend(db, q, r, a)
    case Untagged(r, t) => AcceptsInvitation(db, q) && q.pass == AddFriendPass && q.who == r && q.name == t
    case Waits(x, item) => MakesPending(db, q, x, item)
    case Wishes(g, x) => q.AsksGroup? && q.group == g && q.who == x && db.IsGroup(g) && (x, g) !in db.mygp
    case Lists(u, g) => MakesListing(db, q, u, g)
    case Ranks(g, u, rank) => NewRank(db, q, g, u) == Some(rank)
    case Text(r, f, m) =>
      GoesToMailbox(db, q) && q.other == r && f == Field(q.who, db.Count(r, q.who)) && q.text == m
    case Refuses(r, a) => q == Blacks(r, a) && (r, a) in db.frie
    case InChat(a, b) => q == OpensChat(a, b) && (a, b) in db.frie
    case HasOpen(u, g) => q == OpensGroup(u, g) && (u, g) in db.mygp
  }

  ghost predicate Loses(db: Db, q: Request, e: Entry) {
    match e
    case Account(x) => q == Leaves(x)
    case Friend(r, a) => EndsFriend(db, q, r, a)
    case Untagged(r, _) => q == Leaves(r)
    case Waits(x, item) => EndsPending(db, q, x, item)
    case Wishes(g, x) => q.VerifiesGroup? && q.group == g && q.name == x
    case Lists(u, g) => EndsListing(db, q, u, g)
    case Ranks(g, u, rank) => EndsRank(db, q, g, u, rank)
    case Text(r, f, m) => EndsText(db, q, r, f, m)
    case Refuses(r, a) => q == Unblacks(r, a)
    case InChat(a, b) => q == EndsChat(a, b)
    case HasOpen(u, g) => q == EndsGroupChat(u, g)
  }

  /** The law of one entry: after a request it is there if the request makes it, or it was there and stays. */
  ghost predicate Lawful(db: Db, q: Request, db': Db, e: Entry) {
    Holds(db', e) <==> Gains(db, q, e) || (Holds(db, e) && !Loses(db, q, e))
  }

  /** Where an entry is kept. */
  function HashOf(e: Entry): Hash {
    match e
    case Account(_) => Users
    case Friend(_, _) => Frie
    case Untagged(_, _) => FrieOdd
    case Waits(_, _) => Mess
    case Wishes(_, _) => GroupMess
    case Lists(_, _) => Mygp
    case Ranks(_, _, _) => Grop
    case Text(_, _, _) => Offl
    case Refuses(_, _) => Blak
    case InChat(_, _) => Hash.Chatting
    case HasOpen(_, _) => GroupChatting
  }

  /** Which requests the conditions are about. */
  lemma KindsAre(db: Db, q: Request)
    ensures Meets(db, q) ==> q.AsksFriend?
    ensures GoesToMailbox(db, q) ==> q.Sends?
    ensures AcceptsInvitation(db, q) ==> q.Verifies?
    ensures forall item :: Answers(db, q, item) ==> q.Verifies?
    ensures forall g, u :: (Removes(db, q, g, u) ==> q.Commands?) && (Departs(db, q, g, u) ==> q.LeavesGroup?)
    ensures forall g, u :: NewRank(db, q, g, u) != None ==>
                             q.CreatesGroup? || q.Verifies? || q.VerifiesGroup? || q.Commands?
  {}

  lemma NothingMade(db: Db, q: Request, e: Entry)
    requires HashOf(e) !in Writes(q)
    ensures !Gains(db, q, e)
  {
    KindsAre(db, q);
    hide Meets, GoesToMailbox, AcceptsInvitation, Answers, NewRank, Mutual, Between, Field;
  }

  lemma NothingEnded(db: Db, q: Request, e: Entry)
    requires HashOf(e) !in Writes(q)
    ensures !Loses(db, q, e)
  {
    KindsAre(db, q);
    hide Meets, GoesToMailbox, Answers, NewRank, Removes, Departs, Mutual, Between, IsUnread, Mentions, Field;
  }

  /** A request makes and takes entries only in the hashes it writes. */
  lemma AsideLawful(db: Db, q: Request, db': Db, e: Entry)
    requires HashOf(e) !in Writes(q) && OnlyWrites(db, db', Writes(q))
    ensures Lawful(db, q, db', e)
  {
    NothingMade(db, q, e);
    NothingEnded(db, q, e);
    hide Gains, Loses, Writes;
  }

  // ---------- accounts, friends and requests ----------

  lemma RegisterLaw(db: Db, x: Name, connected: bool, e: Entry)
    requires HashOf(e) in Writes(Registers(x, connected))
    ensures Lawful(db, Registers(x, connected), Register(db, x, connected), e)
  {}

  lemma ShipLaw(db: Db, x: Name, e: Entry)
    requires HashOf(e) in Writes(Ships(x))
    ensures Lawful(db, Ships(x), Touch(db, x), e)
  {}

  lemma PushedWaits(db: Db, at: Name, added: Item, x: Name, item: Item)
    ensures var db' := db.(mess := db.mess[at := [added] + db.Pending(at)]);
            item in db'.Pending(x) <==> item in db.Pending(x) || (x == at && item == added)
  {}

  lemma DroppedWaits(db: Db, at: Name, dropped: Item, x: Name, item: Item)
    ensures item in DropItem(db, at, dropped).Pending(x) <==> item in db.Pending(x) && !(x == at && item == dropped)
  {
    LremRemoves(db.Pending(at), dropped);
    hide Lrem;
  }

  lemma AskWaits(db: Db, me: Name, other: Name, x: Name, item: Item)
    ensures Lawful(db, AsksFriend(me, other), AskFriend(db, me, other), Waits(x, item))
  {
    PushedWaits(db, other, FriendRequest(me), x, item);
    DroppedWaits(Befriend(db, me, other), me, FriendRequest(other), x, item);
    assert Befriend(db, me, other).Pending(x) == db.Pending(x);
    hide DropItem;
  }

  lemma MetFriends(db: Db, me: Name, other: Name)
    ensures AskFriend(db, me, other).frie ==
              if Meets(db, AsksFriend(me, other)) then db.frie[(me, other) := 0][(other, me) := 0] else db.frie
  {
    hide Lrem;
  }

  lemma AskFriends(db: Db, me: Name, other: Name, r: Name, a: Name)
    ensures Lawful(db, AsksFriend(me, other), AskFriend(db, me, other), Friend(r, a))
  {
    MetFriends(db, me, other);
    hide AskFriend, MakesPending, EndsPending, Meets;
  }

  lemma AskLaw(db: Db, me: Name, other: Name, e: Entry)
    requires HashOf(e) in Writes(AsksFriend(me, other))
    ensures Lawful(db, AsksFriend(me, other), AskFriend(db, me, other), e)
  {
    hide Lawful, AskFriend;
    if e.Waits? {
      AskWaits(db, me, other, e.at, e.item);
    } else {
      AskFriends(db, me, other, e.of, e.who);
    }
  }

  lemma AnswersIs(db: Db, pass: Pass, me: Name, name: Name, yes: bool, item: Item)
    ensures var i := FirstMatch(db.Pending(me), name);
            Answers(db, Verifies(pass, me, name, yes), item) <==> i < |db.Pending(me)| && db.Pending(me)[i] == item
  {
    var items, q := db.Pending(me), Verifies(pass, me, name, yes);
    var i := FirstMatch(items, name);
    assert forall x: Item :: Matches(x, name) <==> x == FriendRequest(name) || (x.Invitation? && x.group == name);
    hide FirstMatch, Matches;
    if Answers(db, q, item) {
      var k: nat :| k < |items| && items[k] == item && forall j: nat | j < k ::
        items[j] != FriendRequest(name) && (items[j].Invitation? ==> items[j].group != name);
      assert Matches(items[k], name);
      assert i <= k;
      assert !(i < k);
    }
  }

  lemma VerifyWaits(db: Db, pass: Pass, me: Name, name: Name, yes: bool, x: Name, item: Item)
    ensures Lawful(db, Verifies(pass, me, name, yes), VerifyUser(db, pass, me, name, yes), Waits(x, item))
  {
    AnswersIs(db, pass, me, name, yes, item);
    var items := db.Pending(me);
    var i := FirstMatch(items, name);
    if i < |items| {
      var db1 := if yes then Accept(db, pass, me, name, items[i]) else db;
      assert db1.Pending(x) == db.Pending(x);
      DroppedWaits(db1, me, items[i], x, item);
    }
    hide DropItem, FirstMatch, Answers, Accept;
  }

  /** What a verification accepts. */
  lemma AcceptsIs(db: Db, pass: Pass, me: Name, name: Name, yes: bool)
    ensures var i, items, q := FirstMatch(db.Pending(me), name), db.Pending(me), Verifies(pass, me, name, yes);
            && (Answers(db, q, FriendRequest(name)) <==> i < |items| && items[i].FriendRequest?)
            && (AcceptsInvitation(db, q) <==> yes && i < |items| && items[i].Invitation?)
  {
    var i, items, q := FirstMatch(db.Pending(me), name), db.Pending(me), Verifies(pass, me, name, yes);
    AnswersIs(db, pass, me, name, yes, FriendRequest(name));
    if i < |items| && items[i].Invitation? {
      AnswersIs(db, pass, me, name, yes, items[i]);
      assert Answers(db, q, Invitation(items[i].inviter, name));
    }
    if AcceptsInvitation(db, q) {
      var inviter :| Answers(db, q, Invitation(inviter, name));
      AnswersIs(db, pass, me, name, yes, Invitation(inviter, name));
    }
    hide FirstMatch, Answers;
  }

  lemma VerifyFriends(db: Db, pass: Pass, me: Name, name: Name, yes: bool, r: Name, a: Name)
    ensures Lawful(db, Verifies(pass, me, name, yes), VerifyUser(db, pass, me, name, yes), Friend(r, a))
  {
    AcceptsIs(db, pass, me, name, yes);
    hide FirstMatch, Lrem, Answers, AcceptsInvitation, Mentions;
  }

  lemma VerifyUntagged(db: Db, pass: Pass, me: Name, name: Name, yes: bool, r: Name, t: string)
    ensures Lawful(db, Verifies(pass, me, name, yes), VerifyUser(db, pass, me, name, yes), Untagged(r, t))
  {
    AcceptsIs(db, pass, me, name, yes);
    hide FirstMatch, Lrem, Answers, AcceptsInvitation;
  }

  lemma VerifyGroups(db: Db, pass: Pass, me: Name, name: Name, yes: bool, g: Name, u: Name, rank: Rank)
    ensures Lawful(db, Verifies(pass, me, name, yes), VerifyUser(db, pass, me, name, yes), Lists(u, g))
    ensures Lawful(db, Verifies(pass, me, name, yes), VerifyUser(db, pass, me, name, yes), Ranks(g, u, rank))
  {
    AcceptsIs(db, pass, me, name, yes);
    VerifyStores(db, pass, me, name, yes);
    hide VerifyUser, FirstMatch, Answers, AcceptsInvitation;
  }

  lemma VerifyLaw(db: Db, pass: Pass, me: Name, name: Name, yes: bool, e: Entry)
    requires HashOf(e) in Writes(Verifies(pass, me, name, yes))
    ensures Lawful(db, Verifies(pass, me, name, yes), VerifyUser(db, pass, me, name, yes), e)
  {
    hide Lawful, VerifyUser;
    match e
    case Waits(x, item) => VerifyWaits(db, pass, me, name, yes, x, item);
    case Friend(r, a) => VerifyFriends(db, pass, me, name, yes, r, a);
    case Untagged(r, t) => VerifyUntagged(db, pass, me, name, yes, r, t);
    case Lists(u, g) => VerifyGroups(db, pass, me, name, yes, g, u, Member);
    case Ranks(g, u, rank) => VerifyGroups(db, pass, me, name, yes, g, u, rank);
  }

  lemma InviteLaw(db: Db, me: Name, person: Name, g: Name, e: Entry)
    requires HashOf(e) in Writes(Invites(me, person, g))
    ensures Lawful(db, Invites(me, person, g), Invite(db, me, person, g), e)
  {
    PushedWaits(db, person, Invitation(me, g), e.at, e.item);
  }

  lemma UnfriendLaw(db: Db, me: Name, other: Name, e: Entry)
    requires HashOf(e) in Writes(Unfriends(me, other))
    ensures Lawful(db, Unfriends(me, other), DelFriend(db, me, other), e)
  {
    hide Field;
  }

  lemma MentionsIs(db: Db, x: Name, r: Name)
    ensures Mentions(db, x, r) <==> Visited(db.frie, db.frieOdd, x, r)
  {
    if Mentions(db, x, r) && (x, r) !in db.frie {
      var t :| (x, t) in db.frieOdd && |t| >= 5 && t[5..] == r;
      assert CutsTo((x, t).1, r);
    }
  }

  lemma DeleteFriends(db: Db, x: Name, r: Name, a: Name)
    ensures Lawful(db, Leaves(x), DeleteUser(db, x), Friend(r, a))
  {
    MentionsIs(db, x, r);
    hide Mentions, Visited, GroupsWithout;
  }

  lemma DeleteRanks(db: Db, x: Name, g: Name, u: Name, rank: Rank)
    ensures Lawful(db, Leaves(x), DeleteUser(db, x), Ranks(g, u, rank))
  {
    hide FriendsWithout;
  }

  lemma DeleteRest(db: Db, x: Name, e: Entry)
    requires HashOf(e) in Writes(Leaves(x)) && !e.Friend? && !e.Ranks?
    ensures Lawful(db, Leaves(x), DeleteUser(db, x), e)
  {
    hide FriendsWithout, GroupsWithout;
  }

  lemma DeleteLaw(db: Db, x: Name, e: Entry)
    requires HashOf(e) in Writes(Leaves(x))
    ensures Lawful(db, Leaves(x), DeleteUser(db, x), e)
  {
    hide Lawful, DeleteUser;
    match e
    case Friend(r, a) => DeleteFriends(db, x, r, a);
    case Ranks(g, u, rank) => DeleteRanks(db, x, g, u, rank);
    case _ => DeleteRest(db, x, e);
  }

  // ---------- messages ----------

  lemma SendFriends(db: Db, me: Name, other: Name, text: Msg, online: bool, r: Name, a: Name)
    ensures Lawful(db, Sends(me, other, text, online), Message(db, me, other, text, online), Friend(r, a))
  {
    hide Field;
  }

  lemma SentText(db: Db, me: Name, other: Name, text: Msg, online: bool)
    ensures Message(db, me, other, text, online).offl ==
              if GoesToMailbox(db, Sends(me, other, text, online))
              then db.offl[(other, Field(me, db.Count(other, me))) := text] else db.offl
  {
    hide Field;
  }

  lemma SendTexts(db: Db, me: Name, other: Name, text: Msg, online: bool, r: Name, f: string, m: Msg)
    ensures Lawful(db, Sends(me, other, text, online), Message(db, me, other, text, online), Text(r, f, m))
  {
    SentText(db, me, other, text, online);
    hide Field, Message, GoesToMailbox;
  }

  lemma SendLaw(db: Db, me: Name, other: Name, text: Msg, online: bool, e: Entry)
    requires HashOf(e) in Writes(Sends(me, other, text, online))
    ensures Lawful(db, Sends(me, other, text, online), Message(db, me, other, text, online), e)
  {
    hide Lawful, Message;
    match e
    case Friend(r, a) => SendFriends(db, me, other, text, online, r, a);
    case Text(r, f, m) => SendTexts(db, me, other, text, online, r, f, m);
  }

  lemma OpenChatLaw(db: Db, me: Name, other: Name, e: Entry)
    requires HashOf(e) in Writes(OpensChat(me, other))
    ensures Lawful(db, OpensChat(me, other), OpenChat(db, me, other), e)
  {
    hide Field;
  }

  lemma TalkLaws(db: Db, me: Name, other: Name, e: Entry)
    ensures HashOf(e) == Hash.Chatting ==> Lawful(db, EndsChat(me, other), EndChat(db, me, other), e)
    ensures HashOf(e) == Blak ==> Lawful(db, Blacks(me, other), Black(db, me, other), e)
    ensures HashOf(e) == Blak ==> Lawful(db, Unblacks(me, other), Unblack(db, me, other), e)
  {}

  // ---------- groups ----------

  lemma {:induction false} JoinAllElsewhere(db: Db, g: Name, members: seq<Name>, h: Name, u: Name)
    requires h != g
    ensures var db' := JoinAll(db, g, members);
            ((h, u) in db'.grop <==> (h, u) in db.grop) && ((h, u) in db'.grop ==> db'.grop[(h, u)] == db.grop[(h, u)])
  {
    if members != [] {
      JoinAllElsewhere(db, g, members[..|members| - 1], h, u);
    }
  }

  lemma CreateLists(db: Db, g: Name, who: Name, members: seq<Name>, h: Name, u: Name)
    ensures Lawful(db, CreatesGroup(g, who, members), CreateGroup(db, g, who, members), Lists(u, h))
  {
    if !db.IsGroup(g) {
      JoinAllCount(JoinGroup(db, g, who, Owner), g, members, h, u);
      JoinCount(db, g, who, Owner, h, u);
    }
    hide JoinAll, JoinGroup;
  }

  lemma CreatedRank(db: Db, g: Name, who: Name, members: seq<Name>, h: Name, u: Name)
    ensures var n, db' := NewRank(db, CreatesGroup(g, who, members), h, u), CreateGroup(db, g, who, members);
            if n != None then (h, u) in db'.grop && db'.grop[(h, u)] == n.value
            else ((h, u) in db'.grop <==> (h, u) in db.grop)
                 && ((h, u) in db.grop ==> db'.grop[(h, u)] == db.grop[(h, u)])
  {
    if !db.IsGroup(g) {
      assert (g, u) in db.grop ==> db.IsGroup(g);
      var start := JoinGroup(db, g, who, Owner);
      assert h != g ==> ((h, u) in start.grop <==> (h, u) in db.grop);
      if h == g {
        JoinAllMembers(start, g, members, u);
      } else {
        JoinAllElsewhere(start, g, members, h, u);
      }
    }
    hide JoinAll;
  }

  lemma CreateRanks(db: Db, g: Name, who: Name, members: seq<Name>, h: Name, u: Name, rank: Rank)
    ensures Lawful(db, CreatesGroup(g, who, members), CreateGroup(db, g, who, members), Ranks(h, u, rank))
  {
    CreatedRank(db, g, who, members, h, u);
    hide CreateGroup, NewRank;
  }

  lemma CreateLaw(db: Db, g: Name, who: Name, members: seq<Name>, e: Entry)
    requires HashOf(e) in Writes(CreatesGroup(g, who, members))
    ensures Lawful(db, CreatesGroup(g, who, members), CreateGroup(db, g, who, members), e)
  {
    hide Lawful, CreateGroup;
    match e
    case Lists(u, h) => CreateLists(db, g, who, members, h, u);
    case Ranks(h, u, rank) => CreateRanks(db, g, who, members, h, u, rank);
  }

  lemma AskGroupLaw(db: Db, me: Name, g: Name, h: Name, x: Name)
    ensures Lawful(db, AsksGroup(me, g), AskGroup(db, me, g), Wishes(h, x))
  {}

  lemma AdmitWishes(db: Db, g: Name, name: Name, yes: bool, h: Name, x: Name)
    ensures Lawful(db, VerifiesGroup(g, name, yes), VerifyGroup(db, g, name, yes), Wishes(h, x))
  {
    LremRemoves(db.Asking(g), name);
    hide Lrem;
  }

  lemma AdmitMembers(db: Db, g: Name, name: Name, yes: bool, h: Name, u: Name, rank: Rank)
    ensures Lawful(db, VerifiesGroup(g, name, yes), VerifyGroup(db, g, name, yes), Lists(u, h))
    ensures Lawful(db, VerifiesGroup(g, name, yes), VerifyGroup(db, g, name, yes), Ranks(h, u, rank))
  {
    hide Lrem;
  }

  lemma AdmitLaw(db: Db, g: Name, name: Name, yes: bool, e: Entry)
    requires HashOf(e) in Writes(VerifiesGroup(g, name, yes))
    ensures Lawful(db, VerifiesGroup(g, name, yes), VerifyGroup(db, g, name, yes), e)
  {
    hide Lawful, VerifyGroup;
    match e
    case Wishes(h, x) => AdmitWishes(db, g, name, yes, h, x);
    case Lists(u, h) => AdmitMembers(db, g, name, yes, h, u, Member);
    case Ranks(h, u, rank) => AdmitMembers(db, g, name, yes, h, u, rank);
  }

  lemma LeaveLists(db: Db, me: Name, g: Name, confirmed: bool, h: Name, u: Name)
    ensures Lawful(db, LeavesGroup(me, g, confirmed), LeaveGroup(db, me, g, confirmed), Lists(u, h))
  {
    hide OnlyWrites, NewRank;
  }

  lemma LeaveRanks(db: Db, me: Name, g: Name, confirmed: bool, h: Name, u: Name, rank: Rank)
    ensures Lawful(db, LeavesGroup(me, g, confirmed), LeaveGroup(db, me, g, confirmed), Ranks(h, u, rank))
  {
    hide OnlyWrites;
  }

  lemma LeaveLaw(db: Db, me: Name, g: Name, confirmed: bool, e: Entry)
    requires HashOf(e) in Writes(LeavesGroup(me, g, confirmed))
    ensures Lawful(db, LeavesGroup(me, g, confirmed), LeaveGroup(db, me, g, confirmed), e)
  {
    hide Lawful, LeaveGroup;
    match e
    case Lists(u, h) => LeaveLists(db, me, g, confirmed, h, u);
    case Ranks(h, u, rank) => LeaveRanks(db, me, g, confirmed, h, u, rank);
  }

  /** The texts of the levels decide as the ranks do, and "null" passes every test. */
  lemma PassesIs(db: Db, g: Name, actor: Name, target: Name)
    requires (g, target) in db.grop
    ensures Level(db, g, target) != "null"
    ensures CompareLevel(Level(db, g, actor), Level(db, g, target)) <==>
              ((g, actor) in db.grop ==> Above(db.grop[(g, actor)], db.grop[(g, target)]))
    ensures Level(db, g, actor) == "owner" <==> db.HasRank(g, actor, Owner)
  {
    if (g, actor) in db.grop {
      CompareLevelIsRankOrder(db.grop[(g, actor)], db.grop[(g, target)]);
      hide CompareLevel;
    }
  }

  lemma CmdIs(db: Db, g: Name, actor: Name, target: Name, use: Use)
    ensures var q, db' := Commands(g, actor, target, use), Cmd(db, g, actor, target, use);
            && (Removes(db, q, g, target) ==>
                  db'.grop == db.grop - {(g, target)} && db'.mygp == db.mygp - {(target, g)})
            && (!Removes(db, q, g, target) ==> db'.mygp == db.mygp)
            && (!Removes(db, q, g, target) && NewRank(db, q, g, target) == None ==> db'.grop == db.grop)
            && (NewRank(db, q, g, target) != None ==>
                  db'.grop == db.grop[(g, target) := NewRank(db, q, g, target).value])
  {
    if (g, target) in db.grop {
      PassesIs(db, g, actor, target);
      hide CompareLevel, Level;
    }
  }

  lemma CmdLists(db: Db, g: Name, actor: Name, target: Name, use: Use, h: Name, u: Name)
    ensures Lawful(db, Commands(g, actor, target, use), Cmd(db, g, actor, target, use), Lists(u, h))
  {
    CmdIs(db, g, actor, target, use);
    hide Cmd, NewRank;
  }

  lemma CmdRanks(db: Db, g: Name, actor: Name, target: Name, use: Use, h: Name, u: Name, rank: Rank)
    ensures Lawful(db, Commands(g, actor, target, use), Cmd(db, g, actor, target, use), Ranks(h, u, rank))
  {
    CmdIs(db, g, actor, target, use);
    hide Cmd;
  }

  lemma CmdLaw(db: Db, g: Name, actor: Name, target: Name, use: Use, e: Entry)
    requires HashOf(e) in Writes(Commands(g, actor, target, use))
    ensures Lawful(db, Commands(g, actor, target, use), Cmd(db, g, actor, target, use), e)
  {
    hide Lawful, Cmd;
    match e
    case Lists(u, h) => CmdLists(db, g, actor, target, use, h, u);
    case Ranks(h, u, rank) => CmdRanks(db, g, actor, target, use, h, u, rank);
  }

  lemma SendGroupLaw(db: Db, me: Name, g: Name, h: Name, u: Name)
    ensures Lawful(db, SendsGroup(g, me), GroupMessage(db, g, me), Lists(u, h))
  {
    hide NewRank, CountsAt;
  }

  lemma HistoryLaw(db: Db, me: Name, g: Name, h: Name, u: Name)
    ensures Lawful(db, SeesHistory(me, g), GroupHistory(db, me, g), Lists(u, h))
  {}

  lemma OpenListLaw(db: Db, me: Name, g: Name, h: Name, u: Name)
    ensures Lawful(db, OpensGroup(me, g), OpenGroup(db, me, g), Lists(u, h))
  {}

  lemma OpenLaw(db: Db, me: Name, g: Name, h: Name, u: Name)
    ensures Lawful(db, OpensGroup(me, g), OpenGroup(db, me, g), HasOpen(u, h))
    ensures Lawful(db, EndsGroupChat(me, g), EndGroupChat(db, me, g), HasOpen(u, h))
  {}

  // ---------- all of them ----------

  lemma PrivateLaw(db: Db, q: Request, e: Entry)
    requires HashOf(e) in Writes(q) && !GroupsAlone(q)
    ensures Lawful(db, q, Handle(db, q), e)
  {
    hide Lawful;
    hide Register, Touch, DeleteUser, AskFriend, VerifyUser, VerifyGroup, DelFriend, Message, OpenChat, EndChat, Black;
    hide Unblack, CreateGroup, AskGroup, Invite, LeaveGroup, Cmd, GroupMessage, OpenGroup, EndGroupChat, GroupHistory;
    match q
    case Registers(x, connected) => RegisterLaw(db, x, connected, e);
    case Ships(x) => ShipLaw(db, x, e);
    case Leaves(x) => DeleteLaw(db, x, e);
    case AsksFriend(me, other) => AskLaw(db, me, other, e);
    case Verifies(pass, me, name, yes) => VerifyLaw(db, pass, me, name, yes, e);
    case Unfriends(me, other) => UnfriendLaw(db, me, other, e);
    case Sends(me, other, text, online) => SendLaw(db, me, other, text, online, e);
    case OpensChat(me, other) => OpenChatLaw(db, me, other, e);
    case EndsChat(me, other) => TalkLaws(db, me, other, e);
    case Blacks(me, other) => TalkLaws(db, me, other, e);
    case Unblacks(me, other) => TalkLaws(db, me, other, e);
    case Invites(me, person, g) => InviteLaw(db, me, person, g, e);
  }

  lemma GroupLaw(db: Db, q: Request, e: Entry)
    requires HashOf(e) in Writes(q) && GroupsAlone(q)
    ensures Lawful(db, q, Handle(db, q), e)
  {
    hide Lawful;
    hide Register, Touch, DeleteUser, AskFriend, VerifyUser, VerifyGroup, DelFriend, Message, OpenChat, EndChat, Black;
    hide Unblack, CreateGroup, AskGroup, Invite, LeaveGroup, Cmd, GroupMessage, OpenGroup, EndGroupChat, GroupHistory;
    match q
    case CreatesGroup(g, me, members) => CreateLaw(db, g, me, members, e);
    case AsksGroup(me, g) => AskGroupLaw(db, me, g, e.group, e.who);
    case VerifiesGroup(g, name, yes) => AdmitLaw(db, g, name, yes, e);
    case LeavesGroup(me, g, confirmed) => LeaveLaw(db, me, g, confirmed, e);
    case Commands(g, me, target, use) => CmdLaw(db, g, me, target, use, e);
    case SendsGroup(g, me) => SendGroupLaw(db, me, g, e.group, e.who);
    case SeesHistory(me, g) => HistoryLaw(db, me, g, e.group, e.who);
    case OpensGroup(me, g) =>
      if e.Lists? {
        OpenListLaw(db, me, g, e.group, e.who);
      } else {
        OpenLaw(db, me, g, e.group, e.who);
      }
    case EndsGroupChat(me, g) => OpenLaw(db, me, g, e.group, e.who);
  }

  /** Every entry of every hash follows the law under every request, in every store. */
  lemma EveryEntryIsLawful(db: Db, q: Request, e: Entry)
    ensures Lawful(db, q, Handle(db, q), e)
  {
    hide Handle, Lawful, Writes, HashOf;
    if HashOf(e) !in Writes(q) {
      Frames(db, q);
      AsideLawful(db, q, Handle(db, q), e);
    } else if GroupsAlone(q) {
      GroupLaw(db, q, e);
    } else {
      PrivateLaw(db, q, e);
    }
  }

  // ---------- whole histories ----------

  /** Some request of the history takes the entry away. */
  ghost predicate LostIn(db: Db, qs: seq<Request>, e: Entry)
    decreases qs
  {
    qs != [] && ((Loses(db, qs[0], e) && !Gains(db, qs[0], e)) || LostIn(Handle(db, qs[0]), qs[1..], e))
  }

  /** Some request of the history makes the entry, and none takes it away after that. */
  ghost predicate MadeIn(db: Db, qs: seq<Request>, e: Entry)
    decreases qs
  {
    && qs != []
    && ((Gains(db, qs[0], e) && !LostIn(Handle(db, qs[0]), qs[1..], e)) || MadeIn(Handle(db, qs[0]), qs[1..], e))
  }

  /**
    Over every history, from any store and without any condition on names or
    requests: an entry is there exactly if it was made and not taken away since, or
    was there at the beginning and never taken away.
   */
  lemma {:induction false} StandsExactly(db: Db, qs: seq<Request>, e: Entry)
    ensures Holds(Run(db, qs), e) <==> MadeIn(db, qs, e) || (Holds(db, e) && !LostIn(db, qs, e))
    decreases qs
  {
    if qs != [] {
      EveryEntryIsLawful(db, qs[0], e);
      hide Handle, Gains, Loses, Holds;
      StandsExactly(Handle(db, qs[0]), qs[1..], e);
    }
  }

  /** From an empty server. */
  lemma StandsFromEmpty(qs: seq<Request>, e: Entry)
    ensures Holds(Run(EMPTY_DB, qs), e) <==> MadeIn(EMPTY_DB, qs, e)
  {
    StandsExactly(EMPTY_DB, qs, e);
    hide Run, MadeIn, LostIn;
  }

  // ---------- which messages are kept for later ----------

  lemma InvIsPresent(db: Db, people: set<Name>, groups: set<Name>)
    requires Inv(db, people, groups)
    ensures AllPresent(db)
  {
    hide FriendInv, GroupInv, Named, Within, Apart, AllPresent;
  }

  lemma SentStep(db: Db, from: Name, to: Name, text: Msg, online: bool, people: set<Name>, groups: set<Name>)
    requires Inv(db, people, groups) && (to, from) in db.frie
    ensures var q := Sends(from, to, text, online);
            && AllPresent(db) && AllPresent(Handle(db, q))
            && AbsMail(Handle(db, q)) ==
                 After(AbsMail(db), if GoesToMailbox(db, q) then Put(to, from, text) else Idle)
  {
    var q := Sends(from, to, text, online);
    assert
      && Allowed(db, q, people, groups)
      && EffectOf(db, q) == (if GoesToMailbox(db, q) then Put(to, from, text) else Idle)
    by {
      hide Inv;
    }
    hide Handle, Inv, AbsMail, Allowed, EffectOf, AllPresent, After, GoesToMailbox;
    StepKeepsInv(db, q, people, groups);
    InvIsPresent(db, people, groups);
    InvIsPresent(Handle(db, q), people, groups);
  }

  /**
    A message to a friend, after any allowed history: it is added to the friend's
    queue exactly unless the friend has the sender blacklisted, or is online while
    both have the chat open, by the history.  Every other queue stays as it is.
   */
  lemma MessageStoredExactly(qs: seq<Request>, people: set<Name>, groups: set<Name>,
                             from: Name, to: Name, text: Msg, online: bool, r: Name, a: Name)
    requires Apart(people) && AllowedRun(EMPTY_DB, qs, people, groups)
    requires MadeIn(EMPTY_DB, qs, Friend(to, from))
    ensures var db := Run(EMPTY_DB, qs);
            var db' := Handle(db, Sends(from, to, text, online));
            && AllPresent(db) && AllPresent(db')
            && var unread, unread' := Unread(AbsMail(db), r, a), Unread(AbsMail(db'), r, a);
               unread' ==
                 if (r, a) == (to, from) && !MadeIn(EMPTY_DB, qs, Refuses(to, from))
                    && !(online && MadeIn(EMPTY_DB, qs, InChat(from, to)) && MadeIn(EMPTY_DB, qs, InChat(to, from)))
                 then unread + [text] else unread
  {
    hide Run, MadeIn, Handle, AbsMail, Inv, AllPresent, AllowedRun, Apart;
    var db := Run(EMPTY_DB, qs);
    StandsFromEmpty(qs, Friend(to, from));
    StandsFromEmpty(qs, Refuses(to, from));
    StandsFromEmpty(qs, InChat(from, to));
    StandsFromEmpty(qs, InChat(to, from));
    EmptyInv(people, groups);
    RunRefines(EMPTY_DB, qs, people, groups);
    SentStep(db, from, to, text, online, people, groups);
  }

  // ---------- who stays in a group ----------

  /**
    When somebody who is not the owner leaves a group, memberships, ranks and
    listings of everybody else are as before; an unconfirmed request changes nothing.
   */
  lemma LeavingSpares(db: Db, me: Name, g: Name, confirmed: bool, h: Name, u: Name, rank: Rank)
    requires !db.HasRank(g, me, Owner) && (h, u) != (g, me)
    ensures var db' := Handle(db, LeavesGroup(me, g, confirmed));
            && (Holds(db', Ranks(h, u, rank)) <==> Holds(db, Ranks(h, u, rank)))
            && (Holds(db', Lists(u, h)) <==> Holds(db, Lists(u, h)))
    ensures Handle(db, LeavesGroup(me, g, false)) == db
  {
    EveryEntryIsLawful(db, LeavesGroup(me, g, confirmed), Ranks(h, u, rank));
    EveryEntryIsLawful(db, LeavesGroup(me, g, confirmed), Lists(u, h));
    assert LeaveGroup(db, me, g, false) == db;
    hide LeaveGroup;
  }

  /** The requests that can end an ownership: of the owner, about the account, or about their membership. */
  predicate EndsOwnership(q: Request, g: Name, owner: Name) {
    || q == LeavesGroup(owner, g, true)
    || q == Leaves(owner)
    || (q.Commands? && q.group == g && q.target == owner && q.use == Del)
    || q == VerifiesGroup(g, owner, true)
    || (q.Verifies? && q.who == owner && q.name == g && q.yes)
  }

  lemma OwnerStays(db: Db, q: Request, g: Name, owner: Name)
    requires GroupInv(db) && db.HasRank(g, owner, Owner) && !EndsOwnership(q, g, owner)
    ensures !Loses(db, q, Ranks(g, owner, Owner))
  {
    assert db.IsGroup(g);
    assert forall u :: db.HasRank(g, u, Owner) ==> u == owner;
    hide MembersListed, Answers;
    if AcceptsInvitation(db, q) {
      var inviter :| Answers(db, q, Invitation(inviter, q.name));
    }
  }

  lemma OwnerStep(db: Db, q: Request, people: set<Name>, groups: set<Name>, g: Name, owner: Name)
    requires Inv(db, people, groups) && db.HasRank(g, owner, Owner) && !EndsOwnership(q, g, owner)
    ensures Handle(db, q).HasRank(g, owner, Owner)
  {
    hide FriendInv, GroupInv, MailInv, Named, EndsOwnership, Gains, Loses, Handle;
    OwnerStays(db, q, g, owner);
    EveryEntryIsLawful(db, q, Ranks(g, owner, Owner));
  }

  /** Over every history a group keeps its owner until one of these. */
  lemma {:induction false} GroupKeepsOwner(db: Db, qs: seq<Request>, people: set<Name>, groups: set<Name>,
                                           g: Name, owner: Name)
    requires Inv(db, people, groups) && AllowedRun(db, qs, people, groups) && db.HasRank(g, owner, Owner)
    requires forall q <- qs :: !EndsOwnership(q, g, owner)
    ensures Run(db, qs).HasRank(g, owner, Owner)
    decreases qs
  {
    if qs != [] {
      hide Inv, EndsOwnership, Handle, Allowed;
      assert qs[0] in qs && forall q <- qs[1..] :: q in qs;
      StepKeepsInv(db, qs[0], people, groups);
      OwnerStep(db, qs[0], people, groups, g, owner);
      GroupKeepsOwner(Handle(db, qs[0]), qs[1..], people, groups, g, owner);
    }
  }

  // ---------- unread counts of friends ----------

  /** The request sets the unread count to zero or takes the friend away. */
  ghost predicate Clears(db: Db, q: Request, r: Name, a: Name) {
    || (MakesFriend(db, q, r, a) && !q.Sends?) || EndsFriend(db, q, r, a)
    || (q == OpensChat(r, a) && (r, a) in db.frie)
  }

  ghost predicate Adds(db: Db, q: Request, r: Name, a: Name) {
    GoesToMailbox(db, q) && r == q.other && a == q.who
  }

  ghost predicate CountLawful(db: Db, q: Request, db': Db, r: Name, a: Name) {
    db'.Count(r, a) == if Clears(db, q, r, a) then 0 else db.Count(r, a) + if Adds(db, q, r, a) then 1 else 0
  }

  lemma AsideCount(db: Db, q: Request, db': Db, r: Name, a: Name)
    requires Frie !in Writes(q) && db'.frie == db.frie
    ensures CountLawful(db, q, db', r, a)
  {
    NothingMade(db, q, Friend(r, a));
    NothingEnded(db, q, Friend(r, a));
    hide MakesFriend, EndsFriend;
  }

  lemma AskCount(db: Db, me: Name, other: Name, r: Name, a: Name)
    ensures CountLawful(db, AsksFriend(me, other), AskFriend(db, me, other), r, a)
  {
    MetFriends(db, me, other);
    hide AskFriend, Meets;
  }

  lemma VerifyCount(db: Db, pass: Pass, me: Name, name: Name, yes: bool, r: Name, a: Name)
    ensures CountLawful(db, Verifies(pass, me, name, yes), VerifyUser(db, pass, me, name, yes), r, a)
  {
    AcceptsIs(db, pass, me, name, yes);
    hide FirstMatch, Lrem, Answers;
  }

  lemma DeleteCount(db: Db, x: Name, r: Name, a: Name)
    ensures CountLawful(db, Leaves(x), DeleteUser(db, x), r, a)
  {
    MentionsIs(db, x, r);
    hide Visited, Mentions, GroupsWithout;
  }

  lemma RegisterCount(db: Db, x: Name, connected: bool, r: Name, a: Name)
    ensures CountLawful(db, Registers(x, connected), Register(db, x, connected), r, a)
  {}

  lemma UnfriendCount(db: Db, me: Name, other: Name, r: Name, a: Name)
    ensures CountLawful(db, Unfriends(me, other), DelFriend(db, me, other), r, a)
  {
    hide WithoutMail;
  }

  lemma SendCount(db: Db, me: Name, other: Name, text: Msg, online: bool, r: Name, a: Name)
    ensures CountLawful(db, Sends(me, other, text, online), Message(db, me, other, text, online), r, a)
  {
    hide Field;
  }

  lemma OpenCount(db: Db, me: Name, other: Name, r: Name, a: Name)
    ensures CountLawful(db, OpensChat(me, other), OpenChat(db, me, other), r, a)
  {
    hide WithoutMail;
  }

  lemma CountWriters(db: Db, q: Request, r: Name, a: Name)
    requires Frie in Writes(q)
    ensures CountLawful(db, q, Handle(db, q), r, a)
  {
    hide CountLawful;
    hide Register, Touch, DeleteUser, AskFriend, VerifyUser, VerifyGroup, DelFriend, Message, OpenChat, EndChat, Black;
    hide Unblack, CreateGroup, AskGroup, Invite, LeaveGroup, Cmd, GroupMessage, OpenGroup, EndGroupChat, GroupHistory;
    match q
    case AsksFriend(me, other) => AskCount(db, me, other, r, a);
    case Verifies(pass, me, name, yes) => VerifyCount(db, pass, me, name, yes, r, a);
    case Leaves(x) => DeleteCount(db, x, r, a);
    case Registers(x, connected) => RegisterCount(db, x, connected, r, a);
    case Unfriends(me, other) => UnfriendCount(db, me, other, r, a);
    case Sends(me, other, text, online) => SendCount(db, me, other, text, online, r, a);
    case OpensChat(me, other) => OpenCount(db, me, other, r, a);
  }

  /** Every request clears an unread count, adds one message to it or leaves it. */
  lemma CountLaw(db: Db, q: Request, r: Name, a: Name)
    ensures CountLawful(db, q, Handle(db, q), r, a)
  {
    hide CountLawful, Handle, Writes;
    if Frie in Writes(q) {
      CountWriters(db, q, r, a);
    } else {
      Frames(db, q);
      AsideCount(db, q, Handle(db, q), r, a);
    }
  }

  ghost predicate ClearedIn(db: Db, qs: seq<Request>, r: Name, a: Name)
    decreases qs
  {
    qs != [] && (Clears(db, qs[0], r, a) || ClearedIn(Handle(db, qs[0]), qs[1..], r, a))
  }

  /** How many messages were added with no clearing after them. */
  ghost function AddedSince(db: Db, qs: seq<Request>, r: Name, a: Name): nat
    decreases qs
  {
    if qs == [] then 0
    else
      var later := AddedSince(Handle(db, qs[0]), qs[1..], r, a);
      if Adds(db, qs[0], r, a) && !Clears(db, qs[0], r, a) && !ClearedIn(Handle(db, qs[0]), qs[1..], r, a)
      then later + 1 else later
  }

  /** Over every history an unread count is the number of messages added since it was last cleared. */
  lemma {:induction false} UnreadIsAddedSince(db: Db, qs: seq<Request>, r: Name, a: Name)
    ensures Run(db, qs).Count(r, a) ==
              AddedSince(db, qs, r, a) + if ClearedIn(db, qs, r, a) then 0 else db.Count(r, a)
    decreases qs
  {
    if qs != [] {
      CountLaw(db, qs[0], r, a);
      hide Handle, Clears, Adds;
      UnreadIsAddedSince(Handle(db, qs[0]), qs[1..], r, a);
    }
  }

  // ---------- the order of pending entries and wishes ----------

  /** What stays of a list of pending entries, in its order. */
  ghost function KeptItems(db: Db, q: Request, x: Name, items: seq<Item>): seq<Item> {
    if items == [] then []
    else (if EndsPending(db, q, x, items[0]) then [] else [items[0]]) + KeptItems(db, q, x, items[1..])
  }

  lemma {:induction false} ItemsStay(db: Db, q: Request, x: Name, items: seq<Item>)
    requires forall item :: !EndsPending(db, q, x, item)
    ensures KeptItems(db, q, x, items) == items
  {
    hide EndsPending;
    if items != [] {
      ItemsStay(db, q, x, items[1..]);
    }
  }

  lemma {:induction false} ItemDropped(db: Db, q: Request, x: Name, items: seq<Item>, gone: Item)
    requires forall item :: EndsPending(db, q, x, item) <==> item == gone
    ensures KeptItems(db, q, x, items) == Lrem(items, gone)
  {
    hide EndsPending;
    if items != [] {
      ItemDropped(db, q, x, items[1..], gone);
    }
  }

  lemma {:induction false} ItemsGone(db: Db, q: Request, x: Name, items: seq<Item>)
    requires forall item :: EndsPending(db, q, x, item)
    ensures KeptItems(db, q, x, items) == []
  {
    hide EndsPending;
    if items != [] {
      ItemsGone(db, q, x, items[1..]);
    }
  }

  /** What a request makes comes first, and what it does not take stays in its order. */
  ghost predicate PendingLawful(db: Db, q: Request, db': Db, x: Name) {
    var kept := KeptItems(db, q, x, db.Pending(x));
    && (forall item | MakesPending(db, q, x, item) :: db'.Pending(x) == [item] + kept)
    && ((forall item :: !MakesPending(db, q, x, item)) ==> db'.Pending(x) == kept)
  }

  lemma PendingStays(db: Db, q: Request, db': Db, x: Name)
    requires db'.Pending(x) == db.Pending(x)
    requires forall item :: !MakesPending(db, q, x, item) && !EndsPending(db, q, x, item)
    ensures PendingLawful(db, q, db', x)
  {
    hide MakesPending, EndsPending;
    ItemsStay(db, q, x, db.Pending(x));
  }

  lemma PendingPushed(db: Db, q: Request, db': Db, x: Name, made: Item)
    requires db'.Pending(x) == [made] + db.Pending(x)
    requires forall item :: MakesPending(db, q, x, item) <==> item == made
    requires forall item :: !EndsPending(db, q, x, item)
    ensures PendingLawful(db, q, db', x)
  {
    hide MakesPending, EndsPending;
    ItemsStay(db, q, x, db.Pending(x));
    assert MakesPending(db, q, x, made);
  }

  lemma PendingDropped(db: Db, q: Request, db': Db, x: Name, gone: Item)
    requires db'.Pending(x) == Lrem(db.Pending(x), gone)
    requires forall item :: !MakesPending(db, q, x, item)
    requires forall item :: EndsPending(db, q, x, item) <==> item == gone
    ensures PendingLawful(db, q, db', x)
  {
    hide MakesPending, EndsPending;
    ItemDropped(db, q, x, db.Pending(x), gone);
  }

  lemma AskOrder(db: Db, me: Name, other: Name, x: Name)
    ensures PendingLawful(db, AsksFriend(me, other), AskFriend(db, me, other), x)
  {
    hide PendingLawful, Lrem;
    var q, db' := AsksFriend(me, other), AskFriend(db, me, other);
    if Meets(db, q) && x == me {
      PendingDropped(db, q, db', x, FriendRequest(other));
    } else if other in db.users && !Mutual(db, me, other) && !Meets(db, q) && x == other {
      PendingPushed(db, q, db', x, FriendRequest(me));
    } else {
      PendingStays(db, q, db', x);
    }
  }

  lemma VerifiedPending(db: Db, pass: Pass, me: Name, name: Name, yes: bool, x: Name)
    ensures var items, i := db.Pending(me), FirstMatch(db.Pending(me), name);
            VerifyUser(db, pass, me, name, yes).Pending(x) ==
              if x == me && i < |items| then Lrem(items, items[i]) else db.Pending(x)
  {
    var items, i := db.Pending(me), FirstMatch(db.Pending(me), name);
    hide Lrem, FirstMatch;
    if i < |items| {
      var db1 := if yes then Accept(db, pass, me, name, items[i]) else db;
      assert db1.mess == db.mess;
      hide Accept;
      assert VerifyUser(db, pass, me, name, yes) == DropItem(db1, me, items[i]);
    }
  }

  lemma VerifyOrder(db: Db, pass: Pass, me: Name, name: Name, yes: bool, x: Name)
    ensures PendingLawful(db, Verifies(pass, me, name, yes), VerifyUser(db, pass, me, name, yes), x)
  {
    var q, db' := Verifies(pass, me, name, yes), VerifyUser(db, pass, me, name, yes);
    var items, i := db.Pending(me), FirstMatch(db.Pending(me), name);
    hide PendingLawful, VerifyUser, Lrem, Answers, FirstMatch;
    forall item ensures EndsPending(db, q, x, item) <==> x == me && i < |items| && item == items[i] {
      AnswersIs(db, pass, me, name, yes, item);
    }
    VerifiedPending(db, pass, me, name, yes, x);
    if x == me && i < |items| {
      PendingDropped(db, q, db', x, items[i]);
    } else {
      PendingStays(db, q, db', x);
    }
  }

  lemma InviteOrder(db: Db, me: Name, person: Name, g: Name, x: Name)
    ensures PendingLawful(db, Invites(me, person, g), Invite(db, me, person, g), x)
  {
    hide PendingLawful;
    var q, db' := Invites(me, person, g), Invite(db, me, person, g);
    if x == person && MakesPending(db, q, x, Invitation(me, g)) {
      PendingPushed(db, q, db', x, Invitation(me, g));
    } else {
      PendingStays(db, q, db', x);
    }
  }

  lemma DeleteOrder(db: Db, who: Name, x: Name)
    ensures PendingLawful(db, Leaves(who), DeleteUser(db, who), x)
  {
    hide FriendsWithout, GroupsWithout;
    if x == who {
      ItemsGone(db, Leaves(who), x, db.Pending(x));
    } else {
      PendingStays(db, Leaves(who), DeleteUser(db, who), x);
    }
  }

  lemma AsideOrder(db: Db, q: Request, db': Db, x: Name)
    requires Mess !in Writes(q) && db'.mess == db.mess
    ensures PendingLawful(db, q, db', x)
  {
    forall item ensures !MakesPending(db, q, x, item) && !EndsPending(db, q, x, item) {
      NothingMade(db, q, Waits(x, item));
      NothingEnded(db, q, Waits(x, item));
    }
    hide MakesPending, EndsPending, PendingLawful;
    PendingStays(db, q, db', x);
  }

  lemma PendingWriters(db: Db, q: Request, x: Name)
    requires Mess in Writes(q)
    ensures PendingLawful(db, q, Handle(db, q), x)
  {
    hide PendingLawful;
    hide Register, Touch, DeleteUser, AskFriend, VerifyUser, VerifyGroup, DelFriend, Message, OpenChat, EndChat, Black;
    hide Unblack, CreateGroup, AskGroup, Invite, LeaveGroup, Cmd, GroupMessage, OpenGroup, EndGroupChat, GroupHistory;
    match q
    case AsksFriend(me, other) => AskOrder(db, me, other, x);
    case Verifies(pass, me, name, yes) => VerifyOrder(db, pass, me, name, yes, x);
    case Invites(me, person, g) => InviteOrder(db, me, person, g, x);
    case Leaves(who) => DeleteOrder(db, who, x);
  }

  /** For every request and every user. */
  lemma PendingOrder(db: Db, q: Request, x: Name)
    ensures PendingLawful(db, q, Handle(db, q), x)
  {
    hide PendingLawful, Handle, Writes;
    if Mess in Writes(q) {
      PendingWriters(db, q, x);
    } else {
      Frames(db, q);
      AsideOrder(db, q, Handle(db, q), x);
    }
  }

  /** The wishes to join a group: the newest first, and an answered one goes with all its copies. */
  lemma WishOrder(db: Db, q: Request, g: Name)
    ensures Handle(db, q).Asking(g) ==
              if q.AsksGroup? && q.group == g && db.IsGroup(g) && (q.who, g) !in db.mygp then [q.who] + db.Asking(g)
              else if q.VerifiesGroup? && q.group == g && q.name in db.Asking(g) then Lrem(db.Asking(g), q.name)
              else db.Asking(g)
  {
    Frames(db, q);
    hide Register, Touch, DeleteUser, AskFriend, VerifyUser, DelFriend, Message, OpenChat, EndChat, Black, Unblack;
    hide CreateGroup, Invite, LeaveGroup, Cmd, GroupMessage, OpenGroup, EndGroupChat, GroupHistory, Lrem;
  }
}
