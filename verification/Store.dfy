/**
  The Redis keyspace of the chat server as values, and what each handler does to
  it (server/redisCmd.cc, server/handleData.cc).

  A hash `tag:K` with field `F` is one entry (K, F) of the map for that tag, so a
  hash exists exactly when it has a field, as in Redis.  Names are kept without
  their five-character tag, also at the head of the fields of `offl:` hashes, which
  are `user:A0`, `user:A1` and so on in the store.  The keys of a request are taken to
  carry the tags that the client gives them, and group names not to start with one.
 */
module Store {
  import opened Decimal

  type Name = string
  type Msg = string

  datatype Rank = Owner | Admin | Member

  /** An entry of a list `mess:user:X`. */
  datatype Item = FriendRequest(who: Name) | Invitation(inviter: Name, group: Name)

  datatype Db = Db(
    users: set<Name>,                    // user:X exists
    frie: map<(Name, Name), nat>,        // frie:R, field user:A: unread count
    frieOdd: set<(Name, Name)>,          // frie:R, a field without the user: tag
    mess: map<Name, seq<Item>>,          // mess:user:X, newest first
    groupMess: map<Name, seq<Name>>,     // mess:grop:G, who asks to join
    mygp: map<(Name, Name), nat>,        // mygp:U, field G: unread count
    grop: map<(Name, Name), Rank>,       // grop:G, field user:U
    offl: map<(Name, string), Msg>,      // offl:R, field user:A followed by an index
    blak: set<(Name, Name)>,             // blak:R, field user:A
    chatting: set<(Name, Name)>,         // chatStatus_ under chat:A:B
    groupChatting: set<(Name, Name)>)    // chatStatus_ under grop:G:U
  {
    function Pending(x: Name): seq<Item> {
      if x in mess then mess[x] else []
    }

    function Asking(g: Name): seq<Name> {
      if g in groupMess then groupMess[g] else []
    }

    /** `getRedisCount` on a `frie:` hash. */
    function Count(r: Name, a: Name): nat {
      if (r, a) in frie then frie[(r, a)] else 0
    }

    /** `GET grop:G` answers something when the hash exists. */
    predicate IsGroup(g: Name) {
      exists p <- grop :: p.0 == g
    }

    predicate HasRank(g: Name, u: Name, r: Rank) {
      (g, u) in grop && grop[(g, u)] == r
    }
  }

  const EMPTY_DB := Db({}, map[], {}, map[], map[], map[], map[], map[], {}, {}, {})

  /** The hashes, lists and flags. */
  datatype Hash = Users | Frie | FrieOdd | Mess | GroupMess | Mygp | Grop | Offl | Blak | Chatting | GroupChatting

  /** Everything but these is as before. */
  ghost predicate OnlyWrites(db: Db, db': Db, hashes: set<Hash>) {
    && (Users in hashes || db'.users == db.users) && (Frie in hashes || db'.frie == db.frie)
    && (FrieOdd in hashes || db'.frieOdd == db.frieOdd) && (Mess in hashes || db'.mess == db.mess)
    && (GroupMess in hashes || db'.groupMess == db.groupMess) && (Mygp in hashes || db'.mygp == db.mygp)
    && (Grop in hashes || db'.grop == db.grop) && (Offl in hashes || db'.offl == db.offl)
    && (Blak in hashes || db'.blak == db.blak) && (Chatting in hashes || db'.chatting == db.chatting)
    && (GroupChatting in hashes || db'.groupChatting == db.groupChatting)
  }

  // ---------- lists ----------

  /** `LREM key 0 item`: every occurrence. */
  function Lrem<T(==)>(items: seq<T>, item: T): (r: seq<T>) {
    if items == [] then []
    else if items[0] == item then Lrem(items[1..], item)
    else [items[0]] + Lrem(items[1..], item)
  }

  /** No copy is left, and every other entry is there as often as before. */
  lemma {:induction false} LremRemoves<T>(items: seq<T>, item: T)
    ensures multiset(Lrem(items, item)) == multiset(items)[item := 0]
    ensures forall x :: x in Lrem(items, item) <==> x in items && x != item
  {
    if items != [] {
      LremRemoves(items[1..], item);
      assert items == [items[0]] + items[1..];
    }
  }

  /** A list without the entry stays as it is, and the parts of a list keep their order. */
  lemma {:induction false} LremKeepsOrder<T>(a: seq<T>, b: seq<T>, item: T)
    ensures Lrem(a + b, item) == Lrem(a, item) + Lrem(b, item)
    ensures item !in a ==> Lrem(a, item) == a
  {
    if a == [] {
      assert a + b == b;
    } else {
      LremKeepsOrder(a[1..], b, item);
      assert (a + b)[1..] == a[1..] + b && a == [a[0]] + a[1..];
    }
  }

  // ---------- accounts ----------

  /** `handleRegister`; the connection may be gone by then. */
  function Register(db: Db, x: Name, connected: bool): (db': Db)
    ensures OnlyWrites(db, db', {Users, Frie})
  {
    if x in db.users then db
    else
      var db1 := db.(users := db.users + {x});
      if connected then db1.(frie := db1.frie[(x, x) := 0]) else db1
  }

  /** Any store to a field of `user:X` creates the hash. */
  function Touch(db: Db, x: Name): (db': Db)
    ensures OnlyWrites(db, db', {Users})
  {
    db.(users := db.users + {x})
  }

  /** The user whose list `deleteUser` visits for a field: five characters are cut off, tag or not. */
  predicate CutsTo(text: string, y: Name) {
    |text| >= 5 && text[5..] == y
  }

  predicate Visited(frie: map<(Name, Name), nat>, odd: set<(Name, Name)>, x: Name, y: Name) {
    (x, y) in frie || exists o <- odd :: o.0 == x && CutsTo(o.1, y)
  }

  /** Entries of `frie:` that it removes: those of its own hash, and its field at each user visited. */
  function FriendsWithout(frie: map<(Name, Name), nat>, odd: set<(Name, Name)>, x: Name): map<(Name, Name), nat> {
    map p | p in frie && !(p.0 == x || (p.1 == x && Visited(frie, odd, x, p.0))) :: frie[p]
  }

  /** An untagged field too short to be cut raises an exception in the middle of `deleteUser`. */
  predicate Uncuttable(db: Db, x: Name) {
    exists o <- db.frieOdd :: o.0 == x && |o.1| < 5
  }

  /** Keys of `grop:` that it removes: a whole group if it owns it, its own field otherwise. */
  predicate QuitsEntry(grop: map<(Name, Name), Rank>, x: Name, p: (Name, Name)) {
    p.1 == x || ((p.0, x) in grop && grop[(p.0, x)] == Owner)
  }

  function GroupsWithout(grop: map<(Name, Name), Rank>, mygp: map<(Name, Name), nat>, x: Name)
    : map<(Name, Name), Rank>
  {
    map p | p in grop && !((x, p.0) in mygp && QuitsEntry(grop, x, p)) :: grop[p]
  }

  /** `deleteUser`, when every field of the friend list can be cut. */
  function DeleteUser(db: Db, x: Name): (db': Db)
    ensures OnlyWrites(db, db', {Users, Mess, Frie, FrieOdd, Offl, Grop, Mygp})
  {
    db.(
      users := db.users - {x},
      mess := db.mess - {x},
      offl := map p | p in db.offl && p.0 != x :: db.offl[p],
      frie := FriendsWithout(db.frie, db.frieOdd, x),
      frieOdd := (set o | o in db.frieOdd && o.0 != x),
      grop := GroupsWithout(db.grop, db.mygp, x),
      mygp := map p | p in db.mygp && p.0 != x :: db.mygp[p])
  }

  // ---------- friends ----------

  function Befriend(db: Db, a: Name, b: Name): (db': Db)
    ensures OnlyWrites(db, db', {Frie})
  {
    db.(frie := db.frie[(a, b) := 0][(b, a) := 0])
  }

  function DropItem(db: Db, x: Name, item: Item): (db': Db)
    ensures OnlyWrites(db, db', {Mess})
  {
    db.(mess := db.mess[x := Lrem(db.Pending(x), item)])
  }

  /** `addAll` for a friend: refuse, meet a request the other way, or leave a request. */
  function AskFriend(db: Db, me: Name, other: Name): (db': Db)
    ensures OnlyWrites(db, db', {Frie, Mess})
  {
    if other !in db.users then db
    else if (me, other) in db.frie && (other, me) in db.frie then db
    else if FriendRequest(other) in db.Pending(me) then
      DropItem(Befriend(db, me, other), me, FriendRequest(other))
    else
      db.(mess := db.mess[other := [FriendRequest(me)] + db.Pending(other)])
  }

  datatype Pass = AddFriendPass | InvitationPass

  predicate Matches(item: Item, name: Name) {
    match item
    case FriendRequest(who) => who == name
    case Invitation(_, group) => group == name
  }

  /** The first entry of the list that `verifyUser` accepts for this name, by position. */
  function FirstMatch(items: seq<Item>, name: Name): (i: nat)
    ensures i <= |items| && (i < |items| ==> Matches(items[i], name))
    ensures forall j :: 0 <= j < i ==> !Matches(items[j], name)
  {
    if items == [] || Matches(items[0], name) then 0 else 1 + FirstMatch(items[1..], name)
  }

  function JoinAs(db: Db, g: Name, u: Name, r: Rank): (db': Db)
    ensures OnlyWrites(db, db', {Grop, Mygp})
  {
    db.(grop := db.grop[(g, u) := r], mygp := db.mygp[(u, g) := 0])
  }

  /**
    What accepting an entry stores.  An invitation is stored through the hash the
    caller's pass names, which for a friend pass is the friend list.
   */
  function Accept(db: Db, pass: Pass, me: Name, name: Name, item: Item): (db': Db)
    ensures OnlyWrites(db, db', {Frie, FrieOdd, Grop, Mygp})
  {
    match item
    case FriendRequest(_) => Befriend(db, me, name)
    case Invitation(_, _) =>
      if pass == InvitationPass then JoinAs(db, name, me, Member)
      else db.(frieOdd := db.frieOdd + {(me, name)}, grop := db.grop[(name, me) := Member])
  }

  /** `verifyUser` on the list of a user. */
  function VerifyUser(db: Db, pass: Pass, me: Name, name: Name, yes: bool): (db': Db)
    ensures OnlyWrites(db, db', {Mess, Frie, FrieOdd, Grop, Mygp})
  {
    var items := db.Pending(me);
    var i := FirstMatch(items, name);
    if i == |items| then db
    else DropItem(if yes then Accept(db, pass, me, name, items[i]) else db, me, items[i])
  }

  /** `verifyUser` on the list of a group. */
  function VerifyGroup(db: Db, g: Name, name: Name, yes: bool): (db': Db)
    ensures OnlyWrites(db, db', {Grop, Mygp, GroupMess})
  {
    if name !in db.Asking(g) then db
    else
      var db1 := if yes then JoinAs(db, g, name, Member) else db;
      db1.(groupMess := db1.groupMess[g := Lrem(db.Asking(g), name)])
  }

  /** Fields `name + 0` up to `name + (count - 1)` of one `offl:` hash. */
  ghost predicate MailField(f: string, sender: Name, count: nat) {
    exists i: nat :: i < count && f == Field(sender, i)
  }

  ghost function WithoutMail(offl: map<(Name, string), Msg>, r: Name, sender: Name, count: nat)
    : map<(Name, string), Msg>
  {
    map p | p in offl && !(p.0 == r && MailField(p.1, sender, count)) :: offl[p]
  }

  /** `delFriend`, when both sides list each other. */
  ghost function DelFriend(db: Db, me: Name, other: Name): (db': Db)
    ensures OnlyWrites(db, db', {Frie, Offl})
  {
    if (me, other) !in db.frie then db
    else db.(
      offl := WithoutMail(WithoutMail(db.offl, me, other, db.Count(me, other)), other, me, db.Count(other, me)),
      frie := db.frie - {(me, other), (other, me)})
  }

  // ---------- private messages ----------

  /** `storeMessages`. */
  function StoreMessage(db: Db, r: Name, sender: Name, m: Msg): (db': Db)
    ensures OnlyWrites(db, db', {Frie, Offl})
  {
    var count := db.Count(r, sender);
    db.(offl := db.offl[(r, Field(sender, count)) := m], frie := db.frie[(r, sender) := count + 1])
  }

  /** Whether a message goes to the mailbox: not refused, and not read live by both sides. */
  predicate IsStored(db: Db, from: Name, to: Name, online: bool) {
    (to, from) !in db.blak && !(online && (from, to) in db.chatting && (to, from) in db.chatting)
  }

  /** The message branch of `Megcycle`. */
  function Message(db: Db, from: Name, to: Name, m: Msg, online: bool): (db': Db)
    ensures OnlyWrites(db, db', {Frie, Offl})
  {
    if IsStored(db, from, to, online) then StoreMessage(db, to, from, m) else db
  }

  /** Every lookup of an unread message finds one. */
  ghost predicate MailPresent(db: Db, r: Name, sender: Name) {
    forall i: nat :: i < db.Count(r, sender) ==> (r, Field(sender, i)) in db.offl
  }

  /** The unread messages of one sender in one mailbox, oldest first. */
  ghost function Queue(db: Db, r: Name, sender: Name): seq<Msg>
    requires MailPresent(db, r, sender)
  {
    seq(db.Count(r, sender), i requires 0 <= i < db.Count(r, sender) => db.offl[(r, Field(sender, i))])
  }

  /** Opening a chat with a friend empties the friend's mailbox at us. */
  ghost function OpenChat(db: Db, me: Name, other: Name): (db': Db)
    ensures OnlyWrites(db, db', {Frie, Offl, Chatting})
  {
    if (me, other) !in db.frie then db
    else db.(
      frie := db.frie[(me, other) := 0],
      offl := WithoutMail(db.offl, me, other, db.Count(me, other)),
      chatting := db.chatting + {(me, other)})
  }

  function EndChat(db: Db, me: Name, other: Name): (db': Db)
    ensures OnlyWrites(db, db', {Chatting})
  {
    db.(chatting := db.chatting - {(me, other)})
  }

  function Black(db: Db, me: Name, other: Name): (db': Db)
    ensures OnlyWrites(db, db', {Blak})
  {
    if (me, other) in db.frie then db.(blak := db.blak + {(me, other)}) else db
  }

  function Unblack(db: Db, me: Name, other: Name): (db': Db)
    ensures OnlyWrites(db, db', {Blak})
  {
    db.(blak := db.blak - {(me, other)})
  }

  // ---------- groups ----------

  /** `joinGroup` takes accounts only. */
  function JoinGroup(db: Db, g: Name, u: Name, r: Rank): (db': Db)
    ensures OnlyWrites(db, db', {Grop, Mygp})
  {
    if u in db.users then JoinAs(db, g, u, r) else db
  }

  function JoinAll(db: Db, g: Name, members: seq<Name>): (db': Db)
    ensures OnlyWrites(db, db', {Grop, Mygp})
  {
    if members == [] then db
    else JoinGroup(JoinAll(db, g, members[..|members| - 1]), g, members[|members| - 1], Member)
  }

  function CreateGroup(db: Db, g: Name, owner: Name, members: seq<Name>): (db': Db)
    ensures OnlyWrites(db, db', {Grop, Mygp})
  {
    if db.IsGroup(g) then db else JoinAll(JoinGroup(db, g, owner, Owner), g, members)
  }

  /** `addAll` for a group. */
  function AskGroup(db: Db, me: Name, g: Name): (db': Db)
    ensures OnlyWrites(db, db', {GroupMess})
  {
    if db.IsGroup(g) && (me, g) !in db.mygp then db.(groupMess := db.groupMess[g := [me] + db.Asking(g)]) else db
  }

  /** `addAll` for an invitation. */
  function Invite(db: Db, me: Name, person: Name, g: Name): (db': Db)
    ensures OnlyWrites(db, db', {Mess})
  {
    if db.IsGroup(g) && (me, g) in db.mygp && (me, person) in db.frie && (person, me) in db.frie
       && (person, g) !in db.mygp
    then db.(mess := db.mess[person := [Invitation(me, g)] + db.Pending(person)])
    else db
  }

  /** `delPerson` of a member, and `delmember`. */
  function RemoveMember(db: Db, g: Name, u: Name): (db': Db)
    ensures OnlyWrites(db, db', {Grop, Mygp})
  {
    db.(grop := db.grop - {(g, u)}, mygp := db.mygp - {(u, g)})
  }

  /** `delPerson` of the owner: the group and its field at every member. */
  function Dissolve(db: Db, g: Name): (db': Db)
    ensures OnlyWrites(db, db', {Grop, Mygp})
  {
    db.(
      grop := map p | p in db.grop && p.0 != g :: db.grop[p],
      mygp := map p | p in db.mygp && !(p.1 == g && (g, p.0) in db.grop) :: db.mygp[p])
  }

  /** `deleteGroup`; without the confirmation it only asks. */
  function LeaveGroup(db: Db, me: Name, g: Name, confirmed: bool): (db': Db)
    ensures OnlyWrites(db, db', {Grop, Mygp})
  {
    if (g, me) !in db.grop || !confirmed then db
    else if db.grop[(g, me)] == Owner then Dissolve(db, g)
    else RemoveMember(db, g, me)
  }

  function RankText(r: Rank): string {
    match r
    case Owner => "owner"
    case Admin => "admin"
    case Member => "member"
  }

  /** `getData(group, user)`, with "null" for a missing field. */
  function Level(db: Db, g: Name, u: Name): string {
    if (g, u) in db.grop then RankText(db.grop[(g, u)]) else "null"
  }

  /** `std::string::operator>`. */
  predicate Greater(a: string, b: string) {
    if a == [] then false
    else if b == [] then true
    else a[0] > b[0] || (a[0] == b[0] && Greater(a[1..], b[1..]))
  }

  /** `tool::compareLevel`. */
  predicate CompareLevel(a: string, b: string) {
    if |a| == |b| then a != b && Greater(a, b) else |a| < |b|
  }

  datatype Use = Del | Upl | Dnl

  /** `handleCmd`. */
  function Cmd(db: Db, g: Name, actor: Name, target: Name, use: Use): (db': Db)
    ensures OnlyWrites(db, db', {Grop, Mygp})
  {
    var alevel, blevel := Level(db, g, actor), Level(db, g, target);
    if blevel == "null" || !CompareLevel(alevel, blevel) then db
    else if use == Del then RemoveMember(db, g, target)
    else if alevel != "owner" then db
    else db.(grop := db.grop[(g, target) := if use == Upl then Admin else Member])
  }

  /** A group message counts as unread at every other member who has not opened the group. */
  predicate CountsAt(db: Db, g: Name, sender: Name, u: Name) {
    (g, u) in db.grop && u != sender && (g, u) !in db.groupChatting
  }

  function GroupMessage(db: Db, g: Name, sender: Name): (db': Db)
    ensures OnlyWrites(db, db', {Mygp})
  {
    if (g, sender) !in db.grop then db
    else db.(mygp := map p | p in db.mygp ::
      if p.1 == g && CountsAt(db, g, sender, p.0) then db.mygp[p] + 1 else db.mygp[p])
  }

  /** `gChat`: opening a group one is listed in. */
  function OpenGroup(db: Db, me: Name, g: Name): (db': Db)
    ensures OnlyWrites(db, db', {Mygp, GroupChatting})
  {
    if (me, g) !in db.mygp then db
    else db.(mygp := db.mygp[(me, g) := 0], groupChatting := db.groupChatting + {(g, me)})
  }

  function EndGroupChat(db: Db, me: Name, g: Name): (db': Db)
    ensures OnlyWrites(db, db', {GroupChatting})
  {
    db.(groupChatting := db.groupChatting - {(g, me)})
  }

  /** `seeHistory` of a group stores the count without looking at membership. */
  function GroupHistory(db: Db, me: Name, g: Name): (db': Db)
    ensures OnlyWrites(db, db', {Mygp})
  {
    db.(mygp := db.mygp[(me, g) := 0])
  }
}
