/**
  Friendship safety: what every handler keeps of the friend lists and of the
  friend requests, and exactly when a handler breaks it.
 */
module Friendship {
  import opened Store

  /** Friend lists agree. */
  ghost predicate Symmetric(db: Db) {
    forall a, b :: (a, b) in db.frie <==> (b, a) in db.frie
  }

  ghost predicate Asks(db: Db, a: Name, b: Name) {
    FriendRequest(a) in db.Pending(b)
  }

  /** Two users never have requests pending in both directions. */
  ghost predicate OneWay(db: Db) {
    forall a, b :: a != b && Asks(db, a, b) ==> !Asks(db, b, a)
  }

  /** Friends have no request pending between them. */
  ghost predicate NoneBetweenFriends(db: Db) {
    forall a, b :: (a, b) in db.frie ==> !Asks(db, a, b)
  }

  /** Requests wait at accounts only. */
  ghost predicate Addressed(db: Db) {
    forall a, b :: Asks(db, a, b) ==> b in db.users
  }

  ghost predicate FriendInv(db: Db) {
    Symmetric(db) && OneWay(db) && NoneBetweenFriends(db) && Addressed(db) && db.frieOdd == {}
  }

  /** A handler that leaves friends and requests alone. */
  ghost predicate SameFriends(db: Db, db': Db) {
    && db'.frie.Keys == db.frie.Keys && db'.frieOdd == db.frieOdd && db.users <= db'.users
    && forall a, b :: Asks(db', a, b) <==> Asks(db, a, b)
  }

  lemma FriendFrame(db: Db, db': Db)
    requires FriendInv(db) && SameFriends(db, db')
    ensures FriendInv(db')
  {}

  /** Two users become friends and the requests between them are gone. */
  lemma Befriended(db: Db, db': Db, a: Name, b: Name)
    requires FriendInv(db)
    requires db'.frie == Befriend(db, a, b).frie && db'.frieOdd == db.frieOdd && db'.users == db.users
    requires forall x, y :: Asks(db', x, y) ==> Asks(db, x, y)
    requires !Asks(db', a, b) && !Asks(db', b, a)
    ensures FriendInv(db')
  {
  }

  lemma DropItemAsks(db: Db, x: Name, item: Item)
    ensures forall a, b :: Asks(DropItem(db, x, item), a, b) <==>
              Asks(db, a, b) && !(b == x && item == FriendRequest(a))
  {
    LremRemoves(db.Pending(x), item);
    hide Lrem;
  }

  /** Two requests meet: the lists grow on both sides and the waiting request goes. */
  lemma RequestsMeet(db: Db, me: Name, other: Name)
    requires FriendInv(db) && Asks(db, other, me)
    ensures FriendInv(DropItem(Befriend(db, me, other), me, FriendRequest(other)))
  {
    var met := Befriend(db, me, other);
    assert forall a, b :: Asks(met, a, b) <==> Asks(db, a, b);
    DropItemAsks(met, me, FriendRequest(other));
    var db' := DropItem(met, me, FriendRequest(other));
    assert db'.frie == met.frie;
    hide DropItem, Lrem;
    Befriended(db, db', me, other);
  }

  lemma RequestLeft(db: Db, me: Name, other: Name)
    requires FriendInv(db) && other in db.users && (me, other) !in db.frie && !Asks(db, other, me)
    ensures FriendInv(db.(mess := db.mess[other := [FriendRequest(me)] + db.Pending(other)]))
  {
    var db' := db.(mess := db.mess[other := [FriendRequest(me)] + db.Pending(other)]);
    forall a, b ensures Asks(db', a, b) <==> Asks(db, a, b) || (a == me && b == other) {
      assert db'.Pending(other) == [FriendRequest(me)] + db.Pending(other);
    }
  }

  lemma AskFriendKeeps(db: Db, me: Name, other: Name)
    requires FriendInv(db)
    ensures FriendInv(AskFriend(db, me, other))
  {
    if other in db.users && !((me, other) in db.frie && (other, me) in db.frie) {
      if FriendRequest(other) in db.Pending(me) {
        RequestsMeet(db, me, other);
      } else {
        RequestLeft(db, me, other);
      }
    }
  }

  /** The entry that a verification acts on, if any. */
  ghost predicate ActsOn(db: Db, me: Name, name: Name, item: Item) {
    var items := db.Pending(me);
    FirstMatch(items, name) < |items| && item == items[FirstMatch(items, name)]
  }

  /** A friend verification that accepts an invitation to a group of that name. */
  ghost predicate Crosses(db: Db, pass: Pass, me: Name, name: Name, yes: bool) {
    pass == AddFriendPass && yes && exists item :: ActsOn(db, me, name, item) && item.Invitation?
  }

  lemma FewerRequests(db: Db, db': Db)
    requires FriendInv(db)
    requires db'.frie == db.frie && db'.frieOdd == db.frieOdd && db'.users == db.users
    requires forall x, y :: Asks(db', x, y) ==> Asks(db, x, y)
    ensures FriendInv(db')
  {
  }

  lemma VerifyUserKeeps(db: Db, pass: Pass, me: Name, name: Name, yes: bool)
    requires FriendInv(db) && !Crosses(db, pass, me, name, yes)
    ensures FriendInv(VerifyUser(db, pass, me, name, yes))
  {
    var items := db.Pending(me);
    var i := FirstMatch(items, name);
    if i < |items| {
      var item := items[i];
      assert ActsOn(db, me, name, item) && item in items;
      var db1 := if yes then Accept(db, pass, me, name, item) else db;
      var db' := DropItem(db1, me, item);
      assert forall a, b :: Asks(db1, a, b) <==> Asks(db, a, b);
      DropItemAsks(db1, me, item);
      hide DropItem;
      assert db' == VerifyUser(db, pass, me, name, yes);
      if yes && item.FriendRequest? {
        assert Asks(db, name, me);
        Befriended(db, db', me, name);
      } else {
        FewerRequests(db, db');
      }
    }
  }

  /**
    `verifyUser` never compares the pass with the kind of entry: friend lists get
    an untagged field exactly when the first entry it accepts is an invitation
    and it was called for a friend.
   */
  lemma UntaggedFieldExactly(db: Db, pass: Pass, me: Name, name: Name, yes: bool)
    requires db.frieOdd == {}
    ensures VerifyUser(db, pass, me, name, yes).frieOdd == {} <==> !Crosses(db, pass, me, name, yes)
  {
    var items := db.Pending(me);
    var i := FirstMatch(items, name);
    if i < |items| {
      assert ActsOn(db, me, name, items[i]);
      if Crosses(db, pass, me, name, yes) {
        assert (me, name) in VerifyUser(db, pass, me, name, yes).frieOdd;
      }
    }
  }

  lemma DeleteUserKeeps(db: Db, x: Name)
    requires FriendInv(db)
    ensures FriendInv(DeleteUser(db, x))
    ensures forall a :: (a, x) !in DeleteUser(db, x).frie && (x, a) !in DeleteUser(db, x).frie
  {
    var db' := DeleteUser(db, x);
    forall a, b ensures (a, b) in db'.frie <==> (a, b) in db.frie && a != x && b != x {}
    forall a, b ensures Asks(db', a, b) <==> Asks(db, a, b) && b != x {}
  }

  lemma DelFriendKeeps(db: Db, me: Name, other: Name)
    requires FriendInv(db)
    ensures FriendInv(DelFriend(db, me, other))
    ensures (me, other) in db.frie ==> (other, me) in db.frie   // so neither count is missing
  {
    var db' := DelFriend(db, me, other);
    assert forall a, b :: Asks(db', a, b) <==> Asks(db, a, b);
  }

  lemma RegisterKeeps(db: Db, x: Name, connected: bool)
    requires FriendInv(db)
    ensures FriendInv(Register(db, x, connected))
  {
    var db' := Register(db, x, connected);
    assert forall a, b :: Asks(db', a, b) <==> Asks(db, a, b);
  }

  lemma InviteKeeps(db: Db, me: Name, person: Name, g: Name)
    requires FriendInv(db)
    ensures FriendInv(Invite(db, me, person, g))
  {
    var db' := Invite(db, me, person, g);
    forall a, b ensures Asks(db', a, b) <==> Asks(db, a, b) {}
    FriendFrame(db, db');
  }

  // ---------- requests and their answers ----------

  /** Asking makes friends exactly when the other one had asked; otherwise the request waits. */
  lemma AskFriendDecides(db: Db, me: Name, other: Name)
    requires FriendInv(db) && other in db.users
    ensures var db' := AskFriend(db, me, other);
            && ((me, other) in db'.frie <==> (me, other) in db.frie || Asks(db, other, me))
            && ((me, other) !in db'.frie ==> Asks(db', me, other))
            && (me != other ==> !Asks(db', other, me))
  {
    var met := Befriend(db, me, other);
    DropItemAsks(met, me, FriendRequest(other));
    assert DropItem(met, me, FriendRequest(other)).frie == met.frie;
    hide DropItem;
    if Asks(db, other, me) && (me, other) !in db.frie {
      assert Asks(met, other, me);
    } else {
      var waiting := db.(mess := db.mess[other := [FriendRequest(me)] + db.Pending(other)]);
      assert waiting.Pending(other) == [FriendRequest(me)] + db.Pending(other);
    }
  }

  /** A request and its answer: friends on both sides exactly if accepted, and no request left. */
  lemma AskedThenAnswered(db: Db, me: Name, other: Name, yes: bool)
    requires FriendInv(db) && other in db.users && (me, other) !in db.frie && !Asks(db, other, me)
    ensures var db' := VerifyUser(AskFriend(db, me, other), AddFriendPass, other, me, yes);
            && ((me, other) in db'.frie <==> yes) && ((other, me) in db'.frie <==> yes)
            && !Asks(db', me, other) && !Asks(db', other, me)
  {
    var asked := AskFriend(db, me, other);
    assert asked.Pending(other)[0] == FriendRequest(me);
    assert FirstMatch(asked.Pending(other), me) == 0;
    DropItemAsks(if yes then Befriend(asked, other, me) else asked, other, FriendRequest(me));
    hide DropItem, FirstMatch;
  }

  /** A message between friends, or one that is not stored, keeps everything. */
  lemma MessageKeeps(db: Db, from: Name, to: Name, m: Msg, online: bool)
    requires FriendInv(db)
    requires IsStored(db, from, to, online) ==> (to, from) in db.frie
    ensures FriendInv(Message(db, from, to, m, online))
  {
    var db' := Message(db, from, to, m, online);
    assert forall a, b :: Asks(db', a, b) <==> Asks(db, a, b);
    FriendFrame(db, db');
  }

  /**
    The server itself does not refuse messages between strangers.  Friend lists
    stay symmetric exactly when the message was not stored, was sent to oneself
    or came from a friend; otherwise deleting the sender parses a missing count.
   */
  lemma SymmetryExactly(db: Db, from: Name, to: Name, m: Msg, online: bool)
    requires Symmetric(db)
    ensures Symmetric(Message(db, from, to, m, online)) <==>
              !IsStored(db, from, to, online) || from == to || (to, from) in db.frie
  {
    var db' := Message(db, from, to, m, online);
    if IsStored(db, from, to, online) {
      assert (to, from) in db'.frie;
      if from != to && (to, from) !in db.frie {
        assert (from, to) !in db.frie;
        assert (from, to) !in db'.frie;
      }
    }
  }
}
