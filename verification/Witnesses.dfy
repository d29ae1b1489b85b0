/**
  Stores that the server does reach: runs that show a condition on the names or on
  the order of requests to be needed.
 */
module Witnesses {
  import opened Decimal
  import opened Store
  import opened Friendship
  import opened Groups
  import opened Mailbox
  import opened ChatRuns
  import opened ChatServer

  /** Some run of allowed requests from the empty server leads to this store. */
  ghost predicate Reached(db: Db, people: set<Name>, groups: set<Name>) {
    exists qs :: AllowedRun(EMPTY_DB, qs, people, groups) && Run(EMPTY_DB, qs) == db
  }

  lemma {:induction false} RunOn(db: Db, qs: seq<Request>, q: Request, people: set<Name>, groups: set<Name>)
    requires AllowedRun(db, qs, people, groups) && Allowed(Run(db, qs), q, people, groups)
    ensures AllowedRun(db, qs + [q], people, groups) && Run(db, qs + [q]) == Handle(Run(db, qs), q)
    decreases qs
  {
    hide Handle, Allowed;
    if qs == [] {
      assert qs + [q] == [q] && [q][1..] == [];
    } else {
      RunOn(Handle(db, qs[0]), qs[1..], q, people, groups);
      assert (qs + [q])[1..] == qs[1..] + [q];
    }
  }

  lemma ReachedStart(people: set<Name>, groups: set<Name>)
    ensures Reached(EMPTY_DB, people, groups)
  {
    assert AllowedRun(EMPTY_DB, [], people, groups) && Run(EMPTY_DB, []) == EMPTY_DB;
  }

  lemma ReachedStep(db: Db, q: Request, people: set<Name>, groups: set<Name>)
    requires Reached(db, people, groups) && Allowed(db, q, people, groups)
    ensures Reached(Handle(db, q), people, groups)
  {
    var qs :| AllowedRun(EMPTY_DB, qs, people, groups) && Run(EMPTY_DB, qs) == db;
    hide Handle, Allowed, Run, AllowedRun;
    RunOn(EMPTY_DB, qs, q, people, groups);
  }

  /** Two accounts without pending requests, after one asked and the other accepted. */
  function Friends(db: Db, x: Name, y: Name): Db {
    db.(frie := db.frie[(x, y) := 0][(y, x) := 0], mess := db.mess[y := []])
  }

  /** The request as it waits. */
  function Asked(db: Db, x: Name, y: Name): Db {
    db.(mess := db.mess[y := [FriendRequest(x)]])
  }

  lemma AskedIs(db: Db, x: Name, y: Name)
    requires y in db.users && (x, y) !in db.frie && db.Pending(x) == db.Pending(y) == []
    ensures AskFriend(db, x, y) == Asked(db, x, y)
  {
    assert [FriendRequest(x)] + db.Pending(y) == [FriendRequest(x)];
  }

  lemma AcceptedIs(db: Db, x: Name, y: Name)
    ensures VerifyUser(Asked(db, x, y), AddFriendPass, y, x, true) == Friends(db, x, y)
  {
    var asked := Asked(db, x, y);
    assert asked.Pending(y) == [FriendRequest(x)];
    assert FirstMatch([FriendRequest(x)], x) == 0;
    assert Lrem([FriendRequest(x)], FriendRequest(x)) == [];
    hide FirstMatch, Lrem;
    assert Befriend(asked, y, x).frie == Friends(db, x, y).frie;
    assert asked.mess[y := []] == db.mess[y := []];
  }

  lemma FriendsReached(db: Db, x: Name, y: Name, people: set<Name>, groups: set<Name>)
    requires Reached(db, people, groups) && x in people && y in people && x !in groups
    requires y in db.users && (x, y) !in db.frie && db.Pending(x) == db.Pending(y) == []
    ensures Reached(Friends(db, x, y), people, groups)
  {
    AskedIs(db, x, y);
    AcceptedIs(db, x, y);
    hide Reached, AskFriend, VerifyUser, Asked, Friends;
    ReachedStep(db, AsksFriend(x, y), people, groups);
    ReachedStep(Asked(db, x, y), Verifies(AddFriendPass, y, x, true), people, groups);
  }

  // ---------- a friend verification that accepts an invitation ----------

  lemma InvitedCrosses(db: Db, a: Name, b: Name, g: Name)
    requires (a, b) in db.frie && (b, a) in db.frie && (b, g) !in db.mygp && (g, a) in db.grop && (a, g) in db.mygp
    ensures Crosses(Invite(db, a, b, g), AddFriendPass, b, g, true) && (b, g) !in Invite(db, a, b, g).mygp
  {
    assert db.IsGroup(g);
    var invited := Invite(db, a, b, g);
    assert invited.Pending(b) == [Invitation(a, g)] + db.Pending(b);
    assert FirstMatch(invited.Pending(b), g) == 0;
    assert ActsOn(invited, b, g, Invitation(a, g));
  }

  lemma InvitationReached(db: Db, a: Name, b: Name, g: Name, people: set<Name>, groups: set<Name>)
    requires Reached(db, people, groups) && g in groups && a in db.users
    requires (a, b) in db.frie && (b, a) in db.frie && (b, g) !in db.mygp && !db.IsGroup(g) && a != b
    ensures exists db' :: Reached(db', people, groups) && Crosses(db', AddFriendPass, b, g, true) && (b, g) !in db'.mygp
  {
    hide Reached, Crosses, Invite;
    var created := JoinAs(db, g, a, Owner);
    assert CreateGroup(db, g, a, []) == created;
    ReachedStep(db, CreatesGroup(g, a, []), people, groups);
    InvitedCrosses(created, a, b, g);
    ReachedStep(created, Invites(a, b, g), people, groups);
  }

  /** Six requests with names kept apart, and the next verification may meet an invitation. */
  lemma CrossingReached(a: Name, b: Name, g: Name)
    requires a != b && a != g
    ensures exists db :: Reached(db, {a, b}, {g}) && Crosses(db, AddFriendPass, b, g, true) && (b, g) !in db.mygp
  {
    var people, groups := {a, b}, {g};
    ReachedStart(people, groups);
    ReachedStep(EMPTY_DB, Registers(a, false), people, groups);
    var s1 := EMPTY_DB.(users := {a});
    assert EMPTY_DB.users + {a} == {a};
    ReachedStep(s1, Registers(b, false), people, groups);
    var s2 := s1.(users := {a, b});
    assert s1.users + {b} == s2.users;
    FriendsReached(s2, a, b, people, groups);
    InvitationReached(Friends(s2, a, b), a, b, g, people, groups);
  }

  // ---------- a listed group without its member ----------

  /** Two accounts. */
  lemma AccountsReached(a: Name, b: Name, people: set<Name>, groups: set<Name>)
    requires a in people && b in people
    ensures Reached(EMPTY_DB.(users := {a, b}), people, groups)
  {
    ReachedStart(people, groups);
    ReachedStep(EMPTY_DB, Registers(a, false), people, groups);
    var s1 := EMPTY_DB.(users := {a});
    assert EMPTY_DB.users + {a} == {a};
    ReachedStep(s1, Registers(b, false), people, groups);
    assert a != b ==> s1.users + {b} == {a, b};
    assert a == b ==> Handle(s1, Registers(b, false)) == s1 && {a, b} == {a};
  }

  lemma GroupOfTwo(db: Db, g: Name, a: Name, b: Name)
    requires !db.IsGroup(g) && a in db.users && b in db.users
    ensures CreateGroup(db, g, a, [b]) == JoinAs(JoinAs(db, g, a, Owner), g, b, Member)
  {
    var owned := JoinGroup(db, g, a, Owner);
    assert JoinAll(owned, g, []) == owned && [b][..|[b]| - 1] == [];
  }

  lemma DeletedOwner(db: Db, g: Name, a: Name, b: Name)
    requires a != b
    ensures var two := JoinAs(JoinAs(db, g, a, Owner), g, b, Member);
            OwnsWithOthers(two, a) && (b, g) in DeleteUser(two, a).mygp && (g, b) !in DeleteUser(two, a).grop
  {
    var two := JoinAs(JoinAs(db, g, a, Owner), g, b, Member);
    assert two.HasRank(g, a, Owner) && (g, b) in two.grop;
  }

  /** Three requests, and the owner of a group leaves it in the list of somebody who is in no group any more. */
  lemma ListedIsNotMember(a: Name, b: Name, g: Name)
    requires a != b
    ensures exists db :: Reached(db, {a, b}, {g}) && OwnsWithOthers(db, a)
                         && (b, g) in DeleteUser(db, a).mygp && (g, b) !in DeleteUser(db, a).grop
  {
    var people, groups := {a, b}, {g};
    var two := EMPTY_DB.(users := {a, b});
    AccountsReached(a, b, people, groups);
    ReachedStep(two, CreatesGroup(g, a, [b]), people, groups);
    GroupOfTwo(two, g, a, b);
    DeletedOwner(two, g, a, b);
    hide Reached, DeleteUser, OwnsWithOthers, CreateGroup, JoinAs;
    assert Reached(JoinAs(JoinAs(two, g, a, Owner), g, b, Member), people, groups);
  }

  // ---------- a message from a stranger ----------

  /**
    Two accounts that are no friends: a message is stored, one list names the other
    user and not the other way round.
   */
  lemma StrangerReached(a: Name, b: Name, text: Msg)
    requires a != b
    ensures exists db :: Reached(db, {a, b}, {}) && a in db.users && b in db.users && IsStored(db, a, b, false)
                         && (b, a) in Message(db, a, b, text, false).frie
                         && (a, b) !in Message(db, a, b, text, false).frie
  {
    AccountsReached(a, b, {a, b}, {});
    hide Reached;
    var db := EMPTY_DB.(users := {a, b});
    assert IsStored(db, a, b, false);
  }

  /**
    Over stores with friend lists that agree: after a stored message, the receiver's
    deletion of the sender fails half-way exactly when the sender was a stranger.
   */
  method DeletionAfterMessage(s: Server, from: Name, to: Name, text: Msg, online: bool) returns (outcome: Outcome)
    requires Symmetric(s.db) && IsStored(s.db, from, to, online)
    modifies s
    ensures outcome == Failed <==> from != to && (to, from) !in old(s.db).frie
    ensures outcome != Refused
  {
    SymmetryExactly(s.db, from, to, text, online);
    s.OnMessage(from, to, text, online);
    outcome := s.DeleteFriend(to, from);
  }

  // ---------- a command of somebody who is no member ----------

  /** Three requests, and an account that is in no group removes the owner of one. */
  lemma OutsiderReached(a: Name, c: Name, g: Name)
    requires a != c
    ensures exists db :: Reached(db, {a, c}, {g}) && c in db.users && (g, c) !in db.grop && db.HasRank(g, a, Owner)
                         && (g, a) !in Cmd(db, g, c, a, Del).grop
  {
    var people, groups := {a, c}, {g};
    var two := EMPTY_DB.(users := {a, c});
    AccountsReached(a, c, people, groups);
    ReachedStep(two, CreatesGroup(g, a, []), people, groups);
    var db := JoinAs(two, g, a, Owner);
    assert CreateGroup(two, g, a, []) == db;
    hide Reached;
    RemovalExactly(db, g, c, a);
  }

  // ---------- exactly which names are safe ----------

  /** The store after `n` messages of a sender. */
  function Sent(db: Db, r: Name, a: Name, n: nat): Db {
    if n == 0 then db else StoreMessage(Sent(db, r, a, n - 1), r, a, "old")
  }

  /** What sending does: the count goes up, the fields are there, and nothing else is stored. */
  lemma {:induction false} SentIs(db: Db, r: Name, a: Name, n: nat)
    requires (r, a) in db.frie && db.Count(r, a) == 0
    ensures var db' := Sent(db, r, a, n);
            && db' == db.(offl := db'.offl, frie := db'.frie) && db'.frie == db.frie[(r, a) := n]
            && (forall i: nat | i < n :: (r, Field(a, i)) in db'.offl)
            && (forall p <- db'.offl :: p in db.offl || db'.offl[p] == "old")
            && (forall p <- db.offl :: p in db'.offl && (db.offl[p] == "old" ==> db'.offl[p] == "old"))
  {
    if n > 0 {
      SentIs(db, r, a, n - 1);
      hide Field;
    }
  }

  lemma SendIs(db: Db, r: Name, a: Name, people: set<Name>, groups: set<Name>)
    requires (r, a) in db.frie && (r, a) !in db.blak
    ensures Allowed(db, Sends(a, r, "old", false), people, groups)
    ensures Handle(db, Sends(a, r, "old", false)) == StoreMessage(db, r, a, "old")
  {
    hide StoreMessage;
  }

  lemma {:induction false} SentToFriend(db: Db, r: Name, a: Name, n: nat)
    requires (r, a) in db.frie
    ensures (r, a) in Sent(db, r, a, n).frie && Sent(db, r, a, n).blak == db.blak
  {
    if n > 0 {
      SentToFriend(db, r, a, n - 1);
      hide Field;
    }
  }

  lemma {:induction false} SentReached(db: Db, r: Name, a: Name, n: nat, people: set<Name>, groups: set<Name>)
    requires Reached(db, people, groups) && (r, a) in db.frie && (r, a) !in db.blak
    ensures Reached(Sent(db, r, a, n), people, groups)
  {
    if n > 0 {
      var before := Sent(db, r, a, n - 1);
      hide Reached, Handle, Allowed, StoreMessage;
      assert Sent(db, r, a, n) == StoreMessage(before, r, a, "old");
      hide *;
      SentReached(db, r, a, n - 1, people, groups);
      SentToFriend(db, r, a, n - 1);
      SendIs(before, r, a, people, groups);
      ReachedStep(before, Sends(a, r, "old", false), people, groups);
    }
  }

  /** Three accounts, the first friends with the other two. */
  function Three(r: Name, a: Name, b: Name): Db {
    Friends(Friends(EMPTY_DB.(users := {r, a, b}), r, a), r, b)
  }

  lemma ThreeReached(r: Name, a: Name, b: Name)
    requires r != a && r != b && a != b
    ensures Reached(Three(r, a, b), {r, a, b}, {})
  {
    var people: set<Name>, groups: set<Name> := {r, a, b}, {};
    ReachedStart(people, groups);
    ReachedStep(EMPTY_DB, Registers(r, false), people, groups);
    var s1 := EMPTY_DB.(users := {r});
    assert EMPTY_DB.users + {r} == {r};
    ReachedStep(s1, Registers(a, false), people, groups);
    var s2 := s1.(users := {r, a});
    assert s1.users + {a} == {r, a};
    ReachedStep(s2, Registers(b, false), people, groups);
    var s3 := s2.(users := {r, a, b});
    assert s2.users + {b} == {r, a, b};
    hide Reached, Handle;
    FriendsReached(s3, r, a, people, groups);
    FriendsReached(Friends(s3, r, a), r, b, people, groups);
  }

  /** No message from `a` to a friend, in any store that is reached, touches the friend's queue of `b`. */
  ghost predicate NeverTouches(a: Name, b: Name) {
    forall db, r, m, people, groups {:trigger Reached(db, people, groups), StoreMessage(db, r, a, m)} ::
      Reached(db, people, groups) && (r, a) in db.frie && MailPresent(db, r, b) ==>
        MailPresent(StoreMessage(db, r, a, m), r, b) && Queue(StoreMessage(db, r, a, m), r, b) == Queue(db, r, b)
  }

  /** A mailbox with `k` messages of one friend and `j + 1` of another, all there. */
  function Filled(r: Name, a: Name, k: nat, b: Name, j: nat): Db {
    Sent(Sent(Three(r, a, b), r, b, j + 1), r, a, k)
  }

  lemma FilledReached(r: Name, a: Name, k: nat, b: Name, j: nat)
    requires r != a && r != b && a != b
    ensures Reached(Filled(r, a, k, b, j), {r, a, b}, {})
  {
    hide Reached, Sent;
    ThreeReached(r, a, b);
    var three := Three(r, a, b);
    SentReached(three, r, b, j + 1, {r, a, b}, {});
    SentIs(three, r, b, j + 1);
    var some := Sent(three, r, b, j + 1);
    assert (r, a) in some.frie && some.Count(r, a) == 0 && some.blak == {};
    SentReached(some, r, a, k, {r, a, b}, {});
  }

  lemma FilledIs(r: Name, a: Name, k: nat, b: Name, j: nat)
    requires r != a && r != b && a != b
    ensures var db := Filled(r, a, k, b, j);
            && db.frie == Three(r, a, b).frie[(r, b) := j + 1][(r, a) := k]
            && (forall i: nat | i < k :: (r, Field(a, i)) in db.offl)
            && (forall i: nat | i < j + 1 :: (r, Field(b, i)) in db.offl)
            && (forall p <- db.offl :: db.offl[p] == "old")
  {
    hide Sent, Field;
    SentIs(Three(r, a, b), r, b, j + 1);
    var some := Sent(Three(r, a, b), r, b, j + 1);
    assert (r, a) in some.frie && some.Count(r, a) == 0;
    SentIs(some, r, a, k);
  }

  lemma ThreeIs(r: Name, a: Name, b: Name)
    ensures forall x, y :: (x, y) in Three(r, a, b).frie <==>
              (x, y) == (r, a) || (x, y) == (a, r) || (x, y) == (r, b) || (x, y) == (b, r)
    ensures forall p <- Three(r, a, b).frie :: Three(r, a, b).frie[p] == 0
  {}

  lemma CountedIsPresent(db: Db, x: Name, y: Name)
    requires forall i: nat | i < db.Count(x, y) :: (x, Field(y, i)) in db.offl
    ensures MailPresent(db, x, y)
  {}

  /** Every message counted is there, and friend lists agree. */
  lemma FilledIsConsistent(r: Name, a: Name, k: nat, b: Name, j: nat)
    requires r != a && r != b && a != b
    ensures AllPresent(Filled(r, a, k, b, j)) && Symmetric(Filled(r, a, k, b, j))
  {
    FilledIs(r, a, k, b, j);
    ThreeIs(r, a, b);
    hide Filled, Field, Three, MailPresent;
    var db := Filled(r, a, k, b, j);
    forall x, y | (x, y) in db.frie ensures MailPresent(db, x, y) {
      CountedIsPresent(db, x, y);
    }
  }

  /**
    Message number `k` of `a` overwrites message number `j` of `b`, at a friend of
    both, in a store that is reached and where nothing is missing.
   */
  lemma CollisionTouches(a: Name, k: nat, b: Name, j: nat)
    requires a != b && Field(a, k) == Field(b, j)
    ensures !NeverTouches(a, b)
  {
    var r := a + b + "r";
    FilledReached(r, a, k, b, j);
    FilledIs(r, a, k, b, j);
    var db := Filled(r, a, k, b, j);
    var db' := StoreMessage(db, r, a, "new");
    hide Filled, Reached;
    assert db.Count(r, a) == k && db.Count(r, b) == j + 1;
    assert MailPresent(db, r, b);
    assert db'.offl[(r, Field(b, j))] == "new";
    hide Field;
    if MailPresent(db', r, b) {
      assert Queue(db, r, b)[j] == "old";
      assert Queue(db', r, b)[j] == "new";
    }
  }

  /**
    Two senders are safe from each other exactly when neither name is the other
    followed by a number without leading zero.
   */
  lemma SafeNamesExactly(a: Name, b: Name)
    requires a != b
    ensures NeverTouches(a, b) <==> !Extends(a, b) && !Extends(b, a)
  {
    if Extends(a, b) {
      ExtensionCollides(a, b);
      var i :| Field(a, i) == Field(b, 0);
      CollisionTouches(a, i, b, 0);
    } else if Extends(b, a) {
      ExtensionCollides(b, a);
      var i :| Field(b, i) == Field(a, 0);
      CollisionTouches(a, 0, b, i);
    } else {
      forall db, r, m, people, groups | Reached(db, people, groups) && (r, a) in db.frie && MailPresent(db, r, b)
        ensures MailPresent(StoreMessage(db, r, a, m), r, b)
        ensures Queue(StoreMessage(db, r, a, m), r, b) == Queue(db, r, b)
      {
        StoreSpares(db, r, a, m, r, b);
      }
    }
  }
}
