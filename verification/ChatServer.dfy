/**
  The handlers as the server runs them: one store command after another, with
  loops over what Redis answers.  Each one is proved to do what Store says.

  A handler runs as one atomic step.  `HGETALL` answers the fields of a hash once
  each, in any order.  A failed `as_string` or `stoi` shows as an outcome.
 */
module ChatServer {
  import opened Decimal
  import opened Store

  datatype Outcome = Done | Refused | Failed

  /** `HGETALL`. */
  method HGetAll<V>(hash: map<(Name, Name), V>, key: Name) returns (fields: seq<Name>)
    ensures forall f :: f in fields <==> (key, f) in hash
    ensures forall i, j :: 0 <= i < j < |fields| ==> fields[i] != fields[j]
  {
    fields := [];
    var rest := hash.Keys;
    while rest != {}
      invariant rest <= hash.Keys
      invariant forall f :: f in fields <==> (key, f) in hash && (key, f) !in rest
      invariant forall i, j :: 0 <= i < j < |fields| ==> fields[i] != fields[j]
      decreases rest
    {
      var p :| p in rest;
      rest := rest - {p};
      if p.0 == key {
        fields := fields + [p.1];
      }
    }
  }

  lemma FirstMatchIs(items: seq<Item>, name: Name, i: nat)
    requires i <= |items| && (i < |items| ==> Matches(items[i], name))
    requires forall j :: 0 <= j < i ==> !Matches(items[j], name)
    ensures FirstMatch(items, name) == i
  {
  }

  /** The entry that a verification acts on is this one. */
  predicate FirstIs(items: seq<Item>, name: Name, item: Item) {
    FirstMatch(items, name) < |items| && items[FirstMatch(items, name)] == item
  }

  /** The mailbox hash after the first `n` fields of a sender are deleted. */
  lemma OneFieldLess(offl: map<(Name, string), Msg>, r: Name, a: Name, n: nat)
    ensures WithoutMail(offl, r, a, n) - {(r, Field(a, n))} == WithoutMail(offl, r, a, n + 1)
  {}

  lemma NoFieldLess(offl: map<(Name, string), Msg>, r: Name, a: Name)
    ensures WithoutMail(offl, r, a, 0) == offl
  {
  }

  lemma FieldStays(offl: map<(Name, string), Msg>, r: Name, a: Name, n: nat)
    ensures var rest := WithoutMail(offl, r, a, n);
            ((r, Field(a, n)) in rest <==> (r, Field(a, n)) in offl) &&
            ((r, Field(a, n)) in offl ==> rest[(r, Field(a, n))] == offl[(r, Field(a, n))])
  {
    if MailField(Field(a, n), a, n) {
      var i: nat :| i < n && Field(a, n) == Field(a, i);
      FieldInjectiveInIndex(a, n, i);
    }
  }

  /** Unread counts while a group message visits some of the members. */
  function Bumped(db: Db, g: Name, sender: Name, visited: seq<Name>): map<(Name, Name), nat> {
    map p | p in db.mygp ::
      if p.1 == g && p.0 in visited && CountsAt(db, g, sender, p.0) then db.mygp[p] + 1 else db.mygp[p]
  }

  ghost predicate HaveCounts(db: Db, g: Name, sender: Name, members: seq<Name>) {
    forall u <- members :: CountsAt(db, g, sender, u) ==> (u, g) in db.mygp
  }

  /** The first member, in the order of the answer, whose count is missing. */
  ghost predicate MissingAt(db: Db, g: Name, sender: Name, members: seq<Name>, i: nat) {
    i < |members| && CountsAt(db, g, sender, members[i]) && (members[i], g) !in db.mygp
    && HaveCounts(db, g, sender, members[..i])
  }

  /** The counts of the members before it were incremented, and nothing else. */
  ghost predicate CountedBefore(db: Db, db': Db, g: Name, sender: Name, members: seq<Name>) {
    exists i: nat :: MissingAt(db, g, sender, members, i) && db' == db.(mygp := Bumped(db, g, sender, members[..i]))
  }

  lemma BumpedStep(db0: Db, g: Name, sender: Name, visited: seq<Name>, u: Name, mygp: map<(Name, Name), nat>)
    requires (g, u) in db0.grop && u !in visited
    requires CountsAt(db0, g, sender, u) ==> (u, g) in db0.mygp
    requires mygp == if CountsAt(db0, g, sender, u)
                     then Bumped(db0, g, sender, visited)[(u, g) := db0.mygp[(u, g)] + 1]
                     else Bumped(db0, g, sender, visited)
    ensures mygp == Bumped(db0, g, sender, visited + [u])
  {}

  lemma AllBumped(db0: Db, g: Name, sender: Name, members: seq<Name>)
    requires (g, sender) in db0.grop
    requires forall u :: (g, u) in db0.grop ==> u in members
    ensures Bumped(db0, g, sender, members) == GroupMessage(db0, g, sender).mygp
  {
  }

  function LeftBy(mygp: map<(Name, Name), nat>, g: Name, visited: seq<Name>): map<(Name, Name), nat> {
    map p | p in mygp && !(p.1 == g && p.0 in visited) :: mygp[p]
  }

  function UnlistedBy(frie: map<(Name, Name), nat>, x: Name, visited: seq<Name>): map<(Name, Name), nat> {
    map p | p in frie && !(p.1 == x && p.0 in visited) :: frie[p]
  }

  function QuitBy(grop: map<(Name, Name), Rank>, x: Name, visited: seq<Name>): map<(Name, Name), Rank> {
    map p | p in grop && !(p.0 in visited && QuitsEntry(grop, x, p)) :: grop[p]
  }

  /** A field of a `frie:` hash. */
  datatype FriendField = Tagged(name: Name) | Raw(text: string)

  /** The user whose list is visited for a field, if the field can be cut. */
  predicate Visits(f: FriendField, y: Name) {
    match f
    case Tagged(name) => name == y
    case Raw(text) => CutsTo(text, y)
  }

  /** The fields answered name exactly the users visited. */
  lemma VisitedIs(db: Db, x: Name, fields: seq<FriendField>)
    requires forall y :: Tagged(y) in fields <==> (x, y) in db.frie
    requires forall t :: Raw(t) in fields <==> (x, t) in db.frieOdd
    ensures (forall f <- fields :: f.Raw? ==> |f.text| >= 5) <==> !Uncuttable(db, x)
    ensures forall y :: (exists f <- fields :: Visits(f, y)) <==> Visited(db.frie, db.frieOdd, x, y)
  {
    forall y | Visited(db.frie, db.frieOdd, x, y) ensures exists f <- fields :: Visits(f, y) {
      if (x, y) in db.frie {
        assert Visits(Tagged(y), y);
      } else {
        var o :| o in db.frieOdd && o.0 == x && CutsTo(o.1, y);
        assert Raw(o.1) in fields && Visits(Raw(o.1), y);
      }
    }
    if Uncuttable(db, x) {
      var o :| o in db.frieOdd && o.0 == x && |o.1| < 5;
      assert Raw(o.1) in fields;
    }
  }

  lemma AllUnlisted(db: Db, x: Name, visited: seq<Name>)
    requires forall y :: y in visited <==> Visited(db.frie, db.frieOdd, x, y)
    ensures (map p | p in UnlistedBy(db.frie, x, visited) && p.0 != x :: UnlistedBy(db.frie, x, visited)[p])
              == FriendsWithout(db.frie, db.frieOdd, x)
  {
    hide Visited;
  }

  class Server {
    var db: Db

    // ---------- private messages ----------

    method StoreMessages(r: Name, a: Name, m: Msg)
      modifies this`db
      ensures db == StoreMessage(old(db), r, a, m)
    {
      var count := db.Count(r, a);
      db := db.(offl := db.offl[(r, Field(a, count)) := m]);
      count := count + 1;
      db := db.(frie := db.frie[(r, a) := count]);
    }

    /** The message branch of the dispatcher. */
    method OnMessage(from: Name, to: Name, m: Msg, online: bool)
      modifies this`db
      ensures db == Message(old(db), from, to, m, online)
    {
      if (to, from) in db.blak {
        return;
      }
      if online {
        if !((from, to) in db.chatting && (to, from) in db.chatting) {
          StoreMessages(to, from, m);
        }
      } else {
        StoreMessages(to, from, m);
      }
    }

    /** Deletes the numbered fields of one sender. */
    method DropMail(r: Name, a: Name, count: nat)
      modifies this`db
      ensures db == old(db).(offl := WithoutMail(old(db).offl, r, a, count))
    {
      NoFieldLess(db.offl, r, a);
      for i := 0 to count
        invariant db == old(db).(offl := WithoutMail(old(db).offl, r, a, i))
      {
        OneFieldLess(old(db).offl, r, a, i);
        db := db.(offl := db.offl - {(r, Field(a, i))});
      }
    }

    /** The store when the first `n` unread messages of a friend have been sent and deleted. */
    static ghost function Reading(db: Db, me: Name, other: Name, n: nat): Db {
      db.(frie := db.frie[(me, other) := 0], offl := WithoutMail(db.offl, me, other, n))
    }

    /** The messages before the first that is missing. */
    static ghost predicate SentUpTo(db: Db, me: Name, other: Name, sent: seq<Msg>) {
      && |sent| <= db.Count(me, other)
      && (forall j: nat :: j < |sent| ==> (me, Field(other, j)) in db.offl && sent[j] == db.offl[(me, Field(other, j))])
      && (|sent| < db.Count(me, other) ==> (me, Field(other, |sent|)) !in db.offl)
    }

    /** Sends the unread messages of a friend, oldest first, and deletes them, up to the first that is missing. */
    method SendOfflineMeg(me: Name, other: Name) returns (ok: bool, sent: seq<Msg>)
      modifies this`db
      ensures ok <==> old(MailPresent(db, me, other))
      ensures ok ==> sent == old(Queue(db, me, other))
      ensures SentUpTo(old(db), me, other, sent) && (ok <==> |sent| == old(db).Count(me, other))
      ensures db == Reading(old(db), me, other, |sent|)
    {
      var count := db.Count(me, other);
      ghost var db0 := db;
      db := db.(frie := db.frie[(me, other) := 0]);
      sent := [];
      NoFieldLess(db0.offl, me, other);
      for i := 0 to count
        invariant db == Reading(db0, me, other, i) && |sent| == i
        invariant forall j: nat :: j < i ==>
          (me, Field(other, j)) in db0.offl && sent[j] == db0.offl[(me, Field(other, j))]
      {
        FieldStays(db0.offl, me, other, i);
        OneFieldLess(db0.offl, me, other, i);
        if (me, Field(other, i)) !in db.offl {
          return false, sent;
        }
        sent := sent + [db.offl[(me, Field(other, i))]];
        db := db.(offl := db.offl - {(me, Field(other, i))});
      }
      ok := true;
    }

    /** Sends one's own messages that the friend has not read. */
    method SendHisOfflineMeg(me: Name, other: Name) returns (ok: bool, sent: seq<Msg>)
      ensures ok <==> MailPresent(db, other, me)
      ensures ok ==> sent == Queue(db, other, me)
      ensures SentUpTo(db, other, me, sent) && (ok <==> |sent| == db.Count(other, me))
    {
      sent := [];
      for i := 0 to db.Count(other, me)
        invariant |sent| == i
        invariant forall j: nat :: j < i ==>
          (other, Field(me, j)) in db.offl && sent[j] == db.offl[(other, Field(me, j))]
      {
        if (other, Field(me, i)) !in db.offl {
          return false, sent;
        }
        sent := sent + [db.offl[(other, Field(me, i))]];
      }
      ok := true;
    }

    /**
      Opening a chat with a friend delivers exactly the friend's queue and then
      shows one's own unread messages; it fails only when a message is missing.
     */
    method Chat(me: Name, other: Name) returns (outcome: Outcome, received: seq<Msg>, unread: seq<Msg>)
      modifies this`db
      ensures outcome == Refused <==> (me, other) !in old(db).frie
      ensures outcome == Done <==>
                (me, other) in old(db).frie && old(MailPresent(db, me, other) && MailPresent(db, other, me))
      ensures outcome == Refused ==> db == old(db) && received == unread == []
      ensures outcome == Done ==> db == OpenChat(old(db), me, other)
      ensures outcome == Failed ==>
                SentUpTo(old(db), me, other, received) && db == Reading(old(db), me, other, |received|)
      ensures outcome == Failed ==>
                if |received| < old(db).Count(me, other) then unread == [] else SentUpTo(old(db), other, me, unread)
      ensures outcome == Done ==> received == old(Queue(db, me, other))
      ensures outcome == Done ==> unread == if me == other then [] else old(Queue(db, other, me))
    {
      received, unread := [], [];
      if (me, other) !in db.frie {
        return Refused, received, unread;
      }
      var ok;
      ok, received := SendOfflineMeg(me, other);
      if !ok {
        return Failed, received, unread;
      }
      assert me != other ==>
        forall i: nat :: (other, Field(me, i)) in db.offl <==> (other, Field(me, i)) in old(db).offl;
      ok, unread := SendHisOfflineMeg(me, other);
      if !ok {
        return Failed, received, unread;
      }
      db := db.(chatting := db.chatting + {(me, other)});
      outcome := Done;
    }

    /** Deleting a friend fails in the middle exactly when the friend does not list us. */
    method DeleteFriend(me: Name, other: Name) returns (outcome: Outcome)
      modifies this`db
      ensures outcome == Refused <==> (me, other) !in old(db).frie
      ensures outcome == Failed <==> (me, other) in old(db).frie && (other, me) !in old(db).frie
      ensures outcome == Refused ==> db == old(db)
      ensures outcome == Done ==> db == DelFriend(old(db), me, other)
      ensures outcome == Failed ==>
                db == old(db).(offl := WithoutMail(old(db).offl, me, other, old(db).Count(me, other)))
    {
      if (me, other) !in db.frie {
        return Refused;
      }
      DropMail(me, other, db.frie[(me, other)]);
      if (other, me) !in db.frie {
        return Failed;
      }
      DropMail(other, me, db.frie[(other, me)]);
      hide WithoutMail;
      db := db.(frie := db.frie - {(me, other)});
      db := db.(frie := db.frie - {(other, me)});
      assert db.frie == old(db).frie - {(me, other), (other, me)};
      outcome := Done;
    }

    // ---------- friend requests ----------

    method AddFriend(a: Name, b: Name)
      modifies this`db
      ensures db == old(db).(frie := old(db).frie[(a, b) := 0])
    {
      db := db.(frie := db.frie[(a, b) := 0]);
    }

    /** Whether no request of the other user waits here; one that does is met. */
    method LookMess(me: Name, other: Name) returns (none: bool)
      modifies this`db
      ensures none <==> FriendRequest(other) !in old(db).Pending(me)
      ensures none ==> db == old(db)
      ensures !none ==> db == DropItem(Befriend(old(db), me, other), me, FriendRequest(other))
    {
      var items := db.Pending(me);
      for i := 0 to |items|
        invariant db == old(db)
        invariant FriendRequest(other) !in items[..i]
      {
        if items[i] == FriendRequest(other) {
          AddFriend(other, me);
          AddFriend(me, other);
          assert db.frie == Befriend(old(db), me, other).frie;
          db := db.(mess := db.mess[me := Lrem(items, items[i])]);
          return false;
        }
      }
      none := true;
    }

    method AddAllFriend(me: Name, other: Name)
      modifies this`db
      ensures db == AskFriend(old(db), me, other)
    {
      if other in db.users {
        if !((me, other) in db.frie && (other, me) in db.frie) {
          var none := LookMess(me, other);
          if none {
            db := db.(mess := db.mess[other := [FriendRequest(me)] + db.Pending(other)]);
          }
        }
      }
    }

    /** The first entry for the name is accepted or refused and every copy of it goes. */
    method Verify(pass: Pass, me: Name, name: Name, yes: bool) returns (end: int)
      modifies this`db
      ensures db == VerifyUser(old(db), pass, me, name, yes)
      ensures end == 0 <==> forall item <- old(db).Pending(me) :: !Matches(item, name)
      ensures end == 1 || end == -1 <==> FirstIs(old(db).Pending(me), name, FriendRequest(name))
      ensures end != 0 ==> end in (if yes then {1, 2} else {-1, -2})
    {
      var items := db.Pending(me);
      for i := 0 to |items|
        invariant db == old(db)
        invariant forall j :: 0 <= j < i ==> !Matches(items[j], name)
      {
        match items[i]
        case FriendRequest(who) =>
          if who == name {
            FirstMatchIs(items, name, i);
            if yes {
              AddFriend(me, name);
              AddFriend(name, me);
            }
            db := db.(mess := db.mess[me := Lrem(items, items[i])]);
            return if yes then 1 else -1;
          }
        case Invitation(_, group) =>
          if group == name {
            FirstMatchIs(items, name, i);
            if yes {
              if pass == InvitationPass {
                db := db.(mygp := db.mygp[(me, name) := 0]);
              } else {
                db := db.(frieOdd := db.frieOdd + {(me, name)});
              }
              db := db.(grop := db.grop[(name, me) := Member]);
            }
            db := db.(mess := db.mess[me := Lrem(items, items[i])]);
            return if yes then 2 else -2;
          }
      }
      FirstMatchIs(items, name, |items|);
      end := 0;
    }

    method VerifyJoin(g: Name, name: Name, yes: bool) returns (end: int)
      modifies this`db
      ensures db == VerifyGroup(old(db), g, name, yes)
      ensures end == if name !in old(db).Asking(g) then 0 else if yes then 2 else -2
    {
      var asking := db.Asking(g);
      for i := 0 to |asking|
        invariant db == old(db)
        invariant name !in asking[..i]
      {
        if asking[i] == name {
          if yes {
            db := db.(mygp := db.mygp[(name, g) := 0]);
            db := db.(grop := db.grop[(g, name) := Member]);
          }
          db := db.(groupMess := db.groupMess[g := Lrem(asking, asking[i])]);
          return if yes then 2 else -2;
        }
      }
      end := 0;
    }

    // ---------- groups ----------

    method Join(g: Name, u: Name, r: Rank)
      modifies this`db
      ensures db == JoinGroup(old(db), g, u, r)
    {
      if u in db.users {
        db := db.(grop := db.grop[(g, u) := r]);
        db := db.(mygp := db.mygp[(u, g) := 0]);
      }
    }

    method NewGroup(g: Name, owner: Name, members: seq<Name>) returns (outcome: Outcome)
      modifies this`db
      ensures db == CreateGroup(old(db), g, owner, members)
      ensures outcome == if old(db).IsGroup(g) then Refused else Done
    {
      if exists p <- db.grop :: p.0 == g {
        return Refused;
      }
      Join(g, owner, Owner);
      ghost var start := db;
      for i := 0 to |members|
        invariant db == JoinAll(start, g, members[..i])
      {
        assert members[..i + 1][..i] == members[..i];
        Join(g, members[i], Member);
      }
      assert members[..|members|] == members;
      outcome := Done;
    }

    method DropFromLists(g: Name, members: seq<Name>)
      modifies this`db
      ensures db == old(db).(mygp := LeftBy(old(db).mygp, g, members))
    {
      for i := 0 to |members|
        invariant db == old(db).(mygp := LeftBy(old(db).mygp, g, members[..i]))
      {
        db := db.(mygp := db.mygp - {(members[i], g)});
        assert db.mygp == LeftBy(old(db).mygp, g, members[..i + 1]);
      }
      assert members[..|members|] == members;
    }

    method DelPerson(g: Name, u: Name, rank: Rank)
      modifies this`db
      ensures db == if rank == Owner then Dissolve(old(db), g) else RemoveMember(old(db), g, u)
    {
      if rank == Owner {
        var members := HGetAll(db.grop, g);
        DropFromLists(g, members);
        assert db.mygp == Dissolve(old(db), g).mygp;
        db := db.(grop := map p | p in db.grop && p.0 != g :: db.grop[p]);
      } else {
        db := db.(grop := db.grop - {(g, u)});
        db := db.(mygp := db.mygp - {(u, g)});
      }
    }

    /** Leaving a group, or dissolving it as its owner, once confirmed. */
    method DeleteGroup(me: Name, g: Name, confirmed: bool) returns (outcome: Outcome)
      modifies this`db
      ensures db == LeaveGroup(old(db), me, g, confirmed)
      ensures outcome == if (g, me) in old(db).grop && confirmed then Done else Refused
    {
      if !(exists p <- db.grop :: p.0 == g) {
        return Refused;
      }
      if (g, me) !in db.grop {
        return Refused;
      }
      if db.grop[(g, me)] != Owner && !confirmed {
        return Refused;
      }
      if db.grop[(g, me)] == Owner && !confirmed {
        return Refused;
      } else if db.grop[(g, me)] == Owner {
        DelPerson(g, me, Owner);
      } else {
        DelPerson(g, me, Member);
      }
      outcome := Done;
    }

    method CountUnread(g: Name, u: Name) returns (ok: bool)
      modifies this`db
      ensures ok <==> (u, g) in old(db).mygp
      ensures db == if ok then old(db).(mygp := old(db).mygp[(u, g) := old(db).mygp[(u, g)] + 1]) else old(db)
    {
      ok := (u, g) in db.mygp;
      if ok {
        var count := db.mygp[(u, g)];
        count := count + 1;
        db := db.(mygp := db.mygp[(u, g) := count]);
      }
    }

    method CountMembers(g: Name, sender: Name, members: seq<Name>) returns (ok: bool)
      requires forall u <- members :: (g, u) in db.grop
      requires forall i, j :: 0 <= i < j < |members| ==> members[i] != members[j]
      modifies this`db
      ensures ok <==> HaveCounts(old(db), g, sender, members)
      ensures ok ==> db == old(db).(mygp := Bumped(old(db), g, sender, members))
      ensures !ok ==> CountedBefore(old(db), db, g, sender, members)
    {
      ghost var db0 := db;
      assert db.mygp == Bumped(db0, g, sender, []);
      for i := 0 to |members|
        invariant db == db0.(mygp := Bumped(db0, g, sender, members[..i]))
        invariant HaveCounts(db0, g, sender, members[..i])
      {
        var u := members[i];
        if u != sender && (g, u) !in db.groupChatting {
          assert CountsAt(db0, g, sender, u);
          var ok := CountUnread(g, u);
          if !ok {
            assert MissingAt(db0, g, sender, members, i);
            return false;
          }
        }
        BumpedStep(db0, g, sender, members[..i], u, db.mygp);
        assert members[..i + 1] == members[..i] + [u];
        hide Bumped, CountsAt;
      }
      assert members[..|members|] == members;
      ok := true;
    }

    /**
      A group message adds one to the count of every other member who does not
      have the group open; it fails exactly when such a member has no count.
     */
    method OnGroupMessage(g: Name, sender: Name) returns (outcome: Outcome)
      modifies this`db
      ensures outcome == Refused <==> (g, sender) !in old(db).grop
      ensures outcome == Failed <==>
                (g, sender) in old(db).grop && exists u :: CountsAt(old(db), g, sender, u) && (u, g) !in old(db).mygp
      ensures outcome != Failed ==> db == GroupMessage(old(db), g, sender)
      ensures outcome == Failed ==> exists members :: CountedBefore(old(db), db, g, sender, members)
    {
      if (g, sender) !in db.grop {
        return Refused;
      }
      var members := HGetAll(db.grop, g);
      AllBumped(db, g, sender, members);
      hide Bumped;
      var ok := CountMembers(g, sender, members);
      outcome := if ok then Done else Failed;
    }

    method OnCmd(g: Name, actor: Name, target: Name, use: Use)
      modifies this`db
      ensures db == Cmd(old(db), g, actor, target, use)
    {
      var alevel, blevel := Level(db, g, actor), Level(db, g, target);
      if blevel != "null" {
        if CompareLevel(alevel, blevel) {
          if use == Del {
            db := db.(grop := db.grop - {(g, target)});
            db := db.(mygp := db.mygp - {(target, g)});
          } else if use == Upl && alevel == "owner" {
            db := db.(grop := db.grop[(g, target) := Admin]);
          } else if use == Dnl && alevel == "owner" {
            db := db.(grop := db.grop[(g, target) := Member]);
          }
        }
      }
    }

    // ---------- deleting an account ----------

    /** All fields of a friend list, tagged or not, in any order. */
    method FriendFields(x: Name) returns (fields: seq<FriendField>)
      ensures forall y :: Tagged(y) in fields <==> (x, y) in db.frie
      ensures forall t :: Raw(t) in fields <==> (x, t) in db.frieOdd
    {
      fields := [];
      var tagged, raw := db.frie.Keys, db.frieOdd;
      while tagged != {} || raw != {}
        invariant tagged <= db.frie.Keys && raw <= db.frieOdd
        invariant forall y :: Tagged(y) in fields <==> (x, y) in db.frie && (x, y) !in tagged
        invariant forall t :: Raw(t) in fields <==> (x, t) in db.frieOdd && (x, t) !in raw
        decreases |tagged| + |raw|
      {
        if tagged != {} {
          var p :| p in tagged;
          tagged := tagged - {p};
          fields := if p.0 == x then fields + [Tagged(p.1)] else fields;
        } else {
          var p :| p in raw;
          raw := raw - {p};
          fields := if p.0 == x then fields + [Raw(p.1)] else fields;
        }
      }
    }

    /** Visits the users that the fields name, until one cannot be cut. */
    method Unlist(x: Name, fields: seq<FriendField>) returns (ok: bool, ghost visited: seq<Name>)
      modifies this`db
      ensures db == old(db).(frie := UnlistedBy(old(db).frie, x, visited))
      ensures ok <==> forall f <- fields :: f.Raw? ==> |f.text| >= 5
      ensures forall y <- visited :: exists f <- fields :: Visits(f, y)
      ensures ok ==> forall f, y | f in fields && Visits(f, y) :: y in visited
    {
      visited := [];
      assert db.frie == UnlistedBy(db.frie, x, []);
      for i := 0 to |fields|
        invariant db == old(db).(frie := UnlistedBy(old(db).frie, x, visited))
        invariant forall f <- fields[..i] :: f.Raw? ==> |f.text| >= 5
        invariant forall y <- visited :: exists f <- fields :: Visits(f, y)
        invariant forall f, y | f in fields[..i] && Visits(f, y) :: y in visited
      {
        var f := fields[i];
        if f.Raw? && |f.text| < 5 {
          return false, visited;
        }
        var name := if f.Tagged? then f.name else f.text[5..];
        assert Visits(f, name);
        db := db.(frie := db.frie - {(name, x)});
        assert db.frie == UnlistedBy(old(db).frie, x, visited + [name]);
        visited := visited + [name];
      }
      ok := true;
    }

    method DeleteFriends(x: Name) returns (ok: bool, ghost visited: seq<Name>)
      modifies this`db
      ensures ok <==> !Uncuttable(old(db), x)
      ensures ok ==> db == old(db).(frie := FriendsWithout(old(db).frie, old(db).frieOdd, x),
                                    frieOdd := set o | o in old(db).frieOdd && o.0 != x)
      ensures !ok ==> db == old(db).(frie := UnlistedBy(old(db).frie, x, visited))
      ensures forall y <- visited :: Visited(old(db).frie, old(db).frieOdd, x, y)
    {
      var fields := FriendFields(x);
      ok, visited := Unlist(x, fields);
      VisitedIs(old(db), x, fields);
      if !ok {
        return;
      }
      AllUnlisted(old(db), x, visited);
      hide UnlistedBy, FriendsWithout, Visited, Uncuttable;
      db := db.(frie := map p | p in db.frie && p.0 != x :: db.frie[p],
                frieOdd := set o | o in db.frieOdd && o.0 != x);
    }

    method Quit(x: Name, groups: seq<Name>)
      modifies this`db
      ensures db == old(db).(grop := QuitBy(old(db).grop, x, groups))
    {
      for i := 0 to |groups|
        invariant db == old(db).(grop := QuitBy(old(db).grop, x, groups[..i]))
      {
        var g := groups[i];
        if (g, x) in db.grop && db.grop[(g, x)] == Owner {
          db := db.(grop := map p | p in db.grop && p.0 != g :: db.grop[p]);
        } else {
          db := db.(grop := db.grop - {(g, x)});
        }
        assert db.grop == QuitBy(old(db).grop, x, groups[..i + 1]);
      }
      assert groups[..|groups|] == groups;
    }

    method QuitGroups(x: Name)
      modifies this`db
      ensures db == old(db).(grop := GroupsWithout(old(db).grop, old(db).mygp, x),
                             mygp := map p | p in old(db).mygp && p.0 != x :: old(db).mygp[p])
    {
      var groups := HGetAll(db.mygp, x);
      Quit(x, groups);
      assert db.grop == GroupsWithout(old(db).grop, old(db).mygp, x);
      db := db.(mygp := map p | p in db.mygp && p.0 != x :: db.mygp[p]);
    }

    /** What is deleted before the friend list is read. */
    static function Erased(db: Db, x: Name): Db {
      db.(users := db.users - {x}, mess := db.mess - {x}, offl := map p | p in db.offl && p.0 != x :: db.offl[p])
    }

    /**
      Deleting an account; it fails in the middle exactly when the friend list has an
      untagged field too short to be cut.
     */
    method DeleteAccount(x: Name) returns (outcome: Outcome)
      modifies this`db
      ensures outcome == if Uncuttable(old(db), x) then Failed else Done
      ensures outcome == Done ==> db == DeleteUser(old(db), x)
      ensures outcome == Failed ==> exists visited: seq<Name> ::
                (forall y <- visited :: Visited(old(db).frie, old(db).frieOdd, x, y))
                && db == Erased(old(db), x).(frie := UnlistedBy(old(db).frie, x, visited))
    {
      hide FriendsWithout, GroupsWithout, UnlistedBy, Visited;
      db := db.(users := db.users - {x});
      db := db.(mess := db.mess - {x});
      db := db.(offl := map p | p in db.offl && p.0 != x :: db.offl[p]);
      var ok, visited := DeleteFriends(x);
      if !ok {
        return Failed;
      }
      QuitGroups(x);
      outcome := Done;
    }

    // ---------- handlers of one command ----------

    method OnRegister(x: Name, connected: bool)
      modifies this`db
      ensures db == Register(old(db), x, connected)
    {
      if x !in db.users {
        db := db.(users := db.users + {x});
        if connected {
          AddFriend(x, x);
        }
      }
    }

    method AddAllGroup(me: Name, g: Name)
      modifies this`db
      ensures db == AskGroup(old(db), me, g)
    {
      if exists p <- db.grop :: p.0 == g {
        if (me, g) !in db.mygp {
          db := db.(groupMess := db.groupMess[g := [me] + db.Asking(g)]);
        }
      }
    }

    method AddAllInvitation(me: Name, person: Name, g: Name)
      modifies this`db
      ensures db == Invite(old(db), me, person, g)
    {
      if (exists p <- db.grop :: p.0 == g) && (me, g) in db.mygp {
        if (me, person) in db.frie && (person, me) in db.frie {
          if (person, g) !in db.mygp {
            db := db.(mess := db.mess[person := [Invitation(me, g)] + db.Pending(person)]);
          }
        }
      }
    }

    method OnBlack(me: Name, other: Name)
      modifies this`db
      ensures db == Black(old(db), me, other)
    {
      if (me, other) in db.frie {
        db := db.(blak := db.blak + {(me, other)});
      }
    }

    method OnUnblack(me: Name, other: Name)
      modifies this`db
      ensures db == Unblack(old(db), me, other)
    {
      if (me, other) in db.blak {
        db := db.(blak := db.blak - {(me, other)});
      } else {
        assert db.blak - {(me, other)} == db.blak;
      }
    }

    method GChat(me: Name, g: Name)
      modifies this`db
      ensures db == OpenGroup(old(db), me, g)
    {
      if (me, g) in db.mygp {
        db := db.(mygp := db.mygp[(me, g) := 0]);
        db := db.(groupChatting := db.groupChatting + {(g, me)});
      }
    }
  }
}
